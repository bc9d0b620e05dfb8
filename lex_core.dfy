/**
 * What the two lexers (src/lex/lexer.rs and src/lex/lexer_state.rs) share:
 * the pattern oracle that replaces the regex crate, the skipping of ignorable
 * text, the line/offset cursor and first-match rule lookup.
 */
module LexCore {
  import opened Wrappers
  import opened Positions

  /** A regular expression, kept as its source text. */
  type Pattern = string

  function NoMatch(p: Pattern, s: string): Option<nat>
  {
    None
  }

  /**
   * The regex engine's `find` on the rest of the input, reduced to the length
   * of the match. Every pattern the source registers starts with `^`, so a
   * match is a prefix of the text searched: its length never exceeds it.
   */
  type Matcher = m: (Pattern, string) -> Option<nat>
    | forall p, s :: m(p, s).Some? ==> m(p, s).value <= |s|
    witness NoMatch

  /**
   * An ignore pattern must consume something whenever it matches; an empty
   * match would make `skip_ignore` loop for ever.
   */
  ghost predicate ProperIgnore(m: Matcher, ignore: Option<Pattern>)
  {
    ignore.Some? ==> forall s :: m(ignore.value, s).Some? ==> m(ignore.value, s).value > 0
  }

  /**
   * `skip_ignore`'s final offset: while the ignore pattern matches at the
   * offset, step over the match. An offset past the end of the text stops the
   * loop at once (`src.get(offset..)` is `None`).
   */
  function SkipIgnore(m: Matcher, ignore: Option<Pattern>, src: string, offset: nat): (r: nat)
    requires ProperIgnore(m, ignore)
    ensures r >= offset
    ensures offset <= |src| ==> r <= |src|
    ensures ignore.None? || offset > |src| ==> r == offset
    ensures r <= |src| && ignore.Some? ==> m(ignore.value, src[r..]).None?
    decreases if offset <= |src| then |src| - offset else 0
  {
    if ignore.Some? && offset <= |src| && m(ignore.value, src[offset..]).Some? then
      SkipIgnore(m, ignore, src, offset + m(ignore.value, src[offset..]).value)
    else
      offset
  }

  /** Skipping from a point where nothing is ignorable stays put: the skip is idempotent. */
  lemma SkipIgnoreIdempotent(m: Matcher, ignore: Option<Pattern>, src: string, offset: nat)
    requires ProperIgnore(m, ignore)
    ensures SkipIgnore(m, ignore, src, SkipIgnore(m, ignore, src, offset)) == SkipIgnore(m, ignore, src, offset)
  {
  }

  /** The cursor fields `offset`, `line` and `line_offset`. */
  datatype Cursor = Cursor(offset: nat, line: nat, lineOffset: nat)
  {
    /** `line_offset` is the offset at which the current line starts, never beyond `offset`. */
    predicate Valid()
    {
      lineOffset <= offset
    }

    /** `get_current_position`: the line, and the column as the distance from the line start. */
    function CurrentPosition(): (p: Position)
      requires Valid()
      ensures p.line == line && p.column + lineOffset == offset
    {
      Position(line, offset - lineOffset)
    }

    /**
     * The cursor part of `state_change` / `increment_offset`: advance the
     * offset; only a non-zero line count moves the line and restarts the
     * column at the new offset.
     */
    function Advance(incOffset: nat, incLines: nat): (c: Cursor)
      ensures c.offset == offset + incOffset
      ensures incLines == 0 ==> c.line == line && c.lineOffset == lineOffset
      ensures incLines != 0 ==> c.line == line + incLines && c.lineOffset == c.offset
      ensures Valid() ==> c.Valid()
    {
      if incLines != 0 then
        Cursor(offset + incOffset, line + incLines, offset + incOffset)
      else
        Cursor(offset + incOffset, line, lineOffset)
    }
  }

  /** A registered token rule: a pattern and what to build from its match. */
  datatype LexRule<F> = LexRule(pattern: Pattern, factory: F)

  /**
   * `find_map` over the rules from index `from`: the index of the first rule,
   * in registration order, whose pattern matches `s`.
   */
  function FirstMatch<F>(m: Matcher, rules: seq<LexRule<F>>, s: string, from: nat := 0): (r: Option<nat>)
    requires from <= |rules|
    ensures r.Some? ==> from <= r.value < |rules| && m(rules[r.value].pattern, s).Some?
    ensures r.Some? ==> forall j :: from <= j < r.value ==> m(rules[j].pattern, s).None?
    ensures r.None? <==> forall j :: from <= j < |rules| ==> m(rules[j].pattern, s).None?
    decreases |rules| - from
  {
    if from == |rules| then None
    else if m(rules[from].pattern, s).Some? then Some(from)
    else FirstMatch(m, rules, s, from + 1)
  }

  /** Rule lists with the same patterns in the same order pick the same index, whatever their factories. */
  lemma FirstMatchSamePatterns<F, G>(m: Matcher, a: seq<LexRule<F>>, b: seq<LexRule<G>>, s: string)
    requires |a| == |b| && forall i :: 0 <= i < |a| ==> a[i].pattern == b[i].pattern
    ensures FirstMatch(m, a, s) == FirstMatch(m, b, s)
  {
  }

  /** The text a rule's pattern matched: a prefix of `s`. */
  function MatchedText(m: Matcher, p: Pattern, s: string): (t: string)
    requires m(p, s).Some?
    ensures t <= s && |t| == m(p, s).value
  {
    s[..m(p, s).value]
  }
}
