/**
 * The single-state tokenizer of src/lex/lexer.rs: one ordered rule list, no
 * state stack and no end latch.
 */
module Lexers {
  import opened Wrappers
  import opened Positions
  import opened Tokens
  import opened StateChanges
  import opened StateStacks
  import opened LexCore
  import opened LexerStates

  /** `LexMatchedFunc`: a token and an advance from the matched text. */
  type LexMatchedFunc = string -> (Token, IncrementOffset)

  /** What `next` reads and never changes. */
  datatype LexerConfig = LexerConfig(matcher: Matcher, ignore: Option<Pattern>, eof: Option<Token>, rules: seq<LexRule<LexMatchedFunc>>)

  /** One call of `Lexer::next`: the answer and the cursor after the call. */
  function LexerNextSpec(cfg: LexerConfig, c: Cursor, src: string): (r: (Result<Token>, Cursor))
    requires ProperIgnore(cfg.matcher, cfg.ignore) && c.Valid()
    // the cursor stays consistent and never moves backwards
    ensures r.1.Valid() && r.1.offset >= c.offset && r.1.line >= c.line
    // at the end of the text: the end token, again and again, nothing moves
    ensures c.offset >= |src| ==> r == (EofResult(cfg.eof), c)
    // only ignorable text left: the end token, with the cursor past the ignored text
    ensures c.offset < |src| && SkipIgnore(cfg.matcher, cfg.ignore, src, c.offset) >= |src| ==>
      r == (EofResult(cfg.eof), c.(offset := SkipIgnore(cfg.matcher, cfg.ignore, src, c.offset)))
    // otherwise the call fails exactly when no rule matches after the ignored text
    ensures c.offset < |src| && SkipIgnore(cfg.matcher, cfg.ignore, src, c.offset) < |src| ==>
      (r.0.Err? <==> FirstMatch(cfg.matcher, cfg.rules, src[SkipIgnore(cfg.matcher, cfg.ignore, src, c.offset)..]).None?)
    // a failure leaves the cursor after the ignored text
    ensures r.0.Err? ==> r.1 == c.(offset := SkipIgnore(cfg.matcher, cfg.ignore, src, c.offset))
  {
    if c.offset >= |src| then
      (EofResult(cfg.eof), c)
    else
      var s := c.(offset := SkipIgnore(cfg.matcher, cfg.ignore, src, c.offset));
      if s.offset >= |src| then
        (EofResult(cfg.eof), s)
      else
        match FirstMatch(cfg.matcher, cfg.rules, src[s.offset..])
        case None => (Err, s)
        case Some(i) =>
          var (token, inc) := cfg.rules[i].factory(MatchedText(cfg.matcher, cfg.rules[i].pattern, src[s.offset..]));
          var c' := s.Advance(inc.incrementOffset, inc.incrementLines);
          (Ok(token.SetLocation(s.CurrentPosition(), c'.CurrentPosition())), c')
  }

  /**
   * A call that leaves the cursor at or past the end is followed by end
   * tokens only, with the cursor still: the end is stable.
   */
  lemma LexerEndIsStable(cfg: LexerConfig, c: Cursor, src: string)
    requires ProperIgnore(cfg.matcher, cfg.ignore) && c.Valid()
    ensures var (_, c') := LexerNextSpec(cfg, c, src);
      c'.offset >= |src| ==> LexerNextSpec(cfg, c', src) == (EofResult(cfg.eof), c')
  {
  }

  /** A `Lexer` factory seen as a `LexerState` factory: no stack operation, custom state untouched. */
  function Lift<S>(f: LexMatchedFunc): TokenFactoryFunc<S>
  {
    (u: S, text: string) =>
      var (token, inc) := f(text);
      (token, StateChange(inc.incrementOffset, inc.incrementLines, []), u)
  }

  function LiftRules<S>(rules: seq<LexRule<LexMatchedFunc>>): (r: seq<LexRule<TokenFactoryFunc<S>>>)
    ensures |r| == |rules|
    ensures forall i :: 0 <= i < |rules| ==> r[i] == LexRule(rules[i].pattern, Lift(rules[i].factory))
  {
    seq(|rules|, i requires 0 <= i < |rules| => LexRule(rules[i].pattern, Lift(rules[i].factory)))
  }

  /**
   * `Lexer` is `LexerState` with one lexical state and factories that request
   * no stack operation: the same answers and the same cursor, with the stack
   * and the custom state untouched.
   */
  lemma LexerAgreesWithEngine<S>(cfg: LexerConfig, c: Cursor, src: string, state: string, stack: seq<string>, custom: S)
    requires ProperIgnore(cfg.matcher, cfg.ignore) && c.Valid()
    ensures
      var (r, c') := LexerNextSpec(cfg, c, src);
      var ecfg := EngineConfig(cfg.matcher, cfg.ignore, cfg.eof, map[state := LiftRules<S>(cfg.rules)]);
      var (er, ev) := NextSpec(ecfg, EngineView(c, false, Modes(state, stack), custom), src);
      er == r && ev.cursor == c' && ev.modes == Modes(state, stack) && ev.custom == custom
  {
    var ecfg := EngineConfig(cfg.matcher, cfg.ignore, cfg.eof, map[state := LiftRules<S>(cfg.rules)]);
    var v := EngineView(c, false, Modes(state, stack), custom);
    if c.offset < |src| {
      var off := SkipIgnore(cfg.matcher, cfg.ignore, src, c.offset);
      if off < |src| {
        FirstMatchSamePatterns(cfg.matcher, cfg.rules, LiftRules<S>(cfg.rules), src[off..]);
        var found := FirstMatch(cfg.matcher, cfg.rules, src[off..]);
        if found.Some? {
          var i := found.value;
          var text := MatchedText(cfg.matcher, cfg.rules[i].pattern, src[off..]);
          assert Lookup(cfg.matcher, ecfg.rules, state, src[off..]) == Some((text, Lift(cfg.rules[i].factory)));
        }
      }
    }
  }

  /** `Lexer`. */
  class Lexer {
    var offset: nat
    var line: nat
    var lineOffset: nat
    var ignoreRegex: Option<Pattern>
    var lexRegex: seq<LexRule<LexMatchedFunc>>
    var eof: Option<Token>
    const matcher: Matcher

    ghost predicate Valid()
      reads this
    {
      lineOffset <= offset && ProperIgnore(matcher, ignoreRegex)
    }

    function Cursor(): LexCore.Cursor
      reads this
    {
      LexCore.Cursor(offset, line, lineOffset)
    }

    function Config(): LexerConfig
      reads this
    {
      LexerConfig(matcher, ignoreRegex, eof, lexRegex)
    }

    /** `Lexer::new`: at the start of line 1, nothing configured. */
    constructor (matcher: Matcher)
      ensures Valid()
      ensures Cursor() == LexCore.Cursor(0, 1, 0) && Config() == LexerConfig(matcher, None, None, [])
    {
      offset := 0;
      line := 1;
      lineOffset := 0;
      ignoreRegex := None;
      lexRegex := [];
      eof := None;
      this.matcher := matcher;
    }

    /** `reset`: back to the start, with the ignore pattern, the rules and the end factory dropped. */
    method Reset()
      modifies this
      ensures Valid()
      ensures Cursor() == LexCore.Cursor(0, 1, 0) && Config() == LexerConfig(matcher, None, None, [])
    {
      offset := 0;
      line := 1;
      lineOffset := 0;
      ignoreRegex := None;
      lexRegex := [];
      eof := None;
    }

    /** `skip_ignore`: step over ignore-pattern matches; answers whether the text is exhausted. */
    method SkipIgnore(src: string) returns (atEnd: bool)
      requires Valid()
      modifies this`offset
      ensures Valid()
      ensures offset == LexCore.SkipIgnore(matcher, ignoreRegex, src, old(offset))
      ensures atEnd <==> offset >= |src|
    {
      while true
        invariant Valid() && offset >= old(offset)
        invariant LexCore.SkipIgnore(matcher, ignoreRegex, src, offset) == LexCore.SkipIgnore(matcher, ignoreRegex, src, old(offset))
        decreases if offset <= |src| then |src| - offset else 0
      {
        var increment: Option<nat> := None;
        if ignoreRegex.Some? && offset <= |src| {
          increment := matcher(ignoreRegex.value, src[offset..]);
        }
        if increment.Some? {
          offset := offset + increment.value;
        } else {
          return offset >= |src|;
        }
      }
    }

    /** `set_ignore`: the pattern must never match empty text (see `ProperIgnore`). */
    method SetIgnore(re: Pattern)
      requires Valid() && ProperIgnore(matcher, Some(re))
      modifies this`ignoreRegex
      ensures Valid() && ignoreRegex == Some(re)
    {
      ignoreRegex := Some(re);
    }

    /** `set_eof`. */
    method SetEof(eof: Token)
      modifies this`eof
      ensures this.eof == Some(eof)
    {
      this.eof := Some(eof);
    }

    /** `add_token`: append a rule after the existing ones. */
    method AddToken(re: Pattern, tokenFactory: LexMatchedFunc)
      modifies this`lexRegex
      ensures lexRegex == old(lexRegex) + [LexRule(re, tokenFactory)]
    {
      lexRegex := lexRegex + [LexRule(re, tokenFactory)];
    }

    /** `increment_offset`. */
    method IncrementOffset(inc: IncrementOffset)
      requires Valid()
      modifies this`offset, this`line, this`lineOffset
      ensures Valid()
      ensures Cursor() == old(Cursor()).Advance(inc.incrementOffset, inc.incrementLines)
    {
      offset := offset + inc.incrementOffset;
      if inc.incrementLines != 0 {
        line := line + inc.incrementLines;
        lineOffset := offset;
      }
    }

    /** `get_current_position`. */
    function GetCurrentPosition(): (p: Position)
      requires Valid()
      reads this
      ensures p == Cursor().CurrentPosition()
    {
      Position(line, offset - lineOffset)
    }

    /** `next_token`: the first rule, in registration order, matching the rest of the text. */
    method NextToken(src: string) returns (r: Option<(Token, IncrementOffset)>)
      ensures offset > |src| ==> r.None?
      ensures offset <= |src| ==>
        var found := FirstMatch(matcher, lexRegex, src[offset..]);
        && (found.None? <==> r.None?)
        && (found.Some? ==> r.value == lexRegex[found.value].factory(MatchedText(matcher, lexRegex[found.value].pattern, src[offset..])))
    {
      if offset > |src| {
        return None;
      }
      var rest := src[offset..];
      var i := 0;
      while i < |lexRegex|
        invariant i <= |lexRegex|
        invariant FirstMatch(matcher, lexRegex, rest) == FirstMatch(matcher, lexRegex, rest, i)
      {
        var matched := matcher(lexRegex[i].pattern, rest);
        if matched.Some? {
          return Some(lexRegex[i].factory(rest[..matched.value]));
        }
        i := i + 1;
      }
      return None;
    }

    /**
     * `next`: the next token of `src`, see `LexerNextSpec`. The source's
     * `while` either breaks or returns in its first round, so it is an `if`.
     */
    method Next(src: string) returns (r: Result<Token>)
      requires Valid()
      modifies this`offset, this`line, this`lineOffset
      ensures Valid()
      ensures (r, Cursor()) == LexerNextSpec(Config(), old(Cursor()), src)
    {
      if offset < |src| {
        var atEnd := SkipIgnore(src);
        if atEnd {
          return EofResult(eof);
        }
        var beginPosition := GetCurrentPosition();
        var next := NextToken(src);
        match next
        case None =>
          return Err;
        case Some((token, inc)) =>
          IncrementOffset(inc);
          return Ok(token.SetLocation(beginPosition, GetCurrentPosition()));
      }
      r := EofResult(eof);
    }
  }
}
