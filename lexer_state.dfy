/**
 * The stateful tokenizer engine of src/lex/lexer_state.rs: `LexerTokenFactory`
 * (the lexical-state stack and the per-state rule lists) and `LexerState`
 * (the cursor, the end-of-input latch and `next`).
 */
module LexerStates {
  import opened Wrappers
  import opened Positions
  import opened Tokens
  import opened StateChanges
  import opened StateStacks
  import opened LexCore

  /**
   * `TokenFactoryFunc<S>`: from the custom state and the matched text, a token,
   * a state change and the custom state as the factory leaves it.
   */
  type TokenFactoryFunc<!S> = (S, string) -> (Token, StateChange, S)

  /** The rule lists, keyed by lexical-state name. */
  type RuleTable<!S> = map<string, seq<LexRule<TokenFactoryFunc<S>>>>

  /** `LexerTokenSnapshot`. */
  datatype LexerTokenSnapshot = LexerTokenSnapshot(stateStack: seq<string>, currentState: string)

  /** `LexerStateSnapshot`. */
  datatype LexerStateSnapshot = LexerStateSnapshot(offset: nat, line: nat, lineOffset: nat, tokenSnapshot: LexerTokenSnapshot)

  /** What `next` may change: the cursor, the end latch, the state stack and the custom state. */
  datatype EngineView<S> = EngineView(cursor: Cursor, isEof: bool, modes: Modes<string>, custom: S)

  /** What `next` reads and never changes. */
  datatype EngineConfig<!S> = EngineConfig(matcher: Matcher, ignore: Option<Pattern>, eof: Option<Token>, rules: RuleTable<S>)

  /** `next_eof`'s answer: the end token if an end factory is set, otherwise failure. */
  function EofResult(eof: Option<Token>): (r: Result<Token>)
    ensures r.Ok? <==> eof.Some?
    ensures r.Ok? ==> r.value == eof.value
  {
    if eof.Some? then Ok(eof.value) else Err
  }

  /**
   * `LexerTokenFactory::get`: consult only the current state's rule list and
   * take the first rule, in registration order, whose pattern matches.
   */
  function Lookup<S>(m: Matcher, rules: RuleTable<S>, state: string, rest: string): (r: Option<(string, TokenFactoryFunc<S>)>)
    ensures r.None? <==> state !in rules || forall j :: 0 <= j < |rules[state]| ==> m(rules[state][j].pattern, rest).None?
    ensures r.Some? ==> state in rules && FirstMatch(m, rules[state], rest).Some?
    ensures r.Some? ==>
      var i := FirstMatch(m, rules[state], rest).value;
      r.value == (MatchedText(m, rules[state][i].pattern, rest), rules[state][i].factory)
  {
    if state !in rules then None
    else
      match FirstMatch(m, rules[state], rest)
      case None => None
      case Some(i) => Some((MatchedText(m, rules[state][i].pattern, rest), rules[state][i].factory))
  }

  /** Where `next` starts scanning: the cursor after the ignorable run. */
  function ScanStart<S>(cfg: EngineConfig<S>, v: EngineView<S>, src: string): (c: Cursor)
    requires ProperIgnore(cfg.matcher, cfg.ignore) && v.cursor.Valid()
    ensures c.Valid() && c.line == v.cursor.line && c.lineOffset == v.cursor.lineOffset
    ensures c.offset == SkipIgnore(cfg.matcher, cfg.ignore, src, v.cursor.offset)
  {
    v.cursor.(offset := SkipIgnore(cfg.matcher, cfg.ignore, src, v.cursor.offset))
  }

  /**
   * One call of `LexerState::next`, as a function of the configuration, the
   * state before the call and the text: the answer and the state after.
   */
  function NextSpec<S>(cfg: EngineConfig<S>, v: EngineView<S>, src: string): (r: (Result<Token>, EngineView<S>))
    requires ProperIgnore(cfg.matcher, cfg.ignore) && v.cursor.Valid()
    // the cursor stays consistent and never moves backwards
    ensures r.1.cursor.Valid() && r.1.cursor.offset >= v.cursor.offset && r.1.cursor.line >= v.cursor.line
    // once the end latch is set, every call answers the end token again and changes nothing
    ensures v.isEof ==> r == (EofResult(cfg.eof), v)
    // at the end of the text, or when only ignorable text remains: the end token, and the latch is set
    ensures !v.isEof && ScanStart(cfg, v, src).offset >= |src| ==>
      r == (EofResult(cfg.eof), v.(cursor := ScanStart(cfg, v, src), isEof := true))
    // otherwise the call fails exactly when no rule of the current state matches
    ensures !v.isEof && ScanStart(cfg, v, src).offset < |src| ==>
      !r.1.isEof &&
      (r.0.Err? <==> Lookup(cfg.matcher, cfg.rules, v.modes.current, src[ScanStart(cfg, v, src).offset..]).None?)
    // a failure leaves the current state, the stack and the custom state alone
    ensures r.0.Err? ==> r.1.modes == v.modes && r.1.custom == v.custom
    // a matched token: the factory's token, located from the scan start to the advanced cursor,
    // and the factory's change applied to cursor and stack
    ensures !v.isEof && r.0.Ok? && !r.1.isEof ==>
      var c := ScanStart(cfg, v, src);
      var (text, factory) := Lookup(cfg.matcher, cfg.rules, v.modes.current, src[c.offset..]).value;
      var (token, change, custom) := factory(v.custom, text);
      && r.1.cursor == c.Advance(change.incrementOffset, change.incrementLines)
      && r.1.modes == AppliedAll(v.modes, change.nextState)
      && r.1.custom == custom
      && r.0.value == token.SetLocation(c.CurrentPosition(), r.1.cursor.CurrentPosition())
  {
    if v.isEof || v.cursor.offset >= |src| then
      (EofResult(cfg.eof), v.(isEof := true))
    else
      var c := ScanStart(cfg, v, src);
      if c.offset >= |src| then
        (EofResult(cfg.eof), v.(cursor := c, isEof := true))
      else
        match Lookup(cfg.matcher, cfg.rules, v.modes.current, src[c.offset..])
        case None => (Err, v.(cursor := c))
        case Some((text, factory)) =>
          var (token, change, custom) := factory(v.custom, text);
          var c' := c.Advance(change.incrementOffset, change.incrementLines);
          (Ok(token.SetLocation(c.CurrentPosition(), c'.CurrentPosition())),
           EngineView(c', false, AppliedAll(v.modes, change.nextState), custom))
  }

  /**
   * End of input is idempotent: once a call has answered with the end, every
   * later call answers the same and leaves the state as it is.
   */
  lemma NextEndIsSticky<S>(cfg: EngineConfig<S>, v: EngineView<S>, src: string)
    requires ProperIgnore(cfg.matcher, cfg.ignore) && v.cursor.Valid()
    ensures var (r, v') := NextSpec(cfg, v, src);
      v'.isEof ==> r == EofResult(cfg.eof) && NextSpec(cfg, v', src) == (r, v')
  {
  }

  /** The snapshot `dump` takes of a state. */
  function Dumped<S>(v: EngineView<S>): LexerStateSnapshot
  {
    LexerStateSnapshot(v.cursor.offset, v.cursor.line, v.cursor.lineOffset,
      LexerTokenSnapshot(v.modes.stack, v.modes.current))
  }

  /** The state `restore` produces: cursor and stack from the snapshot, the end latch and the custom state kept. */
  function Restored<S>(v: EngineView<S>, s: LexerStateSnapshot): EngineView<S>
  {
    EngineView(Cursor(s.offset, s.line, s.lineOffset), v.isEof,
      Modes(s.tokenSnapshot.currentState, s.tokenSnapshot.stateStack), v.custom)
  }

  /**
   * `restore(dump())` reinstates the cursor and the stack of the moment of the
   * dump, whatever happened in between; the end latch is not part of a
   * snapshot and keeps its current value, as does the custom state.
   */
  lemma RestoreDumpRoundTrip<S>(earlier: EngineView<S>, now: EngineView<S>)
    ensures Restored(now, Dumped(earlier)) == earlier.(isEof := now.isEof, custom := now.custom)
  {
  }

  /** `LexerTokenFactory`: the lexical-state stack and the rule lists. */
  class LexerTokenFactory<S> {
    var stateStack: seq<string>
    var currentState: string
    var tokenFactory: RuleTable<S>

    function View(): Modes<string>
      reads this
    {
      Modes(currentState, stateStack)
    }

    /** `LexerTokenFactory::new`. */
    constructor (initialStatus: string)
      ensures View() == Modes(initialStatus, []) && tokenFactory == map[]
    {
      stateStack := [];
      currentState := initialStatus;
      tokenFactory := map[];
    }

    /** `reset`: empty stack, the given state current, no rules. */
    method Reset(initialStatus: string)
      modifies this
      ensures View() == Modes(initialStatus, []) && tokenFactory == map[]
    {
      stateStack := [];
      currentState := initialStatus;
      tokenFactory := map[];
    }

    /**
     * `add` (with `set`): append a rule to the state's list, creating the list
     * on first use. Every pattern is taken to compile.
     */
    method Add(state: string, re: Pattern, token: TokenFactoryFunc<S>)
      modifies this`tokenFactory
      ensures state in tokenFactory
      ensures tokenFactory == old(tokenFactory)[state := old(if state in tokenFactory then tokenFactory[state] else []) + [LexRule(re, token)]]
    {
      if state !in tokenFactory {
        tokenFactory := tokenFactory[state := []];
      }
      tokenFactory := tokenFactory[state := tokenFactory[state] + [LexRule(re, token)]];
    }

    /** `push`. */
    method Push(state: string)
      modifies this`stateStack, this`currentState
      ensures View() == Pushed(old(View()), state)
    {
      stateStack := stateStack + [currentState];
      currentState := state;
    }

    /** `pop`: the `for_each` over `0..times`, each round popping if it can. */
    method Pop(times: nat)
      modifies this`stateStack, this`currentState
      ensures View() == Popped(old(View()), times)
    {
      var i := 0;
      while i < times
        invariant i <= times
        invariant Popped(View(), times - i) == Popped(old(View()), times)
      {
        if stateStack != [] {
          var state := stateStack[|stateStack| - 1];
          stateStack := stateStack[..|stateStack| - 1];
          currentState := state;
        } else {
          PopEmptyIsNoOp(currentState, times - i - 1);
        }
        i := i + 1;
      }
    }

    /** `change_state`: one push or pop. */
    method ChangeState(nextState: NextStateChange<string>)
      modifies this`stateStack, this`currentState
      ensures View() == Applied(old(View()), nextState)
    {
      match nextState
      case Push(state) => Push(state);
      case Pop(times) => Pop(times);
    }

    /** `get`: the matched text and the factory of the first matching rule of the current state. */
    function Get(m: Matcher, src: string): (r: Option<(string, TokenFactoryFunc<S>)>)
      reads this
      ensures r == Lookup(m, tokenFactory, currentState, src)
    {
      Lookup(m, tokenFactory, currentState, src)
    }

    /** `dump`. */
    function Dump(): (s: LexerTokenSnapshot)
      reads this
      ensures s.stateStack == stateStack && s.currentState == currentState
    {
      LexerTokenSnapshot(stateStack, currentState)
    }

    /** `restore`. */
    method Restore(snapshot: LexerTokenSnapshot)
      modifies this`stateStack, this`currentState
      ensures View() == Modes(snapshot.currentState, snapshot.stateStack)
    {
      stateStack := snapshot.stateStack;
      currentState := snapshot.currentState;
    }
  }

  /**
   * `LexerState<S>`: the engine. The regex engine it is linked against is the
   * `matcher` it is constructed with.
   */
  class LexerState<S> {
    var customState: S
    var offset: nat
    var line: nat
    var lineOffset: nat
    var ignoreRegex: Option<Pattern>
    var eof: Option<Token>
    var isEof: bool
    const tokenFactory: LexerTokenFactory<S>
    const matcher: Matcher

    ghost predicate Valid()
      reads this
    {
      lineOffset <= offset && ProperIgnore(matcher, ignoreRegex)
    }

    function View(): EngineView<S>
      reads this, tokenFactory
    {
      EngineView(Cursor(offset, line, lineOffset), isEof, tokenFactory.View(), customState)
    }

    function Config(): EngineConfig<S>
      reads this, tokenFactory
    {
      EngineConfig(matcher, ignoreRegex, eof, tokenFactory.tokenFactory)
    }

    /** `LexerState::new`: at the start of line 1, nothing configured. */
    constructor (initialStatus: string, customState: S, matcher: Matcher)
      ensures Valid() && fresh(tokenFactory)
      ensures View() == EngineView(Cursor(0, 1, 0), false, Modes(initialStatus, []), customState)
      ensures Config() == EngineConfig(matcher, None, None, map[])
    {
      this.customState := customState;
      offset := 0;
      line := 1;
      lineOffset := 0;
      ignoreRegex := None;
      eof := None;
      isEof := false;
      this.matcher := matcher;
      tokenFactory := new LexerTokenFactory(initialStatus);
    }

    /**
     * `reset`: back to the start with a new initial state and custom state;
     * the end factory and the rules are dropped, the ignore pattern is kept.
     */
    method Reset(initialStatus: string, customState: S)
      requires Valid()
      modifies this, tokenFactory
      ensures Valid()
      ensures View() == EngineView(Cursor(0, 1, 0), false, Modes(initialStatus, []), customState)
      ensures Config() == EngineConfig(matcher, old(ignoreRegex), None, map[])
    {
      this.customState := customState;
      offset := 0;
      line := 1;
      lineOffset := 0;
      eof := None;
      isEof := false;
      tokenFactory.Reset(initialStatus);
    }

    /** `dump`. */
    function Dump(): (s: LexerStateSnapshot)
      reads this, tokenFactory
      ensures s == Dumped(View())
    {
      LexerStateSnapshot(offset, line, lineOffset, tokenFactory.Dump())
    }

    /** `restore`: a snapshot must have its line start at or before its offset, as every dump does. */
    method Restore(snapshot: LexerStateSnapshot)
      requires Valid() && snapshot.lineOffset <= snapshot.offset
      modifies this, tokenFactory
      ensures Valid() && Config() == old(Config())
      ensures View() == Restored(old(View()), snapshot)
    {
      offset := snapshot.offset;
      line := snapshot.line;
      lineOffset := snapshot.lineOffset;
      tokenFactory.Restore(snapshot.tokenSnapshot);
    }

    /**
     * `skip_ignore`: step over ignore-pattern matches while there are any;
     * answers whether the text is exhausted.
     */
    method SkipIgnore(src: string) returns (atEnd: bool)
      requires Valid()
      modifies this`offset
      ensures Valid()
      ensures offset == LexCore.SkipIgnore(matcher, ignoreRegex, src, old(offset))
      ensures atEnd <==> offset >= |src|
    {
      while true
        invariant Valid() && offset >= old(offset)
        invariant LexCore.SkipIgnore(matcher, ignoreRegex, src, offset) == LexCore.SkipIgnore(matcher, ignoreRegex, src, old(offset))
        decreases if offset <= |src| then |src| - offset else 0
      {
        var increment: Option<nat> := None;
        if ignoreRegex.Some? && offset <= |src| {
          increment := matcher(ignoreRegex.value, src[offset..]);
        }
        if increment.Some? {
          offset := offset + increment.value;
        } else {
          return offset >= |src|;
        }
      }
    }

    /** `set_ignore`: the pattern must never match empty text (see `ProperIgnore`). */
    method SetIgnore(re: Pattern)
      requires Valid() && ProperIgnore(matcher, Some(re))
      modifies this`ignoreRegex
      ensures Valid() && ignoreRegex == Some(re)
    {
      ignoreRegex := Some(re);
    }

    /** `set_eof`: the end factory takes no input, so it stands for the one token it builds. */
    method SetEof(eof: Token)
      modifies this`eof
      ensures this.eof == Some(eof)
    {
      this.eof := Some(eof);
    }

    /** `add_token`: append a rule to a state's list. */
    method AddToken(state: string, re: Pattern, lexerToken: TokenFactoryFunc<S>)
      modifies tokenFactory`tokenFactory
      ensures state in tokenFactory.tokenFactory
      ensures tokenFactory.tokenFactory == old(tokenFactory.tokenFactory)[state :=
        old(if state in tokenFactory.tokenFactory then tokenFactory.tokenFactory[state] else []) + [LexRule(re, lexerToken)]]
    {
      tokenFactory.Add(state, re, lexerToken);
    }

    /** `state_change`: advance the cursor, then apply the operations in list order. */
    method StateChange(change: StateChange)
      requires Valid()
      modifies this`offset, this`line, this`lineOffset, tokenFactory`stateStack, tokenFactory`currentState
      ensures Valid()
      ensures View().cursor == old(View().cursor).Advance(change.incrementOffset, change.incrementLines)
      ensures View().modes == AppliedAll(old(View().modes), change.nextState)
      ensures View().isEof == old(isEof)
    {
      offset := offset + change.incrementOffset;
      if change.incrementLines != 0 {
        line := line + change.incrementLines;
        lineOffset := offset;
      }
      var ops := change.nextState;
      var cursor := Cursor(offset, line, lineOffset);
      var i := 0;
      while i < |ops|
        invariant i <= |ops|
        invariant Cursor(offset, line, lineOffset) == cursor
        invariant tokenFactory.View() == AppliedAll(old(tokenFactory.View()), ops[..i])
      {
        AppliedAllConcat(old(tokenFactory.View()), ops[..i], [ops[i]]);
        assert ops[..i + 1] == ops[..i] + [ops[i]];
        tokenFactory.ChangeState(ops[i]);
        i := i + 1;
      }
      assert ops[..i] == ops;
    }

    /** `get_current_position`. */
    function GetCurrentPosition(): (p: Position)
      requires Valid()
      reads this
      ensures p == Cursor(offset, line, lineOffset).CurrentPosition()
    {
      Position(line, offset - lineOffset)
    }

    /**
     * `next_token`: run the first matching rule of the current state on the
     * rest of the text, handing it the custom state to update.
     */
    method NextToken(src: string) returns (r: Option<(Token, StateChange)>)
      modifies this`customState
      ensures offset > |src| ==> r.None? && customState == old(customState)
      ensures offset <= |src| ==>
        var found := Lookup(matcher, tokenFactory.tokenFactory, tokenFactory.currentState, src[offset..]);
        && (found.None? ==> r.None? && customState == old(customState))
        && (found.Some? ==>
              var (token, change, custom) := found.value.1(old(customState), found.value.0);
              r == Some((token, change)) && customState == custom)
    {
      if offset > |src| {
        return None;
      }
      var found := tokenFactory.Get(matcher, src[offset..]);
      match found
      case None => r := None;
      case Some((text, factory)) =>
        var (token, change, custom) := factory(customState, text);
        customState := custom;
        r := Some((token, change));
    }

    /** `next_eof`: set the latch and answer the end token, or failure when there is no end factory. */
    method NextEof() returns (r: Result<Token>)
      modifies this`isEof
      ensures isEof && r == EofResult(eof)
    {
      isEof := true;
      r := EofResult(eof);
    }

    /** `next`: the next token of `src`, see `NextSpec`. */
    method Next(src: string) returns (r: Result<Token>)
      requires Valid()
      modifies this, tokenFactory
      ensures Valid() && Config() == old(Config())
      ensures (r, View()) == NextSpec(old(Config()), old(View()), src)
    {
      var atEnd := isEof || offset >= |src|;
      if !atEnd {
        atEnd := SkipIgnore(src);
      }
      if atEnd {
        r := NextEof();
      } else {
        var beginPosition := GetCurrentPosition();
        var next := NextToken(src);
        match next
        case None =>
          r := Err;
        case Some((token, stateChange)) =>
          StateChange(stateChange);
          r := Ok(token.SetLocation(beginPosition, GetCurrentPosition()));
      }
    }
  }
}
