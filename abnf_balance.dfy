/**
 * Stack balance of the ABNF lexical-state machine: the token classes of a
 * well-formed rule body lead from a region's require state to its elements
 * state with the stack as it was, and a whole rule leads from INIT back to
 * INIT.
 */
module AbnfBalance {
  import opened Wrappers
  import opened StateChanges
  import opened StateStacks
  import opened AbnfParser

  /** Rule bodies as the tokenizer sees them: alternatives of concatenations of elements. */
  datatype Element =
    | Atom(cls: TokenClass)          // a name, a terminal, a range or a requirement
    | Group(alts: Alternation)       // ( ... )
    | Optional(alts: Alternation)    // [ ... ]
    | Repetition(item: Element)      // a repetition prefix and one element
  datatype Concatenation = Last(e: Element) | Then(e: Element, tail: Concatenation)
  datatype Alternation = Only(c: Concatenation) | Or(c: Concatenation, tail: Alternation)

  /** The bodies the tables accept: atoms are atom classes; a repetition applies to an atom or a group. */
  predicate WfElement(e: Element)
  {
    match e
    case Atom(c) => IsAtom(c)
    case Group(a) => WfAlternation(a)
    case Optional(a) => WfAlternation(a)
    case Repetition(item) => (item.Atom? || item.Group?) && WfElement(item)
  }

  predicate WfConcatenation(c: Concatenation)
  {
    match c
    case Last(e) => WfElement(e)
    case Then(e, tail) => WfElement(e) && WfConcatenation(tail)
  }

  predicate WfAlternation(a: Alternation)
  {
    match a
    case Only(c) => WfConcatenation(c)
    case Or(c, tail) => WfConcatenation(c) && WfAlternation(tail)
  }

  /** The token classes a body is written with. */
  function ElementTokens(e: Element): seq<TokenClass>
  {
    match e
    case Atom(c) => [c]
    case Group(a) => [LeftParenthesisToken] + AlternationTokens(a) + [RightParenthesisToken]
    case Optional(a) => [LeftOptionsToken] + AlternationTokens(a) + [RightOptionsToken]
    case Repetition(item) => [VariableToken] + ElementTokens(item)
  }

  function ConcatenationTokens(c: Concatenation): seq<TokenClass>
  {
    match c
    case Last(e) => ElementTokens(e)
    case Then(e, tail) => ElementTokens(e) + ConcatenationTokens(tail)
  }

  function AlternationTokens(a: Alternation): seq<TokenClass>
  {
    match a
    case Only(c) => ConcatenationTokens(c)
    case Or(c, tail) => ConcatenationTokens(c) + [ChooseToken] + AlternationTokens(tail)
  }

  /** The token classes of a rule `name = body ;` (or `=/`). */
  function RuleTokens(body: Alternation): seq<TokenClass>
  {
    [NameToken, DefinerToken] + AlternationTokens(body) + [EndToken]
  }

  /** The three regions: a rule body, a parenthesised group, an option group. */
  datatype Region = TopLevel | Parenthesised | Bracketed

  function RequireOf(r: Region): AbnfState
  {
    match r
    case TopLevel => RequireElements
    case Parenthesised => ParenthesisRequireElements
    case Bracketed => OptionsRequireElements
  }

  function ElementsOf(r: Region): AbnfState
  {
    match r
    case TopLevel => Elements
    case Parenthesised => ParenthesisElements
    case Bracketed => OptionsElements
  }

  lemma RunOne(m: Modes<AbnfState>, c: TokenClass)
    ensures Run(m, [c]) == Step(m, c)
  {
    assert [c][1..] == [];
  }

  /** The bracket that opens and the one that closes a nested region. */
  function Opener(r: Region): TokenClass
  {
    match r
    case TopLevel => NameToken
    case Parenthesised => LeftParenthesisToken
    case Bracketed => LeftOptionsToken
  }

  function Closer(r: Region): TokenClass
  {
    match r
    case TopLevel => EndToken
    case Parenthesised => RightParenthesisToken
    case Bracketed => RightOptionsToken
  }

  /** The state a region starts an element from. */
  function From(r: Region, fromRequire: bool): AbnfState
  {
    if fromRequire then RequireOf(r) else ElementsOf(r)
  }

  /** Opening a nested region remembers the outer elements state on top of the stack. */
  lemma OpenNested(r: Region, inner: Region, fromRequire: bool, st: seq<AbnfState>, x: AbnfState)
    requires inner != TopLevel
    ensures Step(Modes(From(r, fromRequire), st + [x]), Opener(inner))
         == Some(Modes(RequireOf(inner), st + [x] + [ElementsOf(r)]))
  {
    var m := Modes(From(r, fromRequire), st + [x]);
    OpenerOps(r, inner, fromRequire);
    if fromRequire {
      assert (st + [x])[..|st|] == st;
      assert AppliedAll(m, ReplaceOpen(ElementsOf(r), RequireOf(inner))) == Modes(RequireOf(inner), st + [x] + [ElementsOf(r)]);
    } else {
      assert AppliedAll(m, Open(RequireOf(inner))) == Modes(RequireOf(inner), st + [x] + [ElementsOf(r)]);
    }
  }

  /** The operations the opening bracket requests: from require, leave the elements state behind; from elements, keep it. */
  lemma OpenerOps(r: Region, inner: Region, fromRequire: bool)
    requires inner != TopLevel
    ensures Row(From(r, fromRequire), Opener(inner)).Some?
    ensures Row(From(r, fromRequire), Opener(inner)).value.ops
         == if fromRequire then ReplaceOpen(ElementsOf(r), RequireOf(inner)) else Open(RequireOf(inner))
  {
  }

  /** Closing a nested region returns to the state remembered on top of the stack. */
  lemma CloseNested(inner: Region, st: seq<AbnfState>, y: AbnfState)
    requires inner != TopLevel
    ensures Step(Modes(ElementsOf(inner), st + [y]), Closer(inner)) == Some(Modes(y, st))
  {
    assert (st + [y])[..|st|] == st;
  }

  /** A bracketed alternation `( ... )` or `[ ... ]` as one element of region `r`. */
  lemma {:induction false} NestedBalanced(r: Region, inner: Region, a: Alternation, fromRequire: bool, st: seq<AbnfState>, x: AbnfState)
    requires inner != TopLevel && WfAlternation(a)
    ensures Run(Modes(From(r, fromRequire), st + [x]), [Opener(inner)] + AlternationTokens(a) + [Closer(inner)])
         == Some(Modes(ElementsOf(r), st + [x]))
    decreases a, 1
  {
    var m := Modes(From(r, fromRequire), st + [x]);
    var stack := st + [x];
    OpenNested(r, inner, fromRequire, st, x);
    RunOne(m, Opener(inner));
    AlternationBalanced(inner, a, stack, ElementsOf(r));
    RunAppend(m, [Opener(inner)], AlternationTokens(a));
    CloseNested(inner, stack, ElementsOf(r));
    RunOne(Modes(ElementsOf(inner), stack + [ElementsOf(r)]), Closer(inner));
    RunAppend(m, [Opener(inner)] + AlternationTokens(a), [Closer(inner)]);
  }

  /**
   * One well-formed element, read in a region's require or elements state
   * over a non-empty stack, leaves the region's elements state over the same
   * stack.
   */
  lemma {:induction false} ElementBalanced(r: Region, e: Element, fromRequire: bool, st: seq<AbnfState>, x: AbnfState)
    requires WfElement(e)
    ensures Run(Modes(From(r, fromRequire), st + [x]), ElementTokens(e)) == Some(Modes(ElementsOf(r), st + [x]))
    decreases e, 2
  {
    match e
    case Atom(c) =>
      AtomBalanced(r, c, fromRequire, st, x);
    case Group(a) =>
      NestedBalanced(r, Parenthesised, a, fromRequire, st, x);
    case Optional(a) =>
      NestedBalanced(r, Bracketed, a, fromRequire, st, x);
    case Repetition(item) =>
      RepetitionBalanced(r, item, fromRequire, st, x);
  }

  /** A single atom moves a region to its elements state and leaves the stack alone. */
  lemma AtomBalanced(r: Region, c: TokenClass, fromRequire: bool, st: seq<AbnfState>, x: AbnfState)
    requires IsAtom(c)
    ensures Run(Modes(From(r, fromRequire), st + [x]), [c]) == Some(Modes(ElementsOf(r), st + [x]))
  {
    var m := Modes(From(r, fromRequire), st + [x]);
    assert (st + [x])[..|st|] == st;
    RunOne(m, c);
  }

  /** A repetition prefix and its element, as one element of region `r`. */
  lemma {:induction false} RepetitionBalanced(r: Region, item: Element, fromRequire: bool, st: seq<AbnfState>, x: AbnfState)
    requires WfElement(item) && (item.Atom? || item.Group?)
    ensures Run(Modes(From(r, fromRequire), st + [x]), [VariableToken] + ElementTokens(item)) == Some(Modes(ElementsOf(r), st + [x]))
    decreases item, 3
  {
    var stack := st + [x];
    var m := Modes(From(r, fromRequire), stack);
    assert stack[..|st|] == st;
    RunOne(m, VariableToken);
    assert Step(m, VariableToken) == Some(Modes(VariableRequireElement, stack + [ElementsOf(r)]));
    RepeatedItemBalanced(item, stack, ElementsOf(r));
    RunAppend(m, [VariableToken], ElementTokens(item));
  }

  /**
   * The element after a repetition prefix, read in VARIABLE_REQUIRE_ELEMENT
   * entered from state `y`, returns to `y` with the stack below it.
   */
  lemma {:induction false} RepeatedItemBalanced(e: Element, st: seq<AbnfState>, y: AbnfState)
    requires WfElement(e) && (e.Atom? || e.Group?)
    ensures Run(Modes(VariableRequireElement, st + [y]), ElementTokens(e)) == Some(Modes(y, st))
    decreases e, 2
  {
    var m := Modes(VariableRequireElement, st + [y]);
    assert (st + [y])[..|st|] == st;
    match e
    case Atom(c) =>
      RunOne(m, c);
    case Group(a) =>
      RunOne(m, LeftParenthesisToken);
      assert Step(m, LeftParenthesisToken) == Some(Modes(ParenthesisRequireElements, st + [y]));
      AlternationBalanced(Parenthesised, a, st, y);
      CloseNested(Parenthesised, st, y);
      RunOne(Modes(ParenthesisElements, st + [y]), RightParenthesisToken);
      RunAppend(m, [LeftParenthesisToken], AlternationTokens(a));
      RunAppend(m, [LeftParenthesisToken] + AlternationTokens(a), [RightParenthesisToken]);
  }

  lemma {:induction false} ConcatenationBalanced(r: Region, c: Concatenation, fromRequire: bool, st: seq<AbnfState>, x: AbnfState)
    requires WfConcatenation(c)
    ensures Run(Modes(From(r, fromRequire), st + [x]), ConcatenationTokens(c))
         == Some(Modes(ElementsOf(r), st + [x]))
    decreases c, 0
  {
    match c
    case Last(e) =>
      ElementBalanced(r, e, fromRequire, st, x);
    case Then(e, tail) =>
      ElementBalanced(r, e, fromRequire, st, x);
      ConcatenationBalanced(r, tail, false, st, x);
      RunAppend(Modes(From(r, fromRequire), st + [x]), ElementTokens(e), ConcatenationTokens(tail));
  }

  /** `/` in a region's elements state goes back to its require state at the same depth. */
  lemma ChooseReturns(r: Region, st: seq<AbnfState>, x: AbnfState)
    ensures Run(Modes(ElementsOf(r), st + [x]), [ChooseToken]) == Some(Modes(RequireOf(r), st + [x]))
  {
    var e := Modes(ElementsOf(r), st + [x]);
    assert (st + [x])[..|st|] == st;
    RunOne(e, ChooseToken);
  }

  /**
   * A well-formed alternation, read from a region's require state over a
   * non-empty stack, leaves the region's elements state over the same stack;
   * each `/` goes back to the require state at the same depth.
   */
  lemma {:induction false} AlternationBalanced(r: Region, a: Alternation, st: seq<AbnfState>, x: AbnfState)
    requires WfAlternation(a)
    ensures Run(Modes(RequireOf(r), st + [x]), AlternationTokens(a)) == Some(Modes(ElementsOf(r), st + [x]))
    decreases a, 0
  {
    var m := Modes(RequireOf(r), st + [x]);
    match a
    case Only(c) =>
      ConcatenationBalanced(r, c, true, st, x);
    case Or(c, tail) =>
      ConcatenationBalanced(r, c, true, st, x);
      ChooseReturns(r, st, x);
      AlternationBalanced(r, tail, st, x);
      RunAppend(m, ConcatenationTokens(c), [ChooseToken]);
      RunAppend(m, ConcatenationTokens(c) + [ChooseToken], AlternationTokens(tail));
  }

  /** A whole rule read in INIT returns to INIT with the stack as it was. */
  lemma RuleReturnsToInit(body: Alternation, st: seq<AbnfState>)
    requires WfAlternation(body)
    ensures Run(Modes(Init, st), RuleTokens(body)) == Some(Modes(Init, st))
  {
    var m := Modes(Init, st);
    RunOne(m, NameToken);
    var d := Modes(Definer, st + [Init]);
    assert Step(m, NameToken) == Some(d);
    assert (st + [Init])[..|st|] == st;
    RunOne(d, DefinerToken);
    assert Step(d, DefinerToken) == Some(Modes(RequireElements, st + [Init]));
    RunAppend(m, [NameToken], [DefinerToken]);
    assert [NameToken] + [DefinerToken] == [NameToken, DefinerToken];
    AlternationBalanced(TopLevel, body, st, Init);
    RunAppend(m, [NameToken, DefinerToken], AlternationTokens(body));
    RunOne(Modes(Elements, st + [Init]), EndToken);
    RunAppend(m, [NameToken, DefinerToken] + AlternationTokens(body), [EndToken]);
  }

  /** The token classes of several rules one after the other. */
  function RulesTokens(bodies: seq<Alternation>): seq<TokenClass>
  {
    if bodies == [] then [] else RuleTokens(bodies[0]) + RulesTokens(bodies[1..])
  }

  /** Any number of rules read from INIT over an empty stack end in INIT over an empty stack. */
  lemma {:induction false} RulesReturnToInit(bodies: seq<Alternation>)
    requires forall i :: 0 <= i < |bodies| ==> WfAlternation(bodies[i])
    ensures Run(Modes(Init, []), RulesTokens(bodies)) == Some(Modes(Init, []))
    decreases |bodies|
  {
    if bodies != [] {
      RuleReturnsToInit(bodies[0], []);
      RulesReturnToInit(bodies[1..]);
      RunAppend(Modes(Init, []), RuleTokens(bodies[0]), RulesTokens(bodies[1..]));
    }
  }
}
