/**
 * The ABNF tokenizer of src/abnf/parser.rs: nine lexical states, each with an
 * ordered table of token rules, and the engine configuration
 * `new_lexer_state` builds from them.
 *
 * Each regular expression is one token class; each `abnf_*` factory is the
 * token type it emits plus the stack operations it requests, in call order.
 */
module AbnfParser {
  import opened Wrappers
  import opened Tokens
  import opened StateChanges
  import opened StateStacks
  import opened LexCore
  import opened LexerStates
  import opened TokenFactories

  /** The nine `ABNF_STATE_*` lexical states. */
  datatype AbnfState =
    | Init
    | Definer
    | RequireElements
    | Elements
    | ParenthesisRequireElements
    | ParenthesisElements
    | VariableRequireElement
    | OptionsRequireElements
    | OptionsElements

  /** The state names the engine's stack holds. */
  function StateName(q: AbnfState): string
  {
    match q
    case Init => "abnf_state_init"
    case Definer => "abnf_state_definer"
    case RequireElements => "abnf_state_require_elements"
    case Elements => "abnf_state_elements"
    case ParenthesisRequireElements => "abnf_state_parenthesis_require_elements"
    case ParenthesisElements => "abnf_state_parenthesis_elements"
    case VariableRequireElement => "abnf_state_variable_require_element"
    case OptionsRequireElements => "abnf_state_options_require_elements"
    case OptionsElements => "abnf_state_options_elements"
  }

  /** Distinct states have distinct names, so the engine's string stack loses nothing. */
  lemma StateNameInjective(a: AbnfState, b: AbnfState)
    ensures StateName(a) == StateName(b) <==> a == b
  {
    if a != b {
      assert StateName(a) != StateName(b) by {
        // the names differ in length or in the first character after "abnf_state_"
        assert |StateName(a)| != |StateName(b)| || StateName(a)[11] != StateName(b)[11];
      }
    }
  }

  /** One class per `TOKEN_*_REGEX`. */
  datatype TokenClass =
    | NameToken
    | DefinerToken
    | BinaryToken
    | DecimalToken
    | HexadecimalToken
    | StringToken
    | RangeToken
    | LeftParenthesisToken
    | RightParenthesisToken
    | VariableToken
    | LeftOptionsToken
    | RightOptionsToken
    | ChooseToken
    | EndToken
    | RequirementToken

  /** The regular expression of each class. */
  function ClassRegex(c: TokenClass): (r: Pattern)
    // every pattern is anchored at the start of the remaining text
    ensures |r| > 1 && r[0] == '^'
  {
    match c
    case NameToken => @"^[a-zA-Z][a-zA-Z0-9\-]*"
    case DefinerToken => @"^=/?"
    case BinaryToken => @"^%b(0|1)+(\.(0|1)+)*"
    case DecimalToken => @"^%d\d+(\.\d+)*"
    case HexadecimalToken => @"^%h[a-fA-F0-9]+(\.[a-fA-F0-9]+)*"
    case StringToken => @"^""(?:\\""|[^""])*?"""
    case RangeToken => "^" + @"(b(0|1)+-(0|1)|d\d+-\d+|x[a-fA-F0-9]+-[a-fA-F0-9]+)"
    case LeftParenthesisToken => @"^\("
    case RightParenthesisToken => @"^\)"
    case VariableToken => @"^(\d*\*\d*|\d+)"
    case LeftOptionsToken => @"^\["
    case RightOptionsToken => @"^\]"
    case ChooseToken => @"^/"
    case EndToken => @"^;"
    case RequirementToken => @"^<.*?>"
  }

  /** The single-element classes: a name, the four terminal forms, a range and a requirement. */
  predicate IsAtom(c: TokenClass)
  {
    c in {NameToken, BinaryToken, DecimalToken, HexadecimalToken, StringToken, RangeToken, RequirementToken}
  }

  const TokenNameType := "abnf_token_name"
  const TokenDefinerType := "abnf_token_definer"
  const TokenTerminalType := "abnf_token_terminal"
  const TokenRangeType := "abnf_token_range"
  const TokenLeftParenthesisType := "abnf_token_left_parenthesis"
  const TokenRightParenthesisType := "abnf_token_right_parenthesis"
  const TokenVariableType := "abnf_token_variable"
  const TokenLeftOptionsType := "abnf_token_left_options"
  const TokenRightOptionsType := "abnf_token_right_options"
  const TokenChooseType := "abnf_token_choose"
  const TokenEndType := "abnf_token_end"
  const TokenRequirementType := "abnf_requirement"

  /** The token type a class is emitted with; the four terminal forms share one. */
  function ClassType(c: TokenClass): string
  {
    match c
    case NameToken => TokenNameType
    case DefinerToken => TokenDefinerType
    case BinaryToken | DecimalToken | HexadecimalToken | StringToken => TokenTerminalType
    case RangeToken => TokenRangeType
    case LeftParenthesisToken => TokenLeftParenthesisType
    case RightParenthesisToken => TokenRightParenthesisType
    case VariableToken => TokenVariableType
    case LeftOptionsToken => TokenLeftOptionsType
    case RightOptionsToken => TokenRightOptionsType
    case ChooseToken => TokenChooseType
    case EndToken => TokenEndType
    case RequirementToken => TokenRequirementType
  }

  /** `ABNF_TOKEN_EOF` and `ABNF_IGNORE_REGEX`. */
  const AbnfTokenEof := "abnf_token_eof"
  const AbnfIgnoreRegex := @"^( |\t)"

  /** The token type an atom class is emitted as. */
  function AtomType(c: TokenClass): string
    requires IsAtom(c)
  {
    match c
    case NameToken => TokenNameType
    case RangeToken => TokenRangeType
    case RequirementToken => TokenRequirementType
    case _ => TokenTerminalType
  }

  /** What a factory emits: the token type and the stack operations, in call order. */
  datatype Emit = Emit(tokenType: string, ops: seq<NextStateChange<AbnfState>>)

  /** The operation lists the factories request. `Keep`: stay (e.g. `abnf_ele_type_name`). */
  function Keep(): seq<NextStateChange<AbnfState>>
  {
    []
  }

  /** `.pop_state(1).push_state(t)`: replace the current state by `t` (e.g. `abnf_reqe_type_name`). */
  function Replace(t: AbnfState): seq<NextStateChange<AbnfState>>
  {
    [Pop(1), Push(t)]
  }

  /** `.pop_state(1)`: return to the enclosing state (e.g. `abnf_ele_type_end`). */
  function Close(): seq<NextStateChange<AbnfState>>
  {
    [Pop(1)]
  }

  /** `.push_state(s)`: enter `s`, remembering the current state (e.g. `abnf_ele_type_parenthesis`). */
  function Open(s: AbnfState): seq<NextStateChange<AbnfState>>
  {
    [Push(s)]
  }

  /**
   * `.pop_state(1).push_state(t).push_state(s)`: replace the current state by
   * `t` and enter `s` from it (e.g. `abnf_reqe_type_parenthesis`).
   */
  function ReplaceOpen(t: AbnfState, s: AbnfState): seq<NextStateChange<AbnfState>>
  {
    [Pop(1), Push(t), Push(s)]
  }

  /** The rows of a require state whose element leads on to `target`. */
  function RequireRow(target: AbnfState, c: TokenClass): Option<Emit>
  {
    match c
    case NameToken => Some(Emit(TokenNameType, Replace(target)))
    case BinaryToken => Some(Emit(TokenTerminalType, Replace(target)))
    case DecimalToken => Some(Emit(TokenTerminalType, Replace(target)))
    case HexadecimalToken => Some(Emit(TokenTerminalType, Replace(target)))
    case StringToken => Some(Emit(TokenTerminalType, Replace(target)))
    case RangeToken => Some(Emit(TokenRangeType, Replace(target)))
    case LeftParenthesisToken => Some(Emit(TokenLeftParenthesisType, ReplaceOpen(target, ParenthesisRequireElements)))
    case VariableToken => Some(Emit(TokenVariableType, ReplaceOpen(target, VariableRequireElement)))
    case LeftOptionsToken => Some(Emit(TokenLeftOptionsType, ReplaceOpen(target, OptionsRequireElements)))
    case RequirementToken => Some(Emit(TokenRequirementType, Replace(target)))
    case _ => None
  }

  /** The rows of an elements state: `/` goes back to `require`, `closer` ends the region. */
  function ElementsRow(require: AbnfState, closer: TokenClass, closerType: string, c: TokenClass): Option<Emit>
  {
    if c == closer then Some(Emit(closerType, Close()))
    else
      match c
      case NameToken => Some(Emit(TokenNameType, Keep()))
      case BinaryToken => Some(Emit(TokenTerminalType, Keep()))
      case DecimalToken => Some(Emit(TokenTerminalType, Keep()))
      case HexadecimalToken => Some(Emit(TokenTerminalType, Keep()))
      case StringToken => Some(Emit(TokenTerminalType, Keep()))
      case RangeToken => Some(Emit(TokenRangeType, Keep()))
      case LeftParenthesisToken => Some(Emit(TokenLeftParenthesisType, Open(ParenthesisRequireElements)))
      case VariableToken => Some(Emit(TokenVariableType, Open(VariableRequireElement)))
      case LeftOptionsToken => Some(Emit(TokenLeftOptionsType, Open(OptionsRequireElements)))
      case ChooseToken => Some(Emit(TokenChooseType, Replace(require)))
      case RequirementToken => Some(Emit(TokenRequirementType, Keep()))
      case _ => None
  }

  /** The rows of VARIABLE_REQUIRE_ELEMENT: one element, then back to the enclosing state. */
  function VariableRow(c: TokenClass): Option<Emit>
  {
    match c
    case NameToken => Some(Emit(TokenNameType, Close()))
    case BinaryToken => Some(Emit(TokenTerminalType, Close()))
    case DecimalToken => Some(Emit(TokenTerminalType, Close()))
    case HexadecimalToken => Some(Emit(TokenTerminalType, Close()))
    case StringToken => Some(Emit(TokenTerminalType, Close()))
    case RangeToken => Some(Emit(TokenRangeType, Close()))
    case LeftParenthesisToken => Some(Emit(TokenLeftParenthesisType, Replace(ParenthesisRequireElements)))
    case RequirementToken => Some(Emit(TokenRequirementType, Close()))
    case _ => None
  }

  /** The factory state `q` registers for class `c`, if any. */
  function Row(q: AbnfState, c: TokenClass): (r: Option<Emit>)
    // the token type depends on the class only, never on the state that accepts it
    ensures r.Some? ==> r.value.tokenType == ClassType(c)
  {
    match q
    case Init => if c == NameToken then Some(Emit(TokenNameType, Open(Definer))) else None
    case Definer => if c == DefinerToken then Some(Emit(TokenDefinerType, Replace(RequireElements))) else None
    case RequireElements => RequireRow(Elements, c)
    case Elements => ElementsRow(RequireElements, EndToken, TokenEndType, c)
    case ParenthesisRequireElements => RequireRow(ParenthesisElements, c)
    case ParenthesisElements => ElementsRow(ParenthesisRequireElements, RightParenthesisToken, TokenRightParenthesisType, c)
    case VariableRequireElement => VariableRow(c)
    case OptionsRequireElements => RequireRow(OptionsElements, c)
    case OptionsElements => ElementsRow(OptionsRequireElements, RightOptionsToken, TokenRightOptionsType, c)
  }

  /** The order in which `new_lexer_state` registers each state's rules. */
  function Order(q: AbnfState): seq<TokenClass>
  {
    var atoms := [NameToken, BinaryToken, DecimalToken, HexadecimalToken, StringToken, RangeToken];
    match q
    case Init => [NameToken]
    case Definer => [DefinerToken]
    case RequireElements | ParenthesisRequireElements | OptionsRequireElements =>
      atoms + [LeftParenthesisToken, VariableToken, LeftOptionsToken, RequirementToken]
    case Elements => atoms + [LeftParenthesisToken, VariableToken, LeftOptionsToken, ChooseToken, EndToken, RequirementToken]
    case ParenthesisElements => atoms + [LeftParenthesisToken, VariableToken, LeftOptionsToken, ChooseToken, RightParenthesisToken, RequirementToken]
    case VariableRequireElement => atoms + [LeftParenthesisToken, RequirementToken]
    case OptionsElements => atoms + [LeftParenthesisToken, VariableToken, LeftOptionsToken, ChooseToken, RightOptionsToken, RequirementToken]
  }

  /** NAME is tried first in every state that accepts it. */
  lemma NameRegisteredFirst(q: AbnfState)
    ensures |Order(q)| > 0 && Order(q)[0] == (if q == Definer then DefinerToken else NameToken)
  {
  }

  /** A state's registered classes are exactly those it has a row for, each registered once. */
  lemma OrderMatchesRows(q: AbnfState)
    ensures forall c :: c in Order(q) <==> Row(q, c).Some?
    ensures forall i, j :: 0 <= i < j < |Order(q)| ==> Order(q)[i] != Order(q)[j]
  {
    OrderIsRows(q);
    OrderDistinct(q);
  }

  lemma OrderIsRows(q: AbnfState)
    ensures forall c :: c in Order(q) <==> Row(q, c).Some?
  {
  }

  lemma OrderDistinct(q: AbnfState)
    ensures forall i, j :: 0 <= i < j < |Order(q)| ==> Order(q)[i] != Order(q)[j]
  {
  }

  /** The machine's transition: the state stack after a token of class `c`, or `None` if the state has no rule for it. */
  function Step(m: Modes<AbnfState>, c: TokenClass): (r: Option<Modes<AbnfState>>)
    ensures r.None? <==> Row(m.current, c).None?
    ensures r.Some? ==> r.value == AppliedAll(m, Row(m.current, c).value.ops)
  {
    match Row(m.current, c)
    case None => None
    case Some(e) => Some(AppliedAll(m, e.ops))
  }

  /** Steps over a whole class sequence, failing at the first class the current state rejects. */
  function Run(m: Modes<AbnfState>, cs: seq<TokenClass>): Option<Modes<AbnfState>>
    decreases |cs|
  {
    if cs == [] then Some(m)
    else
      match Step(m, cs[0])
      case None => None
      case Some(m') => Run(m', cs[1..])
  }

  lemma {:induction false} RunAppend(m: Modes<AbnfState>, a: seq<TokenClass>, b: seq<TokenClass>)
    ensures Run(m, a + b) == if Run(m, a).None? then None else Run(Run(m, a).value, b)
    decreases |a|
  {
    if a == [] {
      assert a + b == b;
    } else {
      assert (a + b)[0] == a[0];
      assert (a + b)[1..] == a[1..] + b;
      match Step(m, a[0])
      case None =>
      case Some(m') => RunAppend(m', a[1..], b);
    }
  }

  /** INIT accepts only a name, which enters DEFINER on top of INIT. */
  lemma InitAcceptsOnlyName(st: seq<AbnfState>, c: TokenClass)
    ensures Step(Modes(Init, st), c).Some? <==> c == NameToken
    ensures Step(Modes(Init, st), NameToken) == Some(Modes(Definer, st + [Init]))
  {
  }

  /** DEFINER accepts only `=` / `=/`, which puts REQUIRE_ELEMENTS in DEFINER's place. */
  lemma DefinerAcceptsOnlyDefiner(st: seq<AbnfState>, x: AbnfState, c: TokenClass)
    ensures Step(Modes(Definer, st + [x]), c).Some? <==> c == DefinerToken
    ensures Step(Modes(Definer, st + [x]), DefinerToken) == Some(Modes(RequireElements, st + [x]))
  {
    assert (st + [x])[..|st|] == st;
  }

  /** The require states of the three regions. */
  predicate IsRequireState(q: AbnfState)
  {
    q in {RequireElements, ParenthesisRequireElements, OptionsRequireElements}
  }

  /** No element may be missing: a require state rejects `;`, `/`, `)` and `]`. */
  lemma RequireStatesRejectClosers(q: AbnfState, st: seq<AbnfState>, c: TokenClass)
    requires IsRequireState(q)
    requires c in {EndToken, ChooseToken, RightParenthesisToken, RightOptionsToken}
    ensures Step(Modes(q, st), c).None?
  {
  }

  /** The element after a repetition may be neither an option group nor another repetition. */
  lemma VariableRequireRejects(st: seq<AbnfState>, c: TokenClass)
    requires c in {LeftOptionsToken, VariableToken, EndToken, ChooseToken, RightParenthesisToken, RightOptionsToken}
    ensures Step(Modes(VariableRequireElement, st), c).None?
  {
  }

  /** `;` is accepted in ELEMENTS only. */
  lemma EndOnlyInElements(q: AbnfState, st: seq<AbnfState>)
    ensures Step(Modes(q, st), EndToken).Some? <==> q == Elements
  {
  }

  /** The elements state of a region and the require state `/` leads back to. */
  predicate ChooseLeadsTo(q: AbnfState, r: AbnfState)
  {
    || (q == Elements && r == RequireElements)
    || (q == ParenthesisElements && r == ParenthesisRequireElements)
    || (q == OptionsElements && r == OptionsRequireElements)
  }

  /** `/` swaps an elements state for its require state at the same depth. */
  lemma ChooseKeepsDepth(q: AbnfState, r: AbnfState, st: seq<AbnfState>, x: AbnfState)
    requires ChooseLeadsTo(q, r)
    ensures Step(Modes(q, st + [x]), ChooseToken) == Some(Modes(r, st + [x]))
  {
    assert (st + [x])[..|st|] == st;
  }

  /**
   * The transition as the source is written: `push_state` and `pop_state`
   * overwrite one pending operation, so a factory hands over only the last one
   * it requested.
   */
  function StepAsWritten(m: Modes<AbnfState>, c: TokenClass): (r: Option<Modes<AbnfState>>)
    ensures r.None? <==> Row(m.current, c).None?
  {
    match Row(m.current, c)
    case None => None
    case Some(e) => Some(AppliedAll(m, PendingAsWritten(e.ops)))
  }

  function RunAsWritten(m: Modes<AbnfState>, cs: seq<TokenClass>): Option<Modes<AbnfState>>
    decreases |cs|
  {
    if cs == [] then Some(m)
    else
      match StepAsWritten(m, cs[0])
      case None => None
      case Some(m') => RunAsWritten(m', cs[1..])
  }

  /**
   * With the single pending operation, the rule `a = b;` leaves the lexer in
   * REQUIRE_ELEMENTS over [INIT, DEFINER] instead of back in INIT: DEFINER's
   * `pop_state(1)` is lost, and so is every later "replace".
   */
  lemma AsWrittenRuleDoesNotReturnToInit()
    ensures RunAsWritten(Modes(Init, []), [NameToken, DefinerToken, NameToken, EndToken])
         == Some(Modes(RequireElements, [Init, Definer]))
  {
    var cs := [NameToken, DefinerToken, NameToken, EndToken];
    var m1 := Modes(Definer, [Init]);
    var m2 := Modes(RequireElements, [Init, Definer]);
    var m3 := Modes(Elements, [Init, Definer, RequireElements]);
    assert StepAsWritten(Modes(Init, []), NameToken) == Some(m1) by {
      assert PendingAsWritten(Open(Definer)) == [Push(Definer)];
      assert [Push(Definer)][1..] == [] && [] + [Init] == [Init];
    }
    assert StepAsWritten(m1, DefinerToken) == Some(m2) by {
      assert PendingAsWritten(Replace(RequireElements)) == [Push(RequireElements)];
      assert [Push(RequireElements)][1..] == [] && [Init] + [Definer] == [Init, Definer];
    }
    assert StepAsWritten(m2, NameToken) == Some(m3) by {
      assert PendingAsWritten(Replace(Elements)) == [Push(Elements)];
      assert [Push(Elements)][1..] == [] && [Init, Definer] + [RequireElements] == [Init, Definer, RequireElements];
    }
    assert StepAsWritten(m3, EndToken) == Some(m2) by {
      assert [Init, Definer, RequireElements][..2] == [Init, Definer];
    }
    assert cs[1..][1..][1..][1..] == [];
  }

  /**
   * Where the rule `a = b;` leaves the as-written lexer, the next rule's name
   * is taken as an element and its `=` is rejected, so a second rule on the
   * same line fails.
   */
  lemma AsWrittenSecondRuleRejected()
    ensures RunAsWritten(Modes(RequireElements, [Init, Definer]), [NameToken, DefinerToken]) == None
  {
    var m3 := Modes(Elements, [Init, Definer, RequireElements]);
    assert StepAsWritten(Modes(RequireElements, [Init, Definer]), NameToken) == Some(m3) by {
      assert PendingAsWritten(Replace(Elements)) == [Push(Elements)];
      assert [Push(Elements)][1..] == [] && [Init, Definer] + [RequireElements] == [Init, Definer, RequireElements];
    }
    assert StepAsWritten(m3, DefinerToken) == None;
  }
}

module AbnfEngine {
  import opened Wrappers
  import opened Tokens
  import opened StateChanges
  import opened StateStacks
  import opened LexCore
  import opened LexerStates
  import opened TokenFactories
  import opened AbnfParser

  /**
   * The regex engine on `ABNF_IGNORE_REGEX`: it matches exactly one space or
   * tab at the start of the text.
   */
  ghost predicate IgnoresSpaceAndTab(m: Matcher)
  {
    forall s :: m(AbnfIgnoreRegex, s) == if |s| > 0 && (s[0] == ' ' || s[0] == '\t') then Some(1) else None
  }

  lemma IgnoreIsProper(m: Matcher)
    requires IgnoresSpaceAndTab(m)
    ensures ProperIgnore(m, Some(AbnfIgnoreRegex))
  {
  }

  /**
   * Only spaces and tabs are skipped: skipping from `offset` passes over a run
   * of spaces and tabs and stops at the first other character or at the end.
   */
  lemma {:induction false} SkipsSpacesAndTabs(m: Matcher, src: string, offset: nat)
    requires IgnoresSpaceAndTab(m) && ProperIgnore(m, Some(AbnfIgnoreRegex)) && offset <= |src|
    ensures var r := SkipIgnore(m, Some(AbnfIgnoreRegex), src, offset);
      && (forall k :: offset <= k < r ==> src[k] == ' ' || src[k] == '\t')
      && (r < |src| ==> src[r] != ' ' && src[r] != '\t')
    decreases |src| - offset
  {
    var rest := src[offset..];
    if offset < |src| && (src[offset] == ' ' || src[offset] == '\t') {
      assert m(AbnfIgnoreRegex, rest) == Some(1);
      SkipsSpacesAndTabs(m, src, offset + 1);
    } else {
      assert m(AbnfIgnoreRegex, rest).None?;
    }
  }

  /**
   * An `abnf_*` factory as the engine sees it: a token of the row's type over
   * the matched text, an advance by the text's length, the row's operations on
   * state names; the custom state is passed through.
   */
  function Factory<S>(e: Emit): TokenFactoryFunc<S>
  {
    (u: S, text: string) => (NewToken(e.tokenType, text), StateChange(|text|, 0, MapOps(StateName, e.ops)), u)
  }

  /** The rule list of state `q`, in registration order. */
  function StateRules<S>(q: AbnfState): (r: seq<LexRule<TokenFactoryFunc<S>>>)
    ensures |r| == |Order(q)|
    ensures forall i :: 0 <= i < |r| ==> Row(q, Order(q)[i]).Some? && r[i] == LexRule(ClassRegex(Order(q)[i]), Factory(Row(q, Order(q)[i]).value))
  {
    OrderMatchesRows(q);
    seq(|Order(q)|, i requires 0 <= i < |Order(q)| => LexRule(ClassRegex(Order(q)[i]), Factory(Row(q, Order(q)[i]).value)))
  }

  /** Every state. */
  const AllStates: set<AbnfState> := {Init, Definer, RequireElements, Elements, ParenthesisRequireElements,
    ParenthesisElements, VariableRequireElement, OptionsRequireElements, OptionsElements}

  /** The rule table once the states in `states` are registered: each one's name mapped to its rule list. */
  function RegisteredRules<S>(states: set<AbnfState>): RuleTable<S>
  {
    assert forall a, b :: StateName(a) == StateName(b) ==> a == b by {
      forall a, b
        ensures StateName(a) == StateName(b) ==> a == b
      {
        StateNameInjective(a, b);
      }
    }
    map q | q in states :: StateName(q) := StateRules(q)
  }

  /** The rule table `new_lexer_state` registers. */
  function AbnfRuleTable<S>(): RuleTable<S>
  {
    RegisteredRules(AllStates)
  }

  lemma RegisteredLookup<S>(states: set<AbnfState>, q: AbnfState)
    ensures StateName(q) in RegisteredRules<S>(states) <==> q in states
    ensures q in states ==> RegisteredRules<S>(states)[StateName(q)] == StateRules<S>(q)
  {
    forall p | p in states && StateName(p) == StateName(q)
      ensures p == q
    {
      StateNameInjective(p, q);
    }
  }

  lemma AbnfRuleTableLookup<S>(q: AbnfState)
    ensures StateName(q) in AbnfRuleTable<S>() && AbnfRuleTable<S>()[StateName(q)] == StateRules<S>(q)
  {
    assert q in AllStates;
    RegisteredLookup<S>(AllStates, q);
  }

  /** Registering one more state adds its name, which was not there yet. */
  lemma RegisterOneMore<S>(states: set<AbnfState>, q: AbnfState)
    requires q !in states
    ensures StateName(q) !in RegisteredRules<S>(states)
    ensures RegisteredRules<S>(states)[StateName(q) := StateRules<S>(q)] == RegisteredRules<S>(states + {q})
  {
    RegisteredLookup<S>(states, q);
    var a := RegisteredRules<S>(states)[StateName(q) := StateRules<S>(q)];
    var b := RegisteredRules<S>(states + {q});
    forall k | k in b
      ensures k in a && a[k] == b[k]
    {
      var p :| p in states + {q} && StateName(p) == k;
      RegisteredLookup<S>(states, p);
      RegisteredLookup<S>(states + {q}, p);
    }
    forall k | k in a
      ensures k in b
    {
      if k != StateName(q) {
        var p :| p in states && StateName(p) == k;
        RegisteredLookup<S>(states + {q}, p);
      } else {
        RegisteredLookup<S>(states + {q}, q);
      }
    }
  }

  /** The engine configuration: the ABNF rules, the end token `abnf_token_eof` with empty text, spaces and tabs ignored. */
  function AbnfConfig<S>(m: Matcher): EngineConfig<S>
  {
    EngineConfig(m, Some(AbnfIgnoreRegex), Some(NewToken(AbnfTokenEof, "")), AbnfRuleTable())
  }

  /** The class of the first rule of state `q` whose pattern matches `rest`. */
  function Classify(m: Matcher, q: AbnfState, rest: string): (r: Option<TokenClass>)
    ensures r.Some? ==> r.value in Order(q) && Row(q, r.value).Some? && m(ClassRegex(r.value), rest).Some?
    ensures r.None? <==> forall c :: c in Order(q) ==> m(ClassRegex(c), rest).None?
    // registration order decides: no class registered before the chosen one matches
    ensures r.Some? ==>
              exists i :: 0 <= i < |Order(q)| && Order(q)[i] == r.value &&
                          forall j :: 0 <= j < i ==> m(ClassRegex(Order(q)[j]), rest).None?
  {
    OrderMatchesRows(q);
    var rules := StateRules<()>(q);
    match FirstMatch(m, rules, rest)
    case None =>
      assert forall i :: 0 <= i < |Order(q)| ==> m(ClassRegex(Order(q)[i]), rest).None? by {
        forall i | 0 <= i < |Order(q)|
          ensures m(ClassRegex(Order(q)[i]), rest).None?
        {
          assert rules[i].pattern == ClassRegex(Order(q)[i]);
        }
      }
      None
    case Some(i) =>
      assert rules[i].pattern == ClassRegex(Order(q)[i]);
      assert forall j :: 0 <= j < i ==> m(ClassRegex(Order(q)[j]), rest).None? by {
        forall j | 0 <= j < i
          ensures m(ClassRegex(Order(q)[j]), rest).None?
        {
          assert rules[j].pattern == ClassRegex(Order(q)[j]);
        }
      }
      Some(Order(q)[i])
  }

  /**
   * Every state registers NAME first, so a text the NAME pattern matches is
   * never classified as a RANGE, whatever the RANGE pattern says about it.
   */
  lemma NameBeatsRange(m: Matcher, q: AbnfState, rest: string)
    requires m(ClassRegex(NameToken), rest).Some?
    ensures Classify(m, q, rest) != Some(RangeToken)
  {
  }

  /**
   * The engine runs the machine: in a state whose stack is the machine's stack
   * of names, a token the engine reads after the ignored text is accepted
   * exactly when its first matching class has a row, and the engine's stack
   * afterwards is the machine's `Step`; the token carries the row's type.
   */
  lemma EngineFollowsMachine<S>(m: Matcher, machine: Modes<AbnfState>, cursor: Cursor, custom: S, src: string)
    requires ProperIgnore(m, Some(AbnfIgnoreRegex)) && cursor.Valid()
    ensures
      var cfg := AbnfConfig<S>(m);
      var v := EngineView(cursor, false, MapModes(StateName, machine), custom);
      var start := ScanStart(cfg, v, src);
      var (r, v') := NextSpec(cfg, v, src);
      start.offset < |src| ==>
        var k := Classify(m, machine.current, src[start.offset..]);
        && (r.Ok? <==> k.Some?)
        && (k.None? ==> v'.modes == v.modes)
        && (k.Some? ==>
              && Step(machine, k.value).Some?
              && v'.modes == MapModes(StateName, Step(machine, k.value).value)
              && r.value.tokenType == Row(machine.current, k.value).value.tokenType
              && r.value.value == MatchedText(m, ClassRegex(k.value), src[start.offset..]))
  {
    AbnfRuleTableLookup<S>(machine.current);
    NextFollowsRows(AbnfConfig<S>(m), machine, cursor, custom, src);
  }

  /** `EngineFollowsMachine` for any configuration holding the ABNF rule list of the current state. */
  lemma NextFollowsRows<S>(cfg: EngineConfig<S>, machine: Modes<AbnfState>, cursor: Cursor, custom: S, src: string)
    requires ProperIgnore(cfg.matcher, cfg.ignore) && cursor.Valid()
    requires StateName(machine.current) in cfg.rules && cfg.rules[StateName(machine.current)] == StateRules<S>(machine.current)
    ensures
      var v := EngineView(cursor, false, MapModes(StateName, machine), custom);
      var start := ScanStart(cfg, v, src);
      var (r, v') := NextSpec(cfg, v, src);
      start.offset < |src| ==>
        var k := Classify(cfg.matcher, machine.current, src[start.offset..]);
        && (r.Ok? <==> k.Some?)
        && (k.None? ==> v'.modes == v.modes)
        && (k.Some? ==>
              && Step(machine, k.value).Some?
              && v'.modes == MapModes(StateName, Step(machine, k.value).value)
              && r.value.tokenType == Row(machine.current, k.value).value.tokenType
              && r.value.value == MatchedText(cfg.matcher, ClassRegex(k.value), src[start.offset..]))
  {
    var m := cfg.matcher;
    var v := EngineView(cursor, false, MapModes(StateName, machine), custom);
    var start := ScanStart(cfg, v, src);
    if start.offset < |src| {
      var q := machine.current;
      var rest := src[start.offset..];
      OrderMatchesRows(q);
      var rules := StateRules<S>(q);
      FirstMatchSamePatterns(m, rules, StateRules<()>(q), rest);
      var found := FirstMatch(m, rules, rest);
      var looked := Lookup(m, cfg.rules, v.modes.current, rest);
      assert v.modes.current == StateName(q);
      if found.Some? {
        var i := found.value;
        var e := Row(q, Order(q)[i]).value;
        var text := MatchedText(m, ClassRegex(Order(q)[i]), rest);
        assert looked == Some((text, Factory<S>(e)));
        var (token, change, custom') := Factory<S>(e)(custom, text);
        assert change.nextState == MapOps(StateName, e.ops);
        AppliedAllMap(StateName, machine, e.ops);
      }
    }
  }

  /**
   * An `abnf_*` factory body: a `TokenFactory` of the row's type, the row's
   * `pop_state`/`push_state` calls in order, then `build` on the matched text.
   * Its result is `Factory(e)`.
   */
  method RunFactory<S>(e: Emit, u: S, text: string) returns (token: Token, change: StateChange)
    ensures (token, change, u) == Factory<S>(e)(u, text)
  {
    var factory := new TokenFactory(e.tokenType);
    var ops := MapOps(StateName, e.ops);
    var i := 0;
    while i < |ops|
      invariant i <= |ops|
      invariant factory.tokenType == e.tokenType && factory.incrementOffset.None? && factory.incrementLines.None?
      invariant factory.nextState == ops[..i]
    {
      if ops[i].Push? {
        factory.PushState(ops[i].state);
      } else {
        factory.PopState(ops[i].times);
      }
      assert ops[..i + 1] == ops[..i] + [ops[i]];
      i := i + 1;
    }
    assert ops[..i] == ops;
    token, change := factory.Build(text).0, factory.Build(text).1;
  }

  /** `set_state_parsers`: register the rules of one state, in order, after any it already has. */
  method SetStateParsers<S>(state: LexerState<S>, tokenState: string, tokens: seq<LexRule<TokenFactoryFunc<S>>>)
    modifies state.tokenFactory`tokenFactory
    ensures tokens == [] ==> state.tokenFactory.tokenFactory == old(state.tokenFactory.tokenFactory)
    ensures tokens != [] ==> state.tokenFactory.tokenFactory == old(state.tokenFactory.tokenFactory)[tokenState :=
      old(if tokenState in state.tokenFactory.tokenFactory then state.tokenFactory.tokenFactory[tokenState] else []) + tokens]
  {
    ghost var before := if tokenState in state.tokenFactory.tokenFactory then state.tokenFactory.tokenFactory[tokenState] else [];
    var i := 0;
    while i < |tokens|
      invariant i <= |tokens|
      invariant i == 0 ==> state.tokenFactory.tokenFactory == old(state.tokenFactory.tokenFactory)
      invariant i > 0 ==> state.tokenFactory.tokenFactory == old(state.tokenFactory.tokenFactory)[tokenState := before + tokens[..i]]
    {
      ghost var current := state.tokenFactory.tokenFactory;
      assert (if tokenState in current then current[tokenState] else []) == before + tokens[..i];
      state.AddToken(tokenState, tokens[i].pattern, tokens[i].factory);
      assert before + tokens[..i + 1] == before + tokens[..i] + [tokens[i]] by {
        assert tokens[..i + 1] == tokens[..i] + [tokens[i]];
      }
      assert current[tokenState := before + tokens[..i + 1]] == old(state.tokenFactory.tokenFactory)[tokenState := before + tokens[..i + 1]];
      i := i + 1;
    }
    assert i > 0 ==> tokens[..i] == tokens;
  }

  /** Register state `q`'s rules into a table holding exactly `states`. */
  method RegisterState<S>(state: LexerState<S>, ghost states: set<AbnfState>, q: AbnfState)
    requires q !in states && state.tokenFactory.tokenFactory == RegisteredRules<S>(states)
    modifies state.tokenFactory`tokenFactory
    ensures state.tokenFactory.tokenFactory == RegisteredRules<S>(states + {q})
  {
    RegisterOneMore<S>(states, q);
    assert |StateRules<S>(q)| > 0 by {
      assert Order(q)[0] in Order(q);
    }
    assert [] + StateRules<S>(q) == StateRules<S>(q);
    SetStateParsers(state, StateName(q), StateRules<S>(q));
  }

  /**
   * `new_lexer_state`: an engine in INIT with an empty stack, the end token
   * `abnf_token_eof` with empty text, spaces and tabs ignored, and every
   * state's rules registered.
   */
  method NewLexerState<S>(m: Matcher, custom: S) returns (state: LexerState<S>)
    requires ProperIgnore(m, Some(AbnfIgnoreRegex))
    ensures fresh(state) && fresh(state.tokenFactory) && state.Valid()
    ensures state.View() == EngineView(Cursor(0, 1, 0), false, Modes(StateName(Init), []), custom)
    ensures state.Config() == AbnfConfig<S>(m)
  {
    state := new LexerState(StateName(Init), custom, m);
    state.SetEof(NewToken(AbnfTokenEof, ""));
    state.SetIgnore(AbnfIgnoreRegex);
    ghost var view := state.View();
    assert view == EngineView(Cursor(0, 1, 0), false, Modes(StateName(Init), []), custom);
    RegisterAllStates(state);
    assert state.View() == view;
  }

  /** The nine `set_state_parsers` calls of `new_lexer_state`, in the source's order. */
  method RegisterAllStates<S>(state: LexerState<S>)
    requires state.tokenFactory.tokenFactory == map[]
    modifies state.tokenFactory`tokenFactory
    ensures state.tokenFactory.tokenFactory == AbnfRuleTable<S>()
  {
    ghost var done: set<AbnfState> := {};
    assert state.tokenFactory.tokenFactory == RegisteredRules<S>(done);
    RegisterState(state, done, Init);
    done := done + {Init};
    RegisterState(state, done, Definer);
    done := done + {Definer};
    RegisterState(state, done, RequireElements);
    done := done + {RequireElements};
    RegisterState(state, done, Elements);
    done := done + {Elements};
    RegisterState(state, done, ParenthesisRequireElements);
    done := done + {ParenthesisRequireElements};
    RegisterState(state, done, ParenthesisElements);
    done := done + {ParenthesisElements};
    RegisterState(state, done, VariableRequireElement);
    done := done + {VariableRequireElement};
    RegisterState(state, done, OptionsRequireElements);
    done := done + {OptionsRequireElements};
    RegisterState(state, done, OptionsElements);
    done := done + {OptionsElements};
    assert done == AllStates;
  }
}
