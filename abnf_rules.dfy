/**
 * The rule table builder of src/abnf/rules.rs: `AbnfRules::parse` reads
 * statements `name = body;` and `name =/ body;` and defines or widens rules.
 */
module AbnfRuleTable {
  import opened Wrappers
  import opened AbnfDefinitions
  import opened AbnfRuleEntry

  /**
   * What one round of `parse` gets from the lexer and the body compiler,
   * which is not part of this model.
   */
  datatype Statement =
    | EndOfInput      // the first token of the round is the end token
    | LexFailure      // the lexer fails on the rule name or on the definer
      // a rule name, the definer token's text, and the compiled body (None: compilation failed)
    | RuleStatement(name: string, definer: string, body: Option<AbnfDefinition>)

  /** The rules by name, each seen through its definition. */
  type Table = map<string, AbnfDefinition>

  /**
   * One rule statement applied to a table, `None` where `parse` gives up:
   * `=` needs a new name, `=/` an existing one, any other definer fails, and
   * so does a body that does not compile.
   */
  function Applied(t: Table, name: string, definer: string, body: Option<AbnfDefinition>): (r: Option<Table>)
    ensures r.Some? <==> body.Some? && ((definer == "=" && name !in t) || (definer == "=/" && name in t))
    ensures r.Some? ==> name in r.value && r.value.Keys == t.Keys + {name}
  {
    if definer == "=" then
      if name in t || body.None? then None else Some(t[name := body.value])
    else if definer == "=/" then
      if name !in t || body.None? then None else Some(t[name := SelectAppended(t[name], body.value)])
    else
      None
  }

  /** A whole call of `parse`: its answer and the table it leaves. */
  function Parsed(t: Table, stmts: seq<Statement>): (r: (Result<()>, Table))
    // rules are never removed: the key set only grows
    ensures t.Keys <= r.1.Keys
    decreases |stmts|
  {
    if stmts == [] then (Ok(()), t)
    else
      match stmts[0]
      case EndOfInput => (Ok(()), t)
      case LexFailure => (Err, t)
      case RuleStatement(name, definer, body) =>
        match Applied(t, name, definer, body)
        case None => (Err, t)
        case Some(t') => Parsed(t', stmts[1..])
  }

  /** The table after statements that all succeed, `None` if one of them stops the call. */
  function Folded(t: Table, stmts: seq<Statement>): Option<Table>
    decreases |stmts|
  {
    if stmts == [] then Some(t)
    else
      match stmts[0]
      case EndOfInput => None
      case LexFailure => None
      case RuleStatement(name, definer, body) =>
        match Applied(t, name, definer, body)
        case None => None
        case Some(t') => Folded(t', stmts[1..])
  }

  /** A call whose first statement is the end: success, nothing changes. */
  lemma LeadingEndChangesNothing(t: Table, rest: seq<Statement>)
    ensures Parsed(t, [EndOfInput] + rest) == (Ok(()), t)
  {
  }

  /** `=` on a name already defined fails and leaves the table as it was. */
  lemma RedefinitionFails(t: Table, name: string, body: Option<AbnfDefinition>, rest: seq<Statement>)
    requires name in t
    ensures Parsed(t, [RuleStatement(name, "=", body)] + rest) == (Err, t)
  {
  }

  /** `=/` on a name not yet defined fails and leaves the table as it was. */
  lemma ExtendingMissingFails(t: Table, name: string, body: Option<AbnfDefinition>, rest: seq<Statement>)
    requires name !in t
    ensures Parsed(t, [RuleStatement(name, "=/", body)] + rest) == (Err, t)
  {
  }

  /** A definer other than `=` and `=/` fails and leaves the table as it was. */
  lemma OtherDefinerFails(t: Table, name: string, definer: string, body: Option<AbnfDefinition>, rest: seq<Statement>)
    requires definer != "=" && definer != "=/"
    ensures Parsed(t, [RuleStatement(name, definer, body)] + rest) == (Err, t)
  {
  }

  /** A successful `=` adds exactly one rule; the others are untouched. */
  lemma DefinitionAddsOneRule(t: Table, name: string, body: AbnfDefinition)
    requires name !in t
    ensures var r := Applied(t, name, "=", Some(body));
      r.Some? && r.value.Keys == t.Keys + {name} && |r.value| == |t| + 1 && r.value[name] == body
      && forall k :: k in t ==> r.value[k] == t[k]
  {
  }

  /** A successful `=/` keeps the key set and widens that one rule by the new alternative. */
  lemma ExtensionWidensOneRule(t: Table, name: string, body: AbnfDefinition)
    requires name in t
    ensures var r := Applied(t, name, "=/", Some(body));
      r.Some? && r.value.Keys == t.Keys
      && Alternatives(r.value[name]) == Alternatives(t[name]) + [body]
      && forall k :: k in t && k != name ==> r.value[k] == t[k]
  {
  }

  /**
   * Statements that succeed stay in effect whatever follows them: a call is
   * the earlier statements' table carried into the later ones, so a failing
   * statement leaves everything before it in the table.
   */
  lemma {:induction false} EarlierStatementsPersist(t: Table, pre: seq<Statement>, rest: seq<Statement>)
    requires Folded(t, pre).Some?
    ensures Parsed(t, pre + rest) == Parsed(Folded(t, pre).value, rest)
    decreases |pre|
  {
    if pre != [] {
      var s := pre[0];
      assert s.RuleStatement?;
      assert (pre + rest)[0] == s;
      assert (pre + rest)[1..] == pre[1..] + rest;
      var t' := Applied(t, s.name, s.definer, s.body).value;
      EarlierStatementsPersist(t', pre[1..], rest);
    } else {
      assert pre + rest == rest;
    }
  }

  /** A defining statement then an extending one for the same name leave one rule, a selection of both bodies. */
  lemma DefineThenExtend(name: string, b1: AbnfDefinition, b2: AbnfDefinition)
    ensures Parsed(map[], [RuleStatement(name, "=", Some(b1)), RuleStatement(name, "=/", Some(b2)), EndOfInput])
         == (Ok(()), map[name := SelectAppended(b1, b2)])
  {
    var stmts := [RuleStatement(name, "=", Some(b1)), RuleStatement(name, "=/", Some(b2)), EndOfInput];
    var t1 := map[name := b1];
    var t2 := map[name := SelectAppended(b1, b2)];
    assert Applied(map[], name, "=", Some(b1)) == Some(t1);
    assert Parsed(map[], stmts) == Parsed(t1, stmts[1..]);
    assert stmts[1..][0] == RuleStatement(name, "=/", Some(b2));
    assert t1[name := SelectAppended(b1, b2)] == t2;
    assert Parsed(t1, stmts[1..]) == Parsed(t2, stmts[1..][1..]);
    assert stmts[1..][1..][0] == EndOfInput;
  }

  /** `AbnfRules`: rule objects by name, each filed under its own name and none shared. */
  class AbnfRules {
    var rules: map<string, AbnfRule>

    ghost predicate Valid()
      reads this
    {
      && (forall k | k in rules :: rules[k].name == k)
      && (forall k, k' | k in rules && k' in rules && k != k' :: rules[k] != rules[k'])
    }

    /** `result`: the rules, each seen through its definition. */
    function Table(): Table
      reads this, rules.Values
    {
      map k | k in rules :: rules[k].definition
    }

    /** `AbnfRules::new`: no rules. */
    constructor ()
      ensures Valid() && Table() == map[]
    {
      rules := map[];
    }

    /**
     * The body of one round of `parse` for a rule statement: check the
     * definer against the table, then define the name or widen its rule.
     */
    method ApplyStatement(name: string, definer: string, body: Option<AbnfDefinition>) returns (ok: bool)
      requires Valid()
      modifies this, rules.Values
      ensures Valid()
      ensures forall k | k in rules :: rules[k] in old(rules.Values) || fresh(rules[k])
      ensures ok <==> Applied(old(Table()), name, definer, body).Some?
      ensures Table() == if ok then Applied(old(Table()), name, definer, body).value else old(Table())
    {
      if definer == "=" {
        if name in rules {
          return false;
        }
      } else if definer == "=/" {
        if name !in rules {
          return false;
        }
      } else {
        return false;
      }
      if body.None? {
        return false;
      }
      ghost var before := Table();
      if name in rules {
        var rule := rules[name];
        rule.AppendSelect(body.value);
        assert Table() == before[name := SelectAppended(before[name], body.value)];
      } else {
        var rule := new AbnfRule(name, body.value);
        rules := rules[name := rule];
        assert Table() == before[name := body.value];
      }
      ok := true;
    }

    /** `parse`: one call over the statements the lexer and the body compiler yield (see `Parsed`). */
    method Parse(stmts: seq<Statement>) returns (r: Result<()>)
      requires Valid()
      modifies this, rules.Values
      ensures Valid()
      ensures (r, Table()) == Parsed(old(Table()), stmts)
    {
      var i := 0;
      while i < |stmts|
        invariant i <= |stmts|
        invariant Valid()
        invariant forall k | k in rules :: rules[k] in old(rules.Values) || fresh(rules[k])
        invariant Parsed(Table(), stmts[i..]) == Parsed(old(Table()), stmts)
        decreases |stmts| - i
      {
        assert stmts[i..][1..] == stmts[i + 1..];
        match stmts[i] {
          case EndOfInput =>
            return Ok(());
          case LexFailure =>
            return Err;
          case RuleStatement(name, definer, body) =>
            var ok := ApplyStatement(name, definer, body);
            if !ok {
              return Err;
            }
            i := i + 1;
        }
      }
      return Ok(());
    }
  }
}
