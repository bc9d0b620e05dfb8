/**
 * The grammar interpreter of src/yacc/parser.rs: it walks a rule's ABNF
 * definition, pulling one token per terminal, and builds a parse tree.
 */
module GrammarParsers {
  import opened Wrappers
  import opened Tokens
  import opened AbnfDefinitions
  import opened AbnfRuleEntry
  import opened AbnfRuleTable
  import opened GrammarTrees

  /** The token source's answer to its `pos`-th call (from 0): the next token, or failure once it has none. */
  function Pulled(tokens: seq<Token>, pos: nat): (r: Result<Token>)
    ensures r.Ok? <==> pos < |tokens|
  {
    if pos < |tokens| then Ok(tokens[pos]) else Err
  }

  /**
   * `parse_abnf_definition` on values: the outcome and how many tokens have
   * been pulled afterwards. `getName` stands for `AbnfDefinition::get_name`,
   * which is not part of this model; `fuel` bounds the rule references
   * followed.
   */
  function Interpret(rules: Table, getName: AbnfDefinition -> string, d: AbnfDefinition,
                     tokens: seq<Token>, pos: nat, fuel: nat): (r: (Result<ParseTree>, nat))
    // tokens are pulled, never given back
    ensures r.1 >= pos
    decreases fuel, d, 0
  {
    match d
    case Series(items) => InterpretSeries(rules, getName, items, 0, EmptyTree(), tokens, pos, fuel)
    case Terminal(literal) =>
      var token := Pulled(tokens, pos);
      if token.Ok? && token.value.value == literal then (Ok(ParseTree("", token.value.value, [])), pos + 1)
      else (Err, pos + 1)
    case Rule(name) =>
      if name !in rules || fuel == 0 then (Err, pos)
      else
        var (child, next) := Interpret(rules, getName, rules[name], tokens, pos, fuel - 1);
        if child.Err? then (Err, next)
        else (Ok(ParseTree("", "", [Labelled(child.value, true, name)])), next)
    case Select(_) => (Ok(EmptyTree()), pos)
    case Group(_) => (Ok(EmptyTree()), pos)
    case Options(_) => (Ok(EmptyTree()), pos)
    case Range(_, _) => (Ok(EmptyTree()), pos)
    case Repeat(_, _, _) => (Ok(EmptyTree()), pos)
  }

  /**
   * The loop over a series' items from item `i` on, the node built so far
   * being `acc`: each item's tree is labelled with the item's name unless it
   * has a label, and the first failing item ends the series.
   */
  function InterpretSeries(rules: Table, getName: AbnfDefinition -> string, items: seq<AbnfDefinition>, i: nat,
                           acc: ParseTree, tokens: seq<Token>, pos: nat, fuel: nat): (r: (Result<ParseTree>, nat))
    requires i <= |items|
    ensures r.1 >= pos
    decreases fuel, items, |items| - i
  {
    if i == |items| then (Ok(acc), pos)
    else
      var (child, next) := Interpret(rules, getName, items[i], tokens, pos, fuel);
      if child.Err? then (Err, next)
      else
        var acc' := acc.(children := acc.children + [Labelled(child.value, false, getName(items[i]))]);
        InterpretSeries(rules, getName, items, i + 1, acc', tokens, next, fuel)
  }

  /** `GrammarParser::parse` on values: the entry rule's tree, labelled with the rule's name. */
  function InterpretEntry(rules: Table, getName: AbnfDefinition -> string, key: string,
                          tokens: seq<Token>, pos: nat, fuel: nat): (r: (Result<ParseTree>, nat))
    // an unknown entry rule fails before pulling anything
    ensures key !in rules ==> r == (Err, pos)
    // otherwise the answer is the definition's, with the root labelled by the entry rule
    ensures key in rules ==>
      var (tree, next) := Interpret(rules, getName, rules[key], tokens, pos, fuel);
      r.1 == next && (r.0.Ok? <==> tree.Ok?) && (r.0.Ok? ==> r.0.value == tree.value.(rule := key))
  {
    if key !in rules then (Err, pos)
    else
      var (tree, next) := Interpret(rules, getName, rules[key], tokens, pos, fuel);
      if tree.Err? then (Err, next) else (Ok(Labelled(tree.value, true, key)), next)
  }

  /** The texts of a run of tokens, one after the other. */
  function Texts(tokens: seq<Token>): string
  {
    if tokens == [] then "" else tokens[0].value + Texts(tokens[1..])
  }

  lemma {:induction false} TextsAppend(a: seq<Token>, b: seq<Token>)
    ensures Texts(a + b) == Texts(a) + Texts(b)
    decreases |a|
  {
    if a == [] {
      assert a + b == b;
    } else {
      assert (a + b)[1..] == a[1..] + b;
      TextsAppend(a[1..], b);
    }
  }

  /** Consecutive runs of pulled tokens, after any text, spell out that text and the whole run. */
  lemma TextsSplit(prefix: string, tokens: seq<Token>, i: nat, j: nat, k: nat)
    requires i <= j <= k <= |tokens|
    ensures prefix + Texts(tokens[i..j]) + Texts(tokens[j..k]) == prefix + Texts(tokens[i..k])
  {
    assert tokens[i..k] == tokens[i..j] + tokens[j..k];
    TextsAppend(tokens[i..j], tokens[j..k]);
  }

  /**
   * A successful interpretation pulls only tokens that exist, and the tree
   * spells out exactly the texts of the tokens it pulled, in order.
   */
  lemma {:induction false} InterpretSpellsTokens(rules: Table, getName: AbnfDefinition -> string, d: AbnfDefinition,
                                                 tokens: seq<Token>, pos: nat, fuel: nat)
    requires pos <= |tokens|
    ensures var (tree, next) := Interpret(rules, getName, d, tokens, pos, fuel);
      tree.Ok? ==> next <= |tokens| && Frontier(tree.value) == Texts(tokens[pos..next])
    decreases fuel, d, 0
  {
    var (tree, next) := Interpret(rules, getName, d, tokens, pos, fuel);
    if tree.Ok? {
      match d
      case Series(items) =>
        SeriesSpellsTokens(rules, getName, items, 0, EmptyTree(), tokens, pos, fuel);
        assert tokens[pos..pos] == [];
      case Terminal(literal) =>
        assert tokens[pos..pos + 1] == [tokens[pos]];
        assert [tokens[pos]][1..] == [];
      case Rule(name) =>
        InterpretSpellsTokens(rules, getName, rules[name], tokens, pos, fuel - 1);
        var child := Interpret(rules, getName, rules[name], tokens, pos, fuel - 1).0.value;
        var c := Labelled(child, true, name);
        assert [c][1..] == [];
        assert FrontierAll([c]) == Frontier(c);
        assert Frontier(tree.value) == Frontier(c);
      case _ =>
        assert tokens[pos..pos] == [];
    }
  }

  lemma {:induction false} SeriesSpellsTokens(rules: Table, getName: AbnfDefinition -> string, items: seq<AbnfDefinition>, i: nat,
                                              acc: ParseTree, tokens: seq<Token>, pos: nat, fuel: nat)
    requires i <= |items| && pos <= |tokens|
    ensures var (tree, next) := InterpretSeries(rules, getName, items, i, acc, tokens, pos, fuel);
      tree.Ok? ==> next <= |tokens| && Frontier(tree.value) == Frontier(acc) + Texts(tokens[pos..next])
    decreases fuel, items, |items| - i, 2
  {
    if i == |items| {
      assert tokens[pos..pos] == [];
    } else {
      var (child, next) := Interpret(rules, getName, items[i], tokens, pos, fuel);
      if child.Ok? {
        var acc' := acc.(children := acc.children + [Labelled(child.value, false, getName(items[i]))]);
        SeriesItemSpells(rules, getName, items, i, acc, tokens, pos, fuel);
        SeriesSpellsTokens(rules, getName, items, i + 1, acc', tokens, next, fuel);
        var (tree, last) := InterpretSeries(rules, getName, items, i + 1, acc', tokens, next, fuel);
        assert InterpretSeries(rules, getName, items, i, acc, tokens, pos, fuel) == (tree, last);
        if tree.Ok? {
          TextsSplit(Frontier(acc), tokens, pos, next, last);
        }
      }
    }
  }

  /** One successful item of a series appends the texts of the tokens it pulled to the node built so far. */
  lemma {:induction false} SeriesItemSpells(rules: Table, getName: AbnfDefinition -> string, items: seq<AbnfDefinition>, i: nat,
                                            acc: ParseTree, tokens: seq<Token>, pos: nat, fuel: nat)
    requires i < |items| && pos <= |tokens|
    ensures var (child, next) := Interpret(rules, getName, items[i], tokens, pos, fuel);
      child.Ok? ==>
        && next <= |tokens|
        && Frontier(acc.(children := acc.children + [Labelled(child.value, false, getName(items[i]))]))
           == Frontier(acc) + Texts(tokens[pos..next])
    decreases fuel, items, |items| - i, 1
  {
    var (child, next) := Interpret(rules, getName, items[i], tokens, pos, fuel);
    if child.Ok? {
      InterpretSpellsTokens(rules, getName, items[i], tokens, pos, fuel);
      SeriesAccumulatorSpells(acc, Labelled(child.value, false, getName(items[i])));
    }
  }

  /** Adding a child to the node built so far appends the child's text. */
  lemma SeriesAccumulatorSpells(acc: ParseTree, c: ParseTree)
    ensures Frontier(acc.(children := acc.children + [c])) == Frontier(acc) + Frontier(c)
  {
    FrontierAllAppend(acc.children, c);
  }

  /** Nodes come back unlabelled: labels are given by the caller (the series, the rule reference, the entry). */
  lemma {:induction false} InterpretLeavesRootUnlabelled(rules: Table, getName: AbnfDefinition -> string, d: AbnfDefinition,
                                                         tokens: seq<Token>, pos: nat, fuel: nat)
    ensures var (tree, _) := Interpret(rules, getName, d, tokens, pos, fuel);
      tree.Ok? ==> tree.value.rule == ""
  {
    if d.Series? {
      SeriesKeepsAccumulatorLabel(rules, getName, d.items, 0, EmptyTree(), tokens, pos, fuel);
    }
  }

  lemma {:induction false} SeriesKeepsAccumulatorLabel(rules: Table, getName: AbnfDefinition -> string, items: seq<AbnfDefinition>, i: nat,
                                                       acc: ParseTree, tokens: seq<Token>, pos: nat, fuel: nat)
    requires i <= |items|
    ensures var (tree, _) := InterpretSeries(rules, getName, items, i, acc, tokens, pos, fuel);
      tree.Ok? ==> tree.value.rule == acc.rule && tree.value.value == acc.value
    decreases |items| - i
  {
    if i < |items| {
      var (child, next) := Interpret(rules, getName, items[i], tokens, pos, fuel);
      if child.Ok? {
        var acc' := acc.(children := acc.children + [Labelled(child.value, false, getName(items[i]))]);
        SeriesKeepsAccumulatorLabel(rules, getName, items, i + 1, acc', tokens, next, fuel);
      }
    }
  }

  /**
   * A successful series has one child per item, in order, each labelled with
   * its item's name.
   */
  lemma {:induction false} SeriesChildPerItem(rules: Table, getName: AbnfDefinition -> string, items: seq<AbnfDefinition>, i: nat,
                                              acc: ParseTree, tokens: seq<Token>, pos: nat, fuel: nat)
    requires i <= |items|
    ensures var (tree, _) := InterpretSeries(rules, getName, items, i, acc, tokens, pos, fuel);
      tree.Ok? ==>
        && |tree.value.children| == |acc.children| + |items| - i
        && tree.value.children[..|acc.children|] == acc.children
        && forall j :: i <= j < |items| ==> tree.value.children[|acc.children| + j - i].rule == getName(items[j])
    decreases |items| - i
  {
    if i < |items| {
      var (child, next) := Interpret(rules, getName, items[i], tokens, pos, fuel);
      if child.Ok? {
        InterpretLeavesRootUnlabelled(rules, getName, items[i], tokens, pos, fuel);
        var acc' := acc.(children := acc.children + [Labelled(child.value, false, getName(items[i]))]);
        SeriesChildPerItem(rules, getName, items, i + 1, acc', tokens, next, fuel);
        var tree := InterpretSeries(rules, getName, items, i + 1, acc', tokens, next, fuel).0;
        if tree.Ok? {
          assert tree.value.children[..|acc.children|] == tree.value.children[..|acc'.children|][..|acc.children|];
        }
      }
    }
  }

  /** Items after a failing one are never evaluated: appending more items changes nothing. */
  lemma {:induction false} SeriesFailureIgnoresRest(rules: Table, getName: AbnfDefinition -> string, items: seq<AbnfDefinition>,
                                                    more: seq<AbnfDefinition>, i: nat, acc: ParseTree, tokens: seq<Token>, pos: nat, fuel: nat)
    requires i <= |items|
    requires InterpretSeries(rules, getName, items, i, acc, tokens, pos, fuel).0.Err?
    ensures InterpretSeries(rules, getName, items + more, i, acc, tokens, pos, fuel)
         == InterpretSeries(rules, getName, items, i, acc, tokens, pos, fuel)
    decreases |items| - i
  {
    assert i < |items|;
    assert (items + more)[i] == items[i];
    var (child, next) := Interpret(rules, getName, items[i], tokens, pos, fuel);
    if child.Ok? {
      var acc' := acc.(children := acc.children + [Labelled(child.value, false, getName(items[i]))]);
      SeriesFailureIgnoresRest(rules, getName, items, more, i + 1, acc', tokens, next, fuel);
    }
  }

  /** More fuel does not change a successful interpretation: fuel only cuts off runaway rule references. */
  lemma {:induction false} MoreFuelSameTree(rules: Table, getName: AbnfDefinition -> string, d: AbnfDefinition,
                                            tokens: seq<Token>, pos: nat, fuel: nat)
    requires Interpret(rules, getName, d, tokens, pos, fuel).0.Ok?
    ensures Interpret(rules, getName, d, tokens, pos, fuel + 1) == Interpret(rules, getName, d, tokens, pos, fuel)
    decreases fuel, d, 0
  {
    match d
    case Series(items) =>
      SeriesMoreFuel(rules, getName, items, 0, EmptyTree(), tokens, pos, fuel);
    case Rule(name) =>
      MoreFuelSameTree(rules, getName, rules[name], tokens, pos, fuel - 1);
    case _ =>
  }

  lemma {:induction false} SeriesMoreFuel(rules: Table, getName: AbnfDefinition -> string, items: seq<AbnfDefinition>, i: nat,
                                          acc: ParseTree, tokens: seq<Token>, pos: nat, fuel: nat)
    requires i <= |items|
    requires InterpretSeries(rules, getName, items, i, acc, tokens, pos, fuel).0.Ok?
    ensures InterpretSeries(rules, getName, items, i, acc, tokens, pos, fuel + 1)
         == InterpretSeries(rules, getName, items, i, acc, tokens, pos, fuel)
    decreases fuel, items, |items| - i
  {
    if i < |items| {
      MoreFuelSameTree(rules, getName, items[i], tokens, pos, fuel);
      var (child, next) := Interpret(rules, getName, items[i], tokens, pos, fuel);
      var acc' := acc.(children := acc.children + [Labelled(child.value, false, getName(items[i]))]);
      SeriesMoreFuel(rules, getName, items, i + 1, acc', tokens, next, fuel);
    }
  }

  /**
   * The Terminal nodes a walk of `d` evaluates when nothing fails, read off
   * the definition alone: one per terminal, a series' items added up, a rule
   * reference counting its definition's (none once the rule is missing or the
   * fuel is spent), and none for the forms that produce an empty node.
   */
  function TerminalsOf(rules: Table, d: AbnfDefinition, fuel: nat): nat
    decreases fuel, d, 0
  {
    match d
    case Series(items) => SeriesTerminals(rules, items, 0, fuel)
    case Terminal(_) => 1
    case Rule(name) => if name in rules && fuel > 0 then TerminalsOf(rules, rules[name], fuel - 1) else 0
    case _ => 0
  }

  function SeriesTerminals(rules: Table, items: seq<AbnfDefinition>, i: nat, fuel: nat): nat
    requires i <= |items|
    decreases fuel, items, |items| - i
  {
    if i == |items| then 0 else TerminalsOf(rules, items[i], fuel) + SeriesTerminals(rules, items, i + 1, fuel)
  }

  /**
   * One token is pulled per Terminal node evaluated: a successful walk pulls
   * exactly `TerminalsOf` tokens, and a failing one stops early and pulls no
   * more than that.
   */
  lemma {:induction false} InterpretPullsOnePerTerminal(rules: Table, getName: AbnfDefinition -> string, d: AbnfDefinition,
                                                        tokens: seq<Token>, pos: nat, fuel: nat)
    ensures var (tree, next) := Interpret(rules, getName, d, tokens, pos, fuel);
      && next <= pos + TerminalsOf(rules, d, fuel)
      && (tree.Ok? ==> next == pos + TerminalsOf(rules, d, fuel))
    decreases fuel, d, 0
  {
    match d
    case Series(items) =>
      SeriesPullsOnePerTerminal(rules, getName, items, 0, EmptyTree(), tokens, pos, fuel);
    case Rule(name) =>
      if name in rules && fuel > 0 {
        InterpretPullsOnePerTerminal(rules, getName, rules[name], tokens, pos, fuel - 1);
      }
    case _ =>
  }

  lemma {:induction false} SeriesPullsOnePerTerminal(rules: Table, getName: AbnfDefinition -> string, items: seq<AbnfDefinition>, i: nat,
                                                     acc: ParseTree, tokens: seq<Token>, pos: nat, fuel: nat)
    requires i <= |items|
    ensures var (tree, next) := InterpretSeries(rules, getName, items, i, acc, tokens, pos, fuel);
      && next <= pos + SeriesTerminals(rules, items, i, fuel)
      && (tree.Ok? ==> next == pos + SeriesTerminals(rules, items, i, fuel))
    decreases fuel, items, |items| - i
  {
    if i < |items| {
      InterpretPullsOnePerTerminal(rules, getName, items[i], tokens, pos, fuel);
      var (child, next) := Interpret(rules, getName, items[i], tokens, pos, fuel);
      if child.Ok? {
        var acc' := acc.(children := acc.children + [Labelled(child.value, false, getName(items[i]))]);
        SeriesPullsOnePerTerminal(rules, getName, items, i + 1, acc', tokens, next, fuel);
      }
    }
  }

  /** The token source: the closure's successive answers, and how often it has been called. */
  class TokenSource {
    const tokens: seq<Token>
    var index: nat

    constructor (tokens: seq<Token>)
      ensures this.tokens == tokens && index == 0
    {
      this.tokens := tokens;
      index := 0;
    }

    /** One call of the closure. */
    method Pull() returns (r: Result<Token>)
      modifies this`index
      ensures index == old(index) + 1 && r == Pulled(tokens, old(index))
    {
      r := if index < |tokens| then Ok(tokens[index]) else Err;
      index := index + 1;
    }
  }

  /** `GrammarParser`: a rule table and the interpreter over it. */
  class GrammarParser {
    const abnfRules: AbnfRules
    const getName: AbnfDefinition -> string

    ghost predicate Valid()
      reads this, abnfRules
    {
      abnfRules.Valid()
    }

    /** The rules, each seen through its definition. */
    function Rules(): Table
      reads this, abnfRules, abnfRules.rules.Values
    {
      abnfRules.Table()
    }

    /** `GrammarParser::new`: no rules. */
    constructor (getName: AbnfDefinition -> string)
      ensures Valid() && fresh(abnfRules) && Rules() == map[] && this.getName == getName
    {
      abnfRules := new AbnfRules();
      this.getName := getName;
    }

    /** `add_rules`: one call of `AbnfRules::parse`. */
    method AddRules(stmts: seq<Statement>) returns (r: Result<()>)
      requires Valid()
      modifies abnfRules, abnfRules.rules.Values
      ensures Valid()
      ensures (r, Rules()) == Parsed(old(Rules()), stmts)
    {
      r := abnfRules.Parse(stmts);
    }

    /** `get_rule`: the rule filed under `key`, or failure. */
    method GetRule(key: string) returns (r: Result<AbnfRule>)
      requires Valid()
      ensures r.Ok? <==> key in Rules()
      ensures r.Ok? ==> r.value.name == key && r.value.definition == Rules()[key]
    {
      if key in abnfRules.rules {
        r := Ok(abnfRules.rules[key]);
      } else {
        r := Err;
      }
    }

    /** `parse_abnf_definition_terminal`: pull one token; it must spell the literal. */
    method ParseAbnfDefinitionTerminal(literal: string, source: TokenSource) returns (r: Result<string>)
      modifies source`index
      ensures source.index == old(source.index) + 1
      ensures r.Ok? <==> old(source.index) < |source.tokens| && source.tokens[old(source.index)].value == literal
      ensures r.Ok? ==> r.value == literal
    {
      var token := source.Pull();
      if token.Ok? && token.value.value == literal {
        r := Ok(token.value.value);
      } else {
        r := Err;
      }
    }

    /** `parse_abnf_definition`: see `Interpret`. */
    method ParseAbnfDefinition(d: AbnfDefinition, source: TokenSource, fuel: nat) returns (r: Result<GrammarTreeNode>)
      requires Valid()
      modifies source`index
      ensures r.Ok? ==> fresh(r.value)
      ensures var (tree, next) := Interpret(Rules(), getName, d, source.tokens, old(source.index), fuel);
        && source.index == next
        && (r.Ok? <==> tree.Ok?)
        && (r.Ok? ==> r.value.Tree() == tree.value)
      decreases fuel, d, 1
    {
      match d {
        case Series(items) =>
          r := ParseSeries(items, source, fuel);
        case Terminal(literal) =>
          var text := ParseAbnfDefinitionTerminal(literal, source);
          if text.Err? {
            return Err;
          }
          var node := new GrammarTreeNode();
          node.SetValue(text.value);
          return Ok(node);
        case Rule(name) =>
          r := ParseRule(name, source, fuel);
        case _ =>
          var node := new GrammarTreeNode();
          return Ok(node);
      }
    }

    /** The series branch of `parse_abnf_definition`: one child per item, in order; see `InterpretSeries`. */
    method ParseSeries(items: seq<AbnfDefinition>, source: TokenSource, fuel: nat) returns (r: Result<GrammarTreeNode>)
      requires Valid()
      modifies source`index
      ensures r.Ok? ==> fresh(r.value)
      ensures var (tree, next) := InterpretSeries(Rules(), getName, items, 0, EmptyTree(), source.tokens, old(source.index), fuel);
        && source.index == next
        && (r.Ok? <==> tree.Ok?)
        && (r.Ok? ==> r.value.Tree() == tree.value)
      decreases fuel, items, 0
    {
      var node := new GrammarTreeNode();
      var i := 0;
      while i < |items|
        invariant i <= |items|
        invariant fresh(node)
        invariant InterpretSeries(Rules(), getName, items, i, node.Tree(), source.tokens, source.index, fuel)
               == InterpretSeries(Rules(), getName, items, 0, EmptyTree(), source.tokens, old(source.index), fuel)
      {
        ghost var acc := node.Tree();
        var child := ParseAbnfDefinition(items[i], source, fuel);
        if child.Err? {
          return Err;
        }
        ghost var labelled := Labelled(child.value.Tree(), false, getName(items[i]));
        child.value.SetRule(false, getName(items[i]));
        node.AppendChild(child.value);
        assert node.Tree() == acc.(children := acc.children + [labelled]);
        i := i + 1;
      }
      return Ok(node);
    }

    /** The rule-reference branch of `parse_abnf_definition`: the rule's tree as the only child, labelled with the rule's name. */
    method ParseRule(name: string, source: TokenSource, fuel: nat) returns (r: Result<GrammarTreeNode>)
      requires Valid()
      modifies source`index
      ensures r.Ok? ==> fresh(r.value)
      ensures var (tree, next) := Interpret(Rules(), getName, Rule(name), source.tokens, old(source.index), fuel);
        && source.index == next
        && (r.Ok? <==> tree.Ok?)
        && (r.Ok? ==> r.value.Tree() == tree.value)
      decreases fuel, name, 0
    {
      var rule := GetRule(name);
      if rule.Err? || fuel == 0 {
        return Err;
      }
      var child := ParseAbnfDefinition(rule.value.definition, source, fuel - 1);
      if child.Err? {
        return Err;
      }
      child.value.SetRule(true, rule.value.name);
      var node := new GrammarTreeNode();
      node.AppendChild(child.value);
      return Ok(node);
    }

    /** `parse`: interpret the entry rule and label the root with its name; see `InterpretEntry`. */
    method Parse(key: string, source: TokenSource, fuel: nat) returns (r: Result<GrammarTreeNode>)
      requires Valid()
      modifies source`index
      ensures r.Ok? ==> fresh(r.value)
      ensures var (tree, next) := InterpretEntry(Rules(), getName, key, source.tokens, old(source.index), fuel);
        && source.index == next
        && (r.Ok? <==> tree.Ok?)
        && (r.Ok? ==> r.value.Tree() == tree.value)
    {
      var rule := GetRule(key);
      if rule.Err? {
        return Err;
      }
      var node := ParseAbnfDefinition(rule.value.definition, source, fuel);
      if node.Err? {
        return Err;
      }
      node.value.SetRule(true, rule.value.name);
      return node;
    }
  }
}
