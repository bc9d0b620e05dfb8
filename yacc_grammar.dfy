/**
 * The parse tree the grammar interpreter builds (src/yacc/grammar.rs): a node
 * with a rule label, a matched text and children in order.
 */
module GrammarTrees {

  /** A finished node: its label, its text and its children. */
  datatype ParseTree = ParseTree(rule: string, value: string, children: seq<ParseTree>)

  /** A fresh node: no label, no text, no children. */
  function EmptyTree(): ParseTree
  {
    ParseTree("", "", [])
  }

  /** `set_rule` on a value: forced, or only where the node has no label yet. */
  function Labelled(t: ParseTree, mustSet: bool, rule: string): (r: ParseTree)
    // the text and the children are never touched
    ensures r.value == t.value && r.children == t.children
    // a forced label always lands; an unforced one never overwrites a label
    ensures mustSet ==> r.rule == rule
    ensures !mustSet && t.rule != "" ==> r == t
    ensures !mustSet && t.rule == "" ==> r.rule == rule
  {
    if mustSet || t.rule == "" then t.(rule := rule) else t
  }

  /** Once a node has a non-empty label, unforced labelling leaves it alone, however often it is applied. */
  lemma UnforcedLabelIsStable(t: ParseTree, mustSet: bool, rule: string, other: string)
    requires rule != ""
    ensures Labelled(Labelled(t, mustSet, rule), false, other).rule == Labelled(t, mustSet, rule).rule
  {
  }

  /** The texts of a tree's nodes, in pre-order: what the tree spells out. */
  function Frontier(t: ParseTree): string
  {
    t.value + FrontierAll(t.children)
  }

  function FrontierAll(ts: seq<ParseTree>): string
  {
    if ts == [] then "" else Frontier(ts[0]) + FrontierAll(ts[1..])
  }

  lemma {:induction false} FrontierAllAppend(ts: seq<ParseTree>, t: ParseTree)
    ensures FrontierAll(ts + [t]) == FrontierAll(ts) + Frontier(t)
    decreases |ts|
  {
    if ts == [] {
      assert [] + [t] == [t];
      assert [t][1..] == [];
    } else {
      assert (ts + [t])[1..] == ts[1..] + [t];
      FrontierAllAppend(ts[1..], t);
    }
  }

  /** `GrammarTreeNode`: a node under construction. */
  class GrammarTreeNode {
    var rule: string
    var value: string
    var children: seq<ParseTree>

    /** The node as a finished tree. */
    function Tree(): ParseTree
      reads this
    {
      ParseTree(rule, value, children)
    }

    /** `GrammarTreeNode::new`. */
    constructor ()
      ensures Tree() == EmptyTree()
    {
      rule := "";
      value := "";
      children := [];
    }

    /** `set_rule`: see `Labelled`. */
    method SetRule(mustSet: bool, rule: string)
      modifies this`rule
      ensures Tree() == Labelled(old(Tree()), mustSet, rule)
    {
      if mustSet || this.rule == "" {
        this.rule := rule;
      }
    }

    /** `set_value`: only the text changes. */
    method SetValue(value: string)
      modifies this`value
      ensures Tree() == old(Tree()).(value := value)
    {
      this.value := value;
    }

    /**
     * `append_child`: the child, as it is now, becomes the last child. The
     * source moves the child into its parent, so it is never the parent itself.
     */
    method AppendChild(node: GrammarTreeNode)
      requires node != this
      modifies this`children
      ensures Tree() == old(Tree()).(children := old(Tree()).children + [node.Tree()])
    {
      children := children + [node.Tree()];
    }
  }
}
