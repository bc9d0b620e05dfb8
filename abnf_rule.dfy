/**
 * One named ABNF rule (src/abnf/rule.rs): a name fixed at creation and a
 * definition that `=/` statements widen into a selection.
 */
module AbnfRuleEntry {
  import opened AbnfDefinitions

  /** The alternatives a definition stands for: a selection's branches, or the definition alone. */
  function Alternatives(d: AbnfDefinition): (r: seq<AbnfDefinition>)
    ensures d.Select? ==> r == d.branches
    ensures !d.Select? ==> r == [d]
  {
    if d.Select? then d.branches else [d]
  }

  /**
   * `append_select` on a value: a selection gains `e` as its last branch;
   * any other definition becomes the selection of itself and `e`.
   */
  function SelectAppended(d: AbnfDefinition, e: AbnfDefinition): (r: AbnfDefinition)
    ensures r.Select?
    // the earlier alternatives come first, in order, and `e` comes last
    ensures r.branches == Alternatives(d) + [e]
  {
    match d
    case Select(branches) => Select(branches + [e])
    case _ => Select([d, e])
  }

  /** `e` appended to `d`, then each of `es` in turn. */
  function SelectAppendedAll(d: AbnfDefinition, es: seq<AbnfDefinition>): AbnfDefinition
    decreases |es|
  {
    if es == [] then d else SelectAppendedAll(SelectAppended(d, es[0]), es[1..])
  }

  /**
   * The original definition is never lost: after one append it is the first
   * branch (or its branches open the selection), and there is exactly one
   * branch more than it had alternatives.
   */
  lemma AppendKeepsOriginal(d: AbnfDefinition, e: AbnfDefinition)
    ensures var r := SelectAppended(d, e);
      && |r.branches| == (if d.Select? then |d.branches| + 1 else 2)
      && (d.Select? ==> r.branches[..|d.branches|] == d.branches)
      && (!d.Select? ==> r.branches[0] == d)
      && r.branches[|r.branches| - 1] == e
  {
  }

  /**
   * Several appends in a row give one flat selection: the alternatives of
   * the first definition followed by the appended definitions in order.
   */
  lemma {:induction false} AppendAllFlat(d: AbnfDefinition, es: seq<AbnfDefinition>)
    requires es != []
    ensures SelectAppendedAll(d, es) == Select(Alternatives(d) + es)
    decreases |es|
  {
    var d1 := SelectAppended(d, es[0]);
    if es[1..] == [] {
      assert es == [es[0]];
    } else {
      AppendAllFlat(d1, es[1..]);
      assert Alternatives(d1) + es[1..] == Alternatives(d) + es by {
        assert Alternatives(d1) == Alternatives(d) + [es[0]];
        assert es == [es[0]] + es[1..];
      }
    }
  }

  /** `AbnfRule`: the name never changes; the definition is replaced or widened in place. */
  class AbnfRule {
    const name: string
    var definition: AbnfDefinition

    /** `AbnfRule::new`: the given name and definition. */
    constructor (ruleName: string, definition: AbnfDefinition)
      ensures name == ruleName && this.definition == definition
    {
      name := ruleName;
      this.definition := definition;
    }

    /** `append_select`: widen the definition by one alternative, the name staying as it is. */
    method AppendSelect(e: AbnfDefinition)
      modifies this`definition
      ensures definition == SelectAppended(old(definition), e)
    {
      match definition {
        case Select(branches) =>
          definition := Select(branches + [e]);
        case _ =>
          definition := Select([definition, e]);
      }
    }
  }
}
