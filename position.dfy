/** A place in the source text: src/lex/position.rs. */
module Positions {
  import opened Wrappers

  /** `Position { line, column }`; both fields are unsigned counters. */
  datatype Position = Position(line: nat, column: nat)

  datatype Ordering = Less | Equal | Greater

  /** `Position::new_zero`. */
  function NewZero(): (p: Position)
    ensures p.line == 0 && p.column == 0
  {
    Position(0, 0)
  }

  /** `partial_cmp`: lexicographic on (line, column); it never answers `None`. */
  function PartialCmp(a: Position, b: Position): (r: Option<Ordering>)
    ensures r.Some?
    ensures r == Some(Less) <==> a.line < b.line || (a.line == b.line && a.column < b.column)
    ensures r == Some(Greater) <==> a.line > b.line || (a.line == b.line && a.column > b.column)
  {
    if a.line < b.line || (a.line == b.line && a.column < b.column) then
      Some(Less)
    else if a.line > b.line || (a.line == b.line && a.column > b.column) then
      Some(Greater)
    else
      Some(Equal)
  }

  /** The comparison says `Equal` exactly when the derived equality holds. */
  lemma CompareEqualIffSame(a: Position, b: Position)
    ensures PartialCmp(a, b) == Some(Equal) <==> a == b
  {
  }

  /** Swapping the operands swaps `Less` and `Greater`. */
  lemma CompareAntisymmetric(a: Position, b: Position)
    ensures PartialCmp(a, b) == Some(Less) <==> PartialCmp(b, a) == Some(Greater)
    ensures PartialCmp(a, b) == Some(Equal) <==> PartialCmp(b, a) == Some(Equal)
  {
  }

  /** `Less` is transitive, and so is "not `Greater`". */
  lemma CompareTransitive(a: Position, b: Position, c: Position)
    ensures PartialCmp(a, b) == Some(Less) && PartialCmp(b, c) == Some(Less) ==> PartialCmp(a, c) == Some(Less)
    ensures PartialCmp(a, b) != Some(Greater) && PartialCmp(b, c) != Some(Greater) ==> PartialCmp(a, c) != Some(Greater)
  {
  }

  /** Totality: any two positions are related by exactly one of the three answers. */
  lemma CompareTotal(a: Position, b: Position)
    ensures PartialCmp(a, b) in {Some(Less), Some(Equal), Some(Greater)}
    ensures PartialCmp(a, b) == Some(Less) || PartialCmp(b, a) == Some(Less) || a == b
  {
  }
}
