/**
 * The records a token factory hands to a lexer: src/lex/state_change.rs and
 * src/lex/increment_offset.rs. They carry no behaviour of their own.
 */
module StateChanges {

  /**
   * `NextStateChange`: push a lexical state, or pop a number of them. The
   * source's states are `&'static str`; the type parameter lets the ABNF
   * state machine use an enumeration of the same operations.
   */
  datatype NextStateChange<T> = Push(state: T) | Pop(times: nat)

  /** `StateChange`: how far to advance, how many lines, and the ordered stack operations. */
  datatype StateChange = StateChange(incrementOffset: nat, incrementLines: nat, nextState: seq<NextStateChange<string>>)

  /** `IncrementOffset`, the older lexer's advance record. */
  datatype IncrementOffset = IncrementOffset(incrementOffset: nat, incrementLines: nat)
}
