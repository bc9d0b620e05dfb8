/** The token builder of src/lex/token_factory.rs. */
module TokenFactories {
  import opened Wrappers
  import opened Tokens
  import opened StateChanges

  /**
   * `TokenFactory`: a token type fixed at construction, plus optional
   * overrides for the advance and the stack operations to request.
   *
   * The source keeps a single `Option<NextStateChange>` that every
   * `push_state`/`pop_state` call overwrites, and hands it to `StateChange::new`,
   * which expects a list. This model records the calls in order instead (see
   * `PendingAsWritten` for the single-slot behaviour).
   */
  class TokenFactory {
    const tokenType: string
    var incrementOffset: Option<nat>
    var incrementLines: Option<nat>
    var nextState: seq<NextStateChange<string>>

    /** `TokenFactory::new`: nothing overridden, no operation requested. */
    constructor (tokenType: string)
      ensures this.tokenType == tokenType
      ensures incrementOffset.None? && incrementLines.None? && nextState == []
    {
      this.tokenType := tokenType;
      incrementOffset := None;
      incrementLines := None;
      nextState := [];
    }

    /** `offset`: override the advance. */
    method Offset(offset: nat)
      modifies this`incrementOffset
      ensures incrementOffset == Some(offset)
    {
      incrementOffset := Some(offset);
    }

    /** `lines`: override the line count. */
    method Lines(lines: nat)
      modifies this`incrementLines
      ensures incrementLines == Some(lines)
    {
      incrementLines := Some(lines);
    }

    /** `push_state`: request a push after the earlier requests. */
    method PushState(state: string)
      modifies this`nextState
      ensures nextState == old(nextState) + [Push(state)]
    {
      nextState := nextState + [Push(state)];
    }

    /** `pop_state`: request a pop after the earlier requests. */
    method PopState(times: nat)
      modifies this`nextState
      ensures nextState == old(nextState) + [Pop(times)]
    {
      nextState := nextState + [Pop(times)];
    }

    /**
     * `build`: a token of the factory's type whose text is the matched text,
     * and a change that advances by the text's length and by no line unless
     * overridden, carrying the requested operations in order.
     */
    function Build(token: string): (r: (Token, StateChange))
      reads this
      ensures r.0.tokenType == tokenType && r.0.value == token && r.0.location.None?
      ensures incrementOffset.None? ==> r.1.incrementOffset == |token|
      ensures incrementOffset.Some? ==> r.1.incrementOffset == incrementOffset.value
      ensures incrementLines.None? ==> r.1.incrementLines == 0
      ensures incrementLines.Some? ==> r.1.incrementLines == incrementLines.value
      ensures r.1.nextState == nextState
    {
      (NewToken(tokenType, token),
       StateChange(
         if incrementOffset.Some? then incrementOffset.value else |token|,
         if incrementLines.Some? then incrementLines.value else 0,
         nextState))
    }
  }

  /**
   * The stack operations a chain of `push_state`/`pop_state` calls leaves
   * pending as the source is written: one `Option` slot that each call
   * overwrites, so only the last call survives.
   */
  function PendingAsWritten<T>(calls: seq<NextStateChange<T>>): (r: seq<NextStateChange<T>>)
    ensures |r| <= 1
    ensures calls == [] <==> r == []
    ensures calls != [] ==> r[0] == calls[|calls| - 1]
  {
    if calls == [] then [] else [calls[|calls| - 1]]
  }
}
