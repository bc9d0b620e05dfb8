/**
 * The lexical-state stack semantics of `LexerTokenFactory` (push, pop and
 * change_state in src/lex/lexer_state.rs:117-135) as functions on values.
 * They are generic in the state type so that the engine (string names) and
 * the ABNF state machine (an enumeration) drive the very same definitions.
 */
module StateStacks {
  import opened StateChanges

  /** The current lexical state and the remembered ones, most recent last (a Rust `Vec` used as a stack). */
  datatype Modes<T> = Modes(current: T, stack: seq<T>)

  /** `push`: remember the current state and make `s` current. */
  function Pushed<T>(m: Modes<T>, s: T): Modes<T>
  {
    Modes(s, m.stack + [m.current])
  }

  /**
   * `pop(times)`: `times` rounds of "pop the top, if there is one, and make it
   * current"; a round on an empty stack does nothing.
   */
  function Popped<T>(m: Modes<T>, times: nat): (r: Modes<T>)
    ensures |r.stack| == if times <= |m.stack| then |m.stack| - times else 0
    ensures r.stack <= m.stack
    decreases times
  {
    if times == 0 || m.stack == [] then
      m
    else
      Popped(Modes(m.stack[|m.stack| - 1], m.stack[..|m.stack| - 1]), times - 1)
  }

  /** `change_state`: one operation. */
  function Applied<T>(m: Modes<T>, op: NextStateChange<T>): Modes<T>
  {
    match op
    case Push(s) => Pushed(m, s)
    case Pop(n) => Popped(m, n)
  }

  /** The operations of one state change, applied in list order. */
  function AppliedAll<T>(m: Modes<T>, ops: seq<NextStateChange<T>>): Modes<T>
    decreases |ops|
  {
    if ops == [] then m else AppliedAll(Applied(m, ops[0]), ops[1..])
  }

  /** A push undone by a pop of one gives back both the current state and the stack. */
  lemma PushThenPop<T>(m: Modes<T>, s: T)
    ensures Popped(Pushed(m, s), 1) == m
  {
    assert (m.stack + [m.current])[..|m.stack|] == m.stack;
  }

  /**
   * `pop(n)` makes the n-th most recently remembered state current and drops
   * it and everything above it; rounds past the bottom are no-ops, so an
   * over-long pop leaves the oldest remembered state current, and popping an
   * empty stack changes nothing.
   */
  lemma {:induction false} PoppedClosedForm<T>(m: Modes<T>, times: nat)
    ensures Popped(m, times) ==
      if times == 0 || m.stack == [] then m
      else if times <= |m.stack| then Modes(m.stack[|m.stack| - times], m.stack[..|m.stack| - times])
      else Modes(m.stack[0], [])
    decreases times
  {
    if times == 0 || m.stack == [] {
    } else {
      var n := |m.stack|;
      var m' := Modes(m.stack[n - 1], m.stack[..n - 1]);
      PoppedClosedForm(m', times - 1);
      if times - 1 == 0 {
      } else if m'.stack == [] {
        assert n == 1;
      } else if times - 1 <= n - 1 {
        assert m'.stack[n - 1 - (times - 1)] == m.stack[n - times];
        assert m'.stack[..n - 1 - (times - 1)] == m.stack[..n - times];
      } else {
        assert m'.stack[0] == m.stack[0];
      }
    }
  }

  /** Popping an empty stack, any number of times, leaves the current state where it was. */
  lemma {:induction false} PopEmptyIsNoOp<T>(c: T, times: nat)
    ensures Popped(Modes(c, []), times) == Modes(c, [])
  {
  }

  /** Applying two operation lists one after the other is applying their concatenation. */
  lemma {:induction false} AppliedAllConcat<T>(m: Modes<T>, a: seq<NextStateChange<T>>, b: seq<NextStateChange<T>>)
    ensures AppliedAll(m, a + b) == AppliedAll(AppliedAll(m, a), b)
    decreases |a|
  {
    if a == [] {
      assert a + b == b;
    } else {
      assert (a + b)[0] == a[0];
      assert (a + b)[1..] == a[1..] + b;
      AppliedAllConcat(Applied(m, a[0]), a[1..], b);
    }
  }

  /** Renaming every state by `f`, element-wise. */
  function MapSeq<T, U>(f: T -> U, s: seq<T>): (r: seq<U>)
    ensures |r| == |s| && forall i :: 0 <= i < |s| ==> r[i] == f(s[i])
  {
    seq(|s|, i requires 0 <= i < |s| => f(s[i]))
  }

  function MapModes<T, U>(f: T -> U, m: Modes<T>): Modes<U>
  {
    Modes(f(m.current), MapSeq(f, m.stack))
  }

  function MapOp<T, U>(f: T -> U, op: NextStateChange<T>): NextStateChange<U>
  {
    match op
    case Push(s) => Push(f(s))
    case Pop(n) => Pop(n)
  }

  function MapOps<T, U>(f: T -> U, ops: seq<NextStateChange<T>>): (r: seq<NextStateChange<U>>)
    ensures |r| == |ops| && forall i :: 0 <= i < |ops| ==> r[i] == MapOp(f, ops[i])
  {
    seq(|ops|, i requires 0 <= i < |ops| => MapOp(f, ops[i]))
  }

  /** Popping commutes with renaming the states. */
  lemma {:induction false} PoppedMap<T, U>(f: T -> U, m: Modes<T>, times: nat)
    ensures MapModes(f, Popped(m, times)) == Popped(MapModes(f, m), times)
    decreases times
  {
    if times == 0 || m.stack == [] {
    } else {
      var n := |m.stack|;
      var m' := Modes(m.stack[n - 1], m.stack[..n - 1]);
      assert MapModes(f, m') == Modes(MapModes(f, m).stack[n - 1], MapModes(f, m).stack[..n - 1]);
      PoppedMap(f, m', times - 1);
    }
  }

  /**
   * Renaming states is a homomorphism of the stack semantics: running the
   * renamed operations on the renamed stack gives the renamed result. This is
   * what lets the ABNF state machine, stated over an enumeration, stand for
   * the engine running on state names.
   */
  lemma {:induction false} AppliedAllMap<T, U>(f: T -> U, m: Modes<T>, ops: seq<NextStateChange<T>>)
    ensures MapModes(f, AppliedAll(m, ops)) == AppliedAll(MapModes(f, m), MapOps(f, ops))
    decreases |ops|
  {
    if ops != [] {
      var mapped := MapOps(f, ops);
      assert mapped[0] == MapOp(f, ops[0]);
      assert mapped[1..] == MapOps(f, ops[1..]);
      match ops[0] {
        case Push(s) =>
          assert MapSeq(f, m.stack + [m.current]) == MapSeq(f, m.stack) + [f(m.current)];
        case Pop(n) =>
          PoppedMap(f, m, n);
      }
      assert MapModes(f, Applied(m, ops[0])) == Applied(MapModes(f, m), mapped[0]);
      AppliedAllMap(f, Applied(m, ops[0]), ops[1..]);
    }
  }
}
