/** Option and the numeric constants shared by every part of the model. */
module Basics {

  datatype Option<+T> = None | Some(value: T)

  /// Number.MAX_SAFE_INTEGER, 2^53 - 1.
  const MAX_SAFE: nat := 0x1F_FFFF_FFFF_FFFF

  const HOUR_MS: nat := 3_600_000
  const DAY_MS: nat := 86_400_000

  /// What holds at the start of a run and is kept by each of its steps holds all along it.
  lemma {:induction false} HoldsThroughout<S>(states: seq<S>, good: S -> bool, n: nat)
    requires n < |states| && good(states[0])
    requires forall i | 0 <= i < n && good(states[i]) :: good(states[i + 1])
    ensures forall i | 0 <= i <= n :: good(states[i])
  {
    if n > 0 {
      HoldsThroughout(states, good, n - 1);
      assert good(states[n - 1]) && states[n - 1 + 1] == states[n];
    }
  }
}
