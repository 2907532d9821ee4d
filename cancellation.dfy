/** The cancel flag the worker polls.  The user may press "Cancelar" at any
    moment; the worker only notices at its check points, so a cancellation
    is modelled by the first check point that sees the flag. */
module Cancellation {

  /** Check point `slot` of file `file`: slot 0 is the test at the top of the
      batch loop, slot `j + 1` the test before segment `j` of that file.  The
      check after the batch loop is `(number of files, 0)`. */
  datatype Cancel = NeverCancelled | CancelledAt(file: nat, slot: nat)

  /** Is the flag set when check point `(file, slot)` runs?  The flag is an
      event that is set once and never cleared during a run, so it stays
      visible at every later check point. */
  predicate Seen(c: Cancel, file: nat, slot: nat) {
    c.CancelledAt? && (c.file < file || (c.file == file && c.slot <= slot))
  }

  lemma SeenMonotone(c: Cancel, f1: nat, s1: nat, f2: nat, s2: nat)
    requires Seen(c, f1, s1)
    requires f1 < f2 || (f1 == f2 && s1 <= s2)
    ensures Seen(c, f2, s2)
  {
  }

  /** The first `j` in `from..n` with `stop(j)`, or `n` when there is none. */
  function FirstStopFrom(stop: nat -> bool, from: nat, n: nat): (r: nat)
    requires from <= n
    ensures from <= r <= n
    ensures r < n ==> stop(r)
    ensures forall j: nat :: from <= j < r ==> !stop(j)
    decreases n - from
  {
    if from == n || stop(from) then from else FirstStopFrom(stop, from + 1, n)
  }

  /** How far a loop over `n` items gets before its stop test fires. */
  function FirstStop(stop: nat -> bool, n: nat): (r: nat)
    ensures r <= n
    ensures r < n ==> stop(r)
    ensures forall j: nat :: j < r ==> !stop(j)
  {
    FirstStopFrom(stop, 0, n)
  }

  /** The characterisation pins the value down: any `r` with the same three
      properties is `FirstStop(stop, n)`. */
  lemma FirstStopUnique(stop: nat -> bool, n: nat, r: nat)
    requires r <= n
    requires r < n ==> stop(r)
    requires forall j: nat :: j < r ==> !stop(j)
    ensures FirstStop(stop, n) == r
  {
  }
}
