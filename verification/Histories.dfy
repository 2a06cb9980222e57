/** Histories of operations on a state, and invariants that every step keeps. */
module Histories {

  function Run<S, O>(start: S, ops: seq<O>, apply: (S, O) -> S): S {
    if ops == [] then start else apply(Run(start, ops[..|ops| - 1], apply), ops[|ops| - 1])
  }

  lemma RunStep<S, O>(start: S, ops: seq<O>, apply: (S, O) -> S, n: nat)
    requires n < |ops|
    ensures Run(start, ops[..n + 1], apply) == apply(Run(start, ops[..n], apply), ops[n])
  {
    assert ops[..n + 1][..n] == ops[..n];
  }

  /** Every operation of the history meets `p` in the state that it finds. */
  ghost predicate Throughout<S, O>(start: S, ops: seq<O>, apply: (S, O) -> S, p: (S, O) -> bool) {
    forall i :: 0 <= i < |ops| ==> p(Run(start, ops[..i], apply), ops[i])
  }

  /** `good` holds of the starting state and behind every operation. */
  ghost predicate Always<S, O>(start: S, ops: seq<O>, apply: (S, O) -> S, good: S -> bool) {
    forall n :: 0 <= n <= |ops| ==> good(Run(start, ops[..n], apply))
  }

  ghost predicate KeptExactlyWhen<S(!new), O(!new)>(apply: (S, O) -> S, good: S -> bool, possible: (S, O) -> bool, harmless: (S, O) -> bool) {
    forall s, o :: good(s) && possible(s, o) ==> (good(apply(s, o)) <==> harmless(s, o))
  }

  lemma {:induction false} GoodSoFar<S(!new), O(!new)>(start: S, ops: seq<O>, apply: (S, O) -> S, good: S -> bool,
                                                     possible: (S, O) -> bool, harmless: (S, O) -> bool, n: nat)
    requires n <= |ops| && good(start) && KeptExactlyWhen(apply, good, possible, harmless)
    requires Throughout(start, ops, apply, possible) && Throughout(start, ops, apply, harmless)
    ensures good(Run(start, ops[..n], apply))
  {
    if n > 0 {
      GoodSoFar(start, ops, apply, good, possible, harmless, n - 1);
      RunStep(start, ops, apply, n - 1);
    }
  }

  /** What each step keeps exactly when it is harmless holds throughout exactly when every step is. */
  lemma InvariantExactly<S(!new), O(!new)>(start: S, ops: seq<O>, apply: (S, O) -> S, good: S -> bool,
                                           possible: (S, O) -> bool, harmless: (S, O) -> bool)
    requires good(start) && KeptExactlyWhen(apply, good, possible, harmless)
    requires Throughout(start, ops, apply, possible)
    ensures Always(start, ops, apply, good) <==> Throughout(start, ops, apply, harmless)
  {
    hide Run;
    if Throughout(start, ops, apply, harmless) {
      forall n | 0 <= n <= |ops| ensures good(Run(start, ops[..n], apply)) {
        GoodSoFar(start, ops, apply, good, possible, harmless, n);
      }
    } else {
      var i :| 0 <= i < |ops| && !harmless(Run(start, ops[..i], apply), ops[i]);
      if good(Run(start, ops[..i], apply)) {
        RunStep(start, ops, apply, i);
        assert !good(Run(start, ops[..i + 1], apply));
      }
    }
  }
}
