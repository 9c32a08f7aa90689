/** Runs of a step relation over a list of inputs, where each step sees the results before it. */
module Chains {

  /** Whether an input, after the earlier results and in a state, may give a result and a next state. */
  type Step<!D, !R, !S> = (D, seq<R>, S, R, S) -> bool

  ghost predicate Chain<D(!new), R(!new), S(!new)>(ds: seq<D>, step: Step<D, R, S>, start: S, rs: seq<R>, end: S)
    decreases |ds|, 0
  {
    |rs| == |ds| && if ds == [] then end == start else exists middle :: ChainThrough(ds, step, start, rs, middle, end)
  }

  ghost predicate ChainThrough<D(!new), R(!new), S(!new)>(ds: seq<D>, step: Step<D, R, S>, start: S, rs: seq<R>,
                                                          middle: S, end: S)
    requires |rs| == |ds| > 0
    decreases |ds| - 1, 1
  {
    && Chain(ds[..|ds| - 1], step, start, rs[..|ds| - 1], middle)
    && step(ds[|ds| - 1], rs[..|ds| - 1], middle, rs[|ds| - 1], end)
  }

  ghost predicate Deterministic<D(!new), R(!new), S(!new)>(step: Step<D, R, S>) {
    forall d, before, s, r1, e1, r2, e2 :: step(d, before, s, r1, e1) && step(d, before, s, r2, e2) ==>
      r1 == r2 && e1 == e2
  }

  ghost predicate NoChain<D(!new), R(!new), S(!new)>(ds: seq<D>, step: Step<D, R, S>, start: S) {
    forall rs, end :: !Chain(ds, step, start, rs, end)
  }

  ghost predicate NoStep<D(!new), R(!new), S(!new)>(d: D, step: Step<D, R, S>, before: seq<R>, s: S) {
    forall r, e :: !step(d, before, s, r, e)
  }

  lemma ExtendChain<D(!new), R(!new), S(!new)>(ds: seq<D>, k: nat, step: Step<D, R, S>, start: S, rs: seq<R>, middle: S,
                                               r: R, end: S)
    requires k < |ds| && Chain(ds[..k], step, start, rs, middle) && step(ds[k], rs, middle, r, end)
    ensures Chain(ds[..k + 1], step, start, rs + [r], end)
  {
    assert ds[..k + 1][..k] == ds[..k] && (rs + [r])[..k] == rs;
    assert ChainThrough(ds[..k + 1], step, start, rs + [r], middle, end);
  }

  /** A deterministic step has at most one chain. */
  lemma {:induction false} OneChain<D(!new), R(!new), S(!new)>(ds: seq<D>, step: Step<D, R, S>, start: S,
                                                              r1: seq<R>, e1: S, r2: seq<R>, e2: S)
    requires Deterministic(step) && Chain(ds, step, start, r1, e1) && Chain(ds, step, start, r2, e2)
    ensures r1 == r2 && e1 == e2
    decreases |ds|
  {
    if ds != [] {
      var n := |ds| - 1;
      var m1 :| ChainThrough(ds, step, start, r1, m1, e1);
      var m2 :| ChainThrough(ds, step, start, r2, m2, e2);
      OneChain(ds[..n], step, start, r1[..n], m1, r2[..n], m2);
      assert r1 == r1[..n] + [r1[n]] && r2 == r2[..n] + [r2[n]];
    }
  }

  /** If the one chain over a prefix has no next step, no chain covers the whole list. */
  lemma {:induction false} StoppedChain<D(!new), R(!new), S(!new)>(ds: seq<D>, k: nat, step: Step<D, R, S>, start: S,
                                                                   rs: seq<R>, middle: S)
    requires k < |ds| && Deterministic(step)
    requires Chain(ds[..k], step, start, rs, middle) && NoStep(ds[k], step, rs, middle)
    ensures NoChain(ds, step, start)
    decreases |ds|
  {
    var n := |ds| - 1;
    if k < n {
      assert ds[..n][..k] == ds[..k];
      StoppedChain(ds[..n], k, step, start, rs, middle);
    }
    forall more, m, end | |more| == |ds| ensures !ChainThrough(ds, step, start, more, m, end) {
      if k == n && Chain(ds[..n], step, start, more[..n], m) {
        OneChain(ds[..n], step, start, rs, middle, more[..n], m);
        assert !step(ds[n], rs, middle, more[n], end);
      }
    }
    assert ds != [];
  }

  /** Steps only move up in some order on the states. */
  ghost predicate Grows<D(!new), R(!new), S(!new)>(step: Step<D, R, S>, atMost: (S, S) -> bool) {
    && (forall s :: atMost(s, s))
    && (forall s, t, u :: atMost(s, t) && atMost(t, u) ==> atMost(s, u))
    && (forall d, before, s, r, e :: step(d, before, s, r, e) ==> atMost(s, e))
  }

  /** The part of a chain up to some input, the step that it takes there, and that the end is above it. */
  lemma {:induction false} ChainAt<D(!new), R(!new), S(!new)>(ds: seq<D>, step: Step<D, R, S>, start: S, rs: seq<R>,
                                                              end: S, k: nat,
                                                             atMost: (S, S) -> bool)
    returns (before: S, after: S)
    requires Chain(ds, step, start, rs, end) && k < |ds| && Grows(step, atMost)
    ensures Chain(ds[..k], step, start, rs[..k], before)
    ensures step(ds[k], rs[..k], before, rs[k], after)
    ensures atMost(after, end)
    decreases |ds|
  {
    var n := |ds| - 1;
    var m :| ChainThrough(ds, step, start, rs, m, end);
    if k == n {
      before, after := m, end;
    } else {
      assert ds[..n][..k] == ds[..k] && rs[..n][..k] == rs[..k];
      before, after := ChainAt(ds[..n], step, start, rs[..n], m, k, atMost);
    }
  }

  /** What every step keeps of the state holds at the end. */
  lemma {:induction false} ChainKeeps<D(!new), R(!new), S(!new)>(ds: seq<D>, step: Step<D, R, S>, start: S, rs: seq<R>,
                                                                 end: S, inv: S -> bool)
    requires Chain(ds, step, start, rs, end) && inv(start)
    requires forall d, before, s, r, e :: inv(s) && step(d, before, s, r, e) ==> inv(e)
    ensures inv(end)
    decreases |ds|
  {
    if ds != [] {
      var n := |ds| - 1;
      var m :| ChainThrough(ds, step, start, rs, m, end);
      ChainKeeps(ds[..n], step, start, rs[..n], m, inv);
    }
  }

  /** What holds at the start and is passed on by each step of a chain, position by position, holds at its end. */
  lemma {:induction false} ChainPasses<D(!new), R(!new), S(!new)>(ds: seq<D>, step: Step<D, R, S>, start: S, rs: seq<R>,
                                                                  end: S, n: nat, holds: (nat, S) -> bool)
    requires n <= |ds| == |rs| && Chain(ds[..n], step, start, rs[..n], end) && holds(0, start)
    requires forall k: nat, s, e :: k < n && holds(k, s) && step(ds[k], rs[..k], s, rs[k], e) ==> holds(k + 1, e)
    ensures holds(n, end)
  {
    if n > 0 {
      var m :| ChainThrough(ds[..n], step, start, rs[..n], m, end);
      assert ds[..n][..n - 1] == ds[..n - 1] && rs[..n][..n - 1] == rs[..n - 1];
      ChainPasses(ds, step, start, rs, m, n - 1, holds);
      assert holds(n - 1, m) && step(ds[n - 1], rs[..n - 1], m, rs[n - 1], end);
    }
  }
}
