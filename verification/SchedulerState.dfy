/**
 The state that one probe run updates under its lock: the per-probe records of
 internal/probe/orchestrator.go, the compiled adjacency they are read against, and the
 two loops that change them (releasing dependents, cascading a skip).
 */
module SchedulerState {
  import opened Options
  import opened Seqs

  /** Compiled adjacency of an execution plan; node `i` is the i-th registered probe. */
  datatype Plan = Plan(dependencies: seq<seq<nat>>, downstream: seq<seq<nat>>) {
    function Size(): nat { |dependencies| }

    /** Both adjacencies name nodes of the plan and list the same edges with the same multiplicity. */
    ghost predicate Valid() {
      && |downstream| == |dependencies|
      && (forall i, k :: 0 <= i < |dependencies| && 0 <= k < |dependencies[i]| ==> dependencies[i][k] < |dependencies|)
      && (forall i, k :: 0 <= i < |downstream| && 0 <= k < |downstream[i]| ==> downstream[i][k] < |dependencies|)
      && (forall i, j :: 0 <= i < |dependencies| && 0 <= j < |dependencies| ==> SameEdges(i, j))
    }

    /** The edges from node `j` into node `i`, counted in both adjacencies. */
    ghost predicate SameEdges(i: nat, j: nat)
      requires i < |dependencies| && j < |downstream|
    {
      multiset(downstream[j])[i] == multiset(dependencies[i])[j]
    }

    /** `rank` numbers the nodes so that every dependency has a smaller number. */
    ghost predicate RankedBy(rank: seq<nat>) {
      && |rank| == |dependencies|
      && (forall i, k :: 0 <= i < |dependencies| && 0 <= k < |dependencies[i]| ==>
            dependencies[i][k] < |rank| && rank[dependencies[i][k]] < rank[i])
    }

    ghost predicate Acyclic() {
      exists rank :: RankedBy(rank)
    }
  }

  datatype ProbeStatus = Succeeded | Failed | Skipped | Cancelled

  /** `result.Some?` is the record's finalized flag. */
  datatype ProbeState = ProbeState(remainingDeps: int, result: Option<ProbeStatus>) {
    predicate Final() { result.Some? }
    predicate Good() { result == Some(Succeeded) }
    predicate Bad() { result.Some? && result.value != Succeeded }
  }

  /** Every node named by `targets` is a position of `states`. */
  predicate InRange(states: seq<ProbeState>, targets: seq<nat>) {
    forall k :: 0 <= k < |targets| ==> targets[k] < |states|
  }

  /** The indicator of a finalized record, for counting. */
  function FinalFlag(s: ProbeState): int { if s.Final() then 1 else 0 }

  /** The indicator of a record that still waits for a dependency, for counting. */
  function WaitingFlag(s: ProbeState): int { if !s.Final() && s.remainingDeps > 0 then 1 else 0 }

  ghost function FinalCount(states: seq<ProbeState>): int { SumBy(states, FinalFlag) }
  ghost function WaitingCount(states: seq<ProbeState>): int { SumBy(states, WaitingFlag) }

  lemma FinalCountBounds(states: seq<ProbeState>)
    ensures 0 <= FinalCount(states) <= |states|
  {
    SumByNonNegative(states, FinalFlag);
    SumByAtMost(states, 1, FinalFlag);
  }

  /** All records are finalized exactly when the count says so. */
  lemma {:induction false} FinalCountFull(states: seq<ProbeState>)
    ensures FinalCount(states) == |states| <==> forall i :: 0 <= i < |states| ==> states[i].Final()
  {
    if states != [] {
      FinalCountBounds(states[1..]);
      FinalCountFull(states[1..]);
      assert forall i :: 0 < i < |states| ==> states[i] == states[1..][i - 1];
      if forall i :: 0 <= i < |states[1..]| ==> states[1..][i].Final() {
        assert forall i :: 0 < i < |states| ==> states[i].Final();
      }
      if forall i :: 0 <= i < |states| ==> states[i].Final() {
        assert forall i :: 0 <= i < |states[1..]| ==> states[1..][i] == states[i + 1];
        assert states[0].Final();
      }
    }
  }

  // --- Releasing the dependents of a probe that succeeded ---

  /** Decrement one counter per listed edge, and list the nodes whose counter reached zero. */
  function Release(states: seq<ProbeState>, targets: seq<nat>): (r: (seq<ProbeState>, seq<nat>))
    requires InRange(states, targets)
    ensures |r.0| == |states|
    decreases |targets|
  {
    if targets == [] then (states, [])
    else
      var d := targets[0];
      var s := states[d := states[d].(remainingDeps := states[d].remainingDeps - 1)];
      var (t, more) := Release(s, targets[1..]);
      (t, if s[d].remainingDeps == 0 then [d] + more else more)
  }

  /** Each counter drops by the number of listed edges into its node, and nothing else changes. */
  lemma {:induction false} ReleaseCounters(states: seq<ProbeState>, targets: seq<nat>, i: nat)
    requires InRange(states, targets) && i < |states|
    ensures Release(states, targets).0[i] ==
            states[i].(remainingDeps := states[i].remainingDeps - multiset(targets)[i])
    decreases |targets|
  {
    if targets != [] {
      var d := targets[0];
      var s := states[d := states[d].(remainingDeps := states[d].remainingDeps - 1)];
      ReleaseCounters(s, targets[1..], i);
      assert targets == [d] + targets[1..];
    }
  }

  /** A node is listed once if its counter went from positive to exactly zero, and not otherwise. */
  lemma {:induction false} ReleaseListed(states: seq<ProbeState>, targets: seq<nat>, i: nat)
    requires InRange(states, targets) && i < |states|
    requires states[i].remainingDeps >= multiset(targets)[i]
    ensures multiset(Release(states, targets).1)[i] ==
            if multiset(targets)[i] > 0 && states[i].remainingDeps == multiset(targets)[i] then 1 else 0
    ensures i in Release(states, targets).1 ==> i in targets
    decreases |targets|
  {
    if targets != [] {
      var d := targets[0];
      var s := states[d := states[d].(remainingDeps := states[d].remainingDeps - 1)];
      assert targets == [d] + targets[1..];
      ReleaseListed(s, targets[1..], i);
      assert i in targets[1..] <==> multiset(targets[1..])[i] > 0;
    }
  }

  /** Released nodes are nodes of the plan. */
  lemma {:induction false} ReleaseInRange(states: seq<ProbeState>, targets: seq<nat>)
    requires InRange(states, targets)
    ensures InRange(states, Release(states, targets).1)
    decreases |targets|
  {
    if targets != [] {
      var d := targets[0];
      var s := states[d := states[d].(remainingDeps := states[d].remainingDeps - 1)];
      ReleaseInRange(s, targets[1..]);
    }
  }

  /** Releasing finalizes nothing, and moves exactly the listed nodes out of the waiting count. */
  lemma {:induction false} ReleaseCounts(states: seq<ProbeState>, targets: seq<nat>)
    requires InRange(states, targets)
    requires forall i :: 0 <= i < |states| ==> states[i].remainingDeps >= multiset(targets)[i]
    requires forall i :: 0 <= i < |states| && states[i].Final() && multiset(targets)[i] > 0 ==>
               states[i].remainingDeps > multiset(targets)[i]
    ensures FinalCount(Release(states, targets).0) == FinalCount(states)
    ensures WaitingCount(Release(states, targets).0) == WaitingCount(states) - |Release(states, targets).1|
    decreases |targets|
  {
    if targets != [] {
      var d := targets[0];
      var x := states[d].(remainingDeps := states[d].remainingDeps - 1);
      var s := states[d := x];
      assert targets == [d] + targets[1..];
      assert multiset(targets)[d] >= 1;
      SumByUpdate(states, d, x, FinalFlag);
      SumByUpdate(states, d, x, WaitingFlag);
      ReleaseCounts(s, targets[1..]);
    }
  }

  // --- Cascading a skip to transitive dependents ---

  /** The listed nodes that are not finalized, in order. */
  function Unfinalized(states: seq<ProbeState>, targets: seq<nat>): (r: seq<nat>)
    requires InRange(states, targets)
    ensures InRange(states, r)
    ensures forall x :: x in r <==> x in targets && !states[x].Final()
  {
    if targets == [] then []
    else if states[targets[0]].Final() then Unfinalized(states, targets[1..])
    else [targets[0]] + Unfinalized(states, targets[1..])
  }

  /** The depth-first cascade: the end of `stack` is its top. Returns the records and how many it finalized. */
  function Cascade(p: Plan, states: seq<ProbeState>, stack: seq<nat>): (r: (seq<ProbeState>, nat))
    requires p.Valid() && |states| == p.Size() && InRange(states, stack)
    ensures |r.0| == |states|
    decreases |states| - FinalCount(states), |stack|
  {
    FinalCountBounds(states);
    if stack == [] then (states, 0)
    else
      var id, rest := stack[|stack| - 1], stack[..|stack| - 1];
      if states[id].Final() then Cascade(p, states, rest)
      else
        var s := states[id := states[id].(result := Some(Skipped))];
        SumByUpdate(states, id, states[id].(result := Some(Skipped)), FinalFlag);
        FinalCountBounds(s);
        var (t, n) := Cascade(p, s, rest + Unfinalized(s, p.downstream[id]));
        (t, n + 1)
  }

  /** Records are only ever turned from open to skipped; counters are not touched. */
  ghost predicate OnlySkips(before: seq<ProbeState>, after: seq<ProbeState>) {
    && |after| == |before|
    && (forall i :: 0 <= i < |before| ==>
          after[i] == before[i] || (!before[i].Final() && after[i] == before[i].(result := Some(Skipped))))
  }

  /** What the stack still owes: every dependent of a bad record is skipped already or is on the stack. */
  ghost predicate Owed(p: Plan, states: seq<ProbeState>, stack: seq<nat>)
    requires p.Valid() && |states| == p.Size()
  {
    forall i, k :: 0 <= i < p.Size() && 0 <= k < |p.downstream[i]| && states[i].Bad() ==>
      states[p.downstream[i][k]].Final() || p.downstream[i][k] in stack
  }

  /** Some direct dependency of node `i` ended badly. */
  ghost predicate HasBadDependency(p: Plan, states: seq<ProbeState>, i: nat)
    requires p.Valid() && |states| == p.Size() && i < p.Size()
  {
    exists k :: 0 <= k < |p.dependencies[i]| && states[p.dependencies[i][k]].Bad()
  }

  /** The two adjacencies agree on which edges exist. */
  lemma EdgeBothWays(p: Plan, i: nat, j: nat)
    requires p.Valid() && i < p.Size() && j < p.Size()
    ensures i in p.downstream[j] <==> j in p.dependencies[i]
  {
    assert p.SameEdges(i, j);
    assert i in p.downstream[j] <==> i in multiset(p.downstream[j]);
    assert j in p.dependencies[i] <==> j in multiset(p.dependencies[i]);
  }

  lemma BadDependencyVia(p: Plan, states: seq<ProbeState>, i: nat, j: nat)
    requires p.Valid() && |states| == p.Size() && i < p.Size() && j < p.Size()
    requires states[j].Bad() && i in p.downstream[j]
    ensures HasBadDependency(p, states, i)
  {
    EdgeBothWays(p, i, j);
    var k :| 0 <= k < |p.dependencies[i]| && p.dependencies[i][k] == j;
  }

  /** A bad dependency stays one while records are only skipped. */
  lemma BadDependencyStays(p: Plan, before: seq<ProbeState>, after: seq<ProbeState>, i: nat)
    requires p.Valid() && |before| == p.Size() && i < p.Size() && OnlySkips(before, after)
    requires HasBadDependency(p, before, i)
    ensures HasBadDependency(p, after, i)
  {
    var k :| 0 <= k < |p.dependencies[i]| && before[p.dependencies[i][k]].Bad();
    assert after[p.dependencies[i][k]].Bad();
  }

  /**
   The cascade skips exactly what it must. Started with a stack that owes every open dependent of a
   bad record, it leaves no bad record with an open dependent, every record it changed has a bad
   direct dependency, and the number it returns is the number of records it finalized.
   */
  lemma {:induction false} CascadeSpec(p: Plan, states: seq<ProbeState>, stack: seq<nat>)
    requires p.Valid() && |states| == p.Size() && InRange(states, stack)
    requires Owed(p, states, stack)
    requires forall k :: 0 <= k < |stack| ==> HasBadDependency(p, states, stack[k])
    ensures OnlySkips(states, Cascade(p, states, stack).0)
    ensures Owed(p, Cascade(p, states, stack).0, [])
    ensures forall i :: 0 <= i < p.Size() && !states[i].Final() && Cascade(p, states, stack).0[i].Final() ==>
              HasBadDependency(p, Cascade(p, states, stack).0, i)
    ensures FinalCount(Cascade(p, states, stack).0) == FinalCount(states) + Cascade(p, states, stack).1
    decreases |states| - FinalCount(states), |stack|
  {
    FinalCountBounds(states);
    if stack != [] {
      var id, rest := stack[|stack| - 1], stack[..|stack| - 1];
      assert forall x :: x in stack <==> x in rest || x == id;
      if states[id].Final() {
        CascadeSpec(p, states, rest);
      } else {
        assert HasBadDependency(p, states, stack[|stack| - 1]);
        var s := CascadeStep(p, states, id, rest);
        var next := rest + Unfinalized(s, p.downstream[id]);
        FinalCountBounds(s);
        CascadeSpec(p, s, next);
        SkippedHasBadDependency(p, states, s, Cascade(p, s, next).0, id);
      }
    }
  }

  /** What a cascade finalizes after its first step, together with the first, has bad dependencies at the end. */
  lemma SkippedHasBadDependency(p: Plan, states: seq<ProbeState>, s: seq<ProbeState>, t: seq<ProbeState>, id: nat)
    requires p.Valid() && |states| == |s| == |t| == p.Size() && id < p.Size()
    requires OnlySkips(states, s) && OnlySkips(s, t) && HasBadDependency(p, states, id)
    requires forall i :: 0 <= i < p.Size() && i != id ==> s[i] == states[i]
    requires forall i :: 0 <= i < p.Size() && !s[i].Final() && t[i].Final() ==> HasBadDependency(p, t, i)
    ensures OnlySkips(states, t)
    ensures forall i :: 0 <= i < p.Size() && !states[i].Final() && t[i].Final() ==> HasBadDependency(p, t, i)
  {
    BadDependencyStays(p, states, s, id);
    BadDependencyStays(p, s, t, id);
  }

  /** Skipping one node and stacking its open dependents keeps the cascade's obligations. */
  lemma CascadeStep(p: Plan, states: seq<ProbeState>, id: nat, rest: seq<nat>) returns (s: seq<ProbeState>)
    requires p.Valid() && |states| == p.Size() && InRange(states, rest) && id < p.Size() && !states[id].Final()
    requires Owed(p, states, rest + [id])
    requires forall k :: 0 <= k < |rest| ==> HasBadDependency(p, states, rest[k])
    ensures s == states[id := states[id].(result := Some(Skipped))]
    ensures OnlySkips(states, s) && FinalCount(s) == FinalCount(states) + 1
    ensures Owed(p, s, rest + Unfinalized(s, p.downstream[id]))
    ensures forall x :: x in rest + Unfinalized(s, p.downstream[id]) ==> x < p.Size() && HasBadDependency(p, s, x)
  {
    s := states[id := states[id].(result := Some(Skipped))];
    SumByUpdate(states, id, states[id].(result := Some(Skipped)), FinalFlag);
    var open := Unfinalized(s, p.downstream[id]);
    forall x | x in rest + open
      ensures x < p.Size() && HasBadDependency(p, s, x)
    {
      if x in rest {
        BadDependencyStays(p, states, s, x);
      } else {
        BadDependencyVia(p, s, x, id);
      }
    }
    forall i, k | 0 <= i < p.Size() && 0 <= k < |p.downstream[i]| && s[i].Bad()
      ensures s[p.downstream[i][k]].Final() || p.downstream[i][k] in rest + open
    {
      if i != id {
        assert states[i].Bad();
      }
    }
  }

  /**
   When every record on the stack or below it still waits, the cascade lowers the waiting count by what it returns.
   */
  lemma {:induction false} CascadeWaiting(p: Plan, states: seq<ProbeState>, stack: seq<nat>)
    requires p.Valid() && |states| == p.Size() && InRange(states, stack)
    requires Owed(p, states, stack)
    requires forall k :: 0 <= k < |stack| ==> HasBadDependency(p, states, stack[k])
    requires forall i :: 0 <= i < p.Size() && states[i].remainingDeps <= 0 ==>
               forall k :: 0 <= k < |p.dependencies[i]| ==> states[p.dependencies[i][k]].Good()
    ensures WaitingCount(Cascade(p, states, stack).0) == WaitingCount(states) - Cascade(p, states, stack).1
    decreases |states| - FinalCount(states), |stack|
  {
    FinalCountBounds(states);
    if stack != [] {
      var id, rest := stack[|stack| - 1], stack[..|stack| - 1];
      assert forall x :: x in stack <==> x in rest || x == id;
      assert HasBadDependency(p, states, stack[|stack| - 1]);
      if states[id].Final() {
        CascadeWaiting(p, states, rest);
      } else {
        var s := CascadeStep(p, states, id, rest);
        SumByUpdate(states, id, states[id].(result := Some(Skipped)), WaitingFlag);
        var next := rest + Unfinalized(s, p.downstream[id]);
        FinalCountBounds(s);
        forall i | 0 <= i < p.Size() && s[i].remainingDeps <= 0
          ensures forall k :: 0 <= k < |p.dependencies[i]| ==> s[p.dependencies[i][k]].Good()
        {
          assert states[i].remainingDeps <= 0;
        }
        CascadeWaiting(p, s, next);
      }
    }
  }
}
