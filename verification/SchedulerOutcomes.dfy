/**
 What each probe's outcome says about how the probe ended, in any run: the returns of the probes, with or without a
 cancellation in between, determine the recorded outcomes.
 */
module SchedulerOutcomes {
  import opened Options
  import opened Seqs
  import opened SchedulerState
  import opened SchedulerProtocol
  import opened SchedulerInvariant
  import opened SchedulerSettle
  import opened SchedulerTheorems

  /** A probe came back with an error or none, after the context was canceled or before. */
  datatype Return = Return(id: nat, err: RunError, cancelled: bool)

  /** All returns of a run. */
  ghost function Returns(p: Plan, s: System, run: seq<Action>): set<Return>
    requires p.Valid()
    decreases |run|
  {
    if run == [] || !Shape(p, s) || !Enabled(s, run[0]) then {}
    else ReturnOf(s, run[0]) + Returns(p, Next(p, s, run[0]), run[1..])
  }

  ghost function ReturnOf(s: System, a: Action): set<Return>
    requires Enabled(s, a)
  {
    if a.Finish? then {Return(s.workers[a.w].id, a.err, s.cancelled)} else {}
  }

  /** No error is a success; the context's own error is a cancellation once the context is canceled. */
  predicate Tells(r: Return, status: ProbeStatus) {
    && (status == Succeeded <==> r.err == NoError)
    && (status == Cancelled <==> r.err == ContextError && r.cancelled)
    && (status == Failed <==> r.err == OtherError || (r.err == ContextError && !r.cancelled))
    && status != Skipped
  }

  ghost predicate HasReturned(known: set<Return>, i: nat) {
    exists r :: r in known && r.id == i
  }

  ghost predicate InHand(s: System, r: Return) {
    exists w :: 0 <= w < |s.workers| && Hands(s.workers[w], r)
  }

  predicate Hands(w: Worker, r: Return) {
    w.Recording? && w.id == r.id && Tells(r, w.status)
  }

  /** A return is recorded as what it tells, or a worker is about to. */
  ghost predicate Kept(s: System, r: Return) {
    && r.id < |s.states| && s.started[r.id] >= 1
    && (InHand(s, r) || (s.states[r.id].Final() && Tells(r, s.states[r.id].result.value)))
  }

  ghost predicate Runs(s: System, i: nat) {
    exists w :: 0 <= w < |s.workers| && s.workers[w] == Running(i)
  }

  /** The records and the workers' hands know of the returns so far, and of nothing else but skips and cancellation. */
  ghost predicate Remembers(p: Plan, s: System, known: set<Return>) {
    && |s.states| == p.Size()
    && (forall r :: r in known ==> Kept(s, r))
    && (forall i :: 0 <= i < p.Size() && s.states[i].Final() && !HasReturned(known, i) ==>
          s.states[i].result.value == Skipped || (s.states[i].result.value == Cancelled && s.cancelled))
    && (forall w :: 0 <= w < |s.workers| && s.workers[w].Recording? && !HasReturned(known, s.workers[w].id) ==>
          s.workers[w].status == Cancelled && s.cancelled)
    && (forall w :: 0 <= w < |s.workers| && s.workers[w].Running? ==> s.started[s.workers[w].id] >= 1)
    && (forall i: nat :: i < p.Size() && s.started[i] >= 1 ==> HasReturned(known, i) || Runs(s, i))
  }

  // --- Single steps, in the words of the source ---

  /** A canceled context is found before the probe runs; otherwise it runs. */
  lemma CheckDecides(p: Plan, s: System, w: nat)
    requires p.Valid() && Shape(p, s) && Enabled(s, CheckContext(w))
    ensures var t, id := Next(p, s, CheckContext(w)), s.workers[w].id;
      if s.cancelled then t == s.(workers := s.workers[w := Recording(id, Cancelled)])
      else t == s.(workers := s.workers[w := Running(id)], started := s.started + multiset{id})
  {
  }

  /** What a return puts into the worker's hands. */
  lemma FinishDecides(p: Plan, s: System, w: nat, err: RunError)
    requires p.Valid() && Shape(p, s) && Enabled(s, Finish(w, err))
    ensures var t, id := Next(p, s, Finish(w, err)), s.workers[w].id;
      && |t.workers| == |s.workers| && t.workers[w].Recording? && t.workers[w].id == id
      && t == s.(workers := s.workers[w := t.workers[w]])
      && Tells(Return(id, err, s.cancelled), t.workers[w].status)
  {
  }

  // --- Every step remembers ---

  lemma FinishRemembers(p: Plan, s: System, w: nat, err: RunError, known: set<Return>)
    requires p.Valid() && Shape(p, s) && Enabled(s, Finish(w, err)) && Remembers(p, s, known)
    ensures Remembers(p, Next(p, s, Finish(w, err)), known + {Return(s.workers[w].id, err, s.cancelled)})
  {
    var t, id := Next(p, s, Finish(w, err)), s.workers[w].id;
    var last := Return(id, err, s.cancelled);
    var all := known + {last};
    FinishDecides(p, s, w, err);
    assert Hands(t.workers[w], last);
    forall r | r in all ensures Kept(t, r) {
      if r in known && InHand(s, r) {
        var v :| 0 <= v < |s.workers| && Hands(s.workers[v], r);
        assert v != w && t.workers[v] == s.workers[v];
      }
    }
    assert last in all && HasReturned(all, id);
    forall i: nat | HasReturned(known, i) ensures HasReturned(all, i) {
      var r :| r in known && r.id == i;
      assert r in all;
    }
    forall i: nat | i < p.Size() && t.started[i] >= 1 ensures HasReturned(all, i) || Runs(t, i) {
      if i != id && Runs(s, i) {
        var v :| 0 <= v < |s.workers| && s.workers[v] == Running(i);
        assert t.workers[v] == Running(i);
      }
    }
  }

  lemma CheckRemembers(p: Plan, s: System, w: nat, known: set<Return>)
    requires p.Valid() && Shape(p, s) && Enabled(s, CheckContext(w)) && Remembers(p, s, known)
    ensures Remembers(p, Next(p, s, CheckContext(w)), known)
  {
    var t, id := Next(p, s, CheckContext(w)), s.workers[w].id;
    CheckDecides(p, s, w);
    forall v | 0 <= v < |s.workers| && v != w ensures t.workers[v] == s.workers[v] {}
    forall r | r in known ensures Kept(t, r) {
      if InHand(s, r) {
        var v :| 0 <= v < |s.workers| && Hands(s.workers[v], r);
        assert Hands(t.workers[v], r);
      }
    }
    forall i: nat | i < p.Size() && t.started[i] >= 1 ensures HasReturned(known, i) || Runs(t, i) {
      if Runs(s, i) {
        var v :| 0 <= v < |s.workers| && s.workers[v] == Running(i);
        assert t.workers[v] == Running(i);
      } else if !s.cancelled && i == id {
        assert t.workers[w] == Running(i);
      }
    }
  }

  lemma RecordRemembers(p: Plan, s: System, w: nat, known: set<Return>)
    requires Inv(p, s) && Enabled(s, Record(w)) && Remembers(p, s, known)
    ensures Remembers(p, Next(p, s, Record(w)), known)
  {
    RecordOutcomes(p, s, w);
    RecordLeavesHistory(p, s, w);
    RecordedRemembers(p, s, Next(p, s, Record(w)), w, known);
  }

  /** A worker hands its status over to the record, and other records are at most skipped. */
  ghost predicate HandsOver(s: System, t: System, w: nat)
    requires w < |s.workers| && s.workers[w].Recording? && s.workers[w].id < |s.states|
  {
    var id := s.workers[w].id;
    && |t.states| == |s.states| && t.cancelled == s.cancelled && t.started == s.started
    && |t.workers| == |s.workers| && !t.workers[w].Recording? && !t.workers[w].Running?
    && (forall v :: 0 <= v < |s.workers| && v != w ==> t.workers[v] == s.workers[v])
    && t.states[id].result == Some(s.workers[w].status)
    && (forall j :: 0 <= j < |s.states| && s.states[j].Final() ==> t.states[j].result == s.states[j].result)
    && (forall j :: 0 <= j < |s.states| && t.states[j].Final() && !s.states[j].Final() && j != id ==>
          t.states[j].result == Some(Skipped))
  }

  lemma RecordedRemembers(p: Plan, s: System, t: System, w: nat, known: set<Return>)
    requires |s.states| == p.Size() && w < |s.workers| && s.workers[w].Recording? && s.workers[w].id < p.Size()
    requires HandsOver(s, t, w) && Remembers(p, s, known)
    ensures Remembers(p, t, known)
  {
    forall r | r in known ensures Kept(t, r) {
      if InHand(s, r) {
        var v :| 0 <= v < |s.workers| && Hands(s.workers[v], r);
        assert v != w ==> Hands(t.workers[v], r);
      }
    }
    forall i: nat | i < p.Size() && t.started[i] >= 1 ensures HasReturned(known, i) || Runs(t, i) {
      if Runs(s, i) {
        var v :| 0 <= v < |s.workers| && s.workers[v] == Running(i);
        assert t.workers[v] == Running(i);
      }
    }
  }

  lemma RecordLeavesHistory(p: Plan, s: System, w: nat)
    requires Inv(p, s) && Enabled(s, Record(w))
    ensures Next(p, s, Record(w)).started == s.started && !Next(p, s, Record(w)).workers[w].Running?
  {
  }

  /** The other steps touch neither records nor returns. */
  lemma OtherStepRemembers(p: Plan, s: System, a: Action, known: set<Return>)
    requires p.Valid() && Shape(p, s) && Enabled(s, a) && Remembers(p, s, known)
    requires !a.Finish? && !a.CheckContext? && !a.Record?
    ensures Remembers(p, Next(p, s, a), known)
  {
    var t := Next(p, s, a);
    OtherStepKeepsHands(p, s, a);
    forall r | r in known ensures Kept(t, r) {
      if InHand(s, r) {
        var v :| 0 <= v < |s.workers| && Hands(s.workers[v], r);
        assert Hands(t.workers[v], r);
      }
    }
    forall i: nat | i < p.Size() && t.started[i] >= 1 ensures HasReturned(known, i) || Runs(t, i) {
      if Runs(s, i) {
        var v :| 0 <= v < |s.workers| && s.workers[v] == Running(i);
        assert t.workers[v] == Running(i);
      }
    }
  }

  lemma OtherStepKeepsHands(p: Plan, s: System, a: Action)
    requires p.Valid() && Shape(p, s) && Enabled(s, a) && !a.Finish? && !a.CheckContext? && !a.Record?
    ensures var t := Next(p, s, a);
      && t.states == s.states && t.started == s.started && |t.workers| == |s.workers|
      && (s.cancelled ==> t.cancelled)
      && (forall v :: 0 <= v < |s.workers| && (s.workers[v].Recording? || s.workers[v].Running?) ==>
            t.workers[v] == s.workers[v])
      && (forall v :: 0 <= v < |t.workers| && (t.workers[v].Recording? || t.workers[v].Running?) ==>
            t.workers[v] == s.workers[v])
  {
  }

  lemma StepRemembers(p: Plan, s: System, a: Action, known: set<Return>)
    requires Inv(p, s) && Enabled(s, a) && Remembers(p, s, known)
    ensures Remembers(p, Next(p, s, a), known + ReturnOf(s, a))
  {
    assert !a.Finish? ==> known + ReturnOf(s, a) == known;
    match a
    case Finish(w, err) => FinishRemembers(p, s, w, err, known);
    case CheckContext(w) => CheckRemembers(p, s, w, known);
    case Record(w) => RecordRemembers(p, s, w, known);
    case _ => OtherStepRemembers(p, s, a, known);
  }

  /** What every step keeps of a state and the returns before it, a run keeps. */
  lemma {:induction false} RunCollects(p: Plan, s: System, run: seq<Action>, t: System, known: set<Return>,
                                       keeps: (System, set<Return>) -> bool)
    requires Inv(p, s) && Run(p, s, run, t) && keeps(s, known)
    requires forall u, a, seen :: Inv(p, u) && Enabled(u, a) && keeps(u, seen) ==>
      keeps(Next(p, u, a), seen + ReturnOf(u, a))
    ensures Inv(p, t) && keeps(t, known + Returns(p, s, run))
    decreases |run|
  {
    if run == [] {
      assert known + Returns(p, s, run) == known;
    } else {
      var next := Next(p, s, run[0]);
      StepKeepsInv(p, s, run[0]);
      RunCollects(p, next, run[1..], t, known + ReturnOf(s, run[0]), keeps);
      assert known + ReturnOf(s, run[0]) + Returns(p, next, run[1..]) == known + Returns(p, s, run);
    }
  }

  lemma RunRemembers(p: Plan, s: System, run: seq<Action>, t: System, known: set<Return>)
    requires Inv(p, s) && Run(p, s, run, t) && Remembers(p, s, known)
    ensures Inv(p, t) && Remembers(p, t, known + Returns(p, s, run))
  {
    var keeps := (u: System, seen: set<Return>) => Remembers(p, u, seen);
    forall u, a, seen | Inv(p, u) && Enabled(u, a) && keeps(u, seen)
      ensures keeps(Next(p, u, a), seen + ReturnOf(u, a))
    {
      StepRemembers(p, u, a, seen);
    }
    RunCollects(p, s, run, t, known, keeps);
    assert keeps(t, known + Returns(p, s, run));
  }

  lemma InitRemembers(p: Plan, maxConcurrency: nat, cancelled: bool)
    requires p.Valid()
    ensures Remembers(p, Init(p, maxConcurrency, cancelled), {})
  {
  }

  // --- Finished runs ---

  /**
   The outcomes of any finished run, cancelled or not. A probe that returned succeeded, failed or was cancelled by what
   it returned and by whether the context was canceled then, and it ran once. One that did not return never ran: it is
   skipped, or it was refused because the context is canceled.
   */
  lemma OutcomesAreReturns(p: Plan, maxConcurrency: nat, cancelled: bool, run: seq<Action>, t: System)
    requires p.Valid() && p.Size() > 0 && maxConcurrency > 0
    requires Run(p, Init(p, maxConcurrency, cancelled), run, t) && t.main == Returned
    ensures var told := Returns(p, Init(p, maxConcurrency, cancelled), run); var out := Outcomes(t.states);
      && |out| == p.Size()
      && (forall r :: r in told ==> r.id < p.Size() && Tells(r, out[r.id]) && t.started[r.id] == 1)
      && (forall i :: 0 <= i < p.Size() && !HasReturned(told, i) ==>
            t.started[i] == 0 && (out[i] == Skipped || (out[i] == Cancelled && t.cancelled)))
  {
    var s := Init(p, maxConcurrency, cancelled);
    var told := Returns(p, s, run);
    InitEstablishesInv(p, maxConcurrency, cancelled);
    InitRemembers(p, maxConcurrency, cancelled);
    RunRemembers(p, s, run, t, {});
    assert {} + told == told;
    FinishedRemembers(p, t, told);
  }

  lemma FinishedRemembers(p: Plan, t: System, told: set<Return>)
    requires Inv(p, t) && t.main == Returned && Remembers(p, t, told)
    ensures forall r :: r in told ==>
      r.id < p.Size() == |Outcomes(t.states)| && Tells(r, Outcomes(t.states)[r.id]) && t.started[r.id] == 1
    ensures forall i :: 0 <= i < p.Size() && !HasReturned(told, i) ==>
      && t.started[i] == 0
      && (Outcomes(t.states)[i] == Skipped || (Outcomes(t.states)[i] == Cancelled && t.cancelled))
  {
    ReturnedIsFinished(p, t);
    forall r | r in told
      ensures r.id < p.Size() == |Outcomes(t.states)| && Tells(r, Outcomes(t.states)[r.id]) && t.started[r.id] == 1
    {
      assert Kept(t, r);
      ProbesRunAtMostOnce(p, t, r.id);
    }
    forall i | 0 <= i < p.Size() && !HasReturned(told, i) ensures t.started[i] == 0 {
      assert !Runs(t, i);
    }
  }

  /** Without errors and cancellation from outside the outcomes follow from what the probes return alone. */
  lemma OutcomesUnderOracle(p: Plan, oracle: nat -> RunError, maxConcurrency: nat, run: seq<Action>, t: System, i: nat)
    requires p.Valid() && p.Size() > 0 && p.Acyclic() && maxConcurrency > 0 && i < p.Size()
    requires RunUnder(p, oracle, Init(p, maxConcurrency, false), run, t) && t.main == Returned
    ensures |Outcomes(t.states)| == p.Size()
    ensures var out := Outcomes(t.states);
      var ready := forall k :: 0 <= k < |p.dependencies[i]| ==> out[p.dependencies[i][k]] == Succeeded;
      && (out[i] == Succeeded <==> ready && oracle(i) == NoError)
      && (out[i] == Failed <==> ready && oracle(i) != NoError)
      && (out[i] == Skipped <==> !ready)
      && out[i] != Cancelled
  {
    var rank :| p.RankedBy(rank);
    RunComputesDenotation(p, rank, oracle, maxConcurrency, run, t);
  }

  /** A canceled context: a probe that is ready but was refused ends Cancelled. */
  lemma RefusedEndsCancelled(p: Plan, maxConcurrency: nat, cancelled: bool, run: seq<Action>, t: System, i: nat)
    requires p.Valid() && p.Size() > 0 && maxConcurrency > 0 && i < p.Size()
    requires Run(p, Init(p, maxConcurrency, cancelled), run, t) && t.main == Returned
    ensures |Outcomes(t.states)| == p.Size()
    ensures Outcomes(t.states)[i] == Succeeded || Outcomes(t.states)[i] == Failed ==> t.started[i] == 1
    ensures var out := Outcomes(t.states);
      t.started[i] == 0 && (forall k :: 0 <= k < |p.dependencies[i]| ==> out[p.dependencies[i][k]] == Succeeded) ==>
      out[i] == Cancelled && t.cancelled
  {
    InitEstablishesInv(p, maxConcurrency, cancelled);
    RunKeepsInv(p, Init(p, maxConcurrency, cancelled), run, t);
    OutcomesAreReturns(p, maxConcurrency, cancelled, run, t);
    SkippedExactly(p, t, i);
  }

  // --- The queue ---

  /** A run starts with the probes that depend on nothing, each once, in registration order. */
  lemma {:induction false} RootsMean(p: Plan, n: nat)
    requires n <= p.Size()
    ensures forall i :: i in Roots(p, n) <==> 0 <= i < n && p.dependencies[i] == []
    ensures forall j, k :: 0 <= j < k < |Roots(p, n)| ==> Roots(p, n)[j] < Roots(p, n)[k]
  {
    if n > 0 {
      RootsMean(p, n - 1);
      var before := Roots(p, n - 1);
      assert forall j :: 0 <= j < |before| ==> before[j] in before;
    }
  }

  /** The listed probes that wait for one dependency, in order. */
  function DueAmong(states: seq<ProbeState>, targets: seq<nat>): seq<nat>
    requires InRange(states, targets)
  {
    if targets == [] then []
    else
      var rest := DueAmong(states, targets[1..]);
      if states[targets[0]].remainingDeps == 1 then [targets[0]] + rest else rest
  }

  /** A success hands on, in the order of its dependents, those that waited for nothing else. */
  lemma {:induction false} ReleasesInOrder(states: seq<ProbeState>, targets: seq<nat>)
    requires InRange(states, targets) && Distinct(targets)
    ensures Release(states, targets).1 == DueAmong(states, targets)
    decreases |targets|
  {
    if targets != [] {
      var d, rest := targets[0], targets[1..];
      var s := states[d := states[d].(remainingDeps := states[d].remainingDeps - 1)];
      assert Distinct(rest) by {
        assert forall i, j :: 0 <= i < j < |rest| ==> rest[i] == targets[i + 1] && rest[j] == targets[j + 1];
      }
      ReleasesInOrder(s, rest);
      forall k | 0 <= k < |rest| ensures rest[k] != d {
        assert rest[k] == targets[k + 1];
      }
      SameDue(states, s, rest);
    }
  }

  lemma {:induction false} SameDue(a: seq<ProbeState>, b: seq<ProbeState>, targets: seq<nat>)
    requires |a| == |b| && InRange(a, targets) && forall k :: 0 <= k < |targets| ==> a[targets[k]] == b[targets[k]]
    ensures DueAmong(a, targets) == DueAmong(b, targets)
  {
    if targets != [] {
      assert forall k :: 0 <= k < |targets[1..]| ==> targets[1..][k] == targets[k + 1];
      SameDue(a, b, targets[1..]);
    }
  }

  // --- The worker pool ---

  function RunningFlag(w: Worker): int { if w.Running? then 1 else 0 }

  /** No more probes run at a time than the orchestrator allows, and never more than there are. */
  lemma ConcurrencyIsBounded(p: Plan, maxConcurrency: nat, cancelled: bool, run: seq<Action>, t: System)
    requires p.Valid() && Run(p, Init(p, maxConcurrency, cancelled), run, t)
    ensures 0 <= SumBy(t.workers, RunningFlag) <= |t.workers|
    ensures |t.workers| <= maxConcurrency && |t.workers| <= p.Size()
    ensures |t.workers| == maxConcurrency || |t.workers| == p.Size()
  {
    WorkersStay(p, Init(p, maxConcurrency, cancelled), run, t);
    FlagsBounded(t.workers);
  }

  lemma {:induction false} WorkersStay(p: Plan, s: System, run: seq<Action>, t: System)
    requires p.Valid() && Run(p, s, run, t)
    ensures |t.workers| == |s.workers|
    decreases |run|
  {
    if run != [] {
      WorkersStay(p, Next(p, s, run[0]), run[1..], t);
    }
  }

  lemma {:induction false} FlagsBounded(workers: seq<Worker>)
    ensures 0 <= SumBy(workers, RunningFlag) <= |workers|
  {
    if workers != [] {
      FlagsBounded(workers[1..]);
    }
  }
}
