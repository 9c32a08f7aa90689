/** The locked segment of recordFinal keeps the scheduler's invariant. */
module SchedulerSettle {
  import opened Options
  import opened Seqs
  import opened SchedulerState
  import opened SchedulerProtocol
  import opened SchedulerInvariant

  /** What is known of a node that is about to be settled. */
  ghost predicate Ready(p: Plan, states: seq<ProbeState>, id: nat) {
    && p.Valid() && CountersExact(p, states) && SkipsExact(p, states)
    && id < p.Size() && !states[id].Final() && states[id].remainingDeps == 0
  }

  lemma ReadyDependenciesGood(p: Plan, states: seq<ProbeState>, id: nat)
    requires Ready(p, states, id)
    ensures forall k :: 0 <= k < |p.dependencies[id]| ==> states[p.dependencies[id][k]].Good()
    ensures id !in p.dependencies[id] && id !in p.downstream[id]
  {
    UnmetZero(states, p.dependencies[id]);
    EdgeBothWays(p, id, id);
  }

  // --- Success ---

  /** After a success each counter is again the number of unmet edges. */
  lemma SuccessCounters(p: Plan, states: seq<ProbeState>, id: nat, i: nat)
    requires Ready(p, states, id) && i < p.Size()
    ensures var t := Settle(p, states, id, Succeeded).0;
      && t[i].result == (if i == id then Some(Succeeded) else states[i].result)
      && t[i].remainingDeps == states[i].remainingDeps - multiset(p.downstream[id])[i]
      && t[i].remainingDeps == Unmet(t, p.dependencies[i])
  {
    var s := states[id := states[id].(result := Some(Succeeded))];
    var t := Settle(p, states, id, Succeeded).0;
    forall j | 0 <= j < p.Size()
      ensures t[j] == s[j].(remainingDeps := s[j].remainingDeps - multiset(p.downstream[id])[j])
    {
      ReleaseCounters(s, p.downstream[id], j);
    }
    assert p.SameEdges(i, id);
    UnmetAfterSuccess(states, t, p.dependencies[i], id);
  }

  /** A dependent that is already skipped keeps another bad dependency, so its counter stays positive. */
  lemma SuccessSkipsStay(p: Plan, states: seq<ProbeState>, id: nat, i: nat)
    requires Ready(p, states, id) && i < p.Size() && states[i].Final() && i in p.downstream[id]
    ensures Settle(p, states, id, Succeeded).0[i].remainingDeps > 0
  {
    var t := Settle(p, states, id, Succeeded).0;
    SuccessCounters(p, states, id, i);
    EdgeBothWays(p, i, id);
    UnmetZero(states, p.dependencies[i]);
    assert HasBadDependency(p, states, i);
    var k :| 0 <= k < |p.dependencies[i]| && states[p.dependencies[i][k]].Bad();
    SuccessCounters(p, states, id, p.dependencies[i][k]);
    UnmetZero(t, p.dependencies[i]);
  }

  lemma SuccessSettles(p: Plan, states: seq<ProbeState>, id: nat)
    requires Ready(p, states, id)
    ensures var (t, released, skipped) := Settle(p, states, id, Succeeded);
      && CountersExact(p, t) && SkipsExact(p, t)
      && FinalCount(t) == FinalCount(states) + 1
      && WaitingCount(t) == WaitingCount(states) - |released|
      && InRange(states, released)
  {
    var s := states[id := states[id].(result := Some(Succeeded))];
    var (t, released, skipped) := Settle(p, states, id, Succeeded);
    forall i | 0 <= i < p.Size()
      ensures t[i].result == (if i == id then Some(Succeeded) else states[i].result)
      ensures t[i].remainingDeps == states[i].remainingDeps - multiset(p.downstream[id])[i]
      ensures t[i].remainingDeps == Unmet(t, p.dependencies[i])
      ensures s[i].remainingDeps >= multiset(p.downstream[id])[i]
      ensures s[i].Final() && multiset(p.downstream[id])[i] > 0 ==> t[i].remainingDeps > 0
    {
      SuccessCounters(p, states, id, i);
      if s[i].Final() && i in p.downstream[id] {
        ReadyDependenciesGood(p, states, id);
        SuccessSkipsStay(p, states, id, i);
      }
    }
    ReleaseInRange(s, p.downstream[id]);
    ReleaseCounts(s, p.downstream[id]);
    SumByUpdate(states, id, s[id], FinalFlag);
    SumByUpdate(states, id, s[id], WaitingFlag);
    SuccessSkipsExact(p, states, id, t);
  }

  lemma SuccessSkipsExact(p: Plan, states: seq<ProbeState>, id: nat, t: seq<ProbeState>)
    requires Ready(p, states, id) && |t| == p.Size()
    requires forall i :: 0 <= i < p.Size() ==>
      && t[i].result == (if i == id then Some(Succeeded) else states[i].result)
      && 0 <= t[i].remainingDeps <= states[i].remainingDeps
    ensures SkipsExact(p, t)
  {
    ReadyDependenciesGood(p, states, id);
    forall i | 0 <= i < p.Size()
      ensures HasBadDependency(p, t, i) <==> t[i].result == Some(Skipped)
    {
      assert forall k :: 0 <= k < |p.dependencies[i]| ==>
        (t[p.dependencies[i][k]].Bad() <==> states[p.dependencies[i][k]].Bad());
      assert HasBadDependency(p, t, i) <==> HasBadDependency(p, states, i);
    }
  }

  /** Exactly the open nodes whose last unmet edges were just met are released, once each. */
  lemma SuccessReleases(p: Plan, states: seq<ProbeState>, id: nat, i: nat)
    requires Ready(p, states, id) && i < p.Size()
    ensures var (t, released, skipped) := Settle(p, states, id, Succeeded);
      && multiset(released)[i] == (if states[i].remainingDeps > 0 && t[i].remainingDeps == 0 then 1 else 0)
      && (multiset(released)[i] > 0 ==> !t[i].Final() && i != id)
  {
    var s := states[id := states[id].(result := Some(Succeeded))];
    SuccessCounters(p, states, id, i);
    ReleaseListed(s, p.downstream[id], i);
    ReadyDependenciesGood(p, states, id);
    assert i in p.downstream[id] <==> multiset(p.downstream[id])[i] > 0;
    if s[i].Final() && i in p.downstream[id] {
      SuccessSkipsStay(p, states, id, i);
    }
  }

  // --- Failure and cancellation ---

  lemma FailureOwes(p: Plan, states: seq<ProbeState>, id: nat, status: ProbeStatus)
    requires Ready(p, states, id) && status != Succeeded && status != Skipped
    ensures var s := states[id := states[id].(result := Some(status))];
      && Owed(p, s, p.downstream[id])
      && (forall k :: 0 <= k < |p.downstream[id]| ==> HasBadDependency(p, s, p.downstream[id][k]))
  {
    var s := states[id := states[id].(result := Some(status))];
    forall k | 0 <= k < |p.downstream[id]|
      ensures HasBadDependency(p, s, p.downstream[id][k])
    {
      BadDependencyVia(p, s, p.downstream[id][k], id);
    }
    forall i, k | 0 <= i < p.Size() && 0 <= k < |p.downstream[i]| && s[i].Bad()
      ensures s[p.downstream[i][k]].Final() || p.downstream[i][k] in p.downstream[id]
    {
      if i != id {
        BadDependencyVia(p, states, p.downstream[i][k], i);
      }
    }
  }

  lemma FailureSettles(p: Plan, states: seq<ProbeState>, id: nat, status: ProbeStatus)
    requires Ready(p, states, id) && status != Succeeded && status != Skipped
    ensures var (t, released, skipped) := Settle(p, states, id, status);
      && CountersExact(p, t) && SkipsExact(p, t)
      && FinalCount(t) == FinalCount(states) + 1 + skipped
      && WaitingCount(t) == WaitingCount(states) - skipped
      && released == []
      && OnlySkips(states[id := states[id].(result := Some(status))], t)
      && (forall i :: 0 <= i < p.Size() && t[i].Final() && !states[i].Final() ==> i == id || t[i].remainingDeps > 0)
  {
    var s := states[id := states[id].(result := Some(status))];
    var t := Settle(p, states, id, status).0;
    FailureOwes(p, states, id, status);
    SumByUpdate(states, id, s[id], FinalFlag);
    SumByUpdate(states, id, s[id], WaitingFlag);
    CascadeSpec(p, s, p.downstream[id]);
    forall i | 0 <= i < p.Size()
      ensures t[i].remainingDeps == states[i].remainingDeps == Unmet(t, p.dependencies[i])
    {
      UnmetUnchanged(states, t, p.dependencies[i]);
    }
    forall i | 0 <= i < p.Size()
      ensures t[i].remainingDeps <= 0 ==> forall k :: 0 <= k < |p.dependencies[i]| ==>
                t[p.dependencies[i][k]].Good() && s[p.dependencies[i][k]].Good()
    {
      UnmetZero(t, p.dependencies[i]);
    }
    CascadeWaiting(p, s, p.downstream[id]);
    FailureSkipsExact(p, states, id, status);
  }

  lemma FailureSkipsExact(p: Plan, states: seq<ProbeState>, id: nat, status: ProbeStatus)
    requires Ready(p, states, id) && status != Succeeded && status != Skipped
    ensures SkipsExact(p, Settle(p, states, id, status).0)
  {
    var s := states[id := states[id].(result := Some(status))];
    var t := Settle(p, states, id, status).0;
    FailureOwes(p, states, id, status);
    CascadeSpec(p, s, p.downstream[id]);
    forall i | 0 <= i < p.Size() && HasBadDependency(p, t, i)
      ensures t[i].result == Some(Skipped)
    {
      var k :| 0 <= k < |p.dependencies[i]| && t[p.dependencies[i][k]].Bad();
      var j := p.dependencies[i][k];
      EdgeBothWays(p, i, j);
      var m :| 0 <= m < |p.downstream[j]| && p.downstream[j][m] == i;
      assert t[i].Final();
      UnmetZero(states, p.dependencies[i]);
      assert !states[j].Good();
    }
    forall i | 0 <= i < p.Size() && states[i].result == Some(Skipped)
      ensures HasBadDependency(p, t, i)
    {
      assert HasBadDependency(p, states, i);
      var k :| 0 <= k < |p.dependencies[i]| && states[p.dependencies[i][k]].Bad();
      assert t[p.dependencies[i][k]].Bad();
    }
  }

  // --- The step ---

  /** The books of one node fit its record. */
  ghost predicate BooksFit(s: System, i: nat)
    requires i < |s.states|
  {
    && Tokens(s, i) == (if !s.states[i].Final() && s.states[i].remainingDeps == 0 then 1 else 0)
    && PushedOrDue(s, i) == (if s.states[i].remainingDeps == 0 then 1 else 0)
    && Unstarted(s, i) <= (if s.states[i].remainingDeps == 0 then 1 else 0)
  }

  /** How the books of node `i` change when worker `w` turns its record into announcements. */
  lemma RecordBooks(s: System, t: System, w: nat, i: nat)
    requires w < |s.workers| == |t.workers| && s.workers[w].Recording?
    requires t.workers == s.workers[w := t.workers[w]] && t.workers[w].Announcing?
    requires t.queue == s.queue && t.started == s.started && t.pushed == s.pushed
    ensures Tokens(t, i) == Tokens(s, i) - (if s.workers[w].id == i then 1 else 0) + multiset(t.workers[w].released)[i]
    ensures PushedOrDue(t, i) == PushedOrDue(s, i) + multiset(t.workers[w].released)[i]
    ensures Unstarted(t, i) == Unstarted(s, i) + multiset(t.workers[w].released)[i]
  {
    SumByUpdate(s.workers, w, t.workers[w], Holds(i));
    SumByUpdate(s.workers, w, t.workers[w], HoldsUnstarted(i));
    SumByUpdate(s.workers, w, t.workers[w], HoldsUnpushed(i));
  }

  lemma RecordSuccessBooks(p: Plan, s: System, w: nat, i: nat)
    requires Inv(p, s) && Enabled(s, Record(w)) && s.workers[w].status == Succeeded && i < p.Size()
    ensures |Next(p, s, Record(w)).states| == p.Size() && BooksFit(Next(p, s, Record(w)), i)
  {
    var t := Next(p, s, Record(w));
    HeldIsOpen(p, s, w, s.workers[w].id);
    SuccessCounters(p, s.states, s.workers[w].id, i);
    SuccessReleases(p, s.states, s.workers[w].id, i);
    ReadyDependenciesGood(p, s.states, s.workers[w].id);
    RecordBooks(s, t, w, i);
  }

  lemma RecordFailureBooks(p: Plan, s: System, w: nat, i: nat)
    requires Inv(p, s) && Enabled(s, Record(w)) && s.workers[w].status != Succeeded && i < p.Size()
    ensures |Next(p, s, Record(w)).states| == p.Size() && BooksFit(Next(p, s, Record(w)), i)
  {
    var t := Next(p, s, Record(w));
    HeldIsOpen(p, s, w, s.workers[w].id);
    FailureRecords(p, s, t, w, i);
    RecordBooks(s, t, w, i);
    assert BooksFit(s, i);
  }

  /** A failure releases nothing, keeps every counter, and finalizes no other record whose counter is zero. */
  lemma FailureRecords(p: Plan, s: System, t: System, w: nat, i: nat)
    requires Inv(p, s) && Enabled(s, Record(w)) && s.workers[w].status != Succeeded && i < p.Size() == |s.states|
    requires t == Next(p, s, Record(w))
    ensures |t.workers| == |s.workers| && t.workers[w].Announcing? && t.workers[w].released == []
    ensures t.workers == s.workers[w := t.workers[w]]
    ensures t.queue == s.queue && t.started == s.started && t.pushed == s.pushed
    ensures |t.states| == p.Size() && t.states[i].remainingDeps == s.states[i].remainingDeps
    ensures s.states[i].remainingDeps == 0 ==> (t.states[i].Final() <==> s.states[i].Final() || i == s.workers[w].id)
  {
    HeldIsOpen(p, s, w, s.workers[w].id);
    FailureSettles(p, s.states, s.workers[w].id, s.workers[w].status);
  }

  /** A settled record and the announcements it leaves keep the invariant. */
  lemma RecordAssembles(p: Plan, s: System, t: System, w: nat)
    requires Inv(p, s) && w < |s.workers| && s.workers[w].Recording?
    requires |t.workers| == |s.workers| && t.workers[w].Announcing? && WorkerInRange(t.workers[w], p.Size())
    requires t == s.(states := t.states, workers := s.workers[w := t.workers[w]])
    requires CountersExact(p, t.states) && SkipsExact(p, t.states)
    requires FinalCount(t.states) == FinalCount(s.states) + t.workers[w].skipped + 1
    requires forall i: nat :: i < p.Size() ==> BooksFit(t, i)
    ensures Inv(p, t)
  {
    SumByUpdate(s.workers, w, t.workers[w], Outstanding);
    SumByUpdate(s.workers, w, t.workers[w], CloserFlag);
    assert Shape(p, t) && PhasesFit(t) && AccountingExact(p, t);
    forall i | 0 <= i < p.Size()
      ensures Tokens(t, i) == (if !t.states[i].Final() && t.states[i].remainingDeps == 0 then 1 else 0)
      ensures PushedOrDue(t, i) == (if t.states[i].remainingDeps == 0 then 1 else 0)
      ensures Unstarted(t, i) <= (if t.states[i].remainingDeps == 0 then 1 else 0)
    {
      assert BooksFit(t, i);
    }
  }

  lemma RecordKeepsInv(p: Plan, s: System, w: nat)
    requires Inv(p, s) && Enabled(s, Record(w))
    ensures Inv(p, Next(p, s, Record(w)))
    ensures Next(p, s, Record(w)).workers[w].Announcing?
  {
    var t := Next(p, s, Record(w));
    var id, status := s.workers[w].id, s.workers[w].status;
    HeldIsOpen(p, s, w, id);
    if status == Succeeded {
      SuccessSettles(p, s.states, id);
      forall i: nat | i < p.Size() ensures BooksFit(t, i) { RecordSuccessBooks(p, s, w, i); }
    } else {
      FailureSettles(p, s.states, id, status);
      forall i: nat | i < p.Size() ensures BooksFit(t, i) { RecordFailureBooks(p, s, w, i); }
    }
    RecordAssembles(p, s, t, w);
  }

  /** Every enabled step keeps the invariant. */
  lemma StepKeepsInv(p: Plan, s: System, a: Action)
    requires Inv(p, s) && Enabled(s, a)
    ensures Inv(p, Next(p, s, a))
  {
    match a
    case Pop(w) => PopKeepsInv(p, s, w);
    case Park(_) => EmptyQueueKeepsInv(p, s, a);
    case Exit(_) => EmptyQueueKeepsInv(p, s, a);
    case CheckFinal(w) => CheckFinalKeepsInv(p, s, w);
    case CheckContext(w) => CheckContextKeepsInv(p, s, w);
    case Finish(w, err) => FinishKeepsInv(p, s, w, err);
    case Record(w) => RecordKeepsInv(p, s, w);
    case CountSkipped(w) => CountSkippedKeepsInv(p, s, w);
    case PushReleased(w) => PushReleasedKeepsInv(p, s, w);
    case Signal(w) => SignalKeepsInv(p, s, w);
    case CloseDone(w) => CloseDoneKeepsInv(p, s, w);
    case MainWake => MainKeepsInv(p, s, a);
    case MainCloseQueue => MainKeepsInv(p, s, a);
    case MainJoin => MainKeepsInv(p, s, a);
    case Cancel => MainKeepsInv(p, s, a);
  }

  lemma {:induction false} RunKeepsInv(p: Plan, s: System, run: seq<Action>, t: System)
    requires Inv(p, s) && Run(p, s, run, t)
    ensures Inv(p, t)
    decreases |run|
  {
    if run != [] {
      StepKeepsInv(p, s, run[0]);
      RunKeepsInv(p, Next(p, s, run[0]), run[1..], t);
    }
  }

  /** The invariant holds in every state that any run of any plan can reach. */
  lemma ReachableInv(p: Plan, maxConcurrency: nat, cancelled: bool, s: System)
    requires p.Valid() && p.Size() > 0 && maxConcurrency > 0
    requires Reachable(p, maxConcurrency, cancelled, s)
    ensures Inv(p, s)
  {
    InitEstablishesInv(p, maxConcurrency, cancelled);
    var run :| Run(p, Init(p, maxConcurrency, cancelled), run, s);
    RunKeepsInv(p, Init(p, maxConcurrency, cancelled), run, s);
  }
}
