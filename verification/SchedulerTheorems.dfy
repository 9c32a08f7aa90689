/**
 The scheduler's promises over whole runs: counter and channel safety, at-most-once execution,
 freedom from deadlock, termination, exact skips and confluence.
 */
module SchedulerTheorems {
  import opened Options
  import opened Seqs
  import opened SchedulerState
  import opened SchedulerProtocol
  import opened SchedulerInvariant
  import opened SchedulerSettle

  // --- Safety ---

  /**
   The completion protocol in any reachable state: the counter never exceeds the finalized records, an
   increment made for a cascade never reaches the total although it is not checked, reaching the total
   means that every record is finalized, the channel is closed by one worker and is still open then,
   and no push meets a closed queue.
   */
  lemma CompletionIsSafe(p: Plan, s: System, a: Action)
    requires Inv(p, s) && Enabled(s, a)
    ensures s.finalized <= FinalCount(s.states) <= p.Size()
    ensures a.CountSkipped? ==> Next(p, s, a).finalized < p.Size()
    ensures Next(p, s, a).finalized == p.Size() ==> forall i :: 0 <= i < p.Size() ==> Next(p, s, a).states[i].Final()
    ensures a.CloseDone? ==> !s.allDone && forall v :: 0 <= v < |s.workers| && v != a.w ==> !s.workers[v].Closing?
    ensures a.PushReleased? ==> !s.closed
    ensures s.allDone ==> forall i :: 0 <= i < p.Size() ==> s.states[i].Final()
  {
    CountBelowFinal(p, s);
    StepKeepsInv(p, s, a);
    CountBelowFinal(p, Next(p, s, a));
    SumByNonNegative(s.workers, CloserFlag);
    match a
    case CountSkipped(w) => CountSkippedKeepsInv(p, s, w);
    case PushReleased(w) => PushReleasedKeepsInv(p, s, w);
    case CloseDone(w) => CloserIsFirst(p, s, w);
    case _ =>
  }

  lemma CountBelowFinal(p: Plan, s: System)
    requires Inv(p, s)
    ensures s.finalized <= FinalCount(s.states) <= p.Size()
    ensures s.finalized == p.Size() ==> forall i :: 0 <= i < p.Size() ==> s.states[i].Final()
  {
    SumByNonNegative(s.workers, Outstanding);
    FinalCountBounds(s.states);
    FinalCountFull(s.states);
  }

  /**
   Counters and queue traffic in any reachable state: a counter is the number of unmet dependency edges,
   each probe is enqueued and run at most once, and only with all its dependencies succeeded, and a
   probe in a worker's hands is not final yet.
   */
  lemma ProbesRunAtMostOnce(p: Plan, s: System, i: nat)
    requires Inv(p, s) && i < p.Size()
    ensures s.states[i].remainingDeps == Unmet(s.states, p.dependencies[i])
    ensures s.pushed[i] <= 1 && s.started[i] <= 1
    ensures s.pushed[i] + s.started[i] > 0 ==>
              forall k :: 0 <= k < |p.dependencies[i]| ==> s.states[p.dependencies[i][k]].Good()
    ensures forall w :: 0 <= w < |s.workers| && Holding(s.workers[w], i) > 0 ==> !s.states[i].Final()
  {
    SumByNonNegative(s.workers, HoldsUnpushed(i));
    SumByNonNegative(s.workers, HoldsUnstarted(i));
    UnmetZero(s.states, p.dependencies[i]);
    forall w | 0 <= w < |s.workers| && Holding(s.workers[w], i) > 0
      ensures !s.states[i].Final()
    {
      HeldIsOpen(p, s, w, i);
    }
  }

  // --- Termination ---

  /** Multiplication as repeated addition, which keeps the proofs below linear. */
  function Times(k: int, n: nat): int {
    if n == 0 then 0 else k + Times(k, n - 1)
  }

  lemma {:induction false} TimesProperties(k: nat, n: nat, m: nat)
    ensures Times(k, n) == k * n
    ensures Times(k, n + m) == Times(k, n) + Times(k, m)
    ensures k >= 1 ==> Times(k, n) >= n
  {
    if n > 0 {
      TimesProperties(k, n - 1, m);
    } else if m > 0 {
      TimesProperties(k, 0, m - 1);
    }
  }

  /** The largest number of steps that releasing one probe can cost: its own, and one wakeup per worker. */
  function ProbeWeight(count: nat): nat { 8 + count }

  function WorkerWeight(count: nat, w: Worker): int {
    match w
    case Exited => 0
    case Parked => 1
    case Idle => 2
    case Closing => 3
    case Announcing(skipped, released) => 4 + skipped + Times(ProbeWeight(count), |released|)
    case Recording(_, _) => 5
    case Running(_) => 6
    case Admitted(_) => 7
    case Popped(_) => 8
  }

  function Weight(count: nat): Worker -> int { w => WorkerWeight(count, w) }

  function MainWeight(count: nat, m: MainThread): int {
    match m
    case AwaitingDone => count + 3
    case ClosingQueue => count + 2
    case Joining => 1
    case Returned => 0
  }

  ghost function Waiting(states: seq<ProbeState>): nat {
    SumByNonNegative(states, WaitingFlag);
    WaitingCount(states)
  }

  /** What is left to do, in steps. */
  ghost function Measure(s: System): int {
    Times(ProbeWeight(|s.workers|), Waiting(s.states)) + 7 * |s.queue| + SumBy(s.workers, Weight(|s.workers|))
    + MainWeight(|s.workers|, s.main) + (if s.cancelled then 0 else 1)
  }

  lemma MeasureNonNegative(s: System)
    ensures Measure(s) >= 0
  {
    forall w | 0 <= w < |s.workers|
      ensures Weight(|s.workers|)(s.workers[w]) >= 0
    {
      if s.workers[w].Announcing? {
        TimesProperties(ProbeWeight(|s.workers|), |s.workers[w].released|, 0);
      }
    }
    SumByNonNegative(s.workers, Weight(|s.workers|));
    TimesProperties(ProbeWeight(|s.workers|), Waiting(s.states), 0);
  }

  lemma WakeWeighs(workers: seq<Worker>, count: nat)
    ensures SumBy(Wake(workers), Weight(count)) <= SumBy(workers, Weight(count)) + |workers|
  {
    SumByShift(workers, Wake(workers), 1, Weight(count));
  }

  /** Announcing what was settled weighs less than the record and the probes it took out of waiting. */
  lemma SettledWeighsLess(s: System, t: System, w: nat, skipped: nat, released: seq<nat>)
    requires w < |s.workers| && s.workers[w].Recording?
    requires t == s.(states := t.states, workers := s.workers[w := Announcing(skipped, released)])
    requires WaitingCount(t.states) == WaitingCount(s.states) - |released| - skipped
    ensures Measure(t) < Measure(s)
  {
    SumByUpdate(s.workers, w, Announcing(skipped, released), Weight(|s.workers|));
    var k := ProbeWeight(|s.workers|);
    TimesProperties(k, Waiting(t.states) + |released|, skipped);
    TimesProperties(k, Waiting(t.states), |released|);
    TimesProperties(k, skipped, 0);
  }

  lemma RecordLowersMeasure(p: Plan, s: System, w: nat)
    requires Inv(p, s) && Enabled(s, Record(w))
    ensures Measure(Next(p, s, Record(w))) < Measure(s)
  {
    var t := Next(p, s, Record(w));
    var id, status := s.workers[w].id, s.workers[w].status;
    HeldIsOpen(p, s, w, id);
    if status == Succeeded {
      SuccessSettles(p, s.states, id);
    } else {
      FailureSettles(p, s.states, id, status);
    }
    SettledWeighsLess(s, t, w, t.workers[w].skipped, t.workers[w].released);
  }

  lemma PushLowersMeasure(p: Plan, s: System, w: nat)
    requires Inv(p, s) && Enabled(s, PushReleased(w))
    ensures Measure(Next(p, s, PushReleased(w))) < Measure(s)
  {
    var released := s.workers[w].released;
    var workers := s.workers[w := Announcing(0, released[1..])];
    PushReleasedKeepsInv(p, s, w);
    SumByUpdate(s.workers, w, workers[w], Weight(|s.workers|));
    WakeWeighs(workers, |s.workers|);
  }

  /** Steps of one worker that leave the records and wake nobody. */
  lemma WorkerStepLowersMeasure(p: Plan, s: System, a: Action)
    requires p.Valid() && Shape(p, s) && Enabled(s, a)
    requires a.Pop? || a.Park? || a.Exit? || a.CheckFinal? || a.CheckContext? || a.Finish? || a.CountSkipped?
      || a.Signal? || a.CloseDone?
    ensures Measure(Next(p, s, a)) < Measure(s)
  {
    var t := Next(p, s, a);
    SumByUpdate(s.workers, a.w, t.workers[a.w], Weight(|s.workers|));
    assert t.workers == s.workers[a.w := t.workers[a.w]];
  }

  /** Every step lowers the measure: the protocol cannot run forever. */
  lemma StepLowersMeasure(p: Plan, s: System, a: Action)
    requires Inv(p, s) && Enabled(s, a)
    ensures Measure(Next(p, s, a)) < Measure(s)
  {
    if a.Record? {
      RecordLowersMeasure(p, s, a.w);
    } else if a.PushReleased? {
      PushLowersMeasure(p, s, a.w);
    } else if a.MainWake? || a.MainCloseQueue? || a.MainJoin? || a.Cancel? {
      WakeWeighs(s.workers, |s.workers|);
    } else {
      WorkerStepLowersMeasure(p, s, a);
    }
  }

  lemma {:induction false} InitialMeasure(p: Plan, n: nat)
    requires n <= p.Size()
    ensures SumBy(InitialRecords(p)[..n], WaitingFlag) + |Roots(p, n)| == n
  {
    if n > 0 {
      InitialMeasure(p, n - 1);
      assert InitialRecords(p)[..n] == InitialRecords(p)[..n - 1] + [InitialRecords(p)[n - 1]];
      SumByConcat(InitialRecords(p)[..n - 1], [InitialRecords(p)[n - 1]], WaitingFlag);
    }
  }

  lemma {:induction false} RunLength(p: Plan, s: System, run: seq<Action>, t: System)
    requires Inv(p, s) && Run(p, s, run, t)
    ensures |run| + Measure(t) <= Measure(s)
    decreases |run|
  {
    if run != [] {
      StepLowersMeasure(p, s, run[0]);
      StepKeepsInv(p, s, run[0]);
      RunLength(p, Next(p, s, run[0]), run[1..], t);
    }
  }

  /** No run of `n` probes on `c` workers takes more than (8 + c) n + 3 c + 4 steps, whatever the interleaving. */
  lemma RunsAreBounded(p: Plan, maxConcurrency: nat, cancelled: bool, run: seq<Action>, t: System)
    requires p.Valid() && p.Size() > 0 && maxConcurrency > 0
    requires Run(p, Init(p, maxConcurrency, cancelled), run, t)
    ensures var c := EffectiveWorkers(maxConcurrency, p.Size()); |run| <= (8 + c) * p.Size() + 3 * c + 4
  {
    var s := Init(p, maxConcurrency, cancelled);
    InitEstablishesInv(p, maxConcurrency, cancelled);
    RunLength(p, s, run, t);
    MeasureNonNegative(t);
    InitialWeight(p, maxConcurrency, cancelled);
  }

  lemma InitialWeight(p: Plan, maxConcurrency: nat, cancelled: bool)
    ensures var c := EffectiveWorkers(maxConcurrency, p.Size());
      Measure(Init(p, maxConcurrency, cancelled)) <= (8 + c) * p.Size() + 3 * c + 4
  {
    var s := Init(p, maxConcurrency, cancelled);
    InitialMeasure(p, p.Size());
    assert s.states[..p.Size()] == s.states;
    SumByAtMost(s.workers, 2, Weight(|s.workers|));
    var k := ProbeWeight(|s.workers|);
    TimesProperties(k, Waiting(s.states), |s.queue|);
    TimesProperties(k, p.Size(), 0);
    TimesProperties(k, |s.queue|, 0);
    TimesProperties(7, |s.queue|, 0);
    TimesAtLeast(k, 7, |s.queue|);
  }

  lemma {:induction false} TimesAtLeast(k: nat, m: nat, n: nat)
    requires k >= m
    ensures Times(k, n) >= Times(m, n)
  {
    if n > 0 {
      TimesAtLeast(k, m, n - 1);
    }
  }

  // --- Freedom from deadlock ---

  /** Below any open node there is an open node all of whose dependencies are final. */
  lemma {:induction false} OldestOpen(p: Plan, states: seq<ProbeState>, rank: seq<nat>, i: nat) returns (m: nat)
    requires p.Valid() && |states| == p.Size() && p.RankedBy(rank) && i < p.Size() && !states[i].Final()
    ensures m < p.Size() && !states[m].Final()
    ensures forall k :: 0 <= k < |p.dependencies[m]| ==> states[p.dependencies[m][k]].Final()
    decreases rank[i]
  {
    if k :| 0 <= k < |p.dependencies[i]| && !states[p.dependencies[i][k]].Final() {
      m := OldestOpen(p, states, rank, p.dependencies[i][k]);
    } else {
      m := i;
    }
  }

  /** An open node whose dependencies are all final is in play. */
  lemma OldestOpenIsInPlay(p: Plan, s: System, m: nat)
    requires Inv(p, s) && m < p.Size() && !s.states[m].Final()
    requires forall k :: 0 <= k < |p.dependencies[m]| ==> s.states[p.dependencies[m][k]].Final()
    ensures Tokens(s, m) == 1
  {
    assert !HasBadDependency(p, s.states, m);
    forall k | 0 <= k < |p.dependencies[m]|
      ensures s.states[p.dependencies[m][k]].Good()
    {
      assert !s.states[p.dependencies[m][k]].Bad();
    }
    UnmetZero(s.states, p.dependencies[m]);
  }

  /** With every record final the queue is empty. */
  lemma DoneMeansDrained(p: Plan, s: System)
    requires Inv(p, s) && s.allDone
    ensures s.queue == []
  {
    SumByNonNegative(s.workers, CloserFlag);
    CountBelowFinal(p, s);
    if s.queue != [] {
      var i := s.queue[0];
      var inPlay := Tokens(s, i);
      assert i in multiset(s.queue);
      SumByNonNegative(s.workers, Holds(i));
      assert false;
    }
  }

  /** While nobody holds anything and the queue is empty, the run is complete. */
  lemma QuietMeansDone(p: Plan, s: System)
    requires Inv(p, s) && p.Acyclic() && s.queue == []
    requires forall w :: 0 <= w < |s.workers| ==> s.workers[w].Idle? || s.workers[w].Parked? || s.workers[w].Exited?
    ensures s.allDone
  {
    SumByZero(s.workers, Outstanding);
    SumByZero(s.workers, CloserFlag);
    FinalCountFull(s.states);
    if i :| 0 <= i < p.Size() && !s.states[i].Final() {
      var rank :| p.RankedBy(rank);
      var m := OldestOpen(p, s.states, rank, i);
      OldestOpenIsInPlay(p, s, m);
      SumByZero(s.workers, Holds(m));
    }
  }

  /** The step of a worker that is neither waiting for the queue nor gone. */
  function BusyAction(s: System, w: nat): Action
    requires w < |s.workers|
  {
    match s.workers[w]
    case Popped(_) => CheckFinal(w)
    case Admitted(_) => CheckContext(w)
    case Running(_) => Finish(w, NoError)
    case Recording(_, _) => Record(w)
    case Announcing(skipped, released) =>
      if skipped > 0 then CountSkipped(w) else if released != [] then PushReleased(w) else Signal(w)
    case _ => CloseDone(w)
  }

  /**
   Freedom from deadlock: for an acyclic plan, every reachable state in which Run has not returned has an
   enabled step of the program itself, and no wakeup of a parked worker is ever lost.
   */
  lemma NeverStuck(p: Plan, s: System) returns (a: Action)
    requires Inv(p, s) && p.Acyclic() && s.main != Returned
    ensures Enabled(s, a) && a != Cancel
  {
    if w: nat :| w < |s.workers| && !s.workers[w].Idle? && !s.workers[w].Parked? && !s.workers[w].Exited? {
      a := BusyAction(s, w);
    } else if w: nat :| w < |s.workers| && s.workers[w].Idle? {
      a := if s.queue != [] then Pop(w) else if s.closed then Exit(w) else Park(w);
    } else if s.closed {
      assert forall w :: 0 <= w < |s.workers| ==> s.workers[w].Exited?;
      a := MainJoin;
    } else {
      assert s.workers[0].Parked?;
      QuietMeansDone(p, s);
      a := if s.main == AwaitingDone then MainWake else MainCloseQueue;
    }
  }

  // --- What a finished run returns ---

  /**
   A run that can go no further has returned: the queue is closed and drained, all workers have exited,
   every record is final, and the collected outcomes are the recorded ones, never the fallback.
   */
  lemma StoppedRunsAreComplete(p: Plan, s: System)
    requires Inv(p, s) && p.Acyclic()
    requires forall a :: a != Cancel ==> !Enabled(s, a)
    ensures s.main == Returned
    ensures FinishedRun(p, s)
  {
    if s.main != Returned {
      var a := NeverStuck(p, s);
    }
    ReturnedIsFinished(p, s);
  }

  ghost predicate FinishedRun(p: Plan, s: System) {
    && |s.states| == p.Size()
    && s.allDone && s.closed && s.queue == [] && s.finalized == p.Size()
    && (forall w :: 0 <= w < |s.workers| ==> s.workers[w].Exited?)
    && (forall i :: 0 <= i < p.Size() ==>
        s.states[i] == ProbeState(s.states[i].remainingDeps, Some(Outcomes(s.states)[i])))
  }

  lemma ReturnedIsFinished(p: Plan, s: System)
    requires Inv(p, s) && s.main == Returned
    ensures FinishedRun(p, s)
  {
    SumByNonNegative(s.workers, CloserFlag);
    CountBelowFinal(p, s);
    DoneMeansDrained(p, s);
  }

  /** From every reachable state the run can be completed. */
  lemma {:induction false} RunsComplete(p: Plan, s: System) returns (run: seq<Action>, t: System)
    requires Inv(p, s) && p.Acyclic()
    ensures Run(p, s, run, t) && t.main == Returned && FinishedRun(p, t)
    decreases Measure(s)
  {
    MeasureNonNegative(s);
    if s.main == Returned {
      ReturnedIsFinished(p, s);
      run, t := [], s;
    } else {
      var a := NeverStuck(p, s);
      StepLowersMeasure(p, s, a);
      StepKeepsInv(p, s, a);
      var rest;
      rest, t := RunsComplete(p, Next(p, s, a));
      run := [a] + rest;
    }
  }

  /** In any finished run, cancelled or not, a probe is skipped exactly when a direct dependency did not succeed. */
  lemma SkippedExactly(p: Plan, s: System, i: nat)
    requires Inv(p, s) && s.main == Returned && i < p.Size()
    ensures |Outcomes(s.states)| == p.Size()
    ensures Outcomes(s.states)[i] == Skipped <==>
            exists k :: 0 <= k < |p.dependencies[i]| && Outcomes(s.states)[p.dependencies[i][k]] != Succeeded
  {
    ReturnedIsFinished(p, s);
    assert HasBadDependency(p, s.states, i) <==> s.states[i].result == Some(Skipped);
    if HasBadDependency(p, s.states, i) {
      var k :| 0 <= k < |p.dependencies[i]| && s.states[p.dependencies[i][k]].Bad();
      assert Outcomes(s.states)[p.dependencies[i][k]] != Succeeded;
    }
    if k :| 0 <= k < |p.dependencies[i]| && Outcomes(s.states)[p.dependencies[i][k]] != Succeeded {
      assert s.states[p.dependencies[i][k]].Bad();
    }
  }

  // --- Confluence ---

  /** A run in which every probe returns what `oracle` says and nobody cancels. */
  ghost predicate RunUnder(p: Plan, oracle: nat -> RunError, s: System, run: seq<Action>, t: System)
    requires p.Valid()
    decreases |run|
  {
    if run == [] then s == t
    else
      && Shape(p, s) && Enabled(s, run[0]) && !run[0].Cancel?
      && (run[0].Finish? ==> run[0].err == oracle(s.workers[run[0].w].id))
      && RunUnder(p, oracle, Next(p, s, run[0]), run[1..], t)
  }

  /** The outcome of each probe by recursion over its dependencies alone: no queue, no workers, no order. */
  ghost function Denoted(p: Plan, rank: seq<nat>, oracle: nat -> RunError, i: nat): ProbeStatus
    requires p.Valid() && p.RankedBy(rank) && i < p.Size()
    decreases rank[i]
  {
    if forall k :: 0 <= k < |p.dependencies[i]| ==> Denoted(p, rank, oracle, p.dependencies[i][k]) == Succeeded
    then Classify(oracle(i), false)
    else Skipped
  }

  /** Every recorded outcome is the denoted one. */
  ghost predicate Agrees(p: Plan, rank: seq<nat>, oracle: nat -> RunError, s: System)
    requires p.Valid() && p.RankedBy(rank) && Shape(p, s)
  {
    && !s.cancelled
    && (forall i :: 0 <= i < p.Size() && s.states[i].Final() ==>
        s.states[i].result.value == Denoted(p, rank, oracle, i))
    && (forall w :: 0 <= w < |s.workers| && s.workers[w].Recording? ==>
          s.workers[w].status == Denoted(p, rank, oracle, s.workers[w].id))
  }

  /** A newly skipped record has a bad dependency further down, whose outcome is denoted. */
  lemma {:induction false} SettledAgrees(p: Plan, rank: seq<nat>, oracle: nat -> RunError,
                                         before: seq<ProbeState>, after: seq<ProbeState>, id: nat, i: nat)
    requires p.Valid() && p.RankedBy(rank) && |before| == |after| == p.Size() && SkipsExact(p, after)
    requires i < p.Size() && id < p.Size() && after[i].Final()
    requires forall j :: 0 <= j < p.Size() && before[j].Final() ==>
               after[j].result == before[j].result && before[j].result.value == Denoted(p, rank, oracle, j)
    requires after[id].result == Some(Denoted(p, rank, oracle, id))
    requires forall j :: 0 <= j < p.Size() && after[j].Final() && !before[j].Final() && j != id ==>
      after[j].result == Some(Skipped)
    ensures after[i].result.value == Denoted(p, rank, oracle, i)
    decreases rank[i]
  {
    if !before[i].Final() && i != id {
      assert HasBadDependency(p, after, i);
      var k :| 0 <= k < |p.dependencies[i]| && after[p.dependencies[i][k]].Bad();
      SettledAgrees(p, rank, oracle, before, after, id, p.dependencies[i][k]);
    }
  }

  lemma RecordAgrees(p: Plan, rank: seq<nat>, oracle: nat -> RunError, s: System, w: nat)
    requires Inv(p, s) && p.RankedBy(rank) && Agrees(p, rank, oracle, s) && Enabled(s, Record(w))
    ensures Shape(p, Next(p, s, Record(w))) && Agrees(p, rank, oracle, Next(p, s, Record(w)))
  {
    var t := Next(p, s, Record(w));
    var id := s.workers[w].id;
    RecordKeepsInv(p, s, w);
    RecordOutcomes(p, s, w);
    forall i | 0 <= i < p.Size() && t.states[i].Final()
      ensures t.states[i].result.value == Denoted(p, rank, oracle, i)
    {
      SettledAgrees(p, rank, oracle, s.states, t.states, id, i);
    }
  }

  /** Recording an outcome adds it, and skips; it changes no recorded outcome and no other worker. */
  lemma RecordOutcomes(p: Plan, s: System, w: nat)
    requires Inv(p, s) && Enabled(s, Record(w))
    ensures var t := Next(p, s, Record(w)); var id := s.workers[w].id;
      && |t.states| == p.Size() && t.cancelled == s.cancelled
      && t.workers == s.workers[w := t.workers[w]] && !t.workers[w].Recording?
      && t.states[id].result == Some(s.workers[w].status)
      && (forall j :: 0 <= j < p.Size() && s.states[j].Final() ==> t.states[j].result == s.states[j].result)
      && (forall j :: 0 <= j < p.Size() && t.states[j].Final() && !s.states[j].Final() && j != id ==>
          t.states[j].result == Some(Skipped))
  {
    var t := Next(p, s, Record(w));
    var id, status := s.workers[w].id, s.workers[w].status;
    HeldIsOpen(p, s, w, id);
    if status == Succeeded {
      forall i | 0 <= i < p.Size()
        ensures t.states[i].result == if i == id then Some(status) else s.states[i].result
      {
        SuccessCounters(p, s.states, id, i);
      }
    } else {
      FailureSettles(p, s.states, id, status);
    }
  }

  lemma StepAgrees(p: Plan, rank: seq<nat>, oracle: nat -> RunError, s: System, a: Action)
    requires Inv(p, s) && p.RankedBy(rank) && Agrees(p, rank, oracle, s) && Enabled(s, a) && !a.Cancel?
    requires a.Finish? ==> a.err == oracle(s.workers[a.w].id)
    ensures Shape(p, Next(p, s, a)) && Agrees(p, rank, oracle, Next(p, s, a))
  {
    if a.Record? {
      RecordKeepsInv(p, s, a.w);
      RecordAgrees(p, rank, oracle, s, a.w);
    } else if a.Finish? {
      HeldIsOpen(p, s, a.w, s.workers[a.w].id);
      FinishAgrees(p, rank, oracle, s, a.w, a.err);
    } else {
      StepKeepsInv(p, s, a);
      OtherStepsAgree(p, rank, oracle, s, a);
    }
  }

  lemma FinishAgrees(p: Plan, rank: seq<nat>, oracle: nat -> RunError, s: System, w: nat, err: RunError)
    requires p.Valid() && p.RankedBy(rank) && Shape(p, s) && Agrees(p, rank, oracle, s) && Enabled(s, Finish(w, err))
    requires err == oracle(s.workers[w].id)
    requires var id := s.workers[w].id; forall k :: 0 <= k < |p.dependencies[id]| ==>
      s.states[p.dependencies[id][k]].Good()
    ensures Shape(p, Next(p, s, Finish(w, err))) && Agrees(p, rank, oracle, Next(p, s, Finish(w, err)))
  {
  }

  lemma OtherStepsAgree(p: Plan, rank: seq<nat>, oracle: nat -> RunError, s: System, a: Action)
    requires p.Valid() && p.RankedBy(rank) && Shape(p, s) && Agrees(p, rank, oracle, s) && Enabled(s, a)
    requires !a.Cancel? && !a.Record? && !a.Finish? && Shape(p, Next(p, s, a))
    ensures Agrees(p, rank, oracle, Next(p, s, a))
  {
    OtherStepsRecordNothing(p, s, a);
  }

  /** Only a probe's return puts an outcome in a worker's hands while nobody cancels. */
  lemma OtherStepsRecordNothing(p: Plan, s: System, a: Action)
    requires p.Valid() && Shape(p, s) && Enabled(s, a) && !s.cancelled && !a.Cancel? && !a.Record? && !a.Finish?
    ensures var t := Next(p, s, a);
      && t.states == s.states && !t.cancelled
      && (forall w :: 0 <= w < |t.workers| && t.workers[w].Recording? ==>
          w < |s.workers| && s.workers[w] == t.workers[w])
  {
  }

  lemma {:induction false} RunAgrees(p: Plan, rank: seq<nat>, oracle: nat -> RunError, s: System, run: seq<Action>,
                                     t: System)
    requires Inv(p, s) && p.RankedBy(rank) && Agrees(p, rank, oracle, s) && RunUnder(p, oracle, s, run, t)
    ensures Inv(p, t) && Agrees(p, rank, oracle, t)
    decreases |run|
  {
    if run != [] {
      StepKeepsInv(p, s, run[0]);
      StepAgrees(p, rank, oracle, s, run[0]);
      RunAgrees(p, rank, oracle, Next(p, s, run[0]), run[1..], t);
    }
  }

  /** A finished run returns the denoted outcomes: the concurrent execution refines the recursion. */
  lemma RunComputesDenotation(p: Plan, rank: seq<nat>, oracle: nat -> RunError, maxConcurrency: nat, run: seq<Action>,
                              t: System)
    requires p.Valid() && p.Size() > 0 && p.RankedBy(rank) && maxConcurrency > 0
    requires RunUnder(p, oracle, Init(p, maxConcurrency, false), run, t) && t.main == Returned
    ensures |t.states| == p.Size()
    ensures forall i :: 0 <= i < p.Size() ==> Outcomes(t.states)[i] == Denoted(p, rank, oracle, i)
  {
    InitEstablishesInv(p, maxConcurrency, false);
    InitAgrees(p, rank, oracle, maxConcurrency);
    RunAgrees(p, rank, oracle, Init(p, maxConcurrency, false), run, t);
    FinishedAgrees(p, rank, oracle, t);
  }

  lemma InitAgrees(p: Plan, rank: seq<nat>, oracle: nat -> RunError, maxConcurrency: nat)
    requires p.Valid() && p.RankedBy(rank) && Shape(p, Init(p, maxConcurrency, false))
    ensures Agrees(p, rank, oracle, Init(p, maxConcurrency, false))
  {
  }

  lemma FinishedAgrees(p: Plan, rank: seq<nat>, oracle: nat -> RunError, t: System)
    requires Inv(p, t) && p.RankedBy(rank) && Agrees(p, rank, oracle, t) && t.main == Returned
    ensures forall i :: 0 <= i < p.Size() ==> Outcomes(t.states)[i] == Denoted(p, rank, oracle, i)
  {
    ReturnedIsFinished(p, t);
  }

  /** Confluence: with fixed probe outcomes every interleaving and every worker count returns the same outcomes. */
  lemma Confluence(p: Plan, oracle: nat -> RunError,
                   workers1: nat, run1: seq<Action>, t1: System, workers2: nat, run2: seq<Action>, t2: System)
    requires p.Valid() && p.Size() > 0 && p.Acyclic() && workers1 > 0 && workers2 > 0
    requires RunUnder(p, oracle, Init(p, workers1, false), run1, t1) && t1.main == Returned
    requires RunUnder(p, oracle, Init(p, workers2, false), run2, t2) && t2.main == Returned
    ensures Outcomes(t1.states) == Outcomes(t2.states)
  {
    var rank :| p.RankedBy(rank);
    RunComputesDenotation(p, rank, oracle, workers1, run1, t1);
    RunComputesDenotation(p, rank, oracle, workers2, run2, t2);
  }
}
