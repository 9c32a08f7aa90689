/** What every step of the probe scheduler keeps. */
module SchedulerInvariant {
  import opened Options
  import opened Seqs
  import opened SchedulerState
  import opened SchedulerProtocol

  // --- Counting over workers ---

  /** How often worker `w` holds node `i`: popped, being run or recorded, or still to be pushed. */
  function Holding(w: Worker, i: nat): int {
    match w
    case Popped(id) => if id == i then 1 else 0
    case Admitted(id) => if id == i then 1 else 0
    case Running(id) => if id == i then 1 else 0
    case Recording(id, _) => if id == i then 1 else 0
    case Announcing(_, released) => multiset(released)[i]
    case _ => 0
  }

  /** The part of `Holding` that precedes a run of node `i`. */
  function HoldingUnstarted(w: Worker, i: nat): int {
    match w
    case Popped(id) => if id == i then 1 else 0
    case Admitted(id) => if id == i then 1 else 0
    case Announcing(_, released) => multiset(released)[i]
    case _ => 0
  }

  function HoldingUnpushed(w: Worker, i: nat): int {
    if w.Announcing? then multiset(w.released)[i] else 0
  }

  function Holds(i: nat): Worker -> int { w => Holding(w, i) }
  function HoldsUnstarted(i: nat): Worker -> int { w => HoldingUnstarted(w, i) }
  function HoldsUnpushed(i: nat): Worker -> int { w => HoldingUnpushed(w, i) }

  /** Increments of the finalized counter that a worker still owes. */
  function Outstanding(w: Worker): int { if w.Announcing? then w.skipped + 1 else 0 }

  function CloserFlag(w: Worker): int { if w.Closing? then 1 else 0 }

  /** How often node `i` is in the queue or in a worker's hands. */
  ghost function Tokens(s: System, i: nat): int {
    multiset(s.queue)[i] + SumBy(s.workers, Holds(i))
  }

  ghost function Unstarted(s: System, i: nat): int {
    multiset(s.queue)[i] + SumBy(s.workers, HoldsUnstarted(i)) + s.started[i]
  }

  ghost function PushedOrDue(s: System, i: nat): int {
    s.pushed[i] + SumBy(s.workers, HoldsUnpushed(i))
  }

  // --- Unmet dependencies ---

  /** Dependency edges, counted with multiplicity, whose source has not succeeded. */
  function Unmet(states: seq<ProbeState>, dependencies: seq<nat>): nat
    requires InRange(states, dependencies)
  {
    if dependencies == [] then 0
    else (if states[dependencies[0]].Good() then 0 else 1) + Unmet(states, dependencies[1..])
  }

  lemma {:induction false} UnmetUnchanged(before: seq<ProbeState>, after: seq<ProbeState>, dependencies: seq<nat>)
    requires |before| == |after| && InRange(before, dependencies)
    requires forall i :: 0 <= i < |before| ==> (before[i].Good() <==> after[i].Good())
    ensures Unmet(after, dependencies) == Unmet(before, dependencies)
  {
    if dependencies != [] {
      UnmetUnchanged(before, after, dependencies[1..]);
    }
  }

  /** A node that succeeds takes all its edges out of the unmet count. */
  lemma {:induction false} UnmetAfterSuccess(before: seq<ProbeState>, after: seq<ProbeState>, dependencies: seq<nat>,
                                             id: nat)
    requires |before| == |after| && InRange(before, dependencies) && id < |before|
    requires !before[id].Good() && after[id].Good()
    requires forall i :: 0 <= i < |before| && i != id ==> (before[i].Good() <==> after[i].Good())
    ensures Unmet(after, dependencies) == Unmet(before, dependencies) - multiset(dependencies)[id]
  {
    if dependencies != [] {
      assert dependencies == [dependencies[0]] + dependencies[1..];
      UnmetAfterSuccess(before, after, dependencies[1..], id);
    }
  }

  /** No unmet edge means that every dependency succeeded. */
  lemma {:induction false} UnmetZero(states: seq<ProbeState>, dependencies: seq<nat>)
    requires InRange(states, dependencies)
    ensures Unmet(states, dependencies) == 0 <==>
            forall k :: 0 <= k < |dependencies| ==> states[dependencies[k]].Good()
  {
    if dependencies != [] {
      UnmetZero(states, dependencies[1..]);
      assert forall k :: 0 < k < |dependencies| ==> dependencies[k] == dependencies[1..][k - 1];
      if forall k :: 0 <= k < |dependencies[1..]| ==> states[dependencies[1..][k]].Good() {
        assert forall k :: 0 < k < |dependencies| ==> states[dependencies[k]].Good();
      }
      if forall k :: 0 <= k < |dependencies| ==> states[dependencies[k]].Good() {
        assert forall k :: 0 <= k < |dependencies[1..]| ==> dependencies[1..][k] == dependencies[k + 1];
        assert states[dependencies[0]].Good();
      }
    }
  }

  // --- The invariant ---

  /** Every counter is the number of unmet dependency edges. */
  ghost predicate CountersExact(p: Plan, states: seq<ProbeState>)
    requires p.Valid()
  {
    && |states| == p.Size()
    && (forall i :: 0 <= i < p.Size() ==> states[i].remainingDeps == Unmet(states, p.dependencies[i]))
  }

  /** An open node is in play exactly when its counter is zero, and then once; a finalized node never is. */
  ghost predicate TokensExact(p: Plan, s: System)
    requires |s.states| == p.Size()
  {
    forall i :: 0 <= i < p.Size() ==>
      Tokens(s, i) == if !s.states[i].Final() && s.states[i].remainingDeps == 0 then 1 else 0
  }

  /**
   A record is skipped exactly when a direct dependency ended badly; any other outcome needs all dependencies good.
   */
  ghost predicate SkipsExact(p: Plan, states: seq<ProbeState>)
    requires p.Valid()
  {
    && |states| == p.Size()
    && (forall i :: 0 <= i < p.Size() ==> (HasBadDependency(p, states, i) <==> states[i].result == Some(Skipped)))
    && (forall i :: 0 <= i < p.Size() && states[i].Final() && states[i].result != Some(Skipped) ==>
        states[i].remainingDeps == 0)
  }

  /** The counter lags behind the records by what the workers still owe, and one worker at most closes. */
  ghost predicate AccountingExact(p: Plan, s: System) {
    && 0 <= s.finalized
    && s.finalized + SumBy(s.workers, Outstanding) == FinalCount(s.states)
    && SumBy(s.workers, CloserFlag) + (if s.allDone then 1 else 0) == (if s.finalized == p.Size() then 1 else 0)
  }

  /** The main goroutine's progress, the queue's closing and the workers' exits fit together. */
  ghost predicate PhasesFit(s: System) {
    && (s.main != AwaitingDone ==> s.allDone)
    && (s.closed <==> s.main == Joining || s.main == Returned)
    && (s.main == Returned ==> forall w :: 0 <= w < |s.workers| ==> s.workers[w].Exited?)
    && (forall w :: 0 <= w < |s.workers| && s.workers[w].Exited? ==> s.closed)
    && (forall w :: 0 <= w < |s.workers| && s.workers[w].Parked? ==> s.queue == [] && !s.closed)
    && (forall w :: 0 <= w < |s.workers| && s.workers[w].Recording? ==> s.workers[w].status != Skipped)
    && (forall w :: 0 <= w < |s.workers| && s.workers[w].Recording? && s.workers[w].status == Cancelled ==> s.cancelled)
  }

  /** Each node is pushed once when its counter reaches zero, and started at most once after that. */
  ghost predicate HistoryExact(p: Plan, s: System)
    requires |s.states| == p.Size()
  {
    forall i :: 0 <= i < p.Size() ==>
      && PushedOrDue(s, i) == (if s.states[i].remainingDeps == 0 then 1 else 0)
      && Unstarted(s, i) <= (if s.states[i].remainingDeps == 0 then 1 else 0)
  }

  ghost predicate Inv(p: Plan, s: System) {
    && p.Valid() && p.Size() > 0 && |s.workers| > 0
    && Shape(p, s)
    && CountersExact(p, s.states)
    && TokensExact(p, s)
    && SkipsExact(p, s.states)
    && AccountingExact(p, s)
    && PhasesFit(s)
    && HistoryExact(p, s)
  }

  // --- The invariant holds initially ---

  lemma {:induction false} RootsOnce(p: Plan, n: nat, i: nat)
    requires n <= p.Size() && i < p.Size()
    ensures multiset(Roots(p, n))[i] == if i < n && p.dependencies[i] == [] then 1 else 0
  {
    if n > 0 {
      RootsOnce(p, n - 1, i);
      if p.dependencies[n - 1] == [] {
        OneMoreInMultiset(Roots(p, n - 1), n - 1);
      }
    }
  }

  lemma {:induction false} UnmetInitially(states: seq<ProbeState>, dependencies: seq<nat>)
    requires InRange(states, dependencies)
    requires forall i :: 0 <= i < |states| ==> states[i].result == None
    ensures Unmet(states, dependencies) == |dependencies|
  {
    if dependencies != [] {
      UnmetInitially(states, dependencies[1..]);
    }
  }

  lemma InitEstablishesInv(p: Plan, maxConcurrency: nat, cancelled: bool)
    requires p.Valid() && p.Size() > 0 && maxConcurrency > 0
    ensures Inv(p, Init(p, maxConcurrency, cancelled))
  {
    var s := Init(p, maxConcurrency, cancelled);
    forall i | 0 <= i < p.Size()
      ensures s.states[i].remainingDeps == Unmet(s.states, p.dependencies[i])
      ensures Tokens(s, i) == Unstarted(s, i) == PushedOrDue(s, i) == if s.states[i].remainingDeps == 0 then 1 else 0
    {
      InitCounts(p, maxConcurrency, cancelled, i);
    }
    InitFits(p, maxConcurrency, cancelled);
  }

  /** Nothing is finalized, owed or closed at the start. */
  lemma InitFits(p: Plan, maxConcurrency: nat, cancelled: bool)
    requires p.Valid() && p.Size() > 0
    ensures var s := Init(p, maxConcurrency, cancelled);
      Shape(p, s) && SkipsExact(p, s.states) && AccountingExact(p, s) && PhasesFit(s)
  {
    var s := Init(p, maxConcurrency, cancelled);
    SumByZero(s.workers, Outstanding);
    SumByZero(s.workers, CloserFlag);
    SumByZero(s.states, FinalFlag);
  }

  lemma InitCounts(p: Plan, maxConcurrency: nat, cancelled: bool, i: nat)
    requires p.Valid() && i < p.Size()
    ensures var s := Init(p, maxConcurrency, cancelled);
      && InRange(s.states, p.dependencies[i]) && s.states[i].remainingDeps == Unmet(s.states, p.dependencies[i])
      && Tokens(s, i) == Unstarted(s, i) == PushedOrDue(s, i) == if s.states[i].remainingDeps == 0 then 1 else 0
  {
    var s := Init(p, maxConcurrency, cancelled);
    UnmetInitially(s.states, p.dependencies[i]);
    RootsOnce(p, p.Size(), i);
    SumByZero(s.workers, Holds(i));
    SumByZero(s.workers, HoldsUnstarted(i));
    SumByZero(s.workers, HoldsUnpushed(i));
  }

  // --- Consequences used by the steps ---

  /** A node in a worker's hands is open and has no unmet dependency. */
  lemma HeldIsOpen(p: Plan, s: System, w: nat, i: nat)
    requires Inv(p, s) && w < |s.workers| && i < p.Size() && Holding(s.workers[w], i) > 0
    ensures !s.states[i].Final() && s.states[i].remainingDeps == 0
    ensures forall k :: 0 <= k < |p.dependencies[i]| ==> s.states[p.dependencies[i][k]].Good()
  {
    SumByAtLeast(s.workers, w, Holds(i));
    UnmetZero(s.states, p.dependencies[i]);
  }

  /** An outstanding increment means that not every record is counted. */
  lemma OwedIsUncounted(p: Plan, s: System, w: nat)
    requires Inv(p, s) && w < |s.workers|
    ensures s.finalized + Outstanding(s.workers[w]) <= p.Size()
    ensures Outstanding(s.workers[w]) > 0 ==> !s.allDone && !s.closed && s.main == AwaitingDone
  {
    SumByAtLeast(s.workers, w, Outstanding);
    FinalCountBounds(s.states);
    SumByNonNegative(s.workers, CloserFlag);
  }

  /** At most one worker is about to close, and only while the channel is open. */
  lemma CloserIsFirst(p: Plan, s: System, w: nat)
    requires Inv(p, s) && w < |s.workers| && s.workers[w].Closing?
    ensures !s.allDone && s.finalized == p.Size()
    ensures forall v :: 0 <= v < |s.workers| && v != w ==> !s.workers[v].Closing?
  {
    SumByAtLeast(s.workers, w, CloserFlag);
    forall v | 0 <= v < |s.workers| && v != w
      ensures !s.workers[v].Closing?
    {
      if v < w { SumByTwo(s.workers, v, w, CloserFlag); } else { SumByTwo(s.workers, w, v, CloserFlag); }
    }
  }

  // --- Steps that change one worker and leave the records alone ---

  /** Waking parked workers changes no worker sum. */
  lemma WakeKeepsSums(workers: seq<Worker>)
    ensures forall i: nat {:trigger Holds(i)} :: SumBy(Wake(workers), Holds(i)) == SumBy(workers, Holds(i))
    ensures forall i: nat {:trigger HoldsUnstarted(i)} ::
      SumBy(Wake(workers), HoldsUnstarted(i)) == SumBy(workers, HoldsUnstarted(i))
    ensures forall i: nat {:trigger HoldsUnpushed(i)} ::
      SumBy(Wake(workers), HoldsUnpushed(i)) == SumBy(workers, HoldsUnpushed(i))
    ensures SumBy(Wake(workers), Outstanding) == SumBy(workers, Outstanding)
    ensures SumBy(Wake(workers), CloserFlag) == SumBy(workers, CloserFlag)
  {
    forall i: nat
      ensures SumBy(Wake(workers), Holds(i)) == SumBy(workers, Holds(i))
      ensures SumBy(Wake(workers), HoldsUnstarted(i)) == SumBy(workers, HoldsUnstarted(i))
      ensures SumBy(Wake(workers), HoldsUnpushed(i)) == SumBy(workers, HoldsUnpushed(i))
    {
      SumByEqual(workers, Wake(workers), Holds(i));
      SumByEqual(workers, Wake(workers), HoldsUnstarted(i));
      SumByEqual(workers, Wake(workers), HoldsUnpushed(i));
    }
    SumByEqual(workers, Wake(workers), Outstanding);
    SumByEqual(workers, Wake(workers), CloserFlag);
  }

  /** The per-node books of two states agree, except that runs may have been started. */
  ghost predicate SameBooks(p: Plan, s: System, t: System) {
    forall i :: 0 <= i < p.Size() ==>
      Tokens(t, i) == Tokens(s, i) && Unstarted(t, i) <= Unstarted(s, i) && PushedOrDue(t, i) == PushedOrDue(s, i)
  }

  /** The parts of the invariant that do not count anything. */
  ghost predicate Fits(p: Plan, t: System) {
    Shape(p, t) && PhasesFit(t)
  }

  lemma FrameInv(p: Plan, s: System, t: System)
    requires Inv(p, s)
    requires t.states == s.states && |t.workers| > 0 && Fits(p, t)
    requires SameBooks(p, s, t) && AccountingExact(p, t)
    ensures Inv(p, t)
  {
  }

  /** Worker `w`, the queue and the history balance for node `i`. */
  ghost predicate Balanced(s: System, t: System, w: nat, i: nat)
    requires w < |s.workers| == |t.workers|
  {
    && multiset(t.queue)[i] + Holding(t.workers[w], i) == multiset(s.queue)[i] + Holding(s.workers[w], i)
    && multiset(t.queue)[i] + HoldingUnstarted(t.workers[w], i) + t.started[i] <=
       multiset(s.queue)[i] + HoldingUnstarted(s.workers[w], i) + s.started[i]
    && t.pushed[i] + HoldingUnpushed(t.workers[w], i) == s.pushed[i] + HoldingUnpushed(s.workers[w], i)
  }

  /** Replacing one worker keeps the books when worker, queue and history balance node by node. */
  lemma ReplaceKeepsBooks(p: Plan, s: System, t: System, w: nat)
    requires w < |s.workers| == |t.workers|
    requires t.workers == s.workers[w := t.workers[w]] || t.workers == Wake(s.workers[w := t.workers[w]])
    requires forall i: nat :: i < p.Size() ==> Balanced(s, t, w, i)
    ensures SameBooks(p, s, t)
    ensures SumBy(t.workers, Outstanding) == SumBy(s.workers, Outstanding) - Outstanding(s.workers[w])
      + Outstanding(t.workers[w])
    ensures SumBy(t.workers, CloserFlag) == SumBy(s.workers, CloserFlag) - CloserFlag(s.workers[w])
      + CloserFlag(t.workers[w])
  {
    var x := t.workers[w];
    var workers := s.workers[w := x];
    SumByUpdate(s.workers, w, x, Outstanding);
    SumByUpdate(s.workers, w, x, CloserFlag);
    SumByEqual(workers, t.workers, Outstanding);
    SumByEqual(workers, t.workers, CloserFlag);
    forall i | 0 <= i < p.Size()
      ensures Tokens(t, i) == Tokens(s, i) && Unstarted(t, i) <= Unstarted(s, i)
        && PushedOrDue(t, i) == PushedOrDue(s, i)
    {
      assert Balanced(s, t, w, i);
      SumByUpdate(s.workers, w, x, Holds(i));
      SumByUpdate(s.workers, w, x, HoldsUnstarted(i));
      SumByUpdate(s.workers, w, x, HoldsUnpushed(i));
      SumByEqual(workers, t.workers, Holds(i));
      SumByEqual(workers, t.workers, HoldsUnstarted(i));
      SumByEqual(workers, t.workers, HoldsUnpushed(i));
    }
  }

  lemma PopKeepsInv(p: Plan, s: System, w: nat)
    requires Inv(p, s) && Enabled(s, Pop(w))
    ensures Inv(p, Next(p, s, Pop(w)))
  {
    PopFits(p, s, w);
    PopBalances(p, s, w);
    ReplaceKeepsBooks(p, s, Next(p, s, Pop(w)), w);
    FrameInv(p, s, Next(p, s, Pop(w)));
  }

  lemma PopFits(p: Plan, s: System, w: nat)
    requires p.Valid() && Fits(p, s) && Enabled(s, Pop(w))
    ensures Fits(p, Next(p, s, Pop(w)))
  {
  }

  lemma PopBalances(p: Plan, s: System, w: nat)
    requires p.Valid() && Shape(p, s) && Enabled(s, Pop(w))
    ensures forall i: nat :: i < p.Size() ==> Balanced(s, Next(p, s, Pop(w)), w, i)
  {
    var t := Next(p, s, Pop(w));
    assert s.queue == [s.queue[0]] + s.queue[1..];
    assert multiset(s.queue) == multiset{s.queue[0]} + multiset(t.queue);
  }

  /** A worker that finds the queue empty parks or exits; it holds nothing. */
  lemma EmptyQueueKeepsInv(p: Plan, s: System, a: Action)
    requires Inv(p, s) && Enabled(s, a) && (a.Park? || a.Exit?)
    ensures Inv(p, Next(p, s, a))
  {
    EmptyQueueFits(p, s, a);
    ReplaceKeepsBooks(p, s, Next(p, s, a), a.w);
    FrameInv(p, s, Next(p, s, a));
  }

  lemma EmptyQueueFits(p: Plan, s: System, a: Action)
    requires p.Valid() && Fits(p, s) && Enabled(s, a) && (a.Park? || a.Exit?)
    ensures Fits(p, Next(p, s, a))
    ensures forall i: nat :: i < p.Size() ==> Balanced(s, Next(p, s, a), a.w, i)
  {
  }

  /** A popped probe is never already final, so the fast path of processProbe never returns. */
  lemma CheckFinalKeepsInv(p: Plan, s: System, w: nat)
    requires Inv(p, s) && Enabled(s, CheckFinal(w))
    ensures Inv(p, Next(p, s, CheckFinal(w)))
    ensures Next(p, s, CheckFinal(w)).workers[w] == Admitted(s.workers[w].id)
  {
    HeldIsOpen(p, s, w, s.workers[w].id);
    AdmitFits(p, s, w);
    ReplaceKeepsBooks(p, s, Next(p, s, CheckFinal(w)), w);
    FrameInv(p, s, Next(p, s, CheckFinal(w)));
  }

  lemma AdmitFits(p: Plan, s: System, w: nat)
    requires p.Valid() && Fits(p, s) && Enabled(s, CheckFinal(w)) && !s.states[s.workers[w].id].Final()
    ensures Fits(p, Next(p, s, CheckFinal(w)))
    ensures forall i: nat :: i < p.Size() ==> Balanced(s, Next(p, s, CheckFinal(w)), w, i)
  {
  }

  lemma CheckContextKeepsInv(p: Plan, s: System, w: nat)
    requires Inv(p, s) && Enabled(s, CheckContext(w))
    ensures Inv(p, Next(p, s, CheckContext(w)))
  {
    CheckContextFits(p, s, w);
    CheckContextBalances(p, s, w);
    ReplaceKeepsBooks(p, s, Next(p, s, CheckContext(w)), w);
    FrameInv(p, s, Next(p, s, CheckContext(w)));
  }

  lemma CheckContextFits(p: Plan, s: System, w: nat)
    requires p.Valid() && Fits(p, s) && Enabled(s, CheckContext(w))
    ensures Fits(p, Next(p, s, CheckContext(w)))
  {
  }

  lemma CheckContextBalances(p: Plan, s: System, w: nat)
    requires p.Valid() && Shape(p, s) && Enabled(s, CheckContext(w))
    ensures forall i: nat :: i < p.Size() ==> Balanced(s, Next(p, s, CheckContext(w)), w, i)
  {
  }

  lemma FinishKeepsInv(p: Plan, s: System, w: nat, err: RunError)
    requires Inv(p, s) && Enabled(s, Finish(w, err))
    ensures Inv(p, Next(p, s, Finish(w, err)))
  {
    FinishFits(p, s, w, err);
    ReplaceKeepsBooks(p, s, Next(p, s, Finish(w, err)), w);
    FrameInv(p, s, Next(p, s, Finish(w, err)));
  }

  lemma FinishFits(p: Plan, s: System, w: nat, err: RunError)
    requires p.Valid() && Fits(p, s) && Enabled(s, Finish(w, err))
    ensures Fits(p, Next(p, s, Finish(w, err)))
    ensures forall i: nat :: i < p.Size() ==> Balanced(s, Next(p, s, Finish(w, err)), w, i)
  {
  }

  // --- Counting, pushing and signalling ---

  /** An increment made for a cascade never reaches the total. */
  lemma CountSkippedKeepsInv(p: Plan, s: System, w: nat)
    requires Inv(p, s) && Enabled(s, CountSkipped(w))
    ensures Inv(p, Next(p, s, CountSkipped(w)))
    ensures s.finalized + 1 < p.Size()
  {
    CountSkippedFits(p, s, w);
    ReplaceKeepsBooks(p, s, Next(p, s, CountSkipped(w)), w);
    OwedIsUncounted(p, s, w);
    FrameInv(p, s, Next(p, s, CountSkipped(w)));
  }

  lemma CountSkippedFits(p: Plan, s: System, w: nat)
    requires p.Valid() && Fits(p, s) && Enabled(s, CountSkipped(w))
    ensures Fits(p, Next(p, s, CountSkipped(w)))
    ensures forall i: nat :: i < p.Size() ==> Balanced(s, Next(p, s, CountSkipped(w)), w, i)
  {
    assert WorkerInRange(s.workers[w], p.Size());
  }

  /** A push never meets a closed queue, so it always appends. */
  lemma PushReleasedKeepsInv(p: Plan, s: System, w: nat)
    requires Inv(p, s) && Enabled(s, PushReleased(w))
    ensures Inv(p, Next(p, s, PushReleased(w)))
    ensures !s.closed
  {
    OwedIsUncounted(p, s, w);
    PushReleasedFits(p, s, w);
    PushReleasedBalances(p, s, w);
    ReplaceKeepsBooks(p, s, Next(p, s, PushReleased(w)), w);
    FrameInv(p, s, Next(p, s, PushReleased(w)));
  }

  lemma PushReleasedFits(p: Plan, s: System, w: nat)
    requires p.Valid() && Fits(p, s) && Enabled(s, PushReleased(w)) && !s.closed
    ensures Fits(p, Next(p, s, PushReleased(w)))
  {
    assert WorkerInRange(s.workers[w], p.Size());
  }

  lemma PushReleasedBalances(p: Plan, s: System, w: nat)
    requires p.Valid() && Shape(p, s) && Enabled(s, PushReleased(w)) && !s.closed
    ensures forall i: nat :: i < p.Size() ==> Balanced(s, Next(p, s, PushReleased(w)), w, i)
  {
    var t := Next(p, s, PushReleased(w));
    var released := s.workers[w].released;
    assert t.workers[w] == Announcing(0, released[1..]);
    assert released == [released[0]] + released[1..];
    assert multiset(released) == multiset{released[0]} + multiset(released[1..]);
    assert multiset(t.queue) == multiset(s.queue) + multiset{released[0]};
  }

  lemma SignalKeepsInv(p: Plan, s: System, w: nat)
    requires Inv(p, s) && Enabled(s, Signal(w))
    ensures Inv(p, Next(p, s, Signal(w)))
  {
    SignalFits(p, s, w);
    ReplaceKeepsBooks(p, s, Next(p, s, Signal(w)), w);
    OwedIsUncounted(p, s, w);
    SumByNonNegative(s.workers, CloserFlag);
    FrameInv(p, s, Next(p, s, Signal(w)));
  }

  lemma SignalFits(p: Plan, s: System, w: nat)
    requires p.Valid() && Fits(p, s) && Enabled(s, Signal(w))
    ensures Fits(p, Next(p, s, Signal(w)))
    ensures forall i: nat :: i < p.Size() ==> Balanced(s, Next(p, s, Signal(w)), w, i)
  {
  }

  lemma CloseDoneKeepsInv(p: Plan, s: System, w: nat)
    requires Inv(p, s) && Enabled(s, CloseDone(w))
    ensures Inv(p, Next(p, s, CloseDone(w)))
  {
    CloseDoneFits(p, s, w);
    ReplaceKeepsBooks(p, s, Next(p, s, CloseDone(w)), w);
    CloserIsFirst(p, s, w);
    FrameInv(p, s, Next(p, s, CloseDone(w)));
  }

  lemma CloseDoneFits(p: Plan, s: System, w: nat)
    requires p.Valid() && Fits(p, s) && Enabled(s, CloseDone(w))
    ensures Fits(p, Next(p, s, CloseDone(w)))
    ensures forall i: nat :: i < p.Size() ==> Balanced(s, Next(p, s, CloseDone(w)), w, i)
  {
  }

  lemma MainKeepsInv(p: Plan, s: System, a: Action)
    requires Inv(p, s) && Enabled(s, a)
    requires a.MainWake? || a.MainCloseQueue? || a.MainJoin? || a.Cancel?
    ensures Inv(p, Next(p, s, a))
  {
    var t := Next(p, s, a);
    MainFits(p, s, a);
    WakeKeepsSums(s.workers);
    forall i | 0 <= i < p.Size()
      ensures Tokens(t, i) == Tokens(s, i) && Unstarted(t, i) == Unstarted(s, i)
        && PushedOrDue(t, i) == PushedOrDue(s, i)
    {
      assert Holds(i) == Holds(i) && HoldsUnstarted(i) == HoldsUnstarted(i) && HoldsUnpushed(i) == HoldsUnpushed(i);
    }
    FrameInv(p, s, t);
  }

  lemma MainFits(p: Plan, s: System, a: Action)
    requires p.Valid() && Fits(p, s) && Enabled(s, a)
    requires a.MainWake? || a.MainCloseQueue? || a.MainJoin? || a.Cancel?
    ensures Fits(p, Next(p, s, a))
  {
  }
}
