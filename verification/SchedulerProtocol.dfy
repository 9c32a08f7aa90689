/**
 Orchestrator.Run of internal/probe/orchestrator.go as an interleaved protocol. Each action is one
 step that the source performs atomically: a critical section of the state lock or of the queue
 lock, one atomic increment, one channel operation, or one return of a probe.
 */
module SchedulerProtocol {
  import opened Options
  import opened Seqs
  import opened SchedulerState

  /** What a probe returned: nothing, an error that wraps the context's error, or another error. */
  datatype RunError = NoError | ContextError | OtherError

  /** The outcome recorded for a probe that ran. */
  function Classify(err: RunError, cancelled: bool): ProbeStatus {
    match err
    case NoError => Succeeded
    case ContextError => if cancelled then Cancelled else Failed
    case OtherError => Failed
  }

  /** Where a worker goroutine is between two atomic steps. */
  datatype Worker =
    | Idle                                           // about to take the queue lock in pop
    | Parked                                         // waiting on the queue's condition variable
    | Popped(id: nat)                                // before the finalized fast path
    | Admitted(id: nat)                              // before the context check
    | Running(id: nat)                               // inside the probe
    | Recording(id: nat, status: ProbeStatus)        // before the locked segment of recordFinal
    | Announcing(skipped: nat, released: seq<nat>)   // increments and pushes still to do
    | Closing                                        // its increment reached the total
    | Exited

  datatype MainThread = AwaitingDone | ClosingQueue | Joining | Returned

  /** `pushed` and `started` are history: how often each probe was enqueued and run. */
  datatype System = System(
    states: seq<ProbeState>,
    queue: seq<nat>,
    closed: bool,
    workers: seq<Worker>,
    finalized: int,
    allDone: bool,
    cancelled: bool,
    main: MainThread,
    pushed: multiset<nat>,
    started: multiset<nat>)

  datatype Action =
    | Pop(w: nat) | Park(w: nat) | Exit(w: nat)
    | CheckFinal(w: nat) | CheckContext(w: nat) | Finish(w: nat, err: RunError)
    | Record(w: nat) | CountSkipped(w: nat) | PushReleased(w: nat) | Signal(w: nat) | CloseDone(w: nat)
    | MainWake | MainCloseQueue | MainJoin
    | Cancel

  // --- The initial state ---

  function InitialRecords(p: Plan): (r: seq<ProbeState>)
    ensures |r| == p.Size()
  {
    seq(p.Size(), i requires 0 <= i < p.Size() => ProbeState(|p.dependencies[i]|, None))
  }

  /** The nodes below `n` without dependencies, in registration order: the first queue content. */
  function Roots(p: Plan, n: nat): (r: seq<nat>)
    requires n <= p.Size()
    ensures forall k :: 0 <= k < |r| ==> r[k] < n
  {
    if n == 0 then []
    else if p.dependencies[n - 1] == [] then Roots(p, n - 1) + [n - 1]
    else Roots(p, n - 1)
  }

  function EffectiveWorkers(maxConcurrency: nat, n: nat): nat {
    if maxConcurrency > n then n else maxConcurrency
  }

  function Init(p: Plan, maxConcurrency: nat, cancelled: bool): System {
    System(InitialRecords(p), Roots(p, p.Size()), false,
           seq(EffectiveWorkers(maxConcurrency, p.Size()), _ => Idle),
           0, false, cancelled, AwaitingDone, multiset(Roots(p, p.Size())), multiset{})
  }

  // --- Steps ---

  /** Every node number and worker payload is in range. */
  ghost predicate Shape(p: Plan, s: System) {
    && |s.states| == p.Size()
    && (forall k :: 0 <= k < |s.queue| ==> s.queue[k] < p.Size())
    && (forall w :: 0 <= w < |s.workers| ==> WorkerInRange(s.workers[w], p.Size()))
  }

  predicate WorkerInRange(w: Worker, n: nat) {
    match w
    case Popped(id) => id < n
    case Admitted(id) => id < n
    case Running(id) => id < n
    case Recording(id, _) => id < n
    case Announcing(_, released) => forall k :: 0 <= k < |released| ==> released[k] < n
    case _ => true
  }

  /** The locked segment of recordFinal on an open record: new records, released nodes, skipped count. */
  function Settle(p: Plan, states: seq<ProbeState>, id: nat, status: ProbeStatus): (r: (seq<ProbeState>, seq<nat>, nat))
    requires p.Valid() && |states| == p.Size() && id < p.Size()
    ensures |r.0| == |states|
  {
    var s := states[id := states[id].(result := Some(status))];
    if status == Succeeded then
      var (t, released) := Release(s, p.downstream[id]);
      (t, released, 0)
    else
      var (t, skipped) := Cascade(p, s, p.downstream[id]);
      (t, [], skipped)
  }

  /** A broadcast: every parked worker becomes runnable again. */
  function Wake(workers: seq<Worker>): (r: seq<Worker>)
    ensures |r| == |workers|
    ensures forall w :: 0 <= w < |workers| ==> r[w] == if workers[w] == Parked then Idle else workers[w]
  {
    seq(|workers|, w requires 0 <= w < |workers| => if workers[w] == Parked then Idle else workers[w])
  }

  predicate Enabled(s: System, a: Action) {
    match a
    case Pop(w) => w < |s.workers| && s.workers[w].Idle? && s.queue != []
    case Park(w) => w < |s.workers| && s.workers[w].Idle? && s.queue == [] && !s.closed
    case Exit(w) => w < |s.workers| && s.workers[w].Idle? && s.queue == [] && s.closed
    case CheckFinal(w) => w < |s.workers| && s.workers[w].Popped?
    case CheckContext(w) => w < |s.workers| && s.workers[w].Admitted?
    case Finish(w, _) => w < |s.workers| && s.workers[w].Running?
    case Record(w) => w < |s.workers| && s.workers[w].Recording?
    case CountSkipped(w) => w < |s.workers| && s.workers[w].Announcing? && s.workers[w].skipped > 0
    case PushReleased(w) => w < |s.workers| && s.workers[w].Announcing? && s.workers[w].skipped == 0
      && s.workers[w].released != []
    case Signal(w) => w < |s.workers| && s.workers[w].Announcing? && s.workers[w].skipped == 0
      && s.workers[w].released == []
    case CloseDone(w) => w < |s.workers| && s.workers[w].Closing?
    case MainWake => s.main == AwaitingDone && s.allDone
    case MainCloseQueue => s.main == ClosingQueue
    case MainJoin => s.main == Joining && forall w :: 0 <= w < |s.workers| ==> s.workers[w].Exited?
    case Cancel => !s.cancelled
  }

  function Next(p: Plan, s: System, a: Action): System
    requires p.Valid() && Shape(p, s) && Enabled(s, a)
  {
    match a
    case Pop(w) => s.(workers := s.workers[w := Popped(s.queue[0])], queue := s.queue[1..])
    case Park(w) => s.(workers := s.workers[w := Parked])
    case Exit(w) => s.(workers := s.workers[w := Exited])
    case CheckFinal(w) =>
      var id := s.workers[w].id;
      s.(workers := s.workers[w := if s.states[id].Final() then Idle else Admitted(id)])
    case CheckContext(w) =>
      var id := s.workers[w].id;
      if s.cancelled then s.(workers := s.workers[w := Recording(id, Cancelled)])
      else s.(workers := s.workers[w := Running(id)], started := s.started + multiset{id})
    case Finish(w, err) =>
      s.(workers := s.workers[w := Recording(s.workers[w].id, Classify(err, s.cancelled))])
    case Record(w) =>
      var id := s.workers[w].id;
      if s.states[id].Final() then s.(workers := s.workers[w := Idle])
      else
        var (t, released, skipped) := Settle(p, s.states, id, s.workers[w].status);
        s.(states := t, workers := s.workers[w := Announcing(skipped, released)])
    case CountSkipped(w) =>
      s.(workers := s.workers[w := Announcing(s.workers[w].skipped - 1, s.workers[w].released)],
         finalized := s.finalized + 1)
    case PushReleased(w) =>
      var id, rest := s.workers[w].released[0], s.workers[w].released[1..];
      var workers := s.workers[w := Announcing(0, rest)];
      if s.closed then s.(workers := workers)
      else s.(workers := Wake(workers), queue := s.queue + [id], pushed := s.pushed + multiset{id})
    case Signal(w) =>
      s.(workers := s.workers[w := if s.finalized + 1 == p.Size() then Closing else Idle], finalized := s.finalized + 1)
    case CloseDone(w) => s.(workers := s.workers[w := Idle], allDone := true)
    case MainWake => s.(main := ClosingQueue)
    case MainCloseQueue =>
      if s.closed then s.(main := Joining)
      else s.(main := Joining, closed := true, workers := Wake(s.workers))
    case MainJoin => s.(main := Returned)
    case Cancel => s.(cancelled := true)
  }

  /** `run` is executable from `s`, one enabled action after another, and ends in `t`. */
  ghost predicate Run(p: Plan, s: System, run: seq<Action>, t: System)
    requires p.Valid()
    decreases |run|
  {
    if run == [] then s == t
    else Shape(p, s) && Enabled(s, run[0]) && Run(p, Next(p, s, run[0]), run[1..], t)
  }

  ghost predicate Reachable(p: Plan, maxConcurrency: nat, cancelled: bool, s: System)
    requires p.Valid()
  {
    exists run :: Run(p, Init(p, maxConcurrency, cancelled), run, s)
  }

  // --- What Run returns ---

  /** The collected outcomes, with the source's fallback for a record that is not finalized. */
  function Outcomes(states: seq<ProbeState>): (r: seq<ProbeStatus>)
    ensures |r| == |states|
  {
    seq(|states|, i requires 0 <= i < |states| => if states[i].Final() then states[i].result.value else Skipped)
  }
}
