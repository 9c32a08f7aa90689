/**
 The loops and in-place updates of internal/probe/orchestrator.go that make up the atomic steps of the
 protocol: preparing a run, the queue, the locked segment of recordFinal, and collecting the results.
 Each is proved to compute the function that the protocol's step uses.
 */
module SchedulerRun {
  import opened Options
  import opened Seqs
  import opened SchedulerState
  import opened SchedulerProtocol

  /** What pop does once it holds the queue lock. */
  datatype PopResult = Item(id: nat) | Drained | MustWait

  /** The queue with the workers that wait on its condition variable. */
  datatype QueueState = QueueState(items: seq<nat>, closed: bool, waiting: set<nat>)

  /** An open queue takes the item and wakes every waiting worker; a closed one ignores it. */
  function Pushed(q: QueueState, id: nat): QueueState {
    if q.closed then q else QueueState(q.items + [id], false, {})
  }

  /** One look of worker `w`: it takes the oldest item, or finds the queue drained, or waits. */
  function PoppedBy(q: QueueState, w: nat): QueueState {
    if q.items != [] then q.(items := q.items[1..])
    else if q.closed then q
    else q.(waiting := q.waiting + {w})
  }

  /** Closing wakes every waiting worker; a second close does nothing. */
  function ClosedNow(q: QueueState): QueueState {
    if q.closed then q else QueueState(q.items, true, {})
  }

  class RunQueue {
    var items: seq<nat>
    var closed: bool
    var waiting: set<nat>

    function State(): QueueState
      reads this
    {
      QueueState(items, closed, waiting)
    }

    constructor ()
      ensures State() == QueueState([], false, {})
    {
      items, closed, waiting := [], false, {};
    }

    method Push(id: nat)
      modifies this
      ensures State() == Pushed(old(State()), id) && closed == old(closed)
      ensures items == if closed then old(items) else old(items) + [id]
      ensures waiting == if closed then old(waiting) else {}
    {
      if closed { return; }
      items := items + [id];
      waiting := {};
    }

    /** First in, first out; a closed queue still hands out what it holds. */
    method TryPop(w: nat) returns (r: PopResult)
      modifies this
      ensures State() == PoppedBy(old(State()), w) && closed == old(closed)
      ensures old(items) != [] ==> items == old(items)[1..] && waiting == old(waiting)
      ensures old(items) == [] ==> items == [] && waiting == old(waiting) + if closed then {} else {w}
      ensures old(items) != [] ==> r == Item(old(items)[0])
      ensures old(items) == [] ==> r == if closed then Drained else MustWait
    {
      if items == [] && !closed {
        waiting := waiting + {w};
        return MustWait;
      }
      if items == [] { return Drained; }
      r := Item(items[0]);
      items := items[1..];
    }

    method Close()
      modifies this
      ensures State() == ClosedNow(old(State())) && closed && items == old(items)
      ensures waiting == if old(closed) then old(waiting) else {}
    {
      if closed { return; }
      closed := true;
      waiting := {};
    }
  }

  function ParkedIn(workers: seq<Worker>): set<nat> {
    set w: nat | w < |workers| && workers[w].Parked?
  }

  /** The queue in a state of the protocol. */
  function QueueOf(s: System): QueueState {
    QueueState(s.queue, s.closed, ParkedIn(s.workers))
  }

  lemma OtherStepsLeaveParked(workers: seq<Worker>, w: nat, next: Worker)
    requires w < |workers| && !workers[w].Parked?
    ensures ParkedIn(workers[w := next]) == if next.Parked? then ParkedIn(workers) + {w} else ParkedIn(workers)
  {
  }

  lemma WakeLeavesNoneParked(workers: seq<Worker>)
    ensures ParkedIn(Wake(workers)) == {}
  {
  }

  /** The protocol uses the queue only through its three operations. */
  lemma QueueStepsAreOperations(p: Plan, s: System, a: Action)
    requires p.Valid() && Shape(p, s) && Enabled(s, a)
    ensures QueueOf(Next(p, s, a)) ==
      match a
      case Pop(w) => PoppedBy(QueueOf(s), w)
      case Park(w) => PoppedBy(QueueOf(s), w)
      case Exit(w) => PoppedBy(QueueOf(s), w)
      case PushReleased(w) => Pushed(QueueOf(s), s.workers[w].released[0])
      case MainCloseQueue => ClosedNow(QueueOf(s))
      case _ => QueueOf(s)
  {
    match a
    case MainWake =>
    case MainJoin =>
    case Cancel =>
    case MainCloseQueue =>
      WakeLeavesNoneParked(s.workers);
    case PushReleased(w) =>
      var workers := s.workers[w := Announcing(0, s.workers[w].released[1..])];
      OtherStepsLeaveParked(s.workers, w, workers[w]);
      WakeLeavesNoneParked(workers);
    case _ =>
      WorkerStepReplacesOne(p, s, a);
      OtherStepsLeaveParked(s.workers, a.w, Next(p, s, a).workers[a.w]);
  }

  lemma WorkerStepReplacesOne(p: Plan, s: System, a: Action)
    requires p.Valid() && Shape(p, s) && Enabled(s, a)
    requires !a.MainWake? && !a.MainCloseQueue? && !a.MainJoin? && !a.Cancel? && !a.PushReleased?
    ensures var t := Next(p, s, a);
      && a.w < |s.workers| == |t.workers| && !s.workers[a.w].Parked? && (t.workers[a.w].Parked? <==> a.Park?)
      && t.workers == s.workers[a.w := t.workers[a.w]] && t.closed == s.closed
      && t.queue == if a.Pop? then s.queue[1..] else s.queue
  {
  }

  /** The records and the queue with which a run starts. */
  method Prepare(p: Plan) returns (states: array<ProbeState>, queue: RunQueue)
    ensures fresh(states) && fresh(queue)
    ensures states[..] == InitialRecords(p)
    ensures queue.State() == QueueState(Roots(p, p.Size()), false, {})
  {
    states := new ProbeState[p.Size()](_ => ProbeState(0, None));
    queue := new RunQueue();
    for i := 0 to p.Size()
      invariant forall k :: 0 <= k < i ==> states[k] == InitialRecords(p)[k]
      invariant queue.State() == QueueState(Roots(p, i), false, {})
      invariant fresh(queue)
    {
      states[i] := ProbeState(|p.dependencies[i]|, None);
      if states[i].remainingDeps == 0 {
        queue.Push(i);
      }
    }
  }

  /** Decrements the counters of direct dependents, and collects those that reach zero. */
  method ReleaseDependents(states: array<ProbeState>, targets: seq<nat>) returns (released: seq<nat>)
    requires InRange(states[..], targets)
    modifies states
    ensures states[..] == Release(old(states[..]), targets).0
    ensures released == Release(old(states[..]), targets).1
  {
    released := [];
    var k := 0;
    while k < |targets|
      invariant 0 <= k <= |targets|
      invariant Release(old(states[..]), targets).0 == Release(states[..], targets[k..]).0
      invariant Release(old(states[..]), targets).1 == released + Release(states[..], targets[k..]).1
    {
      var d := targets[k];
      ghost var before := states[..];
      states[d] := states[d].(remainingDeps := states[d].remainingDeps - 1);
      assert states[..] == before[d := before[d].(remainingDeps := before[d].remainingDeps - 1)];
      assert targets[k..][1..] == targets[k + 1..];
      if states[d].remainingDeps == 0 {
        released := released + [d];
      }
      k := k + 1;
    }
  }

  /** One round of the cascade's loop, seen from the function. */
  lemma CascadeRound(p: Plan, states: seq<ProbeState>, stack: seq<nat>)
    requires p.Valid() && |states| == p.Size() && InRange(states, stack) && |stack| > 0
    ensures var id, rest := stack[|stack| - 1], stack[..|stack| - 1];
      if states[id].Final() then Cascade(p, states, stack) == Cascade(p, states, rest)
      else
        var s := states[id := states[id].(result := Some(Skipped))];
        var next := rest + Unfinalized(s, p.downstream[id]);
        && FinalCount(s) == FinalCount(states) + 1 <= |states|
        && Cascade(p, states, stack).0 == Cascade(p, s, next).0
        && Cascade(p, states, stack).1 == Cascade(p, s, next).1 + 1
  {
    var id := stack[|stack| - 1];
    if !states[id].Final() {
      SumByUpdate(states, id, states[id].(result := Some(Skipped)), FinalFlag);
      FinalCountBounds(states[id := states[id].(result := Some(Skipped))]);
    }
  }

  /** The depth-first skip of all transitive dependents of `seeds`, with an explicit stack. */
  method CascadeSkip(p: Plan, states: array<ProbeState>, seeds: seq<nat>) returns (count: nat)
    requires p.Valid() && states.Length == p.Size() && InRange(states[..], seeds)
    modifies states
    ensures states[..] == Cascade(p, old(states[..]), seeds).0
    ensures count == Cascade(p, old(states[..]), seeds).1
  {
    count := 0;
    var stack := seeds;
    while |stack| > 0
      invariant InRange(states[..], stack)
      invariant Cascade(p, old(states[..]), seeds).0 == Cascade(p, states[..], stack).0
      invariant Cascade(p, old(states[..]), seeds).1 == count + Cascade(p, states[..], stack).1
      decreases states.Length - FinalCount(states[..]), |stack|
    {
      var id := stack[|stack| - 1];
      CascadeRound(p, states[..], stack);
      stack := stack[..|stack| - 1];
      if !states[id].Final() {
        ghost var before := states[..];
        states[id] := states[id].(result := Some(Skipped));
        assert states[..] == before[id := before[id].(result := Some(Skipped))];
        count := count + 1;
        stack := PushUnfinalized(states, stack, p.downstream[id]);
      }
    }
  }

  /** Pushes the targets that are not finalized, in order. */
  method PushUnfinalized(states: array<ProbeState>, stack: seq<nat>, targets: seq<nat>) returns (r: seq<nat>)
    requires InRange(states[..], targets)
    ensures r == stack + Unfinalized(states[..], targets)
  {
    r := stack;
    var k := 0;
    while k < |targets|
      invariant 0 <= k <= |targets|
      invariant r + Unfinalized(states[..], targets[k..]) == stack + Unfinalized(states[..], targets)
    {
      assert targets[k..][1..] == targets[k + 1..];
      if !states[targets[k]].Final() {
        Associative(r, [targets[k]], Unfinalized(states[..], targets[k + 1..]));
        r := r + [targets[k]];
      }
      k := k + 1;
    }
  }

  /** The locked segment of recordFinal; a record that is already final is left alone. */
  method RecordFinalLocked(p: Plan, states: array<ProbeState>, id: nat, status: ProbeStatus)
    returns (recorded: bool, released: seq<nat>, skipped: nat)
    requires p.Valid() && states.Length == p.Size() && id < p.Size()
    modifies states
    ensures recorded == !old(states[id].Final())
    ensures recorded ==> var settled := Settle(p, old(states[..]), id, status);
                         states[..] == settled.0 && released == settled.1 && skipped == settled.2
    ensures !recorded ==> states[..] == old(states[..]) && released == [] && skipped == 0
  {
    released, skipped := [], 0;
    if states[id].Final() {
      return false, released, skipped;
    }
    recorded := true;
    states[id] := states[id].(result := Some(status));
    assert states[..] == old(states[..])[id := old(states[..])[id].(result := Some(status))];
    if status == Succeeded {
      released := ReleaseDependents(states, p.downstream[id]);
    } else {
      skipped := CascadeSkip(p, states, p.downstream[id]);
    }
  }

  /** The results in registration order. */
  method Collect(states: array<ProbeState>) returns (out: seq<ProbeStatus>)
    ensures out == Outcomes(states[..])
  {
    out := [];
    for i := 0 to states.Length
      invariant out == Outcomes(states[..])[..i]
    {
      out := out + [if states[i].Final() then states[i].result.value else Skipped];
    }
  }
}
