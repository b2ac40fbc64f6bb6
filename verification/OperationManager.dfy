/**
 The concurrent operation manager as interleaved steps. One event is one
 critical section (of the queue lock, the operation lock, or one file lock);
 events of workers, submitters and cancellers interleave freely.
 Memory pressure and locks held by other processes answer arbitrarily.
 */
module OperationManager {
  import opened OperationQueue

  /** Where a worker stands in its loop, and which operation it has in hand. */
  datatype Phase =
    | Idle
    | Held(op: Operation)                               // dequeued
    | Checking(op: Operation, next: nat)                // memory was fine; paths before `next` were free
    | Acquiring(op: Operation, next: nat)               // registered as running; paths before `next` acquired
    | Undoing(op: Operation, taken: nat, next: nat)     // a path was refused; releasing paths before `taken`
    | Unregistering(op: Operation)
    | Returning(op: Operation)                          // to be enqueued again
    | Dropped(op: Operation)                            // enqueue refused it; not yet counted as finished
    | Executing(op: Operation)
    | Releasing(op: Operation, next: nat)
    | Finishing(op: Operation)
  {
    predicate Busy() { !Idle? }

    /** In the section from the first look at the locks to the last acquisition. */
    predicate Starting() { Checking? || Acquiring? || Undoing? }

    /** The locks this worker took and has not released. */
    function Locks(): set<string> {
      match this
      case Acquiring(op, next) => PathsIn(op, 0, next)
      case Undoing(op, taken, next) => PathsIn(op, next, taken)
      case Executing(op) => PathsIn(op, 0, |op.paths|)
      case Releasing(op, next) => PathsIn(op, next, |op.paths|)
      case _ => {}
    }
  }

  function PathsIn(op: Operation, lo: nat, hi: nat): set<string> {
    set i: nat | lo <= i < hi && i < |op.paths| :: op.paths[i]
  }

  datatype End = Completed | Failed | Cancelled | Refused

  datatype State = State(
    queue: Queue,
    phases: seq<Phase>,
    running: map<string, Operation>,
    pending: int,
    locks: set<string>,             // `_file_handles`: held by some worker of this process
    submitting: bool,               // a submitter holds the operation lock between enqueue and count
    uncounted: nat,                 // cancelled operations whose cancellers have not yet counted them
    accepted: set<string>,          // history: ids whose submission was accepted
    calls: multiset<string>,        // history: callbacks entered
    ends: multiset<(string, End)>)  // history: how operations ended

  datatype Event =
    | Submit(op: Operation)         // lock, enqueue; on refusal unlock
    | CountSubmitted                // increment, unlock
    | Cancel(id: string)            // `queue.remove`
    | CountCancelled                // `_mark_operation_finished` of a canceller
    | Shutdown
    | Dequeue(w: nat)
    | CheckMemory(w: nat, ok: bool)
    | CheckPath(w: nat, free: bool)
    | Register(w: nat)
    | Acquire(w: nat, ok: bool)
    | StartCallback(w: nat)
    | Undo(w: nat)
    | Unregister(w: nat)
    | Requeue(w: nat)
    | CountDropped(w: nat)
    | EndCallback(w: nat, end: End)
    | Release(w: nat)
    | Finish(w: nat)

  /** Whether the event can be the next one. */
  ghost predicate Enabled(s: State, e: Event) {
    match e
    case Submit(_) => !s.submitting
    case CountSubmitted => s.submitting
    case Cancel(_) => true
    case CountCancelled => !s.submitting && s.uncounted > 0
    case Shutdown => true
    case Dequeue(w) => w < |s.phases| && s.phases[w].Idle? && s.queue.entries != []
    case CheckMemory(w, _) => w < |s.phases| && s.phases[w].Held?
    case CheckPath(w, free) =>
      && w < |s.phases| && s.phases[w].Checking? && s.phases[w].next < |s.phases[w].op.paths|
      && (free ==> s.phases[w].op.paths[s.phases[w].next] !in s.locks)
    case Register(w) =>
      && !s.submitting && w < |s.phases| && s.phases[w].Checking?
      && s.phases[w].next == |s.phases[w].op.paths|
    case Acquire(w, ok) =>
      && w < |s.phases| && s.phases[w].Acquiring? && s.phases[w].next < |s.phases[w].op.paths|
      && (!ok ==> s.phases[w].op.paths[s.phases[w].next] !in s.locks)
    case StartCallback(w) =>
      w < |s.phases| && s.phases[w].Acquiring? && s.phases[w].next == |s.phases[w].op.paths|
    case Undo(w) => w < |s.phases| && s.phases[w].Undoing?
    case Unregister(w) => !s.submitting && w < |s.phases| && s.phases[w].Unregistering?
    case Requeue(w) => w < |s.phases| && s.phases[w].Returning?
    case CountDropped(w) => !s.submitting && w < |s.phases| && s.phases[w].Dropped?
    case EndCallback(w, end) =>
      w < |s.phases| && s.phases[w].Executing? && (end.Completed? || end.Failed?)
    case Release(w) => w < |s.phases| && s.phases[w].Releasing?
    case Finish(w) => !s.submitting && w < |s.phases| && s.phases[w].Finishing?
  }

  function Max0(n: int): int { if n < 0 then 0 else n }

  function Apply(s: State, e: Event): State
    requires Enabled(s, e)
  {
    match e
    case Submit(op) =>
      if s.queue.Accepts(op)
      then s.(queue := s.queue.Enqueue(op), submitting := true, accepted := s.accepted + {op.id})
      else s
    case CountSubmitted => s.(pending := s.pending + 1, submitting := false)
    case Cancel(id) =>
      if id in s.queue.Ids()
      then s.(queue := s.queue.Remove(id), uncounted := s.uncounted + 1, ends := s.ends + multiset{(id, Cancelled)})
      else s
    case CountCancelled => s.(pending := Max0(s.pending - 1), uncounted := s.uncounted - 1)
    case Shutdown => s.(queue := s.queue.(closed := true))
    case Dequeue(w) => s.(queue := s.queue.Dequeue(), phases := s.phases[w := Held(s.queue.entries[0].op)])
    case CheckMemory(w, ok) =>
      var op := s.phases[w].op;
      s.(phases := s.phases[w := if ok then Checking(op, 0) else Returning(op)])
    case CheckPath(w, free) =>
      var p := s.phases[w];
      s.(phases := s.phases[w := if free then Checking(p.op, p.next + 1) else Returning(p.op)])
    case Register(w) =>
      var op := s.phases[w].op;
      s.(phases := s.phases[w := Acquiring(op, 0)], running := s.running[op.id := op])
    case Acquire(w, ok) =>
      var p := s.phases[w];
      if ok
      then s.(phases := s.phases[w := Acquiring(p.op, p.next + 1)], locks := s.locks + {p.op.paths[p.next]})
      else s.(phases := s.phases[w := Undoing(p.op, p.next, 0)])
    case StartCallback(w) =>
      var op := s.phases[w].op;
      // An empty list of acquired locks counts as a failure.
      if op.paths == []
      then s.(phases := s.phases[w := Unregistering(op)])
      else s.(phases := s.phases[w := Executing(op)], calls := s.calls + multiset{op.id})
    case Undo(w) =>
      var p := s.phases[w];
      if p.next < p.taken && p.next < |p.op.paths|
      then s.(phases := s.phases[w := Undoing(p.op, p.taken, p.next + 1)], locks := s.locks - {p.op.paths[p.next]})
      else s.(phases := s.phases[w := Unregistering(p.op)])
    case Unregister(w) =>
      var op := s.phases[w].op;
      s.(phases := s.phases[w := Returning(op)], running := s.running - {op.id})
    case Requeue(w) =>
      var op := s.phases[w].op;
      if s.queue.Accepts(op)
      then s.(queue := s.queue.Enqueue(op), phases := s.phases[w := Idle])
      else s.(phases := s.phases[w := Dropped(op)], ends := s.ends + multiset{(op.id, Refused)})
    case CountDropped(w) => s.(pending := Max0(s.pending - 1), phases := s.phases[w := Idle])
    case EndCallback(w, end) =>
      var op := s.phases[w].op;
      s.(phases := s.phases[w := Releasing(op, 0)], ends := s.ends + multiset{(op.id, end)})
    case Release(w) =>
      var p := s.phases[w];
      if p.next < |p.op.paths|
      then s.(phases := s.phases[w := Releasing(p.op, p.next + 1)], locks := s.locks - {p.op.paths[p.next]})
      else s.(phases := s.phases[w := Finishing(p.op)])
    case Finish(w) =>
      s.(phases := s.phases[w := Idle], running := s.running - {s.phases[w].op.id}, pending := Max0(s.pending - 1))
  }

  function Initial(workers: nat, maxSize: nat): State {
    State(Queue([], 0, false, maxSize), seq(workers, _ => Idle), map[], 0, {}, false, 0, {}, multiset{}, multiset{})
  }

  /** Accepted ids are distinct: no submission reuses the id of an accepted one. */
  ghost predicate FreshIds(s: State, e: Event) {
    e.Submit? ==> e.op.id !in s.accepted
  }

  /** `events` is a run from `s`. */
  ghost predicate IsRun(s: State, events: seq<Event>)
    decreases |events|
  {
    events != [] ==> Enabled(s, events[0]) && IsRun(Apply(s, events[0]), events[1..])
  }

  /** Every submission of the run has a fresh id. */
  ghost predicate HasFreshIds(s: State, events: seq<Event>)
    requires IsRun(s, events)
    decreases |events|
  {
    events != [] ==> FreshIds(s, events[0]) && HasFreshIds(Apply(s, events[0]), events[1..])
  }

  ghost function After(s: State, events: seq<Event>): State
    requires IsRun(s, events)
    decreases |events|
  {
    if events == [] then s else After(Apply(s, events[0]), events[1..])
  }

  // -------------------------------------------------- pending-count conservation

  function BusyCount(phases: seq<Phase>): nat {
    if phases == [] then 0 else (if phases[0].Busy() then 1 else 0) + BusyCount(phases[1..])
  }

  lemma {:induction false} BusyAfterStep(phases: seq<Phase>, w: nat, p: Phase)
    requires w < |phases|
    ensures BusyCount(phases[w := p])
         == BusyCount(phases) + (if p.Busy() then 1 else 0) - (if phases[w].Busy() then 1 else 0)
  {
    if w == 0 {
      assert phases[w := p][1..] == phases[1..];
    } else {
      assert phases[w := p][1..] == phases[1..][w - 1 := p];
      BusyAfterStep(phases[1..], w - 1, p);
    }
  }

  lemma {:induction false} SomeBusy(phases: seq<Phase>, w: nat)
    requires w < |phases| && phases[w].Busy()
    ensures BusyCount(phases) > 0
  {
    if w > 0 { SomeBusy(phases[1..], w - 1); }
  }

  lemma {:induction false} NoneBusy(phases: seq<Phase>)
    requires BusyCount(phases) == 0
    ensures forall w | 0 <= w < |phases| :: phases[w].Idle?
  {
    if phases != [] { NoneBusy(phases[1..]); }
  }

  /** Queued, in a worker's hands, or cancelled but not yet counted. */
  function Outstanding(s: State): nat {
    |s.queue.entries| + BusyCount(s.phases) + s.uncounted
  }

  ghost predicate Conserved(s: State) {
    s.pending + (if s.submitting then 1 else 0) == Outstanding(s)
  }

  /** The event decrements the count behind the `max(0, ...)` clamp. */
  predicate Decrements(e: Event) { e.CountCancelled? || e.CountDropped? || e.Finish? }

  /** The worker whose phase the event changes. */
  predicate OfWorker(e: Event) {
    !(e.Submit? || e.CountSubmitted? || e.Cancel? || e.CountCancelled? || e.Shutdown?)
  }

  /** How many operations the event takes out of all hands, or brings in. */
  lemma WorkerStepConserves(s: State, e: Event)
    requires Enabled(s, e) && OfWorker(e) && s.queue.Valid()
    ensures var t := Apply(s, e);
            && t.queue.Valid() && t.submitting == s.submitting && t.uncounted == s.uncounted
            && (e.CountDropped? || e.Finish? ==> Outstanding(s) > 0 && t.pending == Max0(s.pending - 1))
            && (!(e.CountDropped? || e.Finish?) ==> t.pending == s.pending)
            && Outstanding(t) == Outstanding(s) - (if e.CountDropped? || e.Finish? then 1 else 0)
  {
    hide BusyCount, Insert, Without, Queue.Valid, Queue.Ids, Queue.Contents;
    BusyAfterStep(s.phases, e.w, Apply(s, e).phases[e.w]);
    if s.phases[e.w].Busy() {
      SomeBusy(s.phases, e.w);
    }
    if e.Dequeue? {
      DequeueKeepsValid(s.queue);
    }
    if e.Requeue? {
      EnqueueKeepsValid(s.queue, s.phases[e.w].op);
    }
  }

  lemma StepConserves(s: State, e: Event)
    requires Enabled(s, e) && s.queue.Valid() && Conserved(s)
    ensures Apply(s, e).queue.Valid() && Conserved(Apply(s, e))
    ensures Decrements(e) ==> s.pending > 0
  {
    if OfWorker(e) {
      WorkerStepConserves(s, e);
    } else if e.Submit? {
      EnqueueKeepsValid(s.queue, e.op);
    } else if e.Cancel? {
      RemoveKeepsValid(s.queue, e.id);
    }
  }

  lemma {:induction false} AllIdle(workers: nat)
    ensures BusyCount(Initial(workers, 0).phases) == 0
  {
    if workers > 0 {
      AllIdle(workers - 1);
      assert Initial(workers, 0).phases[1..] == Initial(workers - 1, 0).phases;
    }
  }

  lemma {:induction false} RunConserves(s: State, events: seq<Event>)
    requires IsRun(s, events) && s.queue.Valid() && Conserved(s)
    ensures After(s, events).queue.Valid() && Conserved(After(s, events))
    decreases |events|
  {
    if events != [] {
      StepConserves(s, events[0]);
      RunConserves(Apply(s, events[0]), events[1..]);
    }
  }

  /**
   In every reachable interleaving the pending count is exact outside a
   submitter's critical section, and the clamp never acts.
   */
  lemma PendingIsExact(workers: nat, maxSize: nat, events: seq<Event>)
    requires IsRun(Initial(workers, maxSize), events)
    ensures var s := After(Initial(workers, maxSize), events);
            && (!s.submitting ==> s.pending == Outstanding(s))
            && (forall e | Enabled(s, e) && Decrements(e) :: Max0(s.pending - 1) == s.pending - 1)
  {
    AllIdle(workers);
    assert Initial(workers, maxSize).phases == Initial(workers, 0).phases;
    RunConserves(Initial(workers, maxSize), events);
    var s := After(Initial(workers, maxSize), events);
    forall e | Enabled(s, e) && Decrements(e)
      ensures Max0(s.pending - 1) == s.pending - 1
    {
      StepConserves(s, e);
    }
  }

  /** `wait_until_idle` sees the count with the operation lock held; zero means nothing is left. */
  lemma IdleMeansIdle(workers: nat, maxSize: nat, events: seq<Event>)
    requires IsRun(Initial(workers, maxSize), events)
    ensures var s := After(Initial(workers, maxSize), events);
            !s.submitting ==>
              (s.pending <= 0 <==> s.queue.entries == [] && s.uncounted == 0 && forall w | 0 <= w < |s.phases| ::
               s.phases[w].Idle?)
  {
    PendingIsExact(workers, maxSize, events);
    var s := After(Initial(workers, maxSize), events);
    if BusyCount(s.phases) == 0 {
      NoneBusy(s.phases);
    } else {
      BusyHasWitness(s.phases);
    }
  }

  lemma {:induction false} BusyHasWitness(phases: seq<Phase>)
    requires BusyCount(phases) > 0
    ensures exists w :: 0 <= w < |phases| && phases[w].Busy()
  {
    if !phases[0].Busy() {
      BusyHasWitness(phases[1..]);
      var w :| 0 <= w < |phases| - 1 && phases[1..][w].Busy();
      assert phases[w + 1].Busy();
    }
  }

  // ---------------------------------------------------------- at-most-once calls

  function EndCount(ends: multiset<(string, End)>, id: string): nat {
    ends[(id, Completed)] + ends[(id, Failed)] + ends[(id, Cancelled)] + ends[(id, Refused)]
  }

  /** The callback may still be entered. */
  predicate BeforeCall(p: Phase) {
    p.Held? || p.Checking? || p.Acquiring? || p.Undoing? || p.Unregistering? || p.Returning?
  }

  /** The operation is in hand and its end has not been recorded. */
  predicate Open(p: Phase) { BeforeCall(p) || p.Executing? }

  /** The operation is listed in `_running_operations`. */
  predicate Registered(p: Phase) {
    p.Acquiring? || p.Undoing? || p.Unregistering? || p.Executing? || p.Releasing? || p.Finishing?
  }

  /** An accepted operation is queued, or in exactly one worker's hands, or neither. */
  ghost predicate Located(queued: set<string>, accepted: set<string>, phases: seq<Phase>, running: set<string>) {
    && queued <= accepted
    && (forall w | 0 <= w < |phases| && phases[w].Busy() :: phases[w].op.id in accepted - queued)
    && (forall v, w | 0 <= v < w < |phases| && phases[v].Busy() && phases[w].Busy() ::
        phases[v].op.id != phases[w].op.id)
    && (forall w | 0 <= w < |phases| && Registered(phases[w]) :: phases[w].op.id in running)
  }

  ghost predicate AtMostOnce(ends: multiset<(string, End)>, calls: multiset<string>) {
    forall id :: EndCount(ends, id) <= 1 && ends[(id, Completed)] + ends[(id, Failed)] <= calls[id] <= 1
  }

  /** No end and no call is recorded for what is not accepted, queued, or still open in a hand. */
  ghost predicate Pristine(
    queued: set<string>, accepted: set<string>, phases: seq<Phase>, ends: multiset<(string, End)>,
    calls: multiset<string>)
  {
    && (forall id | id !in accepted || id in queued :: EndCount(ends, id) == 0 && calls[id] == 0)
    && (forall w | 0 <= w < |phases| && Open(phases[w]) ::
          EndCount(ends, phases[w].op.id) == 0 && calls[phases[w].op.id] == (if BeforeCall(phases[w]) then 0 else 1))
  }

  ghost predicate Tracked(s: State) {
    && s.queue.Valid()
    && Located(s.queue.Ids(), s.accepted, s.phases, s.running.Keys)
    && AtMostOnce(s.ends, s.calls)
    && Pristine(s.queue.Ids(), s.accepted, s.phases, s.ends, s.calls)
  }

  lemma RecordsEnd(ends: multiset<(string, End)>, id: string, end: End)
    ensures forall other ::
            EndCount(ends + multiset{(id, end)}, other) == EndCount(ends, other) + (if other == id then 1 else 0)
  {
  }

  /** A worker that keeps its operation in hand, or puts it down, after its end is recorded. */
  lemma HandKeepsPlaces(s: State, t: State, w: nat, p: Phase)
    requires Tracked(s) && w < |s.phases| && s.phases[w].Busy() && t.phases == s.phases[w := p]
    requires t.queue == s.queue && t.accepted == s.accepted
    requires p.Busy() ==> p.op == s.phases[w].op
    requires t.running.Keys - {s.phases[w].op.id} == s.running.Keys - {s.phases[w].op.id}
    requires Registered(p) ==> p.op.id in t.running
    ensures Located(t.queue.Ids(), t.accepted, t.phases, t.running.Keys)
  {
    var id := s.phases[w].op.id;
    forall v | 0 <= v < |t.phases| && Registered(t.phases[v])
      ensures t.phases[v].op.id in t.running.Keys
    {
      if v != w {
        assert t.phases[v] == s.phases[v] && s.phases[v].op.id in s.running.Keys - {id};
      }
    }
  }

  /** Nothing is recorded. */
  lemma SilentStep(s: State, t: State, w: nat, p: Phase)
    requires Tracked(s) && w < |s.phases| && s.phases[w].Busy() && t.phases == s.phases[w := p]
    requires t.queue == s.queue && t.accepted == s.accepted && t.ends == s.ends && t.calls == s.calls
    requires p.Busy() ==> p.op == s.phases[w].op
    requires t.running.Keys - {s.phases[w].op.id} == s.running.Keys - {s.phases[w].op.id}
    requires Registered(p) ==> p.op.id in t.running
    requires (BeforeCall(p) ==> BeforeCall(s.phases[w])) && !p.Executing?
    ensures Tracked(t)
  {
    HandKeepsPlaces(s, t, w, p);
  }

  /** A callback is entered. */
  lemma CallStep(s: State, t: State, w: nat, p: Phase)
    requires Tracked(s) && w < |s.phases| && BeforeCall(s.phases[w]) && p == Executing(s.phases[w].op)
    requires t == s.(phases := s.phases[w := p], calls := s.calls + multiset{p.op.id}) && p.op.id in s.running
    ensures Tracked(t)
  {
    HandKeepsPlaces(s, t, w, p);
    assert forall id :: t.calls[id] == s.calls[id] + (if id == p.op.id then 1 else 0);
  }

  /** An end is recorded for the operation in hand. */
  lemma EndStep(s: State, t: State, w: nat, p: Phase, end: End)
    requires Tracked(s) && w < |s.phases| && Open(s.phases[w]) && p.Busy() && !Open(p) && p.op == s.phases[w].op
    requires t == s.(phases := s.phases[w := p], ends := s.ends + multiset{(p.op.id, end)})
    requires Registered(p) ==> p.op.id in s.running
    requires end.Refused? || s.phases[w].Executing?
    ensures Tracked(t)
  {
    HandKeepsPlaces(s, t, w, p);
    RecordsEnd(s.ends, p.op.id, end);
  }

  /** An operation moves from the queue into a free hand. */
  lemma TakeStep(s: State, w: nat)
    requires Tracked(s) && Enabled(s, Event.Dequeue(w))
    ensures Tracked(Apply(s, Event.Dequeue(w)))
  {
    hide Before, Insert, Without;
    DequeueKeepsValid(s.queue);
    assert s.queue.entries[0].op.id in s.queue.Ids();
  }

  lemma PutBackPlaces(queued: set<string>, accepted: set<string>, phases: seq<Phase>, running: set<string>, w: nat)
    requires Located(queued, accepted, phases, running) && w < |phases| && phases[w].Busy()
    ensures Located(queued + {phases[w].op.id}, accepted, phases[w := Idle], running)
  {
    var after := phases[w := Idle];
    forall v | 0 <= v < |after| && after[v].Busy()
      ensures after[v] == phases[v] && phases[v].op.id != phases[w].op.id
    {
      assert v < w || w < v;
    }
  }

  lemma PutBackPristine(
    queued: set<string>, accepted: set<string>, phases: seq<Phase>, ends: multiset<(string, End)>,
      calls: multiset<string>,
    w: nat)
    requires Pristine(queued, accepted, phases, ends, calls) && w < |phases| && BeforeCall(phases[w])
    ensures Pristine(queued + {phases[w].op.id}, accepted, phases[w := Idle], ends, calls)
  {
    hide EndCount;
  }

  /** An operation moves from a hand back into the queue. */
  lemma PutBackStep(s: State, w: nat)
    requires Tracked(s) && Enabled(s, Requeue(w)) && s.queue.Accepts(s.phases[w].op)
    ensures Tracked(Apply(s, Requeue(w)))
  {
    hide Located, Pristine, AtMostOnce, Insert, Queue.Valid, Queue.Ids, Queue.Accepts;
    EnqueueKeepsValid(s.queue, s.phases[w].op);
    PutBackPlaces(s.queue.Ids(), s.accepted, s.phases, s.running.Keys, w);
    PutBackPristine(s.queue.Ids(), s.accepted, s.phases, s.ends, s.calls, w);
  }

  /** Events that list or unlist the operation as running. */
  lemma RunningStep(s: State, e: Event)
    requires Enabled(s, e) && (e.Register? || e.Unregister? || e.Finish?) && Tracked(s)
    ensures Tracked(Apply(s, e))
  {
    var t, w := Apply(s, e), e.w;
    assert t.running.Keys - {s.phases[w].op.id} == s.running.Keys - {s.phases[w].op.id};
    SilentStep(s, t, w, t.phases[w]);
  }

  lemma RegisteredRuns(s: State, w: nat)
    requires Tracked(s) && w < |s.phases| && Registered(s.phases[w])
    ensures s.phases[w].op.id in s.running
  {
  }

  /** Events that only move the worker on, or touch the locks. */
  lemma QuietStep(s: State, e: Event)
    requires Enabled(s, e) && Tracked(s)
    requires e.CheckMemory? || e.CheckPath? || e.Acquire? || e.Undo? || e.Release? || e.CountDropped?
    ensures Tracked(Apply(s, e))
  {
    hide Tracked, Located, AtMostOnce, Pristine, Insert, Without, Queue.Valid, Queue.Ids, PathsIn;
    var t, w := Apply(s, e), e.w;
    if Registered(s.phases[w]) { RegisteredRuns(s, w); }
    SilentStep(s, t, w, t.phases[w]);
  }

  lemma StartStep(s: State, w: nat)
    requires Tracked(s) && Enabled(s, StartCallback(w))
    ensures Tracked(Apply(s, StartCallback(w)))
  {
    var t, op := Apply(s, StartCallback(w)), s.phases[w].op;
    if op.paths == [] { SilentStep(s, t, w, Unregistering(op)); } else { CallStep(s, t, w, Executing(op)); }
  }

  lemma RefuseStep(s: State, w: nat)
    requires Tracked(s) && Enabled(s, Requeue(w)) && !s.queue.Accepts(s.phases[w].op)
    ensures Tracked(Apply(s, Requeue(w)))
  {
    EndStep(s, Apply(s, Requeue(w)), w, Dropped(s.phases[w].op), Refused);
  }

  lemma FinishCallStep(s: State, w: nat, end: End)
    requires Tracked(s) && Enabled(s, EndCallback(w, end))
    ensures Tracked(Apply(s, EndCallback(w, end)))
  {
    EndStep(s, Apply(s, EndCallback(w, end)), w, Releasing(s.phases[w].op, 0), end);
  }

  lemma WorkerStepTracks(s: State, e: Event)
    requires Enabled(s, e) && OfWorker(e) && Tracked(s)
    ensures Tracked(Apply(s, e))
  {
    if e.Dequeue? { TakeStep(s, e.w); }
    else if e.Requeue? { if s.queue.Accepts(s.phases[e.w].op) { PutBackStep(s, e.w); } else { RefuseStep(s, e.w); } }
    else if e.EndCallback? { FinishCallStep(s, e.w, e.end); }
    else if e.StartCallback? { StartStep(s, e.w); }
    else if e.Register? || e.Unregister? || e.Finish? { RunningStep(s, e); }
    else { QuietStep(s, e); }
  }

  lemma SubmitTracks(s: State, op: Operation)
    requires Tracked(s) && op.id !in s.accepted && s.queue.Accepts(op) && !s.submitting
    ensures Tracked(Apply(s, Submit(op)))
  {
    EnqueueKeepsValid(s.queue, op);
  }

  lemma CancelTracks(s: State, id: string)
    requires Tracked(s)
    ensures Tracked(Apply(s, Cancel(id)))
  {
    RemoveKeepsValid(s.queue, id);
    RecordsEnd(s.ends, id, Cancelled);
    if id in s.queue.Ids() {
      assert EndCount(s.ends, id) == 0;
    }
  }

  lemma StepTracks(s: State, e: Event)
    requires Enabled(s, e) && FreshIds(s, e) && Tracked(s)
    ensures Tracked(Apply(s, e))
  {
    if OfWorker(e) {
      WorkerStepTracks(s, e);
    } else if e.Submit? && s.queue.Accepts(e.op) {
      SubmitTracks(s, e.op);
    } else if e.Cancel? {
      CancelTracks(s, e.id);
    } else if e.Shutdown? {
      assert Apply(s, e).queue.Ids() == s.queue.Ids();
    }
  }

  lemma {:induction false} RunTracks(s: State, events: seq<Event>)
    requires IsRun(s, events) && HasFreshIds(s, events) && Tracked(s)
    ensures Tracked(After(s, events))
    decreases |events|
  {
    if events != [] {
      StepTracks(s, events[0]);
      RunTracks(Apply(s, events[0]), events[1..]);
    }
  }

  lemma InitiallyTracked(workers: nat, maxSize: nat)
    ensures Tracked(Initial(workers, maxSize))
  {
    assert Initial(workers, maxSize).queue.Ids() == {};
  }

  /**
   In every run with distinct ids each callback is entered at most once, each
   operation ends at most once in all, and only an entered callback completes or
   fails. `del` on the running operations always finds its key.
   */
  lemma CallbacksRunAtMostOnce(workers: nat, maxSize: nat, events: seq<Event>)
    requires IsRun(Initial(workers, maxSize), events) && HasFreshIds(Initial(workers, maxSize), events)
    ensures var s := After(Initial(workers, maxSize), events);
            && AtMostOnce(s.ends, s.calls)
            && (forall w: nat | Enabled(s, Unregister(w)) :: s.phases[w].op.id in s.running)
  {
    hide IsRun, After, HasFreshIds, Initial;
    InitiallyTracked(workers, maxSize);
    RunTracks(Initial(workers, maxSize), events);
    TrackedMeans(After(Initial(workers, maxSize), events));
  }

  lemma TrackedMeans(s: State)
    requires Tracked(s)
    ensures AtMostOnce(s.ends, s.calls)
    ensures forall w: nat | Enabled(s, Unregister(w)) :: s.phases[w].op.id in s.running
  {
  }

  /** The worker has the operation in hand, and its end has not been recorded. */
  predicate Holds(s: State, w: nat, id: string) {
    w < |s.phases| && Open(s.phases[w]) && s.phases[w].op.id == id
  }

  /** The operation is queued, or open in some worker's hand. */
  ghost predicate Waiting(s: State, id: string) {
    id in s.queue.Ids() || exists w: nat :: Holds(s, w, id)
  }

  lemma WaitingStays(s: State, e: Event, id: string)
    requires Enabled(s, e) && s.queue.Valid() && Waiting(s, id) && EndCount(Apply(s, e).ends, id) == 0
    ensures Waiting(Apply(s, e), id)
  {
    hide Enabled, Apply, Queue.Ids, Queue.Valid, EndCount, Holds;
    if id in s.queue.Ids() {
      QueuedStays(s, e, id);
    } else {
      var v: nat :| Holds(s, v, id);
      if TurnOf(e, v) { HeldStays(s, e, v, id); } else { StaysHeld(s, e, v, id); }
    }
  }

  lemma StaysHeld(s: State, e: Event, v: nat, id: string)
    requires Enabled(s, e) && Holds(s, v, id) && !TurnOf(e, v)
    ensures Holds(Apply(s, e), v, id)
  {
    hide Enabled, Apply;
    OtherHands(s, e, v);
  }

  lemma QueuedStays(s: State, e: Event, id: string)
    requires Enabled(s, e) && s.queue.Valid() && id in s.queue.Ids() && EndCount(Apply(s, e).ends, id) == 0
    ensures Waiting(Apply(s, e), id)
  {
    hide Queue.Valid, Queue.Ids, PathsIn, Insert, Without, EndCount, Queue.Accepts;
    match e {
      case Submit(op) => if s.queue.Accepts(op) { EnqueueKeepsValid(s.queue, op); }
      case Cancel(c) =>
        RemoveKeepsValid(s.queue, c);
        RecordsEnd(s.ends, c, Cancelled);
      case Dequeue(w) =>
        DequeueKeepsValid(s.queue);
        if id == s.queue.entries[0].op.id { assert Holds(Apply(s, e), w, id); }
      case Requeue(w) =>
        if s.queue.Accepts(s.phases[w].op) { EnqueueKeepsValid(s.queue, s.phases[w].op); }
      case Shutdown => ClosedIds(s.queue);
      case _ =>
    }
  }

  lemma ClosedIds(q: Queue)
    ensures q.(closed := true).Ids() == q.Ids()
  {
  }

  lemma HeldStays(s: State, e: Event, w: nat, id: string)
    requires Enabled(s, e) && s.queue.Valid() && TurnOf(e, w) && Holds(s, w, id)
    requires EndCount(Apply(s, e).ends, id) == 0
    ensures Waiting(Apply(s, e), id)
  {
    hide Queue.Valid, Queue.Ids, PathsIn, Insert, Without, EndCount, Queue.Accepts, Holds;
    if e.Requeue? {
      HeldIs(s, w, id);
      if s.queue.Accepts(s.phases[w].op) {
        EnqueueKeepsValid(s.queue, s.phases[w].op);
      } else {
        RecordsEnd(s.ends, id, Refused);
      }
    } else if e.EndCallback? {
      HeldIs(s, w, id);
      RecordsEnd(s.ends, id, e.end);
    } else {
      MovesOn(s, e, w, id);
    }
  }

  lemma HeldIs(s: State, w: nat, id: string)
    requires Holds(s, w, id)
    ensures w < |s.phases| && s.phases[w].Busy() && s.phases[w].op.id == id
  {
  }

  lemma MovesOn(s: State, e: Event, w: nat, id: string)
    requires Enabled(s, e) && TurnOf(e, w) && Holds(s, w, id) && !e.Requeue? && !e.EndCallback?
    ensures Holds(Apply(s, e), w, id)
  {
    hide Queue.Valid, Queue.Ids, PathsIn, Insert, Without, Queue.Accepts, Queue.Enqueue, Queue.Remove;
  }

  lemma AcceptedWaits(s: State, e: Event, id: string)
    requires Enabled(s, e) && s.queue.Valid() && id in Apply(s, e).accepted && id !in s.accepted
    ensures Waiting(Apply(s, e), id)
  {
    hide Queue.Valid, Queue.Ids, PathsIn, Insert, Without, Queue.Accepts;
    if e.Submit? && s.queue.Accepts(e.op) { EnqueueKeepsValid(s.queue, e.op); }
  }

  lemma EndsGrow(s: State, e: Event, id: string)
    requires Enabled(s, e)
    ensures EndCount(Apply(s, e).ends, id) >= EndCount(s.ends, id) && s.accepted <= Apply(s, e).accepted
  {
    hide Queue.Valid, Queue.Ids, PathsIn, Insert, Without, Queue.Accepts;
  }

  lemma {:induction false} NoneLost(s: State, events: seq<Event>, id: string)
    requires IsRun(s, events) && HasFreshIds(s, events) && Tracked(s)
    requires id in s.accepted && EndCount(s.ends, id) == 0 ==> Waiting(s, id)
    ensures var t := After(s, events); id in t.accepted && EndCount(t.ends, id) == 0 ==> Waiting(t, id)
    decreases |events|
  {
    hide Enabled, Apply, FreshIds, EndCount, Waiting, Located, AtMostOnce, Pristine, Queue.Valid;
    if events != [] {
      var e := events[0];
      StepTracks(s, e);
      EndsGrow(s, e, id);
      if id in Apply(s, e).accepted && EndCount(Apply(s, e).ends, id) == 0 {
        if id in s.accepted { WaitingStays(s, e, id); } else { AcceptedWaits(s, e, id); }
      }
      NoneLost(Apply(s, e), events[1..], id);
    }
  }

  /**
   No accepted operation is lost: it is queued or open in a hand as long as it has not ended, and
   once it has ended it is neither; so it ends exactly once or is still waiting.
   */
  lemma OperationsAreAccounted(workers: nat, maxSize: nat, events: seq<Event>, id: string)
    requires IsRun(Initial(workers, maxSize), events) && HasFreshIds(Initial(workers, maxSize), events)
    ensures var s := After(Initial(workers, maxSize), events);
            id in s.accepted ==>
              (EndCount(s.ends, id) == 0 <==> Waiting(s, id)) && (EndCount(s.ends, id) == 1 <==> !Waiting(s, id))
  {
    hide IsRun, After, HasFreshIds, EndCount, Waiting;
    InitiallyTracked(workers, maxSize);
    RunTracks(Initial(workers, maxSize), events);
    NoneLost(Initial(workers, maxSize), events, id);
    EndedIsGone(After(Initial(workers, maxSize), events), id);
  }

  lemma EndedIsGone(s: State, id: string)
    requires Tracked(s)
    ensures Waiting(s, id) ==> EndCount(s.ends, id) == 0
    ensures EndCount(s.ends, id) <= 1
  {
    hide EndCount, Open, BeforeCall;
    if w: nat :| Holds(s, w, id) { HeldIs(s, w, id); }
  }

  /** Putting an operation back fails only when the queue is full or shut down. */
  lemma RequeueFailsOnlyWhenFullOrClosed(workers: nat, maxSize: nat, events: seq<Event>, w: nat)
    requires IsRun(Initial(workers, maxSize), events) && HasFreshIds(Initial(workers, maxSize), events)
    requires Enabled(After(Initial(workers, maxSize), events), Requeue(w))
    ensures var q := After(Initial(workers, maxSize), events).queue;
            Apply(After(Initial(workers, maxSize), events), Requeue(w)).phases[w].Dropped? <==>
              q.closed || |q.entries| == q.maxSize
  {
    InitiallyTracked(workers, maxSize);
    RunTracks(Initial(workers, maxSize), events);
  }

  /** What can be in the queue after an event. */
  lemma EntriesFrom(s: State, ev: Event, e: Entry)
    requires Enabled(s, ev) && e in Apply(s, ev).queue.entries
    ensures || e in s.queue.entries
            || (ev.Submit? && e.op == ev.op)
            || (ev.Requeue? && e.op == s.phases[ev.w].op)
  {
    hide Queue.Valid, Queue.Ids, Before, Insert, Without;
    var q := s.queue;
    match ev
    case Submit(op) => Inserted(q.entries, Entry(op, q.clock), e);
    case Requeue(w) => Inserted(q.entries, Entry(s.phases[w].op, q.clock), e);
    case Cancel(id) => NothingNew(q.entries, id, e);
    case _ =>
  }

  lemma {:induction false} Inserted(entries: seq<Entry>, e: Entry, x: Entry)
    ensures x in Insert(entries, e) ==> x in entries || x == e
  {
    if entries != [] { Inserted(entries[1..], e, x); }
  }

  lemma {:induction false} NothingNew(entries: seq<Entry>, id: string, x: Entry)
    ensures x in Without(entries, id) ==> x in entries
  {
    if entries != [] { NothingNew(entries[1..], id, x); }
  }

  /** The operation has no paths wherever it is, and has not been called. */
  ghost predicate Pathless(s: State, id: string) {
    && s.calls[id] == 0
    && (forall e <- s.queue.entries | e.op.id == id :: e.op.paths == [])
    && (forall w | 0 <= w < |s.phases| && s.phases[w].Busy() && s.phases[w].op.id == id :: s.phases[w].op.paths == [])
  }

  lemma StepKeepsPathless(s: State, e: Event, id: string)
    requires Enabled(s, e) && Pathless(s, id) && (e.Submit? && e.op.id == id ==> e.op.paths == [])
    ensures Pathless(Apply(s, e), id)
  {
    hide Queue.Valid, Queue.Ids, Insert, Without, Enabled, Apply;
    forall x <- Apply(s, e).queue.entries | x.op.id == id
      ensures x.op.paths == []
    {
      EntriesFrom(s, e, x);
      if e.Requeue? { RequeuesHeld(s, e); }
    }
    forall w | 0 <= w < |Apply(s, e).phases| && Apply(s, e).phases[w].Busy() && Apply(s, e).phases[w].op.id == id
      ensures Apply(s, e).phases[w].op.paths == []
    {
      HandFrom(s, e, w);
    }
    CallsKeepPathless(s, e, id);
  }

  lemma RequeuesHeld(s: State, e: Event)
    requires e.Requeue? && Enabled(s, e)
    ensures e.w < |s.phases| && s.phases[e.w].Busy()
  {
    hide Queue.Valid, Queue.Ids;
  }

  /** The event is a turn of this worker. */
  predicate TurnOf(e: Event, w: nat) {
    !e.Submit? && !e.CountSubmitted? && !e.Cancel? && !e.CountCancelled? && !e.Shutdown? && e.w == w
  }

  lemma OtherHands(s: State, e: Event, v: nat)
    requires Enabled(s, e) && !TurnOf(e, v)
    ensures |Apply(s, e).phases| == |s.phases| && (v < |s.phases| ==> Apply(s, e).phases[v] == s.phases[v])
  {
    hide Queue.Valid, Queue.Ids, Queue.Accepts, Queue.Enqueue, Queue.Remove, Queue.Dequeue, Phase.Locks, PathsIn;
  }

  lemma OwnHand(s: State, e: Event, w: nat)
    requires Enabled(s, e) && TurnOf(e, w)
    ensures w < |s.phases| == |Apply(s, e).phases|
    ensures Apply(s, e).phases[w].Busy() ==>
              var op := Apply(s, e).phases[w].op;
              (s.phases[w].Busy() && op == s.phases[w].op)
              || (e.Dequeue? && s.queue.entries != [] && op == s.queue.entries[0].op)
  {
    hide Queue.Valid, Queue.Ids, Queue.Accepts, Queue.Enqueue, Queue.Remove, Queue.Dequeue, Phase.Locks, PathsIn;
  }

  /** What a worker has in hand after an event, it had before, or took from the queue. */
  lemma HandFrom(s: State, e: Event, w: nat)
    requires Enabled(s, e) && w < |Apply(s, e).phases| && Apply(s, e).phases[w].Busy()
    ensures w < |s.phases|
    ensures var op := Apply(s, e).phases[w].op;
            (s.phases[w].Busy() && op == s.phases[w].op) || (exists x <- s.queue.entries :: x.op == op)
  {
    hide Enabled, Apply;
    if TurnOf(e, w) {
      OwnHand(s, e, w);
      if s.queue.entries != [] { assert s.queue.entries[0] in s.queue.entries; }
    } else {
      OtherHands(s, e, w);
    }
  }

  lemma CallsKeepPathless(s: State, e: Event, id: string)
    requires Enabled(s, e) && Pathless(s, id)
    ensures Apply(s, e).calls[id] == 0
  {
    hide Queue.Valid, Queue.Ids, Queue.Enqueue, Queue.Remove, Queue.Dequeue;
  }

  /** An operation without paths is put back for ever: its callback is never entered. */
  lemma {:induction false} NoPathsNeverRuns(s: State, events: seq<Event>, id: string)
    requires IsRun(s, events) && Pathless(s, id)
    requires forall e <- events | e.Submit? && e.op.id == id :: e.op.paths == []
    ensures Pathless(After(s, events), id) && After(s, events).calls[id] == 0
    decreases |events|
  {
    hide Enabled, Apply, FreshIds;
    if events != [] {
      StepKeepsPathless(s, events[0], id);
      NoPathsNeverRuns(Apply(s, events[0]), events[1..], id);
    }
  }

  // ------------------------------------------------------------- path exclusion

  /** Check-then-acquire is one step: no worker enters the section while another is in it. */
  predicate EntersAlone(s: State, e: Event) {
    e.CheckMemory? && e.ok ==> forall w | 0 <= w < |s.phases| :: !s.phases[w].Starting()
  }

  predicate DistinctPaths(op: Operation) {
    forall i, j | 0 <= i < j < |op.paths| :: op.paths[i] != op.paths[j]
  }

  /** Submitted operations list each path once. */
  predicate NamesPathsOnce(e: Event) {
    e.Submit? ==> DistinctPaths(e.op)
  }

  predicate InBounds(p: Phase) {
    match p
    case Checking(op, next) => next <= |op.paths|
    case Acquiring(op, next) => next <= |op.paths|
    case Undoing(op, taken, next) => next <= taken <= |op.paths|
    case Releasing(op, next) => next <= |op.paths|
    case _ => true
  }

  /** Paths the worker has found free, or will acquire, while it is in the section. */
  function Claimed(p: Phase): set<string> {
    match p
    case Checking(op, next) => PathsIn(op, 0, next)
    case Acquiring(op, next) => PathsIn(op, next, |op.paths|)
    case _ => {}
  }

  /** The held locks are exactly, and without overlap, those the workers took. */
  ghost predicate Guarded(phases: seq<Phase>, locks: set<string>) {
    && (forall w | 0 <= w < |phases| :: InBounds(phases[w]) && (phases[w].Busy() ==> DistinctPaths(phases[w].op)))
    && (forall v, w | 0 <= v < w < |phases| :: !(phases[v].Starting() && phases[w].Starting()))
    && (forall v, w | 0 <= v < w < |phases| :: phases[v].Locks() !! phases[w].Locks())
    && (forall w | 0 <= w < |phases| :: phases[w].Locks() <= locks)
    && (forall p <- locks :: exists w :: 0 <= w < |phases| && p in phases[w].Locks())
    && (forall w | 0 <= w < |phases| :: Claimed(phases[w]) !! locks)
  }

  ghost predicate Exclusive(s: State) {
    (forall e <- s.queue.entries :: DistinctPaths(e.op)) && Guarded(s.phases, s.locks)
  }

  /** A worker that takes only free paths, and only in the section, disturbs nobody. */
  lemma GuardedStep(phases: seq<Phase>, locks: set<string>, w: nat, p: Phase, locks': set<string>)
    requires w < |phases| && Guarded(phases, locks)
    requires InBounds(p) && (p.Busy() ==> DistinctPaths(p.op))
    requires p.Starting() ==> phases[w].Starting() || forall v | 0 <= v < |phases| :: !phases[v].Starting()
    requires locks' == (locks - phases[w].Locks()) + p.Locks()
    requires p.Locks() - phases[w].Locks() !! locks
    requires p.Locks() <= phases[w].Locks() || phases[w].Starting()
    requires Claimed(p) !! locks'
    ensures Guarded(phases[w := p], locks')
  {
    var after := phases[w := p];
    forall path <- locks'
      ensures exists v :: 0 <= v < |after| && path in after[v].Locks()
    {
      if path in p.Locks() {
        assert after[w] == p;
      } else {
        var v :| 0 <= v < |phases| && path in phases[v].Locks();
        assert after[v] == phases[v];
      }
    }
    forall v | 0 <= v < |after|
      ensures after[v].Locks() <= locks' && Claimed(after[v]) !! locks'
    {
      if v != w {
        assert phases[v].Locks() !! phases[w].Locks();
        assert Claimed(phases[v]) != {} ==> phases[v].Starting();
      }
    }
  }

  lemma PathsSplit(op: Operation, lo: nat, k: nat, hi: nat)
    requires lo <= k < hi <= |op.paths| && DistinctPaths(op)
    ensures PathsIn(op, lo, k + 1) == PathsIn(op, lo, k) + {op.paths[k]}
    ensures PathsIn(op, k + 1, hi) == PathsIn(op, k, hi) - {op.paths[k]}
    ensures op.paths[k] in PathsIn(op, k, hi) && op.paths[k] !in PathsIn(op, lo, k)
  {
  }

  /** The events that take or give back a lock. */
  lemma AcquireStepExcludes(s: State, w: nat, ok: bool)
    requires Enabled(s, Acquire(w, ok)) && Exclusive(s)
    ensures Guarded(Apply(s, Acquire(w, ok)).phases, Apply(s, Acquire(w, ok)).locks)
  {
    var t, p := Apply(s, Acquire(w, ok)), s.phases[w];
    if ok { PathsSplit(p.op, 0, p.next, |p.op.paths|); }
    GuardedStep(s.phases, s.locks, w, t.phases[w], t.locks);
  }

  lemma UndoStepExcludes(s: State, w: nat)
    requires Enabled(s, Undo(w)) && Exclusive(s)
    ensures Guarded(Apply(s, Undo(w)).phases, Apply(s, Undo(w)).locks)
  {
    var t, p := Apply(s, Undo(w)), s.phases[w];
    if p.next < p.taken { PathsSplit(p.op, p.next, p.next, p.taken); }
    GuardedStep(s.phases, s.locks, w, t.phases[w], t.locks);
  }

  lemma ReleaseStepExcludes(s: State, w: nat)
    requires Enabled(s, Release(w)) && Exclusive(s)
    ensures Guarded(Apply(s, Release(w)).phases, Apply(s, Release(w)).locks)
  {
    var t, p := Apply(s, Release(w)), s.phases[w];
    if p.next < |p.op.paths| { PathsSplit(p.op, p.next, p.next, |p.op.paths|); }
    GuardedStep(s.phases, s.locks, w, t.phases[w], t.locks);
  }

  lemma CheckStepExcludes(s: State, w: nat, free: bool)
    requires Enabled(s, CheckPath(w, free)) && Exclusive(s)
    ensures Guarded(Apply(s, CheckPath(w, free)).phases, s.locks)
  {
    var p := s.phases[w];
    if free { PathsSplit(p.op, 0, p.next, |p.op.paths|); }
    GuardedStep(s.phases, s.locks, w, Apply(s, CheckPath(w, free)).phases[w], s.locks);
  }

  lemma WorkerStepExcludes(s: State, e: Event)
    requires Enabled(s, e) && OfWorker(e) && EntersAlone(s, e) && Exclusive(s)
    ensures Guarded(Apply(s, e).phases, Apply(s, e).locks)
  {
    if e.Acquire? {
      AcquireStepExcludes(s, e.w, e.ok);
    } else if e.Undo? {
      UndoStepExcludes(s, e.w);
    } else if e.Release? {
      ReleaseStepExcludes(s, e.w);
    } else if e.CheckPath? {
      CheckStepExcludes(s, e.w, e.free);
    } else if e.Register? || e.StartCallback? || e.EndCallback? {
      SectionStepExcludes(s, e);
    } else {
      LocklessStepExcludes(s, e);
    }
  }

  lemma GuardedAt(phases: seq<Phase>, locks: set<string>, w: nat)
    requires w < |phases| && Guarded(phases, locks)
    ensures InBounds(phases[w]) && (phases[w].Busy() ==> DistinctPaths(phases[w].op))
    ensures phases[w].Locks() <= locks && Claimed(phases[w]) !! locks
  {
  }

  lemma SectionStepExcludes(s: State, e: Event)
    requires Enabled(s, e) && (e.Register? || e.StartCallback? || e.EndCallback?) && Exclusive(s)
    ensures Guarded(Apply(s, e).phases, Apply(s, e).locks)
  {
    hide Guarded;
    GuardedAt(s.phases, s.locks, e.w);
    GuardedStep(s.phases, s.locks, e.w, Apply(s, e).phases[e.w], s.locks);
  }

  lemma LocklessStepExcludes(s: State, e: Event)
    requires Enabled(s, e) && OfWorker(e) && EntersAlone(s, e) && Exclusive(s)
    requires !(e.Acquire? || e.Undo? || e.Release? || e.CheckPath? || e.Register? || e.StartCallback? || e.EndCallback?)
    ensures Guarded(Apply(s, e).phases, Apply(s, e).locks)
  {
    hide Guarded, Insert, Without, Queue.Valid;
    if e.Dequeue? { assert s.queue.entries[0] in s.queue.entries; }
    GuardedAt(s.phases, s.locks, e.w);
    GuardedStep(s.phases, s.locks, e.w, Apply(s, e).phases[e.w], s.locks);
  }

  lemma StepExcludes(s: State, e: Event)
    requires Enabled(s, e) && EntersAlone(s, e) && NamesPathsOnce(e) && Exclusive(s)
    ensures Exclusive(Apply(s, e))
  {
    forall x <- Apply(s, e).queue.entries
      ensures DistinctPaths(x.op)
    {
      EntriesFrom(s, e, x);
    }
    if OfWorker(e) {
      WorkerStepExcludes(s, e);
    }
  }

  /** A run in which check-then-acquire is one step and operations name each path once. */
  ghost predicate IsDisciplinedRun(s: State, events: seq<Event>)
    requires IsRun(s, events)
    decreases |events|
  {
    events != [] ==>
      EntersAlone(s, events[0]) && NamesPathsOnce(events[0]) && IsDisciplinedRun(Apply(s, events[0]), events[1..])
  }

  lemma {:induction false} RunExcludes(s: State, events: seq<Event>)
    requires IsRun(s, events) && IsDisciplinedRun(s, events) && Exclusive(s)
    ensures Exclusive(After(s, events))
    decreases |events|
  {
    if events != [] {
      StepExcludes(s, events[0]);
      RunExcludes(Apply(s, events[0]), events[1..]);
    }
  }

  /**
   With check-then-acquire as one step, no two callbacks that run at the same
   time share a path, the held locks are the paths workers took, and a worker
   that is not starting, executing or releasing (one that failed part way and
   sleeps, in particular) holds no lock.
   */
  lemma PathExclusion(workers: nat, maxSize: nat, events: seq<Event>)
    requires IsRun(Initial(workers, maxSize), events) && IsDisciplinedRun(Initial(workers, maxSize), events)
    ensures var s := After(Initial(workers, maxSize), events);
            && (forall v, w | 0 <= v < w < |s.phases| && s.phases[v].Executing? && s.phases[w].Executing? ::
                  forall path <- s.phases[v].op.paths :: path !in s.phases[w].op.paths)
            && (forall path :: path in s.locks <==> exists w :: 0 <= w < |s.phases| && path in s.phases[w].Locks())
            && (forall w | 0 <= w < |s.phases| && s.phases[w].Executing? :: forall path <- s.phases[w].op.paths ::
                path in s.locks)
            && (forall w | 0 <= w < |s.phases| && s.phases[w].Locks() != {} ::
                  s.phases[w].Starting() || s.phases[w].Executing? || s.phases[w].Releasing?)
  {
    RunExcludes(Initial(workers, maxSize), events);
    var s := After(Initial(workers, maxSize), events);
    forall w | 0 <= w < |s.phases| && s.phases[w].Executing?
      ensures forall path :: path in s.phases[w].op.paths <==> path in s.phases[w].Locks()
    {
    }
  }

  // ------------------------------------------------------------ counterexamples

  /** Two workers run callbacks that name the same path. */
  ghost predicate Overlap(s: State) {
    exists v, w :: 0 <= v < w < |s.phases| && s.phases[v].Executing? && s.phases[w].Executing?
                   && exists path <- s.phases[v].op.paths :: path in s.phases[w].op.paths
  }

  /** Check-then-acquire is one step all along the run. */
  ghost predicate StartsAlone(s: State, events: seq<Event>)
    requires IsRun(s, events)
    decreases |events|
  {
    events != [] ==> EntersAlone(s, events[0]) && StartsAlone(Apply(s, events[0]), events[1..])
  }

  /** `events` with fresh ids lead from `start` to `s`, with `alone` through starts of one step each. */
  ghost predicate Reaches(start: State, events: seq<Event>, s: State, alone: bool) {
    && IsRun(start, events) && After(start, events) == s && HasFreshIds(start, events)
    && (alone ==> StartsAlone(start, events))
  }

  /** Only `a` and `b` are submitted. */
  predicate Submits(events: seq<Event>, a: Operation, b: Operation) {
    forall e <- events | e.Submit? :: e.op == a || e.op == b
  }

  lemma {:induction false} RunSnoc(s: State, events: seq<Event>, e: Event)
    requires IsRun(s, events) && Enabled(After(s, events), e)
    ensures IsRun(s, events + [e]) && After(s, events + [e]) == Apply(After(s, events), e)
    ensures HasFreshIds(s, events) && FreshIds(After(s, events), e) ==> HasFreshIds(s, events + [e])
    ensures StartsAlone(s, events) && EntersAlone(After(s, events), e) ==> StartsAlone(s, events + [e])
    decreases |events|
  {
    hide Enabled, Apply, FreshIds, EntersAlone;
    if events == [] {
      assert events + [e] == [e] && [e][1..] == [];
    } else {
      RunSnoc(Apply(s, events[0]), events[1..], e);
      assert (events + [e])[0] == events[0] && (events + [e])[1..] == events[1..] + [e];
    }
  }

  lemma Extend(start: State, events: seq<Event>, s: State, alone: bool, e: Event) returns (longer: seq<Event>, t: State)
    requires Reaches(start, events, s, alone) && Enabled(s, e) && FreshIds(s, e) && (alone ==> EntersAlone(s, e))
    ensures t == Apply(s, e) && longer == events + [e] && Reaches(start, longer, t, alone)
  {
    hide Enabled, Apply, FreshIds, EntersAlone;
    RunSnoc(start, events, e);
    longer, t := events + [e], Apply(s, e);
  }

  /** An operation is submitted to an empty queue and dequeued by a worker. */
  lemma IntoHand(start: State, events: seq<Event>, s: State, alone: bool, op: Operation, w: nat)
    returns (longer: seq<Event>, t: State)
    requires Reaches(start, events, s, alone) && !s.submitting && w < |s.phases| && s.phases[w].Idle?
    requires s.queue.entries == [] && !s.queue.closed && s.queue.maxSize > 0 && op.id !in s.accepted
    ensures Reaches(start, longer, t, alone) && longer == events + [Submit(op), CountSubmitted, Event.Dequeue(w)]
    ensures t.phases == s.phases[w := Held(op)] && t.locks == s.locks && !t.submitting
            && t.accepted == s.accepted + {op.id}
    ensures t.queue.entries == [] && t.queue.closed == s.queue.closed && t.queue.maxSize == s.queue.maxSize
  {
    assert s.queue.Ids() == {};
    longer, t := Extend(start, events, s, alone, Submit(op));
    longer, t := Extend(start, longer, t, alone, CountSubmitted);
    assert t.queue.entries == [Entry(op, s.queue.clock)];
    longer, t := Extend(start, longer, t, alone, Event.Dequeue(w));
  }

  /** Both operations submitted and dequeued, one by each of the first two workers. */
  lemma TwoInHand(workers: nat, maxSize: nat, a: Operation, b: Operation, alone: bool)
    returns (events: seq<Event>, s: State)
    requires workers >= 2 && maxSize > 0 && a.id != b.id
    ensures Reaches(Initial(workers, maxSize), events, s, alone) && Submits(events, a, b)
    ensures s.phases == Initial(workers, maxSize).phases[0 := Held(a)][1 := Held(b)]
    ensures s.locks == {} && !s.submitting
  {
    var start := Initial(workers, maxSize);
    events, s := [], start;
    events, s := IntoHand(start, events, s, alone, a, 0);
    events, s := IntoHand(start, events, s, alone, b, 1);
  }

  /** A worker looks at its remaining paths, which are free. */
  lemma {:induction false} CheckAll(start: State, events: seq<Event>, s: State, alone: bool, w: nat)
    returns (longer: seq<Event>, t: State)
    requires Reaches(start, events, s, alone) && w < |s.phases| && s.phases[w].Checking?
    requires s.phases[w].next <= |s.phases[w].op.paths| && forall q <- s.phases[w].op.paths :: q !in s.locks
    ensures Reaches(start, longer, t, alone) && (forall e <- longer :: e in events || !e.Submit?)
    ensures t == s.(phases := s.phases[w := Checking(s.phases[w].op, |s.phases[w].op.paths|)])
    decreases |s.phases[w].op.paths| - s.phases[w].next
  {
    if s.phases[w].next == |s.phases[w].op.paths| {
      longer, t := events, s;
    } else {
      longer, t := Extend(start, events, s, alone, CheckPath(w, true));
      longer, t := CheckAll(start, longer, t, alone, w);
    }
  }

  /** A worker with its operation in hand looks at the memory and at its paths, which are free. */
  lemma FindFree(start: State, events: seq<Event>, s: State, alone: bool, w: nat) returns (longer: seq<Event>, t: State)
    requires Reaches(start, events, s, alone) && w < |s.phases| && s.phases[w].Held?
    requires forall q <- s.phases[w].op.paths :: q !in s.locks
    requires alone ==> forall v | 0 <= v < |s.phases| :: !s.phases[v].Starting()
    ensures Reaches(start, longer, t, alone) && (forall e <- longer :: e in events || !e.Submit?)
    ensures t == s.(phases := s.phases[w := Checking(s.phases[w].op, |s.phases[w].op.paths|)])
  {
    longer, t := Extend(start, events, s, alone, CheckMemory(w, true));
    longer, t := CheckAll(start, longer, t, alone, w);
  }

  lemma {:induction false} AcquireAll(start: State, events: seq<Event>, s: State, alone: bool, w: nat)
    returns (longer: seq<Event>, t: State)
    requires Reaches(start, events, s, alone) && w < |s.phases| && s.phases[w].Acquiring?
    requires s.phases[w].next <= |s.phases[w].op.paths|
    ensures Reaches(start, longer, t, alone) && (forall e <- longer :: e in events || !e.Submit?)
    ensures var p := s.phases[w];
            t == s.(phases := s.phases[w := Acquiring(p.op, |p.op.paths|)],
                    locks := s.locks + PathsIn(p.op, p.next, |p.op.paths|))
    decreases |s.phases[w].op.paths| - s.phases[w].next
  {
    var p := s.phases[w];
    if p.next == |p.op.paths| {
      longer, t := events, s;
      assert s.locks + PathsIn(p.op, p.next, |p.op.paths|) == s.locks;
    } else {
      longer, t := Extend(start, events, s, alone, Acquire(w, true));
      longer, t := AcquireAll(start, longer, t, alone, w);
      assert s.locks + PathsIn(p.op, p.next, |p.op.paths|)
          == s.locks + {p.op.paths[p.next]} + PathsIn(p.op, p.next + 1, |p.op.paths|);
    }
  }

  /** A worker whose paths were free acquires them, held by this process or not, and enters the callback. */
  lemma StartRunning(start: State, events: seq<Event>, s: State, alone: bool, w: nat)
    returns (longer: seq<Event>, t: State)
    requires Reaches(start, events, s, alone) && w < |s.phases| && !s.submitting && s.phases[w].Checking?
    requires s.phases[w].next == |s.phases[w].op.paths| > 0
    ensures Reaches(start, longer, t, alone) && (forall e <- longer :: e in events || !e.Submit?)
    ensures t.phases == s.phases[w := Executing(s.phases[w].op)] && !t.submitting
    ensures t.locks == s.locks + PathsIn(s.phases[w].op, 0, |s.phases[w].op.paths|)
  {
    longer, t := Extend(start, events, s, alone, Register(w));
    longer, t := AcquireAll(start, longer, t, alone, w);
    longer, t := Extend(start, longer, t, alone, StartCallback(w));
  }

  /**
   Once check and acquire are separate steps exclusion fails, for any two operations
   that share a path: both workers find their paths free, and the second acquisition
   says yes because this process already holds the lock.
   */
  lemma SplitStartBreaksExclusion(workers: nat, maxSize: nat, a: Operation, b: Operation, path: string)
    returns (events: seq<Event>, s: State)
    requires workers >= 2 && maxSize > 0 && a.id != b.id && path in a.paths && path in b.paths
    ensures Reaches(Initial(workers, maxSize), events, s, false) && Submits(events, a, b)
    ensures |s.phases| == workers && s.phases[..2] == [Executing(a), Executing(b)] && Overlap(s)
  {
    hide Reaches;
    var start := Initial(workers, maxSize);
    events, s := TwoInHand(workers, maxSize, a, b, false);
    events, s := FindFree(start, events, s, false, 0);
    events, s := FindFree(start, events, s, false, 1);
    events, s := StartRunning(start, events, s, false, 0);
    events, s := StartRunning(start, events, s, false, 1);
    OverlapOf(s, a, b, path);
  }

  lemma OverlapOf(s: State, a: Operation, b: Operation, path: string)
    requires |s.phases| >= 2 && s.phases[0] == Executing(a) && s.phases[1] == Executing(b) && path in a.paths
             && path in b.paths
    ensures s.phases[..2] == [Executing(a), Executing(b)] && Overlap(s)
  {
    assert path in s.phases[0].op.paths && path in s.phases[1].op.paths;
  }

  /** A worker releases its paths up to `k`. */
  lemma {:induction false} ReleaseUpTo(start: State, events: seq<Event>, s: State, alone: bool, w: nat, k: nat)
    returns (longer: seq<Event>, t: State)
    requires Reaches(start, events, s, alone) && w < |s.phases| && s.phases[w].Releasing?
    requires s.phases[w].next <= k <= |s.phases[w].op.paths|
    ensures Reaches(start, longer, t, alone) && (forall e <- longer :: e in events || !e.Submit?)
    ensures var p := s.phases[w];
            t == s.(phases := s.phases[w := Releasing(p.op, k)], locks := s.locks - PathsIn(p.op, p.next, k))
    decreases k - s.phases[w].next
  {
    var p := s.phases[w];
    if p.next == k {
      longer, t := events, s;
      assert s.locks - PathsIn(p.op, k, k) == s.locks;
    } else {
      longer, t := Extend(start, events, s, alone, Release(w));
      longer, t := ReleaseUpTo(start, longer, t, alone, w, k);
      assert s.locks - PathsIn(p.op, p.next, k) == s.locks - {p.op.paths[p.next]} - PathsIn(p.op, p.next + 1, k);
    }
  }

  lemma FreeAgain(a: Operation, b: Operation, j: nat)
    requires j <= |a.paths| && forall q <- b.paths :: q in a.paths[..j] || q !in a.paths
    ensures forall q <- b.paths :: q !in PathsIn(a, 0, |a.paths|) - PathsIn(a, 0, j)
  {
    forall q <- b.paths | q in a.paths[..j]
      ensures q in PathsIn(a, 0, j)
    {
      var i :| 0 <= i < j && a.paths[..j][i] == q;
      assert a.paths[i] == q;
    }
  }

  /**
   Any operation that lists a path twice releases it twice, and the second time it
   releases the lock another worker took meanwhile, even though every start is one step.
   */
  lemma RepeatedPathReleasesAnothersLock(workers: nat, maxSize: nat, a: Operation, b: Operation, i: nat, j: nat)
    returns (events: seq<Event>, s: State)
    requires workers >= 2 && maxSize > 0 && a.id != b.id
    requires i < j < |a.paths| && a.paths[i] == a.paths[j] && a.paths[j] in b.paths
    requires forall q <- b.paths :: q in a.paths[..j] || q !in a.paths
    ensures Reaches(Initial(workers, maxSize), events, s, true) && Submits(events, a, b)
    ensures |s.phases| >= 2 && s.phases[1] == Executing(b) && a.paths[j] !in s.locks
  {
    hide Reaches, PathsIn;
    var start := Initial(workers, maxSize);
    events, s := TwoInHand(workers, maxSize, a, b, true);
    events, s := FindFree(start, events, s, true, 0);
    events, s := StartRunning(start, events, s, true, 0);
    events, s := Extend(start, events, s, true, EndCallback(0, Completed));
    events, s := ReleaseUpTo(start, events, s, true, 0, j);
    FreeAgain(a, b, j);
    assert {} + PathsIn(a, 0, |a.paths|) == PathsIn(a, 0, |a.paths|);
    events, s := FindFree(start, events, s, true, 1);
    events, s := StartRunning(start, events, s, true, 1);
    events, s := Extend(start, events, s, true, Release(0));
  }

  /** Free paths taken and released again leave the locks as they were. */
  lemma LocksAgain(locks: set<string>, op: Operation)
    requires forall q <- op.paths :: q !in locks
    ensures (locks + PathsIn(op, 0, |op.paths|)) - PathsIn(op, 0, |op.paths|) == locks
  {
    forall q <- PathsIn(op, 0, |op.paths|) ensures q in op.paths {
      var i: nat :| i < |op.paths| && op.paths[i] == q;
    }
  }

  /** A worker that has entered the callback ends it, releases its paths and is counted. */
  lemma RunOut(start: State, events: seq<Event>, s: State, w: nat, end: End) returns (longer: seq<Event>, t: State)
    requires Reaches(start, events, s, true) && w < |s.phases| && s.phases[w].Executing? && !s.submitting
    requires end.Completed? || end.Failed?
    ensures Reaches(start, longer, t, true)
    ensures var op := s.phases[w].op;
            t == s.(phases := s.phases[w := Idle], locks := s.locks - PathsIn(op, 0, |op.paths|),
                    running := s.running - {op.id}, pending := Max0(s.pending - 1),
                    ends := s.ends + multiset{(op.id, end)})
  {
    hide Reaches, PathsIn;
    var op := s.phases[w].op;
    longer, t := Extend(start, events, s, true, EndCallback(w, end));
    longer, t := ReleaseUpTo(start, longer, t, true, w, |op.paths|);
    longer, t := Extend(start, longer, t, true, Release(w));
    longer, t := Extend(start, longer, t, true, Finish(w));
  }

  /**
   Nothing stands in the way of work: from every state with an empty open queue and an idle worker,
   an operation with free paths can be submitted and run to either end; its callback is entered
   once, it ends once, and locks, running operations and the pending count are as before.
   */
  lemma OperationRuns(start: State, events: seq<Event>, s: State, op: Operation, w: nat, end: End)
    returns (longer: seq<Event>, t: State)
    requires Reaches(start, events, s, true) && !s.submitting && s.pending >= 0
    requires w < |s.phases| && s.phases[w].Idle? && forall v | 0 <= v < |s.phases| :: !s.phases[v].Starting()
    requires s.queue.entries == [] && !s.queue.closed && s.queue.maxSize > 0
    requires op.id !in s.accepted && op.id !in s.running
    requires op.paths != [] && forall q <- op.paths :: q !in s.locks
    requires end.Completed? || end.Failed?
    ensures Reaches(start, longer, t, true)
    ensures t.phases == s.phases && t.locks == s.locks && t.running == s.running && t.pending == s.pending
    ensures t.queue.entries == [] && t.calls == s.calls + multiset{op.id}
            && t.ends == s.ends + multiset{(op.id, end)}
  {
    hide Reaches, PathsIn;
    longer, t := TakenUp(start, events, s, op, w);
    longer, t := FindFree(start, longer, t, true, w);
    longer, t := Entered(start, longer, t, w);
    longer, t := RunOut(start, longer, t, w, end);
    LocksAgain(s.locks, op);
    assert s.running[op.id := op] - {op.id} == s.running;
    assert s.phases[w := Idle] == s.phases;
  }

  /** Into the hand of the worker, with all that else changes. */
  lemma TakenUp(start: State, events: seq<Event>, s: State, op: Operation, w: nat)
    returns (longer: seq<Event>, t: State)
    requires Reaches(start, events, s, true) && !s.submitting && w < |s.phases| && s.phases[w].Idle?
    requires s.queue.entries == [] && !s.queue.closed && s.queue.maxSize > 0 && op.id !in s.accepted
    ensures Reaches(start, longer, t, true)
    ensures t == s.(queue := s.queue.(clock := s.queue.clock + 1), phases := s.phases[w := Held(op)],
                    pending := s.pending + 1, accepted := s.accepted + {op.id})
  {
    hide Reaches;
    assert s.queue.Ids() == {};
    longer, t := Extend(start, events, s, true, Submit(op));
    longer, t := Extend(start, longer, t, true, CountSubmitted);
    assert t.queue.entries == [Entry(op, s.queue.clock)];
    longer, t := Extend(start, longer, t, true, Event.Dequeue(w));
    assert [Entry(op, s.queue.clock)][1..] == [];
  }

  /** From the checked paths into the callback, with all that else changes. */
  lemma Entered(start: State, events: seq<Event>, s: State, w: nat) returns (longer: seq<Event>, t: State)
    requires Reaches(start, events, s, true) && w < |s.phases| && !s.submitting && s.phases[w].Checking?
    requires s.phases[w].next == |s.phases[w].op.paths| > 0
    ensures Reaches(start, longer, t, true)
    ensures var op := s.phases[w].op;
            t == s.(phases := s.phases[w := Executing(op)], locks := s.locks + PathsIn(op, 0, |op.paths|),
                    running := s.running[op.id := op], calls := s.calls + multiset{op.id})
  {
    hide Reaches, PathsIn;
    longer, t := Extend(start, events, s, true, Register(w));
    longer, t := AcquireAll(start, longer, t, true, w);
    longer, t := Extend(start, longer, t, true, StartCallback(w));
  }
}
