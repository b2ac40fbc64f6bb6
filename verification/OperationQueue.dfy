/**
 The bounded priority queue of operations: a deque kept in order by insertion,
 and the set of ids that are in it. Every entry carries, as a ghost of the
 model, the time of the enqueue that put it there.
 */
module OperationQueue {
  import opened Wrappers

  datatype Operation = Operation(id: string, priority: int, paths: seq<string>)

  datatype Entry = Entry(op: Operation, time: nat)

  /** `a` is served before `b`: higher priority first, earlier enqueue first. */
  predicate Before(a: Entry, b: Entry) {
    a.op.priority > b.op.priority || (a.op.priority == b.op.priority && a.time < b.time)
  }

  /** The queue as a value: its entries in deque order, and the next enqueue time. */
  datatype Queue = Queue(entries: seq<Entry>, clock: nat, closed: bool, maxSize: nat)
  {
    function Ids(): set<string> {
      set e <- entries :: e.op.id
    }

    ghost predicate Valid() {
      && |entries| <= maxSize
      && (forall i, j | 0 <= i < j < |entries| :: Before(entries[i], entries[j]))
      && (forall i, j | 0 <= i < j < |entries| :: entries[i].op.id != entries[j].op.id)
      && (forall e <- entries :: e.time < clock)
    }

    function Contents(): set<Entry> {
      set e <- entries
    }

    predicate Accepts(op: Operation) {
      !closed && op.id !in Ids() && |entries| < maxSize
    }

    function Enqueue(op: Operation): Queue {
      if Accepts(op) then this.(entries := Insert(entries, Entry(op, clock)), clock := clock + 1) else this
    }

    function Dequeue(): Queue
      requires entries != []
    {
      this.(entries := entries[1..])
    }

    function Remove(id: string): Queue {
      this.(entries := Without(entries, id))
    }
  }

  /** Insertion in front of the first entry of lower priority. */
  function Insert(entries: seq<Entry>, e: Entry): (r: seq<Entry>)
    ensures |r| == |entries| + 1
  {
    if entries == [] then [e]
    else if e.op.priority > entries[0].op.priority then [e] + entries
    else [entries[0]] + Insert(entries[1..], e)
  }

  /** Deletion of the first entry with the given id. */
  function Without(entries: seq<Entry>, id: string): (r: seq<Entry>)
    ensures |r| <= |entries|
  {
    if entries == [] then []
    else if entries[0].op.id == id then entries[1..]
    else [entries[0]] + Without(entries[1..], id)
  }

  // ------------------------------------------------------ order and contents

  ghost predicate Ordered(entries: seq<Entry>) {
    forall i, j | 0 <= i < j < |entries| :: Before(entries[i], entries[j])
  }

  lemma {:induction false} InsertAt(entries: seq<Entry>, e: Entry, k: nat)
    requires k <= |entries|
    requires forall i | 0 <= i < k :: e.op.priority <= entries[i].op.priority
    requires k < |entries| ==> e.op.priority > entries[k].op.priority
    ensures Insert(entries, e) == entries[..k] + [e] + entries[k..]
  {
    if k > 0 {
      InsertAt(entries[1..], e, k - 1);
      ShiftSplice(entries, [e], k, k);
    } else {
      assert entries[..0] + [e] + entries[0..] == [e] + entries;
    }
  }

  /** Splicing behind the first element is splicing one place earlier in the rest. */
  lemma ShiftSplice<T>(s: seq<T>, middle: seq<T>, k: nat, j: nat)
    requires 0 < k <= j <= |s|
    ensures [s[0]] + (s[1..][..k - 1] + middle + s[1..][j - 1..]) == s[..k] + middle + s[j..]
  {
  }

  lemma {:induction false} WithoutAt(entries: seq<Entry>, id: string, k: nat)
    requires k <= |entries|
    requires forall i | 0 <= i < k :: entries[i].op.id != id
    requires k < |entries| ==> entries[k].op.id == id
    ensures Without(entries, id) == if k == |entries| then entries else entries[..k] + entries[k + 1..]
  {
    if k > 0 {
      WithoutAt(entries[1..], id, k - 1);
      if k == |entries| {
        assert entries == [entries[0]] + entries[1..];
      } else {
        ShiftSplice(entries, [], k, k + 1);
        assert entries[..k] + [] + entries[k + 1..] == entries[..k] + entries[k + 1..];
        assert entries[1..][..k - 1] + [] + entries[1..][k..] == entries[1..][..k - 1] + entries[1..][k..];
      }
    }
  }

  /** Where insertion puts an operation of this priority. */
  function Slot(entries: seq<Entry>, priority: int): (k: nat)
    ensures k <= |entries|
    ensures forall i | 0 <= i < k :: priority <= entries[i].op.priority
    ensures k < |entries| ==> priority > entries[k].op.priority
  {
    if entries == [] || priority > entries[0].op.priority then 0 else 1 + Slot(entries[1..], priority)
  }

  function IndexOf(entries: seq<Entry>, id: string): (k: nat)
    ensures k <= |entries|
    ensures forall i | 0 <= i < k :: entries[i].op.id != id
    ensures k < |entries| ==> entries[k].op.id == id
  {
    if entries == [] || entries[0].op.id == id then 0 else 1 + IndexOf(entries[1..], id)
  }

  /** Splicing `e` in at `k` keeps a relation that holds pairwise and across the gap. */
  lemma SpliceIn<T>(s: seq<T>, e: T, k: nat, r: seq<T>)
    requires k <= |s| && r == s[..k] + [e] + s[k..]
    ensures |r| == |s| + 1 && r[k] == e
    ensures forall i | 0 <= i < k :: r[i] == s[i]
    ensures forall i | k < i < |r| :: r[i] == s[i - 1]
    ensures forall x :: x in r <==> x == e || x in s
  {
    forall x | x in s
      ensures x in r
    {
      var i :| 0 <= i < |s| && s[i] == x;
      assert r[if i < k then i else i + 1] == x;
    }
  }

  lemma CutOut<T>(s: seq<T>, k: nat, r: seq<T>)
    requires k < |s| && r == s[..k] + s[k + 1..]
    ensures |r| == |s| - 1
    ensures forall i | 0 <= i < k :: r[i] == s[i]
    ensures forall i | k <= i < |r| :: r[i] == s[i + 1]
    ensures forall x | x in r :: x in s
    ensures forall x | x in s :: x in r || x == s[k]
  {
    forall x | x in s && x != s[k]
      ensures x in r
    {
      var i :| 0 <= i < |s| && s[i] == x;
      assert r[if i < k then i else i - 1] == x;
    }
  }

  lemma InsertKeepsOrder(entries: seq<Entry>, e: Entry)
    requires Ordered(entries) && forall x <- entries :: x.time < e.time
    ensures Ordered(Insert(entries, e))
  {
    var k, r := Slot(entries, e.op.priority), Insert(entries, e);
    InsertAt(entries, e, k);
    SpliceIn(entries, e, k, r);
    forall i, j | 0 <= i < j < |r|
      ensures Before(r[i], r[j])
    {
      if i < k && j > k {
        assert Before(entries[i], entries[j - 1]);
      } else if i == k {
        assert k == j - 1 || Before(entries[k], entries[j - 1]);
      } else if j == k {
        assert entries[i] in entries;
      }
    }
  }

  ghost predicate UniqueIds(entries: seq<Entry>) {
    forall i, j | 0 <= i < j < |entries| :: entries[i].op.id != entries[j].op.id
  }

  lemma EnqueueKeepsValid(q: Queue, op: Operation)
    requires q.Valid()
    ensures q.Enqueue(op).Valid()
    ensures q.Accepts(op) ==> q.Enqueue(op).Contents() == q.Contents() + {Entry(op, q.clock)}
    ensures q.Accepts(op) ==> q.Enqueue(op).Ids() == q.Ids() + {op.id}
  {
    if q.Accepts(op) {
      var e := Entry(op, q.clock);
      var k, r := Slot(q.entries, op.priority), Insert(q.entries, e);
      InsertKeepsOrder(q.entries, e);
      InsertAt(q.entries, e, k);
      SpliceIn(q.entries, e, k, r);
      forall i, j | 0 <= i < j < |r|
        ensures r[i].op.id != r[j].op.id
      {
        assert i != k ==> r[i] in q.entries && r[i].op.id in q.Ids();
        assert j != k ==> r[j] in q.entries && r[j].op.id in q.Ids();
      }
      IdsGrow(q, r, e);
    }
  }

  lemma IdsGrow(q: Queue, r: seq<Entry>, e: Entry)
    requires forall x :: x in r <==> x == e || x in q.entries
    ensures (set x <- r :: x.op.id) == q.Ids() + {e.op.id}
  {
    assert e in r;
  }

  lemma RemoveKeepsValid(q: Queue, id: string)
    requires q.Valid()
    ensures q.Remove(id).Valid()
    ensures q.Remove(id).Contents() == set e <- q.Contents() | e.op.id != id
    ensures q.Remove(id).Ids() == q.Ids() - {id}
    ensures |q.Remove(id).entries| == |q.entries| - (if id in q.Ids() then 1 else 0)
  {
    hide Before, Without, IndexOf;
    var k, r := IndexOf(q.entries, id), q.Remove(id).entries;
    WithoutAt(q.entries, id, k);
    if k < |q.entries| {
      CutOut(q.entries, k, r);
      assert q.entries[k].op.id in q.Ids();
      NotInCut(q.entries, k, r);
      CutIsOrdered(q.entries, k, r);
      IdsShrink(q, r, id);
    }
  }

  lemma NotInCut(entries: seq<Entry>, k: nat, r: seq<Entry>)
    requires UniqueIds(entries)
    requires k < |entries| && |r| == |entries| - 1
    requires forall i | 0 <= i < k :: r[i] == entries[i]
    requires forall i | k <= i < |r| :: r[i] == entries[i + 1]
    ensures forall x <- r :: x.op.id != entries[k].op.id
  {
    forall i | 0 <= i < |r|
      ensures r[i].op.id != entries[k].op.id
    {
      assert r[i] == entries[if i < k then i else i + 1];
    }
  }

  lemma CutIsOrdered(entries: seq<Entry>, k: nat, r: seq<Entry>)
    requires Ordered(entries) && UniqueIds(entries)
    requires k < |entries| && |r| == |entries| - 1
    requires forall i | 0 <= i < k :: r[i] == entries[i]
    requires forall i | k <= i < |r| :: r[i] == entries[i + 1]
    ensures Ordered(r) && UniqueIds(r)
  {
    forall i, j | 0 <= i < j < |r|
      ensures Before(r[i], r[j]) && r[i].op.id != r[j].op.id
    {
      var a, b := if i < k then i else i + 1, if j < k then j else j + 1;
      assert r[i] == entries[a] && r[j] == entries[b];
    }
  }

  lemma IdsShrink(q: Queue, r: seq<Entry>, id: string)
    requires forall x :: x in r ==> x in q.entries && x.op.id != id
    requires forall x :: x in q.entries && x.op.id != id ==> x in r
    ensures (set x <- r :: x.op.id) == q.Ids() - {id}
  {
  }

  lemma DequeueKeepsValid(q: Queue)
    requires q.Valid() && q.entries != []
    ensures q.Dequeue().Valid()
    ensures q.Dequeue().Contents() == q.Contents() - {q.entries[0]}
    ensures q.Dequeue().Ids() == q.Ids() - {q.entries[0].op.id}
  {
    hide Before;
    var head, rest := q.entries[0], q.entries[1..];
    assert q.entries == [head] + rest;
    assert forall x <- rest :: Before(head, x) && x.op.id != head.op.id;
  }

  // ------------------------------------- refinement of an unordered specification

  datatype Command = Enqueue(op: Operation) | Dequeue | Remove(id: string) | Close

  /** The specification: a bag of stamped operations without any order. */
  datatype Bag = Bag(entries: set<Entry>, clock: nat, closed: bool, maxSize: nat)

  /** The entry every other entry comes after. */
  ghost predicate IsFirst(entries: set<Entry>, e: Entry) {
    e in entries && forall x <- entries :: x == e || Before(e, x)
  }

  ghost function BagStep(b: Bag, c: Command): Bag {
    match c
    case Enqueue(op) =>
      if !b.closed && (forall e <- b.entries :: e.op.id != op.id) && |b.entries| < b.maxSize
      then b.(entries := b.entries + {Entry(op, b.clock)}, clock := b.clock + 1)
      else b
    case Dequeue => if e :| IsFirst(b.entries, e) then b.(entries := b.entries - {e}) else b
    case Remove(id) => b.(entries := set e <- b.entries | e.op.id != id)
    case Close => b.(closed := true)
  }

  function QueueStep(q: Queue, c: Command): Queue {
    match c
    case Enqueue(op) => q.Enqueue(op)
    case Dequeue => if q.entries == [] then q else q.Dequeue()
    case Remove(id) => q.Remove(id)
    case Close => q.(closed := true)
  }

  ghost function BagRun(commands: seq<Command>, maxSize: nat): Bag {
    if commands == [] then Bag({}, 0, false, maxSize)
    else BagStep(BagRun(commands[..|commands| - 1], maxSize), commands[|commands| - 1])
  }

  function QueueRun(commands: seq<Command>, maxSize: nat): Queue {
    if commands == [] then Queue([], 0, false, maxSize)
    else QueueStep(QueueRun(commands[..|commands| - 1], maxSize), commands[|commands| - 1])
  }

  ghost function Abstract(q: Queue): Bag {
    Bag(q.Contents(), q.clock, q.closed, q.maxSize)
  }

  lemma {:induction false} ContentsSize(entries: seq<Entry>)
    requires Ordered(entries)
    ensures |(set e <- entries)| == |entries|
  {
    if entries != [] {
      var rest := entries[1..];
      ContentsSize(rest);
      assert entries[0] !in rest;
      assert (set e <- entries) == {entries[0]} + set e <- rest;
    }
  }

  lemma FirstIsHead(q: Queue)
    requires q.Valid()
    ensures q.entries != [] ==> IsFirst(q.Contents(), q.entries[0])
    ensures forall e | IsFirst(q.Contents(), e) :: q.entries != [] && e == q.entries[0]
  {
    if q.entries != [] {
      assert forall x <- q.entries :: x == q.entries[0] || Before(q.entries[0], x);
      forall e | IsFirst(q.Contents(), e)
        ensures e == q.entries[0]
      {
        assert q.entries[0] in q.Contents();
      }
    }
  }

  lemma StepRefines(q: Queue, c: Command)
    requires q.Valid()
    ensures QueueStep(q, c).Valid()
    ensures Abstract(QueueStep(q, c)) == BagStep(Abstract(q), c)
  {
    hide Before, Insert, Without;
    match c
    case Enqueue(op) =>
      EnqueueKeepsValid(q, op);
      ContentsSize(q.entries);
      assert op.id in q.Ids() <==> exists e <- q.Contents() :: e.op.id == op.id;
    case Dequeue =>
      FirstIsHead(q);
      if q.entries != [] { DequeueKeepsValid(q); }
    case Remove(id) => RemoveKeepsValid(q, id);
    case Close =>
  }

  /**
   After any sequence of calls the deque lists the specified bag by descending
   priority and then by latest enqueue time, without repeated ids and within the
   bound; so dequeue takes the entry the specification takes.
   */
  lemma {:induction false} QueueRefinesBag(commands: seq<Command>, maxSize: nat)
    ensures var q := QueueRun(commands, maxSize);
            q.Valid() && q.maxSize == maxSize && Abstract(q) == BagRun(commands, maxSize)
  {
    if commands != [] {
      var before := commands[..|commands| - 1];
      QueueRefinesBag(before, maxSize);
      StepRefines(QueueRun(before, maxSize), commands[|commands| - 1]);
    }
  }

  // ---------------------------------------------------------------- the deque

  class OperationDeque {
    var queue: seq<Operation>
    var operationIds: set<string>
    var closed: bool
    const maxSize: nat
    ghost var value: Queue

    ghost predicate Valid()
      reads this
    {
      && value.Valid()
      && |value.entries| == |queue| && (forall i | 0 <= i < |queue| :: value.entries[i].op == queue[i])
      && value.closed == closed && value.maxSize == maxSize
      && operationIds == value.Ids()
    }

    constructor (maxSize: nat)
      ensures Valid() && value == Queue([], 0, false, maxSize)
    {
      this.maxSize := maxSize;
      queue, operationIds, closed := [], {}, false;
      value := Queue([], 0, false, maxSize);
    }

    method Enqueue(op: Operation) returns (ok: bool)
      requires Valid()
      modifies this
      ensures Valid()
      ensures ok == old(value).Accepts(op)
      ensures value == old(value).Enqueue(op)
    {
      hide Before, Insert, Slot, Queue.Valid, Queue.Contents;
      if closed || op.id in operationIds || |queue| >= maxSize {
        return false;
      }
      var i := 0;
      while i < |queue| && op.priority <= queue[i].priority
        invariant 0 <= i <= |queue|
        invariant forall k | 0 <= k < i :: op.priority <= value.entries[k].op.priority
      {
        i := i + 1;
      }
      InsertAt(value.entries, Entry(op, value.clock), i);
      EnqueueKeepsValid(value, op);
      SpliceIn(queue, op, i, queue[..i] + [op] + queue[i..]);
      SpliceIn(value.entries, Entry(op, value.clock), i, value.Enqueue(op).entries);
      queue := queue[..i] + [op] + queue[i..];
      operationIds := operationIds + {op.id};
      value := value.Enqueue(op);
      return true;
    }

    /** What `dequeue` does once its wait is over: something is queued, or the queue is shut down. */
    method Dequeue() returns (r: Option<Operation>)
      requires Valid() && (queue != [] || closed)
      modifies this
      ensures Valid()
      ensures r.None? <==> old(queue) == []
      ensures r.None? ==> value == old(value)
      ensures r.Some? ==> r.value == old(value).entries[0].op && value == old(value).Dequeue()
    {
      if queue == [] {
        return None;
      }
      DequeueKeepsValid(value);
      r := Some(queue[0]);
      queue := queue[1..];
      operationIds := operationIds - {r.value.id};
      value := value.Dequeue();
    }

    method Remove(operationId: string) returns (removed: bool)
      requires Valid()
      modifies this
      ensures Valid()
      ensures removed == (operationId in old(value).Ids())
      ensures value == old(value).Remove(operationId)
    {
      hide Before, Without, Queue.Valid, Queue.Contents;
      var i := 0;
      while i < |queue| && queue[i].id != operationId
        invariant 0 <= i <= |queue|
        invariant forall k | 0 <= k < i :: value.entries[k].op.id != operationId
      {
        i := i + 1;
      }
      WithoutAt(value.entries, operationId, i);
      if i == |queue| {
        return false;
      }
      assert value.entries[i].op.id in value.Ids();
      RemoveKeepsValid(value, operationId);
      CutOut(queue, i, queue[..i] + queue[i + 1..]);
      CutOut(value.entries, i, value.Remove(operationId).entries);
      queue := queue[..i] + queue[i + 1..];
      operationIds := operationIds - {operationId};
      value := value.Remove(operationId);
      return true;
    }

    method Shutdown()
      requires Valid()
      modifies this
      ensures Valid() && value == old(value).(closed := true)
    {
      closed := true;
      value := value.(closed := true);
    }
  }
}
