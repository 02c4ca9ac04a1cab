/**
 The dispatcher's queue of connections with something to dispatch.  One thread takes a snapshot,
 dispatches every entry of it until nothing remains, and then erases as many entries from the front,
 while other threads, and the handlers that it runs itself, append.
 */
module Dispatching {

  type Connection = nat

  /** One call of queue_connection; calls are numbered. */
  datatype Entry = Entry(id: nat, conn: Connection)

  datatype Event =
    | Queued(id: nat)
    | Dispatched(id: nat, done: bool)   // do_dispatch returned; done unless data remains
    | Erased(id: nat)

  function Ids(queue: seq<Entry>): seq<nat> {
    seq(|queue|, i requires 0 <= i < |queue| => queue[i].id)
  }

  function QueuedIds(log: seq<Event>): seq<nat> {
    if log == [] then []
    else QueuedIds(log[..|log| - 1]) + (if log[|log| - 1].Queued? then [log[|log| - 1].id] else [])
  }

  function ErasedIds(log: seq<Event>): seq<nat> {
    if log == [] then []
    else ErasedIds(log[..|log| - 1]) + (if log[|log| - 1].Erased? then [log[|log| - 1].id] else [])
  }

  /** The calls of do_dispatch, in order. */
  function Dispatches(log: seq<Event>): seq<Event> {
    if log == [] then []
    else Dispatches(log[..|log| - 1]) + (if log[|log| - 1].Dispatched? then [log[|log| - 1]] else [])
  }

  // ---------- what a round dispatches ----------

  /** Whether data remains after the i-th of the coming calls. */
  predicate Remains(remains: seq<bool>, i: nat) {
    i < |remains| && remains[i]
  }

  function After(remains: seq<bool>, n: nat): seq<bool> {
    if n <= |remains| then remains[n..] else []
  }

  /** One call for every entry. */
  function Calls(queue: seq<Entry>, remains: seq<bool>): seq<Event> {
    seq(|queue|, i requires 0 <= i < |queue| => Dispatched(queue[i].id, !Remains(remains, i)))
  }

  /** The entries of which data remains, in their order. */
  function Left(queue: seq<Entry>, remains: seq<bool>): (left: seq<Entry>)
    ensures |left| <= |queue| && (remains == [] ==> left == [])
  {
    if queue == [] then []
    else
      var last := |queue| - 1;
      Left(queue[..last], remains) + (if Remains(remains, last) then [queue[last]] else [])
  }

  /** Pass after pass until nothing remains of any. */
  function Passes(queue: seq<Entry>, remains: seq<bool>): seq<Event>
    decreases |remains|, |queue|
  {
    if queue == [] then []
    else Calls(queue, remains) + Passes(Left(queue, remains), After(remains, |queue|))
  }

  lemma Joined(a: seq<Event>, b: seq<Event>, c: seq<Event>)
    ensures (a + b) + c == a + (b + c)
  {
  }

  lemma AfterFalls(queue: seq<Entry>, remains: seq<bool>)
    requires queue != []
    ensures |After(remains, |queue|)| < |remains| || (After(remains, |queue|) == remains && Left(queue, remains) == [])
  {
  }

  lemma PassBegins(snapshot: seq<Entry>, remains: seq<bool>)
    ensures Left(snapshot[..0], remains) == [] && Calls(snapshot[..0], remains) == [] && After(remains, 0) == remains
  {
  }

  lemma PassGoesOn(snapshot: seq<Entry>, remains: seq<bool>, m: nat)
    requires m < |snapshot|
    ensures var e, done := snapshot[m], !Remains(After(remains, m), 0);
            && Left(snapshot[..m + 1], remains) == Left(snapshot[..m], remains) + (if done then [] else [e])
            && Calls(snapshot[..m + 1], remains) == Calls(snapshot[..m], remains) + [Dispatched(e.id, done)]
    ensures After(After(remains, m), 1) == After(remains, m + 1)
  {
    assert snapshot[..m + 1][..m] == snapshot[..m];
    assert Remains(After(remains, m), 0) == Remains(remains, m);
    AfterTwice(remains, m, 1);
  }

  /** The list of a pass with and without its i-th entry. */
  lemma Without(queue: seq<Entry>, i: nat, snapshot: seq<Entry>, m: nat)
    requires i < |queue| && m < |snapshot| && queue[i..] == snapshot[m..]
    ensures var rest := queue[..i] + queue[i + 1..];
            && queue[i] == snapshot[m] && rest[..i] == queue[..i] && rest[i..] == snapshot[m + 1..]
            && forall x :: x in queue ==> x in rest || x == queue[i]
    ensures queue[..i + 1] == queue[..i] + [queue[i]] && queue[i + 1..] == snapshot[m + 1..]
  {
    assert queue == queue[..i] + [queue[i]] + queue[i + 1..];
    assert queue[i + 1..] == queue[i..][1..] == snapshot[m..][1..];
    assert queue[i..][0] == snapshot[m..][0];
  }

  lemma AfterTwice(remains: seq<bool>, m: nat, n: nat)
    ensures After(After(remains, m), n) == After(remains, m + n)
  {
  }

  predicate Apart(ids: seq<nat>) {
    forall i, j :: 0 <= i < j < |ids| ==> ids[i] != ids[j]
  }

  lemma ApartLast(ids: seq<nat>, id: nat)
    ensures Apart(ids + [id]) <==> Apart(ids) && id !in ids
  {
    var all := ids + [id];
    if Apart(all) {
      assert forall i :: 0 <= i < |ids| ==> ids[i] == all[i];
      assert all[|ids|] == id;
    }
  }

  /** An entry stays exactly when data remains of it. */
  lemma {:induction false} LeftIff(queue: seq<Entry>, remains: seq<bool>)
    requires Apart(Ids(queue))
    ensures var left := Ids(Left(queue, remains));
            && Apart(left) && (forall id :: id in left ==> id in Ids(queue))
            && forall i :: 0 <= i < |queue| ==> (queue[i].id in left <==> Remains(remains, i))
    decreases |queue|
  {
    if queue != [] {
      var most, last := queue[..|queue| - 1], queue[|queue| - 1];
      var left := Left(most, remains);
      assert Ids(queue) == Ids(most) + [last.id];
      assert Ids(left + [last]) == Ids(left) + [last.id] && left + [] == left;
      assert Left(queue, remains) == if Remains(remains, |most|) then left + [last] else left;
      hide Left, Apart, Remains;
      ApartLast(Ids(most), last.id);
      LeftIff(most, remains);
      ApartLast(Ids(left), last.id);
      forall i | 0 <= i < |most|
        ensures queue[i].id != last.id && (queue[i].id in Ids(left) <==> Remains(remains, i))
      {
        assert queue[i] == most[i] && Ids(most)[i] == queue[i].id;
      }
    }
  }

  /** Each entry is dispatched until nothing remains of it, and not once more; nothing else is. */
  predicate UntilDone(ids: seq<nat>, calls: seq<Event>) {
    && (forall k :: 0 <= k < |calls| ==> calls[k].Dispatched? && calls[k].id in ids)
    && (forall id :: id in ids ==> Dispatched(id, true) in calls)
    && (forall j, k :: 0 <= j < k < |calls| && calls[j] == Dispatched(calls[j].id, true)
          ==> calls[k].id != calls[j].id)
  }

  lemma {:induction false} PassesUntilDone(queue: seq<Entry>, remains: seq<bool>)
    requires Apart(Ids(queue))
    ensures UntilDone(Ids(queue), Passes(queue, remains))
    decreases |remains|, |queue|
  {
    if queue != [] {
      var calls, left, later := Calls(queue, remains), Left(queue, remains), After(remains, |queue|);
      assert Passes(queue, remains) == calls + Passes(left, later);
      LeftIff(queue, remains);
      PassesUntilDone(left, later);
      hide Left, UntilDone, Passes, After;
      OnePass(Ids(queue), Ids(left), calls, Passes(left, later));
    }
  }

  lemma OnePass(ids: seq<nat>, left: seq<nat>, calls: seq<Event>, more: seq<Event>)
    requires Apart(ids) && UntilDone(left, more) && forall id :: id in left ==> id in ids
    requires |calls| == |ids| && forall i :: 0 <= i < |ids| ==> calls[i] == Dispatched(ids[i], ids[i] !in left)
    ensures UntilDone(ids, calls + more)
  {
    var all := calls + more;
    forall id | id in ids
      ensures Dispatched(id, true) in all
    {
      if id !in left {
        var i :| 0 <= i < |ids| && ids[i] == id;
        assert all[i] == Dispatched(id, true);
      }
    }
    forall j, k | 0 <= j < k < |all| && all[j] == Dispatched(all[j].id, true)
      ensures all[k].id != all[j].id
    {
      if k >= |calls| {
        assert all[k] == more[k - |calls|];
      }
    }
  }

  /** Nothing is dispatched before it is queued, nor erased before a dispatch of it has finished. */
  ghost predicate InTime(log: seq<Event>) {
    forall k :: 0 <= k < |log| ==>
      && (log[k].Dispatched? ==> Queued(log[k].id) in log[..k])
      && (log[k].Erased? ==> Dispatched(log[k].id, true) in log[..k])
  }

  lemma Grow(log: seq<Event>, e: Event)
    ensures QueuedIds(log + [e]) == QueuedIds(log) + (if e.Queued? then [e.id] else [])
    ensures ErasedIds(log + [e]) == ErasedIds(log) + (if e.Erased? then [e.id] else [])
    ensures Dispatches(log + [e]) == Dispatches(log) + (if e.Dispatched? then [e] else [])
    ensures forall x :: x in log + [e] <==> x in log || x == e
  {
    assert (log + [e])[..|log|] == log;
  }

  lemma GrowInTime(log: seq<Event>, e: Event)
    requires InTime(log)
    requires e.Dispatched? ==> Queued(e.id) in log
    requires e.Erased? ==> Dispatched(e.id, true) in log
    ensures InTime(log + [e])
  {
    forall k | 0 <= k < |log + [e]|
      ensures (log + [e])[..k] == log[..k]
    {
    }
    assert (log + [e])[..|log|] == log[..|log|] == log;
  }

  /** Every queued entry is either erased or pending, in the order of queueing. */
  ghost predicate Consistent(pending: seq<Entry>, next: nat, log: seq<Event>) {
    && QueuedIds(log) == seq(next, i => i)
    && ErasedIds(log) + Ids(pending) == QueuedIds(log)
    && InTime(log)
    && (forall e :: e in pending ==> Queued(e.id) in log)
  }

  lemma Append(pending: seq<Entry>, next: nat, log: seq<Event>, conn: Connection)
    requires Consistent(pending, next, log)
    ensures Consistent(pending + [Entry(next, conn)], next + 1, log + [Queued(next)])
  {
    hide InTime, QueuedIds, ErasedIds, Dispatches;
    Grow(log, Queued(next));
    GrowInTime(log, Queued(next));
    var e := Entry(next, conn);
    assert Ids(pending + [e]) == Ids(pending) + [next];
    assert ErasedIds(log) + (Ids(pending) + [next]) == (ErasedIds(log) + Ids(pending)) + [next];
    assert seq(next + 1, i => i) == seq(next, i => i) + [next];
  }

  lemma Serve(pending: seq<Entry>, next: nat, log: seq<Event>, id: nat, done: bool)
    requires Consistent(pending, next, log) && Queued(id) in log
    ensures Consistent(pending, next, log + [Dispatched(id, done)])
  {
    hide InTime, QueuedIds, ErasedIds, Dispatches;
    Grow(log, Dispatched(id, done));
    GrowInTime(log, Dispatched(id, done));
  }

  lemma Shift(a: seq<nat>, x: nat, b: seq<nat>)
    ensures a + ([x] + b) == (a + [x]) + b
  {
  }

  lemma Erase(pending: seq<Entry>, next: nat, log: seq<Event>)
    requires Consistent(pending, next, log) && pending != []
    requires Dispatched(pending[0].id, true) in log
    ensures Consistent(pending[1..], next, log + [Erased(pending[0].id)])
  {
    var id, rest := pending[0].id, pending[1..];
    assert Ids(pending) == [id] + Ids(rest);
    hide InTime, QueuedIds, ErasedIds, Dispatches, Ids;
    GrowInTime(log, Erased(id));
    Grow(log, Erased(id));
    Shift(ErasedIds(log), id, Ids(rest));
  }

  class Dispatcher {
    var pending: seq<Entry>             // _pending_queue
    var next: nat
    var log: seq<Event>
    var arrivals: seq<seq<Connection>>  // what gets queued in the coming moments without the lock
    var remains: seq<bool>              // whether data remains after the coming calls of do_dispatch

    ghost predicate Valid()
      reads this
    {
      Consistent(pending, next, log)
    }

    constructor (arrivals: seq<seq<Connection>>, remains: seq<bool>)
      ensures Valid() && pending == [] && log == []
      ensures this.arrivals == arrivals && this.remains == remains
    {
      pending, next, log := [], 0, [];
      this.arrivals, this.remains := arrivals, remains;
    }

    method QueueConnection(conn: Connection)
      requires Valid()
      modifies this`pending, this`next, this`log
      ensures Valid() && next == old(next) + 1
      ensures pending == old(pending) + [Entry(old(next), conn)]
      ensures log == old(log) + [Queued(old(next))] && Dispatches(log) == Dispatches(old(log))
    {
      hide Consistent, Dispatches;
      Grow(log, Queued(next));
      Append(pending, next, log, conn);
      pending := pending + [Entry(next, conn)];
      log := log + [Queued(next)];
      next := next + 1;
    }

    /** A moment in which the lock is free: entries are appended, none is taken away. */
    method Interfere()
      requires Valid()
      modifies this`pending, this`next, this`log, this`arrivals
      ensures Valid() && old(pending) <= pending && old(log) <= log
      ensures |pending| - |old(pending)| == next - old(next)
      ensures old(arrivals) == [] ==> arrivals == [] && pending == old(pending) && log == old(log)
      ensures old(arrivals) != [] ==> arrivals == old(arrivals)[1..]
      ensures Dispatches(log) == Dispatches(old(log))
    {
      hide Consistent, Dispatches;
      if arrivals == [] {
        return;
      }
      var conns := arrivals[0];
      arrivals := arrivals[1..];
      for i := 0 to |conns|
        invariant Valid() && arrivals == old(arrivals)[1..] && Dispatches(log) == Dispatches(old(log))
        invariant old(pending) <= pending && old(log) <= log
        invariant |pending| - |old(pending)| == next - old(next)
      {
        QueueConnection(conns[i]);
      }
    }

    /** Connection::Private::do_dispatch: true unless data remains.  Handlers may queue connections. */
    method DoDispatch(e: Entry) returns (done: bool)
      requires Valid() && Queued(e.id) in log
      modifies this`pending, this`next, this`log, this`arrivals, this`remains
      ensures Valid() && old(pending) <= pending && old(log) <= log
      ensures |pending| - |old(pending)| == next - old(next)
      ensures |arrivals| <= |old(arrivals)| && (old(arrivals) != [] ==> |arrivals| < |old(arrivals)|)
      ensures old(arrivals) == [] ==> pending == old(pending)
      ensures done == !Remains(old(remains), 0) && remains == After(old(remains), 1)
      ensures |log| > 0 && log[|log| - 1] == Dispatched(e.id, done)
      ensures Dispatches(log) == Dispatches(old(log)) + [Dispatched(e.id, done)]
    {
      hide Consistent, Dispatches;
      Interfere();
      done := remains == [] || !remains[0];
      remains := if remains == [] then [] else remains[1..];
      Serve(pending, next, log, e.id, done);
      Grow(log, Dispatched(e.id, done));
      log := log + [Dispatched(e.id, done)];
    }

    /** One pass over the snapshot: what is done leaves it, what is not stays for the next pass. */
    method Pass(snapshot: seq<Entry>) returns (queue: seq<Entry>)
      requires Valid() && forall e :: e in snapshot ==> Queued(e.id) in log
      modifies this`pending, this`next, this`log, this`arrivals, this`remains
      ensures Valid() && old(pending) <= pending && old(log) <= log
      ensures |pending| - |old(pending)| == next - old(next)
      ensures |arrivals| <= |old(arrivals)|
      ensures snapshot != [] && old(arrivals) != [] ==> |arrivals| < |old(arrivals)|
      ensures old(arrivals) == [] ==> pending == old(pending)
      ensures queue == Left(snapshot, old(remains)) && remains == After(old(remains), |snapshot|)
      ensures Dispatches(log) == Dispatches(old(log)) + Calls(snapshot, old(remains))
      ensures forall e :: e in queue ==> e in snapshot
      ensures forall e :: e in snapshot ==> e in queue || Dispatched(e.id, true) in log
    {
      hide Consistent, Dispatches, Left, Calls, Remains, After;
      queue := snapshot;
      var i := 0;
      ghost var m := 0;
      PassBegins(snapshot, remains);
      assert Dispatches(log) + [] == Dispatches(log);
      while i < |queue|
        invariant m <= |snapshot| && i <= |queue| && |queue| - i == |snapshot| - m
        invariant queue[..i] == Left(snapshot[..m], old(remains)) && queue[i..] == snapshot[m..]
        invariant remains == After(old(remains), m)
        invariant Dispatches(log) == Dispatches(old(log)) + Calls(snapshot[..m], old(remains))
        invariant Valid() && old(pending) <= pending && old(log) <= log
        invariant |pending| - |old(pending)| == next - old(next)
        invariant |arrivals| <= |old(arrivals)|
        invariant m == 0 || old(arrivals) == [] || |arrivals| < |old(arrivals)|
        invariant old(arrivals) == [] ==> pending == old(pending)
        invariant forall e :: e in queue ==> e in snapshot
        invariant forall e :: e in snapshot ==> e in queue || Dispatched(e.id, true) in log
        decreases |queue| - i
      {
        var e := queue[i];
        Without(queue, i, snapshot, m);
        ghost var logged := log;
        PassGoesOn(snapshot, old(remains), m);
        var done := DoDispatch(e);
        assert forall x :: x in logged ==> x in log;
        assert Dispatched(e.id, done) in log;
        Joined(Dispatches(old(log)), Calls(snapshot[..m], old(remains)), [Dispatched(e.id, done)]);
        if done {
          queue := queue[..i] + queue[i + 1..];
        } else {
          i := i + 1;
        }
        m := m + 1;
      }
      assert snapshot[..m] == snapshot && queue[..i] == queue;
    }

    /** dispatch_pending on the snapshot: pass after pass until every entry is done. */
    method DispatchCopy(snapshot: seq<Entry>)
      requires Valid() && forall e :: e in snapshot ==> Queued(e.id) in log
      modifies this`pending, this`next, this`log, this`arrivals, this`remains
      ensures Valid() && old(pending) <= pending && old(log) <= log
      ensures |pending| - |old(pending)| == next - old(next)
      ensures |arrivals| <= |old(arrivals)|
      ensures snapshot != [] && old(arrivals) != [] ==> |arrivals| < |old(arrivals)|
      ensures old(arrivals) == [] ==> pending == old(pending)
      ensures forall e :: e in snapshot ==> Dispatched(e.id, true) in log
      ensures Dispatches(log) == Dispatches(old(log)) + Passes(snapshot, old(remains))
    {
      hide Consistent, Dispatches, Calls, Left, After;
      var queue := snapshot;
      ghost var before, all := Dispatches(log), Passes(snapshot, remains);
      while |queue| > 0
        invariant Valid() && old(pending) <= pending && old(log) <= log
        invariant |pending| - |old(pending)| == next - old(next)
        invariant |arrivals| <= |old(arrivals)|
        invariant queue == snapshot || old(arrivals) == [] || |arrivals| < |old(arrivals)|
        invariant old(arrivals) == [] ==> pending == old(pending)
        invariant forall e :: e in queue ==> Queued(e.id) in log
        invariant forall e :: e in snapshot ==> e in queue || Dispatched(e.id, true) in log
        invariant Dispatches(log) + Passes(queue, remains) == before + all
        decreases |remains|, |queue|
      {
        ghost var logged, calls := log, Calls(queue, remains);
        AfterFalls(queue, remains);
        Joined(Dispatches(log), calls, Passes(Left(queue, remains), After(remains, |queue|)));
        queue := Pass(queue);
        assert forall x :: x in logged ==> x in log;
      }
    }

    /** Erase `count` entries from the front, one by one. */
    method EraseFront(count: nat)
      requires Valid() && count <= |pending|
      requires forall e :: e in pending[..count] ==> Dispatched(e.id, true) in log
      modifies this`pending, this`log
      ensures Valid() && old(log) <= log && Dispatches(log) == Dispatches(old(log))
      ensures pending == old(pending)[count..]
    {
      hide Consistent, Dispatches;
      var counter := 0;
      while counter < count && pending != []
        invariant counter <= count && Valid() && old(log) <= log && Dispatches(log) == Dispatches(old(log))
        invariant pending == old(pending)[counter..]
      {
        assert pending[0] == old(pending)[..count][counter];
        Erase(pending, next, log);
        Grow(log, Erased(pending[0].id));
        log := log + [Erased(pending[0].id)];
        pending := pending[1..];
        counter := counter + 1;
      }
    }

    /**
     One round of the loop of dispatch_pending.  Others append while the snapshot is dispatched, between
     its last dispatch and the lock for erasing, and before the next look at the queue; what is erased is
     the snapshot, and what is pending afterwards is exactly what arrived meanwhile, in order.
     */
    method Round()
      requires Valid() && pending != []
      modifies this
      ensures Valid() && old(log) <= log
      ensures ErasedIds(log) == ErasedIds(old(log)) + Ids(old(pending))
      ensures Dispatches(log) == Dispatches(old(log)) + Passes(old(pending), old(remains))
      ensures UntilDone(Ids(old(pending)), Passes(old(pending), old(remains)))
      ensures Ids(pending) == seq(next - old(next), i requires 0 <= i => old(next) + i)
      ensures |arrivals| <= |old(arrivals)| && (old(arrivals) != [] ==> |arrivals| < |old(arrivals)|)
      ensures old(arrivals) == [] ==> pending == []
    {
      ghost var before := log;
      var snapshot := pending;
      hide Consistent, Dispatches, Passes, UntilDone;
      PendingServed(pending, next, log, remains);
      DispatchCopy(snapshot) by { PendingQueued(pending, next, log); }
      ghost var served := log;
      Interfere();
      assert forall x :: x in served ==> x in log;
      assert pending[..|snapshot|] == snapshot;
      EraseFront(|snapshot|);
      Interfere();
      assert |pending| == next - old(next);
      Balanced(pending, next, log, snapshot, old(next), before);
    }

    /**
     Dispatcher::dispatch_pending.  It ends whenever the arrivals do; then every entry that was ever
     queued has been erased, in the order of queueing, and before that dispatched until nothing
     remained, after it was queued.
     */
    method DispatchPending()
      requires Valid()
      modifies this
      ensures Valid() && pending == [] && old(log) <= log
      ensures ErasedIds(log) == QueuedIds(log)
    {
      hide QueuedIds, ErasedIds, Dispatches, InTime;
      while true
        invariant Valid() && old(log) <= log
        decreases |arrivals|, |pending|
      {
        if pending == [] {
          break;
        }
        Round();
      }
      assert Ids(pending) == [];
      assert ErasedIds(log) + [] == ErasedIds(log);
    }
  }

  lemma PendingQueued(pending: seq<Entry>, next: nat, log: seq<Event>)
    requires Consistent(pending, next, log)
    ensures forall e :: e in pending ==> Queued(e.id) in log
  {
  }

  /** What is pending are the entries queued last, and what is erased are all the others. */
  lemma Newest(pending: seq<Entry>, next: nat, log: seq<Event>)
    requires Consistent(pending, next, log)
    ensures |pending| <= next
    ensures ErasedIds(log) == seq(next - |pending|, i => i)
    ensures Ids(pending) == seq(|pending|, i requires 0 <= i => next - |pending| + i)
  {
    hide InTime;
    var erased, all := ErasedIds(log), seq(next, i => i);
    assert erased + Ids(pending) == all && |Ids(pending)| == |pending|;
    assert erased == all[..|erased|] && Ids(pending) == all[|erased|..];
  }

  lemma PendingServed(pending: seq<Entry>, next: nat, log: seq<Event>, remains: seq<bool>)
    requires Consistent(pending, next, log)
    ensures UntilDone(Ids(pending), Passes(pending, remains))
  {
    hide UntilDone, Passes;
    Newest(pending, next, log);
    PassesUntilDone(pending, remains);
  }

  lemma Balanced(pending: seq<Entry>, next: nat, log: seq<Event>, snapshot: seq<Entry>, first: nat, before: seq<Event>)
    requires Consistent(pending, next, log) && Consistent(snapshot, first, before) && |pending| == next - first
    ensures ErasedIds(log) == ErasedIds(before) + Ids(snapshot)
    ensures Ids(pending) == seq(next - first, i requires 0 <= i => first + i)
  {
    Newest(pending, next, log);
    Newest(snapshot, first, before);
    hide Consistent, ErasedIds, Ids;
    assert seq(first - |snapshot|, i => i) + seq(|snapshot|, i requires 0 <= i => first - |snapshot| + i)
        == seq(first, i => i);
  }

  /**
   What the log of a whole run says of each entry: queued, then dispatched until done, then erased,
   each at its own place.
   */
  lemma {:induction false} EntryServed(log: seq<Event>, id: nat)
    requires InTime(log) && id in ErasedIds(log)
    ensures exists i, j, k :: 0 <= i < j < k < |log|
              && log[i] == Queued(id) && log[j] == Dispatched(id, true) && log[k] == Erased(id)
    decreases |log|
  {
    ErasedInLog(log, id);
    var k :| 0 <= k < |log| && log[k] == Erased(id);
    assert Dispatched(id, true) in log[..k];
    var j :| 0 <= j < k && log[j] == Dispatched(id, true);
    assert Queued(id) in log[..j];
    var i :| 0 <= i < j && log[i] == Queued(id);
  }

  lemma {:induction false} ErasedInLog(log: seq<Event>, id: nat)
    requires id in ErasedIds(log)
    ensures exists k :: 0 <= k < |log| && log[k] == Erased(id)
    decreases |log|
  {
    var rest, last := log[..|log| - 1], log[|log| - 1];
    if last == Erased(id) {
      assert log[|log| - 1] == Erased(id);
    } else {
      ErasedInLog(rest, id);
      var k :| 0 <= k < |rest| && rest[k] == Erased(id);
      assert log[k] == Erased(id);
    }
  }
}
