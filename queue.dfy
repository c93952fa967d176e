/** The central message queue (queue.hh, queue.cc), run sequentially.
  *
  * The library's queue is a singleton whose loop runs in its own thread and
  * blocks on a condition variable while there is nothing to do. Here the
  * queue is a class whose fields are the message list, the running flag and
  * the three callback lists; the loop is split into the steps it takes
  * (start, one pass of draining and idling, exit). Sinks and delegates are
  * identities: a step returns the deliveries and calls it makes, in order. */
module Queues {
  import opened Buffers

  /** A callback registered with the queue: the instance it belongs to and
    * which of that instance's methods it calls. */
  datatype Delegate = Delegate(instance: nat, callback: nat)

  /** `Queue::Message`: a buffer handle, the receiving sink and whether the
    * receiver may overwrite the buffer. It is a value, so copying or
    * assigning a message copies all three. */
  datatype Message = Message(buffer: RawBuffer, sink: nat, allowOverwrite: bool)

  /** The delegates of `ds` that do not belong to `inst`, in their order. */
  function Without(ds: seq<Delegate>, inst: nat): (r: seq<Delegate>)
    ensures |r| <= |ds|
    ensures forall d :: d in r ==> d in ds && d.instance != inst
    ensures forall d :: d in ds && d.instance != inst ==> d in r
  {
    if ds == [] then []
    else if ds[|ds| - 1].instance == inst then Without(ds[..|ds| - 1], inst)
    else Without(ds[..|ds| - 1], inst) + [ds[|ds| - 1]]
  }

  /** Removing the delegates of an instance that never registered one
    * leaves the list as it was. */
  lemma {:induction false} WithoutNoMatch(ds: seq<Delegate>, inst: nat)
    requires forall d :: d in ds ==> d.instance != inst
    ensures Without(ds, inst) == ds
  {
    if ds != [] {
      WithoutNoMatch(ds[..|ds| - 1], inst);
    }
  }

  /** Removal works piecewise, so the delegates kept keep their relative
    * order. */
  lemma {:induction false} WithoutAppend(ds: seq<Delegate>, es: seq<Delegate>, inst: nat)
    ensures Without(ds + es, inst) == Without(ds, inst) + Without(es, inst)
  {
    if es == [] {
      assert ds + es == ds;
    } else {
      var last := es[|es| - 1];
      assert (ds + es)[..|ds + es| - 1] == ds + es[..|es| - 1];
      WithoutAppend(ds, es[..|es| - 1], inst);
    }
  }

  /** Removing an instance twice removes nothing more. */
  lemma {:induction false} WithoutIdempotent(ds: seq<Delegate>, inst: nat)
    ensures Without(Without(ds, inst), inst) == Without(ds, inst)
  {
    WithoutNoMatch(Without(ds, inst), inst);
  }

  /** Registering a delegate and then removing its instance gives the list
    * without that instance. */
  lemma AddThenRemove(ds: seq<Delegate>, d: Delegate)
    ensures Without(ds + [d], d.instance) == Without(ds, d.instance)
  {
    WithoutAppend(ds, [d], d.instance);
    assert [d][..0] == [];
  }

  /** The erase loop of `remIdle`/`remStart`/`remStop`: walks the list and
    * erases, in place, every delegate whose instance is `inst`. */
  method EraseInstance(ds: seq<Delegate>, inst: nat) returns (r: seq<Delegate>)
    ensures r == Without(ds, inst)
  {
    r := ds;
    var item := 0;
    ghost var j := 0;
    while item < |r|
      invariant 0 <= j <= |ds| && item <= |r|
      invariant r[..item] == Without(ds[..j], inst)
      invariant r[item..] == ds[j..]
      decreases |r| - item
    {
      WithoutStep(ds, j, inst);
      if r[item].instance == inst {
        Erased(r, item, ds, j);
        r := r[..item] + r[item + 1..];
      } else {
        Kept(r, item, ds, j);
        item := item + 1;
      }
      j := j + 1;
    }
    assert ds[..j] == ds;
    assert r[..item] == r;
  }

  /** Erasing the element at `item` keeps the part before it and leaves
    * the rest of the original list after it. */
  lemma Erased(r: seq<Delegate>, item: nat, ds: seq<Delegate>, j: nat)
    requires item < |r| && j < |ds| && r[item..] == ds[j..]
    ensures r[item] == ds[j]
    ensures (r[..item] + r[item + 1..])[..item] == r[..item]
    ensures (r[..item] + r[item + 1..])[item..] == ds[j + 1..]
  {
    assert r[item] == r[item..][0];
    assert r[item + 1..] == r[item..][1..];
  }

  /** Stepping over the element at `item` extends the kept part by it. */
  lemma Kept(r: seq<Delegate>, item: nat, ds: seq<Delegate>, j: nat)
    requires item < |r| && j < |ds| && r[item..] == ds[j..]
    ensures r[item] == ds[j]
    ensures r[..item + 1] == r[..item] + [r[item]]
    ensures r[item + 1..] == ds[j + 1..]
  {
    assert r[item] == r[item..][0];
    assert r[item + 1..] == r[item..][1..];
  }

  /** One more delegate of the original list handled by the erase loop. */
  lemma WithoutStep(ds: seq<Delegate>, j: nat, inst: nat)
    requires j < |ds|
    ensures Without(ds[..j + 1], inst) ==
      Without(ds[..j], inst) + (if ds[j].instance == inst then [] else [ds[j]])
  {
    assert ds[..j + 1][..j] == ds[..j];
  }

  /** Calling the delegates of a list one after the other, as the
    * `_signal*` functions do; the calls made are returned in order. */
  method Invoke(ds: seq<Delegate>) returns (calls: seq<Delegate>)
    ensures calls == ds
  {
    calls := [];
    var i := 0;
    while i < |ds|
      invariant 0 <= i <= |ds| && calls == ds[..i]
    {
      calls := calls + [ds[i]];
      i := i + 1;
    }
  }

  /** Whether unreferencing the buffer of `m` decrements the counter `c`. */
  predicate Unrefs(m: Message, c: Counter)
  {
    m.buffer.ptr != null && m.buffer.refcount == c
  }

  /** How many messages of `ms` hold a reference counted by `c`. */
  function Holds(ms: seq<Message>, c: Counter): nat
  {
    if ms == [] then 0
    else Holds(ms[..|ms| - 1], c) + (if Unrefs(ms[|ms| - 1], c) then 1 else 0)
  }

  lemma HoldsSnoc(ms: seq<Message>, m: Message, c: Counter)
    ensures Holds(ms + [m], c) == Holds(ms, c) + (if Unrefs(m, c) then 1 else 0)
  {
    assert (ms + [m])[..|ms|] == ms;
  }

  /** The counters and the owners of the buffers of some messages. */
  function Counters(ms: seq<Message>): set<Counter>
  {
    set m | m in ms && m.buffer.refcount != null :: m.buffer.refcount
  }

  function Owners(ms: seq<Message>): set<BufferSet>
  {
    set m | m in ms && m.buffer.owner != null :: m.buffer.owner
  }

  ghost predicate OwnersValid(ms: seq<Message>)
    reads Owners(ms)
  {
    forall m :: m in ms && m.buffer.owner != null ==> m.buffer.owner.Valid()
  }

  /** Every counter lost exactly one count per message of `done` that held
    * a reference to it. */
  twostate predicate Released(ms: seq<Message>, new done: seq<Message>)
    reads Counters(ms)
  {
    forall c :: c in Counters(ms) ==> c.count == old(c.count) - Holds(done, c)
  }

  /** `msg.buffer().unref()` for one message of `ms`: only the counter of
    * that message loses a count, and every owner stays valid. */
  method Release(ghost ms: seq<Message>, msg: Message)
    requires msg in ms && OwnersValid(ms)
    modifies Counters(ms), Owners(ms)
    ensures OwnersValid(ms)
    ensures forall c :: c in Counters(ms) ==> c.count == old(c.count) - (if Unrefs(msg, c) then 1 else 0)
  {
    var _ := Unref(msg.buffer);
  }

  class Queue {
    var running: bool
    var queue: seq<Message>
    var idle: seq<Delegate>
    var onStart: seq<Delegate>
    var onStop: seq<Delegate>

    /** A new queue is not running and has no messages or callbacks. */
    constructor ()
      ensures !running && queue == [] && idle == [] && onStart == [] && onStop == []
    {
      running, queue := false, [];
      idle, onStart, onStop := [], [], [];
    }

    /** `send`: references the buffer and appends the message at the tail. */
    method Send(buffer: RawBuffer, sink: nat, allowOverwrite: bool)
      modifies this`queue, buffer.refcount
      ensures queue == old(queue) + [Message(buffer, sink, allowOverwrite)]
      ensures buffer.refcount != null ==> buffer.refcount.count == old(buffer.refcount.count) + 1
    {
      Ref(buffer);
      queue := queue + [Message(buffer, sink, allowOverwrite)];
    }

    function IsRunning(): bool
      reads this
    {
      running
    }

    /** `isStopped()` is always the negation of `isRunning()`. */
    function IsStopped(): (r: bool)
      reads this
      ensures r == !IsRunning()
    {
      !running
    }

    /** `start()`: nothing when already running; otherwise the loop begins,
      * sets the running flag and calls the start delegates in order. */
    method Start() returns (startCalls: seq<Delegate>)
      modifies this`running
      ensures running
      ensures startCalls == if old(running) then [] else onStart
    {
      if running {
        return [];
      }
      running := true;
      startCalls := Invoke(onStart);
    }

    /** `stop()`: clears the running flag. */
    method Stop()
      modifies this`running
      ensures !running && IsStopped()
    {
      running := false;
    }

    /** The inner loop of the queue: pops the messages from the front one by
      * one, delivers each to its sink and then unreferences its buffer. */
    method ProcessMessages() returns (delivered: seq<Message>)
      requires OwnersValid(queue)
      modifies this`queue, Counters(queue), Owners(queue)
      ensures queue == [] && delivered == old(queue)
      ensures OwnersValid(old(queue))
      ensures Released(old(queue), old(queue))
    {
      delivered := [];
      while |queue| > 0
        invariant old(queue) == delivered + queue
        invariant OwnersValid(old(queue))
        invariant Released(old(queue), delivered)
        decreases |queue|
      {
        var msg := queue[0];
        assert queue == [msg] + queue[1..];
        assert msg in old(queue);
        queue := queue[1..];
        HoldsSnocAll(old(queue), delivered, msg);
        delivered := delivered + [msg];
        Release(old(queue), msg);
      }
    }

    /** One pass of the outer loop of `_main`: all queued messages are
      * delivered in FIFO order, then, with the queue empty, the idle
      * delegates are called if the queue is still running. */
    method MainIteration() returns (delivered: seq<Message>, idleCalls: seq<Delegate>)
      requires OwnersValid(queue)
      modifies this`queue, Counters(queue), Owners(queue)
      ensures queue == [] && delivered == old(queue)
      ensures Released(old(queue), old(queue))
      ensures idleCalls == if running then idle else []
    {
      delivered := ProcessMessages();
      idleCalls := [];
      if |queue| == 0 && running {
        idleCalls := Invoke(idle);
      }
    }

    /** The end of `_main` and of its thread: the stop delegates are called
      * in order and the queue is no longer running. */
    method Finish() returns (stopCalls: seq<Delegate>)
      modifies this`running
      ensures !running && stopCalls == onStop
    {
      stopCalls := Invoke(onStop);
      running := false;
    }

    /** `wait()` once the loop has ended: every message still queued has its
      * buffer unreferenced and the queue is cleared. */
    method Wait()
      requires OwnersValid(queue)
      modifies this`queue, Counters(queue), Owners(queue)
      ensures queue == []
      ensures Released(old(queue), old(queue))
    {
      var i := 0;
      while i < |queue|
        invariant 0 <= i <= |queue| && queue == old(queue)
        invariant OwnersValid(old(queue))
        invariant Released(old(queue), queue[..i])
      {
        assert queue[i] in old(queue);
        HoldsSnocAll(old(queue), queue[..i], queue[i]);
        assert queue[..i + 1] == queue[..i] + [queue[i]];
        Release(old(queue), queue[i]);
        i := i + 1;
      }
      assert queue[..i] == queue;
      queue := [];
    }

    /** `addIdle`, `addStart`, `addStop`: append to their own list only. */
    method AddIdle(d: Delegate)
      modifies this`idle
      ensures idle == old(idle) + [d]
    {
      idle := idle + [d];
    }

    method AddStart(d: Delegate)
      modifies this`onStart
      ensures onStart == old(onStart) + [d]
    {
      onStart := onStart + [d];
    }

    method AddStop(d: Delegate)
      modifies this`onStop
      ensures onStop == old(onStop) + [d]
    {
      onStop := onStop + [d];
    }

    /** `remIdle`, `remStart`, `remStop`: remove every delegate of the
      * instance from their own list only. */
    method RemIdle(inst: nat)
      modifies this`idle
      ensures idle == Without(old(idle), inst)
    {
      idle := EraseInstance(idle, inst);
    }

    method RemStart(inst: nat)
      modifies this`onStart
      ensures onStart == Without(old(onStart), inst)
    {
      onStart := EraseInstance(onStart, inst);
    }

    method RemStop(inst: nat)
      modifies this`onStop
      ensures onStop == Without(old(onStop), inst)
    {
      onStop := EraseInstance(onStop, inst);
    }
  }

  /** For every message of `ms`, one more message handled adds its own
    * reference to the count of its counter. */
  lemma HoldsSnocAll(ms: seq<Message>, done: seq<Message>, m: Message)
    ensures forall c: Counter :: Holds(done + [m], c) == Holds(done, c) + (if Unrefs(m, c) then 1 else 0)
  {
    forall c: Counter {
      HoldsSnoc(done, m, c);
    }
  }

  /** A buffer sent through the queue is referenced once more while it
    * waits and back at its original count once it has been delivered. */
  method DeliveryScenario() returns (queued: int, after: int, delivered: seq<Message>)
    ensures queued == 2 && after == 1
    ensures |delivered| == 2 && delivered[0].sink == 7 && delivered[1].sink == 8
  {
    var q := new Queue();
    var b := Allocate(4, null, true, true);
    var c := Allocate(4, null, true, true);
    q.Send(b, 7, false);
    q.Send(c, 8, true);
    queued := RefCount(b);
    assert q.queue == [Message(b, 7, false), Message(c, 8, true)];
    delivered := q.ProcessMessages();
    var m1, m2 := Message(b, 7, false), Message(c, 8, true);
    assert delivered == [m1] + [m2];
    HoldsSnoc([], m1, b.refcount);
    HoldsSnoc([m1], m2, b.refcount);
    assert [] + [m1] == [m1];
    after := RefCount(b);
  }
}
