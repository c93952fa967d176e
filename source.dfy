/** Sources and sinks (node.hh, node.cc): a source keeps its configuration
  * and a table of connected sinks, each marked as direct (called at once)
  * or queued (delivered through the message queue).
  *
  * Sinks are identities here. The table, a `std::map` from sink pointers
  * to flags, is a sequence of entries kept in strictly increasing sink
  * order, the order in which the map is walked. What a source asks of a
  * sink is returned as a list of calls, in order; queued deliveries go to
  * a `Queue` passed in, which stands for the singleton. */
module Nodes {
  import opened Common
  import opened NodeConfig
  import opened Buffers
  import opened Queues

  datatype SinkEntry = SinkEntry(sink: nat, direct: bool)

  /** A call from a source to a sink: a buffer handed over directly, or a
    * configuration. */
  datatype Call =
    | HandleBuffer(sink: nat, buffer: RawBuffer, allowOverwrite: bool)
    | Configure(sink: nat, config: Config)

  predicate Sorted(es: seq<SinkEntry>)
  {
    forall i, j :: 0 <= i < j < |es| ==> es[i].sink < es[j].sink
  }

  /** The flag a sink is connected with, if it is connected. */
  function Lookup(es: seq<SinkEntry>, s: nat): Option<bool>
  {
    if es == [] then None
    else if es[0].sink == s then Some(es[0].direct)
    else Lookup(es[1..], s)
  }

  lemma {:induction false} LookupIn(es: seq<SinkEntry>, s: nat)
    ensures Lookup(es, s).Some? <==> exists i :: 0 <= i < |es| && es[i].sink == s
  {
    if es != [] {
      LookupIn(es[1..], s);
      if Lookup(es[1..], s).Some? {
        var i :| 0 <= i < |es[1..]| && es[1..][i].sink == s;
        assert es[i + 1].sink == s;
      }
      if exists i :: 0 <= i < |es| && es[i].sink == s {
        var i :| 0 <= i < |es| && es[i].sink == s;
        if i > 0 {
          assert es[1..][i - 1].sink == s;
        }
      }
    }
  }

  /** `_sinks[sink] = direct`: replaces the entry of `s` or inserts one at
    * its place in sink order. */
  function Insert(es: seq<SinkEntry>, s: nat, direct: bool): (r: seq<SinkEntry>)
    requires Sorted(es)
    ensures Sorted(r)
    ensures Lookup(r, s) == Some(direct)
    ensures forall t :: t != s ==> Lookup(r, t) == Lookup(es, t)
    ensures |r| == |es| + (if Lookup(es, s).None? then 1 else 0)
    ensures |r| > 0 && (r[0].sink == s || (es != [] && r[0].sink == es[0].sink))
  {
    if es == [] then [SinkEntry(s, direct)]
    else if es[0].sink == s then [SinkEntry(s, direct)] + es[1..]
    else if s < es[0].sink then
      LookupBelow(es, s);
      [SinkEntry(s, direct)] + es
    else [es[0]] + Insert(es[1..], s, direct)
  }

  /** A sink ordered before the first entry of a sorted table is not in it. */
  lemma LookupBelow(es: seq<SinkEntry>, s: nat)
    requires Sorted(es) && es != [] && s < es[0].sink
    ensures Lookup(es, s).None?
  {
    LookupIn(es, s);
  }

  /** `_sinks.erase(sink)`. */
  function Remove(es: seq<SinkEntry>, s: nat): (r: seq<SinkEntry>)
    requires Sorted(es)
    ensures Sorted(r)
    ensures Lookup(r, s).None?
    ensures forall t :: t != s ==> Lookup(r, t) == Lookup(es, t)
    ensures |r| == |es| - (if Lookup(es, s).Some? then 1 else 0)
    ensures r != [] ==> es != [] && es[0].sink <= r[0].sink
  {
    if es == [] then []
    else if es[0].sink == s then
      if es[1..] != [] then LookupBelow(es[1..], s); es[1..] else es[1..]
    else [es[0]] + Remove(es[1..], s)
  }

  /** The overwrite permission a source gives: only when the caller allows
    * it and exactly one sink is connected. */
  function Granted(allow: bool, sinks: nat): (g: bool)
    ensures g ==> allow && sinks == 1
  {
    allow && 1 == sinks
  }

  /** The queued deliveries of a send: one message per queued sink, in
    * sink order. */
  function Queued(es: seq<SinkEntry>, buffer: RawBuffer, allow: bool): (ms: seq<Message>)
    ensures |ms| <= |es|
    ensures forall m :: m in ms ==> m.buffer == buffer && m.allowOverwrite == allow
  {
    if es == [] then []
    else Queued(es[..|es| - 1], buffer, allow) + QueuedOne(es[|es| - 1], buffer, allow)
  }

  function QueuedOne(e: SinkEntry, buffer: RawBuffer, allow: bool): seq<Message>
  {
    if e.direct then [] else [Message(buffer, e.sink, allow)]
  }

  /** The direct deliveries of a send, in sink order. */
  function Direct(es: seq<SinkEntry>, buffer: RawBuffer, allow: bool): (cs: seq<Call>)
    ensures |cs| <= |es|
    ensures forall c :: c in cs ==> c.HandleBuffer? && c.buffer == buffer && c.allowOverwrite == allow
  {
    if es == [] then []
    else Direct(es[..|es| - 1], buffer, allow) + DirectOne(es[|es| - 1], buffer, allow)
  }

  function DirectOne(e: SinkEntry, buffer: RawBuffer, allow: bool): seq<Call>
  {
    if e.direct then [HandleBuffer(e.sink, buffer, allow)] else []
  }

  /** Every connected sink gets the buffer exactly once: directly or
    * through the queue. */
  lemma {:induction false} EachSinkOnce(es: seq<SinkEntry>, buffer: RawBuffer, allow: bool)
    ensures |Direct(es, buffer, allow)| + |Queued(es, buffer, allow)| == |es|
  {
    if es != [] {
      EachSinkOnce(es[..|es| - 1], buffer, allow);
    }
  }

  /** With more than one connected sink, no delivery may overwrite the
    * buffer. */
  lemma SharedBufferReadOnly(es: seq<SinkEntry>, buffer: RawBuffer, allow: bool)
    requires |es| > 1
    ensures forall c :: c in Direct(es, buffer, Granted(allow, |es|)) ==> !c.allowOverwrite
    ensures forall m :: m in Queued(es, buffer, Granted(allow, |es|)) ==> !m.allowOverwrite
  {
  }

  function Configures(es: seq<SinkEntry>, c: Config): (cs: seq<Call>)
    ensures |cs| == |es|
    ensures forall i :: 0 <= i < |es| ==> cs[i] == Configure(es[i].sink, c)
  {
    if es == [] then [] else [Configure(es[0].sink, c)] + Configures(es[1..], c)
  }

  /** `Sink<T>::handleBuffer`: the raw buffer is viewed as elements of the
    * sink's type and passed on with the same overwrite flag. */
  function SinkHandleBuffer(raw: RawBuffer, elemSize: nat, allowOverwrite: bool): (r: (Buffer, bool))
    requires elemSize >= 1
    ensures r.0.raw == raw && r.0.elemSize == elemSize
    ensures r.0.size == raw.length / elemSize && r.1 == allowOverwrite
  {
    (FromRaw(raw, elemSize), allowOverwrite)
  }

  class Source {
    var config: Config
    var sinks: seq<SinkEntry>

    ghost predicate Valid()
      reads this
    {
      Sorted(sinks)
    }

    /** A new source has the default configuration and no sinks. */
    constructor ()
      ensures Valid() && config == DefaultConfig() && sinks == []
    {
      config, sinks := DefaultConfig(), [];
    }

    /** `connect(sink, direct)`: records the sink, replacing an earlier
      * entry of it, and configures it with the current configuration. */
    method Connect(sink: nat, direct: bool) returns (call: Call)
      requires Valid()
      modifies this`sinks
      ensures Valid() && sinks == Insert(old(sinks), sink, direct)
      ensures Lookup(sinks, sink) == Some(direct)
      ensures forall t :: t != sink ==> Lookup(sinks, t) == Lookup(old(sinks), t)
      ensures call == Configure(sink, config)
    {
      sinks := Insert(sinks, sink, direct);
      call := Configure(sink, config);
    }

    /** `disconnect(sink)`: removes that sink only. */
    method Disconnect(sink: nat)
      requires Valid()
      modifies this`sinks
      ensures Valid() && sinks == Remove(old(sinks), sink)
      ensures Lookup(sinks, sink).None?
      ensures forall t :: t != sink ==> Lookup(sinks, t) == Lookup(old(sinks), t)
    {
      sinks := Remove(sinks, sink);
    }

    /** `propagateConfig`: configures every connected sink, in sink order,
      * with the stored configuration. */
    method PropagateConfig() returns (calls: seq<Call>)
      ensures calls == Configures(sinks, config)
    {
      calls := [];
      var i := 0;
      while i < |sinks|
        invariant 0 <= i <= |sinks|
        invariant |calls| == i && forall k :: 0 <= k < i ==> calls[k] == Configure(sinks[k].sink, config)
      {
        calls := calls + [Configure(sinks[i].sink, config)];
        i := i + 1;
      }
    }

    /** `setConfig`: a configuration equal to the stored one changes
      * nothing; any other is stored and passed to every sink. */
    method SetConfig(c: Config) returns (calls: seq<Call>)
      modifies this`config
      ensures c == old(config) ==> config == old(config) && calls == []
      ensures c != old(config) ==> config == c && calls == Configures(sinks, c)
    {
      if ConfigEquals(c, config) {
        return [];
      }
      config := c;
      calls := PropagateConfig();
    }

    /** `send(buffer, allowOverwrite)`: walks the sinks in order; direct
      * ones are called at once, the others get a message on the queue.
      * Each is allowed to overwrite the buffer only if the caller allows it
      * and it is the only sink. */
    method Send(buffer: RawBuffer, allowOverwrite: bool, q: Queue) returns (calls: seq<Call>)
      modifies q`queue, buffer.refcount
      ensures calls == Direct(sinks, buffer, Granted(allowOverwrite, |sinks|))
      ensures q.queue == old(q.queue) + Queued(sinks, buffer, Granted(allowOverwrite, |sinks|))
      ensures buffer.refcount != null ==>
        buffer.refcount.count == old(buffer.refcount.count) + |Queued(sinks, buffer, Granted(allowOverwrite, |sinks|))|
    {
      calls := SendAll(sinks, buffer, allowOverwrite, q);
    }
  }

  /** The send loop over the sinks `es`. */
  method SendAll(es: seq<SinkEntry>, buffer: RawBuffer, allowOverwrite: bool, q: Queue) returns (calls: seq<Call>)
    modifies q`queue, buffer.refcount
    ensures calls == Direct(es, buffer, Granted(allowOverwrite, |es|))
    ensures q.queue == old(q.queue) + Queued(es, buffer, Granted(allowOverwrite, |es|))
    ensures buffer.refcount != null ==>
      buffer.refcount.count == old(buffer.refcount.count) + |Queued(es, buffer, Granted(allowOverwrite, |es|))|
  {
    var allow := allowOverwrite;
    ghost var g := Granted(allowOverwrite, |es|);
    ghost var q0 := q.queue;
    ghost var rc := buffer.refcount;
    ghost var c0 := if rc != null then rc.count else 0;
    calls := [];
    var i := 0;
    while i < |es|
      invariant 0 <= i <= |es|
      invariant allow == if i == 0 then allowOverwrite else g
      invariant calls == Direct(es[..i], buffer, g)
      invariant q.queue == q0 + Queued(es[..i], buffer, g)
      invariant rc != null ==> rc.count - c0 == |q.queue| - |q0|
    {
      allow := allow && (1 == |es|);
      calls := SendNext(es, i, buffer, allow, q, calls, q0, rc, c0);
      i := i + 1;
    }
    assert es[..i] == es;
  }

  /** One turn of the send loop: sink `i` gets the buffer and the deliveries
    * so far grow by it. */
  method SendNext(es: seq<SinkEntry>, i: nat, buffer: RawBuffer, allow: bool, q: Queue, calls: seq<Call>,
                  ghost q0: seq<Message>, ghost rc: Counter?, ghost c0: int) returns (next: seq<Call>)
    requires i < |es| && rc == buffer.refcount
    requires calls == Direct(es[..i], buffer, allow)
    requires q.queue == q0 + Queued(es[..i], buffer, allow)
    requires rc != null ==> rc.count - c0 == |q.queue| - |q0|
    modifies q`queue, buffer.refcount
    ensures next == Direct(es[..i + 1], buffer, allow)
    ensures q.queue == q0 + Queued(es[..i + 1], buffer, allow)
    ensures rc != null ==> rc.count - c0 == |q.queue| - |q0|
  {
    SendStep(es, i, buffer, allow);
    ghost var before := q.queue;
    var call := Deliver(es[i], buffer, allow, q);
    assert |q.queue| == |before| + |QueuedOne(es[i], buffer, allow)|;
    next := calls + call;
  }

  /** The body of the send loop for one sink: a direct sink is called,
    * any other gets a message on the queue. */
  method Deliver(e: SinkEntry, buffer: RawBuffer, allow: bool, q: Queue) returns (call: seq<Call>)
    modifies q`queue, buffer.refcount
    ensures call == DirectOne(e, buffer, allow)
    ensures q.queue == old(q.queue) + QueuedOne(e, buffer, allow)
    ensures buffer.refcount != null ==>
      buffer.refcount.count == old(buffer.refcount.count) + |QueuedOne(e, buffer, allow)|
  {
    if e.direct {
      call := [HandleBuffer(e.sink, buffer, allow)];
    } else {
      q.Send(buffer, e.sink, allow);
      call := [];
    }
  }

  /** One more sink handled by the send loop. */
  lemma SendStep(es: seq<SinkEntry>, i: nat, buffer: RawBuffer, allow: bool)
    requires i < |es|
    ensures Direct(es[..i + 1], buffer, allow) == Direct(es[..i], buffer, allow) + DirectOne(es[i], buffer, allow)
    ensures Queued(es[..i + 1], buffer, allow) == Queued(es[..i], buffer, allow) + QueuedOne(es[i], buffer, allow)
  {
    assert es[..i + 1][..i] == es[..i];
  }

  /** The deliveries of the two sends of `SendScenario`. */
  lemma SendValues(e1: SinkEntry, e2: SinkEntry)
    requires e1 == SinkEntry(1, true) && e2 == SinkEntry(2, false)
    ensures Direct([e1], EmptyRaw(), Granted(true, 1)) == [HandleBuffer(1, EmptyRaw(), true)]
    ensures Queued([e1], EmptyRaw(), Granted(true, 1)) == []
    ensures Direct([e1, e2], EmptyRaw(), Granted(true, 2)) == [HandleBuffer(1, EmptyRaw(), false)]
    ensures Queued([e1, e2], EmptyRaw(), Granted(true, 2)) == [Message(EmptyRaw(), 2, false)]
  {
    assert [e1, e2][..1] == [e1] && [e1][..0] == [];
  }

  /** A source with one direct sink lets it overwrite the buffer when the
    * caller allows it; connecting a second sink takes that away. */
  method SendScenario() returns (one: seq<Call>, two: seq<Call>, queued: seq<Message>)
    ensures one == [HandleBuffer(1, EmptyRaw(), true)]
    ensures two == [HandleBuffer(1, EmptyRaw(), false)]
    ensures queued == [Message(EmptyRaw(), 2, false)]
  {
    var src := new Source();
    var q := new Queue();
    var e1, e2 := SinkEntry(1, true), SinkEntry(2, false);
    var _ := src.Connect(1, true);
    assert src.sinks == [e1];
    one := src.Send(EmptyRaw(), true, q);
    var _ := src.Connect(2, false);
    assert src.sinks == [e1, e2];
    two := src.Send(EmptyRaw(), true, q);
    SendValues(e1, e2);
    queued := q.queue;
  }
}
