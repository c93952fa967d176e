/** The combine node (combine.hh): N sinks, each with an input ring buffer;
  * the node unifies their configurations and, whenever every input holds
  * data, hands the common amount to `process`. `Interleave` is the only
  * concrete combine node: it writes element i of input j to output
  * position i·N + j and sends the result on.
  *
  * The input rings are modelled by their elements (oldest first) and their
  * capacity in elements; the byte-level ring buffer they are built on is
  * `Buffers.RawRingBuffer`. A sink is its index. Whether downstream still
  * holds the output buffer is a parameter. What the node publishes through
  * `Source::setConfig` and `Source::send` is returned. */
module Combining {
  import opened Common
  import opened NodeConfig

  /** `std::numeric_limits<size_t>::max()`, the start value of the minimum
    * search in `notifyData`. */
  const SizeMax: nat := 0xFFFF_FFFF_FFFF_FFFF

  /** `RingBuffer<Scalar>` by its contents: `size` elements of room. */
  datatype Ring = Ring(size: nat, items: seq<int>)
  {
    predicate Valid() { |items| <= size }

    /** `put`: all elements are appended when they fit, none otherwise. */
    function Put(b: seq<int>): (r: Ring)
      requires Valid()
      ensures r.Valid() && r.size == size
      ensures |b| <= size - |items| ==> r.items == items + b
      ensures |b| > size - |items| ==> r.items == items
    {
      if |b| > size - |items| then this else this.(items := items + b)
    }

    /** `drop(N)`: the min(N, stored) oldest elements go. */
    function Drop(n: nat): (r: Ring)
      requires Valid()
      ensures r.Valid() && r.size == size
      ensures r.items == items[Min(n, |items|)..]
    {
      this.(items := items[Min(n, |items|)..])
    }
  }

  predicate AllValid(rs: seq<Ring>)
  {
    forall j :: 0 <= j < |rs| ==> rs[j].Valid()
  }

  /** Every ring dropped by `n`. */
  function DropAll(rs: seq<Ring>, n: nat): (r: seq<Ring>)
    requires AllValid(rs)
    ensures |r| == |rs| && AllValid(r)
    ensures forall j :: 0 <= j < |rs| ==> r[j] == rs[j].Drop(n)
  {
    seq(|rs|, j requires 0 <= j < |rs| => rs[j].Drop(n))
  }

  /** The minimum search of `notifyData`, from `SizeMax` down. */
  function MinStored(rs: seq<Ring>): (m: nat)
    ensures m <= SizeMax
    ensures forall j :: 0 <= j < |rs| ==> m <= |rs[j].items|
  {
    if rs == [] then SizeMax else Min(MinStored(rs[..|rs| - 1]), |rs[|rs| - 1].items|)
  }

  /** The minimum is one of the stored counts unless there is no ring or
    * every ring holds more than `SizeMax`. */
  lemma {:induction false} MinStoredAttained(rs: seq<Ring>)
    ensures MinStored(rs) == SizeMax || exists j :: 0 <= j < |rs| && MinStored(rs) == |rs[j].items|
  {
    if rs != [] {
      var init := rs[..|rs| - 1];
      MinStoredAttained(init);
      assert forall j :: 0 <= j < |init| ==> init[j] == rs[j];
      if MinStored(rs) != SizeMax && MinStored(rs) != |rs[|rs| - 1].items| {
        var j :| 0 <= j < |init| && MinStored(init) == |init[j].items|;
        assert MinStored(rs) == |rs[j].items|;
      }
    }
  }

  /** `n` freshly allocated rings of `size` elements. */
  function EmptyRings(n: nat, size: nat): (rs: seq<Ring>)
    ensures |rs| == n && AllValid(rs)
    ensures forall j :: 0 <= j < n ==> rs[j] == Ring(size, [])
  {
    seq(n, _ => Ring(size, []))
  }

  /** Every ring holds at least `num` elements. */
  predicate HasColumns(rs: seq<Ring>, num: nat)
  {
    forall j :: 0 <= j < |rs| ==> num <= |rs[j].items|
  }

  /** Element `i` of every input, in input order. */
  function Column(rs: seq<Ring>, i: nat): (c: seq<int>)
    requires HasColumns(rs, i + 1)
    ensures |c| == |rs|
  {
    seq(|rs|, j requires 0 <= j < |rs| => rs[j].items[i])
  }

  /** The first `num` columns, one after the other. */
  function Interleaved(rs: seq<Ring>, num: nat): (r: seq<int>)
    requires HasColumns(rs, num)
  {
    if num == 0 then [] else Interleaved(rs, num - 1) + Column(rs, num - 1)
  }

  /** The interleaved sequence has `num·N` elements. */
  lemma {:induction false} InterleavedLength(rs: seq<Ring>, num: nat)
    requires HasColumns(rs, num)
    ensures |Interleaved(rs, num)| == num * |rs|
  {
    if num > 0 {
      InterleavedLength(rs, num - 1);
      MulSucc(num - 1, |rs|);
    }
  }

  /** Position `i·N + j` of the interleaved sequence holds element `i` of
    * input `j`. */
  lemma {:induction false} InterleavedAtOne(rs: seq<Ring>, num: nat, i: nat, j: nat)
    requires HasColumns(rs, num) && i < num && j < |rs|
    ensures i * |rs| + j < |Interleaved(rs, num)|
    ensures Interleaved(rs, num)[i * |rs| + j] == rs[j].items[i]
  {
    InterleavedLength(rs, num);
    InterleavedLength(rs, num - 1);
    MulBelow(i, num, |rs|, j);
    var prev := Interleaved(rs, num - 1);
    if i < num - 1 {
      MulBelow(i, num - 1, |rs|, j);
      InterleavedAtOne(rs, num - 1, i, j);
      assert Interleaved(rs, num)[i * |rs| + j] == prev[i * |rs| + j];
    } else {
      assert i * |rs| + j == |prev| + j;
    }
  }

  class Interleave {
    /** The sample type the node is instantiated with. */
    const scalar: Scalar
    /** `_N`, the number of inputs. */
    const n: nat
    /** `Combine::_buffers`, one input ring per sink. */
    var rings: seq<Ring>
    /** `Combine::_config`, the unified input configuration. */
    var config: Config
    /** `_buffer`, the output buffer. */
    var output: array<int>

    /** The unified configuration has either none or all of type, rate and
      * buffer size: the first complete input configuration sets all three
      * and the two errors can only occur once the type is set. */
    ghost predicate Valid()
      reads this
    {
      n >= 1 && |rings| == n && AllValid(rings)
      && (config.HasType() <==> config.HasSampleRate())
      && (config.HasType() <==> config.HasBufferSize())
    }

    constructor (n: nat, scalar: Scalar)
      requires n >= 1
      ensures Valid() && this.n == n && this.scalar == scalar
      ensures rings == EmptyRings(n, 0) && config == DefaultConfig()
      ensures output.Length == 0
    {
      this.n := n;
      this.scalar := scalar;
      rings := EmptyRings(n, 0);
      config := DefaultConfig();
      output := new int[0];
    }

    /** `sink(i)`: the i-th sink, a `RuntimeError` beyond the last. */
    function Sink(i: nat): (r: Result<nat>)
      reads this
      ensures r.Ok? <==> i < n
      ensures r.Ok? ==> r.value == i
      ensures r.Err? ==> r.error == RuntimeError
    {
      if i >= n then Err(RuntimeError) else Ok(i)
    }

    /** `Interleave::config`: ignores a configuration without type or
      * buffer size, rejects a foreign type, and otherwise allocates an
      * output buffer of N·bufferSize elements and publishes a
      * configuration with that size and one buffer. */
    method Configure(c: Config) returns (r: Result<Option<Config>>)
      modifies this`output
      ensures !c.HasType() || !c.HasBufferSize() ==> r == Ok(None) && output == old(output)
      ensures c.HasType() && c.HasBufferSize() && c.sampleType != TypeId(scalar) ==>
        r == Err(ConfigError) && output == old(output)
      ensures c.HasType() && c.HasBufferSize() && c.sampleType == TypeId(scalar) ==>
        fresh(output) && output.Length == n * c.bufferSize
        && r == Ok(Some(Config(TypeId(scalar), c.sampleRate, n * c.bufferSize, 1)))
    {
      if !c.HasType() || !c.HasBufferSize() {
        return Ok(None);
      }
      if TypeId(scalar) != c.sampleType {
        return Err(ConfigError);
      }
      output := new int[n * c.bufferSize];
      r := Ok(Some(Config(TypeId(scalar), c.sampleRate, output.Length, 1)));
    }

    /** The configuration `notifyConfig` arrives at from `_config` and a
      * complete input configuration `c`, or the error it throws. */
    static function Unify(old_: Config, c: Config): (r: Result<Config>)
      requires c.HasType() && c.HasSampleRate() && c.HasBufferSize()
      ensures r.Ok? <==> (!old_.HasType() || old_.sampleType == c.sampleType)
                         && (!old_.HasSampleRate() || old_.sampleRate == c.sampleRate)
      ensures r.Err? ==> r.error == ConfigError
      ensures r.Ok? ==> r.value.sampleType == c.sampleType && r.value.sampleRate == c.sampleRate
      ensures r.Ok? ==> r.value.bufferSize == (if old_.HasBufferSize() then Max(old_.bufferSize, c.bufferSize) else c.bufferSize)
      ensures r.Ok? ==> r.value.numBuffers == old_.numBuffers
    {
      var t := if !old_.HasType() then old_.WithType(c.sampleType) else old_;
      if old_.HasType() && old_.sampleType != c.sampleType then Err(ConfigError)
      else
        var s := if !t.HasSampleRate() then t.WithSampleRate(c.sampleRate) else t;
        if t.HasSampleRate() && t.sampleRate != c.sampleRate then Err(ConfigError)
        else
          var b := if !s.HasBufferSize() then s.WithBufferSize(c.bufferSize)
                   else s.WithBufferSize(Max(s.bufferSize, c.bufferSize));
          Ok(b)
    }

    /** `Combine::notifyConfig`: an incomplete configuration is ignored; a
      * type or rate that differs from the unified one is a `ConfigError`;
      * otherwise the buffer size becomes the maximum seen, every input ring
      * is reallocated empty at that size and the node configures itself. */
    method NotifyConfig(idx: nat, c: Config) returns (r: Result<Option<Config>>)
      requires Valid()
      modifies this`config, this`rings, this`output
      ensures Valid()
      ensures !c.HasType() || !c.HasSampleRate() || !c.HasBufferSize() ==>
        r == Ok(None) && config == old(config) && rings == old(rings) && output == old(output)
      ensures c.HasType() && c.HasSampleRate() && c.HasBufferSize() && Unify(old(config), c).Err? ==>
        r == Err(ConfigError) && config == old(config) && rings == old(rings) && output == old(output)
      ensures c.HasType() && c.HasSampleRate() && c.HasBufferSize() && Unify(old(config), c).Ok? ==>
        config == Unify(old(config), c).value
        && rings == EmptyRings(n, config.bufferSize)
        && (c.sampleType == TypeId(scalar) ==>
              (fresh(output) && output.Length == n * config.bufferSize
               && r == Ok(Some(Config(TypeId(scalar), config.sampleRate, n * config.bufferSize, 1)))))
        && (c.sampleType != TypeId(scalar) ==> r == Err(ConfigError) && output == old(output))
    {
      if !c.HasType() || !c.HasSampleRate() || !c.HasBufferSize() {
        return Ok(None);
      }
      var u := Unify(config, c);
      if u.Err? {
        return Err(ConfigError);
      }
      config := u.value;
      var i := 0;
      var rs: seq<Ring> := [];
      while i < n
        invariant 0 <= i <= n && rs == EmptyRings(i, config.bufferSize)
      {
        rs := rs + [Ring(config.bufferSize, [])];
        i := i + 1;
      }
      rings := rs;
      r := Configure(config);
    }

    /** `CombineSink::config` of sink `idx`: needs type and rate, rejects a
      * foreign type, and passes the rest to `notifyConfig`. */
    method SinkConfig(idx: nat, c: Config) returns (r: Result<Option<Config>>)
      requires Valid() && idx < n
      modifies this`config, this`rings, this`output
      ensures Valid()
      ensures !c.HasType() || !c.HasSampleRate() ==>
        r == Ok(None) && config == old(config) && rings == old(rings) && output == old(output)
      ensures c.HasType() && c.HasSampleRate() && c.sampleType != TypeId(scalar) ==>
        r == Err(ConfigError) && config == old(config) && rings == old(rings) && output == old(output)
      ensures c.HasType() && c.HasSampleRate() && !c.HasBufferSize() && c.sampleType == TypeId(scalar) ==>
        r == Ok(None) && config == old(config) && rings == old(rings) && output == old(output)
      ensures c.HasType() && c.HasSampleRate() && c.HasBufferSize() && c.sampleType == TypeId(scalar)
              && Unify(old(config), c).Err? ==>
        r == Err(ConfigError) && config == old(config) && rings == old(rings) && output == old(output)
      ensures c.HasType() && c.HasSampleRate() && c.HasBufferSize() && c.sampleType == TypeId(scalar)
              && Unify(old(config), c).Ok? ==>
        config == Unify(old(config), c).value
        && rings == EmptyRings(n, config.bufferSize)
        && fresh(output) && output.Length == n * config.bufferSize
        && r == Ok(Some(Config(TypeId(scalar), config.sampleRate, n * config.bufferSize, 1)))
    {
      if !c.HasType() || !c.HasSampleRate() {
        return Ok(None);
      }
      if TypeId(scalar) != c.sampleType {
        return Err(ConfigError);
      }
      r := NotifyConfig(idx, c);
    }

    /** `Interleave::process(buffers, N)`. With the output buffer still
      * held downstream, N elements are dropped from every input and
      * nothing is sent. Otherwise num = min(capacity/N_inputs, N) columns
      * are interleaved into the output buffer, dropped from every input,
      * and the first num·N_inputs output elements are sent. */
    method Process(count: nat, outputBusy: bool) returns (sent: Option<seq<int>>)
      requires Valid() && HasColumns(rings, count)
      modifies this`rings, output
      ensures Valid()
      ensures count == 0 ==> sent == None && rings == old(rings) && output[..] == old(output[..])
      ensures count > 0 && outputBusy ==>
        sent == None && rings == DropAll(old(rings), count) && output[..] == old(output[..])
      ensures count > 0 && !outputBusy ==>
        var num := Min(output.Length / n, count);
        num * n <= output.Length
        && sent == Some(Interleaved(old(rings), num))
        && output[..num * n] == Interleaved(old(rings), num)
        && output[num * n..] == old(output[num * n..])
        && rings == DropAll(old(rings), num)
    {
      if count == 0 {
        return None;
      }
      if outputBusy {
        rings := DropAll(rings, count);
        return None;
      }
      var num := Min(output.Length / n, count);
      assert num * n <= output.Length by {
        MulMono(num, output.Length / n, n);
      }
      Fill(num);
      rings := DropAll(rings, num);
      sent := Some(output[..num * n]);
    }

    /** The nested interleaving loop: writes the first `num` columns of the
      * inputs into the output buffer. */
    method Fill(num: nat)
      requires Valid() && HasColumns(rings, num) && num * n <= output.Length
      modifies output
      ensures output[..num * n] == Interleaved(rings, num)
      ensures output[num * n..] == old(output[num * n..])
    {
      InterleavedLength(rings, num);
      ghost var total := num * n;
      var idx := 0;
      var i := 0;
      while i < num
        invariant 0 <= i <= num && idx == i * n && idx <= total
        invariant forall k :: 0 <= k < idx ==> output[k] == Interleaved(rings, num)[k]
        invariant forall k :: total <= k < output.Length ==> output[k] == old(output[k])
      {
        MulBelow(i, num, n, n - 1);
        assert idx + n <= total;
        idx := FillColumn(num, i, idx);
        MulSucc(i, n);
        i := i + 1;
      }
      assert output[..num * n] == Interleaved(rings, num);
    }

    /** The inner loop: element i of each input, at positions idx = i·N
      * to i·N + N - 1; nothing else is written. */
    method FillColumn(num: nat, i: nat, idx: nat) returns (next: nat)
      requires Valid() && HasColumns(rings, num) && i < num && idx == i * n && idx + n <= output.Length
      requires idx + n <= |Interleaved(rings, num)|
      modifies output
      ensures next == idx + n
      ensures forall k :: idx <= k < next ==> output[k] == Interleaved(rings, num)[k]
      ensures forall k :: 0 <= k < output.Length && !(idx <= k < next) ==> output[k] == old(output[k])
    {
      next := idx;
      var j := 0;
      while j < n
        invariant 0 <= j <= n && next == idx + j
        invariant forall k :: idx <= k < next ==> output[k] == Interleaved(rings, num)[k]
        invariant forall k :: 0 <= k < output.Length && !(idx <= k < next) ==> output[k] == old(output[k])
      {
        InterleavedAtOne(rings, num, i, j);
        output[next] := rings[j].items[i];
        j := j + 1;
        next := next + 1;
      }
    }

    /** `Combine::notifyData`: the minimum stored count over all inputs;
      * `process` is called only when it is positive. */
    method NotifyData(outputBusy: bool) returns (count: nat, sent: Option<seq<int>>)
      requires Valid()
      modifies this`rings, output
      ensures Valid()
      ensures count == MinStored(old(rings))
      ensures count == 0 ==> sent == None && rings == old(rings) && output[..] == old(output[..])
      ensures count > 0 && !outputBusy ==>
        var num := Min(output.Length / n, count);
        sent == Some(Interleaved(old(rings), num)) && rings == DropAll(old(rings), num)
      ensures count > 0 && outputBusy ==> sent == None && rings == DropAll(old(rings), count)
    {
      count := SizeMax;
      var i := 0;
      while i < n
        invariant 0 <= i <= n && count == MinStored(rings[..i])
      {
        assert rings[..i + 1][..i] == rings[..i];
        count := Min(count, |rings[i].items|);
        i := i + 1;
      }
      assert rings[..n] == rings;
      sent := Process(count, outputBusy);
    }

    /** `CombineSink::process` of sink `idx`: the data goes into that
      * input's ring (silently lost if it does not fit), then
      * `notifyData`. */
    method SinkProcess(idx: nat, b: seq<int>, outputBusy: bool) returns (sent: Option<seq<int>>)
      requires Valid() && idx < n
      modifies this`rings, output
      ensures Valid()
      ensures var put := old(rings)[idx := old(rings)[idx].Put(b)];
        var count := MinStored(put);
        (count == 0 ==> sent == None && rings == put)
        && (count > 0 && !outputBusy ==>
              sent == Some(Interleaved(put, Min(output.Length / n, count)))
              && rings == DropAll(put, Min(output.Length / n, count)))
        && (count > 0 && outputBusy ==> sent == None && rings == DropAll(put, count))
    {
      rings := rings[idx := rings[idx].Put(b)];
      var count;
      count, sent := NotifyData(outputBusy);
    }
  }

  /** The set-up of the interleave test: two int16 inputs, both sinks
    * configured with three-sample buffers. */
  method ConfiguredInterleave() returns (il: Interleave)
    ensures fresh(il) && fresh(il.output) && il.Valid() && il.n == 2 && il.output.Length == 6
    ensures il.rings == [Ring(3, []), Ring(3, [])]
  {
    il := new Interleave(2, ScalarInt16);
    var c := Config(Int16, 1.0, 3, 1);
    var r0 := il.SinkConfig(0, c);
    var r1 := il.SinkConfig(1, c);
    assert il.config == Config(Int16, 1.0, 3, 0);
  }

  /** The inputs of the interleave test after both writes. */
  function TestRings(): seq<Ring>
  {
    [Ring(3, [1, 2, 3]), Ring(3, [4, 5, 6])]
  }

  /** The minimum stored counts in the interleave test: 0 while the second
    * input is empty, 3 once both hold three samples. */
  lemma TestCounts()
    ensures MinStored([Ring(3, [1, 2, 3]), Ring(3, [])]) == 0
    ensures MinStored(TestRings()) == 3
  {
    var rs := TestRings();
    assert rs[..1] == [Ring(3, [1, 2, 3])];
    assert rs[..1][..0] == [];
  }

  /** The three columns of the interleave test. */
  lemma TestColumns()
    ensures Interleaved(TestRings(), 3) == [1, 4, 2, 5, 3, 6]
  {
    var rs := TestRings();
    assert Column(rs, 0) == [1, 4];
    assert Column(rs, 1) == [2, 5];
    assert Column(rs, 2) == [3, 6];
  }

  /** The interleave test: [1,2,3] on the first input and [4,5,6] on the
    * second come out as [1,4,2,5,3,6]; the first input alone sends
    * nothing. */
  method InterleaveScenario() returns (first: Option<seq<int>>, second: Option<seq<int>>)
    ensures first == None
    ensures second == Some([1, 4, 2, 5, 3, 6])
  {
    var il := ConfiguredInterleave();
    TestCounts();
    TestColumns();
    assert Ring(3, []).Put([1, 2, 3]) == Ring(3, [1, 2, 3]);
    first := il.SinkProcess(0, [1, 2, 3], false);
    assert il.rings == [Ring(3, [1, 2, 3]), Ring(3, [])];
    assert Ring(3, []).Put([4, 5, 6]) == Ring(3, [4, 5, 6]);
    assert il.rings[1 := il.rings[1].Put([4, 5, 6])] == TestRings();
    second := il.SinkProcess(1, [4, 5, 6], false);
  }
}
