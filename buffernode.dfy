/** The buffer node (buffernode.hh): re-chunks an element stream into
  * output buffers of exactly `bufferSize` elements. Samples that do not
  * fill a whole output buffer are held in `_temp` until the next input.
  * Output buffers come from a `BufferSet` pool that starts empty and is
  * grown by `config`.
  *
  * Elements are values; the output buffers are given by their contents, in
  * the order they are sent. The configuration the node publishes through
  * `Source::setConfig` is returned. */
module Rechunking {
  import opened Common
  import opened NodeConfig
  import opened Buffers

  /** The output chunks one after the other. */
  function Flatten(cs: seq<seq<int>>): (r: seq<int>)
  {
    if cs == [] then [] else Flatten(cs[..|cs| - 1]) + cs[|cs| - 1]
  }

  lemma FlattenSnoc(cs: seq<seq<int>>, c: seq<int>)
    ensures Flatten(cs + [c]) == Flatten(cs) + c
  {
    assert (cs + [c])[..|cs|] == cs;
  }

  lemma {:induction false} FlattenCons(c: seq<int>, cs: seq<seq<int>>)
    ensures Flatten([c] + cs) == c + Flatten(cs)
  {
    if cs != [] {
      var init := cs[..|cs| - 1];
      FlattenCons(c, init);
      assert ([c] + cs)[..|cs|] == [c] + init;
    }
  }

  /** `memcpy(dst + off, src, |src|)` on the element array `dst`. */
  method CopyInto(dst: array<int>, off: nat, src: seq<int>)
    requires off + |src| <= dst.Length
    modifies dst
    ensures dst[..off] == old(dst[..off])
    ensures dst[off..off + |src|] == src
    ensures dst[off + |src|..] == old(dst[off + |src|..])
  {
    var i := 0;
    while i < |src|
      invariant 0 <= i <= |src|
      invariant forall k :: 0 <= k < dst.Length ==>
        dst[k] == if off <= k < off + i then src[k - off] else old(dst[k])
    {
      dst[off + i] := src[i];
      i := i + 1;
    }
  }

  class BufferNode {
    /** The sample type the node is instantiated with. */
    const scalar: Scalar
    /** `_bufferSize`, the output chunk size in elements. */
    const bufferSize: nat
    /** `_bufferSet`, the pool of output buffers. */
    const pool: BufferSet
    /** `_temp`, room for one chunk of held samples. */
    const temp: array<int>
    /** `_samplesLeft`, how many samples `_temp` holds. */
    var samplesLeft: nat

    ghost predicate Valid()
      reads this, pool
    {
      bufferSize >= 1 && temp.Length == bufferSize && samplesLeft < bufferSize
      && pool.Valid() && pool.bufferSize == bufferSize
    }

    /** The samples held back for the next output buffer. */
    function Held(): (h: seq<int>)
      requires Valid()
      reads this, pool, temp
      ensures |h| < bufferSize
    {
      temp[..samplesLeft]
    }

    /** `BufferNode(bufferSize)`: an empty pool and nothing held. A
      * zero chunk size is excluded: `process` would never leave its
      * emitting loop. */
    constructor (scalar: Scalar, bufferSize: nat)
      requires bufferSize >= 1
      ensures Valid() && this.scalar == scalar && this.bufferSize == bufferSize
      ensures fresh(pool) && |pool.buffers| == 0 && |pool.free| == 0
      ensures fresh(temp) && samplesLeft == 0 && Held() == []
    {
      this.scalar := scalar;
      this.bufferSize := bufferSize;
      pool := new BufferSet(0, bufferSize, SizeOf(scalar));
      temp := new int[bufferSize];
      samplesLeft := 0;
    }

    /** The configuration `config` publishes for a complete input
      * configuration: the input's type and rate, this node's chunk size,
      * and max(2, total input samples / chunk size) buffers. */
    function Published(c: Config): (r: Config)
      reads this
      requires bufferSize >= 1
      ensures r.sampleType == c.sampleType && r.sampleRate == c.sampleRate
      ensures r.bufferSize == bufferSize && r.numBuffers >= 2
      ensures r.numBuffers * bufferSize >= Min(2 * bufferSize, c.bufferSize * c.numBuffers)
    {
      Config(c.sampleType, c.sampleRate, bufferSize, Max(2, (c.bufferSize * c.numBuffers) / bufferSize))
    }

    /** `config`: ignored unless type, buffer size and buffer count are all
      * set; a foreign type is a `ConfigError`; otherwise the pool is grown
      * to the published buffer count. `resize` does not put the new
      * buffers on the free list, so the pool never has a free buffer. */
    method Configure(c: Config) returns (r: Result<Option<Config>>)
      requires Valid()
      modifies pool
      ensures Valid() && pool.free == old(pool.free)
      ensures !c.HasType() || !c.HasBufferSize() || !c.HasNumBuffers() ==>
        r == Ok(None) && pool.buffers == old(pool.buffers)
      ensures c.HasType() && c.HasBufferSize() && c.HasNumBuffers() && c.sampleType != TypeId(scalar) ==>
        r == Err(ConfigError) && pool.buffers == old(pool.buffers)
      ensures c.HasType() && c.HasBufferSize() && c.HasNumBuffers() && c.sampleType == TypeId(scalar) ==>
        r == Ok(Some(Published(c))) && |pool.buffers| == Max(old(|pool.buffers|), Published(c).numBuffers)
    {
      if c.sampleType == Undefined || c.bufferSize == 0 || c.numBuffers == 0 {
        return Ok(None);
      }
      if c.sampleType != TypeId(scalar) {
        return Err(ConfigError);
      }
      var p := Published(c);
      pool.Resize(p.numBuffers);
      r := Ok(Some(p));
    }

    /** `config` with the pool grown as evidently intended: the new
      * buffers are free. */
    method ConfigureFreeing(c: Config) returns (r: Result<Option<Config>>)
      requires Valid()
      modifies pool
      ensures Valid()
      ensures !c.HasType() || !c.HasBufferSize() || !c.HasNumBuffers() ==>
        r == Ok(None) && pool.free == old(pool.free) && pool.buffers == old(pool.buffers)
      ensures c.HasType() && c.HasBufferSize() && c.HasNumBuffers() && c.sampleType != TypeId(scalar) ==>
        r == Err(ConfigError) && pool.free == old(pool.free) && pool.buffers == old(pool.buffers)
      ensures c.HasType() && c.HasBufferSize() && c.HasNumBuffers() && c.sampleType == TypeId(scalar) ==>
        r == Ok(Some(Published(c)))
        && |pool.buffers| == Max(old(|pool.buffers|), Published(c).numBuffers)
        && |pool.free| == old(|pool.free|) + (|pool.buffers| - old(|pool.buffers|))
    {
      if c.sampleType == Undefined || c.bufferSize == 0 || c.numBuffers == 0 {
        return Ok(None);
      }
      if c.sampleType != TypeId(scalar) {
        return Err(ConfigError);
      }
      var p := Published(c);
      pool.ResizeFreeing(p.numBuffers);
      r := Ok(Some(p));
    }

    /** The emitting part of `process`, when held and incoming samples make
      * at least one chunk: the first chunk is the held samples followed by
      * the first incoming ones, the further chunks are cut from the input
      * in order, one pool buffer per chunk. `inOffset` is where the
      * samples still unsent start. */
    method Emit(input: seq<int>) returns (sent: seq<seq<int>>, inOffset: nat)
      requires Valid() && samplesLeft + |input| >= bufferSize
      requires |pool.free| >= (samplesLeft + |input|) / bufferSize
      modifies this`samplesLeft, pool
      ensures pool.Valid() && pool.buffers == old(pool.buffers)
      ensures pool.bufferSize == old(pool.bufferSize) && pool.elemSize == old(pool.elemSize)
      ensures |sent| == (old(samplesLeft) + |input|) / bufferSize
      ensures samplesLeft == (old(samplesLeft) + |input|) % bufferSize
      ensures inOffset + samplesLeft == |input|
      ensures pool.free == old(pool.free)[..|old(pool.free)| - |sent|]
      ensures forall k :: 0 <= k < |sent| ==> |sent[k]| == bufferSize
      ensures sent[0] == old(Held()) + input[..bufferSize - old(samplesLeft)]
      ensures Flatten(sent) == old(Held()) + input[..inOffset]
    {
      ghost var total := samplesLeft + |input|;
      DivStep(total, bufferSize);
      var first, start := EmitFirst(input);
      var rest;
      rest, inOffset := EmitRest(input, start);
      sent := [first] + rest;
      FlattenCons(first, rest);
      assert input[..inOffset] == input[..start] + input[start..inOffset];
    }

    /** The first chunk of `process`: the held samples, then the first
      * incoming ones. */
    method EmitFirst(input: seq<int>) returns (first: seq<int>, start: nat)
      requires Valid() && samplesLeft + |input| >= bufferSize && |pool.free| >= 1
      modifies this`samplesLeft, pool
      ensures pool.Valid() && pool.buffers == old(pool.buffers)
      ensures pool.bufferSize == old(pool.bufferSize) && pool.elemSize == old(pool.elemSize)
      ensures pool.free == old(pool.free)[..|old(pool.free)| - 1]
      ensures start == bufferSize - old(samplesLeft) && start + samplesLeft == |input|
      ensures first == old(Held()) + input[..start] && |first| == bufferSize
    {
      var out := pool.GetBuffer();
      first := temp[..samplesLeft] + input[..bufferSize - samplesLeft];
      start := bufferSize - samplesLeft;
      samplesLeft := |input| + samplesLeft - bufferSize;
    }

    /** The emitting loop of `process`: whole chunks cut from the input,
      * from `start` on, while the unsent samples fill one. */
    method EmitRest(input: seq<int>, start: nat) returns (chunks: seq<seq<int>>, inOffset: nat)
      requires pool.Valid() && bufferSize >= 1 && start + samplesLeft == |input|
      requires |pool.free| >= samplesLeft / bufferSize
      modifies this`samplesLeft, pool
      ensures pool.Valid() && pool.buffers == old(pool.buffers)
      ensures pool.bufferSize == old(pool.bufferSize) && pool.elemSize == old(pool.elemSize)
      ensures |chunks| == old(samplesLeft) / bufferSize && samplesLeft == old(samplesLeft) % bufferSize
      ensures start <= inOffset && inOffset + samplesLeft == |input|
      ensures pool.free == old(pool.free)[..|old(pool.free)| - |chunks|]
      ensures forall k :: 0 <= k < |chunks| ==> |chunks[k]| == bufferSize
      ensures Flatten(chunks) == input[start..inOffset]
    {
      ghost var total := samplesLeft;
      ghost var free0 := pool.free;
      chunks := [];
      inOffset := start;
      while samplesLeft >= bufferSize
        invariant start <= inOffset && inOffset + samplesLeft == |input|
        invariant |chunks| * bufferSize + samplesLeft == total
        invariant pool.Valid() && pool.buffers == old(pool.buffers)
        invariant pool.bufferSize == old(pool.bufferSize) && pool.elemSize == old(pool.elemSize)
        invariant |chunks| <= |free0| && pool.free == free0[..|free0| - |chunks|]
        invariant forall k :: 0 <= k < |chunks| ==> |chunks[k]| == bufferSize
        invariant Flatten(chunks) == input[start..inOffset]
        decreases samplesLeft
      {
        MulSucc(|chunks|, bufferSize);
        assert |chunks| < |free0| by {
          DivLower(|chunks| + 1, bufferSize, total);
        }
        var out := pool.GetBuffer();
        var chunk := input[inOffset..inOffset + bufferSize];
        assert input[start..inOffset + bufferSize] == input[start..inOffset] + chunk;
        FlattenSnoc(chunks, chunk);
        chunks := chunks + [chunk];
        inOffset := inOffset + bufferSize;
        samplesLeft := samplesLeft - bufferSize;
      }
      DivUnique(|chunks|, samplesLeft, bufferSize, total);
    }

    /** The branch of `process` that only holds: the input is appended to
      * the held samples. */
    method Hold(input: seq<int>)
      requires Valid() && samplesLeft + |input| < bufferSize
      modifies this`samplesLeft, temp
      ensures Valid() && samplesLeft == old(samplesLeft) + |input|
      ensures Held() == old(Held()) + input
    {
      CopyInto(temp, samplesLeft, input);
      samplesLeft := samplesLeft + |input|;
    }

    /** The final `memcpy` of `process`: `left` becomes the held samples. */
    method Keep(left: seq<int>)
      requires Valid() && |left| == samplesLeft
      modifies temp
      ensures Valid() && Held() == left
    {
      CopyInto(temp, 0, left);
    }

    /** `process` with the leftover taken from where the unsent samples
      * start. Every input sample goes out exactly once and in order: the
      * chunks sent followed by the samples now held are the samples held
      * before followed by the input. */
    method Process(input: seq<int>) returns (sent: seq<seq<int>>)
      requires Valid() && |pool.free| >= (samplesLeft + |input|) / bufferSize
      modifies this`samplesLeft, pool, temp
      ensures Valid() && pool.buffers == old(pool.buffers)
      ensures Flatten(sent) + Held() == old(Held()) + input
      ensures forall k :: 0 <= k < |sent| ==> |sent[k]| == bufferSize
      ensures |sent| == (old(samplesLeft) + |input|) / bufferSize
      ensures samplesLeft == (old(samplesLeft) + |input|) % bufferSize
      ensures pool.free == old(pool.free)[..|old(pool.free)| - |sent|]
      ensures old(samplesLeft) + |input| >= bufferSize ==>
        sent[0] == old(Held()) + input[..bufferSize - old(samplesLeft)]
    {
      if samplesLeft + |input| < bufferSize {
        Hold(input);
        DivUnique(0, samplesLeft, bufferSize, samplesLeft);
        return [];
      }
      var inOffset;
      sent, inOffset := Emit(input);
      Keep(input[inOffset..]);
      assert input == input[..inOffset] + input[inOffset..];
    }

    /** `process` as written: the leftover is copied from the start of the
      * input instead of from the first unsent sample. */
    method ProcessAsWritten(input: seq<int>) returns (sent: seq<seq<int>>)
      requires Valid() && |pool.free| >= (samplesLeft + |input|) / bufferSize
      modifies this`samplesLeft, pool, temp
      ensures Valid() && pool.buffers == old(pool.buffers)
      ensures forall k :: 0 <= k < |sent| ==> |sent[k]| == bufferSize
      ensures |sent| == (old(samplesLeft) + |input|) / bufferSize
      ensures samplesLeft == (old(samplesLeft) + |input|) % bufferSize
      ensures pool.free == old(pool.free)[..|old(pool.free)| - |sent|]
      ensures old(samplesLeft) + |input| < bufferSize ==> sent == [] && Held() == old(Held()) + input
      ensures old(samplesLeft) + |input| >= bufferSize ==>
        sent[0] == old(Held()) + input[..bufferSize - old(samplesLeft)]
        && Flatten(sent) + input[|input| - samplesLeft..] == old(Held()) + input
        && Held() == input[..samplesLeft]
    {
      if samplesLeft + |input| < bufferSize {
        Hold(input);
        DivUnique(0, samplesLeft, bufferSize, samplesLeft);
        return [];
      }
      var inOffset;
      sent, inOffset := Emit(input);
      Keep(input[..samplesLeft]);
      assert input == input[..inOffset] + input[inOffset..];
    }
  }

  /** A node configured as the library does it has no free output buffer:
    * the first input that completes a chunk would pop an empty free list. */
  method NoFreeBufferScenario() returns (free: nat, chunks: nat)
    ensures free == 0 && chunks == 1
  {
    var node := new BufferNode(ScalarInt16, 2);
    var r := node.Configure(Config(Int16, 1.0, 2, 2));
    free := |node.pool.free|;
    chunks := (node.samplesLeft + 3) / node.bufferSize;
  }

  /** Chunk size 2, input [1,2,3]: one chunk [1,2] is sent and 3 should be
    * held; as written the node holds 1. */
  method LeftoverAsWritten() returns (sent: seq<seq<int>>, held: seq<int>)
    ensures |sent| == 1 && sent[0] == [1, 2]
    ensures held == [1]
  {
    var a := new BufferNode(ScalarInt16, 2);
    var r := a.ConfigureFreeing(Config(Int16, 1.0, 2, 2));
    sent := a.ProcessAsWritten([1, 2, 3]);
    held := a.Held();
  }

  /** The same input through the corrected node holds 3. */
  method LeftoverCorrected() returns (sent: seq<seq<int>>, held: seq<int>)
    ensures |sent| == 1 && sent[0] == [1, 2]
    ensures held == [3]
  {
    var b := new BufferNode(ScalarInt16, 2);
    var r := b.ConfigureFreeing(Config(Int16, 1.0, 2, 2));
    sent := b.Process([1, 2, 3]);
    held := b.Held();
    assert sent[..|sent| - 1] == [];
    assert Flatten(sent) == [1, 2];
    assert [1, 2] + held == [1, 2, 3];
    assert held == [1, 2, 3][2..];
  }
}
