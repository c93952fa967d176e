/** Buffers (buffer.hh, buffer.cc): reference-counted byte regions, typed
  * views on them, a pool of pre-allocated buffers and ring buffers.
  *
  * A `RawBuffer` is a small handle that the library copies freely: a data
  * pointer, the storage size, a view (offset and length), a pointer to a
  * heap-allocated reference counter and a pointer to the owner. Here the
  * handle is a datatype and the storage and the counter are heap objects, so
  * that every copy of a handle visibly shares them. */
module Buffers {
  import opened Common

  /** The heap cell holding the reference count that all copies share. */
  class Counter {
    var count: int

    constructor (n: int)
      ensures count == n
    {
      count := n;
    }
  }

  datatype RawBuffer = RawBuffer(
    ptr: array?<bv8>,
    storageSize: nat,
    offset: nat,
    length: nat,
    refcount: Counter?,
    owner: BufferSet?)

  /** The handle of the empty buffer: no data, no counter, no owner. */
  function EmptyRaw(): (b: RawBuffer)
    ensures b.ptr == null && b.refcount == null && b.owner == null
    ensures b.storageSize == 0 && b.offset == 0 && b.length == 0
  {
    RawBuffer(null, 0, 0, 0, null, null)
  }

  predicate IsEmpty(b: RawBuffer) { b.ptr == null }

  /** `refCount()`: zero for a buffer without counter. */
  function RefCount(b: RawBuffer): int
    reads b.refcount
  {
    if b.refcount == null then 0 else b.refcount.count
  }

  /** `isUnused()`: a buffer is unused when it has no counter or when the
    * owner's reference is the only one left. */
  function IsUnused(b: RawBuffer): (r: bool)
    reads b.refcount
    ensures r <==> RefCount(b) == 1 || b.refcount == null
  {
    if b.refcount == null then true else b.refcount.count == 1
  }

  /** A buffer wrapping data it does not own: the storage size is
    * offset + len and there is no counter. */
  function Wrap(data: array<bv8>, offset: nat, len: nat): (b: RawBuffer)
    ensures b.ptr == data && b.storageSize == offset + len
    ensures b.offset == offset && b.length == len
    ensures b.refcount == null && RefCount(b) == 0 && IsUnused(b)
  {
    RawBuffer(data, offset + len, offset, len, null, null)
  }

  /** The view constructor `RawBuffer(other, offset, len)`: the same storage,
    * counter and owner, the offset moved by `offset` and the length `len`.
    * No bounds check is made. The copy constructor is the identity on the
    * handle, so it needs no function of its own. */
  function View(b: RawBuffer, offset: nat, len: nat): (v: RawBuffer)
    ensures v.ptr == b.ptr && v.refcount == b.refcount && v.owner == b.owner
    ensures v.storageSize == b.storageSize
    ensures v.offset == b.offset + offset && v.length == len
  {
    b.(offset := b.offset + offset, length := len)
  }

  /** A view that lies within its storage. */
  predicate ValidView(b: RawBuffer)
  {
    b.ptr != null && b.offset + b.length <= b.ptr.Length
  }

  /** The bytes a valid view shows. */
  function Bytes(b: RawBuffer): seq<bv8>
    reads b.ptr
    requires ValidView(b)
  {
    b.ptr[b.offset .. b.offset + b.length]
  }

  /** The allocating constructor `RawBuffer(N, owner)`. `dataOk` and
    * `counterOk` say whether the two `malloc` calls succeeded. When the data
    * could not be allocated the counter is released and the storage size is
    * zero; when only the counter could not be allocated the buffer has data
    * but no counter. */
  method Allocate(n: nat, owner: BufferSet?, dataOk: bool, counterOk: bool) returns (b: RawBuffer)
    ensures b.offset == 0 && b.length == n && b.owner == owner
    ensures dataOk ==> b.ptr != null && fresh(b.ptr) && b.ptr.Length == n && b.storageSize == n
    ensures !dataOk ==> b.ptr == null
    ensures dataOk && counterOk ==> b.refcount != null && fresh(b.refcount) && b.refcount.count == 1
    ensures !(dataOk && counterOk) ==> b.refcount == null
    ensures !dataOk && counterOk ==> b.storageSize == 0
    ensures !dataOk && !counterOk ==> b.storageSize == n
  {
    var ptr: array?<bv8> := null;
    var rc: Counter? := null;
    if dataOk { ptr := new bv8[n]; }
    if counterOk { rc := new Counter(0); }
    b := RawBuffer(ptr, n, 0, n, rc, owner);
    if ptr == null && rc != null {
      // free(_refcount)
      b := b.(refcount := null, storageSize := 0);
      return;
    }
    if rc != null {
      rc.count := 1;
    }
  }

  /** `ref()`: increments the shared count if there is a counter. */
  method Ref(b: RawBuffer)
    modifies b.refcount
    ensures b.refcount != null ==> b.refcount.count == old(b.refcount.count) + 1
  {
    if b.refcount != null {
      b.refcount.count := b.refcount.count + 1;
    }
  }

  /** `unref()`: decrements the shared count. When the count falls to one
    * and the buffer is owned, the owner is told that the buffer is unused;
    * when it falls to zero the storage is released and the handle becomes
    * empty. Empty and uncounted buffers are left alone. The updated handle
    * is returned. */
  method Unref(b: RawBuffer) returns (r: RawBuffer)
    requires b.owner != null ==> b.owner.Valid()
    modifies b.refcount, b.owner
    ensures b.ptr == null || b.refcount == null ==> r == b
    ensures b.ptr == null || b.refcount == null ==> b.owner != null ==> unchanged(b.owner)
    ensures b.refcount != null ==>
      b.refcount.count == old(b.refcount.count) - (if b.ptr != null then 1 else 0)
    ensures b.owner != null ==> b.owner.Valid()
    ensures b.owner != null ==>
      b.owner.buffers == old(b.owner.buffers) && b.owner.bufferSize == old(b.owner.bufferSize)
    ensures b.owner != null ==> (
      b.owner.free ==
        if b.ptr != null && b.refcount != null && b.refcount.count == 1 && b.ptr in old(b.owner.buffers)
        then old(b.owner.free) + [b.ptr] else old(b.owner.free))
    ensures b.ptr != null && b.refcount != null && b.refcount.count == 0 ==>
      r == b.(ptr := null, refcount := null)
    ensures b.ptr != null && b.refcount != null && b.refcount.count != 0 ==> r == b
  {
    r := b;
    if b.ptr == null || b.refcount == null {
      return;
    }
    b.refcount.count := b.refcount.count - 1;
    if b.refcount.count == 1 && b.owner != null {
      b.owner.BufferUnused(b);
    }
    if b.refcount.count == 0 {
      r := b.(ptr := null, refcount := null);
    }
  }

  /** `Buffer<T>`: a raw buffer viewed as `size` elements of `elemSize`
    * bytes each. */
  datatype Buffer = Buffer(raw: RawBuffer, elemSize: nat, size: nat)

  /** The empty typed buffer. */
  function EmptyBuffer(elemSize: nat): (b: Buffer)
    ensures b.raw == EmptyRaw() && b.size == 0 && b.elemSize == elemSize
  {
    Buffer(EmptyRaw(), elemSize, 0)
  }

  /** The explicit cast `Buffer<T>(const RawBuffer &)`: the element count is
    * the byte length of the view divided by the element size. */
  function FromRaw(raw: RawBuffer, elemSize: nat): (b: Buffer)
    requires elemSize >= 1
    ensures b.raw == raw && b.elemSize == elemSize
    ensures b.size * elemSize <= raw.length < (b.size + 1) * elemSize
  {
    Buffer(raw, elemSize, raw.length / elemSize)
  }

  /** `as<oT>()`: the same bytes seen as elements of another size. */
  function As(b: Buffer, elemSize: nat): (r: Buffer)
    requires elemSize >= 1
    ensures r.raw == b.raw && r.elemSize == elemSize
  {
    FromRaw(b.raw, elemSize)
  }

  lemma MulDivCancel(len: nat, e: nat)
    requires e >= 1
    ensures (len * e) / e == len
  {
    var s, m := (len * e) / e, (len * e) % e;
    assert len * e == s * e + m && 0 <= m < e;
    var d := len - s;
    assert d * e == m by {
      assert d * e == len * e - s * e;
    }
  }

  /** `sub(offset, len)`: the empty buffer when the range does not fit,
    * otherwise a view of `len` elements starting at element `offset`. */
  function Sub(b: Buffer, offset: nat, len: nat): (r: Buffer)
    requires b.elemSize >= 1
    ensures offset + len > b.size ==> r == EmptyBuffer(b.elemSize)
    ensures offset + len <= b.size ==>
      r.size == len && r.elemSize == b.elemSize
      && r.raw == View(b.raw, offset * b.elemSize, len * b.elemSize)
  {
    if offset + len > b.size then EmptyBuffer(b.elemSize)
    else
      MulDivCancel(len, b.elemSize);
      FromRaw(View(b.raw, offset * b.elemSize, len * b.elemSize), b.elemSize)
  }

  /** `head(n)`: the first n elements, or the empty buffer. */
  function Head(b: Buffer, n: nat): (r: Buffer)
    requires b.elemSize >= 1
    ensures n > b.size ==> r == EmptyBuffer(b.elemSize)
    ensures n <= b.size ==> r == Sub(b, 0, n)
  {
    if n > b.size then EmptyBuffer(b.elemSize) else Sub(b, 0, n)
  }

  /** `tail(n)`: the last n elements, or the empty buffer. */
  function Tail(b: Buffer, n: nat): (r: Buffer)
    requires b.elemSize >= 1
    ensures n > b.size ==> r == EmptyBuffer(b.elemSize)
    ensures n <= b.size ==> r == Sub(b, b.size - n, n)
  {
    if n > b.size then EmptyBuffer(b.elemSize) else Sub(b, b.size - n, n)
  }

  /** A head and the matching tail of a buffer cover it exactly: they have
    * the right sizes and the tail starts where the head ends. */
  lemma HeadTailSplit(b: Buffer, n: nat)
    requires b.elemSize >= 1 && n <= b.size
    ensures Head(b, n).size + Tail(b, b.size - n).size == b.size
    ensures Tail(b, b.size - n).raw.offset == Head(b, n).raw.offset + Head(b, n).raw.length
  {
    assert n * b.elemSize + 0 == n * b.elemSize;
  }

  /** The bytes of element i of a typed buffer. */
  function ElementBytes(b: Buffer, i: nat): seq<bv8>
    reads b.raw.ptr
    requires b.raw.ptr != null && i < b.size
    requires b.raw.offset + b.size * b.elemSize <= b.raw.ptr.Length
  {
    ElementInBounds(b, i);
    b.raw.ptr[b.raw.offset + i * b.elemSize .. b.raw.offset + (i + 1) * b.elemSize]
  }

  lemma ElementInBounds(b: Buffer, i: nat)
    requires i < b.size
    ensures (i + 1) * b.elemSize <= b.size * b.elemSize
  {
    MulMono(i + 1, b.size, b.elemSize);
  }

  lemma MulSubDist(a: int, b: int, c: int)
    ensures (a - b) * c == a * c - b * c
  {
  }

  /** The reinterpretation scenario of the unit tests: four int8 values seen
    * as `complex<int8>` are two elements, (1,2) and (3,4). */
  method ReinterpretScenario() returns (bytes: Buffer, cplx: Buffer, e0: seq<bv8>, e1: seq<bv8>)
    ensures bytes.size == 4 && cplx.size == bytes.size / 2
    ensures e0 == [1, 2] && e1 == [3, 4]
  {
    var raw := Allocate(4, null, true, true);
    bytes := FromRaw(raw, 1);
    raw.ptr[0], raw.ptr[1], raw.ptr[2], raw.ptr[3] := 1, 2, 3, 4;
    cplx := As(bytes, 2);
    e0 := ElementBytes(cplx, 0);
    e1 := ElementBytes(cplx, 1);
  }

  /** The reference-counting scenario of the unit tests: copies share the
    * count without changing it, `ref` then `unref` restores it. */
  method RefCountScenario() returns (c0: int, c1: int, c2: int, c3: int, unused1: bool, unused2: bool)
    ensures c0 == 1 && c1 == 1 && c2 == 2 && c3 == 1
    ensures unused1 && !unused2
  {
    var a := Allocate(3, null, true, true);
    c0 := RefCount(a);
    var b := a; // copy constructor
    c1 := RefCount(b);
    unused1 := IsUnused(b);
    Ref(b);
    c2 := RefCount(a);
    unused2 := IsUnused(a);
    b := Unref(b);
    c3 := RefCount(a);
  }

  /** `BufferSet<T>`: a pool of buffers of `bufferSize` elements, kept in a
    * map from their data pointers, with a vector of the free ones. */
  class BufferSet {
    var bufferSize: nat
    var elemSize: nat
    var buffers: map<array<bv8>, RawBuffer>
    var free: seq<array<bv8>>

    ghost predicate Valid()
      reads this
    {
      elemSize >= 1
      && (forall k :: k in buffers ==> buffers[k].ptr == k && buffers[k].owner == this)
      && (forall k :: k in buffers ==> buffers[k].refcount != null)
      && (forall i :: 0 <= i < |free| ==> free[i] in buffers)
    }

    /** Allocates `n` buffers; all of them are free. */
    constructor (n: nat, size: nat, elemSize: nat)
      requires elemSize >= 1
      ensures Valid() && bufferSize == size && this.elemSize == elemSize
      ensures |buffers| == n && |free| == n
      ensures forall k :: k in buffers <==> k in free
      ensures forall k :: k in buffers ==> fresh(buffers[k].refcount) && buffers[k].refcount.count == 1
    {
      bufferSize := size;
      this.elemSize := elemSize;
      buffers := map[];
      free := [];
      new;
      var i := 0;
      while i < n
        invariant 0 <= i <= n && Valid()
        invariant bufferSize == size && this.elemSize == elemSize
        invariant |buffers| == i && |free| == i
        invariant forall k :: k in buffers <==> k in free
        invariant forall k :: k in buffers ==> fresh(buffers[k].refcount) && buffers[k].refcount.count == 1
      {
        var b := AddNew(true);
        i := i + 1;
      }
    }

    /** One step of the preallocation loops: a fresh buffer of
      * `bufferSize` elements owned by this set, entered in the map and,
      * when `toFree`, on the free list. */
    method AddNew(toFree: bool) returns (b: RawBuffer)
      requires Valid()
      modifies this`buffers, this`free
      ensures Valid() && b.ptr != null && fresh(b.ptr) && b.ptr !in old(buffers)
      ensures b.refcount != null && fresh(b.refcount) && b.refcount.count == 1
      ensures buffers == old(buffers)[b.ptr := b]
      ensures free == old(free) + (if toFree then [b.ptr] else [])
    {
      b := Allocate(bufferSize * elemSize, this, true, true);
      buffers := buffers[b.ptr := b];
      if toFree {
        free := free + [b.ptr];
      }
    }

    /** `hasBuffer()`. */
    function HasBuffer(): (r: bool)
      reads this
      ensures r <==> |free| > 0
    {
      |free| != 0
    }

    /** `getBuffer()`: pops the last free id. The vector must not be empty. */
    method GetBuffer() returns (b: Buffer)
      requires Valid() && HasBuffer()
      modifies this
      ensures Valid()
      ensures free == old(free[..|free| - 1]) && buffers == old(buffers)
      ensures bufferSize == old(bufferSize) && elemSize == old(elemSize)
      ensures b == Buffer(buffers[old(free[|free| - 1])], elemSize, bufferSize)
    {
      var id := free[|free| - 1];
      free := free[..|free| - 1];
      b := Buffer(buffers[id], elemSize, bufferSize);
    }

    /** `bufferUnused(buffer)`: the owner callback. The buffer becomes free
      * again only if the set still holds it. */
    method BufferUnused(buffer: RawBuffer)
      requires Valid()
      modifies this
      ensures Valid() && buffers == old(buffers)
      ensures bufferSize == old(bufferSize) && elemSize == old(elemSize)
      ensures free == if buffer.ptr != null && buffer.ptr in buffers
                      then old(free) + [buffer.ptr] else old(free)
    {
      if buffer.ptr != null && buffer.ptr in buffers {
        free := free + [buffer.ptr];
      }
    }

    /** `resize(numBuffers)`: only grows. The new buffers are added to the
      * map but not to the free list. */
    method Resize(numBuffers: nat)
      requires Valid()
      modifies this
      ensures Valid() && free == old(free)
      ensures bufferSize == old(bufferSize) && elemSize == old(elemSize)
      ensures old(buffers).Keys <= buffers.Keys
      ensures |buffers| == Max(old(|buffers|), numBuffers)
      ensures forall k :: k in buffers && k !in old(buffers) ==> fresh(k)
    {
      if |buffers| == numBuffers {
        return;
      }
      if |buffers| < numBuffers {
        var n := numBuffers - |buffers|;
        var i := 0;
        while i < n
          invariant 0 <= i <= n && Valid() && free == old(free)
          invariant bufferSize == old(bufferSize) && elemSize == old(elemSize)
          invariant old(buffers).Keys <= buffers.Keys
          invariant |buffers| == old(|buffers|) + i
          invariant forall k :: k in buffers && k !in old(buffers) ==> fresh(k)
        {
          var b := AddNew(false);
          i := i + 1;
        }
      }
    }

    /** `resize` as evidently intended: the buffers it adds are free, as
      * those of the constructor are. */
    method ResizeFreeing(numBuffers: nat)
      requires Valid()
      modifies this
      ensures Valid()
      ensures bufferSize == old(bufferSize) && elemSize == old(elemSize)
      ensures old(buffers).Keys <= buffers.Keys
      ensures |buffers| == Max(old(|buffers|), numBuffers)
      ensures |free| == old(|free|) + (|buffers| - old(|buffers|))
      ensures free[..old(|free|)] == old(free)
      ensures forall i :: old(|free|) <= i < |free| ==> free[i] in buffers && free[i] !in old(buffers)
    {
      if |buffers| < numBuffers {
        var n := numBuffers - |buffers|;
        var i := 0;
        while i < n
          invariant 0 <= i <= n && Valid()
          invariant bufferSize == old(bufferSize) && elemSize == old(elemSize)
          invariant old(buffers).Keys <= buffers.Keys
          invariant |buffers| == old(|buffers|) + i && |free| == old(|free|) + i
          invariant free[..old(|free|)] == old(free)
          invariant forall k :: old(|free|) <= k < |free| ==> free[k] in buffers && free[k] !in old(buffers)
        {
          var b := AddNew(true);
          i := i + 1;
        }
      }
    }
  }

  /** A pool built with no buffers and then grown by `resize`, as the
    * buffer node builds its pool, still has no free buffer: `getBuffer`
    * cannot be called on it. */
  method GrownPoolScenario() returns (owned: nat, hasFree: bool)
    ensures owned == 2 && !hasFree
  {
    var pool := new BufferSet(0, 4, 2);
    pool.Resize(2);
    owned := |pool.buffers|;
    hasFree := pool.HasBuffer();
  }

  /** A pool buffer that a receiver referenced and then released goes back
    * on the free list through the owner callback. */
  method PoolCycleScenario() returns (freeBefore: nat, freeTaken: nat, freeAfter: nat, count: int)
    ensures freeBefore == 2 && freeTaken == 1 && freeAfter == 2 && count == 1
  {
    var pool := new BufferSet(2, 4, 1);
    freeBefore := |pool.free|;
    var b := pool.GetBuffer();
    freeTaken := |pool.free|;
    Ref(b.raw);         // a queued receiver takes a reference
    var r := Unref(b.raw); // and releases it once done
    freeAfter := |pool.free|;
    count := RefCount(b.raw);
  }

  /** `memcpy(dst + dstOff, src + srcOff, n)` between two distinct blocks. */
  method CopyBytes(dst: array<bv8>, dstOff: nat, src: array<bv8>, srcOff: nat, n: nat)
    requires dst != src
    requires dstOff + n <= dst.Length && srcOff + n <= src.Length
    modifies dst
    ensures forall k :: 0 <= k < dst.Length ==>
      dst[k] == if dstOff <= k < dstOff + n then src[srcOff + (k - dstOff)] else old(dst[k])
  {
    var i := 0;
    while i < n
      invariant 0 <= i <= n
      invariant forall k :: 0 <= k < dst.Length ==>
        dst[k] == if dstOff <= k < dstOff + i then src[srcOff + (k - dstOff)] else old(dst[k])
    {
      dst[dstOff + i] := src[srcOff + i];
      i := i + 1;
    }
  }

  /** Position `i` of a circular store of `n` bytes, for `i < 2n`. */
  function WrapIndex(i: nat, n: nat): nat
  {
    if i < n then i else i - n
  }

  /** Position of the i-th stored byte of a ring whose take index is `take`. */
  function RingPos(take: nat, i: nat, n: nat): nat
  {
    WrapIndex(take + i, n)
  }

  predicate RingIndices(size: nat, take: nat, stored: nat)
  {
    stored <= size && (if size == 0 then take == 0 else take < size)
  }

  /** The bytes held by a ring in FIFO order: `stored` bytes starting at the
    * take index and wrapping around the end of the store. */
  function RingContents(store: seq<bv8>, take: nat, stored: nat): (r: seq<bv8>)
    requires RingIndices(|store|, take, stored)
    ensures |r| == stored
  {
    seq(stored, i requires 0 <= i < stored => store[RingPos(take, i, |store|)])
  }

  /** `RawRingBuffer`: a circular byte FIFO over a reference-counted
    * storage, described by a take index and the number of stored bytes. */
  class RawRingBuffer {
    var ptr: array?<bv8>
    var storageSize: nat
    var refcount: Counter?
    var takeIdx: nat
    var stored: nat

    ghost predicate Valid()
      reads this
    {
      (ptr == null ==> storageSize == 0)
      && (ptr != null ==> ptr.Length == storageSize)
      && RingIndices(storageSize, takeIdx, stored)
    }

    ghost function Contents(): seq<bv8>
      reads this, ptr
      requires Valid()
    {
      if ptr == null then [] else RingContents(ptr[..], takeIdx, stored)
    }

    /** The empty ring buffer: no storage. */
    constructor Empty()
      ensures Valid() && ptr == null && refcount == null && Contents() == []
    {
      ptr, storageSize, refcount := null, 0, null;
      takeIdx, stored := 0, 0;
    }

    /** A ring buffer over `size` freshly allocated bytes. */
    constructor (size: nat)
      ensures Valid() && ptr != null && fresh(ptr) && storageSize == size
      ensures refcount != null && fresh(refcount) && refcount.count == 1
      ensures Contents() == []
    {
      ptr := new bv8[size];
      storageSize := size;
      refcount := new Counter(1);
      takeIdx, stored := 0, 0;
    }

    /** Assignment: this ring now shares the other ring's storage and counter
      * and copies its indices; later changes to the indices of one ring are
      * not seen by the other. */
    method Assign(other: RawRingBuffer)
      modifies this
      ensures ptr == other.ptr && storageSize == other.storageSize && refcount == other.refcount
      ensures takeIdx == other.takeIdx && stored == other.stored
    {
      ptr, storageSize, refcount := other.ptr, other.storageSize, other.refcount;
      takeIdx, stored := other.takeIdx, other.stored;
    }

    /** `bytesLen()`. */
    function BytesLen(): (n: nat)
      reads this, ptr
      requires Valid()
      ensures n == |Contents()|
    {
      stored
    }

    /** `bytesFree()`: together with `bytesLen()` always the storage size. */
    function BytesFree(): (n: nat)
      reads this, ptr
      requires Valid()
      ensures BytesLen() + n == storageSize
    {
      storageSize - stored
    }

    /** `put(src)`: fails and changes nothing when the bytes of `src` do not
      * fit; otherwise appends all of them, wrapping to index 0. */
    method Put(src: RawBuffer) returns (ok: bool)
      requires Valid() && ValidView(src) && src.ptr != ptr
      modifies ptr, this`stored
      ensures Valid() && takeIdx == old(takeIdx)
      ensures ok <==> src.length <= old(storageSize - stored)
      ensures ok ==> Contents() == old(Contents()) + Bytes(src)
      ensures !ok ==> stored == old(stored) && (ptr != null ==> ptr[..] == old(ptr[..]))
    {
      var len := src.length;
      if len > storageSize - stored {
        return false;
      }
      if len == 0 {
        // nothing is copied
        assert Bytes(src) == [];
        assert ptr != null ==> Contents() == old(Contents());
        return true;
      }
      var putIdx := takeIdx + stored;
      if putIdx > storageSize {
        putIdx := putIdx - storageSize;
      }
      Store(src, putIdx);
      stored := stored + len;
      ok := true;
    }

    /** The copying part of `put` for a non-empty source that fits: the
      * bytes go to the positions following the stored ones. */
    method Store(src: RawBuffer, putIdx: nat)
      requires Valid() && ValidView(src) && src.ptr != ptr
      requires 0 < src.length <= storageSize - stored
      requires putIdx == if takeIdx + stored > storageSize then takeIdx + stored - storageSize else takeIdx + stored
      modifies ptr
      ensures ptr != null && RingIndices(storageSize, takeIdx, stored + src.length)
      ensures RingContents(ptr[..], takeIdx, stored + src.length) == old(Contents()) + Bytes(src)
    {
      var len := src.length;
      ghost var s0, bytes := ptr[..], Bytes(src);
      if storageSize >= putIdx + len {
        // the bytes can be copied at once
        CopyBytes(ptr, putIdx, src.ptr, src.offset, len);
        DirectPutContents(s0, ptr[..], takeIdx, stored, putIdx, bytes);
      } else {
        // first part up to the end of the store, second part from index 0
        var numA := storageSize - putIdx;
        CopyBytes(ptr, putIdx, src.ptr, src.offset, numA);
        CopyBytes(ptr, 0, src.ptr, src.offset + numA, len - numA);
        SplitPutContents(s0, ptr[..], takeIdx, stored, putIdx, bytes);
      }
    }

    /** `take(dest, N)`: fails and changes nothing when N exceeds the
      * destination's length or the stored bytes; otherwise moves the N
      * oldest bytes, in FIFO order, to the start of the destination view. */
    method Take(dest: RawBuffer, n: nat) returns (ok: bool)
      requires Valid() && ValidView(dest) && dest.ptr != ptr
      modifies dest.ptr, this`takeIdx, this`stored
      ensures Valid()
      ensures ok <==> n <= dest.length && n <= old(stored)
      ensures ok ==> Contents() == old(Contents())[n..]
      ensures ok ==> dest.ptr[dest.offset .. dest.offset + n] == old(Contents())[..n]
      ensures forall k :: 0 <= k < dest.ptr.Length && !(ok && dest.offset <= k < dest.offset + n) ==>
        dest.ptr[k] == old(dest.ptr[k])
      ensures !ok ==> takeIdx == old(takeIdx) && stored == old(stored)
    {
      if n > dest.length {
        return false;
      }
      if n > stored {
        return false;
      }
      Fetch(dest, n);
      AdvanceTake(ptr, takeIdx, stored, n);
      takeIdx := NextTake(takeIdx, n, storageSize);
      stored := stored - n;
      ok := true;
    }

    /** The copying part of `take`: the N oldest bytes go to the start of
      * the destination view; nothing else in the destination changes. */
    method Fetch(dest: RawBuffer, n: nat)
      requires Valid() && ValidView(dest) && dest.ptr != ptr
      requires n <= dest.length && n <= stored
      modifies dest.ptr
      ensures dest.ptr[dest.offset .. dest.offset + n] == Contents()[..n]
      ensures forall k :: 0 <= k < dest.ptr.Length && !(dest.offset <= k < dest.offset + n) ==>
        dest.ptr[k] == old(dest.ptr[k])
    {
      ghost var store := if ptr == null then [] else ptr[..];
      ghost var d0 := dest.ptr[..];
      if storageSize > takeIdx + n {
        // the bytes can be taken at once
        CopyBytes(dest.ptr, dest.offset, ptr, takeIdx, n);
        DirectTakeContents(d0, dest.ptr[..], dest.offset, store, takeIdx, stored, n);
      } else {
        // copy in two steps
        var numA := storageSize - takeIdx;
        if numA > 0 {
          CopyBytes(dest.ptr, dest.offset, ptr, takeIdx, numA);
        }
        if n - numA > 0 {
          CopyBytes(dest.ptr, dest.offset + numA, ptr, 0, n - numA);
        }
        SplitTakeContents(d0, dest.ptr[..], dest.offset, store, takeIdx, stored, n);
      }
    }

    /** `drop(N)`: removes the min(N, stored) oldest bytes. */
    method Drop(n: nat)
      requires Valid()
      modifies this`takeIdx, this`stored
      ensures Valid()
      ensures Contents() == old(Contents())[Min(n, old(stored))..]
    {
      var m := Min(n, stored);
      AdvanceTake(ptr, takeIdx, stored, m);
      if storageSize > takeIdx + m {
        takeIdx := takeIdx + m;
        stored := stored - m;
      } else {
        takeIdx := m - (storageSize - takeIdx);
        stored := stored - m;
      }
    }

    /** `clear()`. */
    method Clear()
      requires Valid()
      modifies this`takeIdx, this`stored
      ensures Valid() && Contents() == []
    {
      takeIdx, stored := 0, 0;
    }

    /** `resize(N)`: nothing at the same size; otherwise the ring is emptied
      * and gets a new allocation of N bytes (the old storage is not
      * released). */
    method Resize(n: nat)
      requires Valid()
      modifies this
      ensures Valid()
      ensures old(storageSize) == n ==>
        ptr == old(ptr) && refcount == old(refcount) && takeIdx == old(takeIdx)
        && stored == old(stored) && storageSize == n
      ensures old(storageSize) != n ==>
        ptr != null && fresh(ptr) && storageSize == n && Contents() == []
        && refcount != null && fresh(refcount) && refcount.count == 1
    {
      if storageSize == n {
        return;
      }
      takeIdx, stored := 0, 0;
      var b := Allocate(n, null, true, true);
      ptr, storageSize, refcount := b.ptr, b.storageSize, b.refcount;
    }
  }

  /** The store after a put: the new bytes sit at the positions following
    * the stored ones, and the stored ones are untouched. */
  lemma PutContents(s0: seq<bv8>, s1: seq<bv8>, take: nat, stored: nat, src: seq<bv8>)
    requires |s0| == |s1| && RingIndices(|s0|, take, stored + |src|)
    requires forall i :: stored <= i < stored + |src| ==> s1[RingPos(take, i, |s0|)] == src[i - stored]
    requires forall i :: 0 <= i < stored ==> s1[RingPos(take, i, |s0|)] == s0[RingPos(take, i, |s0|)]
    ensures RingContents(s1, take, stored + |src|) == RingContents(s0, take, stored) + src
  {
    var a, b := RingContents(s1, take, stored + |src|), RingContents(s0, take, stored) + src;
    forall i | 0 <= i < |a| ensures a[i] == b[i] {
    }
  }

  /** A put without wrap-around: the bytes copied to putIdx onwards extend
    * the contents. */
  lemma DirectPutContents(s0: seq<bv8>, s1: seq<bv8>, take: nat, stored: nat, putIdx: nat, bytes: seq<bv8>)
    requires |s0| == |s1| && RingIndices(|s0|, take, stored + |bytes|) && |bytes| > 0
    requires putIdx == if take + stored > |s0| then take + stored - |s0| else take + stored
    requires |s0| >= putIdx + |bytes|
    requires forall k :: 0 <= k < |s1| ==> s1[k] == if putIdx <= k < putIdx + |bytes| then bytes[k - putIdx] else s0[k]
    ensures RingContents(s1, take, stored + |bytes|) == RingContents(s0, take, stored) + bytes
  {
    DirectPutPositions(take, stored, |bytes|, |s0|, putIdx);
    PutContents(s0, s1, take, stored, bytes);
  }

  /** A put with wrap-around: the first bytes go to the end of the store,
    * the rest to its start, and together they extend the contents. */
  lemma SplitPutContents(s0: seq<bv8>, s1: seq<bv8>, take: nat, stored: nat, putIdx: nat, bytes: seq<bv8>)
    requires |s0| == |s1| && RingIndices(|s0|, take, stored + |bytes|) && |bytes| > 0
    requires putIdx == if take + stored > |s0| then take + stored - |s0| else take + stored
    requires |s0| < putIdx + |bytes|
    requires forall k :: 0 <= k < |s1| ==>
      s1[k] == if putIdx <= k then bytes[k - putIdx]
               else if k < |bytes| - (|s0| - putIdx) then bytes[(|s0| - putIdx) + k] else s0[k]
    ensures RingContents(s1, take, stored + |bytes|) == RingContents(s0, take, stored) + bytes
  {
    SplitPutPositions(take, stored, |bytes|, |s0|, putIdx);
    PutContents(s0, s1, take, stored, bytes);
  }

  /** Where a put that needs no wrap-around writes: byte j of the source
    * goes to position putIdx + j, and no stored byte lies in that range. */
  lemma DirectPutPositions(take: nat, stored: nat, len: nat, n: nat, putIdx: nat)
    requires RingIndices(n, take, stored + len) && len > 0
    requires putIdx == if take + stored > n then take + stored - n else take + stored
    requires n >= putIdx + len
    ensures forall i :: stored <= i < stored + len ==> RingPos(take, i, n) == putIdx + (i - stored)
    ensures forall i :: 0 <= i < stored ==>
      RingPos(take, i, n) < putIdx || putIdx + len <= RingPos(take, i, n)
  {
  }

  /** Where a put that wraps around writes: the first n - putIdx source
    * bytes go to the end of the store and the rest to its start. */
  lemma SplitPutPositions(take: nat, stored: nat, len: nat, n: nat, putIdx: nat)
    requires RingIndices(n, take, stored + len) && len > 0
    requires putIdx == if take + stored > n then take + stored - n else take + stored
    requires n < putIdx + len
    ensures putIdx == take + stored
    ensures forall i :: stored <= i < stored + len ==>
      RingPos(take, i, n) == if i - stored < n - putIdx then putIdx + (i - stored) else i - stored - (n - putIdx)
    ensures forall i :: 0 <= i < stored ==>
      len - (n - putIdx) <= RingPos(take, i, n) < putIdx
  {
  }

  /** The destination after a take holds the N oldest stored bytes. */
  lemma TakeContents(d: seq<bv8>, off: nat, s: seq<bv8>, take: nat, stored: nat, n: nat)
    requires RingIndices(|s|, take, stored) && n <= stored && off + n <= |d|
    requires forall k :: off <= k < off + n ==> d[k] == s[RingPos(take, k - off, |s|)]
    ensures d[off .. off + n] == RingContents(s, take, stored)[..n]
  {
    var a, b := d[off .. off + n], RingContents(s, take, stored)[..n];
    forall i | 0 <= i < n ensures a[i] == b[i] {
      assert a[i] == d[off + i];
    }
  }

  /** A take without wrap-around copies the N oldest bytes. */
  lemma DirectTakeContents(d0: seq<bv8>, d1: seq<bv8>, off: nat, s: seq<bv8>, take: nat, stored: nat, n: nat)
    requires RingIndices(|s|, take, stored) && n <= stored && off + n <= |d1| && |d0| == |d1|
    requires |s| > take + n
    requires forall k :: 0 <= k < |d1| ==> d1[k] == if off <= k < off + n then s[take + (k - off)] else d0[k]
    ensures d1[off .. off + n] == RingContents(s, take, stored)[..n]
  {
    DirectTakePositions(take, n, |s|);
    TakeContents(d1, off, s, take, stored, n);
  }

  /** A take with wrap-around copies the bytes up to the end of the store
    * and then those from its start: again the N oldest bytes. */
  lemma SplitTakeContents(d0: seq<bv8>, d1: seq<bv8>, off: nat, s: seq<bv8>, take: nat, stored: nat, n: nat)
    requires RingIndices(|s|, take, stored) && n <= stored && off + n <= |d1| && |d0| == |d1|
    requires |s| <= take + n
    requires forall k :: 0 <= k < |d1| ==>
      d1[k] == if off <= k < off + (|s| - take) then s[take + (k - off)]
               else if off + (|s| - take) <= k < off + n then s[k - off - (|s| - take)] else d0[k]
    ensures d1[off .. off + n] == RingContents(s, take, stored)[..n]
  {
    SplitTakePositions(take, n, |s|);
    TakeContents(d1, off, s, take, stored, n);
  }

  /** Where a take that needs no wrap-around reads. */
  lemma DirectTakePositions(take: nat, n: nat, size: nat)
    requires size > take + n
    ensures forall k :: 0 <= k < n ==> RingPos(take, k, size) == take + k
  {
  }

  /** Where a take that wraps around reads: first up to the end of the
    * store, then from its start. */
  lemma SplitTakePositions(take: nat, n: nat, size: nat)
    requires take + n >= size && (size == 0 ==> take == 0) && (size > 0 ==> take < size)
    requires n <= size
    ensures forall k :: 0 <= k < n ==>
      RingPos(take, k, size) == if k < size - take then take + k else k - (size - take)
  {
  }

  /** The take index after N bytes have been taken or dropped. */
  function NextTake(take: nat, n: nat, size: nat): nat
    requires take + n >= size ==> n >= size - take
  {
    if size > take + n then take + n else n - (size - take)
  }

  /** Taking or dropping the N oldest bytes leaves the remaining ones, in
    * order, in front of the new take index. */
  lemma AdvanceTake(ptr: array?<bv8>, take: nat, stored: nat, n: nat)
    requires ptr == null ==> take == 0 && stored == 0
    requires RingIndices(if ptr == null then 0 else ptr.Length, take, stored) && n <= stored
    ensures var size := if ptr == null then 0 else ptr.Length;
      RingIndices(size, NextTake(take, n, size), stored - n)
      && (ptr != null ==>
        RingContents(ptr[..], NextTake(take, n, size), stored - n) == RingContents(ptr[..], take, stored)[n..])
  {
    if ptr != null {
      var size := ptr.Length;
      var t := NextTake(take, n, size);
      var a, b := RingContents(ptr[..], t, stored - n), RingContents(ptr[..], take, stored)[n..];
      forall i | 0 <= i < |a| ensures a[i] == b[i] {
        assert RingPos(t, i, size) == RingPos(take, n + i, size);
      }
    }
  }

  /** The first half of the ring buffer test: on a 3-byte ring, "a" and
    * "bc" fit and a further "abc" does not. */
  /** A fresh three-byte buffer holding "abc". */
  method AbcBuffer() returns (a: RawBuffer)
    ensures ValidView(a) && fresh(a.ptr) && a.offset == 0 && a.length == 3
    ensures a.ptr[..] == ['a' as bv8, 'b' as bv8, 'c' as bv8]
  {
    a := Allocate(3, null, true, true);
    a.ptr[0], a.ptr[1], a.ptr[2] := 'a' as bv8, 'b' as bv8, 'c' as bv8;
  }

  method RingStart() returns (ring: RawRingBuffer, a: RawBuffer, firstOk: bool)
    ensures firstOk
    ensures fresh(ring) && fresh(ring.ptr) && fresh(a.ptr) && ring.Valid() && ring.storageSize == 3
    ensures ring.Contents() == ['a' as bv8] && ring.stored == 1
    ensures ValidView(a) && a.ptr != ring.ptr && a.offset == 0 && a.length == 3
    ensures a.ptr[..] == ['a' as bv8, 'b' as bv8, 'c' as bv8]
  {
    a := AbcBuffer();
    ring := new RawRingBuffer(3);
    assert Bytes(View(a, 0, 1)) == ['a' as bv8];
    firstOk := ring.Put(View(a, 0, 1));
  }

  method RingFill() returns (ring: RawRingBuffer, a: RawBuffer, firstOk: bool, secondOk: bool, overflowOk: bool)
    ensures firstOk && secondOk && !overflowOk
    ensures fresh(ring) && fresh(ring.ptr) && fresh(a.ptr) && ring.Valid() && ring.storageSize == 3
    ensures ring.Contents() == ['a' as bv8, 'b' as bv8, 'c' as bv8]
    ensures ValidView(a) && a.ptr != ring.ptr && a.offset == 0 && a.length == 3
    ensures a.ptr[..] == ['a' as bv8, 'b' as bv8, 'c' as bv8]
  {
    ring, a, firstOk := RingStart();
    assert Bytes(View(a, 1, 2)) == ['b' as bv8, 'c' as bv8];
    secondOk := ring.Put(View(a, 1, 2));
    assert ring.Contents() == ['a' as bv8, 'b' as bv8, 'c' as bv8];
    overflowOk := ring.Put(a);
  }

  /** A one-byte take from a non-empty ring gives its oldest byte. */
  method RingTakeOne(ring: RawRingBuffer, b: RawBuffer) returns (t: bv8)
    requires ring.Valid() && |ring.Contents()| > 0
    requires ValidView(b) && b.ptr != ring.ptr && b.offset == 0 && b.length > 0
    modifies b.ptr, ring`takeIdx, ring`stored
    ensures ring.Valid() && ring.Contents() == old(ring.Contents())[1..]
    ensures t == old(ring.Contents())[0]
  {
    var ok := ring.Take(b, 1);
    assert b.ptr[0..1] == old(ring.Contents())[..1];
    t := b.ptr[0];
  }

  /** Two one-byte takes from a ring holding "abc" give 'a' and 'b'. */
  method RingTakeTwo(ring: RawRingBuffer, b: RawBuffer) returns (t1: bv8, t2: bv8)
    requires ring.Valid() && ring.Contents() == ['a' as bv8, 'b' as bv8, 'c' as bv8]
    requires ValidView(b) && b.ptr != ring.ptr && b.offset == 0 && b.length == 3
    modifies b.ptr, ring`takeIdx, ring`stored
    ensures ring.Valid() && ring.Contents() == ['c' as bv8]
    ensures t1 == 'a' as bv8 && t2 == 'b' as bv8
  {
    t1 := RingTakeOne(ring, b);
    t2 := RingTakeOne(ring, b);
  }

  /** The ring buffer test sequence: after the fill, two one-byte takes
    * give 'a' and 'b', and after putting "ab" a three-byte take gives
    * "cab". */
  method RingScenario() returns (t1: bv8, t2: bv8, last: seq<bv8>)
    ensures t1 == 'a' as bv8 && t2 == 'b' as bv8
    ensures last == ['c' as bv8, 'a' as bv8, 'b' as bv8]
  {
    var ring, a, _, _, _ := RingFill();
    var b := Allocate(3, null, true, true);
    t1, t2 := RingTakeTwo(ring, b);
    assert Bytes(View(a, 0, 2)) == ['a' as bv8, 'b' as bv8];
    var ok := ring.Put(View(a, 0, 2));
    assert ring.Contents() == ['c' as bv8, 'a' as bv8, 'b' as bv8];
    ok := ring.Take(b, 3);
    assert b.ptr[..] == b.ptr[0..3];
    last := b.ptr[..];
  }

  /** `RingBuffer<T>`: a ring buffer counted in elements of `elemSize`
    * bytes. The byte-level state lives in `raw`; `size` and `storedElems`
    * are the element counters the typed ring keeps beside it. */
  class RingBuffer {
    var raw: RawRingBuffer
    var elemSize: nat
    var size: nat
    var storedElems: int

    ghost predicate Valid()
      reads this, raw
    {
      raw.Valid() && elemSize >= 1
    }

    /** The element counters agree with the byte ring. */
    ghost predicate Consistent()
      reads this, raw
    {
      raw.storageSize == size * elemSize && raw.stored == storedElems * elemSize
    }

    /** `RingBuffer(N)`: room for N elements, none stored. */
    constructor (n: nat, elemSize: nat)
      requires elemSize >= 1
      ensures Valid() && Consistent() && fresh(raw) && fresh(raw.ptr)
      ensures this.elemSize == elemSize && size == n && storedElems == 0 && raw.Contents() == []
    {
      raw := new RawRingBuffer(n * elemSize);
      this.elemSize, size, storedElems := elemSize, n, 0;
    }

    /** `stored()` and `free()`. */
    function Stored(): (n: int)
      reads this, raw
      requires Valid() && Consistent()
      ensures n * elemSize == raw.BytesLen()
    {
      storedElems
    }

    function Free(): (n: int)
      reads this, raw
      requires Valid() && Consistent()
      ensures n * elemSize == raw.BytesFree()
    {
      size - storedElems
    }

    /** `put(data)`: the bytes of the typed view go into the ring; on success
      * the element count grows by the view's size. */
    method Put(data: Buffer) returns (ok: bool)
      requires Valid() && ValidView(data.raw) && data.raw.ptr != raw.ptr
      modifies raw.ptr, raw`stored, this`storedElems
      ensures Valid()
      ensures ok <==> data.raw.length <= old(raw.storageSize - raw.stored)
      ensures ok ==> raw.Contents() == old(raw.Contents()) + Bytes(data.raw)
      ensures storedElems == if ok then old(storedElems) + data.size else old(storedElems)
      ensures old(Consistent()) && data.raw.length == data.size * elemSize ==> Consistent()
    {
      ok := raw.Put(data.raw);
      if ok {
        storedElems := storedElems + data.size;
      }
    }

    /** `take(dest, N)`: takes N elements, N times the element size in
      * bytes. */
    method Take(dest: Buffer, n: nat) returns (ok: bool)
      requires Valid() && ValidView(dest.raw) && dest.raw.ptr != raw.ptr
      modifies dest.raw.ptr, raw`takeIdx, raw`stored, this`storedElems
      ensures Valid()
      ensures ok <==> n * elemSize <= dest.raw.length && n * elemSize <= old(raw.stored)
      ensures ok ==> raw.Contents() == old(raw.Contents())[n * elemSize..]
      ensures ok ==> (dest.raw.ptr[dest.raw.offset .. dest.raw.offset + n * elemSize]
        == old(raw.Contents())[..n * elemSize])
      ensures storedElems == if ok then old(storedElems) - n else old(storedElems)
      ensures old(Consistent()) ==> Consistent()
    {
      var bytes := n * elemSize;
      ok := raw.Take(dest.raw, bytes);
      if ok {
        MulSubDist(storedElems, n, elemSize);
        storedElems := storedElems - n;
      }
    }

    /** `drop(N)`: drops N elements' worth of bytes and recounts the stored
      * elements from the bytes left. */
    method Drop(n: nat)
      requires Valid()
      modifies raw`takeIdx, raw`stored, this`storedElems
      ensures Valid()
      ensures raw.Contents() == old(raw.Contents())[Min(n * elemSize, old(raw.stored))..]
      ensures storedElems == raw.stored / elemSize
    {
      raw.Drop(n * elemSize);
      storedElems := raw.stored / elemSize;
    }

    /** `resize(N)`: resizes the byte ring only; the element counters keep
      * their old values. */
    method Resize(n: nat)
      requires Valid()
      modifies raw
      ensures Valid() && size == old(size) && storedElems == old(storedElems)
      ensures old(raw.storageSize) != n * elemSize ==>
        raw.storageSize == n * elemSize && raw.Contents() == [] && fresh(raw.ptr)
      ensures old(raw.storageSize) == n * elemSize ==>
        raw.ptr == old(raw.ptr) && raw.takeIdx == old(raw.takeIdx) && raw.stored == old(raw.stored)
    {
      raw.Resize(n * elemSize);
    }
  }

  /** Resizing a typed ring that holds elements to a new size leaves its
    * element counters out of step with the bytes it holds. */
  method StaleResizeScenario() returns (storedAfter: int, bytesAfter: nat)
    ensures storedAfter == 1 && bytesAfter == 0
  {
    var ring := new RingBuffer(2, 1);
    var a := Allocate(1, null, true, true);
    var ok := ring.Put(Buffer(a, 1, 1));
    ring.Resize(4);
    storedAfter, bytesAfter := ring.storedElems, ring.raw.stored;
  }
}
