/** The offset conversions between unsigned and signed integer samples
  * (utils.cc: `UnsignedToSigned` and `SignedToUnsigned`). Both nodes
  * choose a per-component helper from the input type, keep one output
  * buffer of their own, and convert either in place or into that buffer.
  *
  * Storage holds sample components as the values the element type reads
  * (a complex sample is two consecutive components); the helper for 8-bit
  * components reads one byte per component and the one for 16-bit
  * components two. A buffer the node sends is its components together
  * with the byte length of the view it is sent as: the receiver sees
  * `bytes / componentSize` of them. */
module SignCasting {
  import opened Common
  import opened NodeConfig

  datatype Direction = ToSigned | ToUnsigned

  /** The two helpers: `_process_int8` and `_process_int16`. */
  datatype Width = Narrow | Wide

  function ComponentSize(w: Width): nat { if w == Narrow then 1 else 2 }
  function Offset(w: Width): int { if w == Narrow then 128 else 32768 }

  /** What `config` picks for an input type: the helper, the bytes per
    * sample and the output type. */
  datatype Selection = Selection(width: Width, scalarSize: nat, outType: SampleType)

  function Select(d: Direction, t: SampleType): Option<Selection>
  {
    match d
    case ToSigned =>
      (match t
       case UInt8 => Some(Selection(Narrow, 1, Int8))
       case CUInt8 => Some(Selection(Narrow, 2, CInt8))
       case UInt16 => Some(Selection(Wide, 2, Int16))
       case CUInt16 => Some(Selection(Wide, 4, CInt16))
       case _ => None)
    case ToUnsigned =>
      (match t
       case Int8 => Some(Selection(Narrow, 1, UInt8))
       case CInt8 => Some(Selection(Narrow, 2, CUInt8))
       case Int16 => Some(Selection(Wide, 2, UInt16))
       case CInt16 => Some(Selection(Wide, 4, CUInt16))
       case _ => None)
  }

  function Inverse(d: Direction): Direction
  {
    if d == ToSigned then ToUnsigned else ToSigned
  }

  /** The selection is consistent with the types: the bytes per sample are
    * those of the input type and of the output type, the helper width is
    * the component width, the shape is kept, and the opposite node accepts
    * the output type and maps it back to the input type. */
  lemma SelectConsistent(d: Direction, t: SampleType)
    requires Select(d, t).Some?
    ensures var s := Select(d, t).value;
      s.scalarSize == TypeSize(t) == TypeSize(s.outType)
      && s.scalarSize == ComponentSize(s.width) * (if IsComplex(t) then 2 else 1)
      && IsComplex(s.outType) == IsComplex(t)
      && Select(Inverse(d), s.outType) == Some(Selection(s.width, s.scalarSize, t))
  {
  }

  /** An unsigned node accepts exactly the four unsigned integer types, a
    * signed node the four signed ones. */
  lemma SelectDomain(d: Direction, t: SampleType)
    ensures Select(d, t).Some? <==>
      (d == ToSigned && t in {UInt8, CUInt8, UInt16, CUInt16})
      || (d == ToUnsigned && t in {Int8, CInt8, Int16, CInt16})
  {
  }

  /** A value of the component type the helper reads. */
  predicate InInput(d: Direction, w: Width, x: int)
  {
    if d == ToSigned then 0 <= x < 2 * Offset(w) else -Offset(w) <= x < Offset(w)
  }

  /** What the helper writes for one component. */
  function Shift(d: Direction, w: Width, x: int): (r: int)
    requires InInput(d, w, x)
    ensures InInput(Inverse(d), w, r)
  {
    if d == ToSigned then x - Offset(w) else x + Offset(w)
  }

  /** The two nodes undo each other component for component, and the
    * conversion keeps the order of the values. */
  lemma ShiftRoundTrip(d: Direction, w: Width, x: int, y: int)
    requires InInput(d, w, x) && InInput(d, w, y)
    ensures Shift(Inverse(d), w, Shift(d, w, x)) == x
    ensures x < y <==> Shift(d, w, x) < Shift(d, w, y)
  {
  }

  /** The helper loop over `num` components. `src` and `dst` may be the
    * same array: each component is read before it is overwritten. */
  method Run(d: Direction, w: Width, src: array<int>, num: nat, dst: array<int>)
    requires num <= src.Length && num <= dst.Length
    requires forall i :: 0 <= i < num ==> InInput(d, w, src[i])
    modifies dst
    ensures forall i :: 0 <= i < num ==> dst[i] == Shift(d, w, old(src[i]))
    ensures dst[num..] == old(dst[num..])
  {
    ghost var s0 := src[..];
    ghost var d0 := dst[..];
    var i := 0;
    while i < num
      invariant 0 <= i <= num
      invariant forall k :: 0 <= k < i ==> dst[k] == Shift(d, w, s0[k])
      invariant forall k :: i <= k < num ==> src[k] == s0[k]
      invariant dst[num..] == d0[num..]
    {
      dst[i] := Shift(d, w, src[i]);
      i := i + 1;
    }
  }

  /** A buffer the node sends (always with overwrite allowed): the
    * components of its storage from the start and the byte length of the
    * view. */
  datatype Sent = Sent(components: seq<int>, bytes: nat)

  /** The components the receiver reads from a sent view. */
  function Delivered(s: Sent, w: Width): (r: seq<int>)
    ensures |r| == Min(|s.components|, s.bytes / ComponentSize(w))
  {
    s.components[..Min(|s.components|, s.bytes / ComponentSize(w))]
  }

  class OffsetCast {
    const direction: Direction
    /** `_process`; `None` before the first successful configuration. */
    var width: Option<Width>
    /** `_buffer`, the node's own output storage. */
    var buffer: array<int>

    constructor (direction: Direction)
      ensures this.direction == direction && width == None && buffer.Length == 0
    {
      this.direction := direction;
      width := None;
      buffer := new int[0];
    }

    /** `config`: ignored without a type; a type without a helper is a
      * `ConfigError`; otherwise the helper is chosen, the node's buffer is
      * reallocated to `scalarSize · bufferSize` bytes and the output type
      * is published with the input's rate and buffer size and one buffer. */
    method Configure(c: Config) returns (r: Result<Option<Config>>)
      modifies this`width, this`buffer
      ensures !c.HasType() ==> r == Ok(None) && width == old(width) && buffer == old(buffer)
      ensures c.HasType() && Select(direction, c.sampleType).None? ==>
        r == Err(ConfigError) && width == old(width) && buffer == old(buffer)
      ensures c.HasType() && Select(direction, c.sampleType).Some? ==>
        var s := Select(direction, c.sampleType).value;
        width == Some(s.width) && fresh(buffer)
        && buffer.Length * ComponentSize(s.width) == s.scalarSize * c.bufferSize
        && r == Ok(Some(Config(s.outType, c.sampleRate, c.bufferSize, 1)))
    {
      if c.sampleType == Undefined {
        return Ok(None);
      }
      var sel := Select(direction, c.sampleType);
      if sel.None? {
        return Err(ConfigError);
      }
      var s := sel.value;
      width := Some(s.width);
      buffer := new int[s.scalarSize * c.bufferSize / ComponentSize(s.width)];
      r := Ok(Some(Config(s.outType, c.sampleRate, c.bufferSize, 1)));
    }

    /** Where `handleBuffer` converts: in place when the caller allows it,
      * into the node's own buffer when nobody else holds it, otherwise
      * nowhere (the input is dropped). */
    function Target(input: array<int>, allow: bool, ownUnused: bool): (t: Option<array<int>>)
      reads this
      ensures t.Some? <==> allow || ownUnused
      ensures allow ==> t == Some(input)
    {
      if allow then Some(input) else if ownUnused then Some(buffer) else None
    }

    /** `handleBuffer` as written: the helper converts the
      * `inBytes / componentSize` components of the input and sends a view
      * of `num` bytes, which for 16-bit components is half of them. */
    method HandleBufferAsWritten(input: array<int>, inBytes: nat, allow: bool, ownUnused: bool)
      returns (sent: Option<Sent>)
      requires width.Some?
      requires inBytes / ComponentSize(width.value) <= input.Length
      requires forall i :: 0 <= i < inBytes / ComponentSize(width.value) ==> InInput(direction, width.value, input[i])
      requires !allow && ownUnused ==> inBytes / ComponentSize(width.value) <= buffer.Length
      modifies input, buffer
      ensures var num := inBytes / ComponentSize(width.value);
        (Target(input, allow, ownUnused).None? ==> sent == None && unchanged(input, buffer))
        && (Target(input, allow, ownUnused).Some? ==>
              var out := Target(input, allow, ownUnused).value;
              sent == Some(Sent(out[..num], num))
              && (forall i :: 0 <= i < num ==> out[i] == Shift(direction, width.value, old(input[i])))
              && out[num..] == old(out[num..]))
    {
      var w := width.value;
      var num := inBytes / ComponentSize(w);
      var target := Target(input, allow, ownUnused);
      if target.None? {
        return None;
      }
      Run(direction, w, input, num, target.value);
      sent := Some(Sent(target.value[..num], num));
    }

    /** `handleBuffer` with the view sized in bytes: `num` components of
      * `componentSize` bytes each. */
    method HandleBuffer(input: array<int>, inBytes: nat, allow: bool, ownUnused: bool)
      returns (sent: Option<Sent>)
      requires width.Some?
      requires inBytes / ComponentSize(width.value) <= input.Length
      requires forall i :: 0 <= i < inBytes / ComponentSize(width.value) ==> InInput(direction, width.value, input[i])
      requires !allow && ownUnused ==> inBytes / ComponentSize(width.value) <= buffer.Length
      modifies input, buffer
      ensures var num := inBytes / ComponentSize(width.value);
        (Target(input, allow, ownUnused).None? ==> sent == None && unchanged(input, buffer))
        && (Target(input, allow, ownUnused).Some? ==>
              var out := Target(input, allow, ownUnused).value;
              sent.Some? && sent.value.bytes == num * ComponentSize(width.value)
              && (forall i :: 0 <= i < num ==> out[i] == Shift(direction, width.value, old(input[i])))
              && Delivered(sent.value, width.value) == out[..num]
              && out[num..] == old(out[num..]))
    {
      var w := width.value;
      var num := inBytes / ComponentSize(w);
      var target := Target(input, allow, ownUnused);
      if target.None? {
        return None;
      }
      Run(direction, w, input, num, target.value);
      sent := Some(Sent(target.value[..num], num * ComponentSize(w)));
      assert sent.value.bytes / ComponentSize(w) == num;
    }
  }

  /** The receiver of an as-written send reads every component for the
    * 8-bit helper and only the first half for the 16-bit one. */
  lemma AsWrittenDelivers(components: seq<int>, w: Width)
    ensures Delivered(Sent(components, |components|), w)
      == components[..|components| / ComponentSize(w)]
  {
  }

  /** Bytes 0, 128 and 255 converted in place by an unsigned-to-signed node
    * configured for `uint8` read back as -128, 0 and 127. */
  method UCharScenario() returns (values: seq<int>, delivered: seq<int>)
    ensures values == [-128, 0, 127] && delivered == values
  {
    var node := new OffsetCast(ToSigned);
    var r := node.Configure(Config(UInt8, 1.0, 3, 1));
    var a := new int[3];
    a[0], a[1], a[2] := 0, 128, 255;
    var sent := node.HandleBufferAsWritten(a, 3, true, false);
    values := a[..];
    delivered := Delivered(sent.value, Narrow);
  }

  /** The same values as `uint16` samples (six bytes) in place: the
    * components become -32768, -32640 and -32513, not -128, 0 and 127, and
    * the view the node sends is three bytes long, one `int16` sample, where
    * the corrected node sends all three. */
  method UShortScenario() returns (values: seq<int>, asWritten: seq<int>, corrected: seq<int>)
    ensures values == [-32768, -32640, -32513]
    ensures asWritten == [-32768] && corrected == values
  {
    var node := new OffsetCast(ToSigned);
    var r := node.Configure(Config(UInt16, 1.0, 3, 1));
    var a := new int[3];
    a[0], a[1], a[2] := 0, 128, 255;
    var sent := node.HandleBufferAsWritten(a, 6, true, false);
    values := a[..];
    asWritten := Delivered(sent.value, Wide);
    var b := new int[3];
    b[0], b[1], b[2] := 0, 128, 255;
    var fixedSent := node.HandleBuffer(b, 6, true, false);
    corrected := Delivered(fixedSent.value, Wide);
  }
}
