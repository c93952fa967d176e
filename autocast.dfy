/** The automatic integer cast node (autocast.hh). `config` picks one of
  * the static conversion helpers from the pair (output type, input type);
  * `handleBuffer` runs it over the input into the node's own buffer and
  * sends the bytes written.
  *
  * Samples are values: a real sample holds the value of its element type,
  * a complex one the values of its two parts. Each helper reads the input
  * elements as the type it is declared for, so a `uint16` buffer handed to
  * the `int16` helper is read as `int16` (two's complement), and a value
  * assigned to a narrower element type is reduced to that width. What the
  * node sends is returned as a list. */
module AutoCasting {
  import opened Common
  import opened NodeConfig

  datatype Sample = Real(v: int) | Cplx(re: int, im: int)

  /** The helpers, by the name of their C++ function. */
  datatype Cast =
    | Identity(target: SampleType)
    | Int16Int8 | Uint8Cint8 | Int8Cint8 | Cuint8Cint8 | Int16Cint8 | Cint16Cint8
    | Int8Int16 | Uint8Cint16 | Int8Cint16 | Cuint8Cint16 | Cint8Cint16 | Uint16Cint16 | Int16Cint16

  /** The cast `config` selects for output type `target` and input type
    * `src`, or none. */
  function SelectCast(target: SampleType, src: SampleType): Option<Cast>
  {
    match target
    case Int8 =>
      (match src
       case UInt8 => Some(Identity(Int8)) case Int8 => Some(Identity(Int8))
       case UInt16 => Some(Int16Int8) case Int16 => Some(Int16Int8)
       case _ => None)
    case CInt8 =>
      (match src
       case UInt8 => Some(Uint8Cint8) case Int8 => Some(Int8Cint8)
       case CUInt8 => Some(Cuint8Cint8) case CInt8 => Some(Identity(CInt8))
       case UInt16 => Some(Int16Cint8) case Int16 => Some(Int16Cint8)
       case _ => None)
    case Int16 =>
      (match src
       case UInt8 => Some(Int8Int16) case Int8 => Some(Int8Int16)
       case UInt16 => Some(Identity(Int16)) case Int16 => Some(Identity(Int16))
       case _ => None)
    case CInt16 =>
      (match src
       case UInt8 => Some(Uint8Cint16) case Int8 => Some(Int8Cint16)
       case CUInt8 => Some(Cuint8Cint16) case CInt8 => Some(Cint8Cint16)
       case UInt16 => Some(Uint16Cint16) case Int16 => Some(Int16Cint16)
       case CUInt16 => Some(Identity(CInt16)) case CInt16 => Some(Identity(CInt16))
       case _ => None)
    case _ => None
  }

  /** Bytes per input element a helper reads. */
  function InSize(c: Cast): nat
  {
    match c
    case Identity(t) => TypeSize(t)
    case Int16Int8 => 2 case Uint8Cint8 => 1 case Int8Cint8 => 1 case Cuint8Cint8 => 2
    case Int16Cint8 => 2 case Cint16Cint8 => 4 case Int8Int16 => 1 case Uint8Cint16 => 1
    case Int8Cint16 => 1 case Cuint8Cint16 => 2 case Cint8Cint16 => 2 case Uint16Cint16 => 2
    case Int16Cint16 => 2
  }

  /** The element type a helper writes. */
  function OutType(c: Cast): SampleType
  {
    match c
    case Identity(t) => t
    case Int16Int8 => Int8
    case Uint8Cint8 => CInt8 case Int8Cint8 => CInt8 case Cuint8Cint8 => CInt8
    case Int16Cint8 => CInt8 case Cint16Cint8 => CInt8
    case Int8Int16 => Int16
    case _ => CInt16
  }

  /** Whether a helper reads complex elements. */
  predicate InComplex(c: Cast)
  {
    match c
    case Identity(t) => IsComplex(t)
    case Cuint8Cint8 => true case Cint16Cint8 => true
    case Cuint8Cint16 => true case Cint8Cint16 => true
    case _ => false
  }

  /** The cast chosen for a pair reads elements of the input type's size
    * and shape and writes elements of the output type: the buffer the node
    * allocates for `bufferSize` output elements holds the result of
    * `bufferSize` input elements. */
  lemma SelectedCastMatchesTypes(target: SampleType, src: SampleType)
    requires SelectCast(target, src).Some?
    ensures var c := SelectCast(target, src).value;
      InSize(c) == TypeSize(src) && OutType(c) == target
      && InComplex(c) == IsComplex(src)
  {
  }

  /** A cast exists exactly for the four integer output types and, for
    * each, the integer inputs listed in `config`. */
  lemma SelectCastDomain(target: SampleType, src: SampleType)
    ensures SelectCast(target, src).Some? ==>
      target in {Int8, CInt8, Int16, CInt16}
      && src in {UInt8, Int8, UInt16, Int16, CUInt8, CInt8, CUInt16, CInt16}
    ensures SelectCast(target, src).Some? && !IsComplex(target) ==> !IsComplex(src)
  {
  }

  /** Whether `x` has the shape the helper reads. */
  predicate ShapedFor(c: Cast, x: Sample)
  {
    x.Cplx? == InComplex(c)
  }

  /** What each helper writes for one input element. */
  function Convert(c: Cast, x: Sample): (r: Sample)
    requires ShapedFor(c, x)
  {
    match c
    case Identity(t) =>
      (match x
       case Real(v) => Real(if t == Int16 then S16(v) else S8(v))
       case Cplx(a, b) => if t == CInt16 then Cplx(S16(a), S16(b)) else Cplx(S8(a), S8(b)))
    case Int16Int8 => Real(ShiftRight(S16(x.v), 8))
    case Uint8Cint8 => Cplx(S8(U8(x.v) - 127), 0)
    case Int8Cint8 => Cplx(S8(x.v), 0)
    case Cuint8Cint8 => Cplx(S8(U8(x.re) - 127), S8(U8(x.im) - 127))
    case Int16Cint8 => Cplx(S8(ShiftRight(S16(x.v), 8)), 0)
    case Cint16Cint8 => Cplx(S8(ShiftRight(S16(x.re), 8)), S8(ShiftRight(S16(x.im), 8)))
    case Int8Int16 => Real(S16(S8(x.v) * 256))
    case Uint8Cint16 => Cplx(S16((U8(x.v) - 127) * 256), 0)
    case Int8Cint16 => Cplx(S16(S8(x.v) * 256), 0)
    case Cuint8Cint16 => Cplx(S16((U8(x.re) - 127) * 256), S16((U8(x.im) - 127) * 256))
    case Cint8Cint16 => Cplx(S16(S8(x.re) * 256), S16(S8(x.im) * 256))
    case Uint16Cint16 => Cplx(U16(x.v) - 32768, 0)
    case Int16Cint16 => Cplx(S16(x.v), 0)
  }

  /** A sample that is a valid value of `t`. */
  predicate Fits(t: SampleType, x: Sample)
  {
    match t
    case Int8 => x.Real? && InS8(x.v)
    case Int16 => x.Real? && InS16(x.v)
    case CInt8 => x.Cplx? && InS8(x.re) && InS8(x.im)
    case CInt16 => x.Cplx? && InS16(x.re) && InS16(x.im)
    case _ => true
  }

  /** Every selected helper writes a valid element of the output type. */
  lemma ConvertFits(target: SampleType, src: SampleType, x: Sample)
    requires SelectCast(target, src).Some? && ShapedFor(SelectCast(target, src).value, x)
    ensures Fits(target, Convert(SelectCast(target, src).value, x))
  {
    var c := SelectCast(target, src).value;
    match c
    case Int16Int8 =>
      ShiftRightRange(S16(x.v));
    case Int16Cint8 =>
      ShiftRightRange(S16(x.v));
    case _ =>
  }

  /** An arithmetic shift right by 8 maps the int16 range onto the int8
    * range, as the floor of the quotient. */
  lemma ShiftRightRange(x: int)
    requires InS16(x)
    ensures InS8(ShiftRight(x, 8))
    ensures ShiftRight(x, 8) * 256 <= x < ShiftRight(x, 8) * 256 + 256
  {
    assert Pow2(8) == 256 by {
      assert Pow2(4) == 16;
    }
  }

  /** Widening int8 to int16 (x·256) and narrowing back (x>>8) give the
    * sample back, for real and complex samples. */
  lemma WidenNarrowRoundTrip(x: Sample)
    requires x.Real? ==> InS8(x.v)
    requires x.Cplx? ==> InS8(x.re) && InS8(x.im)
    ensures x.Real? ==> Convert(Int16Int8, Convert(Int8Int16, x)) == x
    ensures x.Cplx? ==> Convert(Cint16Cint8, Convert(Cint8Cint16, x)) == x
  {
    assert Pow2(8) == 256 by {
      assert Pow2(4) == 16;
    }
  }

  /** The unsigned-to-complex helpers centre on 127, so the largest input,
    * 255, is 128 after the shift and does not fit: it wraps to the most
    * negative value. Every other input keeps its order. */
  lemma UnsignedCentreWraps()
    ensures Convert(Uint8Cint8, Real(255)) == Cplx(-128, 0)
    ensures Convert(Uint8Cint8, Real(254)) == Cplx(127, 0)
    ensures Convert(Uint8Cint16, Real(255)) == Cplx(-32768, 0)
    ensures forall a, b :: 0 <= a < b < 255 ==>
      Convert(Uint8Cint8, Real(a)).re < Convert(Uint8Cint8, Real(b)).re
  {
  }

  /** `_uint16_cint16` moves the unsigned range onto the signed range: it
    * subtracts 32768 and keeps the order. */
  lemma Uint16OffsetIsOrderPreserving(a: int, b: int)
    requires InU16(a) && InU16(b)
    ensures InS16(Convert(Uint16Cint16, Real(a)).re)
    ensures a < b ==> Convert(Uint16Cint16, Real(a)).re < Convert(Uint16Cint16, Real(b)).re
    ensures Convert(Uint16Cint16, Real(a)).re + 32768 == a
  {
  }

  /** The helper loop: element i of the output buffer is the conversion of
    * input element i; the helper returns the bytes it wrote. */
  method RunCast(c: Cast, input: seq<Sample>, out: array<Sample>) returns (bytes: nat)
    requires |input| <= out.Length
    requires forall i :: 0 <= i < |input| ==> ShapedFor(c, input[i])
    modifies out
    ensures forall i :: 0 <= i < |input| ==> out[i] == Convert(c, input[i])
    ensures out[|input|..] == old(out[|input|..])
    ensures bytes == |input| * TypeSize(OutType(c))
  {
    var i := 0;
    while i < |input|
      invariant 0 <= i <= |input|
      invariant forall k :: 0 <= k < i ==> out[k] == Convert(c, input[k])
      invariant out[|input|..] == old(out[|input|..])
    {
      out[i] := Convert(c, input[i]);
      i := i + 1;
    }
    bytes := |input| * TypeSize(OutType(c));
  }

  /** A buffer the node sends: its elements, its byte length and the
    * overwrite flag it is sent with. */
  datatype Sent = Sent(samples: seq<Sample>, bytes: nat, allowOverwrite: bool)

  class AutoCast {
    /** The output type, `Traits<Scalar>::scalarId`. */
    const target: SampleType
    /** `_cast`; `None` is the null function pointer. */
    var cast: Option<Cast>
    /** `_buffer`, the output buffer. */
    var buffer: array<Sample>

    constructor (target: SampleType)
      ensures this.target == target && cast == None && buffer.Length == 0
    {
      this.target := target;
      cast := None;
      buffer := new Sample[0](_ => Real(0));
    }

    /** `config` as written: ignored without type, rate or buffer size; a
      * supported pair selects its helper, any other pair leaves the
      * previously selected helper in place, and only when there is none is
      * it a `ConfigError`. On success the output buffer holds `bufferSize`
      * elements and the node publishes the output type with one buffer. */
    method Configure(c: Config) returns (r: Result<Option<Config>>)
      modifies this`cast, this`buffer
      ensures !c.HasType() || !c.HasSampleRate() || !c.HasBufferSize() ==>
        r == Ok(None) && cast == old(cast) && buffer == old(buffer)
      ensures c.HasType() && c.HasSampleRate() && c.HasBufferSize() ==>
        cast == (if SelectCast(target, c.sampleType).Some? then SelectCast(target, c.sampleType) else old(cast))
        && (cast == None ==> r == Err(ConfigError) && buffer == old(buffer))
        && (cast != None ==> r == Ok(Some(Config(target, c.sampleRate, c.bufferSize, 1)))
                             && fresh(buffer) && buffer.Length == c.bufferSize)
    {
      if c.sampleType == Undefined || c.sampleRate == 0.0 || c.bufferSize == 0 {
        return Ok(None);
      }
      var sel := SelectCast(target, c.sampleType);
      if sel.Some? {
        cast := sel;
      }
      if cast == None {
        return Err(ConfigError);
      }
      buffer := new Sample[c.bufferSize](_ => Real(0));
      r := Ok(Some(Config(target, c.sampleRate, c.bufferSize, 1)));
    }

    /** `config` with the selection made afresh on every complete
      * configuration: a pair without a helper is always a `ConfigError`. */
    method ConfigureFresh(c: Config) returns (r: Result<Option<Config>>)
      modifies this`cast, this`buffer
      ensures !c.HasType() || !c.HasSampleRate() || !c.HasBufferSize() ==>
        r == Ok(None) && cast == old(cast) && buffer == old(buffer)
      ensures c.HasType() && c.HasSampleRate() && c.HasBufferSize() ==>
        cast == SelectCast(target, c.sampleType)
        && (cast == None ==> r == Err(ConfigError) && buffer == old(buffer))
        && (cast != None ==> r == Ok(Some(Config(target, c.sampleRate, c.bufferSize, 1)))
                             && fresh(buffer) && buffer.Length == c.bufferSize)
    {
      if c.sampleType == Undefined || c.sampleRate == 0.0 || c.bufferSize == 0 {
        return Ok(None);
      }
      cast := SelectCast(target, c.sampleType);
      if cast == None {
        return Err(ConfigError);
      }
      buffer := new Sample[c.bufferSize](_ => Real(0));
      r := Ok(Some(Config(target, c.sampleRate, c.bufferSize, 1)));
    }

    /** `handleBuffer` as written: nothing without a helper; with the
      * identity helper the input is forwarded and then, because the branch
      * does not return, copied and sent a second time; any other helper
      * converts into the output buffer and sends the bytes written. */
    method HandleBufferAsWritten(input: seq<Sample>, allow: bool) returns (sent: seq<Sent>)
      requires cast.Some? ==> |input| <= buffer.Length
      requires cast.Some? ==> forall i :: 0 <= i < |input| ==> ShapedFor(cast.value, input[i])
      modifies buffer
      ensures cast == None ==> sent == []
      ensures cast.Some? && cast.value.Identity? ==>
        |sent| == 2 && sent[0] == Sent(input, |input| * InSize(cast.value), allow)
        && sent[1].allowOverwrite
      ensures cast.Some? && !cast.value.Identity? ==> |sent| == 1 && sent[0].allowOverwrite
      ensures cast.Some? ==>
        var last := sent[|sent| - 1];
        |last.samples| == |input| && last.bytes == |input| * TypeSize(OutType(cast.value))
        && forall i :: 0 <= i < |input| ==> last.samples[i] == Convert(cast.value, input[i])
    {
      if cast == None {
        return [];
      }
      sent := [];
      if cast.value.Identity? {
        sent := [Sent(input, |input| * InSize(cast.value), allow)];
      }
      var bytes := RunCast(cast.value, input, buffer);
      sent := sent + [Sent(buffer[..|input|], bytes, true)];
    }

    /** `handleBuffer` with the identity branch returning after the
      * forward: every input is sent exactly once. */
    method HandleBuffer(input: seq<Sample>, allow: bool) returns (sent: seq<Sent>)
      requires cast.Some? ==> |input| <= buffer.Length
      requires cast.Some? ==> forall i :: 0 <= i < |input| ==> ShapedFor(cast.value, input[i])
      modifies buffer
      ensures cast == None ==> sent == []
      ensures cast.Some? ==> |sent| == 1
      ensures cast.Some? && cast.value.Identity? ==>
        sent[0] == Sent(input, |input| * InSize(cast.value), allow)
      ensures cast.Some? && !cast.value.Identity? ==>
        sent[0].allowOverwrite && |sent[0].samples| == |input|
        && sent[0].bytes == |input| * TypeSize(OutType(cast.value))
        && forall i :: 0 <= i < |input| ==> sent[0].samples[i] == Convert(cast.value, input[i])
    {
      if cast == None {
        return [];
      }
      if cast.value.Identity? {
        return [Sent(input, |input| * InSize(cast.value), allow)];
      }
      var bytes := RunCast(cast.value, input, buffer);
      sent := [Sent(buffer[..|input|], bytes, true)];
    }
  }

  /** An int8 node fed by an int8 source: as written, one input buffer is
    * sent twice. */
  method IdentityScenario() returns (asWritten: nat, corrected: nat)
    ensures asWritten == 2 && corrected == 1
  {
    var a := new AutoCast(Int8);
    var ra := a.Configure(Config(Int8, 1.0, 4, 1));
    var s := a.HandleBufferAsWritten([Real(1), Real(-2)], false);
    asWritten := |s|;
    var b := new AutoCast(Int8);
    var rb := b.Configure(Config(Int8, 1.0, 4, 1));
    var t := b.HandleBuffer([Real(1), Real(-2)], false);
    corrected := |t|;
  }

  /** An int16 node configured for uint8 input and then for float input:
    * as written the second configuration succeeds with the uint8 helper
    * still selected; selected afresh it is a `ConfigError`. */
  method StaleCastScenario() returns (asWritten: Result<Option<Config>>, fresh_: Result<Option<Config>>)
    ensures asWritten.Ok? && fresh_ == Err(ConfigError)
  {
    var a := new AutoCast(Int16);
    var r := a.Configure(Config(UInt8, 1.0, 4, 1));
    asWritten := a.Configure(Config(Float32, 1.0, 4, 1));
    var b := new AutoCast(Int16);
    r := b.ConfigureFresh(Config(UInt8, 1.0, 4, 1));
    fresh_ := b.ConfigureFresh(Config(Float32, 1.0, 4, 1));
  }
}
