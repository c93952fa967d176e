/** The configuration record every source passes to its sinks (node.hh,
  * node.cc): sample type, sample rate, maximum buffer size and number of
  * buffers. `Config` has value semantics in the library (it is copied on
  * every call), so it is a datatype here and its setters return the updated
  * value. */
module NodeConfig {

  /** The sample type tags, in declaration order (tag 0 is "undefined"). */
  datatype SampleType =
    | Undefined
    | UInt8 | Int8 | UInt16 | Int16 | Float32 | Float64
    | CUInt8 | CInt8 | CUInt16 | CInt16 | CFloat32 | CFloat64

  /** The scalar types a typed buffer or node can be instantiated with. */
  datatype Scalar =
    | ScalarUInt8 | ScalarInt8 | ScalarUInt16 | ScalarInt16 | ScalarFloat | ScalarDouble
    | ComplexUInt8 | ComplexInt8 | ComplexUInt16 | ComplexInt16 | ComplexFloat | ComplexDouble

  datatype Config = Config(sampleType: SampleType, sampleRate: real, bufferSize: nat, numBuffers: nat)
  {
    predicate HasType() { sampleType != Undefined }
    predicate HasSampleRate() { sampleRate != 0.0 }
    predicate HasBufferSize() { bufferSize != 0 }
    predicate HasNumBuffers() { numBuffers != 0 }

    function WithType(t: SampleType): Config { this.(sampleType := t) }
    function WithSampleRate(r: real): Config { this.(sampleRate := r) }
    function WithBufferSize(n: nat): Config { this.(bufferSize := n) }
    function WithNumBuffers(n: nat): Config { this.(numBuffers := n) }
  }

  /** The empty constructor: no type, zero rate, zero sizes. */
  function DefaultConfig(): (c: Config)
    ensures !c.HasType() && !c.HasSampleRate() && !c.HasBufferSize() && !c.HasNumBuffers()
  {
    Config(Undefined, 0.0, 0, 0)
  }

  /** `Config::operator==`: field by field comparison. */
  function ConfigEquals(a: Config, b: Config): (r: bool)
    ensures r <==> a == b
  {
    a.sampleType == b.sampleType && a.sampleRate == b.sampleRate
    && a.bufferSize == b.bufferSize && a.numBuffers == b.numBuffers
  }

  /** The four queries are independent: each setter decides its own
    * query, which holds exactly when the value set is not the unset one,
    * and leaves the answers of the other three as they were. */
  lemma SettersAnswerOwnQuery(c: Config, t: SampleType, r: real, n: nat)
    ensures var d := c.WithType(t);
      (d.HasType() <==> t != Undefined) && d.HasSampleRate() == c.HasSampleRate()
      && d.HasBufferSize() == c.HasBufferSize() && d.HasNumBuffers() == c.HasNumBuffers()
    ensures var d := c.WithSampleRate(r);
      (d.HasSampleRate() <==> r != 0.0) && d.HasType() == c.HasType()
      && d.HasBufferSize() == c.HasBufferSize() && d.HasNumBuffers() == c.HasNumBuffers()
    ensures var d := c.WithBufferSize(n);
      (d.HasBufferSize() <==> n != 0) && d.HasType() == c.HasType()
      && d.HasSampleRate() == c.HasSampleRate() && d.HasNumBuffers() == c.HasNumBuffers()
    ensures var d := c.WithNumBuffers(n);
      (d.HasNumBuffers() <==> n != 0) && d.HasType() == c.HasType()
      && d.HasSampleRate() == c.HasSampleRate() && d.HasBufferSize() == c.HasBufferSize()
  {
  }

  /** Every setter changes its own field only. */
  lemma SettersChangeOneField(c: Config, t: SampleType, r: real, n: nat)
    ensures c.WithType(t) == Config(t, c.sampleRate, c.bufferSize, c.numBuffers)
    ensures c.WithSampleRate(r) == Config(c.sampleType, r, c.bufferSize, c.numBuffers)
    ensures c.WithBufferSize(n) == Config(c.sampleType, c.sampleRate, n, c.numBuffers)
    ensures c.WithNumBuffers(n) == Config(c.sampleType, c.sampleRate, c.bufferSize, n)
  {
  }

  /** `Config::typeId<T>()`. */
  function TypeId(s: Scalar): (t: SampleType)
    ensures t != Undefined
  {
    match s
    case ScalarUInt8 => UInt8
    case ScalarInt8 => Int8
    case ScalarUInt16 => UInt16
    case ScalarInt16 => Int16
    case ScalarFloat => Float32
    case ScalarDouble => Float64
    case ComplexUInt8 => CUInt8
    case ComplexInt8 => CInt8
    case ComplexUInt16 => CUInt16
    case ComplexInt16 => CInt16
    case ComplexFloat => CFloat32
    case ComplexDouble => CFloat64
  }

  /** `sizeof(T)` of each scalar type, in bytes. */
  function SizeOf(s: Scalar): (n: nat)
    ensures 1 <= n <= 16
  {
    match s
    case ScalarUInt8 => 1
    case ScalarInt8 => 1
    case ScalarUInt16 => 2
    case ScalarInt16 => 2
    case ScalarFloat => 4
    case ScalarDouble => 8
    case ComplexUInt8 => 2
    case ComplexInt8 => 2
    case ComplexUInt16 => 4
    case ComplexInt16 => 4
    case ComplexFloat => 8
    case ComplexDouble => 16
  }

  /** Different scalar types never share a tag, and every defined tag is
    * the tag of some scalar type. */
  lemma TypeIdIsBijective(s1: Scalar, s2: Scalar, t: SampleType)
    ensures TypeId(s1) == TypeId(s2) ==> s1 == s2
    ensures t != Undefined ==> exists s :: TypeId(s) == t
  {
    if t != Undefined {
      var s := match t
        case UInt8 => ScalarUInt8 case Int8 => ScalarInt8
        case UInt16 => ScalarUInt16 case Int16 => ScalarInt16
        case Float32 => ScalarFloat case Float64 => ScalarDouble
        case CUInt8 => ComplexUInt8 case CInt8 => ComplexInt8
        case CUInt16 => ComplexUInt16 case CInt16 => ComplexInt16
        case CFloat32 => ComplexFloat case CFloat64 => ComplexDouble;
      assert TypeId(s) == t;
    }
  }

  /** `typeName`: the printable name of a type tag. */
  function TypeName(t: SampleType): string
  {
    match t
    case Undefined => "UNDEFINED"
    case UInt8 => "uint8"
    case Int8 => "int8"
    case UInt16 => "uint16"
    case Int16 => "int16"
    case Float32 => "float"
    case Float64 => "double"
    case CUInt8 => "complex uint8"
    case CInt8 => "complex int8"
    case CUInt16 => "complex uint16"
    case CInt16 => "complex int16"
    case CFloat32 => "complex float"
    case CFloat64 => "complex double"
  }

  /** The thirteen tags have thirteen different names. */
  lemma TypeNamesDistinct(t1: SampleType, t2: SampleType)
    ensures TypeName(t1) == TypeName(t2) ==> t1 == t2
  {
  }

  /** True for the complex (I/Q) sample types. */
  predicate IsComplex(t: SampleType)
  {
    t.CUInt8? || t.CInt8? || t.CUInt16? || t.CInt16? || t.CFloat32? || t.CFloat64?
  }

  /** The size in bytes of one sample of a tagged type (0 for undefined). */
  function TypeSize(t: SampleType): nat
  {
    match t
    case Undefined => 0
    case UInt8 => 1 case Int8 => 1 case UInt16 => 2 case Int16 => 2
    case Float32 => 4 case Float64 => 8
    case CUInt8 => 2 case CInt8 => 2 case CUInt16 => 4 case CInt16 => 4
    case CFloat32 => 8 case CFloat64 => 16
  }

  /** The element type T of `std::complex<T>`; a real type is its own. */
  function RealScalar(s: Scalar): Scalar
  {
    match s
    case ComplexUInt8 => ScalarUInt8
    case ComplexInt8 => ScalarInt8
    case ComplexUInt16 => ScalarUInt16
    case ComplexInt16 => ScalarInt16
    case ComplexFloat => ScalarFloat
    case ComplexDouble => ScalarDouble
    case _ => s
  }

  /** The tag of a scalar type describes samples of that type's size; the
    * tag is complex exactly for the `std::complex<T>` types, and then
    * describes samples of twice the size of T, with T's tag real. */
  lemma TypeSizeMatchesSizeOf(s: Scalar)
    ensures TypeSize(TypeId(s)) == SizeOf(s)
    ensures IsComplex(TypeId(s)) <==> RealScalar(s) != s
    ensures IsComplex(TypeId(s)) ==> TypeSize(TypeId(s)) == 2 * SizeOf(RealScalar(s))
                                     && !IsComplex(TypeId(RealScalar(s)))
  {
  }
}
