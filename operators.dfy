/** The integer `mul2`/`div2` overloads of operators.hh (multiplication and
  * division by 2^n through shifts) and the shifts of `complex<int32_t>`.
  *
  * The operand is promoted to `int`, shifted, and the result is converted
  * back to the operand's type, which wraps it to that width. A right shift
  * of a negative value is the arithmetic shift (the floor of the quotient).
  * A shift by 32 or more is undefined in C++; those counts are excluded. */
module Operators {
  import opened Common

  /** The integer element types the overloads exist for. */
  datatype IntType = Unsigned8 | Signed8 | Unsigned16 | Signed16

  predicate InType(t: IntType, x: int)
  {
    match t
    case Unsigned8 => InU8(x)
    case Signed8 => InS8(x)
    case Unsigned16 => InU16(x)
    case Signed16 => InS16(x)
  }

  /** The conversion of an `int` back to the element type. */
  function Narrow(t: IntType, x: int): (r: int)
    ensures InType(t, r) && (InType(t, x) ==> r == x)
  {
    match t
    case Unsigned8 => U8(x)
    case Signed8 => S8(x)
    case Unsigned16 => U16(x)
    case Signed16 => S16(x)
  }

  /** A shift count the C++ shift operators define. */
  predicate ValidCount(n: int) { -32 < n < 32 }

  /** Scalar `mul2`: `a << n` for n >= 0, `a >> -n` for n < 0, converted
    * to the element type. */
  function Mul2(t: IntType, a: int, n: int): int
    requires InType(t, a) && ValidCount(n)
  {
    Narrow(t, if n < 0 then ShiftRight(a, -n) else ShiftLeft(a, n))
  }

  /** `div2` on `uint8_t`: `a << -n` for n < 0, `a >> n` otherwise. */
  function Div2U8(a: int, n: int): int
    requires InU8(a) && ValidCount(n)
  {
    U8(if n < 0 then ShiftLeft(a, -n) else ShiftRight(a, n))
  }

  /** Dividing by 2^n is multiplying by 2^-n. */
  lemma Div2IsMul2ByNegated(a: int, n: int)
    requires InU8(a) && ValidCount(n)
    ensures Div2U8(a, n) == Mul2(Unsigned8, a, -n)
  {
  }

  lemma MulDivCancel(a: int, p: int)
    requires p > 0
    ensures (a * p) / p == a
  {
    var q := (a * p) / p;
    var r := (a * p) % p;
    assert (q - a) * p == -r;
    if q > a {
      MulMono(1, q - a, p);
    } else if q < a {
      MulMono(1, a - q, p);
    }
  }

  /** A left shift whose result fits the type is undone by the right shift
    * of the same count: `mul2(mul2(a, n), -n) == a`. */
  lemma Mul2RoundTrip(t: IntType, a: int, n: int)
    requires InType(t, a) && 0 <= n < 32 && InType(t, a * Pow2(n))
    ensures Mul2(t, a, n) == a * Pow2(n)
    ensures Mul2(t, Mul2(t, a, n), -n) == a
  {
    MulDivCancel(a, Pow2(n));
  }

  /** The floor of a / p lies between 0 and a. */
  lemma QuotientTowardZero(a: int, p: int)
    requires p >= 1
    ensures (a / p) * p <= a < (a / p) * p + p
    ensures a >= 0 ==> 0 <= a / p <= a
    ensures a < 0 ==> a <= a / p < 0
  {
    var q := a / p;
    assert q * p <= a < q * p + p;
    if a >= 0 {
      MulMono(1, p, q);
    } else {
      MulMono(1, p, -q - 1);
    }
  }

  /** A right shift is the floor of the quotient by 2^k; it never leaves
    * the type, so no wrap happens. */
  lemma Mul2RightIsFloor(t: IntType, a: int, k: int)
    requires InType(t, a) && 0 < k < 32
    ensures Mul2(t, a, -k) == a / Pow2(k)
    ensures Mul2(t, a, -k) * Pow2(k) <= a < Mul2(t, a, -k) * Pow2(k) + Pow2(k)
  {
    var q := a / Pow2(k);
    QuotientTowardZero(a, Pow2(k));
    assert ShiftRight(a, k) == q;
    assert InType(t, q);
    assert Narrow(t, q) == q;
  }

  /** A left shift keeps only the low bits of the type: for the unsigned
    * types the result is `a · 2^n` modulo 2^8 or 2^16. */
  lemma Mul2LeftWraps()
    ensures Mul2(Unsigned8, 0x81, 1) == 2
    ensures Mul2(Signed8, 0x40, 1) == -128
    ensures Mul2(Unsigned16, 0x8001, 1) == 2
    ensures Mul2(Signed16, -1, 15) == -32768
  {
    assert Pow2(1) == 2;
    assert Pow2(15) == 0x8000 by {
      assert Pow2(4) == 16;
      assert Pow2(8) == 256;
    }
  }

  datatype Complex = Complex(re: int, im: int)

  predicate InTypeC(t: IntType, z: Complex) { InType(t, z.re) && InType(t, z.im) }

  /** Complex `mul2`, both parts shifted in the direction of the sign of
    * `n`, as `complex<uint8_t>` does it and the other complex overloads
    * evidently intend. */
  function Mul2C(t: IntType, z: Complex, n: int): (r: Complex)
    requires InTypeC(t, z) && ValidCount(n)
    ensures InTypeC(t, r)
  {
    Complex(Mul2(t, z.re, n), Mul2(t, z.im, n))
  }

  /** `div2` on `complex<uint8_t>`. */
  function Div2C8(z: Complex, n: int): Complex
    requires InTypeC(Unsigned8, z) && ValidCount(n)
  {
    Complex(Div2U8(z.re, n), Div2U8(z.im, n))
  }

  /** Complex `div2` by 2^n is complex `mul2` by 2^-n. */
  lemma Div2CIsMul2CByNegated(z: Complex, n: int)
    requires InTypeC(Unsigned8, z) && ValidCount(n)
    ensures Div2C8(z, n) == Mul2C(Unsigned8, z, -n)
  {
    Div2IsMul2ByNegated(z.re, n);
    Div2IsMul2ByNegated(z.im, n);
  }

  /** `mul2` on `complex<int8_t>`, `complex<uint16_t>` and
    * `complex<int16_t>` as written: both branches shift right by `-n`. For
    * n > 0 that is a shift by a negative count, which C++ leaves undefined
    * (`None`). */
  function Mul2CAsWritten(t: IntType, z: Complex, n: int): (r: Option<Complex>)
    requires InTypeC(t, z) && ValidCount(n)
  {
    if -n < 0 then None
    else Some(Complex(Narrow(t, ShiftRight(z.re, -n)), Narrow(t, ShiftRight(z.im, -n))))
  }

  /** As written the overloads agree with the intended shift exactly when
    * n <= 0, and are undefined for every multiplication proper (n > 0). */
  lemma Mul2CAsWrittenDiffers(t: IntType, z: Complex, n: int)
    requires t != Unsigned8 && InTypeC(t, z) && ValidCount(n)
    ensures n <= 0 ==> Mul2CAsWritten(t, z, n) == Some(Mul2C(t, z, n))
    ensures n > 0 <==> Mul2CAsWritten(t, z, n) == None
  {
  }

  /** The input that shows it: doubling (1, 1) should give (2, 2). */
  lemma Mul2CDoubling()
    ensures Mul2C(Signed16, Complex(1, 1), 1) == Complex(2, 2)
    ensures Mul2CAsWritten(Signed16, Complex(1, 1), 1) == None
  {
    assert Pow2(1) == 2;
  }

  /** `complex<int32_t> << b`: both parts shifted left, wrapping at 32 bits. */
  function ShlC32(z: Complex, b: nat): (r: Complex)
    requires InS32(z.re) && InS32(z.im) && b < 32
    ensures InS32(r.re) && InS32(r.im)
  {
    Complex(S32(ShiftLeft(z.re, b)), S32(ShiftLeft(z.im, b)))
  }

  /** `complex<int32_t> >> b`: both parts shifted right. */
  function ShrC32(z: Complex, b: nat): (r: Complex)
    requires InS32(z.re) && InS32(z.im) && b < 32
  {
    Complex(ShiftRight(z.re, b), ShiftRight(z.im, b))
  }

  /** The parts are shifted independently: each part of the result depends
    * only on the same part of the operand, and a left shift that does not
    * overflow is undone by the right shift. */
  lemma ShiftC32Independent(z: Complex, w: Complex, b: nat)
    requires InS32(z.re) && InS32(z.im) && InS32(w.re) && InS32(w.im) && b < 32
    ensures z.re == w.re ==> ShlC32(z, b).re == ShlC32(w, b).re && ShrC32(z, b).re == ShrC32(w, b).re
    ensures z.im == w.im ==> ShlC32(z, b).im == ShlC32(w, b).im && ShrC32(z, b).im == ShrC32(w, b).im
    ensures InS32(z.re * Pow2(b)) && InS32(z.im * Pow2(b)) ==> ShrC32(ShlC32(z, b), b) == z
  {
    if InS32(z.re * Pow2(b)) && InS32(z.im * Pow2(b)) {
      MulDivCancel(z.re, Pow2(b));
      MulDivCancel(z.im, Pow2(b));
    }
  }
}
