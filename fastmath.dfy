/** The integer `fast_atan2` approximations of math.hh. The angle is scaled
  * so that a quarter turn is 2^13 and a half turn 2^14; intermediate values
  * are `int32_t`, division truncates toward zero and the result is returned
  * as `int16_t`. */
module FastMath {
  import opened Common

  /** `pi4`, an eighth of a turn. */
  const Pi4: int := 0x1000
  /** `pi34`, three eighths of a turn. */
  const Pi34: int := 3 * 0x1000

  /** `angle`, from |a| and b, shared by the int8 and int16 versions. */
  function Angle(aabs: int, b: int): int
    requires aabs >= 0 && !(aabs == 0 && b == 0)
  {
    if b >= 0 then Pi4 - TruncDiv(Pi4 * (b - aabs), b + aabs)
    else Pi34 - TruncDiv(Pi4 * (b + aabs), aabs - b)
  }

  /** `fast_atan2<int8_t, int16_t>`. */
  function FastAtan2S8(a: int, b: int): int
    requires InS8(a) && InS8(b)
  {
    if a == 0 && b == 0 then 0
    else
      var angle := Angle(if a >= 0 then a else -a, b);
      S16(if a >= 0 then angle else -angle)
  }

  /** `fast_atan2<uint8_t, int16_t>`: both inputs are moved to the signed
    * range by subtracting 128 and handed to the int8 version. */
  function FastAtan2U8(ua: int, ub: int): int
    requires InU8(ua) && InU8(ub)
  {
    FastAtan2S8(S8(ua - 128), S8(ub - 128))
  }

  /** `fast_atan2<int16_t, int16_t>`. */
  function FastAtan2S16(a: int, b: int): int
    requires InS16(a) && InS16(b)
  {
    if a == 0 && b == 0 then 0
    else
      var angle := Angle(if a >= 0 then a else -a, b);
      S16(if a >= 0 then angle else -angle)
  }

  /** A quotient `pi4·x / d` with |x| <= d lies within one eighth of a
    * turn of zero. */
  lemma EighthBound(x: int, d: int)
    requires d > 0 && Abs(x) <= d
    ensures -Pi4 <= TruncDiv(Pi4 * x, d) <= Pi4
  {
    assert Abs(Pi4 * x) == Abs(x) * Pi4;
    MulMono(Abs(x), d, Pi4);
    assert Abs(x) * Pi4 < (Pi4 + 1) * d;
    DivBelow(Abs(x) * Pi4, d, Pi4);
  }

  /** The angle before the sign is applied: in [0, 2^13] on the right
    * half-plane and in [2^13, 2^14] on the left one. */
  lemma AngleRange(aabs: int, b: int)
    requires aabs >= 0 && !(aabs == 0 && b == 0)
    ensures b >= 0 ==> 0 <= Angle(aabs, b) <= 2 * Pi4
    ensures b < 0 ==> 2 * Pi4 <= Angle(aabs, b) <= 4 * Pi4
  {
    if b >= 0 {
      EighthBound(b - aabs, b + aabs);
    } else {
      EighthBound(b + aabs, aabs - b);
    }
  }

  /** `fast_atan2(0, 0)` is 0; the result has the sign of `a`; its magnitude
    * is at most a quarter turn (2^13) when b >= 0 and between a quarter
    * and a half turn (2^14) when b < 0. The result fits `int16_t`, so the
    * final conversion never wraps. */
  lemma Atan2Range(a: int, b: int)
    requires InS16(a) && InS16(b)
    ensures a == 0 && b == 0 ==> FastAtan2S16(a, b) == 0
    ensures a >= 0 ==> FastAtan2S16(a, b) >= 0
    ensures a < 0 ==> FastAtan2S16(a, b) <= 0
    ensures b >= 0 ==> Abs(FastAtan2S16(a, b)) <= 0x2000
    ensures b < 0 ==> 0x2000 <= Abs(FastAtan2S16(a, b)) <= 0x4000
  {
    if !(a == 0 && b == 0) {
      AngleRange(Abs(a), b);
    }
  }

  /** Neither divisor is zero unless both inputs are, and every
    * intermediate value fits `int32_t`. */
  lemma NoDivisionByZeroOrOverflow(a: int, b: int)
    requires InS16(a) && InS16(b) && !(a == 0 && b == 0)
    ensures b >= 0 ==> b + Abs(a) != 0
    ensures b < 0 ==> Abs(a) - b != 0
    ensures -0x8000_0000 <= Pi4 * (b - Abs(a)) < 0x8000_0000
    ensures -0x8000_0000 <= Pi4 * (b + Abs(a)) < 0x8000_0000
  {
  }

  /** The int8 and int16 versions compute the same function on int8
    * inputs. */
  lemma S8AgreesWithS16(a: int, b: int)
    requires InS8(a) && InS8(b)
    ensures FastAtan2S8(a, b) == FastAtan2S16(a, b)
  {
  }

  /** The uint8 version is the int8 version centred on 128: the
    * conversion to `int8_t` never wraps, and (128, 128) is the origin. */
  lemma U8IsCentred(ua: int, ub: int)
    requires InU8(ua) && InU8(ub)
    ensures FastAtan2U8(ua, ub) == FastAtan2S16(ua - 128, ub - 128)
    ensures ua == 128 && ub == 128 ==> FastAtan2U8(ua, ub) == 0
  {
    S8AgreesWithS16(ua - 128, ub - 128);
  }

  /** The axes and diagonals land on the multiples of an eighth of a turn.
    * The negative b axis is +2^14 only: it is not the negation of itself,
    * so the angle is not odd in `a` there. */
  lemma Landmarks(x: int)
    requires 0 < x < 0x8000
    ensures FastAtan2S16(0, x) == 0
    ensures FastAtan2S16(x, x) == Pi4
    ensures FastAtan2S16(x, 0) == 2 * Pi4
    ensures FastAtan2S16(x, -x) == 3 * Pi4
    ensures FastAtan2S16(0, -x) == 4 * Pi4
    ensures FastAtan2S16(-x, x) == -Pi4
    ensures FastAtan2S16(0, -x) != -FastAtan2S16(0, -x)
  {
    assert TruncDiv(Pi4 * (x - x), x + x) == 0;
    assert TruncDiv(Pi4 * (0 - x), 0 + x) == -Pi4;
    assert TruncDiv(Pi4 * (x - 0), x + 0) == Pi4;
    assert TruncDiv(Pi4 * (-x + 0), 0 - -x) == -Pi4;
  }

  /** Negating a non-zero `a` negates the angle. On the negative b axis
    * (a = 0) the result is +2^14, not its negation. */
  lemma OddInA(a: int, b: int)
    requires InS16(a) && InS16(-a) && InS16(b) && a != 0
    ensures FastAtan2S16(-a, b) == -FastAtan2S16(a, b)
  {
    AngleRange(Abs(a), b);
  }
}
