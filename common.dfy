/** Shared vocabulary of the model: error results, optional values and the
  * fixed-width integer arithmetic of C++ (wrap-around conversions, shifts and
  * division that truncates toward zero). */
module Common {

  datatype Option<T> = None | Some(value: T)

  /** The two exception classes of the library (exception.hh). */
  datatype Error = ConfigError | RuntimeError

  datatype Result<T> = Ok(value: T) | Err(error: Error)
  {
    predicate IsOk() { Ok? }
  }

  /** The bit `buffer[i] & 0x01` of each byte of a bit-stream buffer. */
  function LowBits(xs: seq<bv8>): (r: seq<bool>)
    ensures |r| == |xs| && forall i :: 0 <= i < |xs| ==> r[i] == (xs[i] & 1 == 1)
  {
    seq(|xs|, i requires 0 <= i < |xs| => xs[i] & 1 == 1)
  }

  function Min(a: int, b: int): int { if a <= b then a else b }
  function Max(a: int, b: int): int { if a >= b then a else b }

  function Pow2(k: nat): (r: nat)
    ensures r >= 1
  {
    if k == 0 then 1 else 2 * Pow2(k - 1)
  }

  /** Conversions to the fixed-width integer types: reduction modulo 2^w,
    * and for the signed types two's complement. */
  function U8(x: int): (r: int) ensures 0 <= r < 256 && (0 <= x < 256 ==> r == x) { x % 256 }
  function U16(x: int): (r: int) ensures 0 <= r < 65536 && (0 <= x < 65536 ==> r == x) { x % 65536 }
  function U32(x: int): (r: int)
    ensures 0 <= r < 0x1_0000_0000 && (0 <= x < 0x1_0000_0000 ==> r == x)
  { x % 0x1_0000_0000 }
  function S8(x: int): (r: int)
    ensures -128 <= r < 128 && (-128 <= x < 128 ==> r == x)
  { var u := x % 256; if u < 128 then u else u - 256 }
  function S16(x: int): (r: int)
    ensures -32768 <= r < 32768 && (-32768 <= x < 32768 ==> r == x)
  { var u := x % 65536; if u < 32768 then u else u - 65536 }

  function S32(x: int): (r: int)
    ensures -0x8000_0000 <= r < 0x8000_0000 && (-0x8000_0000 <= x < 0x8000_0000 ==> r == x)
  { var u := x % 0x1_0000_0000; if u < 0x8000_0000 then u else u - 0x1_0000_0000 }

  predicate InU8(x: int) { 0 <= x < 256 }
  predicate InS8(x: int) { -128 <= x < 128 }
  predicate InU16(x: int) { 0 <= x < 65536 }
  predicate InS16(x: int) { -32768 <= x < 32768 }
  predicate InS32(x: int) { -0x8000_0000 <= x < 0x8000_0000 }

  /** C and C++ integer division: the quotient is truncated toward zero. */
  function TruncDiv(a: int, b: int): (q: int)
    requires b != 0
    ensures Abs(q) == Abs(a) / Abs(b)
  {
    var q := Abs(a) / Abs(b);
    if (a >= 0) == (b > 0) then q else -q
  }

  function Abs(x: int): nat { if x >= 0 then x else -x }

  /** The right shift of a signed value as the compilers the library targets
    * implement it (arithmetic shift): the floor of x / 2^k. */
  function ShiftRight(x: int, k: nat): int
  {
    x / Pow2(k)
  }

  /** Left shift of a value (before any truncation to the result type). */
  function ShiftLeft(x: int, k: nat): int { x * Pow2(k) }

  // Facts about multiplication and division by a positive number that the
  // solver does not find unaided; several modules share them.

  /** The prefix of length i + 1 is the prefix of length i and s[i]. */
  lemma TakeSucc<T>(s: seq<T>, i: nat)
    requires i < |s|
    ensures s[..i + 1] == s[..i] + [s[i]] && s[..i + 1][..i] == s[..i]
  {
  }

  /** s + t with the last element of a non-empty t split off. */
  lemma SplitLast<T>(s: seq<T>, t: seq<T>)
    requires |t| > 0
    ensures (s + t)[..|s + t| - 1] == s + t[..|t| - 1] && (s + t)[|s + t| - 1] == t[|t| - 1]
    ensures s + t == (s + t[..|t| - 1]) + [t[|t| - 1]]
  {
    assert (s + t)[..|s + t| - 1] == s + t[..|t| - 1];
  }

  lemma MulSucc(a: nat, b: nat)
    ensures (a + 1) * b == a * b + b
  {
  }

  lemma MulMono(a: nat, c: nat, b: nat)
    requires a <= c
    ensures a * b <= c * b
  {
  }

  lemma MulBelow(i: nat, m: nat, n: nat, j: nat)
    requires i < m && j < n
    ensures i * n + j < m * n
  {
    assert (i + 1) * n <= m * n by {
      MulMono(i + 1, m, n);
    }
  }

  /** Quotient and remainder from their defining equation. */
  lemma DivUnique(q: nat, r: nat, b: nat, t: nat)
    requires b > 0 && r < b && q * b + r == t
    ensures t / b == q && t % b == r
  {
    var q2, r2 := t / b, t % b;
    assert q2 * b + r2 == t;
    if q2 > q {
      MulMono(q + 1, q2, b);
    } else if q2 < q {
      MulMono(q2 + 1, q, b);
    }
  }

  /** Taking b away from at least b lowers the quotient by one and keeps the
    * remainder. */
  lemma DivStep(t: nat, b: nat)
    requires 1 <= b <= t
    ensures (t - b) / b == t / b - 1 && (t - b) % b == t % b
  {
    DivUnique((t - b) / b + 1, (t - b) % b, b, t);
  }

  lemma DivBelow(t: nat, b: nat, k: nat)
    requires b > 0 && t < (k + 1) * b
    ensures t / b <= k
  {
    if t / b > k {
      MulMono(k + 1, t / b, b);
    }
  }

  lemma DivLower(k: nat, b: nat, t: nat)
    requires b > 0 && k * b <= t
    ensures k <= t / b
  {
    if k > t / b {
      assert (t / b + 1) * b <= k * b by {
        MulMono(t / b + 1, k, b);
      }
    }
  }
}
