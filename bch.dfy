/** The BCH(31,21) code that protects POCSAG codewords (src/bch31_21.cc):
 * the syndrome of a word, the same syndrome computed for 32 words at once
 * on a bit-sliced matrix, and the brute-force repair of one- and two-bit
 * errors built on it.
 *
 * A 32-bit word is modelled by its bits: w[i] is bit i, that is whether
 * w & (1 << i) is non-zero. Every operation of the C code on such words
 * (xor, or, not, shifts, single-bit masks) is bitwise, so each becomes a
 * pointwise operation on the 32 bits. */
module Bch {

  // ---------------------------------------------------------------
  // Words
  // ---------------------------------------------------------------

  type Word = w: seq<bool> | |w| == 32 witness seq(32, _ => false)

  /** The word 0. */
  function Zero(): Word
  {
    seq(32, _ => false)
  }

  /** The word 0xffffffff. */
  function Ones(): Word
  {
    seq(32, _ => true)
  }

  /** 1 << n */
  function Unit(n: int): Word
    requires 0 <= n < 32
  {
    seq(32, i => i == n)
  }

  /** a ^ b */
  function Xor(a: Word, b: Word): Word
  {
    seq(32, i requires 0 <= i < 32 => a[i] != b[i])
  }

  /** a | b */
  function Or(a: Word, b: Word): Word
  {
    seq(32, i requires 0 <= i < 32 => a[i] || b[i])
  }

  /** a & b */
  function And(a: Word, b: Word): Word
  {
    seq(32, i requires 0 <= i < 32 => a[i] && b[i])
  }

  /** ~a */
  function Not(a: Word): Word
  {
    seq(32, i requires 0 <= i < 32 => !a[i])
  }

  /** a >> k, an unsigned shift: the top k bits become 0. */
  function Shr(a: Word, k: nat): Word
  {
    seq(32, i requires 0 <= i < 32 => i + k < 32 && a[i + k])
  }

  /** a << k: the bits shifted past bit 31 are lost. */
  function Shl(a: Word, k: nat): Word
  {
    seq(32, i requires 0 <= i < 32 => k <= i && a[i - k])
  }

  /** The bits 0 .. k-1 of w, the others cleared: w & ((1 << k) - 1). */
  function Prefix(w: Word, k: nat): Word
  {
    seq(32, i requires 0 <= i < 32 => i < k && w[i])
  }

  /** The word with bit n inverted, what a ^ (1 << n) is. */
  function Flip(a: Word, n: int): Word
    requires 0 <= n < 32
  {
    a[n := !a[n]]
  }

  lemma FlipIsXor(a: Word, n: int)
    requires 0 <= n < 32
    ensures Xor(a, Unit(n)) == Flip(a, n)
  {
  }

  // ---------------------------------------------------------------
  // The code (src/bch31_21.cc:7-19)
  // ---------------------------------------------------------------

  /** Codeword length and message length. */
  const N := 31
  const K := 21

  /** The exponents of the generator polynomial
   *  g(x) = x^10 + x^9 + x^8 + x^6 + x^5 + x^3 + 1, octal 03551. */
  predicate GenTerm(d: int)
  {
    d == 0 || d == 3 || d == 5 || d == 6 || d == 8 || d == 9 || d == 10
  }

  /** BCH_POLY, the coefficients of g as a word. */
  function Poly(): Word
  {
    seq(32, i => GenTerm(i))
  }

  // ---------------------------------------------------------------
  // even_parity (src/bch31_21.cc:21-30)
  // ---------------------------------------------------------------

  /** One folding step: temp ^ (temp >> k). */
  function Fold(t: Word, k: nat): Word
  {
    Xor(t, Shr(t, k))
  }

  /** The exclusive or of bits lo .. hi-1. */
  function XorRange(w: Word, lo: nat, hi: nat): bool
    requires lo <= hi <= 32
    decreases hi - lo
  {
    if lo == hi then false else XorRange(w, lo, hi - 1) != w[hi - 1]
  }

  lemma {:induction false} RangeSplit(w: Word, lo: nat, mid: nat, hi: nat)
    requires lo <= mid <= hi <= 32
    ensures XorRange(w, lo, hi) == (XorRange(w, lo, mid) != XorRange(w, mid, hi))
    decreases hi - mid
  {
    if mid < hi {
      RangeSplit(w, lo, mid, hi - 1);
    }
  }

  /** Folding by k pairs bit i with bit i + k. */
  lemma {:induction false} FoldRange(t: Word, k: nat, m: nat)
    requires m <= k && k + m <= 32
    ensures XorRange(Fold(t, k), 0, m) == (XorRange(t, 0, m) != XorRange(t, k, k + m))
  {
    if m > 0 {
      FoldRange(t, k, m - 1);
    }
  }

  lemma FoldHalves(t: Word, k: nat)
    requires 2 * k <= 32
    ensures XorRange(Fold(t, k), 0, k) == XorRange(t, 0, 2 * k)
  {
    FoldRange(t, k, k);
    RangeSplit(t, 0, k, 2 * k);
  }

  /** even_parity: folds the word onto bit 0 in five steps; true stands
   *  for 1. The result is the exclusive or of all 32 bits. */
  method EvenParity(data: Word) returns (p: bool)
    ensures p == XorRange(data, 0, 32)
  {
    var temp := Fold(data, 16);
    FoldHalves(data, 16);
    var t8 := Fold(temp, 8);
    FoldHalves(temp, 8);
    temp := t8;
    var t4 := Fold(temp, 4);
    FoldHalves(temp, 4);
    temp := t4;
    var t2 := Fold(temp, 2);
    FoldHalves(temp, 2);
    temp := t2;
    var t1 := Fold(temp, 1);
    FoldHalves(temp, 1);
    p := t1[0];
  }

  // ---------------------------------------------------------------
  // pocsag_syndrome (src/bch31_21.cc:32-46)
  // ---------------------------------------------------------------

  /** Round r of the long division by g (r = 0 .. 20): when bit 30 - r is
   *  set, g shifted up to that bit is subtracted, which over GF(2) is an
   *  exclusive or. */
  function Round(x: Word, r: int): Word
    requires 0 <= r < K
  {
    if x[30 - r] then Xor(x, Shl(Poly(), 20 - r)) else x
  }

  /** Rounds r .. 20 of the division. */
  function Reduce(x: Word, r: int): Word
    requires 0 <= r <= K
    decreases K - r
  {
    if r == K then x else Reduce(Round(x, r), r + 1)
  }

  /** The syndrome of a codeword: the division of data >> 1 (the parity bit
   *  dropped) by g, with the parity of all 32 bits or-ed into bit 10. */
  function Syndrome(data: Word): Word
  {
    var rem := Reduce(Shr(data, 1), 0);
    if XorRange(data, 0, 32) then Or(rem, Unit(N - K)) else rem
  }

  lemma MaskTest(x: Word, p: int)
    requires 0 <= p < 32
    ensures (And(x, Unit(p)) != Zero()) == x[p]
  {
    if !x[p] {
      assert And(x, Unit(p)) == Zero();
    } else {
      assert And(x, Unit(p))[p] != Zero()[p];
    }
  }

  /** Shifting 1 << p right by one gives 1 << (p - 1). */
  lemma ShrUnit(p: int)
    requires 1 <= p < 32
    ensures Shr(Unit(p), 1) == Unit(p - 1)
  {
  }

  /** Shifting g << k right by one gives g << (k - 1): no term of g is lost. */
  lemma ShrPoly(k: int)
    requires 1 <= k < K
    ensures Shr(Shl(Poly(), k), 1) == Shl(Poly(), k - 1)
  {
  }

  /** One pass of the loop of pocsag_syndrome, with n passes still to go:
   *  the mask picks bit n + 9 and the coefficient is g << (n - 1), so the
   *  pass is round K - n of the division, and both registers move one bit
   *  down for the next pass. */
  lemma SyndromeStep(shreg: Word, n: int)
    requires 0 < n <= K
    ensures var next := if And(shreg, Unit(n + 9)) != Zero() then Xor(shreg, Shl(Poly(), n - 1)) else shreg;
      Reduce(next, K - (n - 1)) == Reduce(shreg, K - n)
    ensures Shr(Unit(n + 9), 1) == Unit(n + 8)
    ensures n > 1 ==> Shr(Shl(Poly(), n - 1), 1) == Shl(Poly(), n - 2)
  {
    MaskTest(shreg, n + 9);
    ShrUnit(n + 9);
    if n > 1 {
      ShrPoly(n - 1);
    }
  }

  /** The syndrome from the remainder and the parity. */
  lemma SyndromeOf(data: Word, rem: Word, parity: bool)
    requires rem == Reduce(Shr(data, 1), 0) && parity == XorRange(data, 0, 32)
    ensures Syndrome(data) == if parity then Or(rem, Unit(N - K)) else rem
  {
  }

  /** pocsag_syndrome, with its mask and coefficient registers. */
  method PocsagSyndrome(data: Word) returns (s: Word)
    ensures s == Syndrome(data)
  {
    var shreg := Shr(data, 1);
    var mask := Unit(N - 1);
    var coeff := Shl(Poly(), K - 1);
    var n := K;
    ghost var rem := Reduce(shreg, 0);
    while n > 0
      invariant 0 <= n <= K
      invariant mask == Unit(n + 9)
      invariant n > 0 ==> coeff == Shl(Poly(), n - 1)
      invariant Reduce(shreg, K - n) == rem
    {
      SyndromeStep(shreg, n);
      if And(shreg, mask) != Zero() {
        shreg := Xor(shreg, coeff);
      }
      mask := Shr(mask, 1);
      coeff := Shr(coeff, 1);
      n := n - 1;
    }
    var parity := EvenParity(data);
    SyndromeOf(data, shreg, parity);
    if parity {
      shreg := Or(shreg, Unit(N - K));
    }
    s := shreg;
  }

  /** The carry-less product of q (bits 0 .. k-1) with g: the exclusive or
   *  of g << i over the bits i of q that are set. */
  function MulUpTo(q: Word, k: nat): Word
    requires k <= 32
  {
    if k == 0 then Zero()
    else Xor(MulUpTo(q, k - 1), if q[k - 1] then Shl(Poly(), k - 1) else Zero())
  }

  lemma {:induction false} MulFrame(q: Word, q': Word, k: nat)
    requires k <= 32 && q[..k] == q'[..k]
    ensures MulUpTo(q, k) == MulUpTo(q', k)
  {
    if k > 0 {
      assert q[..k - 1] == q[..k][..k - 1];
      assert q'[..k - 1] == q'[..k][..k - 1];
      MulFrame(q, q', k - 1);
      assert q[k - 1] == q[..k][k - 1];
      assert q'[k - 1] == q'[..k][k - 1];
    }
  }

  /** The quotient built by rounds r .. 20: round r decides bit 20 - r. */
  ghost function Quot(x: Word, r: int): Word
    requires 0 <= r <= K
    decreases K - r
  {
    if r == K then Zero() else Quot(Round(x, r), r + 1)[20 - r := x[30 - r]]
  }

  lemma XorAssoc(a: Word, b: Word, c: Word)
    ensures Xor(a, Xor(b, c)) == Xor(Xor(a, b), c)
  {
  }

  lemma XorCancel(a: Word, c: Word)
    ensures Xor(Xor(a, c), c) == a
  {
  }

  /** What round r subtracts from x: g shifted up to bit 30 - r, or nothing. */
  function Subtrahend(x: Word, r: int): Word
    requires 0 <= r < K
  {
    if x[30 - r] then Shl(Poly(), 20 - r) else Zero()
  }

  lemma RoundIsXor(x: Word, r: int)
    requires 0 <= r < K
    ensures Round(x, r) == Xor(x, Subtrahend(x, r))
  {
    if !x[30 - r] {
      assert Xor(x, Zero()) == x;
    }
  }

  /** Setting quotient bit 20 - r adds g << (20 - r) to the product. */
  lemma MulStep(q: Word, q': Word, x: Word, r: int)
    requires 0 <= r < K
    requires q == q'[20 - r := x[30 - r]]
    ensures MulUpTo(q, K - r) == Xor(MulUpTo(q', 20 - r), Subtrahend(x, r))
  {
    assert q[..20 - r] == q'[..20 - r];
    MulFrame(q, q', 20 - r);
  }

  /** The division is exact: x is the quotient times g plus what is left. */
  lemma {:induction false} Division(x: Word, r: int)
    requires 0 <= r <= K
    ensures Xor(Reduce(x, r), MulUpTo(Quot(x, r), K - r)) == x
    decreases K - r
  {
    if r == K {
      assert Xor(x, Zero()) == x;
    } else {
      var c := Subtrahend(x, r);
      var x' := Round(x, r);
      var q' := Quot(x', r + 1);
      RoundIsXor(x, r);
      Division(x', r + 1);
      MulStep(Quot(x, r), q', x, r);
      XorAssoc(Reduce(x', r + 1), MulUpTo(q', 20 - r), c);
      XorCancel(x, c);
    }
  }

  /** Round r leaves bits 30 - r and up clear when bits 31 - r and up were. */
  lemma {:induction false} ReduceLow(x: Word, r: int)
    requires 0 <= r <= K
    requires forall i :: 31 - r <= i < 32 ==> !x[i]
    ensures forall i :: 10 <= i < 32 ==> !Reduce(x, r)[i]
    decreases K - r
  {
    if r < K {
      ReduceLow(Round(x, r), r + 1);
    }
  }

  /** The quotient of data >> 1 by g. */
  ghost function Quotient(data: Word): Word
  {
    Quot(Shr(data, 1), 0)
  }

  lemma XorComm(a: Word, b: Word)
    ensures Xor(a, b) == Xor(b, a)
  {
  }

  /** The low ten bits of the syndrome are the remainder itself. */
  lemma SyndromeLow(data: Word, rem: Word)
    requires rem == Reduce(Shr(data, 1), 0)
    requires forall i :: 10 <= i < 32 ==> !rem[i]
    ensures Prefix(Syndrome(data), N - K) == rem
  {
  }

  /** Bits 0-9 of the syndrome are the remainder of data >> 1 divided by g,
   *  bit 10 is the exclusive or of all 32 bits, and bits 11-31 are clear. */
  lemma SyndromeIsRemainder(data: Word)
    ensures Shr(data, 1) == Xor(MulUpTo(Quotient(data), K), Prefix(Syndrome(data), N - K))
    ensures Syndrome(data)[N - K] == XorRange(data, 0, 32)
    ensures forall i :: N - K < i < 32 ==> !Syndrome(data)[i]
  {
    var x := Shr(data, 1);
    var rem := Reduce(x, 0);
    Division(x, 0);
    ReduceLow(x, 0);
    SyndromeLow(data, rem);
    XorComm(rem, MulUpTo(Quotient(data), K));
  }

  // ---------------------------------------------------------------
  // Bit-sliced matrices (src/bch31_21.cc:48-114)
  // ---------------------------------------------------------------
  // The bit-sliced routines work on 32 words at once: row i of the matrix
  // holds bit i of every word, so the word in lane j is made of bit j of
  // each row.

  type Matrix = m: seq<Word> | |m| == 32 witness seq(32, _ => seq(32, _ => false))

  /** The word held in lane j: bit i of it is bit j of row i. */
  function Lane(m: Matrix, j: int): Word
    requires 0 <= j < 32
  {
    seq(32, i requires 0 <= i < 32 => m[i][j])
  }

  /** One line of a round, slices[a] ^= slices[b]. */
  function Line(m: Matrix, a: int, b: int): Matrix
    requires 0 <= a < 32 && 0 <= b < 32
  {
    m[a := Xor(m[a], m[b])]
  }

  /** The same line seen from one lane: bit a absorbs bit b. */
  function BitLine(x: Word, a: int, b: int): Word
    requires 0 <= a < 32 && 0 <= b < 32
  {
    x[a := x[a] != x[b]]
  }

  lemma LineLane(m: Matrix, a: int, b: int, j: int)
    requires 0 <= a < 32 && 0 <= b < 32 && 0 <= j < 32
    ensures Lane(Line(m, a, b), j) == BitLine(Lane(m, j), a, b)
  {
  }

  /** Round n of bitslice_syndrome: the eight lines of the source, one per
   *  set bit of g << 20 and for bit 31, all keyed on row 30 - n. */
  function SliceRound(m: Matrix, n: int): Matrix
    requires 0 <= n < K
  {
    var bit := N - 1 - n;
    Line(Line(Line(Line(Line(Line(Line(Line(m,
      20 - n, bit), 23 - n, bit), 25 - n, bit), 26 - n, bit),
      28 - n, bit), 29 - n, bit), 30 - n, bit), 31 - n, bit)
  }

  /** The eight lines applied to one word. */
  function LaneRound(x: Word, n: int): Word
    requires 0 <= n < K
  {
    var bit := N - 1 - n;
    BitLine(BitLine(BitLine(BitLine(BitLine(BitLine(BitLine(BitLine(x,
      20 - n, bit), 23 - n, bit), 25 - n, bit), 26 - n, bit),
      28 - n, bit), 29 - n, bit), 30 - n, bit), 31 - n, bit)
  }

  /** The eight lines are round n of the division: the line on row 30 - n
   *  clears that row, so the last line, on row 31 - n, changes nothing. */
  lemma LaneRoundIsRound(x: Word, n: int)
    requires 0 <= n < K
    ensures LaneRound(x, n) == Round(x, n)
  {
    var bit := N - 1 - n;
    var y := LaneRound(x, n);
    var z := Round(x, n);
    forall i | 0 <= i < 32
      ensures y[i] == z[i]
    {
      if x[bit] {
        assert z[i] == (x[i] != GenTerm(i - (20 - n)));
      }
    }
  }

  lemma SliceRoundLane(m: Matrix, n: int, j: int)
    requires 0 <= n < K && 0 <= j < 32
    ensures Lane(SliceRound(m, n), j) == Round(Lane(m, j), n)
  {
    var bit := N - 1 - n;
    var m1 := Line(m, 20 - n, bit);
    var m2 := Line(m1, 23 - n, bit);
    var m3 := Line(m2, 25 - n, bit);
    var m4 := Line(m3, 26 - n, bit);
    var m5 := Line(m4, 28 - n, bit);
    var m6 := Line(m5, 29 - n, bit);
    var m7 := Line(m6, 30 - n, bit);
    LineLane(m, 20 - n, bit, j);
    LineLane(m1, 23 - n, bit, j);
    LineLane(m2, 25 - n, bit, j);
    LineLane(m3, 26 - n, bit, j);
    LineLane(m4, 28 - n, bit, j);
    LineLane(m5, 29 - n, bit, j);
    LineLane(m6, 30 - n, bit, j);
    LineLane(m7, 31 - n, bit, j);
    LaneRoundIsRound(Lane(m, j), n);
  }

  /** The exclusive or of rows 0 .. k-1. */
  function XorRows(m: Matrix, k: nat): Word
    requires k <= 32
  {
    if k == 0 then Zero() else Xor(XorRows(m, k - 1), m[k - 1])
  }

  /** Bit j of the exclusive or of the rows is the parity of lane j. */
  lemma {:induction false} XorRowsLane(m: Matrix, k: nat, j: int)
    requires k <= 32 && 0 <= j < 32
    ensures XorRows(m, k)[j] == XorRange(Lane(m, j), 0, k)
  {
    if k > 0 {
      XorRowsLane(m, k - 1, j);
    }
  }

  /** Moving every row down by one and clearing row 31 shifts every lane
   *  right by one. */
  lemma ShiftLanes(s0: Matrix, m: Matrix)
    requires forall k :: 0 <= k < 31 ==> m[k] == s0[k + 1]
    requires m[31] == Zero()
    ensures forall j :: 0 <= j < 32 ==> Lane(m, j) == Shr(Lane(s0, j), 1)
  {
  }

  /** Rounds n .. 20 applied to the matrix. */
  function SliceReduce(m: Matrix, n: int): Matrix
    requires 0 <= n <= K
    decreases K - n
  {
    if n == K then m else SliceReduce(SliceRound(m, n), n + 1)
  }

  /** The rounds on the matrix are the division of every lane. */
  lemma {:induction false} SliceReduceLane(m: Matrix, n: int, j: int)
    requires 0 <= n <= K && 0 <= j < 32
    ensures Lane(SliceReduce(m, n), j) == Reduce(Lane(m, j), n)
    decreases K - n
  {
    if n < K {
      SliceRoundLane(m, n, j);
      SliceReduceLane(SliceRound(m, n), n + 1, j);
    }
  }

  /** Or-ing the parity of a word into row 10 of the remainder of its
   *  shifted lane yields its syndrome. */
  lemma ParityLane(rounded: Matrix, pm: Word, x: Word, j: int)
    requires 0 <= j < 32
    requires Lane(rounded, j) == Reduce(Shr(x, 1), 0)
    requires pm[j] == XorRange(x, 0, 32)
    ensures Lane(rounded[N - K := Or(rounded[N - K], pm)], j) == Syndrome(x)
  {
    var rem := Lane(rounded, j);
    assert Lane(rounded[N - K := Or(rounded[N - K], pm)], j)
        == if pm[j] then Or(rem, Unit(N - K)) else rem;
  }

  lemma ParityLanes(s0: Matrix, shifted: Matrix, rounded: Matrix, pm: Word)
    requires rounded == SliceReduce(shifted, 0)
    requires forall j :: 0 <= j < 32 ==> Lane(shifted, j) == Shr(Lane(s0, j), 1)
    requires forall j :: 0 <= j < 32 ==> pm[j] == XorRange(Lane(s0, j), 0, 32)
    ensures forall j :: 0 <= j < 32 ==>
      Lane(rounded[N - K := Or(rounded[N - K], pm)], j) == Syndrome(Lane(s0, j))
  {
    forall j | 0 <= j < 32
      ensures Lane(rounded[N - K := Or(rounded[N - K], pm)], j) == Syndrome(Lane(s0, j))
    {
      SliceReduceLane(shifted, 0, j);
      ParityLane(rounded, pm, Lane(s0, j), j);
    }
  }

  /** The body of the round loop of bitslice_syndrome: the eight lines of
   *  round n, in place. */
  method RoundRows(slices: array<Word>, n: int)
    requires slices.Length == 32 && 0 <= n < K
    modifies slices
    ensures slices[..] == SliceRound(old(slices[..]), n)
  {
    var bit := N - 1 - n;
    slices[20 - n] := Xor(slices[20 - n], slices[bit]);
    slices[23 - n] := Xor(slices[23 - n], slices[bit]);
    slices[25 - n] := Xor(slices[25 - n], slices[bit]);
    slices[26 - n] := Xor(slices[26 - n], slices[bit]);
    slices[28 - n] := Xor(slices[28 - n], slices[bit]);
    slices[29 - n] := Xor(slices[29 - n], slices[bit]);
    slices[30 - n] := Xor(slices[30 - n], slices[bit]);
    slices[31 - n] := Xor(slices[31 - n], slices[bit]);
  }

  /** The first loop of bitslice_syndrome: the parity of every lane is
   *  gathered while the rows move down by one, and row 31 is cleared. */
  method ShiftOut(slices: array<Word>) returns (paritymask: Word)
    requires slices.Length == 32
    modifies slices
    ensures forall j :: 0 <= j < 32 ==> Lane(slices[..], j) == Shr(Lane(old(slices[..]), j), 1)
    ensures forall j :: 0 <= j < 32 ==> paritymask[j] == XorRange(Lane(old(slices[..]), j), 0, 32)
  {
    ghost var s0: Matrix := slices[..];
    paritymask := slices[0];
    assert paritymask == XorRows(s0, 1);
    var i := 1;
    while i < 32
      invariant 1 <= i <= 32
      invariant forall k :: 0 <= k < i - 1 ==> slices[k] == s0[k + 1]
      invariant forall k :: i - 1 <= k < 32 ==> slices[k] == s0[k]
      invariant paritymask == XorRows(s0, i)
    {
      paritymask := Xor(paritymask, slices[i]);
      slices[i - 1] := slices[i];
      i := i + 1;
    }
    slices[31] := Zero();
    ShiftLanes(s0, slices[..]);
    forall j | 0 <= j < 32
      ensures paritymask[j] == XorRange(Lane(s0, j), 0, 32)
    {
      XorRowsLane(s0, 32, j);
    }
  }

  /** bitslice_syndrome: the syndrome of all 32 lanes at once. */
  method BitsliceSyndrome(slices: array<Word>)
    requires slices.Length == 32
    modifies slices
    ensures forall j :: 0 <= j < 32 ==> Lane(slices[..], j) == Syndrome(Lane(old(slices[..]), j))
  {
    ghost var s0: Matrix := slices[..];
    var paritymask := ShiftOut(slices);
    ghost var shifted: Matrix := slices[..];
    var n := 0;
    while n < K
      invariant 0 <= n <= K
      invariant SliceReduce(slices[..], n) == SliceReduce(shifted, 0)
    {
      RoundRows(slices, n);
      n := n + 1;
    }

    ghost var rounded: Matrix := slices[..];
    ParityLanes(s0, shifted, rounded, paritymask);
    slices[N - K] := Or(slices[N - K], paritymask);
    assert slices[..] == rounded[N - K := Or(rounded[N - K], paritymask)];
  }

  /** transpose_n: lane n of the matrix, gathered bit by bit. */
  method TransposeN(n: int, matrix: array<Word>) returns (out: Word)
    requires 0 <= n < 32 && matrix.Length == 32
    ensures out == Lane(matrix[..], n)
  {
    out := Zero();
    var j := 0;
    while j < 32
      invariant 0 <= j <= 32
      invariant forall i :: 0 <= i < 32 ==> out[i] == (i < j && matrix[i][n])
    {
      MaskTest(matrix[j], n);
      if And(matrix[j], Unit(n)) != Zero() {
        out := Or(out, Unit(j));
      }
      j := j + 1;
    }
  }

  /** transpose_clone: every row is all ones or all zeros after the
   *  matching bit of src, so that every lane holds src. */
  method TransposeClone(src: Word, out: array<Word>)
    requires out.Length == 32
    modifies out
    ensures forall j :: 0 <= j < 32 ==> Lane(out[..], j) == src
  {
    var i := 0;
    while i < 32
      invariant 0 <= i <= 32
      invariant forall k :: 0 <= k < i ==> out[k] == if src[k] then Ones() else Zero()
    {
      MaskTest(src, i);
      if And(src, Unit(i)) != Zero() {
        out[i] := Ones();
      } else {
        out[i] := Zero();
      }
      i := i + 1;
    }
  }

  /** The test written out three times in pocsag_repair: or-ing all rows
   *  and inverting leaves bit j set exactly when lane j is zero. */
  method ZeroLanes(xpose: array<Word>) returns (res: Word)
    requires xpose.Length == 32
    ensures forall j :: 0 <= j < 32 ==> res[j] == (Lane(xpose[..], j) == Zero())
  {
    res := Zero();
    var i := 0;
    while i < 32
      invariant 0 <= i <= 32
      invariant forall j :: 0 <= j < 32 ==> (res[j] <==> exists k :: 0 <= k < i && xpose[k][j])
    {
      res := Or(res, xpose[i]);
      i := i + 1;
    }
    forall j | 0 <= j < 32
      ensures res[j] == (Lane(xpose[..], j) != Zero())
    {
      if res[j] {
        var k :| 0 <= k < 32 && xpose[k][j];
        assert Lane(xpose[..], j)[k] != Zero()[k];
      }
    }
    res := Not(res);
  }

  lemma ShrShr(w: Word, k: nat)
    ensures Shr(Shr(w, k), 1) == Shr(w, k + 1)
  {
  }

  /** A word whose bits k and up are clear vanishes when shifted by k. */
  lemma ShrClear(w: Word, k: nat)
    requires forall i :: k <= i < 32 ==> !w[i]
    ensures Shr(w, k) == Zero()
  {
  }

  /** The last shift that leaves something is at the highest set bit. */
  lemma TopBit(w: Word, n: nat)
    requires n < 32 && Shr(w, n) != Zero() && Shr(w, n + 1) == Zero()
    ensures w[n] && forall k :: n < k < 32 ==> !w[k]
  {
    forall k | n < k < 32
      ensures !w[k]
    {
      assert Shr(w, n + 1)[k - n - 1] == Zero()[k - n - 1];
    }
    if !w[n] {
      ShrClear(w, n);
      assert false;
    }
  }

  /** The search for the highest set bit: shift right until the word is
   *  zero, counting the shifts, and step back one. */
  method HighestBit(res: Word) returns (n: int)
    requires res != Zero()
    ensures 0 <= n < 32 && res[n]
    ensures forall k :: n < k < 32 ==> !res[k]
  {
    var r := res;
    n := 0;
    ShrClear(res, 32);
    while r != Zero()
      invariant 0 <= n <= 32
      invariant r == Shr(res, n)
      invariant n == 0 ==> r == res
      invariant n > 0 ==> Shr(res, n - 1) != Zero()
      decreases 32 - n
    {
      ShrShr(res, n);
      r := Shr(r, 1);
      n := n + 1;
    }
    n := n - 1;
    TopBit(res, n);
  }

  // ---------------------------------------------------------------
  // pocsag_repair (src/bch31_21.cc:123-212)
  // ---------------------------------------------------------------

  /** data with bits b1 and b2 inverted (no change at all when b1 == b2). */
  function FlipPair(d: Word, b1: int, b2: int): Word
    requires 0 <= b1 < 32 && 0 <= b2 < 32
  {
    Flip(Flip(d, b1), b2)
  }

  /** Flipping the same bit twice restores the word. */
  lemma FlipTwice(d: Word, b: int)
    requires 0 <= b < 32
    ensures FlipPair(d, b, b) == d
  {
  }

  /** The order of two flips does not matter. */
  lemma FlipPairSwap(d: Word, b1: int, b2: int)
    requires 0 <= b1 < 32 && 0 <= b2 < 32
    ensures FlipPair(d, b1, b2) == FlipPair(d, b2, b1)
  {
  }

  /** Two distinct flips change exactly those two bits. */
  lemma FlipPairDiffers(d: Word, b1: int, b2: int)
    requires 0 <= b1 < b2 < 32
    ensures forall i :: 0 <= i < 32 ==> (FlipPair(d, b1, b2)[i] != d[i] <==> i == b1 || i == b2)
    ensures FlipPair(d, b1, b2) != d
  {
    assert FlipPair(d, b1, b2)[b1] != d[b1];
  }

  /** No single flip gives a zero syndrome. */
  predicate NoSingleRepair(d: Word)
  {
    forall b :: 0 <= b < 32 ==> Syndrome(Flip(d, b)) != Zero()
  }

  /** No pair of flips gives a zero syndrome. */
  predicate NoPairRepair(d: Word)
  {
    forall b1, b2 :: 0 <= b1 < 32 && 0 <= b2 < 32 ==> Syndrome(FlipPair(d, b1, b2)) != Zero()
  }

  /** h is the highest bit whose flip gives a zero syndrome. */
  predicate HighestSingle(d: Word, h: int)
  {
    0 <= h < 32 && Syndrome(Flip(d, h)) == Zero() &&
    forall b :: h < b < 32 ==> Syndrome(Flip(d, b)) != Zero()
  }

  /** w has a zero syndrome and differs from d in exactly two bits. */
  predicate PairRepaired(d: Word, w: Word)
  {
    Syndrome(w) == Zero() &&
    exists b1, b2 :: 0 <= b1 < b2 < 32 && w == FlipPair(d, b1, b2)
  }

  /** xpose[r] ^= 1 << c inverts bit r of lane c and leaves the other
   *  lanes alone. */
  lemma RowFlipLanes(m: Matrix, r: int, c: int)
    requires 0 <= r < 32 && 0 <= c < 32
    ensures forall j :: 0 <= j < 32 ==>
      Lane(m[r := Xor(m[r], Unit(c))], j) == if j == c then Flip(Lane(m, j), r) else Lane(m, j)
  {
  }

  /** The pairs (b1, b2) of the two-bit search are enumerated with
   *  b1 <= b2, b1 first; (c1, c2) comes before (b1, b2). */
  predicate Before(c1: int, c2: int, b1: int, b2: int)
  {
    c1 < b1 || (c1 == b1 && c2 < b2)
  }

  /** The lanes of the two-bit search: lane k holds data with the pair
   *  batch[k] flipped, the lanes past the batch hold data itself. */
  ghost predicate BatchLanes(m: Matrix, d: Word, batch: seq<(int, int)>)
  {
    |batch| <= 32 &&
    (forall k :: 0 <= k < |batch| ==> 0 <= batch[k].0 <= batch[k].1 < 32) &&
    forall j :: 0 <= j < 32 ==>
      Lane(m, j) == if j < |batch| then FlipPair(d, batch[j].0, batch[j].1) else d
  }

  /** Every pair enumerated before (b1, b2) is in the pending batch or
   *  is known not to repair d. */
  ghost predicate Covered(d: Word, batch: seq<(int, int)>, b1: int, b2: int)
  {
    forall c1, c2 :: 0 <= c1 <= c2 < 32 && Before(c1, c2, b1, b2) ==>
      (c1, c2) in batch || Syndrome(FlipPair(d, c1, c2)) != Zero()
  }

  lemma CoveredRowStart(d: Word, batch: seq<(int, int)>, b1: int)
    requires Covered(d, batch, b1, 0)
    ensures Covered(d, batch, b1, b1)
  {
  }

  lemma CoveredRowEnd(d: Word, batch: seq<(int, int)>, b1: int)
    requires Covered(d, batch, b1, 32)
    ensures Covered(d, batch, b1 + 1, 0)
  {
  }

  lemma CoveredAdd(d: Word, batch: seq<(int, int)>, b1: int, b2: int)
    requires Covered(d, batch, b1, b2)
    ensures Covered(d, batch + [(b1, b2)], b1, b2 + 1)
  {
    assert (b1, b2) in batch + [(b1, b2)];
  }

  /** A freshly cloned matrix is an empty batch. */
  lemma ClonedBatch(m: Matrix, d: Word)
    requires forall j :: 0 <= j < 32 ==> Lane(m, j) == d
    ensures BatchLanes(m, d, [])
  {
  }

  /** The two row updates of one pair fill the next lane. */
  lemma AddPair(m: Matrix, d: Word, batch: seq<(int, int)>, b1: int, b2: int)
    requires BatchLanes(m, d, batch) && |batch| < 32
    requires 0 <= b1 <= b2 < 32
    ensures var n := |batch|;
      var m1 := m[b1 := Xor(m[b1], Unit(n))];
      BatchLanes(m1[b2 := Xor(m1[b2], Unit(n))], d, batch + [(b1, b2)])
  {
    var n := |batch|;
    var m1 := m[b1 := Xor(m[b1], Unit(n))];
    var m2 := m1[b2 := Xor(m1[b2], Unit(n))];
    var nb := batch + [(b1, b2)];
    RowFlipLanes(m, b1, n);
    RowFlipLanes(m1, b2, n);
    forall j | 0 <= j < 32
      ensures Lane(m2, j) == if j < |nb| then FlipPair(d, nb[j].0, nb[j].1) else d
    {
      if j < n {
        assert nb[j] == batch[j];
        assert Lane(m2, j) == Lane(m, j);
      } else if j == n {
        assert Lane(m, n) == d;
        assert Lane(m1, n) == Flip(d, b1);
      } else {
        assert Lane(m2, j) == Lane(m, j) == d;
      }
    }
  }

  /** A batch whose lanes all have a non-zero syndrome can be dropped. */
  lemma ClearBatch(m: Matrix, syn: Matrix, d: Word, batch: seq<(int, int)>, b1: int, b2: int)
    requires BatchLanes(m, d, batch) && Covered(d, batch, b1, b2)
    requires forall j :: 0 <= j < 32 ==> Lane(syn, j) == Syndrome(Lane(m, j))
    requires forall k :: 0 <= k < 32 ==> Lane(syn, k) != Zero()
    ensures Covered(d, [], b1, b2)
  {
    forall c1, c2 | 0 <= c1 <= c2 < 32 && Before(c1, c2, b1, b2) && (c1, c2) in batch
      ensures Syndrome(FlipPair(d, c1, c2)) != Zero()
    {
      var k :| 0 <= k < |batch| && batch[k] == (c1, c2);
      assert Lane(m, k) == FlipPair(d, c1, c2);
      assert Lane(syn, k) != Zero();
    }
  }

  /** A lane of the batch with a zero syndrome is a repair by two distinct
   *  flips: a lane holding data itself has the syndrome of data. */
  lemma FoundPair(m: Matrix, syn: Matrix, d: Word, batch: seq<(int, int)>, lane: int)
    requires BatchLanes(m, d, batch) && 0 <= lane < 32
    requires forall j :: 0 <= j < 32 ==> Lane(syn, j) == Syndrome(Lane(m, j))
    requires Lane(syn, lane) == Zero() && Syndrome(d) != Zero()
    ensures PairRepaired(d, Lane(m, lane))
  {
    assert Syndrome(Lane(m, lane)) == Zero();
    assert lane < |batch|;
    var p := batch[lane];
    FlipTwice(d, p.0);
    assert Lane(m, lane) == FlipPair(d, p.0, p.1);
  }

  /** Once every pair is covered, none repairs d, in either order. */
  lemma AllPairsFail(d: Word)
    requires Covered(d, [], 32, 0) && Syndrome(d) != Zero()
    ensures NoPairRepair(d)
  {
    forall b1, b2 | 0 <= b1 < 32 && 0 <= b2 < 32
      ensures Syndrome(FlipPair(d, b1, b2)) != Zero()
    {
      if b1 == b2 {
        FlipTwice(d, b1);
      } else if b2 < b1 {
        FlipPairSwap(d, b1, b2);
      }
    }
  }

  /** The batch test of the two-bit search, written out twice in
   *  pocsag_repair: keep a copy of the matrix, take the syndrome of every
   *  lane, and if one is zero return the highest such lane of the copy. */
  method TryBatch(xpose: array<Word>, inp: array<Word>) returns (found: bool, lane: int, word: Word)
    requires xpose.Length == 32 && inp.Length == 32 && xpose != inp
    modifies xpose, inp
    ensures inp[..] == old(xpose[..])
    ensures forall j :: 0 <= j < 32 ==> Lane(xpose[..], j) == Syndrome(Lane(old(xpose[..]), j))
    ensures found ==> 0 <= lane < 32 && word == Lane(inp[..], lane) && Lane(xpose[..], lane) == Zero()
    ensures found ==> forall k :: lane < k < 32 ==> Lane(xpose[..], k) != Zero()
    ensures !found ==> forall k :: 0 <= k < 32 ==> Lane(xpose[..], k) != Zero()
  {
    forall k | 0 <= k < 32 {
      inp[k] := xpose[k];
    }
    assert xpose[..] == old(xpose[..]);
    BitsliceSyndrome(xpose);
    var res := ZeroLanes(xpose);
    found := res != Zero();
    lane, word := 0, Zero();
    if found {
      lane := HighestBit(res);
      word := TransposeN(lane, inp);
    }
  }

  /** The single-bit check of pocsag_repair: lane i of the matrix holds
   *  data with bit i flipped, and the result has bit i set exactly when
   *  that word has a zero syndrome. */
  method SingleFlips(data: Word, xpose: array<Word>) returns (res: Word)
    requires xpose.Length == 32
    modifies xpose
    ensures forall j :: 0 <= j < 32 ==> res[j] == (Syndrome(Flip(data, j)) == Zero())
  {
    TransposeClone(data, xpose);
    var i := 0;
    while i < 32
      invariant 0 <= i <= 32
      invariant forall j :: 0 <= j < 32 ==> Lane(xpose[..], j) == if j < i then Flip(data, j) else data
    {
      RowFlipLanes(xpose[..], i, i);
      xpose[i] := Xor(xpose[i], Unit(i));
      i := i + 1;
    }
    BitsliceSyndrome(xpose);
    res := ZeroLanes(xpose);
  }

  /** xpose[b1] ^= 1 << n; xpose[b2] ^= 1 << n: lane n takes the pair. */
  method PlacePair(xpose: array<Word>, n: int, b1: int, b2: int, ghost data: Word, ghost batch: seq<(int, int)>)
    requires xpose.Length == 32 && n == |batch| < 32 && 0 <= b1 <= b2 < 32
    requires BatchLanes(xpose[..], data, batch)
    modifies xpose
    ensures BatchLanes(xpose[..], data, batch + [(b1, b2)])
  {
    AddPair(xpose[..], data, batch, b1, b2);
    xpose[b1] := Xor(xpose[b1], Unit(n));
    xpose[b2] := Xor(xpose[b2], Unit(n));
  }

  /** A batch test seen from the two-bit search: a zero syndrome in some
   *  lane is a repair by two flips, and otherwise the whole batch is known
   *  not to repair data. */
  method TestBatch(data: Word, xpose: array<Word>, inp: array<Word>, ghost batch: seq<(int, int)>,
                   ghost b1: int, ghost b2: int) returns (found: bool, word: Word)
    requires xpose.Length == 32 && inp.Length == 32 && xpose != inp
    requires Syndrome(data) != Zero()
    requires BatchLanes(xpose[..], data, batch) && Covered(data, batch, b1, b2)
    modifies xpose, inp
    ensures found ==> PairRepaired(data, word)
    ensures !found ==> Covered(data, [], b1, b2)
  {
    ghost var m: Matrix := xpose[..];
    var lane;
    found, lane, word := TryBatch(xpose, inp);
    if found {
      FoundPair(m, xpose[..], data, batch, lane);
    } else {
      ClearBatch(m, xpose[..], data, batch, b1, b2);
    }
  }

  /** The two-bit check of pocsag_repair: the pairs b1 <= b2 are laid into
   *  the lanes 32 at a time and each full batch, then the last partial
   *  one, is tested; the first batch with a zero syndrome decides. */
  method PairSearch(data: Word, xpose: array<Word>, inp: array<Word>) returns (found: bool, word: Word)
    requires xpose.Length == 32 && inp.Length == 32 && xpose != inp
    requires Syndrome(data) != Zero()
    modifies xpose, inp
    ensures found ==> PairRepaired(data, word)
    ensures !found ==> NoPairRepair(data)
  {
    var n := 0;
    TransposeClone(data, xpose);
    ClonedBatch(xpose[..], data);
    ghost var batch: seq<(int, int)> := [];
    var b1 := 0;
    while b1 < 32
      invariant 0 <= b1 <= 32
      invariant 0 <= n == |batch| < 32
      invariant BatchLanes(xpose[..], data, batch)
      invariant Covered(data, batch, b1, 0)
    {
      var b2 := b1;
      CoveredRowStart(data, batch, b1);
      while b2 < 32
        invariant b1 <= b2 <= 32
        invariant 0 <= n == |batch| < 32
        invariant BatchLanes(xpose[..], data, batch)
        invariant Covered(data, batch, b1, b2)
      {
        PlacePair(xpose, n, b1, b2, data, batch);
        CoveredAdd(data, batch, b1, b2);
        batch := batch + [(b1, b2)];
        n := n + 1;
        if n == 32 {
          found, word := TestBatch(data, xpose, inp, batch, b1, b2 + 1);
          if found {
            return;
          }
          TransposeClone(data, xpose);
          ClonedBatch(xpose[..], data);
          batch := [];
          n := 0;
        }
        b2 := b2 + 1;
      }
      CoveredRowEnd(data, batch, b1);
      b1 := b1 + 1;
    }

    found, word := false, data;
    if n > 0 {
      found, word := TestBatch(data, xpose, inp, batch, 32, 0);
      if found {
        return;
      }
    }
    AllPairsFail(data);
  }

  /** pocsag_repair: 0 with data unchanged when its syndrome is zero;
   *  otherwise the highest single flip that repairs it; otherwise a pair
   *  of flips that repairs it; 1 with data unchanged when none does. */
  method PocsagRepair(data: Word) returns (status: int, fixed: Word)
    ensures Syndrome(data) == Zero() ==> status == 0 && fixed == data
    ensures Syndrome(data) != Zero() && !NoSingleRepair(data) ==>
      status == 0 && exists h :: HighestSingle(data, h) && fixed == Flip(data, h)
    ensures Syndrome(data) != Zero() && NoSingleRepair(data) && status == 0 ==> PairRepaired(data, fixed)
    ensures status == 1 <==> Syndrome(data) != Zero() && NoSingleRepair(data) && NoPairRepair(data)
    ensures status == 0 || status == 1
    ensures status == 1 ==> fixed == data
    ensures status == 0 ==> Syndrome(fixed) == Zero()
  {
    var s := PocsagSyndrome(data);
    if s == Zero() {
      return 0, data;
    }
    var xpose := new Word[32](_ => Zero());
    var inp := new Word[32](_ => Zero());

    var res := SingleFlips(data, xpose);
    if res != Zero() {
      var n := HighestBit(res);
      FlipIsXor(data, n);
      return 0, Xor(data, Unit(n));
    }
    assert NoSingleRepair(data) by {
      forall b | 0 <= b < 32
        ensures Syndrome(Flip(data, b)) != Zero()
      {
        assert !res[b];
      }
    }

    var found, word := PairSearch(data, xpose, inp);
    if found {
      return 0, word;
    }
    return 1, data;
  }
}
