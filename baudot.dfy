/** The Baudot (ITA2) teletype decoder (src/baudot.cc, src/baudot.hh). The
 * input carries two half-bits per transmitted bit; they are shifted into a
 * 16-bit register, and a character is taken when the register shows a
 * frame: the framing half-bits of the chosen stop-bit setting around five
 * code bits, each two half-bits wide. The 5-bit code is decoded through
 * the letters or figures table of ITU-T Recommendation S.1 (ITA2). */
module Baudot {
  import opened Common
  import opened NodeConfig

  // ---------------------------------------------------------------
  // Framing (src/baudot.cc:23-52)
  // ---------------------------------------------------------------

  datatype StopBits = Stop1 | Stop15 | Stop2

  /** The half-bits per symbol, the frame pattern and mask, and the number
   *  of half-bits below the code bits. */
  datatype Framing = Framing(stopHBits: bv16, bitsPerSymbol: nat, pattern: bv16, mask: bv16)

  /** The constructor's table: the two framing half-bits at the top of a
   *  symbol are ones, the stopHBits half-bits at the bottom are zeros, and
   *  the mask covers exactly those. */
  function FramingOf(s: StopBits): (f: Framing)
    ensures Shaped(f)
    ensures f.pattern == 3 << (f.stopHBits + 10)
    ensures f.mask == f.pattern | ((1 << f.stopHBits) - 1)
  {
    match s
    case Stop1 => Framing(2, 14, 0x3000, 0x3003)
    case Stop15 => Framing(3, 15, 0x6000, 0x6007)
    case Stop2 => Framing(4, 16, 0xC000, 0xC00F)
  }

  // ---------------------------------------------------------------
  // Code tables (src/baudot.cc:8-20)
  // ---------------------------------------------------------------

  /** The shape the constructor gives every framing: 2 to 4 low half-bits,
   *  ten code half-bits above them and two framing half-bits on top. */
  predicate Shaped(f: Framing)
  {
    2 <= f.stopHBits <= 4 && 14 <= f.bitsPerSymbol <= 16 && f.bitsPerSymbol == f.stopHBits as int + 12
  }

  datatype Mode = Letters | Figures

  /** `_letter`: the letters case of ITA2, NUL where there is none. */
  function LetterTable(): (t: seq<char>)
    ensures |t| == 32
  {
    ['\0', 'E', '\n', 'A', ' ', 'S', 'I', 'U', '\n', 'D', 'R', 'J', 'N', 'F',
     'C', 'K', 'T', 'Z', 'L', 'W', 'H', 'Y', 'P', 'Q', 'O', 'B', 'G', '\0',
     'M', 'X', 'V', '\0']
  }

  /** `_figure`: the figures case of ITA2, NUL where there is none. */
  function FigureTable(): (t: seq<char>)
    ensures |t| == 32
  {
    ['\0', '3', '\n', '-', ' ', '\U{7}', '8', '7', '\n', '?', '4', '\'', ',', '!',
     ':', '(', '5', '"', ')', '2', '#', '6', '0', '1', '9', '?', '&', '\0',
     '.', '/', ';', '\0']
  }

  /** `CHAR_STL`, `CHAR_STF` and `CHAR_SPA`. */
  const ShiftLetters: bv8 := 31
  const ShiftFigures: bv8 := 27
  const Space: bv8 := 4

  /** The code of each letter in the letters table, 'A' first. */
  function LetterCodes(): (t: seq<bv8>)
    ensures |t| == 26
  {
    [3, 25, 14, 9, 1, 13, 26, 20, 6, 11, 15, 18, 28, 12, 24, 22, 23, 10, 5, 16, 7, 30, 19, 29, 21, 17]
  }

  /** The code of each digit in the figures table, '0' first. */
  function DigitCodes(): (t: seq<bv8>)
    ensures |t| == 10
  {
    [22, 23, 19, 1, 10, 16, 21, 7, 6, 24]
  }

  /** Every letter A to Z has a code in the letters table. */
  lemma LetterCoded(c: char)
    requires 'A' <= c <= 'Z'
    ensures var k := LetterCodes()[c as int - 'A' as int]; k < 32 && LetterTable()[k] == c
  {
    var k := c as int - 'A' as int;
    if k < 9 {
      LetterCodedFrom0(k);
    } else if k < 18 {
      LetterCodedFrom9(k);
    } else {
      LetterCodedFrom18(k);
    }
  }

  lemma LetterCodedFrom0(k: nat)
    requires 0 <= k < 9
    ensures LetterCodes()[k] < 32 && LetterTable()[LetterCodes()[k]] as int == 'A' as int + k
  {
    assert k == 0 || k == 1 || k == 2 || k == 3 || k == 4 || k == 5 || k == 6 || k == 7 || k == 8;
  }

  lemma LetterCodedFrom9(k: nat)
    requires 9 <= k < 18
    ensures LetterCodes()[k] < 32 && LetterTable()[LetterCodes()[k]] as int == 'A' as int + k
  {
    assert k == 9 || k == 10 || k == 11 || k == 12 || k == 13 || k == 14 || k == 15 || k == 16 || k == 17;
  }

  lemma LetterCodedFrom18(k: nat)
    requires 18 <= k < 26
    ensures LetterCodes()[k] < 32 && LetterTable()[LetterCodes()[k]] as int == 'A' as int + k
  {
    assert k == 18 || k == 19 || k == 20 || k == 21 || k == 22 || k == 23 || k == 24 || k == 25;
  }

  /** ... and no other: a letter in the letters table sits at its code. */
  lemma LetterOnce(i: nat)
    requires i < 32 && 'A' <= LetterTable()[i] <= 'Z'
    ensures LetterCodes()[LetterTable()[i] as int - 'A' as int] as int == i
  {
    if i < 8 {
      LetterOnceFrom0(i);
    } else if i < 16 {
      LetterOnceFrom8(i);
    } else if i < 24 {
      LetterOnceFrom16(i);
    } else {
      LetterOnceFrom24(i);
    }
  }

  lemma LetterOnceFrom0(i: nat)
    requires 0 <= i < 8 && 'A' <= LetterTable()[i] <= 'Z'
    ensures LetterCodes()[LetterTable()[i] as int - 'A' as int] as int == i
  {
    assert i == 0 || i == 1 || i == 2 || i == 3 || i == 4 || i == 5 || i == 6 || i == 7;
  }

  lemma LetterOnceFrom8(i: nat)
    requires 8 <= i < 16 && 'A' <= LetterTable()[i] <= 'Z'
    ensures LetterCodes()[LetterTable()[i] as int - 'A' as int] as int == i
  {
    assert i == 8 || i == 9 || i == 10 || i == 11 || i == 12 || i == 13 || i == 14 || i == 15;
  }

  lemma LetterOnceFrom16(i: nat)
    requires 16 <= i < 24 && 'A' <= LetterTable()[i] <= 'Z'
    ensures LetterCodes()[LetterTable()[i] as int - 'A' as int] as int == i
  {
    assert i == 16 || i == 17 || i == 18 || i == 19 || i == 20 || i == 21 || i == 22 || i == 23;
  }

  lemma LetterOnceFrom24(i: nat)
    requires 24 <= i < 32 && 'A' <= LetterTable()[i] <= 'Z'
    ensures LetterCodes()[LetterTable()[i] as int - 'A' as int] as int == i
  {
    assert i == 24 || i == 25 || i == 26 || i == 27 || i == 28 || i == 29 || i == 30 || i == 31;
  }

  /** Every digit has a code in the figures table. */
  lemma DigitCoded(c: char)
    requires '0' <= c <= '9'
    ensures var k := DigitCodes()[c as int - '0' as int]; k < 32 && FigureTable()[k] == c
  {
    var k := c as int - '0' as int;
    assert k == 0 || k == 1 || k == 2 || k == 3 || k == 4 || k == 5 || k == 6 || k == 7 || k == 8 || k == 9;
  }

  /** ... and no other: a digit in the figures table sits at its code. */
  lemma DigitOnce(i: nat)
    requires i < 32 && '0' <= FigureTable()[i] <= '9'
    ensures DigitCodes()[FigureTable()[i] as int - '0' as int] as int == i
  {
    if i < 8 {
      DigitOnceFrom0(i);
    } else if i < 16 {
      DigitOnceFrom8(i);
    } else if i < 24 {
      DigitOnceFrom16(i);
    } else {
      DigitOnceFrom24(i);
    }
  }

  lemma DigitOnceFrom0(i: nat)
    requires 0 <= i < 8 && '0' <= FigureTable()[i] <= '9'
    ensures DigitCodes()[FigureTable()[i] as int - '0' as int] as int == i
  {
    assert i == 0 || i == 1 || i == 2 || i == 3 || i == 4 || i == 5 || i == 6 || i == 7;
  }

  lemma DigitOnceFrom8(i: nat)
    requires 8 <= i < 16 && '0' <= FigureTable()[i] <= '9'
    ensures DigitCodes()[FigureTable()[i] as int - '0' as int] as int == i
  {
    assert i == 8 || i == 9 || i == 10 || i == 11 || i == 12 || i == 13 || i == 14 || i == 15;
  }

  lemma DigitOnceFrom16(i: nat)
    requires 16 <= i < 24 && '0' <= FigureTable()[i] <= '9'
    ensures DigitCodes()[FigureTable()[i] as int - '0' as int] as int == i
  {
    assert i == 16 || i == 17 || i == 18 || i == 19 || i == 20 || i == 21 || i == 22 || i == 23;
  }

  lemma DigitOnceFrom24(i: nat)
    requires 24 <= i < 32 && '0' <= FigureTable()[i] <= '9'
    ensures DigitCodes()[FigureTable()[i] as int - '0' as int] as int == i
  {
    assert i == 24 || i == 25 || i == 26 || i == 27 || i == 28 || i == 29 || i == 30 || i == 31;
  }

  /** The outcome of decoding one code: the new mode and the character
   *  written, if any. */
  datatype Decoded = Decoded(mode: Mode, out: Option<char>)

  /** The decoding of a 5-bit code in the current mode. */
  function Decode(mode: Mode, code: bv8): (r: Decoded)
    requires code < 32
  {
    if code == ShiftLetters then Decoded(Letters, None)
    else if code == ShiftFigures then Decoded(Figures, None)
    else
      var m := if code == Space then Letters else mode;
      Decoded(m, Some(if m == Letters then LetterTable()[code] else FigureTable()[code]))
  }

  /** The shift codes only change the mode; every other code writes one
   *  character, space in either case, and the letters or figures entry
   *  otherwise; only a shift code or a space changes the mode. */
  lemma DecodeCases(mode: Mode, code: bv8)
    requires code < 32
    ensures var r := Decode(mode, code);
      (r.out == None <==> code == 27 || code == 31)
      && (code == 31 ==> r.mode == Letters)
      && (code == 27 ==> r.mode == Figures)
      && (code == 4 ==> r == Decoded(Letters, Some(' ')))
      && (code != 4 && code != 27 && code != 31 ==>
            r.mode == mode && r.out == Some(if mode == Letters then LetterTable()[code] else FigureTable()[code]))
  {
  }

  // ---------------------------------------------------------------
  // The half-bit register (src/baudot.cc:90-99)
  // ---------------------------------------------------------------

  /** `(_bitstream << 1) | (buffer[i] & 0x1)`, truncated to 16 bits. */
  function Push(bs: bv16, b: bool): bv16
  {
    (bs << 1) | (if b then 1 else 0)
  }

  /** Bit p of x. */
  predicate Bit(x: bv16, p: bv16)
    requires p < 16
  {
    (x >> p) & 1 == 1
  }

  lemma PushBit(bs: bv16, b: bool, p: bv16)
    requires p < 16
    ensures Bit(Push(bs, b), p) == if p == 0 then b else Bit(bs, p - 1)
  {
  }

  /** The register after the half-bits hs, oldest first. */
  function PushAll(bs: bv16, hs: seq<bool>): bv16
  {
    if |hs| == 0 then bs else Push(PushAll(bs, hs[..|hs| - 1]), hs[|hs| - 1])
  }

  /** The last 16 half-bits pushed are the register, the newest at bit 0. */
  lemma {:induction false} PushAllBit(bs: bv16, hs: seq<bool>, p: bv16)
    requires p as int < |hs| && p < 16
    ensures Bit(PushAll(bs, hs), p) == hs[|hs| - 1 - p as int]
  {
    var n := |hs| - 1;
    PushBit(PushAll(bs, hs[..n]), hs[n], p);
    if p > 0 {
      PushAllBit(bs, hs[..n], p - 1);
    }
  }

  /** Bit j of a code. */
  predicate CodeBit(c: bv8, j: bv8)
    requires j < 8
  {
    (c >> j) & 1 == 1
  }

  /** Half-bit stopHBits + 2j of the register, as the value of code bit j. */
  function HalfBit(bs: bv16, stopHBits: bv16, j: bv8): (r: bv8)
    requires stopHBits <= 6 && j < 5
    ensures r <= 1 && (r == 1 <==> Bit(bs, stopHBits + 2 * j as bv16))
  {
    if Bit(bs, stopHBits + 2 * j as bv16) then 1 else 0
  }

  /** The 5-bit code in the register: code bit j is the half-bit
   *  stopHBits + 2j. */
  function CodeOf(bs: bv16, stopHBits: bv16): (r: bv8)
    requires stopHBits <= 6
  {
    HalfBit(bs, stopHBits, 0) | (HalfBit(bs, stopHBits, 1) << 1) | (HalfBit(bs, stopHBits, 2) << 2)
    | (HalfBit(bs, stopHBits, 3) << 3) | (HalfBit(bs, stopHBits, 4) << 4)
  }

  /** Setting bit m above a value below 2^m keeps the bits below m. */
  lemma OrBit(r: bv8, b: bv8, m: bv8, j: bv8)
    requires m < 5 && r < 1 << m && b <= 1 && j <= m
    ensures CodeBit(r | (b << m), j) == if j < m then CodeBit(r, j) else b == 1
  {
  }

  /** Bit j of the code is the half-bit stopHBits + 2j, and there is
   *  nothing above bit 4. */
  lemma CodeBits(bs: bv16, stopHBits: bv16)
    requires stopHBits <= 6
    ensures CodeOf(bs, stopHBits) < 32
    ensures forall j: bv8 :: j < 5 ==> CodeBit(CodeOf(bs, stopHBits), j) == Bit(bs, stopHBits + 2 * j as bv16)
  {
    var h0, h1, h2 := HalfBit(bs, stopHBits, 0), HalfBit(bs, stopHBits, 1), HalfBit(bs, stopHBits, 2);
    var h3, h4 := HalfBit(bs, stopHBits, 3), HalfBit(bs, stopHBits, 4);
    var c := CodeOf(bs, stopHBits);
    assert c == h0 | (h1 << 1) | (h2 << 2) | (h3 << 3) | (h4 << 4);
    assert CodeBit(c, 0) == (h0 == 1) && CodeBit(c, 1) == (h1 == 1) && CodeBit(c, 2) == (h2 == 1);
    assert CodeBit(c, 3) == (h3 == 1) && CodeBit(c, 4) == (h4 == 1);
  }

  /** The unpacking loop of `process`. */
  method Unpack(bs: bv16, stopHBits: bv16) returns (code: bv8)
    requires stopHBits <= 6
    ensures code == CodeOf(bs, stopHBits) && code < 32
  {
    code := 0;
    var j: bv8 := 0;
    while j < 5
      invariant j <= 5 && code < 1 << j
      invariant forall k: bv8 :: k < j ==> CodeBit(code, k) == Bit(bs, stopHBits + 2 * k as bv16)
    {
      var shift := stopHBits + 2 * j as bv16;
      var b: bv8 := if Bit(bs, shift) then 1 else 0;
      var next := code | (b << j);
      forall k: bv8 | k <= j
        ensures CodeBit(next, k) == Bit(bs, stopHBits + 2 * k as bv16)
      {
        OrBit(code, b, j, k);
      }
      code := next;
      j := j + 1;
    }
    CodeBits(bs, stopHBits);
    SameCode(code, CodeOf(bs, stopHBits));
  }

  // ---------------------------------------------------------------
  // The decoder (src/baudot.cc:85-111)
  // ---------------------------------------------------------------

  /** `_bitstream`, `_bitcount` and `_mode`. */
  datatype Rx = Rx(bitstream: bv16, bitcount: nat, mode: Mode)

  /** Whether the register shows a frame: enough half-bits since the last
   *  character, and the framing half-bits in place. */
  predicate Framed(f: Framing, s: Rx)
  {
    f.bitsPerSymbol <= s.bitcount && s.bitstream & f.mask == f.pattern
  }

  datatype Stepped = Stepped(next: Rx, out: Option<char>)

  /** One iteration of `process`'s loop. */
  function Step(f: Framing, s: Rx, b: bool): (r: Stepped)
    requires Shaped(f)
  {
    var t := s.(bitstream := Push(s.bitstream, b), bitcount := s.bitcount + 1);
    if Framed(f, t) then
      var d := Decode(t.mode, CodeOf(t.bitstream, f.stopHBits));
      Stepped(Rx(t.bitstream, 0, d.mode), d.out)
    else Stepped(t, None)
  }

  datatype Fed = Fed(state: Rx, out: seq<char>)

  /** `process` on the half-bits hs: the final state and the characters
   *  written. */
  function Feed(f: Framing, s: Rx, hs: seq<bool>): (r: Fed)
    requires Shaped(f)
  {
    if |hs| == 0 then Fed(s, [])
    else
      var n := |hs| - 1;
      var p := Feed(f, s, hs[..n]);
      var t := Step(f, p.state, hs[n]);
      Fed(t.next, p.out + (if t.out.Some? then [t.out.value] else []))
  }

  /** The register after a feed is the half-bits fed, whatever else
   *  happened. */
  lemma {:induction false} FeedRegister(f: Framing, s: Rx, hs: seq<bool>)
    requires Shaped(f)
    ensures Feed(f, s, hs).state.bitstream == PushAll(s.bitstream, hs)
  {
    if |hs| > 0 {
      FeedRegister(f, s, hs[..|hs| - 1]);
    }
  }

  lemma {:induction false} FeedAppend(f: Framing, s: Rx, a: seq<bool>, b: seq<bool>)
    requires Shaped(f)
    ensures var p := Feed(f, s, a); var q := Feed(f, p.state, b);
      Feed(f, s, a + b) == Fed(q.state, p.out + q.out)
  {
    if |b| > 0 {
      var n := |b| - 1;
      assert (a + b)[..|a + b| - 1] == a + b[..n];
      FeedAppend(f, s, a, b[..n]);
      assert (a + b)[|a + b| - 1] == b[n];
      var p := Feed(f, s, a);
      var q := Feed(f, p.state, b[..n]);
      var t := Step(f, q.state, b[n]);
      var o := if t.out.Some? then [t.out.value] else [];
      assert (p.out + q.out) + o == p.out + (q.out + o);
    } else {
      assert a + b == a;
    }
  }

  /** Characters come at least bitsPerSymbol half-bits apart, and the first
   *  one needs at least one half-bit: the k > 0 characters written from
   *  the half-bits hs and the counter c after the last one satisfy
   *  (k - 1) * bitsPerSymbol + 1 + c <= |hs|. */
  lemma {:induction false} FeedSpacing(f: Framing, s: Rx, hs: seq<bool>)
    requires Shaped(f)
    ensures var r := Feed(f, s, hs);
      |r.out| > 0 ==> (|r.out| - 1) * f.bitsPerSymbol + 1 + r.state.bitcount <= |hs|
  {
    if |hs| > 0 {
      var n := |hs| - 1;
      FeedSpacing(f, s, hs[..n]);
      var p := Feed(f, s, hs[..n]);
      var t := Step(f, p.state, hs[n]);
      if t.out.Some? && |p.out| > 0 {
        MulSucc(|p.out| - 1, f.bitsPerSymbol);
      }
    }
  }

  /** k characters written at that spacing from at most limit half-bits
   *  number at most limit / bitsPerSymbol + 1. */
  lemma SpacingBound(k: nat, b: nat, c: nat, n: nat, limit: nat)
    requires b > 0 && k > 0 && (k - 1) * b + 1 + c <= n <= limit
    ensures k <= limit / b + 1
  {
    DivLower(k - 1, b, limit);
  }

  /** The size of the output buffer `config` should allocate for input
   *  buffers of up to n half-bits. */
  function OutputSize(n: nat, f: Framing): nat
    requires f.bitsPerSymbol > 0
  {
    n / f.bitsPerSymbol + 1
  }

  /** No input of up to n half-bits writes more than OutputSize(n)
   *  characters, whatever the state it starts in. */
  lemma OutputFits(f: Framing, s: Rx, hs: seq<bool>, n: nat)
    requires Shaped(f) && |hs| <= n
    ensures |Feed(f, s, hs).out| <= OutputSize(n, f)
  {
    FeedSpacing(f, s, hs);
    var r := Feed(f, s, hs);
    if |r.out| > 0 {
      SpacingBound(|r.out|, f.bitsPerSymbol, r.state.bitcount, |hs|, n);
    }
  }

  /** A half-bit that writes a character after the half-bits hs still
   *  finds room in an output buffer of OutputSize(n) when at most n
   *  half-bits are fed in all. */
  lemma StepFits(f: Framing, s: Rx, hs: seq<bool>, b: bool, n: nat)
    requires Shaped(f) && |hs| < n
    ensures var p := Feed(f, s, hs);
      Step(f, p.state, b).out.Some? ==> |p.out| < OutputSize(n, f)
  {
    var hs' := hs + [b];
    assert hs'[..|hs|] == hs;
    OutputFits(f, s, hs', n);
  }

  /** A half-bit that writes a character in the middle of hs leaves room
   *  for it in any buffer that holds everything hs decodes to. */
  lemma PrefixFits(f: Framing, s: Rx, hs: seq<bool>, i: nat)
    requires Shaped(f) && i < |hs|
    ensures var p := Feed(f, s, hs[..i]);
      Step(f, p.state, hs[i]).out.Some? ==> |p.out| < |Feed(f, s, hs).out|
  {
    assert hs[..i + 1][..i] == hs[..i];
    FeedAppend(f, s, hs[..i + 1], hs[i + 1..]);
    assert hs[..i + 1] + hs[i + 1..] == hs;
  }

  /** One more half-bit of hs: the step it takes from the state before
   *  it, and room for the character it writes in a buffer of `room`
   *  characters, allocated for all of hs or for any n half-bits. */
  lemma FeedNext(f: Framing, s: Rx, hs: seq<bool>, i: nat, room: nat, whole: bool, n: nat)
    requires Shaped(f) && i < |hs|
    requires if whole then |Feed(f, s, hs).out| <= room else |hs| <= n && room == OutputSize(n, f)
    ensures var p := Feed(f, s, hs[..i]);
      var t := Step(f, p.state, hs[i]);
      Feed(f, s, hs[..i + 1]) == Fed(t.next, p.out + (if t.out.Some? then [t.out.value] else []))
      && (t.out.Some? ==> |p.out| < room)
  {
    assert hs[..i + 1][..i] == hs[..i];
    if whole {
      PrefixFits(f, s, hs, i);
    } else {
      StepFits(f, s, hs[..i], hs[i], n);
    }
  }

  // ---------------------------------------------------------------
  // Frames
  // ---------------------------------------------------------------

  /** Half-bit p of the frame of code c, p = 0 being the newest: zeros below
   *  the code bits, code bit j at half-bits stopHBits + 2j and
   *  stopHBits + 2j + 1, and ones at the top. */
  predicate FrameBit(f: Framing, c: bv8, p: nat)
    requires Shaped(f)
  {
    var h := f.stopHBits as int;
    if p < h then false
    else if p >= h + 10 then true
    else CodeBit(c, ((p - h) / 2) as bv8)
  }

  /** The frame of code c, oldest half-bit first. */
  function Frame(f: Framing, c: bv8): (hs: seq<bool>)
    requires Shaped(f)
    ensures |hs| == f.bitsPerSymbol
  {
    var n := f.bitsPerSymbol;
    seq(n, i requires 0 <= i < n => FrameBit(f, c, n - 1 - i))
  }

  lemma FrameAt(f: Framing, c: bv8, p: nat)
    requires Shaped(f) && p < f.bitsPerSymbol
    ensures Frame(f, c)[f.bitsPerSymbol - 1 - p] == FrameBit(f, c, p)
  {
  }

  /** Fewer half-bits than a symbol since the last character never make a
   *  character. */
  lemma {:induction false} TooSoon(f: Framing, s: Rx, hs: seq<bool>)
    requires Shaped(f) && s.bitcount + |hs| < f.bitsPerSymbol
    ensures Feed(f, s, hs) == Fed(s.(bitstream := PushAll(s.bitstream, hs), bitcount := s.bitcount + |hs|), [])
  {
    if |hs| > 0 {
      TooSoon(f, s, hs[..|hs| - 1]);
    }
  }

  /** Whether the low bitsPerSymbol half-bits of x are the frame of c. */
  ghost predicate Holds(f: Framing, c: bv8, x: bv16)
    requires Shaped(f)
  {
    forall p: bv16 {:trigger Bit(x, p)} :: p as int < f.bitsPerSymbol ==> Bit(x, p) == FrameBit(f, c, p as int)
  }

  /** A register holding a frame matches the pattern under the mask. */
  lemma FramedBits(sb: StopBits, c: bv8, x: bv16)
    requires Holds(FramingOf(sb), c, x)
    ensures x & FramingOf(sb).mask == FramingOf(sb).pattern
  {
    var f := FramingOf(sb);
    var t := f.stopHBits + 10;
    assert Bit(x, 0) == FrameBit(f, c, 0) && Bit(x, 1) == FrameBit(f, c, 1);
    assert Bit(x, t) == FrameBit(f, c, t as int) && Bit(x, t + 1) == FrameBit(f, c, t as int + 1);
    if sb != Stop1 {
      assert Bit(x, 2) == FrameBit(f, c, 2);
    }
    if sb == Stop2 {
      assert Bit(x, 3) == FrameBit(f, c, 3);
    }
  }

  /** Two codes below 32 with the same five bits are equal. */
  lemma SameCode(a: bv8, b: bv8)
    requires a < 32 && b < 32
    requires forall j: bv8 :: j < 5 ==> CodeBit(a, j) == CodeBit(b, j)
    ensures a == b
  {
    assert CodeBit(a, 0) == CodeBit(b, 0) && CodeBit(a, 1) == CodeBit(b, 1) && CodeBit(a, 2) == CodeBit(b, 2);
    assert CodeBit(a, 3) == CodeBit(b, 3) && CodeBit(a, 4) == CodeBit(b, 4);
  }

  /** Code bit j is the frame's half-bit stopHBits + 2j. */
  lemma FrameCodeBit(f: Framing, c: bv8, j: bv8)
    requires Shaped(f) && j < 5
    ensures FrameBit(f, c, f.stopHBits as int + 2 * j as int) == CodeBit(c, j)
  {
    var h := f.stopHBits as int;
    assert (h + 2 * j as int - h) / 2 == j as int;
  }

  /** Code bit j sits at half-bit stopHBits + 2j of a register holding
   *  the frame. */
  lemma HoldsCodeBit(f: Framing, c: bv8, x: bv16, j: bv8)
    requires Shaped(f) && Holds(f, c, x) && j < 5
    ensures Bit(x, f.stopHBits + 2 * j as bv16) == CodeBit(c, j)
  {
    var p := f.stopHBits + 2 * j as bv16;
    assert p as int == f.stopHBits as int + 2 * j as int;
    assert Bit(x, p) == FrameBit(f, c, p as int);
    FrameCodeBit(f, c, j);
  }

  /** The register holding a frame of code c gives back the code c. */
  lemma FrameCode(sb: StopBits, c: bv8, x: bv16)
    requires c < 32 && Holds(FramingOf(sb), c, x)
    ensures CodeOf(x, FramingOf(sb).stopHBits) == c
  {
    var f := FramingOf(sb);
    var y := CodeOf(x, f.stopHBits);
    CodeBits(x, f.stopHBits);
    forall j: bv8 | j < 5
      ensures CodeBit(y, j) == CodeBit(c, j)
    {
      HoldsCodeBit(f, c, x, j);
    }
    SameCode(y, c);
  }

  /** After the frame of c, half-bit p of the register is FrameBit(p). */
  lemma FrameHoldsAt(f: Framing, c: bv8, bs: bv16, p: bv16)
    requires Shaped(f) && p as int < f.bitsPerSymbol
    ensures Bit(PushAll(bs, Frame(f, c)), p) == FrameBit(f, c, p as int)
  {
    PushAllBit(bs, Frame(f, c), p);
    FrameAt(f, c, p as int);
  }

  /** After the frame of c, the register holds that frame. */
  lemma FrameHolds(f: Framing, c: bv8, bs: bv16)
    requires Shaped(f)
    ensures Holds(f, c, PushAll(bs, Frame(f, c)))
  {
    forall p: bv16 | p as int < f.bitsPerSymbol
      ensures Bit(PushAll(bs, Frame(f, c)), p) == FrameBit(f, c, p as int)
    {
      FrameHoldsAt(f, c, bs, p);
    }
  }

  /** After the frame of c, the register matches the pattern and holds
   *  the code c. */
  lemma FrameRegister(sb: StopBits, c: bv8, bs: bv16)
    requires c < 32
    ensures var f := FramingOf(sb); var x := PushAll(bs, Frame(f, c));
      x & f.mask == f.pattern && CodeOf(x, f.stopHBits) == c
  {
    var f := FramingOf(sb);
    var x := PushAll(bs, Frame(f, c));
    FrameHolds(f, c, bs);
    FramedBits(sb, c, x);
    FrameCode(sb, c, x);
  }

  /** Round trip: right after a character, the frame of a code decodes to
   *  that code, so it writes exactly what Decode says and leaves the
   *  counter at 0. */
  lemma FrameDecodes(sb: StopBits, s: Rx, c: bv8)
    requires c < 32 && s.bitcount == 0
    ensures var f := FramingOf(sb); var d := Decode(s.mode, c);
      Feed(f, s, Frame(f, c)) == Fed(Rx(PushAll(s.bitstream, Frame(f, c)), 0, d.mode), if d.out.Some? then [d.out.value] else [])
  {
    var f := FramingOf(sb);
    var hs := Frame(f, c);
    var n := |hs| - 1;
    TooSoon(f, s, hs[..n]);
    FrameRegister(sb, c, s.bitstream);
  }

  /** Feeding four frames right after a character writes four characters
   *  when none of the codes is a shift code. */
  lemma FourFrames(sb: StopBits, s: Rx, c: bv8)
    requires c < 32 && c != ShiftLetters && c != ShiftFigures && s.bitcount == 0
    ensures var f := FramingOf(sb); var h := Frame(f, c);
      |Feed(f, s, h + h + h + h).out| == 4
  {
    var f := FramingOf(sb);
    var h := Frame(f, c);
    FrameDecodes(sb, s, c);
    var s1 := Feed(f, s, h).state;
    FrameDecodes(sb, s1, c);
    FeedAppend(f, s, h, h);
    var s2 := Feed(f, s1, h).state;
    FrameDecodes(sb, s2, c);
    FeedAppend(f, s, h + h, h);
    var s3 := Feed(f, s2, h).state;
    FrameDecodes(sb, s3, c);
    FeedAppend(f, s, h + h + h, h);
  }

  /** The output size `config` allocates as written. */
  function OutputSizeAsWritten(n: nat, f: Framing): nat
    requires f.bitsPerSymbol > 0
  {
    n / (2 * f.bitsPerSymbol) + 1
  }

  /** With one stop bit and 56-half-bit buffers the buffer allocated as
   *  written holds 3 characters, but four frames of code 0 decode to 4:
   *  the fourth write is out of bounds. */
  lemma OverflowAsWritten(s: Rx)
    requires s.bitcount == 0
    ensures var f := FramingOf(Stop1); var h := Frame(f, 0);
      |h + h + h + h| == 56 && OutputSizeAsWritten(56, f) == 3
      && |Feed(f, s, h + h + h + h).out| == 4 > OutputSizeAsWritten(56, f)
  {
    FourFrames(Stop1, s, 0);
  }

  // ---------------------------------------------------------------
  // The node (src/baudot.cc:23-111)
  // ---------------------------------------------------------------

  /** The Baudot node. `limit` is the buffer size of the last configuration,
   *  the longest input buffer the node accepts; the output buffer is
   *  allocated for it, with the size the code computes when asWritten
   *  holds and with the intended one otherwise. */
  class BaudotNode {
    const framing: Framing
    const asWritten: bool
    var bitstream: bv16
    var bitcount: nat
    var mode: Mode
    var limit: nat
    var buffer: array<char>

    ghost function State(): Rx
      reads this
    {
      Rx(bitstream, bitcount, mode)
    }

    ghost predicate Valid()
      reads this
    {
      (exists sb :: framing == FramingOf(sb))
      && (limit == 0 || buffer.Length == Size(limit))
    }

    /** The output size for input buffers of up to n half-bits. */
    function Size(n: nat): nat
      reads this
      requires framing.bitsPerSymbol > 0
    {
      if asWritten then OutputSizeAsWritten(n, framing) else OutputSize(n, framing)
    }

    /** The constructor picks the framing and starts in letters mode; the
     *  register and counter start cleared, as `config` leaves them. */
    constructor (stopBits: StopBits, asWritten: bool)
      ensures Valid() && framing == FramingOf(stopBits) && this.asWritten == asWritten
      ensures State() == Rx(0, 0, Letters) && limit == 0
    {
      framing := FramingOf(stopBits);
      this.asWritten := asWritten;
      bitstream, bitcount, mode := 0, 0, Letters;
      limit := 0;
      buffer := new char[0];
    }

    /** `config`: ignored without a type; a type other than `uint8_t` is a
     *  `ConfigError`; otherwise the register and counter are cleared (the
     *  mode is kept), the output buffer is allocated for the configured
     *  buffer size and the output configuration is published. */
    method Configure(c: Config) returns (r: Result<Option<Config>>)
      requires Valid()
      modifies this`bitstream, this`bitcount, this`limit, this`buffer
      ensures Valid()
      ensures !c.HasType() ==> r == Ok(None) && State() == old(State()) && limit == old(limit)
      ensures c.HasType() && c.sampleType != UInt8 ==> r == Err(ConfigError) && State() == old(State()) && limit == old(limit)
      ensures c.sampleType == UInt8 ==>
        && r == Ok(Some(Config(UInt8, 0.0, if asWritten then OutputSizeAsWritten(c.bufferSize, framing) else OutputSize(c.bufferSize, framing), 1)))
        && buffer.Length == r.value.value.bufferSize
        && State() == Rx(0, 0, old(mode)) && limit == c.bufferSize && fresh(buffer)
    {
      if !c.HasType() {
        return Ok(None);
      }
      if c.sampleType != UInt8 {
        return Err(ConfigError);
      }
      bitstream, bitcount := 0, 0;
      var size := Size(c.bufferSize);
      limit := c.bufferSize;
      buffer := new char[size];
      r := Ok(Some(Config(UInt8, 0.0, size, 1)));
    }

    /** The decoding of a framed code: the mode it selects, and the
     *  character it writes at o, if any. */
    method Emit(code: bv8, o: nat) returns (next: nat)
      requires code < 32 && o <= buffer.Length
      requires Decode(mode, code).out.Some? ==> o < buffer.Length
      modifies this`mode, buffer
      ensures next <= buffer.Length
      ensures var d := Decode(old(mode), code);
        mode == d.mode && buffer[..next] == old(buffer[..o]) + (if d.out.Some? then [d.out.value] else [])
    {
      next := o;
      if code == ShiftLetters {
        mode := Letters;
      } else if code == ShiftFigures {
        mode := Figures;
      } else {
        if code == Space {
          mode := Letters;
        }
        if mode == Letters {
          buffer[o] := LetterTable()[code];
        } else {
          buffer[o] := FigureTable()[code];
        }
        next := o + 1;
      }
    }

    /** One iteration of `process`'s loop: the character decoded, if any,
     *  is written at o, which the caller has room for. */
    method ProcessBit(x: bv8, o: nat) returns (next: nat)
      requires Valid() && o <= buffer.Length
      requires Step(framing, State(), x & 1 == 1).out.Some? ==> o < buffer.Length
      modifies this`bitstream, this`bitcount, this`mode, buffer
      ensures Valid() && next <= buffer.Length
      ensures var t := Step(framing, old(State()), x & 1 == 1);
        State() == t.next && buffer[..next] == old(buffer[..o]) + (if t.out.Some? then [t.out.value] else [])
    {
      bitstream := Push(bitstream, x & 1 == 1);
      bitcount := bitcount + 1;
      next := o;
      if framing.bitsPerSymbol <= bitcount && bitstream & framing.mask == framing.pattern {
        bitcount := 0;
        var code := Unpack(bitstream, framing.stopHBits);
        next := Emit(code, o);
      }
    }

    /** `process`: the characters decoded from the buffer, sent only when
     *  there is at least one. With the size allocated as written, the
     *  characters must fit the buffer; otherwise the code writes past
     *  its end. */
    method Process(xs: seq<bv8>) returns (sent: Option<seq<char>>)
      requires Valid() && |xs| <= limit
      requires asWritten ==> |Feed(framing, State(), LowBits(xs)).out| <= buffer.Length
      modifies this`bitstream, this`bitcount, this`mode, buffer
      ensures Valid()
      ensures var r := Feed(framing, old(State()), LowBits(xs));
        State() == r.state && sent == (if |r.out| > 0 then Some(r.out) else None)
    {
      ghost var s0 := State();
      var o := 0;
      var i := 0;
      while i < |xs|
        invariant 0 <= i <= |xs| && Valid() && 0 <= o <= buffer.Length
        invariant Feed(framing, s0, LowBits(xs)[..i]) == Fed(State(), buffer[..o])
        invariant asWritten ==> |Feed(framing, s0, LowBits(xs)).out| <= buffer.Length
        invariant Shaped(framing)
      {
        FeedNext(framing, s0, LowBits(xs), i, buffer.Length, asWritten, limit);
        o := ProcessBit(xs[i], o);
        i := i + 1;
      }
      assert LowBits(xs)[..i] == LowBits(xs);
      if 0 < o {
        sent := Some(buffer[..o]);
      } else {
        sent := None;
      }
    }
  }
}
