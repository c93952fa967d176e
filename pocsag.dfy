/** The POCSAG pager decoder (src/pocsag.cc, src/pocsag.hh): a 64-bit shift
 * register fed one bit per input byte, the WAIT / RECEIVE / CHECK_CONTINUE
 * state machine of a POCSAG batch (a sync word followed by 8 frames of two
 * codewords, ITU-R Recommendation M.584, Annex 1), and the decoding of
 * address and message codewords into the messages of the 8 frames.
 *
 * Words are the 32-bit words of the BCH module (w[i] is bit i); the shift
 * register is a sequence of 64 bits in the same order. */
module Pocsag {
  import opened Common
  import opened NodeConfig
  import Bch

  type Word = Bch.Word

  // ---------------------------------------------------------------
  // Bits and numbers
  // ---------------------------------------------------------------

  /** The number a sequence of bits stands for, bit i weighing 2^i. */
  function Value(s: seq<bool>): nat
  {
    if |s| == 0 then 0 else (if s[0] then 1 else 0) + 2 * Value(s[1..])
  }

  /** The k low bits of n, least significant first. */
  function Bits(n: nat, k: nat): (r: seq<bool>)
    ensures |r| == k
  {
    if k == 0 then [] else [n % 2 == 1] + Bits(n / 2, k - 1)
  }

  lemma {:induction false} ValueBound(s: seq<bool>)
    ensures Value(s) < Pow2(|s|)
  {
    if |s| > 0 {
      ValueBound(s[1..]);
    }
  }

  /** n mod 2P splits into the low bit of n and (n / 2) mod P. */
  lemma ModDouble(n: nat, p: nat)
    requires p > 0
    ensures n % (2 * p) == n % 2 + 2 * ((n / 2) % p)
  {
    var q, r := (n / 2) / p, (n / 2) % p;
    assert n / 2 == q * p + r;
    assert n == q * (2 * p) + (2 * r + n % 2);
    DivUnique(q, 2 * r + n % 2, 2 * p, n);
  }

  /** Bits reads back the value it was built from, modulo 2^k. */
  lemma {:induction false} ValueOfBits(n: nat, k: nat)
    ensures Value(Bits(n, k)) == n % Pow2(k)
  {
    if k > 0 {
      var b := Bits(n, k);
      assert b[1..] == Bits(n / 2, k - 1);
      ValueOfBits(n / 2, k - 1);
      ModDouble(n, Pow2(k - 1));
    }
  }

  /** Bits rebuilds a bit sequence from its value. */
  lemma {:induction false} BitsOfValue(s: seq<bool>)
    ensures Bits(Value(s), |s|) == s
  {
    if |s| > 0 {
      var v := Value(s[1..]);
      assert Value(s) == (if s[0] then 1 else 0) + 2 * v;
      assert Value(s) / 2 == v && Value(s) % 2 == (if s[0] then 1 else 0);
      BitsOfValue(s[1..]);
    }
  }

  /** The value of s is that of its first k bits plus 2^k times the rest. */
  lemma {:induction false} ValueSplit(s: seq<bool>, k: nat)
    requires k <= |s|
    ensures Value(s) == Value(s[..k]) + Pow2(k) * Value(s[k..])
  {
    if k > 0 {
      ValueSplit(s[1..], k - 1);
      assert s[..k][1..] == s[1..][..k - 1];
      assert s[1..][k - 1..] == s[k..];
      var b := if s[0] then 1 else 0;
      var a, p, v := Value(s[1..][..k - 1]), Pow2(k - 1), Value(s[k..]);
      assert Value(s[1..]) == a + p * v;
      assert Value(s[..k]) == b + 2 * a;
      Double(p, v);
    }
  }

  lemma Double(p: nat, v: nat)
    ensures (2 * p) * v == 2 * (p * v)
  {
  }

  lemma Pow2Values()
    ensures Pow2(2) == 4 && Pow2(8) == 0x100 && Pow2(18) == 0x4_0000
    ensures Pow2(31) == 0x8000_0000 && Pow2(32) == 0x1_0000_0000
  {
    assert Pow2(2) == 4;
    assert Pow2(4) == 16;
    assert Pow2(6) == 64;
    assert Pow2(8) == 0x100;
    assert Pow2(10) == 0x400;
    assert Pow2(12) == 0x1000;
    assert Pow2(14) == 0x4000;
    assert Pow2(16) == 0x1_0000;
    assert Pow2(18) == 0x4_0000;
    assert Pow2(20) == 0x10_0000;
    assert Pow2(22) == 0x40_0000;
    assert Pow2(24) == 0x100_0000;
    assert Pow2(26) == 0x400_0000;
    assert Pow2(28) == 0x1000_0000;
    assert Pow2(30) == 0x4000_0000;
  }

  /** The sync word 0x7CD215D8 that starts every batch, bit 0 first. */
  function SyncWord(): Word
  {
    [false, false, false, true, true, false, true, true,
     true, false, true, false, true, false, false, false,
     false, true, false, false, true, false, true, true,
     false, false, true, true, true, true, true, false]
  }

  /** The idle codeword 0x7A89C197 sent in unused slots, bit 0 first. */
  function IdleWord(): Word
  {
    [true, true, true, false, true, false, false, true,
     true, false, false, false, false, false, true, true,
     true, false, false, true, false, false, false, true,
     false, true, false, true, true, true, true, false]
  }

  /** The value of s[k..] from its first bit and the rest. */
  lemma ValueDrop(s: seq<bool>, k: nat)
    requires k < |s|
    ensures Value(s[k..]) == (if s[k] then 1 else 0) + 2 * Value(s[k + 1..])
  {
    assert s[k..][1..] == s[k + 1..];
  }

  /** Eight bits of s from k on, and what follows them. */
  lemma ValueByte(s: seq<bool>, k: nat)
    requires k + 8 <= |s|
    ensures Value(s[k..]) == (if s[k + 0] then 1 else 0) + (if s[k + 1] then 2 else 0) + (if s[k + 2] then 4 else 0) + (if s[k + 3] then 8 else 0)
      + (if s[k + 4] then 16 else 0) + (if s[k + 5] then 32 else 0) + (if s[k + 6] then 64 else 0) + (if s[k + 7] then 128 else 0)
      + 256 * Value(s[k + 8..])
  {
    ValueDrop(s, k + 7);
    ValueDrop(s, k + 6);
    ValueDrop(s, k + 5);
    ValueDrop(s, k + 4);
    ValueDrop(s, k + 3);
    ValueDrop(s, k + 2);
    ValueDrop(s, k + 1);
    ValueDrop(s, k);
  }

  /** The word SyncWord spells out, bit 0 first, is 0x7CD215D8. */
  lemma SyncValue(s: Word)
    requires !s[0] && !s[1] && !s[2] && s[3] && s[4] && !s[5] && s[6] && s[7]
    requires s[8] && !s[9] && s[10] && !s[11] && s[12] && !s[13] && !s[14] && !s[15]
    requires !s[16] && s[17] && !s[18] && !s[19] && s[20] && !s[21] && s[22] && s[23]
    requires !s[24] && !s[25] && s[26] && s[27] && s[28] && s[29] && s[30] && !s[31]
    ensures Value(s) == 0x7CD215D8
  {
    assert s[32..] == [] && s[0..] == s;
    ValueByte(s, 24);
    ValueByte(s, 16);
    ValueByte(s, 8);
    ValueByte(s, 0);
  }

  /** The word IdleWord spells out, bit 0 first, is 0x7A89C197. */
  lemma IdleValue(s: Word)
    requires s[0] && s[1] && s[2] && !s[3] && s[4] && !s[5] && !s[6] && s[7]
    requires s[8] && !s[9] && !s[10] && !s[11] && !s[12] && !s[13] && s[14] && s[15]
    requires s[16] && !s[17] && !s[18] && s[19] && !s[20] && !s[21] && !s[22] && s[23]
    requires !s[24] && s[25] && !s[26] && s[27] && s[28] && s[29] && s[30] && !s[31]
    ensures Value(s) == 0x7A89C197
  {
    assert s[32..] == [] && s[0..] == s;
    ValueByte(s, 24);
    ValueByte(s, 16);
    ValueByte(s, 8);
    ValueByte(s, 0);
  }

  lemma WordConstants()
    ensures SyncWord() != IdleWord()
  {
    assert SyncWord()[0] != IdleWord()[0];
  }

  // ---------------------------------------------------------------
  // Codewords (src/pocsag.cc:6-8, 89-111)
  // ---------------------------------------------------------------

  /** `is_address`: bit 31, the flag of a message codeword, is clear. */
  predicate IsAddress(w: Word)
  {
    !w[31]
  }

  /** An address codeword is a word below 2^31. */
  lemma IsAddressBelow(w: Word)
    ensures IsAddress(w) <==> Value(w) < 0x8000_0000
  {
    Pow2Values();
    ValueSplit(w, 31);
    ValueBound(w[..31]);
    assert Value(w[31..]) == if w[31] then 1 else 0 by {
      assert w[31..][1..] == [];
    }
  }

  /** `(word >> 13) & 0x3ffff`: the 18 address bits 13 .. 30. */
  function AddressField(w: Word): nat
  {
    Value(w[13..31])
  }

  /** `(word >> 11) & 0x03`: the two function bits 11 and 12. */
  function Function(w: Word): nat
  {
    Value(w[11..13])
  }

  /** The address as the code computes it, `(field << 3) | (slot & 0x03)`:
   *  the field shifted up by three (below 2^21, so nothing is lost) with
   *  the two low bits of the frame number below it. */
  function AddressAsWritten(w: Word, slot: nat): nat
  {
    AddressField(w) * 8 + slot % 4
  }

  /** Frames 4 .. 7 yield the address of frame slot - 4: the third bit of
   *  the frame number is lost, so no address ever ends in 4 .. 7. */
  lemma AddressDropsFrameBit(w: Word, slot: nat)
    requires slot < 8
    ensures AddressAsWritten(w, slot) % 8 == slot % 4
    ensures 4 <= slot ==> AddressAsWritten(w, slot) == AddressAsWritten(w, slot - 4)
    ensures AddressAsWritten(w, slot) == Address(w, slot) <==> slot < 4
  {
    DivUnique(AddressField(w), slot % 4, 8, AddressAsWritten(w, slot));
  }

  /** The pager address: the 18 address bits followed by the three bits of
   *  the frame number, `(field << 3) | (slot & 0x07)`. */
  function Address(w: Word, slot: nat): nat
  {
    AddressField(w) * 8 + slot % 8
  }

  /** The address field and the frame both read back from the address, and
   *  the address and function fit their 21 and 2 bits. */
  lemma AddressFields(w: Word, slot: nat)
    requires slot < 8
    ensures Address(w, slot) / 8 == AddressField(w) && Address(w, slot) % 8 == slot
    ensures Address(w, slot) < 0x20_0000 && Function(w) < 4
  {
    DivUnique(AddressField(w), slot, 8, Address(w, slot));
    Pow2Values();
    ValueBound(w[13..31]);
    ValueBound(w[11..13]);
  }

  // ---------------------------------------------------------------
  // Messages (src/pocsag.cc:153-194)
  // ---------------------------------------------------------------

  /** `POCSAG::Message`. The library copies messages by value (into the
   *  frame table and the output queue), so a message is a datatype. */
  datatype Message = Message(address: nat, func: nat, empty: bool, bits: nat, payload: seq<int>)

  /** The empty constructor. */
  function NoMessage(): Message
  {
    Message(0, 0, true, 0, [])
  }

  /** The constructor from an address and a function. */
  function NewMessage(address: nat, func: nat): Message
  {
    Message(address, func, false, 0, [])
  }

  /** The payload holds one byte per started group of 8 bits. */
  predicate WellFormed(m: Message)
  {
    |m.payload| == (m.bits + 7) / 8
  }

  /** One bit entering a payload that already holds `count` bits: a byte
   *  0 is appended when count is a multiple of 8, then the last byte
   *  becomes `(last << 1) | v` truncated to 8 bits. Every v that enters has
   *  no bit in common with last << 1 (it is 0, 1, or a single bit at or
   *  above bit 11), so the or is a sum. */
  function Append(p: seq<int>, count: nat, v: nat): (r: seq<int>)
    requires count % 8 != 0 ==> |p| > 0
    ensures |r| == if count % 8 == 0 then |p| + 1 else |p|
  {
    if count % 8 == 0 then p + [v % 256] else p[..|p| - 1] + [(2 * p[|p| - 1] + v) % 256]
  }

  /** One step of `addPayload`'s loop: a new byte on a byte boundary,
   *  then the bit or-ed into the last byte. */
  method AddBit(p: seq<int>, count: nat, v: nat) returns (q: seq<int>)
    requires count % 8 != 0 ==> |p| > 0
    ensures q == Append(p, count, v)
  {
    q := p;
    if count % 8 == 0 {
      q := q + [0];
      assert q[..|q| - 1] == p;
    }
    q := q[..|q| - 1] + [(2 * q[|q| - 1] + v) % 256];
  }

  /** The bits vs entering one after the other. */
  function Feed(p: seq<int>, count: nat, vs: seq<nat>): (r: seq<int>)
    requires count % 8 != 0 ==> |p| > 0
    ensures |r| >= |p| && (|vs| > 0 ==> |r| > 0)
  {
    if |vs| == 0 then p
    else Append(Feed(p, count, vs[..|vs| - 1]), count + |vs| - 1, vs[|vs| - 1])
  }

  /** A well-formed payload stays well-formed: one byte per started group
   *  of 8 bits. */
  lemma {:induction false} FeedLength(p: seq<int>, count: nat, vs: seq<nat>)
    requires |p| == (count + 7) / 8
    ensures |Feed(p, count, vs)| == (count + |vs| + 7) / 8
  {
    if |vs| > 0 {
      FeedLength(p, count, vs[..|vs| - 1]);
    }
  }

  lemma FeedStep(p: seq<int>, count: nat, vs: seq<nat>, i: nat)
    requires (count % 8 != 0 ==> |p| > 0) && i < |vs|
    ensures Feed(p, count, vs[..i + 1]) == Append(Feed(p, count, vs[..i]), count + i, vs[i])
  {
    assert vs[..i + 1][..i] == vs[..i];
  }

  /** The 20 data bits of a message codeword, bit 30 first. */
  function DataBits(w: Word): (r: seq<bool>)
    ensures |r| == 20
  {
    seq(20, i requires 0 <= i < 20 => w[30 - i])
  }

  /** The data bit entering the payload at step i of `addPayload`: 1 when
   *  `word & mask` is non-zero. */
  function DataBit(w: Word, i: nat): nat
    requires i < 20
  {
    if w[30 - i] then 1 else 0
  }

  function DataLevels(w: Word): (r: seq<nat>)
    ensures |r| == 20
  {
    seq(20, i requires 0 <= i < 20 => DataBit(w, i))
  }

  function Levels(s: seq<bool>): (r: seq<nat>)
    ensures |r| == |s|
  {
    seq(|s|, i requires 0 <= i < |s| => if s[i] then 1 else 0)
  }

  /** `word & mask` at step i of `addPayload`, mask being 0x40000000 >> i. */
  function MaskBit(w: Word, i: nat): nat
    requires i < 20
  {
    if w[30 - i] then Pow2(30 - i) else 0
  }

  /** What the code ors into the byte at each of the 20 steps. */
  function MaskLevels(w: Word): (r: seq<nat>)
    ensures |r| == 20
  {
    seq(20, i requires 0 <= i < 20 => MaskBit(w, i))
  }

  /** The message after `addPayload` as written. */
  function PayloadedAsWritten(m: Message, w: Word): (r: Message)
    requires WellFormed(m)
    ensures WellFormed(r)
  {
    FeedLength(m.payload, m.bits, MaskLevels(w));
    m.(bits := m.bits + 20, payload := Feed(m.payload, m.bits, MaskLevels(w)))
  }

  /** The message after `addPayload` with the data bit itself entering
   *  each byte. */
  function Payloaded(m: Message, w: Word): (r: Message)
    requires WellFormed(m)
    ensures WellFormed(r)
  {
    FeedLength(m.payload, m.bits, DataLevels(w));
    m.(bits := m.bits + 20, payload := Feed(m.payload, m.bits, DataLevels(w)))
  }

  /** `addPayload` as written. */
  method AddPayloadAsWritten(m: Message, w: Word) returns (r: Message)
    requires WellFormed(m)
    ensures WellFormed(r) && r == PayloadedAsWritten(m, w)
  {
    var bits, payload := m.bits, m.payload;
    var i := 0;
    while i < 20
      invariant 0 <= i <= 20 && bits == m.bits + i
      invariant payload == Feed(m.payload, m.bits, MaskLevels(w)[..i])
      invariant bits % 8 != 0 ==> |payload| > 0
    {
      FeedStep(m.payload, m.bits, MaskLevels(w), i);
      var v := MaskBit(w, i);
      payload := AddBit(payload, bits, v);
      bits := bits + 1;
      i := i + 1;
    }
    assert MaskLevels(w)[..20] == MaskLevels(w);
    FeedLength(m.payload, m.bits, MaskLevels(w));
    r := m.(bits := bits, payload := payload);
  }

  /** `addPayload` with `(word & mask) != 0` entering each byte. */
  method AddPayload(m: Message, w: Word) returns (r: Message)
    requires WellFormed(m)
    ensures WellFormed(r) && r == Payloaded(m, w)
  {
    var bits, payload := m.bits, m.payload;
    var i := 0;
    while i < 20
      invariant 0 <= i <= 20 && bits == m.bits + i
      invariant payload == Feed(m.payload, m.bits, DataLevels(w)[..i])
      invariant bits % 8 != 0 ==> |payload| > 0
    {
      FeedStep(m.payload, m.bits, DataLevels(w), i);
      var v := DataBit(w, i);
      payload := AddBit(payload, bits, v);
      bits := bits + 1;
      i := i + 1;
    }
    assert DataLevels(w)[..20] == DataLevels(w);
    FeedLength(m.payload, m.bits, DataLevels(w));
    r := m.(bits := bits, payload := payload);
  }

  lemma {:induction false} Pow2Bytes(k: nat)
    requires 8 <= k
    ensures Pow2(k) % 256 == 0
  {
    if k > 8 {
      Pow2Bytes(k - 1);
    }
  }

  lemma {:induction false} FeedZero(p: seq<int>, count: nat, vs: seq<nat>)
    requires |p| == (count + 7) / 8
    requires forall i :: 0 <= i < |p| ==> p[i] == 0
    requires forall i :: 0 <= i < |vs| ==> vs[i] % 256 == 0
    ensures forall i :: 0 <= i < |Feed(p, count, vs)| ==> Feed(p, count, vs)[i] == 0
  {
    if |vs| > 0 {
      FeedZero(p, count, vs[..|vs| - 1]);
    }
  }

  /** Every byte of the payload is 0. */
  predicate Zeroed(p: seq<int>)
  {
    forall i :: 0 <= i < |p| ==> p[i] == 0
  }

  /** As written, every payload byte stays 0: the bit or-ed in is at bit
   *  11 or above and is cut off when the result is stored in a byte. */
  lemma PayloadAsWrittenIsZero(m: Message, w: Word)
    requires WellFormed(m) && Zeroed(m.payload)
    ensures Zeroed(PayloadedAsWritten(m, w).payload)
  {
    forall i | 0 <= i < 20
      ensures MaskLevels(w)[i] % 256 == 0
    {
      Pow2Bytes(30 - i);
      assert MaskLevels(w)[i] == MaskBit(w, i);
    }
    FeedZero(m.payload, m.bits, MaskLevels(w));
  }

  /** The bits of t read as a number with the first one most significant. */
  function Msb(t: seq<bool>): nat
  {
    if |t| == 0 then 0 else 2 * Msb(t[..|t| - 1]) + (if t[|t| - 1] then 1 else 0)
  }

  lemma {:induction false} MsbBound(t: seq<bool>)
    ensures Msb(t) < Pow2(|t|)
  {
    if |t| > 0 {
      MsbBound(t[..|t| - 1]);
    }
  }

  /** A bit stream packed into bytes: each group of 8 bits is a byte with
   *  the first bit most significant; a last, partial group is a byte
   *  holding the bits received so far in its low bits. */
  function Packed(s: seq<bool>): (r: seq<int>)
    ensures |s| > 0 ==> |r| > 0
  {
    if |s| == 0 then []
    else if |s| <= 8 then [Msb(s)]
    else [Msb(s[..8])] + Packed(s[8..])
  }

  /** Append past a first complete byte leaves that byte alone. */
  lemma {:induction false} AppendAfterByte(x: int, p: seq<int>, count: nat, v: nat)
    requires 8 <= count && (count % 8 != 0 ==> |p| > 0)
    ensures Append([x] + p, count, v) == [x] + Append(p, count - 8, v)
  {
    if count % 8 != 0 {
      assert ([x] + p)[..|p|] == [x] + p[..|p| - 1];
    }
  }

  lemma {:induction false} PackedLength(s: seq<bool>)
    ensures |Packed(s)| == (|s| + 7) / 8
  {
    if |s| > 8 {
      PackedLength(s[8..]);
    }
  }

  lemma PackedOne(b: bool)
    ensures Packed([b]) == [if b then 1 else 0]
  {
    assert [b][..0] == [];
    assert Msb([b]) == 2 * Msb([]) + (if b then 1 else 0);
    assert Packed([b]) == [Msb([b])];
  }

  /** Fewer than 8 bits read most significant first fit below 128. */
  lemma MsbShort(u: seq<bool>)
    requires |u| < 8
    ensures Msb(u) < 128
  {
    MsbBound(u);
    Pow2Mono(|u|, 7);
    assert Pow2(7) == 128;
  }

  /** Append to a one-byte payload in the middle of that byte. */
  lemma AppendInByte(p: seq<int>, x: nat, count: nat, v: nat)
    requires p == [x] && 0 < count < 8 && 2 * x + v < 256
    ensures Append(p, count, v) == [2 * x + v]
  {
    assert count % 8 == count;
    assert p[..0] == [];
  }

  lemma {:induction false} MsbSnoc(u: seq<bool>, b: bool)
    ensures Msb(u + [b]) == 2 * Msb(u) + (if b then 1 else 0)
  {
    assert (u + [b])[..|u|] == u;
  }

  /** A bit added to a partial first byte. */
  lemma {:induction false} PackedShort(u: seq<bool>, b: bool)
    requires 0 < |u| < 8
    ensures Append(Packed(u), |u|, if b then 1 else 0) == Packed(u + [b])
  {
    MsbSnoc(u, b);
    MsbShort(u);
    assert Packed(u) == [Msb(u)];
    AppendInByte(Packed(u), Msb(u), |u|, if b then 1 else 0);
  }

  /** A bit added right after the first complete byte. */
  lemma {:induction false} PackedNinth(u: seq<bool>, b: bool)
    requires |u| == 8
    ensures Append(Packed(u), |u|, if b then 1 else 0) == Packed(u + [b])
  {
    var s := u + [b];
    assert s[..8] == u && s[8..] == [b];
    PackedOne(b);
  }

  /** The first complete byte is split off both sides. */
  lemma {:induction false} PackedSplit(u: seq<bool>, b: bool)
    requires |u| > 8
    ensures Packed(u) == [Msb(u[..8])] + Packed(u[8..])
    ensures Packed(u + [b]) == [Msb(u[..8])] + Packed(u[8..] + [b])
  {
    var s := u + [b];
    assert s[..8] == u[..8] && s[8..] == u[8..] + [b];
  }

  /** One more bit extends the packed stream. */
  lemma {:induction false} PackedAppend(u: seq<bool>, b: bool)
    ensures Append(Packed(u), |u|, if b then 1 else 0) == Packed(u + [b])
  {
    if |u| == 0 {
      assert u + [b] == [b];
      PackedOne(b);
    } else if |u| < 8 {
      PackedShort(u, b);
    } else if |u| == 8 {
      PackedNinth(u, b);
    } else {
      PackedSplit(u, b);
      PackedAppend(u[8..], b);
      AppendAfterByte(Msb(u[..8]), Packed(u[8..]), |u|, if b then 1 else 0);
    }
  }

  lemma {:induction false} Pow2Mono(a: nat, b: nat)
    requires a <= b
    ensures Pow2(a) <= Pow2(b)
  {
    if a < b {
      Pow2Mono(a, b - 1);
    }
  }

  /** The levels of t are those of t without its last bit, then that bit. */
  lemma LevelsLast(t: seq<bool>)
    requires |t| > 0
    ensures Levels(t)[..|t| - 1] == Levels(t[..|t| - 1])
    ensures Levels(t)[|t| - 1] == if t[|t| - 1] then 1 else 0
  {
  }

  /** Feeding the bits of t to the packed stream s packs s + t. */
  lemma {:induction false} FeedPacked(s: seq<bool>, t: seq<bool>)
    ensures Feed(Packed(s), |s|, Levels(t)) == Packed(s + t)
  {
    if |t| == 0 {
      assert s + t == s;
    } else {
      var t', b := t[..|t| - 1], t[|t| - 1];
      LevelsLast(t);
      FeedPacked(s, t');
      PackedAppend(s + t', b);
      SplitLast(s, t);
    }
  }

  /** A message whose payload packs the bit stream s packs s followed by
   *  the 20 data bits of the codeword after `addPayload`. */
  lemma PayloadIsPacked(m: Message, w: Word, s: seq<bool>)
    requires WellFormed(m) && m.payload == Packed(s) && m.bits == |s|
    ensures Payloaded(m, w).payload == Packed(s + DataBits(w))
    ensures Payloaded(m, w).bits == |s + DataBits(w)|
  {
    assert Levels(DataBits(w)) == DataLevels(w);
    FeedPacked(s, DataBits(w));
  }

  /** Data words w_1 .. w_n added in turn to a message. */
  function PayloadsAdded(m: Message, ws: seq<Word>): (r: Message)
    requires WellFormed(m)
    ensures WellFormed(r)
  {
    if |ws| == 0 then m
    else
      Payloaded(PayloadsAdded(m, ws[..|ws| - 1]), ws[|ws| - 1])
  }

  /** The data bits of the words w_1 .. w_n, one after the other. */
  function DataStream(ws: seq<Word>): (r: seq<bool>)
    ensures |r| == 20 * |ws|
  {
    if |ws| == 0 then [] else DataStream(ws[..|ws| - 1]) + DataBits(ws[|ws| - 1])
  }

  /** A message started by an address word and followed by data words
   *  holds the data bits of those words, packed 8 to a byte with the first
   *  bit most significant, and keeps its address and function. */
  lemma {:induction false} MessagePacks(address: nat, func: nat, ws: seq<Word>)
    ensures PayloadsAdded(NewMessage(address, func), ws)
      == Message(address, func, false, 20 * |ws|, Packed(DataStream(ws)))
  {
    if |ws| > 0 {
      var ws' := ws[..|ws| - 1];
      MessagePacks(address, func, ws');
      PayloadIsPacked(PayloadsAdded(NewMessage(address, func), ws'), ws[|ws| - 1], DataStream(ws'));
    }
  }

  // ---------------------------------------------------------------
  // The shift register (src/pocsag.cc:38-39)
  // ---------------------------------------------------------------

  /** `_bits = (_bits << 1) | (b & 1)` on the 64-bit register: the bit
   *  enters at bit 0 and bit 63 falls off. */
  function Shift(reg: seq<bool>, b: bool): (r: seq<bool>)
    requires |reg| == 64
    ensures |r| == 64
  {
    [b] + reg[..63]
  }

  /** `_bits & 0xffffffff`. */
  function Low(reg: seq<bool>): Word
    requires |reg| == 64
  {
    reg[..32]
  }

  /** `(_bits >> 32) & 0xffffffff`. */
  function High(reg: seq<bool>): Word
    requires |reg| == 64
  {
    reg[32..]
  }

  /** The register after the bits bs entered one after the other. */
  function ShiftAll(reg: seq<bool>, bs: seq<bool>): (r: seq<bool>)
    requires |reg| == 64
    ensures |r| == 64
  {
    if |bs| == 0 then reg else Shift(ShiftAll(reg, bs[..|bs| - 1]), bs[|bs| - 1])
  }

  /** The register holds the last 64 bits received, the newest at bit 0;
   *  so a word is sent with its bit 31 first. */
  lemma {:induction false} ShiftWindow(reg: seq<bool>, bs: seq<bool>)
    requires |reg| == 64
    ensures forall i :: 0 <= i < 64 ==>
      ShiftAll(reg, bs)[i] == if i < |bs| then bs[|bs| - 1 - i] else reg[i - |bs|]
  {
    if |bs| > 0 {
      ShiftWindow(reg, bs[..|bs| - 1]);
    }
  }

  /** After 32 bits or more, the low word is the last 32 bits received,
   *  the first of them at bit 31. */
  lemma LowWord(reg: seq<bool>, bs: seq<bool>)
    requires |reg| == 64 && |bs| >= 32
    ensures forall i :: 0 <= i < 32 ==> Low(ShiftAll(reg, bs))[i] == bs[|bs| - 1 - i]
  {
    ShiftWindow(reg, bs);
  }

  // ---------------------------------------------------------------
  // Error correction of received words (src/bch31_21.cc:123-212)
  // ---------------------------------------------------------------

  /** f is w with at most two bits inverted. */
  predicate Near(w: Word, f: Word)
  {
    f == w
    || (exists h :: 0 <= h < 32 && f == Bch.Flip(w, h))
    || exists b1, b2 :: 0 <= b1 < b2 < 32 && f == Bch.FlipPair(w, b1, b2)
  }

  /** The outcomes `pocsag_repair` allows for w: None when it returns 1
   *  (no correction of up to two bits exists), Some(f) when it returns 0
   *  with the word corrected to f. */
  predicate Repaired(w: Word, r: Option<Word>)
  {
    match r
    case None => Bch.Syndrome(w) != Bch.Zero() && Bch.NoSingleRepair(w) && Bch.NoPairRepair(w)
    case Some(f) => Bch.Syndrome(f) == Bch.Zero() && Near(w, f) && (Bch.Syndrome(w) == Bch.Zero() ==> f == w)
  }

  /** `0 == pocsag_repair(word)`, with the corrected word. */
  method Repair(w: Word) returns (r: Option<Word>)
    ensures Repaired(w, r)
  {
    var status, fixed := Bch.PocsagRepair(w);
    if status == 0 {
      if Bch.Syndrome(w) != Bch.Zero() {
        if !Bch.NoSingleRepair(w) {
          ghost var h :| Bch.HighestSingle(w, h) && fixed == Bch.Flip(w, h);
          assert 0 <= h < 32;
        } else {
          ghost var b1, b2 :| 0 <= b1 < b2 < 32 && fixed == Bch.FlipPair(w, b1, b2);
        }
      }
      r := Some(fixed);
    } else {
      r := None;
    }
  }

  // ---------------------------------------------------------------
  // The decoder (src/pocsag.hh, src/pocsag.cc:32-149)
  // ---------------------------------------------------------------

  /** `POCSAG::State`. */
  datatype Phase = Wait | Receive | CheckContinue

  /** The fields of the node, `_state`, `_bits`, `_bitcount`, `_slot`,
   *  `_messages` and `_queue`, with the messages `handleMessages` has taken
   *  off the queue so far. asWritten selects how words are processed: as
   *  the code does it (the address keeps two frame bits, the data bits
   *  are cut off) or as intended. */
  datatype Decoder = Decoder(asWritten: bool, phase: Phase, reg: seq<bool>, bitcount: nat, slot: nat,
                             messages: seq<Message>, queue: seq<Message>, handled: seq<Message>)

  predicate NonEmpty(ms: seq<Message>)
  {
    forall i :: 0 <= i < |ms| ==> !ms[i].empty
  }

  predicate AllEmpty(ms: seq<Message>)
  {
    forall i :: 0 <= i < |ms| ==> ms[i].empty
  }

  /** A 64-bit register, 8 frames of well-formed messages, and only
   *  non-empty messages queued and handled. */
  predicate Stored(d: Decoder)
  {
    |d.reg| == 64 && |d.messages| == 8
    && (forall i :: 0 <= i < 8 ==> WellFormed(d.messages[i]))
    && NonEmpty(d.queue) && NonEmpty(d.handled)
  }

  /** What every state between two bits satisfies: the storage above and
   *  the counters within the batch layout. */
  predicate Consistent(d: Decoder)
  {
    Stored(d)
    && (d.phase == Receive ==> d.slot < 8 && d.bitcount < 64)
    && (d.phase == CheckContinue ==> d.bitcount < 32)
  }

  /** Eight empty messages, as `_reset_all_messages` leaves them. */
  function Empties(): (r: seq<Message>)
    ensures |r| == 8 && AllEmpty(r)
  {
    seq(8, _ => NoMessage())
  }

  function Zeros(): (r: seq<bool>)
    ensures |r| == 64
  {
    seq(64, _ => false)
  }

  /** `_finish_message(slot)`: a non-empty message goes to the back of the
   *  queue and its slot is emptied. */
  function Finish(d: Decoder, s: nat): (r: Decoder)
    requires s < |d.messages|
    ensures |r.messages| == |d.messages| && r.(messages := d.messages, queue := d.queue) == d
    ensures Stored(d) ==> Stored(r)
  {
    if d.messages[s].empty then d
    else d.(messages := d.messages[s := NoMessage()], queue := d.queue + [d.messages[s]])
  }

  /** `_finish_message` on the slots 0 .. k - 1 in turn. */
  function FinishUpTo(d: Decoder, k: nat): (r: Decoder)
    requires k <= |d.messages|
    ensures |r.messages| == |d.messages| && r.(messages := d.messages, queue := d.queue) == d
    ensures Stored(d) ==> Stored(r)
  {
    if k == 0 then d else Finish(FinishUpTo(d, k - 1), k - 1)
  }

  /** The non-empty messages of ms, in order. */
  function Live(ms: seq<Message>): seq<Message>
  {
    if |ms| == 0 then []
    else Live(ms[..|ms| - 1]) + (if ms[|ms| - 1].empty then [] else [ms[|ms| - 1]])
  }

  function Reverse(q: seq<Message>): (r: seq<Message>)
    ensures |r| == |q| && forall i :: 0 <= i < |q| ==> r[i] == q[|q| - 1 - i]
  {
    if |q| == 0 then [] else [q[|q| - 1]] + Reverse(q[..|q| - 1])
  }

  /** The default `handleMessages`: messages are taken from the back of the
   *  queue until it is empty. */
  function Handled(d: Decoder): (r: Decoder)
    ensures Stored(d) ==> Stored(r)
  {
    d.(queue := [], handled := d.handled + Reverse(d.queue))
  }

  /** `_process_word` on a word that passed the repair: the idle word
   *  finishes the slot's message; an address word finishes it and starts a
   *  new one; a message word adds its 20 data bits to it. */
  function WordProcessed(d: Decoder, w: Word): (r: Decoder)
    requires Stored(d) && d.slot < 8
    ensures Stored(r) && r.(messages := d.messages, queue := d.queue) == d
  {
    if w == IdleWord() then Finish(d, d.slot)
    else if IsAddress(w) then
      var e := Finish(d, d.slot);
      var a := if d.asWritten then AddressAsWritten(w, d.slot) else Address(w, d.slot);
      e.(messages := e.messages[d.slot := NewMessage(a, Function(w))])
    else
      var m := d.messages[d.slot];
      d.(messages := d.messages[d.slot := if d.asWritten then PayloadedAsWritten(m, w) else Payloaded(m, w)])
  }

  /** A word kept after the repair is processed; a word the repair gave up
   *  on is dropped. */
  function Accept(d: Decoder, r: Option<Word>): (e: Decoder)
    requires Stored(d) && d.slot < 8
    ensures Stored(e) && e.slot == d.slot
  {
    match r
    case None => d
    case Some(w) => WordProcessed(d, w)
  }

  /** One iteration of `process`'s loop on the input bit b. `high` and
   *  `low` are what the repair made of the high and low words of the
   *  shifted register; each is consulted only where the code repairs that
   *  word. */
  function Step(d: Decoder, b: bool, high: Option<Word>, low: Option<Word>): (r: Decoder)
    requires Consistent(d)
    ensures Consistent(r) && r.reg == Shift(d.reg, b)
  {
    var e := d.(reg := Shift(d.reg, b));
    match d.phase
    case Wait => WaitStep(e, low)
    case Receive => ReceiveStep(e, high, low)
    case CheckContinue => ContinueStep(e, low)
  }

  /** WAIT: a sync word empties the 8 slots and starts a batch at frame 0. */
  function WaitStep(e: Decoder, low: Option<Word>): (r: Decoder)
    requires Consistent(e) && e.phase == Wait
    ensures Consistent(r) && r.reg == e.reg
  {
    if low == Some(SyncWord()) then e.(phase := Receive, bitcount := 0, slot := 0, messages := Empties())
    else e
  }

  /** RECEIVE: every 64th bit completes a frame, whose two words are
   *  processed, the first one received first; after frame 7 the batch is
   *  over. */
  function ReceiveStep(e: Decoder, high: Option<Word>, low: Option<Word>): (r: Decoder)
    requires Consistent(e) && e.phase == Receive
    ensures Consistent(r) && r.reg == e.reg
  {
    if e.bitcount < 63 then e.(bitcount := e.bitcount + 1)
    else
      var f := Accept(Accept(e.(bitcount := 0), high), low);
      f.(slot := e.slot + 1, phase := if e.slot == 7 then CheckContinue else Receive)
  }

  /** CHECK_CONTINUE: the 32nd bit after a batch either is a sync word,
   *  which starts the next batch at frame 0, or ends the transmission:
   *  every pending message is finished and handled. */
  function ContinueStep(e: Decoder, low: Option<Word>): (r: Decoder)
    requires Consistent(e) && e.phase == CheckContinue
    ensures Consistent(r) && r.reg == e.reg
  {
    if e.bitcount < 31 then e.(bitcount := e.bitcount + 1)
    else if low == Some(SyncWord()) then e.(phase := Receive, bitcount := 0, slot := 0)
    else Handled(FinishUpTo(e.(bitcount := 32), 8).(phase := Wait))
  }

  /** Whether the bit completes the two words of a frame. */
  predicate ChecksHigh(d: Decoder)
  {
    d.phase == Receive && d.bitcount == 63
  }

  /** Whether the bit makes the code repair the low word: every bit while
   *  waiting for a sync word, the end of a frame, and the 32nd bit after a
   *  batch. */
  predicate ChecksLow(d: Decoder)
  {
    d.phase == Wait || ChecksHigh(d) || (d.phase == CheckContinue && d.bitcount == 31)
  }

  /** high and low are what the repair made of the words it looked at. */
  predicate Honest(d: Decoder, b: bool, high: Option<Word>, low: Option<Word>)
    requires |d.reg| == 64
  {
    (ChecksHigh(d) ==> Repaired(High(Shift(d.reg, b)), high))
    && (ChecksLow(d) ==> Repaired(Low(Shift(d.reg, b)), low))
  }

  /** `process` on the bits bs, the repair outcomes of step i being
   *  highs[i] and lows[i]. */
  function Run(d: Decoder, bs: seq<bool>, highs: seq<Option<Word>>, lows: seq<Option<Word>>): (r: Decoder)
    requires Consistent(d) && |highs| == |bs| && |lows| == |bs|
    ensures Consistent(r)
  {
    if |bs| == 0 then d
    else
      var n := |bs| - 1;
      Step(Run(d, bs[..n], highs[..n], lows[..n]), bs[n], highs[n], lows[n])
  }

  /** Every step of the run used what the repair made of its words. */
  predicate HonestRun(d: Decoder, bs: seq<bool>, highs: seq<Option<Word>>, lows: seq<Option<Word>>)
    requires Consistent(d) && |highs| == |bs| && |lows| == |bs|
  {
    |bs| == 0 ||
    (var n := |bs| - 1;
     HonestRun(d, bs[..n], highs[..n], lows[..n])
     && Honest(Run(d, bs[..n], highs[..n], lows[..n]), bs[n], highs[n], lows[n]))
  }

  /** A step is honest when each word it checks was repaired. */
  lemma HonestStep(d: Decoder, b: bool, high: Option<Word>, low: Option<Word>)
    requires |d.reg| == 64
    requires ChecksHigh(d) ==> Repaired(High(Shift(d.reg, b)), high)
    requires ChecksLow(d) ==> Repaired(Low(Shift(d.reg, b)), low)
    ensures Honest(d, b, high, low)
  {
  }

  /** The decoder e is where an honest run from d on the bits bs ends. */
  predicate Traced(d: Decoder, bs: seq<bool>, highs: seq<Option<Word>>, lows: seq<Option<Word>>, e: Decoder)
  {
    Consistent(d) && |highs| == |bs| && |lows| == |bs|
    && e == Run(d, bs, highs, lows) && HonestRun(d, bs, highs, lows)
  }

  /** One more honest step extends a traced run by one bit. */
  lemma RunExtend(d: Decoder, bs: seq<bool>, highs: seq<Option<Word>>, lows: seq<Option<Word>>, e: Decoder,
                  b: bool, high: Option<Word>, low: Option<Word>)
    requires Traced(d, bs, highs, lows, e) && Honest(e, b, high, low)
    ensures Traced(d, bs + [b], highs + [high], lows + [low], Step(e, b, high, low))
  {
    assert (bs + [b])[..|bs|] == bs;
    assert (highs + [high])[..|bs|] == highs;
    assert (lows + [low])[..|bs|] == lows;
  }

  /** Whatever the repair does, the register after a run holds the bits
   *  fed to it, so each word the code looks at is made of the last 32
   *  or 64 bits received. */
  lemma {:induction false} RunShifts(d: Decoder, bs: seq<bool>, highs: seq<Option<Word>>, lows: seq<Option<Word>>)
    requires Consistent(d) && |highs| == |bs| && |lows| == |bs|
    ensures Run(d, bs, highs, lows).reg == ShiftAll(d.reg, bs)
  {
    if |bs| > 0 {
      var n := |bs| - 1;
      RunShifts(d, bs[..n], highs[..n], lows[..n]);
    }
  }

  // ---------------------------------------------------------------
  // Properties of the decoder
  // ---------------------------------------------------------------

  /** The idle word and the sync word both have bit 31 clear, so both would
   *  pass for address words: the idle test has to come first. */
  lemma ConstantsLookLikeAddresses()
    ensures IsAddress(IdleWord()) && IsAddress(SyncWord())
  {
    WordConstants();
    IsAddressBelow(IdleWord());
    IsAddressBelow(SyncWord());
  }

  /** `_finish_message` loses no message: it empties the slot, leaves the
   *  others alone, and queues the slot's message exactly when it was not
   *  empty. */
  lemma FinishConserves(d: Decoder, s: nat)
    requires s < |d.messages|
    ensures Finish(d, s).messages[s].empty
    ensures forall j :: 0 <= j < |d.messages| && j != s ==> Finish(d, s).messages[j] == d.messages[j]
    ensures Finish(d, s).queue == d.queue + Live([d.messages[s]])
  {
    assert [d.messages[s]][..0] == [];
  }

  /** Finishing the slots 0 .. k - 1 empties them and leaves the others
   *  alone. */
  lemma {:induction false} FinishUpToEmpties(d: Decoder, k: nat)
    requires k <= |d.messages|
    ensures AllEmpty(FinishUpTo(d, k).messages[..k])
    ensures FinishUpTo(d, k).messages[k..] == d.messages[k..]
  {
    if k > 0 {
      FinishUpToEmpties(d, k - 1);
      var e := FinishUpTo(d, k - 1);
      FinishConserves(e, k - 1);
      var r := Finish(e, k - 1);
      forall i | 0 <= i < k - 1
        ensures r.messages[i].empty
      {
        assert e.messages[..k - 1][i] == e.messages[i];
      }
      assert r.messages[k..] == e.messages[k..] by {
        forall i | k <= i < |d.messages|
          ensures r.messages[i] == e.messages[i]
        {
        }
      }
      assert e.messages[k..] == e.messages[k - 1..][1..];
      assert d.messages[k..] == d.messages[k - 1..][1..];
    }
  }

  lemma LiveSnoc(ms: seq<Message>, k: nat)
    requires 0 < k <= |ms|
    ensures Live(ms[..k]) == Live(ms[..k - 1]) + Live([ms[k - 1]])
  {
    assert ms[..k][..k - 1] == ms[..k - 1];
    assert [ms[k - 1]][..0] == [];
  }

  /** Finishing the slots 0 .. k - 1 queues their non-empty messages in
   *  slot order. */
  lemma {:induction false} FinishUpToQueues(d: Decoder, k: nat)
    requires k <= |d.messages|
    ensures FinishUpTo(d, k).queue == d.queue + Live(d.messages[..k])
  {
    if k > 0 {
      FinishUpToQueues(d, k - 1);
      FinishUpToEmpties(d, k - 1);
      var e := FinishUpTo(d, k - 1);
      var m := d.messages[k - 1];
      assert e.messages[k - 1] == m by {
        assert e.messages[k - 1..][0] == m;
      }
      FinishConserves(e, k - 1);
      LiveSnoc(d.messages, k);
      var q, a, b := d.queue, Live(d.messages[..k - 1]), Live([m]);
      assert (q + a) + b == q + (a + b);
    }
  }




  /** WAIT: the decoder enters RECEIVE exactly when the repaired low word
   *  is the sync word; then the 8 slots are empty and the batch starts at
   *  frame 0, with the received word at most two bits from the sync
   *  word. */
  lemma SyncStarts(d: Decoder, b: bool, high: Option<Word>, low: Option<Word>)
    requires Consistent(d) && d.phase == Wait
    ensures var r := Step(d, b, high, low);
      (r.phase == Receive <==> low == Some(SyncWord()))
      && (r.phase == Receive ==> AllEmpty(r.messages) && r.slot == 0 && r.bitcount == 0 && r.queue == d.queue)
      && (r.phase == Wait ==> r == d.(reg := Shift(d.reg, b)))
      && (r.phase == Receive && Honest(d, b, high, low) ==> Near(Low(r.reg), SyncWord()))
  {
  }

  /** RECEIVE: the bit count runs up to 64, where the frame's words are
   *  processed and the next frame begins; after frame 7 the decoder waits
   *  for a continuation. Between frame ends only the register and the
   *  count change. */
  lemma FrameTiming(d: Decoder, b: bool, high: Option<Word>, low: Option<Word>)
    requires Consistent(d) && d.phase == Receive
    ensures var r := Step(d, b, high, low);
      (r.bitcount == 0 <==> d.bitcount == 63)
      && (d.bitcount < 63 ==> r == d.(reg := Shift(d.reg, b), bitcount := d.bitcount + 1))
      && (d.bitcount == 63 ==> r.slot == d.slot + 1)
      && (r.phase == CheckContinue <==> d.bitcount == 63 && d.slot == 7)
      && r.handled == d.handled
  {
  }

  /** CHECK_CONTINUE: 32 bits after a batch, a sync word continues with
   *  frame 0 of the next batch, keeping the messages under way; anything
   *  else ends the transmission. */
  lemma BatchContinues(d: Decoder, b: bool, high: Option<Word>, low: Option<Word>)
    requires Consistent(d) && d.phase == CheckContinue && d.bitcount == 31
    ensures var r := Step(d, b, high, low);
      (r.phase == Receive <==> low == Some(SyncWord()))
      && (r.phase == Receive ==> r.slot == 0 && r.bitcount == 0 && r.messages == d.messages && r.queue == d.queue)
  {
  }

  /** The end of a transmission finishes every pending message in slot
   *  order and hands the queue, newest first, to `handleMessages`: no
   *  message is left behind or lost. */
  lemma TransmissionEnds(d: Decoder, b: bool, high: Option<Word>, low: Option<Word>)
    requires Consistent(d) && d.phase == CheckContinue && d.bitcount == 31 && low != Some(SyncWord())
    ensures var r := Step(d, b, high, low);
      r.phase == Wait && AllEmpty(r.messages) && r.queue == []
      && r.handled == d.handled + Reverse(d.queue + Live(d.messages))
  {
    var e := d.(reg := Shift(d.reg, b), bitcount := 32);
    var f := FinishUpTo(e, 8);
    assert Step(d, b, high, low) == Handled(f.(phase := Wait));
    FinishUpToQueues(e, 8);
    FinishUpToEmpties(e, 8);
    assert e.messages[..8] == d.messages;
    assert f.messages[..8] == f.messages;
  }

  /** The idle word closes the frame's message: it is queued if there was
   *  one, and the slot is left empty. */
  lemma IdleFinishes(d: Decoder)
    requires Stored(d) && d.slot < 8
    ensures var r := WordProcessed(d, IdleWord());
      r.messages[d.slot].empty && r.queue == d.queue + Live([d.messages[d.slot]])
      && forall j :: 0 <= j < 8 && j != d.slot ==> r.messages[j] == d.messages[j]
  {
    FinishConserves(d, d.slot);
  }

  /** An address word closes the frame's message and opens a new one whose
   *  address holds the 18 address bits over the frame bits, with the
   *  word's function bits and nothing received yet. As written only two
   *  frame bits are kept; as intended all three. */
  lemma AddressStarts(d: Decoder, w: Word)
    requires Stored(d) && d.slot < 8 && w != IdleWord() && IsAddress(w)
    ensures var r := WordProcessed(d, w);
      var m := r.messages[d.slot];
      !m.empty && m.address / 8 == AddressField(w) && m.func == Function(w)
      && m.address % 8 == (if d.asWritten then d.slot % 4 else d.slot)
      && m.bits == 0 && m.payload == []
      && r.queue == d.queue + Live([d.messages[d.slot]])
      && forall j :: 0 <= j < 8 && j != d.slot ==> r.messages[j] == d.messages[j]
  {
    FinishConserves(d, d.slot);
    AddressFields(w, d.slot);
    DivUnique(AddressField(w), d.slot % 4, 8, AddressAsWritten(w, d.slot));
  }

  /** A message word adds 20 bits to the frame's message, which keeps its
   *  address and function; nothing is queued. As intended the bits are
   *  the word's data bits; as written a payload of zero bytes stays
   *  zero. */
  lemma DataExtends(d: Decoder, w: Word, s: seq<bool>)
    requires Stored(d) && d.slot < 8 && !IsAddress(w)
    ensures var r := WordProcessed(d, w);
      var m, m' := d.messages[d.slot], r.messages[d.slot];
      m'.address == m.address && m'.func == m.func && m'.empty == m.empty
      && m'.bits == m.bits + 20
      && (!d.asWritten && m.payload == Packed(s) && m.bits == |s| ==> m'.payload == Packed(s + DataBits(w)))
      && (d.asWritten && Zeroed(m.payload) ==> Zeroed(m'.payload))
      && r.queue == d.queue
      && forall j :: 0 <= j < 8 && j != d.slot ==> r.messages[j] == d.messages[j]
  {
    ConstantsLookLikeAddresses();
    var m := d.messages[d.slot];
    var m' := if d.asWritten then PayloadedAsWritten(m, w) else Payloaded(m, w);
    assert WordProcessed(d, w) == d.(messages := d.messages[d.slot := m']);
    if d.asWritten {
      if Zeroed(m.payload) {
        PayloadAsWrittenIsZero(m, w);
      }
    } else if m.payload == Packed(s) && m.bits == |s| {
      PayloadIsPacked(m, w, s);
    }
  }

  /** No message of the decoder, in a slot, queued or handed over,
   *  carries a non-zero byte. */
  predicate Silent(d: Decoder)
  {
    (forall i :: 0 <= i < |d.messages| ==> Zeroed(d.messages[i].payload))
    && (forall i :: 0 <= i < |d.queue| ==> Zeroed(d.queue[i].payload))
    && (forall i :: 0 <= i < |d.handled| ==> Zeroed(d.handled[i].payload))
  }

  lemma FinishSilent(d: Decoder, s: nat)
    requires s < |d.messages| && Silent(d)
    ensures Silent(Finish(d, s))
  {
  }

  lemma {:induction false} FinishUpToSilent(d: Decoder, k: nat)
    requires k <= |d.messages| && Silent(d)
    ensures Silent(FinishUpTo(d, k))
  {
    if k > 0 {
      FinishUpToSilent(d, k - 1);
      FinishSilent(FinishUpTo(d, k - 1), k - 1);
    }
  }

  lemma WordSilent(d: Decoder, w: Word)
    requires Stored(d) && d.slot < 8 && d.asWritten && Silent(d)
    ensures Silent(WordProcessed(d, w))
  {
    FinishSilent(d, d.slot);
    if w != IdleWord() && !IsAddress(w) {
      PayloadAsWrittenIsZero(d.messages[d.slot], w);
    }
  }

  lemma AcceptSilent(d: Decoder, r: Option<Word>)
    requires Stored(d) && d.slot < 8 && d.asWritten && Silent(d)
    ensures Silent(Accept(d, r)) && Accept(d, r).asWritten
  {
    if r.Some? {
      WordSilent(d, r.value);
    }
  }

  /** A change that leaves the messages alone keeps them silent. */
  lemma SameMessagesSilent(d: Decoder, e: Decoder)
    requires Silent(d) && e.messages == d.messages && e.queue == d.queue && e.handled == d.handled
    ensures Silent(e)
  {
  }

  lemma StepSilent(d: Decoder, b: bool, high: Option<Word>, low: Option<Word>)
    requires Consistent(d) && d.asWritten && Silent(d)
    ensures var r := Step(d, b, high, low); Silent(r) && r.asWritten
  {
    var e := d.(reg := Shift(d.reg, b));
    SameMessagesSilent(d, e);
    match d.phase
    case Wait => WaitSilent(e, low);
    case Receive => ReceiveSilent(e, high, low);
    case CheckContinue => ContinueSilent(e, low);
  }

  lemma WaitSilent(e: Decoder, low: Option<Word>)
    requires Consistent(e) && e.phase == Wait && e.asWritten && Silent(e)
    ensures var r := WaitStep(e, low); Silent(r) && r.asWritten
  {
    if low == Some(SyncWord()) {
      var f := WaitStep(e, low);
      forall i | 0 <= i < |f.messages|
        ensures Zeroed(f.messages[i].payload)
      {
        assert f.messages[i] == NoMessage();
      }
    }
  }

  lemma ReceiveSilent(e: Decoder, high: Option<Word>, low: Option<Word>)
    requires Consistent(e) && e.phase == Receive && e.asWritten && Silent(e)
    ensures var r := ReceiveStep(e, high, low); Silent(r) && r.asWritten
  {
    if e.bitcount == 63 {
      var e0 := e.(bitcount := 0);
      SameMessagesSilent(e, e0);
      AcceptSilent(e0, high);
      AcceptSilent(Accept(e0, high), low);
      var f := Accept(Accept(e0, high), low);
      SameMessagesSilent(f, ReceiveStep(e, high, low));
    } else {
      SameMessagesSilent(e, ReceiveStep(e, high, low));
    }
  }

  lemma ContinueSilent(e: Decoder, low: Option<Word>)
    requires Consistent(e) && e.phase == CheckContinue && e.asWritten && Silent(e)
    ensures var r := ContinueStep(e, low); Silent(r) && r.asWritten
  {
    if e.bitcount == 31 && low != Some(SyncWord()) {
      var f := e.(bitcount := 32);
      SameMessagesSilent(e, f);
      FinishUpToSilent(f, 8);
      var g := FinishUpTo(f, 8).(phase := Wait);
      SameMessagesSilent(FinishUpTo(f, 8), g);
      assert ContinueStep(e, low) == Handled(g);
    } else {
      SameMessagesSilent(e, ContinueStep(e, low));
    }
  }

  /** As written, a decoder whose messages carry no data never produces
   *  one that does: whatever bits arrive, every byte of every message in
   *  the slots, on the queue or handed over stays 0. */
  lemma {:induction false} RunSilent(d: Decoder, bs: seq<bool>, highs: seq<Option<Word>>, lows: seq<Option<Word>>)
    requires Consistent(d) && |highs| == |bs| && |lows| == |bs|
    requires d.asWritten && Silent(d)
    ensures var r := Run(d, bs, highs, lows); Silent(r) && r.asWritten
  {
    if |bs| > 0 {
      var n := |bs| - 1;
      var r := Run(d, bs[..n], highs[..n], lows[..n]);
      RunSilent(d, bs[..n], highs[..n], lows[..n]);
      StepSilent(r, bs[n], highs[n], lows[n]);
    }
  }

  // ---------------------------------------------------------------
  // The node (src/pocsag.cc:11-149)
  // ---------------------------------------------------------------

  /** The POCSAG node: the state machine's fields, the 8 frame slots as a
   *  fixed array, the queue of finished messages, and the messages the
   *  default `handleMessages` has taken off the queue. */
  class PocsagNode {
    const asWritten: bool
    var phase: Phase
    var reg: seq<bool>
    var bitcount: nat
    var slot: nat
    const frames: array<Message>
    var queue: seq<Message>
    var handled: seq<Message>

    ghost function State(): Decoder
      reads this, frames
    {
      Decoder(asWritten, phase, reg, bitcount, slot, frames[..], queue, handled)
    }

    ghost predicate Valid()
      reads this, frames
    {
      frames.Length == 8 && Consistent(State())
    }

    /** The library's constructor leaves the state machine uninitialised
     *  until `config`; here it starts as `config` leaves it, waiting, with
     *  a clear register and empty slots. asWritten selects the code's word
     *  processing or the intended one. */
    constructor (asWritten: bool)
      ensures Valid() && fresh(frames)
      ensures State() == Decoder(asWritten, Wait, Zeros(), 0, 0, Empties(), [], [])
    {
      this.asWritten := asWritten;
      phase, reg, bitcount, slot := Wait, Zeros(), 0, 0;
      frames := new Message[8](_ => NoMessage());
      queue, handled := [], [];
      new;
      assert frames[..] == Empties();
    }

    /** `config`: ignored without a type; a type other than `uint8_t` is a
     *  `ConfigError`; otherwise the decoder waits for a sync word with a
     *  clear register. Nothing is published downstream. */
    method Configure(c: Config) returns (r: Result<Option<Config>>)
      requires Valid()
      modifies this`phase, this`reg
      ensures Valid()
      ensures !c.HasType() ==> r == Ok(None) && State() == old(State())
      ensures c.HasType() && c.sampleType != UInt8 ==> r == Err(ConfigError) && State() == old(State())
      ensures c.sampleType == UInt8 ==> r == Ok(None) && State() == old(State()).(phase := Wait, reg := Zeros())
    {
      if !c.HasType() {
        return Ok(None);
      }
      if c.sampleType != UInt8 {
        return Err(ConfigError);
      }
      phase, reg := Wait, Zeros();
      r := Ok(None);
    }

    /** `_reset_message(slot)`. */
    method ResetMessage(s: nat)
      requires frames.Length == 8 && Stored(State()) && s < 8
      modifies frames
      ensures Stored(State()) && State() == old(State()).(messages := old(frames[..])[s := NoMessage()])
    {
      frames[s] := NoMessage();
    }

    /** `_reset_all_messages`. */
    method ResetAllMessages()
      requires frames.Length == 8 && Stored(State())
      modifies frames
      ensures Stored(State()) && State() == old(State()).(messages := Empties())
    {
      var i := 0;
      while i < 8
        invariant 0 <= i <= 8 && Stored(State())
        invariant State() == old(State()).(messages := frames[..])
        invariant forall j :: 0 <= j < i ==> frames[j] == NoMessage()
      {
        ResetMessage(i);
        i := i + 1;
      }
      assert frames[..] == Empties();
    }

    /** `_finish_message(slot)`. */
    method FinishMessage(s: nat)
      requires frames.Length == 8 && Stored(State()) && s < 8
      modifies this`queue, frames
      ensures Stored(State()) && State() == Finish(old(State()), s)
    {
      if frames[s].empty {
        return;
      }
      queue := queue + [frames[s]];
      ResetMessage(s);
    }

    /** `_finish_all_messages`. */
    method FinishAllMessages()
      requires frames.Length == 8 && Stored(State())
      modifies this`queue, frames
      ensures Stored(State()) && State() == FinishUpTo(old(State()), 8)
    {
      var i := 0;
      while i < 8
        invariant 0 <= i <= 8 && Stored(State())
        invariant State() == FinishUpTo(old(State()), i)
      {
        FinishMessage(i);
        i := i + 1;
      }
    }

    /** The default `handleMessages`: the queue is emptied from the back. */
    method HandleMessages()
      requires frames.Length == 8 && Stored(State())
      modifies this`queue, this`handled
      ensures Stored(State()) && State() == Handled(old(State()))
    {
      while |queue| > 0
        invariant Stored(State())
        invariant handled + Reverse(queue) == old(handled) + Reverse(old(queue))
        invariant State().(queue := old(queue), handled := old(handled)) == old(State())
      {
        var msg := queue[|queue| - 1];
        queue := queue[..|queue| - 1];
        handled := handled + [msg];
      }
    }

    /** `_process_word`: the word is processed in the current slot. */
    method ProcessWord(w: Word)
      requires frames.Length == 8 && Stored(State()) && slot < 8
      modifies this`queue, frames
      ensures Stored(State()) && State() == WordProcessed(old(State()), w)
    {
      if w == IdleWord() {
        FinishMessage(slot);
        return;
      }
      if IsAddress(w) {
        FinishMessage(slot);
        var a := if asWritten then AddressAsWritten(w, slot) else Address(w, slot);
        frames[slot] := NewMessage(a, Function(w));
      } else {
        var m: Message;
        if asWritten {
          m := AddPayloadAsWritten(frames[slot], w);
        } else {
          m := AddPayload(frames[slot], w);
        }
        frames[slot] := m;
      }
    }

    /** A word the repair kept is processed; a word it gave up on is
     *  dropped. */
    method AcceptWord(r: Option<Word>)
      requires frames.Length == 8 && Stored(State()) && slot < 8
      modifies this`queue, frames
      ensures Stored(State()) && State() == Accept(old(State()), r)
    {
      if r.Some? {
        ProcessWord(r.value);
      }
    }

    /** The WAIT branch of `process`, after the bit entered the register. */
    method WaitBit() returns (ghost low: Option<Word>)
      requires Valid() && phase == Wait
      modifies this`phase, this`bitcount, this`slot, frames
      ensures Valid()
      ensures Repaired(Low(old(reg)), low)
      ensures State() == WaitStep(old(State()), low)
    {
      var r := Repair(Low(reg));
      low := r;
      if r == Some(SyncWord()) {
        ResetAllMessages();
        phase, bitcount, slot := Receive, 0, 0;
      }
    }

    /** The RECEIVE branch of `process`: the 64th bit completes a frame. */
    method ReceiveBit() returns (ghost high: Option<Word>, ghost low: Option<Word>)
      requires Valid() && phase == Receive
      modifies this`phase, this`bitcount, this`slot, this`queue, frames
      ensures Valid()
      ensures old(bitcount) == 63 ==> Repaired(High(old(reg)), high) && Repaired(Low(old(reg)), low)
      ensures State() == ReceiveStep(old(State()), high, low)
    {
      high, low := None, None;
      bitcount := bitcount + 1;
      if bitcount == 64 {
        high, low := EndFrame();
      }
    }

    /** The end of a frame in RECEIVE: both codewords are repaired and
     *  processed, the first one received first, and the next frame
     *  starts, or CHECK_CONTINUE after frame 7. */
    method EndFrame() returns (ghost high: Option<Word>, ghost low: Option<Word>)
      requires frames.Length == 8 && Stored(State()) && phase == Receive && slot < 8 && bitcount == 64
      modifies this`phase, this`bitcount, this`slot, this`queue, frames
      ensures Valid()
      ensures Repaired(High(old(reg)), high) && Repaired(Low(old(reg)), low)
      ensures State() == ReceiveStep(old(State()).(bitcount := 63), high, low)
    {
      ghost var e := State();
      bitcount := 0;
      assert State() == e.(bitcount := 0);
      var r := Repair(High(reg));
      high := r;
      AcceptWord(r);
      ghost var f := State();
      assert f == Accept(e.(bitcount := 0), high);
      r := Repair(Low(reg));
      low := r;
      AcceptWord(r);
      ghost var g := State();
      assert g == Accept(f, low);
      slot := slot + 1;
      if slot == 8 {
        phase := CheckContinue;
      }
      assert State() == g.(slot := e.slot + 1, phase := if e.slot == 7 then CheckContinue else Receive);
      assert e.(bitcount := 63).(bitcount := 0) == e.(bitcount := 0);
      assert State() == ReceiveStep(e.(bitcount := 63), high, low);
    }

    /** The CHECK_CONTINUE branch of `process`: the 32nd bit after a batch
     *  is either a sync word or the end of the transmission. */
    method ContinueBit() returns (ghost low: Option<Word>)
      requires Valid() && phase == CheckContinue
      modifies this`phase, this`bitcount, this`slot, this`queue, this`handled, frames
      ensures Valid()
      ensures old(bitcount) == 31 ==> Repaired(Low(old(reg)), low)
      ensures State() == ContinueStep(old(State()), low)
    {
      low := None;
      bitcount := bitcount + 1;
      if bitcount == 32 {
        var r := Repair(Low(reg));
        low := r;
        if r == Some(SyncWord()) {
          phase, slot, bitcount := Receive, 0, 0;
        } else {
          FinishAllMessages();
          phase := Wait;
          HandleMessages();
        }
      }
    }

    /** One iteration of `process`'s loop, on the low bit of the input
     *  byte x. The ghost outputs are what the repair made of the words it
     *  looked at. */
    method ProcessBit(x: bv8) returns (ghost high: Option<Word>, ghost low: Option<Word>)
      requires Valid()
      modifies this`phase, this`reg, this`bitcount, this`slot, this`queue, this`handled, frames
      ensures Valid()
      ensures Honest(old(State()), x & 1 == 1, high, low)
      ensures State() == Step(old(State()), x & 1 == 1, high, low)
    {
      ghost var d := State();
      var b := x & 1 == 1;
      reg := Shift(reg, b);
      ghost var e := State();
      assert e == d.(reg := Shift(d.reg, b));
      high := None;
      if phase == Wait {
        low := WaitBit();
      } else if phase == Receive {
        high, low := ReceiveBit();
      } else {
        low := ContinueBit();
      }
      assert State() == Step(d, b, high, low);
      HonestStep(d, b, high, low);
    }

    /** `process`: every byte of the buffer is one bit. */
    method Process(xs: seq<bv8>) returns (ghost highs: seq<Option<Word>>, ghost lows: seq<Option<Word>>)
      requires Valid()
      modifies this`phase, this`reg, this`bitcount, this`slot, this`queue, this`handled, frames
      ensures Valid() && |highs| == |xs| && |lows| == |xs|
      ensures State() == Run(old(State()), LowBits(xs), highs, lows)
      ensures HonestRun(old(State()), LowBits(xs), highs, lows)
    {
      highs, lows := [], [];
      ghost var s0 := State();
      ghost var bits := LowBits(xs);
      var i := 0;
      while i < |xs|
        invariant 0 <= i <= |xs| && Valid() && Traced(s0, bits[..i], highs, lows, State())
      {
        ghost var e := State();
        ghost var high: Option<Word>;
        ghost var low: Option<Word>;
        high, low := ProcessBit(xs[i]);
        RunExtend(s0, bits[..i], highs, lows, e, bits[i], high, low);
        TakeSucc(bits, i);
        highs, lows := highs + [high], lows + [low];
        i := i + 1;
      }
      assert bits[..i] == bits;
    }
  }
}
