/** The Varicode decoder of the PSK31 receiver (psk31.cc): a 16-bit shift
 *  register collects the demodulated bits, and every pair of zero bits
 *  ends a code, which is looked up in the Varicode table. */
module Psk31 {
  import opened Common
  import opened NodeConfig

  // ---------------------------------------------------------------
  // The code table
  // ---------------------------------------------------------------

  /** The table the constructor fills, entry by entry in the order it
   *  assigns them. Code 445 is assigned twice, first ';' and then '1';
   *  in a map display, as in the constructor, the later entry wins. */
  function CodeTable(): map<int, char>
  {
    map[
      1023 := '!', 87 := '.', 895 := '\'',
      367 := '*', 495 := '\\', 687 := '?',
      475 := '$', 701 := '@', 365 := '_',
      735 := '`', 351 := '"', 493 := '<',
      727 := '~', 699 := '&', 703 := '^',
      507 := ']', 117 := '-', 445 := ';',
      1013 := '#', 695 := '{', 245 := ':',
      693 := '}', 503 := ')', 1749 := '%',
      471 := '>', 991 := '+', 251 := '[',
      85 := '=', 943 := '/', 29 := '\n',
      443 := '|', 1 := ' ', 125 := 'A',
      235 := 'B', 173 := 'C', 181 := 'D',
      119 := 'E', 219 := 'F', 253 := 'G',
      341 := 'H', 127 := 'I', 509 := 'J',
      381 := 'K', 215 := 'L', 187 := 'M',
      221 := 'N', 171 := 'O', 213 := 'P',
      477 := 'Q', 175 := 'R', 111 := 'S',
      109 := 'T', 343 := 'U', 437 := 'V',
      349 := 'W', 373 := 'X', 379 := 'Y',
      685 := 'Z', 11 := 'a', 95 := 'b',
      47 := 'c', 45 := 'd', 3 := 'e',
      61 := 'f', 91 := 'g', 43 := 'h',
      13 := 'i', 491 := 'j', 191 := 'k',
      27 := 'l', 59 := 'm', 15 := 'n',
      7 := 'o', 63 := 'p', 447 := 'q',
      21 := 'r', 23 := 's', 5 := 't',
      55 := 'u', 123 := 'v', 107 := 'w',
      223 := 'x', 93 := 'y', 469 := 'z',
      183 := '0', 445 := '1', 237 := '2',
      511 := '3', 375 := '4', 859 := '5',
      363 := '6', 941 := '7', 427 := '8',
      951 := '9'
    ]
  }

  /** Code 445 is assigned ';' and then '1': the table keeps '1', and
   *  the decoder turns the bits of 445 into '1', never into ';'. */
  lemma SemicolonLost()
    ensures 445 in CodeTable() && CodeTable()[445] == '1'
    ensures Clean(445) && Feed(CodeTable(), 0, Bits(445) + [false, false]) == Fed(0, ['1'])
  {
    assert Clean(445);
    FeedCode(CodeTable(), 445);
  }

  /** The table with '1' under its Varicode code 189 (10111101), which
   *  leaves 445 (110111101) to ';'. */
  function IntendedTable(): map<int, char>
  {
    CodeTable()[445 := ';'][189 := '1']
  }

  /** With the intended table the code of ';' decodes to ';'. */
  lemma SemicolonKept()
    ensures Feed(IntendedTable(), 0, Bits(445) + [false, false]) == Fed(0, [';'])
  {
    assert Clean(445);
    FeedCode(IntendedTable(), 445);
  }

  /** With the intended table the code of '1' decodes to '1'. */
  lemma OneKept()
    ensures Feed(IntendedTable(), 0, Bits(189) + [false, false]) == Fed(0, ['1'])
  {
    assert Clean(189);
    FeedCode(IntendedTable(), 189);
  }

  // ---------------------------------------------------------------
  // Codes as bits
  // ---------------------------------------------------------------

  /** The bits of c, most significant first: the order in which a code is
   *  sent. */
  function Bits(c: nat): (bs: seq<bool>)
    ensures |bs| >= 1 && (c >= 1 ==> bs[0])
  {
    if c < 2 then [c == 1] else Bits(c / 2) + [c % 2 == 1]
  }

  /** No two neighbouring zero bits in the bits of c. */
  predicate NoDoubleZero(c: int)
    requires c >= 1
    decreases c
  {
    c < 4 || (c % 4 != 0 && NoDoubleZero(c / 2))
  }

  /** A code the decoder can receive: it starts and ends with a one, has
   *  no two zeros in a row, and it and the two zeros that end it fit the
   *  16-bit register. */
  predicate Clean(c: int)
  {
    1 <= c < 16384 && c % 2 == 1 && NoDoubleZero(c)
  }

  // ---------------------------------------------------------------
  // The decoder as a function of the bits received
  // ---------------------------------------------------------------

  datatype Stepped = Stepped(next: int, out: Option<char>)

  /** One iteration of `process`'s loop from the register value v: the bit
   *  enters at the low end of the 16-bit register; when the two lowest bits
   *  are zero the value above them is looked up, if it is not zero, and the
   *  register is cleared. An unknown code writes nothing. */
  function Step(t: map<int, char>, v: int, b: bool): (r: Stepped)
    requires 0 <= v < 65536
    ensures 0 <= r.next < 65536 && (r.next == 0 || r.next % 4 != 0)
    ensures r.out.Some? ==> r.next == 0
  {
    var x := U16(2 * v + (if b then 1 else 0));
    if x % 4 == 0 then
      var code := x / 4;
      if code != 0 && code in t then Stepped(0, Some(t[code]))
      else Stepped(0, None)
    else Stepped(x, None)
  }

  datatype Fed = Fed(state: int, out: seq<char>)

  /** `process` from the register value v on the bits bs: the final value
   *  and the characters written. */
  function Feed(t: map<int, char>, v: int, bs: seq<bool>): (r: Fed)
    requires 0 <= v < 65536
    ensures 0 <= r.state < 65536
  {
    if |bs| == 0 then Fed(v, [])
    else
      var n := |bs| - 1;
      var p := Feed(t, v, bs[..n]);
      var s := Step(t, p.state, bs[n]);
      Fed(s.next, p.out + (if s.out.Some? then [s.out.value] else []))
  }

  lemma {:induction false} FeedAppend(t: map<int, char>, v: int, a: seq<bool>, b: seq<bool>)
    requires 0 <= v < 65536
    ensures var p := Feed(t, v, a); var q := Feed(t, p.state, b);
      Feed(t, v, a + b) == Fed(q.state, p.out + q.out)
  {
    if |b| > 0 {
      var n := |b| - 1;
      assert (a + b)[..|a + b| - 1] == a + b[..n];
      FeedAppend(t, v, a, b[..n]);
      assert (a + b)[|a + b| - 1] == b[n];
      var p := Feed(t, v, a);
      var q := Feed(t, p.state, b[..n]);
      var s := Step(t, q.state, b[n]);
      var o := if s.out.Some? then [s.out.value] else [];
      assert (p.out + q.out) + o == p.out + (q.out + o);
    } else {
      assert a + b == a;
    }
  }

  /** From a cleared register, the bits of a code without two zeros in a
   *  row shift in one by one: the register ends up holding the code, and
   *  nothing is written. */
  lemma {:induction false} FeedBits(t: map<int, char>, c: nat)
    requires 1 <= c < 65536 && NoDoubleZero(c)
    ensures Feed(t, 0, Bits(c)) == Fed(c, [])
    decreases c
  {
    if c >= 2 {
      FeedBits(t, c / 2);
      var bs := Bits(c);
      assert bs[..|bs| - 1] == Bits(c / 2);
      assert U16(2 * (c / 2) + (if c % 2 == 1 then 1 else 0)) == c;
    }
  }

  /** The output of a code: its character when the table has it,
   *  nothing otherwise. */
  function Out(t: map<int, char>, c: int): seq<char>
  {
    if c in t then [t[c]] else []
  }

  lemma StepZeros(t: map<int, char>, c: nat)
    requires Clean(c)
    ensures Step(t, c, false) == Stepped(2 * c, None)
    ensures Step(t, 2 * c, false) == Stepped(0, if c in t then Some(t[c]) else None)
  {
  }

  /** Two zero bits after a receivable code write its output and clear
   *  the register. */
  lemma FeedZeros(t: map<int, char>, c: nat)
    requires Clean(c)
    ensures Feed(t, c, [false, false]) == Fed(0, Out(t, c))
  {
    StepZeros(t, c);
    assert Feed(t, c, [false]) == Fed(2 * c, []) by {
      assert [false][..0] == [];
    }
    assert [false, false][..1] == [false];
  }

  /** A receivable code followed by two zero bits, fed to a cleared
   *  register, writes exactly its character when the table has the code
   *  and nothing when it does not, and leaves the register cleared. */
  lemma FeedCode(t: map<int, char>, c: nat)
    requires Clean(c)
    ensures Feed(t, 0, Bits(c) + [false, false]) == Fed(0, Out(t, c))
  {
    FeedBits(t, c);
    FeedZeros(t, c);
    FeedAppend(t, 0, Bits(c), [false, false]);
  }

  /** The Varicode encoding of a sequence of codes: each code's bits
   *  followed by the two zero bits that end it. */
  function Encode(codes: seq<nat>): (bs: seq<bool>)
  {
    if |codes| == 0 then []
    else Encode(codes[..|codes| - 1]) + Bits(codes[|codes| - 1]) + [false, false]
  }

  /** The characters the table gives the codes; codes it does not have
   *  give none. */
  function Chars(t: map<int, char>, codes: seq<nat>): (s: seq<char>)
  {
    if |codes| == 0 then []
    else Chars(t, codes[..|codes| - 1]) + Out(t, codes[|codes| - 1])
  }

  /** When the table has every code, each code gives one character. */
  lemma {:induction false} CharsKnown(t: map<int, char>, codes: seq<nat>)
    requires forall i :: 0 <= i < |codes| ==> codes[i] in t
    ensures |Chars(t, codes)| == |codes|
    ensures forall i :: 0 <= i < |codes| ==> Chars(t, codes)[i] == t[codes[i]]
  {
    if |codes| > 0 {
      var init := codes[..|codes| - 1];
      CharsKnown(t, init);
    }
  }

  /** Round trip: the decoder, starting cleared, turns the encoding of
   *  receivable codes back into their characters and ends cleared. */
  lemma {:induction false} DecodeEncode(t: map<int, char>, codes: seq<nat>)
    requires forall i :: 0 <= i < |codes| ==> Clean(codes[i])
    ensures Feed(t, 0, Encode(codes)) == Fed(0, Chars(t, codes))
  {
    if |codes| > 0 {
      var n := |codes| - 1;
      var init, c := codes[..n], codes[n];
      assert forall i :: 0 <= i < |init| ==> init[i] == codes[i];
      var a, b := Encode(init), Bits(c) + [false, false];
      DecodeEncode(t, init);
      FeedCode(t, c);
      FeedAppend(t, 0, a, b);
      assert Encode(codes) == a + b;
    }
  }

  // ---------------------------------------------------------------
  // The size of the output
  // ---------------------------------------------------------------

  /** A lower bound on the bits since the last character, read off the
   *  register: a cleared register shows none, a register ending in a one
   *  at least one, and any other at least two. */
  function Since(v: int): (k: nat)
    ensures k <= 2
  {
    if v == 0 then 0 else if v % 2 == 1 then 1 else 2
  }

  /** A character needs a register that shows two bits since the last
   *  one; otherwise one bit adds at most one to the bound. */
  lemma StepSince(t: map<int, char>, v: int, b: bool)
    requires 0 <= v < 65536
    ensures Step(t, v, b).out.Some? ==> Since(v) == 2
    ensures Since(Step(t, v, b).next) <= Since(v) + 1
  {
  }

  /** Characters are at least three bits apart, the first one needs at
   *  least one bit: the k > 0 characters written from the bits bs satisfy
   *  (k - 1) * 3 + 1 + Since(final register) <= |bs|. */
  lemma {:induction false} FeedSpacing(t: map<int, char>, v: int, bs: seq<bool>)
    requires 0 <= v < 65536
    ensures var r := Feed(t, v, bs);
      |r.out| > 0 ==> (|r.out| - 1) * 3 + 1 + Since(r.state) <= |bs|
  {
    if |bs| > 0 {
      var n := |bs| - 1;
      FeedSpacing(t, v, bs[..n]);
      var p := Feed(t, v, bs[..n]);
      StepSince(t, p.state, bs[n]);
    }
  }

  /** The size of the output buffer `config` should allocate for input
   *  buffers of up to n bits. */
  function OutputSize(n: nat): nat
  {
    n / 3 + 1
  }

  /** No input of up to n bits writes more than OutputSize(n) characters,
   *  whatever the register holds at the start. */
  lemma OutputFits(t: map<int, char>, v: int, bs: seq<bool>, n: nat)
    requires 0 <= v < 65536 && |bs| <= n
    ensures |Feed(t, v, bs).out| <= OutputSize(n)
  {
    FeedSpacing(t, v, bs);
    var k := |Feed(t, v, bs).out|;
    if k > 0 {
      DivLower(k - 1, 3, n);
    }
  }

  /** A bit that writes a character after the bits bs still finds room in
   *  an output buffer of OutputSize(n) when at most n bits are fed. */
  lemma StepFits(t: map<int, char>, v: int, bs: seq<bool>, b: bool, n: nat)
    requires 0 <= v < 65536 && |bs| < n
    ensures var p := Feed(t, v, bs);
      Step(t, p.state, b).out.Some? ==> |p.out| < OutputSize(n)
  {
    var bs' := bs + [b];
    assert bs'[..|bs|] == bs;
    OutputFits(t, v, bs', n);
  }

  /** A bit that writes a character in the middle of bs leaves room for it
   *  in any buffer that holds everything bs decodes to. */
  lemma PrefixFits(t: map<int, char>, v: int, bs: seq<bool>, i: nat)
    requires 0 <= v < 65536 && i < |bs|
    ensures var p := Feed(t, v, bs[..i]);
      Step(t, p.state, bs[i]).out.Some? ==> |p.out| < |Feed(t, v, bs).out|
  {
    assert bs[..i + 1][..i] == bs[..i];
    FeedAppend(t, v, bs[..i + 1], bs[i + 1..]);
    assert bs[..i + 1] + bs[i + 1..] == bs;
  }

  /** One more bit of bs: the step it takes from the value before it, and
   *  room for the character it writes in a buffer of `room` characters,
   *  allocated for all of bs or for any n bits. */
  lemma FeedNext(t: map<int, char>, v: int, bs: seq<bool>, i: nat, room: nat, whole: bool, n: nat)
    requires 0 <= v < 65536 && i < |bs|
    requires if whole then |Feed(t, v, bs).out| <= room else |bs| <= n && room == OutputSize(n)
    ensures var p := Feed(t, v, bs[..i]);
      var s := Step(t, p.state, bs[i]);
      Feed(t, v, bs[..i + 1]) == Fed(s.next, p.out + (if s.out.Some? then [s.out.value] else []))
      && (s.out.Some? ==> |p.out| < room)
  {
    assert bs[..i + 1][..i] == bs[..i];
    if whole {
      PrefixFits(t, v, bs, i);
    } else {
      StepFits(t, v, bs[..i], bs[i], n);
    }
  }

  /** `config` as written allocates 18 characters whatever the buffer
   *  size. */
  function OutputSizeAsWritten(n: nat): nat
  {
    18
  }

  /** Nineteen '1' characters, code 445 and two zeros each, are 209 bits
   *  and write 19 characters: one more than the 18 `config` allocates. */
  lemma OverflowAsWritten()
    ensures var bs := Encode(seq(19, i => 445));
      |bs| == 209 && |Feed(CodeTable(), 0, bs).out| == 19 > OutputSizeAsWritten(|bs|)
  {
    var codes := seq(19, i => 445);
    SemicolonLost();
    DecodeEncode(CodeTable(), codes);
    CharsKnown(CodeTable(), codes);
    assert |Bits(445)| == 9;
    EncodeLength(codes, 445);
  }

  lemma {:induction false} EncodeLength(codes: seq<nat>, c: nat)
    requires forall i :: 0 <= i < |codes| ==> codes[i] == c
    ensures |Encode(codes)| == |codes| * (|Bits(c)| + 2)
  {
    if |codes| > 0 {
      EncodeLength(codes[..|codes| - 1], c);
      MulSucc(|codes| - 1, |Bits(c)| + 2);
    }
  }

  // ---------------------------------------------------------------
  // The node
  // ---------------------------------------------------------------

  /** The Varicode node: the code table, the shift register `_value` and
   *  the output buffer, sized for input buffers of up to `limit` bits. */
  class VaricodeNode {
    const table: map<int, char>
    const asWritten: bool
    var value: int
    var limit: nat
    var buffer: array<char>

    ghost predicate Valid()
      reads this
    {
      0 <= value < 65536 && (limit == 0 || buffer.Length == Size(limit))
    }

    /** The output size for input buffers of up to n bits: as the code
     *  computes it when asWritten holds, the intended one otherwise. */
    function Size(n: nat): nat
      reads this
    {
      if asWritten then OutputSizeAsWritten(n) else OutputSize(n)
    }

    /** The constructor fills the code table: as written, with '1' over
     *  ';' under 445; intended, with '1' under its own code. asWritten
     *  also selects the output size `config` allocates. Before `config`
     *  there is no output buffer; the register starts cleared. */
    constructor (asWritten: bool)
      ensures Valid() && value == 0 && limit == 0 && this.asWritten == asWritten
      ensures table == if asWritten then CodeTable() else IntendedTable()
    {
      this.asWritten := asWritten;
      table := if asWritten then CodeTable() else IntendedTable();
      value, limit := 0, 0;
      buffer := new char[0];
    }

    /** `config`: ignored without a type or a buffer size; a type other
     *  than `uint8_t` is a `ConfigError`; otherwise the register is
     *  cleared, the output buffer is allocated and the output
     *  configuration, one buffer of characters, is published. */
    method Configure(c: Config) returns (r: Result<Option<Config>>)
      requires Valid()
      modifies this`value, this`limit, this`buffer
      ensures Valid()
      ensures !c.HasType() || !c.HasBufferSize() ==> r == Ok(None) && value == old(value) && limit == old(limit)
      ensures c.HasType() && c.HasBufferSize() && c.sampleType != UInt8 ==>
        r == Err(ConfigError) && value == old(value) && limit == old(limit)
      ensures c.HasBufferSize() && c.sampleType == UInt8 ==>
        && r == Ok(Some(Config(UInt8, 0.0, if asWritten then OutputSizeAsWritten(c.bufferSize) else OutputSize(c.bufferSize), 1)))
        && buffer.Length == r.value.value.bufferSize
        && value == 0 && limit == c.bufferSize && fresh(buffer)
    {
      if !c.HasType() || !c.HasBufferSize() {
        return Ok(None);
      }
      if c.sampleType != UInt8 {
        return Err(ConfigError);
      }
      value := 0;
      var size := Size(c.bufferSize);
      buffer := new char[size];
      limit := c.bufferSize;
      r := Ok(Some(Config(UInt8, 0.0, size, 1)));
    }

    /** One iteration of `process`'s loop: the character decoded, if any,
     *  is written at o, which the caller has room for. */
    method ProcessBit(x: bv8, o: nat) returns (next: nat)
      requires Valid() && o <= buffer.Length
      requires Step(table, value, x & 1 == 1).out.Some? ==> o < buffer.Length
      modifies this`value, buffer
      ensures Valid() && next <= buffer.Length
      ensures var t := Step(table, old(value), x & 1 == 1);
        value == t.next && buffer[..next] == old(buffer[..o]) + (if t.out.Some? then [t.out.value] else [])
    {
      value := U16(2 * value + (if x & 1 == 1 then 1 else 0));
      next := o;
      if value % 4 == 0 {
        value := value / 4;
        if value != 0 {
          if value in table {
            buffer[o] := table[value];
            next := o + 1;
          }
        }
        value := 0;
      }
    }

    /** `process`: the characters decoded from the buffer, sent only when
     *  there is at least one. With the size allocated as written, the
     *  characters must fit the buffer; otherwise the code writes past
     *  its end. */
    method Process(xs: seq<bv8>) returns (sent: Option<seq<char>>)
      requires Valid() && |xs| <= limit
      requires asWritten ==> |Feed(table, value, LowBits(xs)).out| <= buffer.Length
      modifies this`value, buffer
      ensures Valid()
      ensures var r := Feed(table, old(value), LowBits(xs));
        value == r.state && sent == (if |r.out| > 0 then Some(r.out) else None)
    {
      ghost var v0 := value;
      var o := 0;
      var i := 0;
      while i < |xs|
        invariant 0 <= i <= |xs| && Valid() && 0 <= o <= buffer.Length
        invariant Feed(table, v0, LowBits(xs)[..i]) == Fed(value, buffer[..o])
        invariant asWritten ==> |Feed(table, v0, LowBits(xs)).out| <= buffer.Length
      {
        FeedNext(table, v0, LowBits(xs), i, buffer.Length, asWritten, limit);
        o := ProcessBit(xs[i], o);
        i := i + 1;
      }
      assert LowBits(xs)[..i] == LowBits(xs);
      if 0 < o {
        sent := Some(buffer[..o]);
      } else {
        sent := None;
      }
    }
  }
}
