/** URLs of the HTTP server (http.hh, http.cc): splitting a request
 *  target into protocol, host, path and query pairs, writing it back,
 *  and the percent-encoding of section 2.1 of RFC 3986 as the source
 *  implements it. */
module HttpUrl {
  import opened Common
  import opened HttpText

  // ---------------------------------------------------------------
  // Searching
  // ---------------------------------------------------------------

  /** `find(c, i)`: the first c at or after i. */
  function FindFrom(s: string, c: char, i: nat): (r: Option<nat>)
    requires i <= |s|
    ensures r.Some? ==> i <= r.value < |s| && s[r.value] == c
    ensures r.Some? ==> forall j :: i <= j < r.value ==> s[j] != c
    ensures r.None? ==> forall j :: i <= j < |s| ==> s[j] != c
    decreases |s| - i
  {
    if i == |s| then None
    else if s[i] == c then Some(i)
    else FindFrom(s, c, i + 1)
  }

  function Find(s: string, c: char): Option<nat>
  {
    FindFrom(s, c, 0)
  }

  /** "://" at j. */
  predicate SeparatorAt(s: string, j: nat)
  {
    j + 3 <= |s| && s[j] == ':' && s[j + 1] == '/' && s[j + 2] == '/'
  }

  /** `find("://")` from i. */
  function FindSeparatorFrom(s: string, i: nat): (r: Option<nat>)
    requires i <= |s|
    ensures r.Some? ==> i <= r.value && SeparatorAt(s, r.value)
    ensures r.Some? ==> forall j :: i <= j < r.value ==> !SeparatorAt(s, j)
    ensures r.None? ==> forall j :: i <= j < |s| ==> !SeparatorAt(s, j)
    decreases |s| - i
  {
    if i == |s| then None
    else if SeparatorAt(s, i) then Some(i)
    else FindSeparatorFrom(s, i + 1)
  }

  function FindSeparator(s: string): Option<nat>
  {
    FindSeparatorFrom(s, 0)
  }

  /** The first c in a text that has none before a is at |a|. */
  lemma FindCharAfter(a: string, c: char, b: string)
    requires c !in a
    ensures Find(a + [c] + b, c) == Some(|a|)
  {
    var s := a + [c] + b;
    assert forall j :: 0 <= j < |a| ==> s[j] == a[j];
    assert s[|a|] == c;
  }

  lemma FindCharAbsent(s: string, c: char)
    requires c !in s
    ensures Find(s, c) == None
  {
  }

  // ---------------------------------------------------------------
  // The value of a URL
  // ---------------------------------------------------------------

  datatype UrlValue = UrlValue(protocol: string, host: string, path: string, query: seq<(string, string)>)

  /** One query pair, split at its first '='. */
  function PairOf(segment: string): (string, string)
  {
    match Find(segment, '=')
    case None => (segment, "")
    case Some(k) => (segment[..k], segment[k + 1..])
  }

  /** The text before the first '&' and the text after it; all of the
   *  text and nothing when there is no '&'. */
  function Cut(qs: string): (r: (string, string))
    ensures |r.1| < |qs| || qs == ""
  {
    match Find(qs, '&')
    case Some(k) => (qs[..k], qs[k + 1..])
    case None => (qs, "")
  }

  /** The query text split on '&' into pairs, in order. */
  function Pairs(qs: string): seq<(string, string)>
    decreases |qs|
  {
    if |qs| == 0 then [] else [PairOf(Cut(qs).0)] + Pairs(Cut(qs).1)
  }

  /** The protocol before the first "://" when that is not at the start,
   *  and the text after it; otherwise no protocol and the whole text. */
  function SplitProtocol(url: string): (string, string)
  {
    var k := FindSeparator(url);
    if k.Some? && k.value != 0 then (url[..k.value], url[k.value + 3..]) else ("", url)
  }

  /** The host up to the first '/' and the path from it, unless the text
   *  starts with '/' or is empty, when all of it is the path. A text
   *  with no '/' gives neither host nor path. */
  function SplitHost(text: string): (string, string)
  {
    if |text| > 0 && text[0] != '/' then
      match Find(text, '/')
      case Some(j) => (text[..j], text[j..])
      case None => ("", "")
    else ("", text)
  }

  /** The path up to the first '?' and the query text after it. */
  function SplitQuery(path: string): (string, string)
  {
    match Find(path, '?')
    case Some(k) => (path[..k], path[k + 1..])
    case None => (path, "")
  }

  /** `fromString`. */
  function Split(url: string): UrlValue
  {
    var protocol := SplitProtocol(url);
    var host := SplitHost(protocol.1);
    var query := SplitQuery(host.1);
    UrlValue(protocol.0, host.0, query.0, Pairs(query.1))
  }

  /** The three ways of splitting a target. */
  lemma SplitCases(url: string)
    ensures var k := FindSeparator(url);
      Split(url).protocol == (if k.Some? && k.value > 0 then url[..k.value] else "")
    ensures FindSeparator(url).None? && |url| > 0 && url[0] == '/' ==> Split(url).host == ""
    ensures FindSeparator(url).None? && '/' !in url ==> Split(url).host == "" && Split(url).path == ""
  {
    if FindSeparator(url).None? && '/' !in url {
      FindCharAbsent(url, '/');
    }
  }

  // ---------------------------------------------------------------
  // Percent-encoding
  // ---------------------------------------------------------------

  /** `encode` of one byte: every byte below 127 becomes '%' and two hex
   *  digits and DEL is copied. A byte of 128 or more is a negative `char`
   *  in the source, so as written it is widened with its sign to eight
   *  hex digits; intended are the two digits of the byte. */
  function EncodeChar(c: char, reading: Reading): (t: string)
  {
    if c as int < 127 then "%" + Hex2(c as int)
    else if c as int == 127 then [c]
    else if reading == AsWritten then "%ffffff" + Hex2(c as int % 256)
    else "%" + Hex2(c as int % 256)
  }

  function Encoded(s: string, reading: Reading): (t: string)
    decreases |s|
  {
    if |s| == 0 then "" else EncodeChar(s[0], reading) + Encoded(s[1..], reading)
  }

  /** The value `strtol` reads, in base 16, from the two characters after
   *  a '%': leading space, a sign, and up to two hex digits. */
  function HexNumber(a: char, b: char): int
  {
    if IsCSpace(a) then (if IsHexDigit(b) then HexVal(b) else 0)
    else if a == '+' || a == '-' then
      (if !IsHexDigit(b) then 0 else if a == '-' then -HexVal(b) else HexVal(b))
    else if IsHexDigit(a) then (if IsHexDigit(b) then HexVal(a) * 16 + HexVal(b) else HexVal(a))
    else 0
  }

  /** `char(n)`: the low byte. */
  function ByteChar(n: int): char
  {
    (n % 256) as char
  }

  /** `decode`: a '%' with at least two characters after it becomes the
   *  byte they give. As written the two characters are then copied as
   *  well; intended, they are skipped. */
  function Decoded(s: string, reading: Reading): (t: string)
    decreases |s|
  {
    if |s| == 0 then ""
    else if s[0] == '%' && |s| >= 3 then
      [ByteChar(HexNumber(s[1], s[2]))] + Decoded(s[if reading == AsWritten then 1 else 3..], reading)
    else [s[0]] + Decoded(s[1..], reading)
  }

  /** As written, decoding keeps the length: the byte of each "%XX"
   *  stands where the '%' stood and everything else is copied, so a
   *  text without '%' comes back unchanged. */
  lemma {:induction false} DecodeAsWritten(s: string)
    ensures |Decoded(s, AsWritten)| == |s|
    ensures forall i :: 0 <= i < |s| ==> Decoded(s, AsWritten)[i] == DecodedAt(s, i)
    ensures '%' !in s ==> Decoded(s, AsWritten) == s
    decreases |s|
  {
    if |s| > 0 {
      var t := s[1..];
      DecodeAsWritten(t);
      var d := Decoded(s, AsWritten);
      var e := Decoded(t, AsWritten);
      assert d == [d[0]] + e;
      forall i | 0 < i < |s|
        ensures d[i] == DecodedAt(s, i)
      {
        assert d[i] == e[i - 1] == DecodedAt(t, i - 1);
        assert t[i - 1] == s[i];
        if i + 2 < |s| { assert t[i] == s[i + 1] && t[i + 1] == s[i + 2]; }
      }
      if '%' !in s {
        assert '%' !in t;
        assert s == [s[0]] + t;
      }
    }
  }

  /** The character `decode` writes at i when it copies the digits. */
  function DecodedAt(s: string, i: nat): char
    requires i < |s|
  {
    if s[i] == '%' && i + 3 <= |s| then ByteChar(HexNumber(s[i + 1], s[i + 2])) else s[i]
  }

  /** The decoder as written turns "%41" into "A41", not "A". */
  lemma DecodeKeepsDigits()
    ensures Encoded("A", AsWritten) == "%41"
    ensures Decoded("%41", AsWritten) == "A41"
    ensures Decoded("%41", Intended) == "A"
  {
    assert Hex2(65) == "41";
    assert Encoded("A", AsWritten) == EncodeChar('A', AsWritten) + Encoded("", AsWritten);
    assert "%41"[1..] == "41";
    assert Decoded("41", AsWritten) == "41" by {
      assert "41"[1..] == "1";
      assert "1"[1..] == "";
    }
    assert "%41"[3..] == "";
  }

  /** As written, the byte 0xe9 is encoded as "%ffffffe9", which no
   *  decoder reads back. */
  lemma EncodeSignExtends()
    ensures Encoded("\U{e9}", AsWritten) == "%ffffffe9"
    ensures Encoded("\U{e9}", Intended) == "%e9"
    ensures Decoded(Encoded("\U{e9}", AsWritten), Intended) != "\U{e9}"
  {
    assert Hex2(0xe9) == "e9";
    assert Encoded("\U{e9}", AsWritten) == EncodeChar('\U{e9}', AsWritten) + Encoded("", AsWritten);
    assert Encoded("\U{e9}", Intended) == EncodeChar('\U{e9}', Intended) + Encoded("", Intended);
    var t := Encoded("\U{e9}", AsWritten);
    assert |Decoded(t, Intended)| > 1 by {
      assert t[3..] == "ffffe9";
      assert Decoded(t, Intended) == [ByteChar(HexNumber(t[1], t[2]))] + Decoded(t[3..], Intended);
      assert Decoded(t[3..], Intended) == ['f'] + Decoded(t[4..], Intended);
    }
  }

  /** One more character of a loop over s that appends its encoding. */
  lemma EncodedStep(s: string, i: nat, piece: string, r: string)
    requires i < |s| && piece == EncodeChar(s[i], AsWritten)
    ensures r + Encoded(s[i..], AsWritten) == (r + piece) + Encoded(s[i + 1..], AsWritten)
  {
    assert s[i..][1..] == s[i + 1..];
    assert Encoded(s[i..], AsWritten) == piece + Encoded(s[i + 1..], AsWritten);
  }

  /** Bytes: characters below 256. */
  predicate Bytes(s: string)
  {
    forall i :: 0 <= i < |s| ==> s[i] as int < 256
  }

  /** One byte encoded and decoded again, with the intended reading. */
  lemma DecodeEncodeChar(c: char, tail: string)
    requires c as int < 256
    ensures Decoded(EncodeChar(c, Intended) + tail, Intended) == [c] + Decoded(tail, Intended)
  {
    var t := EncodeChar(c, Intended) + tail;
    if c as int == 127 {
      assert t == [c] + tail;
      assert t[1..] == tail;
    } else {
      var h := Hex2(c as int % 256);
      Hex2Value(c as int % 256);
      assert t == ['%', h[0], h[1]] + tail;
      assert t[3..] == tail;
      assert HexNumber(h[0], h[1]) == c as int % 256;
    }
  }

  lemma DecodeEncodeStep(c: char, tail: string, s: string, d: string)
    requires c as int < 256 && Decoded(tail, Intended) == s + d
    ensures Decoded(EncodeChar(c, Intended) + tail, Intended) == [c] + s + d
  {
    DecodeEncodeChar(c, tail);
  }

  /** With the intended encoder and decoder, decoding an encoded byte
   *  string gives it back, whatever follows. */
  lemma {:induction false} DecodeEncode(s: string, rest: string)
    requires Bytes(s)
    ensures Decoded(Encoded(s, Intended) + rest, Intended) == s + Decoded(rest, Intended)
    decreases |s|
  {
    if |s| > 0 {
      assert Bytes(s[1..]) by {
        forall i | 0 <= i < |s| - 1 ensures s[1..][i] as int < 256 { assert s[1..][i] == s[i + 1]; }
      }
      var tail := Encoded(s[1..], Intended) + rest;
      DecodeEncode(s[1..], rest);
      DecodeEncodeStep(s[0], tail, s[1..], Decoded(rest, Intended));
      assert Encoded(s, Intended) + rest == EncodeChar(s[0], Intended) + tail;
      assert [s[0]] + s[1..] == s;
    } else {
      assert Encoded(s, Intended) + rest == rest && s + Decoded(rest, Intended) == Decoded(rest, Intended);
    }
  }

  /** A character that separates the parts of a URL or of its query. */
  predicate IsSeparator(x: char)
  {
    x == '&' || x == '=' || x == ':' || x == '?'
  }

  /** Hex digits are no separators. */
  lemma Hex2Plain(n: int)
    requires 0 <= n < 256
    ensures !IsSeparator(Hex2(n)[0]) && !IsSeparator(Hex2(n)[1])
  {
  }

  /** No separator appears in an encoded byte. */
  lemma EncodeCharPlain(c: char, reading: Reading)
    ensures var t := EncodeChar(c, reading);
      |t| > 0 && '&' !in t && '=' !in t && ':' !in t && '?' !in t
  {
    var t := EncodeChar(c, reading);
    if c as int != 127 {
      var h := Hex2(c as int % 256);
      Hex2Plain(c as int % 256);
      var p := if c as int > 127 && reading == AsWritten then "%ffffff" else "%";
      assert t == p + h;
      assert forall i :: 0 <= i < |t| ==> !IsSeparator(t[i]);
    }
  }

  /** Encoded text has no query separators. */
  lemma {:induction false} EncodedPlain(s: string, reading: Reading)
    ensures '&' !in Encoded(s, reading) && '=' !in Encoded(s, reading)
    ensures ':' !in Encoded(s, reading) && '?' !in Encoded(s, reading)
    ensures |Encoded(s, reading)| == 0 <==> |s| == 0
    decreases |s|
  {
    if |s| > 0 {
      EncodedPlain(s[1..], reading);
      EncodeCharPlain(s[0], reading);
    }
  }

  // ---------------------------------------------------------------
  // Writing a URL
  // ---------------------------------------------------------------

  /** One query pair: the encoded name, and '=' and the encoded value
   *  when the value is not empty. */
  function Item(p: (string, string), reading: Reading): string
  {
    Encoded(p.0, reading) + (if |p.1| > 0 then "=" + Encoded(p.1, reading) else "")
  }

  /** The pairs joined by '&'. */
  function Joined(q: seq<(string, string)>, reading: Reading): string
    requires |q| > 0
    decreases |q|
  {
    Item(q[0], reading) + (if |q| == 1 then "" else "&" + Joined(q[1..], reading))
  }

  /** `toString`: "proto://" when there is a protocol, the host, the path
   *  or "/" when it is empty, and "?" with the pairs when there are any. */
  function Text(u: UrlValue, reading: Reading): string
  {
    Head(u) + QueryText(u.query, reading)
  }

  function EncodedPair(p: (string, string), reading: Reading): (string, string)
  {
    (Encoded(p.0, reading), Encoded(p.1, reading))
  }

  /** URLs whose parts `fromString` can find again in their text. */
  predicate Separable(u: UrlValue)
  {
    && ':' !in u.protocol && ':' !in u.host && ':' !in u.path
    && '/' !in u.host && '?' !in u.path
    && (|u.path| == 0 || u.path[0] == '/')
    && (|u.query| == 0 || |u.query[|u.query| - 1].0| > 0 || |u.query[|u.query| - 1].1| > 0)
  }

  /** The query pairs with names and values encoded, in order. */
  function EncodedQuery(q: seq<(string, string)>, reading: Reading): (r: seq<(string, string)>)
    ensures |r| == |q|
    decreases |q|
  {
    if |q| == 0 then [] else [EncodedPair(q[0], reading)] + EncodedQuery(q[1..], reading)
  }

  /** An item is split back into its encoded name and value, and holds no
   *  '&'. */
  lemma PairOfItem(p: (string, string), reading: Reading)
    ensures PairOf(Item(p, reading)) == EncodedPair(p, reading)
    ensures '&' !in Item(p, reading)
    ensures |Item(p, reading)| == 0 <==> |p.0| == 0 && |p.1| == 0
  {
    var e0, e1 := Encoded(p.0, reading), Encoded(p.1, reading);
    EncodedPlain(p.0, reading);
    EncodedPlain(p.1, reading);
    if |p.1| > 0 {
      FindCharAfter(e0, '=', e1);
      var item := e0 + "=" + e1;
      assert Item(p, reading) == item;
      assert item[..|e0|] == e0 && item[|e0| + 1..] == e1;
    } else {
      assert Item(p, reading) == e0 + "";
      assert e0 + "" == e0;
      FindCharAbsent(e0, '=');
      assert e1 == "";
    }
  }

  /** One more pair taken off the query text. */
  lemma PairsStep(done: seq<(string, string)>, done': seq<(string, string)>, p: (string, string),
                  qs: string, qs': string, all: seq<(string, string)>)
    requires |qs| > 0 && done + Pairs(qs) == all
    requires qs' == Cut(qs).1 && p == PairOf(Cut(qs).0) && done' == done + [p]
    ensures done' + Pairs(qs') == all
  {
    PairsCut(qs);
    AppendOne(done, p, Pairs(qs'));
  }

  lemma PairsCut(qs: string)
    requires |qs| > 0
    ensures Pairs(qs) == [PairOf(Cut(qs).0)] + Pairs(Cut(qs).1)
  {
  }

  lemma PairOfFound(segment: string, k: nat)
    requires Find(segment, '=') == Some(k)
    ensures k < |segment| && PairOf(segment) == (segment[..k], segment[k + 1..])
  {
  }

  lemma AppendNil<T>(a: seq<T>)
    ensures [] + a == a && a + [] == a
  {
  }

  lemma AppendOne<T>(done: seq<T>, p: T, tail: seq<T>)
    ensures done + ([p] + tail) == (done + [p]) + tail
  {
  }

  /** The text before the first '&' is one pair, the text after it the
   *  others. */
  lemma PairsAmp(item: string, rest: string)
    requires '&' !in item
    ensures Pairs(item + "&" + rest) == [PairOf(item)] + Pairs(rest)
  {
    var t := item + "&" + rest;
    FindCharAfter(item, '&', rest);
    assert t[..|item|] == item && t[|item| + 1..] == rest;
  }

  lemma PairsOne(item: string)
    requires '&' !in item && |item| > 0
    ensures Pairs(item) == [PairOf(item)]
  {
    FindCharAbsent(item, '&');
  }

  /** The pairs of a joined query are read back encoded, in order. */
  lemma {:induction false} PairsJoined(q: seq<(string, string)>, reading: Reading)
    requires |q| > 0
    requires |q[|q| - 1].0| > 0 || |q[|q| - 1].1| > 0
    ensures Pairs(Joined(q, reading)) == EncodedQuery(q, reading)
    decreases |q|
  {
    if |q| == 1 {
      PairsJoinedOne(q, reading);
    } else {
      var rest := q[1..];
      assert rest[|rest| - 1] == q[|q| - 1];
      PairsJoined(rest, reading);
      PairsJoinedMore(q, reading);
    }
  }

  lemma PairsJoinedOne(q: seq<(string, string)>, reading: Reading)
    requires |q| == 1 && (|q[0].0| > 0 || |q[0].1| > 0)
    ensures Pairs(Joined(q, reading)) == EncodedQuery(q, reading)
  {
    var item := Item(q[0], reading);
    PairOfItem(q[0], reading);
    assert Joined(q, reading) == item + "" == item;
    PairsOne(item);
    assert EncodedQuery(q, reading) == [EncodedPair(q[0], reading)] + EncodedQuery(q[1..], reading);
    assert q[1..] == [];
  }

  lemma PairsJoinedMore(q: seq<(string, string)>, reading: Reading)
    requires |q| > 1 && Pairs(Joined(q[1..], reading)) == EncodedQuery(q[1..], reading)
    ensures Pairs(Joined(q, reading)) == EncodedQuery(q, reading)
  {
    var item := Item(q[0], reading);
    PairOfItem(q[0], reading);
    var j := Joined(q, reading);
    assert j == item + "&" + Joined(q[1..], reading);
    PairsAmp(item, Joined(q[1..], reading));
    assert Pairs(j) == [EncodedPair(q[0], reading)] + EncodedQuery(q[1..], reading);
  }

  lemma FindProtocol(a: string, b: string)
    requires |a| > 0 && ':' !in a
    ensures FindSeparator(a + "://" + b) == Some(|a|)
  {
    var s := a + "://" + b;
    assert forall j :: 0 <= j < |a| ==> s[j] == a[j];
    assert SeparatorAt(s, |a|);
  }

  lemma NoProtocol(s: string)
    requires ':' !in s
    ensures FindSeparator(s) == None
  {
    assert forall j :: 0 <= j < |s| ==> !SeparatorAt(s, j);
  }

  /** `fromString(toString(u))` gives back u, with "/" for an empty path
   *  and the query names and values in their encoded form. */
  lemma SplitText(u: UrlValue, reading: Reading)
    requires Separable(u)
    ensures Split(Text(u, reading)) ==
      UrlValue(u.protocol, u.host, if |u.path| > 0 then u.path else "/", EncodedQuery(u.query, reading))
  {
    var path := if |u.path| > 0 then u.path else "/";
    var qt := QueryText(u.query, reading);
    if |u.query| > 0 {
      var j := Joined(u.query, reading);
      QueryPlain(u.query, reading);
      assert qt == "?" + j;
      SplitParts(u.protocol, u.host, path, qt, j);
      PairsJoined(u.query, reading);
    } else {
      SplitParts(u.protocol, u.host, path, qt, "");
      assert EncodedQuery(u.query, reading) == [];
    }
  }

  /** The query part of `toString`. */
  function QueryText(q: seq<(string, string)>, reading: Reading): string
  {
    if |q| > 0 then "?" + Joined(q, reading) else ""
  }

  lemma {:induction false} QueryPlain(q: seq<(string, string)>, reading: Reading)
    requires |q| > 0
    ensures ':' !in Joined(q, reading) && '?' !in Joined(q, reading)
    decreases |q|
  {
    EncodedPlain(q[0].0, reading);
    EncodedPlain(q[0].1, reading);
    if |q| > 1 { QueryPlain(q[1..], reading); }
  }

  /** A target written from its parts is split into them again when the
   *  parts hold no separator of a later split. */
  lemma SplitParts(protocol: string, host: string, path: string, qt: string, qs: string)
    requires ':' !in protocol && ':' !in host && ':' !in path && ':' !in qs
    requires '/' !in host && '?' !in path && |path| > 0 && path[0] == '/'
    requires (qt == "" && qs == "") || qt == "?" + qs
    ensures Split((if |protocol| > 0 then protocol + "://" else "") + host + path + qt) ==
      UrlValue(protocol, host, path, Pairs(qs))
  {
    var pre := if |protocol| > 0 then protocol + "://" else "";
    var rest := path + qt;
    Reassociate(pre, host, path, qt);
    NoColon(host, path, qt, qs);
    ProtocolText(protocol, host + rest);
    HostText(host, rest);
    QueryTextSplit(path, qt, qs);
  }

  lemma Reassociate(a: string, b: string, c: string, d: string)
    ensures a + b + c + d == a + (b + (c + d))
  {
  }

  lemma NoColon(host: string, path: string, qt: string, qs: string)
    requires ':' !in host && ':' !in path && ':' !in qs
    requires (qt == "" && qs == "") || qt == "?" + qs
    ensures ':' !in host + (path + qt)
  {
  }

  /** The protocol is found again before "://", and an absent one is not
   *  found in a text without ':'. */
  lemma ProtocolText(protocol: string, text: string)
    requires ':' !in protocol && ':' !in text
    ensures SplitProtocol((if |protocol| > 0 then protocol + "://" else "") + text) == (protocol, text)
  {
    if |protocol| > 0 {
      FindProtocol(protocol, text);
      var url := protocol + "://" + text;
      assert url[..|protocol|] == protocol && url[|protocol| + 3..] == text;
    } else {
      assert "" + text == text;
      NoProtocol(text);
    }
  }

  /** A host without '/' is split from a path that starts with '/'. */
  lemma HostText(host: string, rest: string)
    requires '/' !in host && |rest| > 0 && rest[0] == '/'
    ensures SplitHost(host + rest) == (host, rest)
  {
    var text := host + rest;
    if |host| > 0 {
      FindCharAfter(host, '/', rest[1..]);
      assert text == host + "/" + rest[1..];
      assert text[..|host|] == host && text[|host|..] == rest;
    } else {
      assert text == rest;
    }
  }

  /** A path without '?' is split from the query text. */
  lemma QueryTextSplit(path: string, qt: string, qs: string)
    requires '?' !in path && ((qt == "" && qs == "") || qt == "?" + qs)
    ensures SplitQuery(path + qt) == (path, qs)
  {
    var t := path + qt;
    if qt == "" {
      assert t == path;
      FindCharAbsent(path, '?');
    } else {
      FindCharAfter(path, '?', qs);
      assert t == path + "?" + qs;
      assert t[..|path|] == path && t[|path| + 1..] == qs;
    }
  }

  /** What `toString` writes before the query: "proto://" when there is
   *  a protocol, the host, and the path or "/" when it is empty. */
  function Head(u: UrlValue): string
  {
    (if |u.protocol| > 0 then u.protocol + "://" else "") + u.host
    + (if |u.path| > 0 then u.path else "/")
  }

  /** The pairs from the i-th on, each after a '&'. */
  function JoinedFrom(q: seq<(string, string)>, i: nat): string
    requires 0 < i <= |q|
  {
    if i < |q| then "&" + Joined(q[i..], AsWritten) else ""
  }

  lemma HeadWritten(u: UrlValue, s: string)
    requires s == (if |u.protocol| > 0 then "" + u.protocol + "://" else "")
      + (if |u.host| > 0 then u.host else "")
      + (if |u.path| > 0 then u.path else "/")
    ensures s == Head(u)
  {
    assert "" + u.protocol + "://" == u.protocol + "://";
    if |u.host| == 0 { assert u.host == ""; }
  }

  lemma JoinStart(head: string, q: seq<(string, string)>, s: string)
    requires |q| > 0 && s == head + Item(q[0], AsWritten)
    ensures s + JoinedFrom(q, 1) == head + Joined(q, AsWritten)
  {
    JoinedCons(q);
    Assoc3(head, Item(q[0], AsWritten), JoinedFrom(q, 1));
  }

  lemma JoinStep(head: string, q: seq<(string, string)>, i: nat, s: string)
    requires 0 < i < |q| && s + JoinedFrom(q, i) == head + Joined(q, AsWritten)
    ensures s + "&" + Item(q[i], AsWritten) + JoinedFrom(q, i + 1) == head + Joined(q, AsWritten)
  {
    var r := q[i..];
    JoinedCons(r);
    assert r[0] == q[i] && r[1..] == q[i + 1..];
    Assoc4(s, "&", Item(q[i], AsWritten), JoinedFrom(q, i + 1));
  }

  /** Joined's first pair and the rest. */
  lemma JoinedCons(r: seq<(string, string)>)
    requires |r| > 0
    ensures Joined(r, AsWritten) == Item(r[0], AsWritten) + (if |r| == 1 then "" else "&" + Joined(r[1..], AsWritten))
  {
  }

  lemma Assoc3(a: string, b: string, c: string)
    ensures a + b + c == a + (b + c)
  {
  }

  lemma Assoc4(a: string, b: string, c: string, d: string)
    ensures a + b + c + d == a + (b + (c + d))
  {
  }

  lemma TextWritten(u: UrlValue, head: string, s: string)
    requires |u.query| > 0 && head == Head(u) + "?" && s == head + Joined(u.query, AsWritten)
    ensures s == Text(u, AsWritten)
  {
  }

  // ---------------------------------------------------------------
  // The URL object
  // ---------------------------------------------------------------

  /** `URL`: protocol, host, path and the list of query pairs. */
  class Url {
    var protocol: string
    var host: string
    var path: string
    var query: seq<(string, string)>

    function Value(): UrlValue
      reads this
    {
      UrlValue(protocol, host, path, query)
    }

    /** `URL(proto, host, path)`, without query pairs. */
    constructor (proto: string, host: string, path: string)
      ensures Value() == UrlValue(proto, host, path, [])
    {
      this.protocol := proto;
      this.host := host;
      this.path := path;
      this.query := [];
    }

    predicate HasProtocol()
      reads this
    {
      |protocol| != 0
    }

    predicate HasHost()
      reads this
    {
      |host| != 0
    }

    method SetProtocol(proto: string)
      modifies this
      ensures Value() == old(Value()).(protocol := proto)
    {
      protocol := proto;
    }

    method SetHost(host: string)
      modifies this
      ensures Value() == old(Value()).(host := host)
    {
      this.host := host;
    }

    method SetPath(path: string)
      modifies this
      ensures Value() == old(Value()).(path := path)
    {
      this.path := path;
    }

    /** `addQuery`: the pair goes to the end; earlier pairs stay. */
    method AddQuery(name: string, value: string)
      modifies this
      ensures Value() == old(Value()).(query := old(query) + [(name, value)])
    {
      query := query + [(name, value)];
    }

    /** `fromString`. */
    static method FromString(url: string) returns (res: Url)
      ensures fresh(res) && res.Value() == Split(url)
    {
      var k := FindSeparator(url);
      var text := url;
      var proto := "";
      if k.Some? && k.value != 0 {
        proto := url[..k.value];
        text := url[k.value + 3..];
      }
      assert (proto, text) == SplitProtocol(url);
      var host, path := "", "";
      if |text| > 0 && text[0] != '/' {
        var slash := Find(text, '/');
        if slash.Some? {
          host := text[..slash.value];
          path := text[slash.value..];
        }
      } else {
        path := text;
      }
      assert (host, path) == SplitHost(text);
      ghost var path0 := path;
      var queryStr := "";
      var q := Find(path, '?');
      if q.Some? {
        queryStr := path[q.value + 1..];
        path := path[..q.value];
      }
      assert (path, queryStr) == SplitQuery(path0);
      res := new Url(proto, host, path);
      res.AddPairs(queryStr);
      AppendNil(Pairs(queryStr));
    }

    /** The loop of `fromString` over the query text: every segment between
     *  '&'s is added as a pair, split at its first '='. */
    method AddPairs(queryStr: string)
      modifies this
      ensures Value() == old(Value()).(query := old(query) + Pairs(queryStr))
    {
      var rest := queryStr;
      ghost var all := query + Pairs(rest);
      while |rest| > 0
        invariant Value() == old(Value()).(query := query)
        invariant query + Pairs(rest) == all
        decreases |rest|
      {
        ghost var before := rest;
        var amp := Find(rest, '&');
        var pair: string;
        if amp.Some? {
          pair := rest[..amp.value];
          rest := rest[amp.value + 1..];
        } else {
          pair := rest;
          rest := "";
        }
        assert (pair, rest) == Cut(before);
        var eq := Find(pair, '=');
        ghost var done := query;
        if eq.None? {
          assert PairOf(pair) == (pair, "");
          AddQuery(pair, "");
        } else {
          PairOfFound(pair, eq.value);
          AddQuery(pair[..eq.value], pair[eq.value + 1..]);
        }
        PairsStep(done, query, PairOf(pair), before, rest, all);
      }
      AppendNil(query);
    }

    /** `toString`. */
    method ToString() returns (s: string)
      ensures s == Text(Value(), AsWritten)
    {
      s := "";
      if |protocol| > 0 { s := s + protocol + "://"; }
      if |host| > 0 { s := s + host; }
      if |path| > 0 { s := s + path; } else { s := s + "/"; }
      HeadWritten(Value(), s);
      if |query| > 0 {
        s := s + "?";
        ghost var head := s;
        s := WriteQuery(query, s);
        TextWritten(Value(), head, s);
      } else {
        AppendNil(s);
      }
    }

    /** The query loop of `toString`: the pairs, joined by '&', after s. */
    static method WriteQuery(query: seq<(string, string)>, head: string) returns (s: string)
      requires |query| > 0
      ensures s == head + Joined(query, AsWritten)
    {
      var item := WriteItem(query[0]);
      s := head + item;
      JoinStart(head, query, s);
      var i := 1;
      while i < |query|
        invariant 1 <= i <= |query|
        invariant s + JoinedFrom(query, i) == head + Joined(query, AsWritten)
      {
        item := WriteItem(query[i]);
        JoinStep(head, query, i, s);
        s := s + "&" + item;
        i := i + 1;
      }
      AppendNil(s);
    }

    /** One pair of `toString`: the encoded name, and '=' and the encoded
     *  value when there is one. */
    static method WriteItem(p: (string, string)) returns (t: string)
      ensures t == Item(p, AsWritten)
    {
      t := Encode(p.0);
      if |p.1| > 0 {
        var value := Encode(p.1);
        t := t + "=" + value;
      } else {
        AppendNil(t);
      }
    }

    /** `encode`, as written. */
    static method Encode(str: string) returns (r: string)
      ensures r == Encoded(str, AsWritten)
    {
      r := "";
      var i := 0;
      while i < |str|
        invariant 0 <= i <= |str|
        invariant r + Encoded(str[i..], AsWritten) == Encoded(str, AsWritten)
      {
        var c := str[i];
        var piece: string;
        if c as int >= 128 {
          piece := "%ffffff" + Hex2(c as int % 256);
        } else if c as int < 32 {
          piece := "%" + Hex2(c as int);
        } else if c as int < 127 || IsUrlReserved(c) {
          piece := "%" + Hex2(c as int);
        } else {
          piece := [c];
        }
        EncodedStep(str, i, piece, r);
        r := r + piece;
        i := i + 1;
      }
    }

    /** `decode`, as written. */
    static method Decode(str: string) returns (r: string)
      ensures r == Decoded(str, AsWritten)
    {
      r := "";
      var i := 0;
      while i < |str|
        invariant 0 <= i <= |str|
        invariant r + Decoded(str[i..], AsWritten) == Decoded(str, AsWritten)
      {
        assert str[i..][1..] == str[i + 1..];
        if str[i] == '%' && 3 <= |str| - i {
          r := r + [ByteChar(HexNumber(str[i + 1], str[i + 2]))];
        } else {
          r := r + [str[i]];
        }
        i := i + 1;
      }
    }
  }
}
