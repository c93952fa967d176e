/** Requests and response headers of the HTTP server (http.hh, http.cc):
 *  the request-line and header state machine of `Request::parse` (the
 *  message format of sections 3.1.1 and 3.2 of RFC 7230), the keep-alive
 *  rule of section 6.3 of RFC 7230, the Content-Length header, and the
 *  header text `Response::sendHeaders` writes.
 *
 *  The connection is the text of the request: reading one character takes
 *  the next element, and the end of the text is a read that returns 0.
 *  Headers are a `std::map`, kept as a sorted sequence of entries. */
module HttpRequest {
  import opened Common
  import opened HttpText
  import opened SortedMaps
  import HttpUrl

  // ---------------------------------------------------------------
  // The state machine of `parse`
  // ---------------------------------------------------------------

  /** `HttpRequestParserState`. */
  datatype Phase =
    | ReadMethod | StartUrl | ReadUrl | StartVersion | ReadVersion | RequestEnd
    | StartHeader | ReadHeader | StartHeaderValue | ReadHeaderValue | EndHeader | EndHeaders

  /** What `parse` holds between two characters: its state, the text
   *  buffer, the current header name, and the request's fields. */
  datatype Parser = Parser(phase: Phase, buffer: string, name: string,
                           verb: Method, version: Version, url: HttpUrl.UrlValue,
                           headers: seq<(string, string)>)

  /** The outcome of one character: go on, or return `ok`. */
  datatype Step = Next(next: Parser) | Stop(ok: bool, last: Parser)

  function Push(p: Parser, c: char): Parser
  {
    p.(buffer := p.buffer + [c])
  }

  /** One turn of the loop of `parse` (http.cc:574-700). `reading` decides
   *  what the carriage return after the version leaves in the buffer: as
   *  written `buffer.str()` only reads it, so the version text stays and
   *  starts the first header name; intended, the buffer is cleared. */
  function StepOn(p: Parser, c: char, reading: Reading): Step
  {
    match p.phase
    case ReadMethod =>
      if IsSpace(c) then
        var m := ToMethod(p.buffer);
        if m == UnknownMethod then Stop(false, p.(verb := m))
        else Next(p.(phase := StartUrl, buffer := "", verb := m))
      else if IsAlphaNum(c) then Next(Push(p, c))
      else Stop(false, p)
    case StartUrl =>
      if IsSpace(c) then Next(p)
      else if IsUrlPart(c) then Next(Push(p, c).(phase := ReadUrl))
      else Stop(false, p)
    case ReadUrl =>
      if IsSpace(c) then Next(p.(phase := StartVersion, url := HttpUrl.Split(p.buffer), buffer := ""))
      else if IsUrlPart(c) then Next(Push(p, c))
      else Stop(false, p)
    case StartVersion =>
      if IsSpace(c) then Next(p)
      else if IsHttpVersionPart(c) then Next(Push(p, c).(phase := ReadVersion))
      else Stop(false, p)
    case ReadVersion =>
      if IsCr(c) then
        var v := ToVersion(p.buffer);
        var b := if reading == AsWritten then p.buffer else "";
        if v == UnknownVersion then Stop(false, p.(version := v, buffer := b))
        else Next(p.(phase := RequestEnd, version := v, buffer := b))
      else if IsHttpVersionPart(c) then Next(Push(p, c))
      else Stop(false, p)
    case RequestEnd =>
      if IsNl(c) then Next(p.(phase := StartHeader)) else Stop(false, p)
    case StartHeader =>
      if IsCr(c) then Next(p.(phase := EndHeaders))
      else if IsHeaderPart(c) then Next(Push(p, c).(phase := ReadHeader))
      else Stop(false, p)
    case ReadHeader =>
      if IsHeaderPart(c) then Next(Push(p, c))
      else if IsColon(c) then Next(p.(phase := StartHeaderValue, name := p.buffer, buffer := ""))
      else Stop(false, p)
    case StartHeaderValue =>
      if IsSpace(c) then Next(p)
      else if IsHeaderValuePart(c) then Next(Push(p, c).(phase := ReadHeaderValue))
      else Stop(false, p)
    case ReadHeaderValue =>
      if IsHeaderValuePart(c) then Next(Push(p, c))
      else if IsCr(c) then Next(p.(phase := EndHeader))
      else Stop(false, p)
    case EndHeader =>
      if IsNl(c) then
        Next(p.(phase := StartHeader, headers := Insert(p.headers, p.name, p.buffer), buffer := ""))
      else Stop(false, p)
    case EndHeaders =>
      Stop(IsNl(c), p)
  }

  /** What `parse` returns, the state it leaves, and the unread text. */
  datatype Parsed = Parsed(ok: bool, p: Parser, rest: string)

  /** The whole loop: a read of 0 bytes ends it with `false`. */
  function Run(p: Parser, s: string, reading: Reading): Parsed
    decreases |s|
  {
    if |s| == 0 then Parsed(false, p, "")
    else match StepOn(p, s[0], reading)
      case Next(q) => Run(q, s[1..], reading)
      case Stop(ok, q) => Parsed(ok, q, s[1..])
  }

  const EmptyUrl := HttpUrl.UrlValue("", "", "", [])

  /** The parser at the first character, over the request's fields. */
  function Begin(verb: Method, version: Version, url: HttpUrl.UrlValue,
                 headers: seq<(string, string)>): Parser
  {
    Parser(ReadMethod, "", "", verb, version, url, headers)
  }

  /** The fields of a request as its constructor leaves them. */
  function Fresh(): Parser
  {
    Begin(UnknownMethod, UnknownVersion, EmptyUrl, [])
  }

  // ---------------------------------------------------------------
  // What an accepted request holds
  // ---------------------------------------------------------------

  predicate ValueText(v: string)
  {
    |v| > 0 && forall i :: 0 <= i < |v| ==> IsHeaderValuePart(v[i])
  }

  predicate NameText(n: string)
  {
    |n| > 0 && forall i :: 0 <= i < |n| ==> IsHeaderPart(n[i])
  }

  /** A stored header: a non-empty value of printable characters, and,
   *  unless the version text was left in the buffer, a name of letters,
   *  digits, '-' and '_'. */
  predicate HeaderOk(h: (string, string), reading: Reading)
  {
    ValueText(h.1) && (reading == Intended ==> NameText(h.0))
  }

  predicate HeadersOk(hs: seq<(string, string)>, reading: Reading)
  {
    forall k :: 0 <= k < |hs| ==> HeaderOk(hs[k], reading)
  }

  /** What holds of the parser in each state on the way to acceptance. */
  predicate Sane(p: Parser, reading: Reading)
  {
    && (p.phase != ReadMethod ==> p.verb != UnknownMethod)
    && (p.phase in {RequestEnd, StartHeader, ReadHeader, StartHeaderValue, ReadHeaderValue, EndHeader, EndHeaders}
        ==> p.version != UnknownVersion)
    && (p.phase == StartHeaderValue ==> p.buffer == "")
    && HeadersOk(p.headers, reading)
    && (p.phase in {ReadHeaderValue, EndHeader} ==> ValueText(p.buffer))
    && (reading == Intended && p.phase in {RequestEnd, StartHeader} ==> p.buffer == "")
    && (reading == Intended && p.phase == ReadHeader ==> NameText(p.buffer))
    && (reading == Intended && p.phase in {StartHeaderValue, ReadHeaderValue, EndHeader} ==> NameText(p.name))
  }

  lemma InsertOk(hs: seq<(string, string)>, k: string, v: string, reading: Reading)
    requires HeadersOk(hs, reading) && HeaderOk((k, v), reading)
    ensures HeadersOk(Insert(hs, k, v), reading)
  {
    var r := Insert(hs, k, v);
    forall j | 0 <= j < |r| ensures HeaderOk(r[j], reading) {
      InsertMembers(hs, k, v, r[j]);
    }
  }

  lemma ExtendName(n: string, c: char)
    requires (n == "" || NameText(n)) && IsHeaderPart(c)
    ensures NameText(n + [c])
  {
  }

  lemma ExtendValue(n: string, c: char)
    requires (n == "" || ValueText(n)) && IsHeaderValuePart(c)
    ensures ValueText(n + [c])
  {
  }

  /** Every step keeps `Sane`, and only the new line after the blank line
   *  accepts. */
  lemma StepSane(p: Parser, c: char, reading: Reading)
    requires Sane(p, reading)
    ensures StepOn(p, c, reading).Next? ==> Sane(StepOn(p, c, reading).next, reading)
    ensures StepOn(p, c, reading).Stop? && StepOn(p, c, reading).ok ==>
      p.phase == EndHeaders && StepOn(p, c, reading).last == p
  {
    match p.phase
    case ReadHeader =>
      if IsHeaderPart(c) && reading == Intended { ExtendName(p.buffer, c); }
    case StartHeader =>
      if IsHeaderPart(c) && reading == Intended { ExtendName(p.buffer, c); }
    case StartHeaderValue =>
      if !IsSpace(c) && IsHeaderValuePart(c) { ExtendValue(p.buffer, c); }
    case ReadHeaderValue =>
      if IsHeaderValuePart(c) { ExtendValue(p.buffer, c); }
    case EndHeader =>
      if IsNl(c) { InsertOk(p.headers, p.name, p.buffer, reading); }
    case _ =>
  }

  lemma {:induction false} RunSane(p: Parser, s: string, reading: Reading)
    requires Sane(p, reading)
    ensures Run(p, s, reading).ok ==> Sane(Run(p, s, reading).p, reading) && Run(p, s, reading).p.phase == EndHeaders
    decreases |s|
  {
    if |s| > 0 {
      StepSane(p, s[0], reading);
      if StepOn(p, s[0], reading).Next? {
        RunSane(StepOn(p, s[0], reading).next, s[1..], reading);
      }
    }
  }

  /** `parse` returns true only with a known method and version and with
   *  every stored header value non-empty and printable; read as intended,
   *  every header name is made of header characters too. */
  lemma Accepted(s: string, reading: Reading)
    ensures var r := Run(Fresh(), s, reading);
      r.ok ==> r.p.verb != UnknownMethod && r.p.version != UnknownVersion
               && HeadersOk(r.p.headers, reading)
  {
    RunSane(Fresh(), s, reading);
  }

  /** An unknown method word ends the parse with false at the first
   *  blank. */
  lemma {:induction false} UnknownMethodRejected(word: string, rest: string, reading: Reading)
    requires forall i :: 0 <= i < |word| ==> IsAlphaNum(word[i])
    requires ToMethod(word) == UnknownMethod
    ensures !Run(Fresh(), word + " " + rest, reading).ok
  {
    FeedWord(Fresh(), word, reading);
    RunFeed(Fresh(), word, " " + rest, reading);
    assert word + " " + rest == word + (" " + rest);
  }

  // ---------------------------------------------------------------
  // Feeding a chunk of text
  // ---------------------------------------------------------------

  /** The parser after `s` when no character of it ended the parse. */
  function Feed(p: Parser, s: string, reading: Reading): Option<Parser>
    decreases |s|
  {
    if |s| == 0 then Some(p)
    else match StepOn(p, s[0], reading)
      case Next(q) => Feed(q, s[1..], reading)
      case Stop(_, _) => None
  }

  lemma {:induction false} RunFeed(p: Parser, s: string, t: string, reading: Reading)
    requires Feed(p, s, reading).Some?
    ensures Run(p, s + t, reading) == Run(Feed(p, s, reading).value, t, reading)
    decreases |s|
  {
    if |s| > 0 {
      assert (s + t)[0] == s[0] && (s + t)[1..] == s[1..] + t;
      RunFeed(StepOn(p, s[0], reading).next, s[1..], t, reading);
    } else {
      assert s + t == t;
    }
  }

  lemma {:induction false} FeedThen(p: Parser, s: string, t: string, reading: Reading)
    requires Feed(p, s, reading).Some?
    ensures Feed(p, s + t, reading) == Feed(Feed(p, s, reading).value, t, reading)
    decreases |s|
  {
    if |s| > 0 {
      assert (s + t)[0] == s[0] && (s + t)[1..] == s[1..] + t;
      FeedThen(StepOn(p, s[0], reading).next, s[1..], t, reading);
    } else {
      assert s + t == t;
    }
  }

  lemma FeedOne(p: Parser, c: char, reading: Reading)
    requires StepOn(p, c, reading).Next?
    ensures Feed(p, [c], reading) == Some(StepOn(p, c, reading).next)
  {
    assert [c][1..] == [];
  }

  /** Characters that a state appends to the buffer. */
  predicate Extends(phase: Phase, c: char)
  {
    match phase
    case ReadMethod => IsAlphaNum(c)
    case ReadUrl => IsUrlPart(c)
    case ReadVersion => IsHttpVersionPart(c)
    case ReadHeader => IsHeaderPart(c)
    case ReadHeaderValue => IsHeaderValuePart(c)
    case _ => false
  }

  lemma {:induction false} FeedWord(p: Parser, s: string, reading: Reading)
    requires forall i :: 0 <= i < |s| ==> Extends(p.phase, s[i])
    ensures Feed(p, s, reading) == Some(p.(buffer := p.buffer + s))
    decreases |s|
  {
    if |s| == 0 {
      assert p.buffer + s == p.buffer;
    } else {
      assert StepOn(p, s[0], reading) == Next(Push(p, s[0]));
      FeedWord(Push(p, s[0]), s[1..], reading);
      assert p.buffer + [s[0]] + s[1..] == p.buffer + s;
    }
  }

  /** k blanks. */
  function Spaces(k: nat): (r: string)
    ensures |r| == k && forall i :: 0 <= i < k ==> r[i] == ' '
  {
    seq(k, i => ' ')
  }

  lemma {:induction false} FeedSpaces(p: Parser, k: nat, reading: Reading)
    requires p.phase in {StartUrl, StartVersion, StartHeaderValue}
    ensures Feed(p, Spaces(k), reading) == Some(p)
    decreases k
  {
    if k > 0 {
      assert Spaces(k)[1..] == Spaces(k - 1);
      FeedSpaces(p, k - 1, reading);
    }
  }

  /** Two chunks fed one after the other. */
  lemma Chain(p: Parser, a: string, q: Parser, b: string, r: Parser, reading: Reading)
    requires Feed(p, a, reading) == Some(q) && Feed(q, b, reading) == Some(r)
    ensures Feed(p, a + b, reading) == Some(r)
  {
    FeedThen(p, a, b, reading);
  }

  // ---------------------------------------------------------------
  // Header lines
  // ---------------------------------------------------------------

  /** A header line as a client writes it: name, ':', `gap` blanks, value. */
  datatype HeaderLine = HeaderLine(name: string, gap: nat, value: string)

  /** A line `parse` accepts: the value may not start with a blank, which
   *  would be skipped. */
  predicate LineOk(h: HeaderLine)
  {
    NameText(h.name) && ValueText(h.value) && h.value[0] != ' '
  }

  function LineText(h: HeaderLine): string
  {
    h.name + ":" + Spaces(h.gap) + h.value + "\r\n"
  }

  function Lines(hs: seq<HeaderLine>): string
    decreases |hs|
  {
    if |hs| == 0 then "" else LineText(hs[0]) + Lines(hs[1..])
  }

  /** The header map after the lines: each line `m[name] = value`, the
   *  first name preceded by what was left in the buffer. */
  function Stored(e: seq<(string, string)>, hs: seq<HeaderLine>, prefix: string): seq<(string, string)>
    decreases |hs|
  {
    if |hs| == 0 then e
    else Stored(Insert(e, prefix + hs[0].name, hs[0].value), hs[1..], "")
  }

  /** A header name and its ':' take the parser from START_HEADER to
   *  START_HEADER_VALUE with the name behind what was in the buffer. */
  lemma FeedName(p: Parser, n: string, reading: Reading)
    requires p.phase == StartHeader && NameText(n)
    ensures Feed(p, n + ":", reading)
      == Some(p.(phase := StartHeaderValue, name := p.buffer + n, buffer := ""))
  {
    var p1 := Push(p, n[0]).(phase := ReadHeader);
    FeedOne(p, n[0], reading);
    var p2 := p1.(buffer := p.buffer + n);
    FeedWord(p1, n[1..], reading);
    assert p.buffer + [n[0]] + n[1..] == p.buffer + n;
    Chain(p, [n[0]], p1, n[1..], p2, reading);
    assert [n[0]] + n[1..] == n;
    var p3 := p2.(phase := StartHeaderValue, name := p.buffer + n, buffer := "");
    FeedOne(p2, ':', reading);
    Chain(p, n, p2, ":", p3, reading);
  }

  /** Blanks, a value and CR LF store the value under the current name and
   *  take the parser back to START_HEADER. */
  lemma FeedValue(p: Parser, gap: nat, v: string, reading: Reading)
    requires p.phase == StartHeaderValue && p.buffer == "" && ValueText(v) && v[0] != ' '
    ensures Feed(p, Spaces(gap) + v + "\r\n", reading)
      == Some(p.(phase := StartHeader, headers := Insert(p.headers, p.name, v)))
  {
    FeedSpaces(p, gap, reading);
    var p4 := Push(p, v[0]).(phase := ReadHeaderValue);
    FeedOne(p, v[0], reading);
    var p5 := p4.(buffer := v);
    FeedWord(p4, v[1..], reading);
    assert "" + [v[0]] + v[1..] == v;
    Chain(p, [v[0]], p4, v[1..], p5, reading);
    assert [v[0]] + v[1..] == v;
    Chain(p, Spaces(gap), p, v, p5, reading);
    var p6 := p5.(phase := EndHeader);
    FeedOne(p5, '\r', reading);
    var p7 := p.(phase := StartHeader, headers := Insert(p.headers, p.name, v));
    assert p7 == p6.(phase := StartHeader, headers := Insert(p6.headers, p6.name, p6.buffer), buffer := "");
    FeedOne(p6, '\n', reading);
    Chain(p5, "\r", p6, "\n", p7, reading);
    Chain(p, Spaces(gap) + v, p5, "\r\n", p7, reading);
  }

  /** One header line takes the parser from START_HEADER back to it and
   *  stores the value under the buffer's text followed by the name. */
  lemma FeedLine(p: Parser, h: HeaderLine, reading: Reading)
    requires p.phase == StartHeader && LineOk(h)
    ensures Feed(p, LineText(h), reading)
      == Some(p.(phase := StartHeader, buffer := "", name := p.buffer + h.name,
                 headers := Insert(p.headers, p.buffer + h.name, h.value)))
  {
    var p3 := p.(phase := StartHeaderValue, name := p.buffer + h.name, buffer := "");
    FeedName(p, h.name, reading);
    FeedValue(p3, h.gap, h.value, reading);
    Chain(p, h.name + ":", p3, Spaces(h.gap) + h.value + "\r\n",
          p3.(phase := StartHeader, headers := Insert(p3.headers, p3.name, h.value)), reading);
    assert LineText(h) == (h.name + ":") + (Spaces(h.gap) + h.value + "\r\n");
  }

  lemma {:induction false} FeedLines(p: Parser, hs: seq<HeaderLine>, reading: Reading)
    requires p.phase == StartHeader
    requires forall k :: 0 <= k < |hs| ==> LineOk(hs[k])
    ensures var q := Feed(p, Lines(hs), reading);
      && q.Some? && q.value.phase == StartHeader
      && q.value.headers == Stored(p.headers, hs, p.buffer)
      && q.value.buffer == (if |hs| == 0 then p.buffer else "")
      && q.value.verb == p.verb && q.value.version == p.version && q.value.url == p.url
    decreases |hs|
  {
    if |hs| > 0 {
      FeedLine(p, hs[0], reading);
      var q := Feed(p, LineText(hs[0]), reading).value;
      FeedLines(q, hs[1..], reading);
      FeedThen(p, LineText(hs[0]), Lines(hs[1..]), reading);
    }
  }

  /** The blank line ends the headers and accepts. */
  lemma RunBlankLine(p: Parser, rest: string, reading: Reading)
    requires p.phase == StartHeader
    ensures Run(p, "\r\n" + rest, reading) == Parsed(true, p.(phase := EndHeaders), rest)
  {
    assert ("\r\n" + rest)[1..] == "\n" + rest;
    assert ("\n" + rest)[1..] == rest;
  }

  // ---------------------------------------------------------------
  // Whole requests
  // ---------------------------------------------------------------

  predicate TargetOk(t: string)
  {
    |t| > 0 && forall i :: 0 <= i < |t| ==> IsUrlPart(t[i])
  }

  /** "METHOD", k1 blanks, the target, k2 blanks, "HTTP/1.x", CR LF. */
  function RequestLine(m: Method, k1: nat, target: string, k2: nat, v: Version): string
    requires m != UnknownMethod && v != UnknownVersion
  {
    MethodName(m) + Spaces(k1) + target + Spaces(k2) + VersionName(v) + "\r\n"
  }

  /** What the buffer holds after the request line. */
  function VersionLeft(v: Version, reading: Reading): string
    requires v != UnknownVersion
  {
    if reading == AsWritten then VersionName(v) else ""
  }

  lemma FeedMethod(m: Method, k1: nat, reading: Reading)
    requires m != UnknownMethod && k1 >= 1
    ensures Feed(Fresh(), MethodName(m) + Spaces(k1), reading)
      == Some(Fresh().(phase := StartUrl, verb := m))
  {
    var p := Fresh();
    var w := MethodName(m);
    FeedWord(p, w, reading);
    assert "" + w == w;
    var p1 := p.(buffer := w);
    var p2 := p.(phase := StartUrl, verb := m);
    MethodNames(w, m);
    FeedOne(p1, ' ', reading);
    FeedSpaces(p2, k1 - 1, reading);
    Chain(p1, " ", p2, Spaces(k1 - 1), p2, reading);
    assert " " + Spaces(k1 - 1) == Spaces(k1);
    Chain(p, w, p1, Spaces(k1), p2, reading);
  }

  lemma FeedTarget(p: Parser, target: string, k2: nat, reading: Reading)
    requires p.phase == StartUrl && p.buffer == "" && TargetOk(target) && k2 >= 1
    ensures Feed(p, target + Spaces(k2), reading)
      == Some(p.(phase := StartVersion, url := HttpUrl.Split(target)))
  {
    var p2 := p.(phase := ReadUrl, buffer := target);
    var p3 := p.(phase := StartVersion, url := HttpUrl.Split(target));
    FeedUrlWord(p, target, reading);
    FeedUrlEnd(p2, k2, reading);
    assert p2.(phase := StartVersion, url := HttpUrl.Split(p2.buffer), buffer := "") == p3;
    Chain(p, target, p2, Spaces(k2), p3, reading);
  }

  /** The target's characters, the first one leaving the blanks. */
  lemma FeedUrlWord(p: Parser, target: string, reading: Reading)
    requires p.phase == StartUrl && p.buffer == "" && TargetOk(target)
    ensures Feed(p, target, reading) == Some(p.(phase := ReadUrl, buffer := target))
  {
    var p1 := Push(p, target[0]).(phase := ReadUrl);
    assert IsUrlPart(target[0]) && !IsSpace(target[0]);
    assert StepOn(p, target[0], reading) == Next(p1);
    FeedOne(p, target[0], reading);
    assert forall i :: 0 <= i < |target[1..]| ==> Extends(ReadUrl, target[1..][i]) by {
      forall i | 0 <= i < |target[1..]|
        ensures Extends(ReadUrl, target[1..][i])
      {
        assert target[1..][i] == target[i + 1];
      }
    }
    FeedWord(p1, target[1..], reading);
    assert p1.buffer + target[1..] == target;
    Chain(p, [target[0]], p1, target[1..], p1.(buffer := target), reading);
    assert [target[0]] + target[1..] == target;
  }

  /** The blanks after the target: the first splits it. */
  lemma FeedUrlEnd(p: Parser, k: nat, reading: Reading)
    requires p.phase == ReadUrl && k >= 1
    ensures Feed(p, Spaces(k), reading)
      == Some(p.(phase := StartVersion, url := HttpUrl.Split(p.buffer), buffer := ""))
  {
    var q := p.(phase := StartVersion, url := HttpUrl.Split(p.buffer), buffer := "");
    FeedOne(p, ' ', reading);
    FeedSpaces(q, k - 1, reading);
    Chain(p, " ", q, Spaces(k - 1), q, reading);
    assert " " + Spaces(k - 1) == Spaces(k);
  }

  lemma FeedVersion(p: Parser, v: Version, reading: Reading)
    requires p.phase == StartVersion && p.buffer == "" && v != UnknownVersion
    ensures Feed(p, VersionName(v) + "\r\n", reading)
      == Some(p.(phase := StartHeader, version := v, buffer := VersionLeft(v, reading)))
  {
    var w := VersionName(v);
    var p2 := p.(phase := ReadVersion, buffer := w);
    FeedVersionWord(p, v, reading);
    FeedVersionEnd(p2, v, reading);
    assert p2.(phase := StartHeader, version := v, buffer := VersionLeft(v, reading))
        == p.(phase := StartHeader, version := v, buffer := VersionLeft(v, reading));
    Chain(p, w, p2, "\r\n", p.(phase := StartHeader, version := v, buffer := VersionLeft(v, reading)), reading);
  }

  /** The version's characters, the first one leaving the blanks. */
  lemma FeedVersionWord(p: Parser, v: Version, reading: Reading)
    requires p.phase == StartVersion && p.buffer == "" && v != UnknownVersion
    ensures Feed(p, VersionName(v), reading) == Some(p.(phase := ReadVersion, buffer := VersionName(v)))
  {
    var w := VersionName(v);
    var p1 := Push(p, w[0]).(phase := ReadVersion);
    FeedOne(p, w[0], reading);
    FeedWord(p1, w[1..], reading);
    assert p1.buffer + w[1..] == w;
    Chain(p, [w[0]], p1, w[1..], p1.(buffer := w), reading);
    assert [w[0]] + w[1..] == w;
  }

  /** CR and LF after a known version's text. */
  lemma FeedVersionEnd(p: Parser, v: Version, reading: Reading)
    requires p.phase == ReadVersion && v != UnknownVersion && p.buffer == VersionName(v)
    ensures Feed(p, "\r\n", reading)
      == Some(p.(phase := StartHeader, version := v, buffer := VersionLeft(v, reading)))
  {
    VersionNames(p.buffer, v);
    var p3 := p.(phase := RequestEnd, version := v, buffer := VersionLeft(v, reading));
    FeedOne(p, '\r', reading);
    var p4 := p3.(phase := StartHeader);
    FeedOne(p3, '\n', reading);
    Chain(p, "\r", p3, "\n", p4, reading);
  }

  lemma FeedRequestLine(m: Method, k1: nat, target: string, k2: nat, v: Version, reading: Reading)
    requires m != UnknownMethod && v != UnknownVersion && k1 >= 1 && k2 >= 1 && TargetOk(target)
    ensures Feed(Fresh(), RequestLine(m, k1, target, k2, v), reading)
      == Some(Fresh().(phase := StartHeader, verb := m, version := v,
                       url := HttpUrl.Split(target), buffer := VersionLeft(v, reading)))
  {
    var a := MethodName(m) + Spaces(k1);
    var b := target + Spaces(k2);
    var c := VersionName(v) + "\r\n";
    var p1 := Fresh().(phase := StartUrl, verb := m);
    var p2 := p1.(phase := StartVersion, url := HttpUrl.Split(target));
    var p3 := p2.(phase := StartHeader, version := v, buffer := VersionLeft(v, reading));
    FeedMethod(m, k1, reading);
    FeedTarget(p1, target, k2, reading);
    FeedVersion(p2, v, reading);
    Chain(p1, b, p2, c, p3, reading);
    Chain(Fresh(), a, p1, b + c, p3, reading);
    RequestLineParts(m, k1, target, k2, v);
  }

  /** The request line as its method, target and version parts. */
  lemma RequestLineParts(m: Method, k1: nat, target: string, k2: nat, v: Version)
    requires m != UnknownMethod && v != UnknownVersion
    ensures RequestLine(m, k1, target, k2, v)
      == (MethodName(m) + Spaces(k1)) + ((target + Spaces(k2)) + (VersionName(v) + "\r\n"))
  {
  }

  /** A request: the request line, header lines, and a blank line. */
  function RequestText(m: Method, k1: nat, target: string, k2: nat, v: Version,
                       hs: seq<HeaderLine>): string
    requires m != UnknownMethod && v != UnknownVersion
  {
    RequestLine(m, k1, target, k2, v) + Lines(hs) + "\r\n"
  }

  /** Every well-formed request is accepted with its verb, version, URL
   *  and headers; the text after the blank line stays unread. A repeated
   *  header name keeps its last value. As written, the version text is
   *  left in the buffer and starts the first header's name. */
  lemma ParseRequest(m: Method, k1: nat, target: string, k2: nat, v: Version,
                     hs: seq<HeaderLine>, rest: string, reading: Reading)
    requires m != UnknownMethod && v != UnknownVersion && k1 >= 1 && k2 >= 1 && TargetOk(target)
    requires forall k :: 0 <= k < |hs| ==> LineOk(hs[k])
    ensures var r := Run(Fresh(), RequestText(m, k1, target, k2, v, hs) + rest, reading);
      && r.ok && r.rest == rest
      && r.p.verb == m && r.p.version == v && r.p.url == HttpUrl.Split(target)
      && r.p.headers == Stored([], hs, VersionLeft(v, reading))
  {
    var line := RequestLine(m, k1, target, k2, v);
    FeedRequestLine(m, k1, target, k2, v, reading);
    var p := Feed(Fresh(), line, reading).value;
    FeedLines(p, hs, reading);
    Chain(Fresh(), line, p, Lines(hs), Feed(p, Lines(hs), reading).value, reading);
    var q := Feed(p, Lines(hs), reading).value;
    RunFeed(Fresh(), line + Lines(hs), "\r\n" + rest, reading);
    RunBlankLine(q, rest, reading);
    assert RequestText(m, k1, target, k2, v, hs) + rest == line + Lines(hs) + ("\r\n" + rest);
  }

  // ---------------------------------------------------------------
  // What an accepted text is made of
  // ---------------------------------------------------------------

  /** The length of the longest prefix of s whose characters a state
   *  appends to the buffer. */
  function Span(phase: Phase, s: string): (i: nat)
    ensures i <= |s| && (i < |s| ==> !Extends(phase, s[i]))
    ensures forall k :: 0 <= k < i ==> Extends(phase, s[k])
    decreases |s|
  {
    if |s| == 0 || !Extends(phase, s[0]) then 0 else 1 + Span(phase, s[1..])
  }

  /** The number of blanks s starts with. */
  function Blanks(s: string): (k: nat)
    ensures k <= |s| && s[..k] == Spaces(k) && (k < |s| ==> s[k] != ' ')
    decreases |s|
  {
    if |s| == 0 || s[0] != ' ' then 0
    else
      var k := 1 + Blanks(s[1..]);
      assert s[..k] == [s[0]] + s[1..][..k - 1];
      k
  }

  /** On the way to acceptance, a state that appends characters takes
   *  all it can, and a character it does not append follows. */
  lemma WordOf(p: Parser, s: string, reading: Reading) returns (w: string, tail: string)
    requires Run(p, s, reading).ok
    ensures s == w + tail && forall i :: 0 <= i < |w| ==> Extends(p.phase, w[i])
    ensures |tail| > 0 && !Extends(p.phase, tail[0])
    ensures Run(p, s, reading) == Run(p.(buffer := p.buffer + w), tail, reading)
  {
    var i := Span(p.phase, s);
    w, tail := s[..i], s[i..];
    FeedWord(p, w, reading);
    assert s == w + tail;
    RunFeed(p, w, tail, reading);
  }

  /** A state that skips blanks skips them all. */
  lemma BlanksOf(p: Parser, s: string, reading: Reading) returns (k: nat, tail: string)
    requires p.phase in {StartUrl, StartVersion, StartHeaderValue}
    ensures s == Spaces(k) + tail && (|tail| > 0 ==> tail[0] != ' ')
    ensures Run(p, s, reading) == Run(p, tail, reading)
  {
    k := Blanks(s);
    tail := s[k..];
    assert s == s[..k] + tail;
    FeedSpaces(p, k, reading);
    RunFeed(p, Spaces(k), tail, reading);
  }

  /** An accepted text starts with a known method's word and a blank. */
  lemma MethodOf(s: string, reading: Reading) returns (m: Method, tail: string)
    requires Run(Fresh(), s, reading).ok
    ensures m != UnknownMethod && s == MethodName(m) + " " + tail
    ensures Run(Fresh(), s, reading) == Run(Fresh().(phase := StartUrl, verb := m), tail, reading)
  {
    var w, t := WordOf(Fresh(), s, reading);
    var p := Fresh().(buffer := w);
    assert Fresh().buffer + w == w;
    assert t[0] == ' ' && ToMethod(w) != UnknownMethod;
    m, tail := ToMethod(w), t[1..];
    MethodNames(w, m);
    assert t == " " + tail;
  }

  /** On the way to acceptance, the first character after the blanks is
   *  a URL character and starts the target. */
  lemma UrlStarts(p: Parser, t: string, reading: Reading)
    requires p.phase == StartUrl && Run(p, t, reading).ok && (|t| > 0 ==> t[0] != ' ')
    ensures |t| > 0 && IsUrlPart(t[0])
    ensures Run(p, t, reading) == Run(Push(p, t[0]).(phase := ReadUrl), t[1..], reading)
  {
  }

  /** On the way to acceptance, a blank ends the target and splits it. */
  lemma UrlEnds(p: Parser, u: string, reading: Reading)
    requires p.phase == ReadUrl && Run(p, u, reading).ok && |u| > 0 && !Extends(ReadUrl, u[0])
    ensures u[..1] == " "
    ensures Run(p, u, reading)
            == Run(p.(phase := StartVersion, url := HttpUrl.Split(p.buffer), buffer := ""), u[1..], reading)
  {
  }

  /** On the way to acceptance, the rest of the target runs up to the
   *  blank that ends it. */
  lemma UrlRest(p: Parser, x: string, reading: Reading) returns (w: string, u: string)
    requires p.phase == ReadUrl && Run(p, x, reading).ok
    ensures x == w + u && forall i :: 0 <= i < |w| ==> Extends(ReadUrl, w[i])
    ensures |u| > 0 && u[..1] == " "
    ensures Run(p, x, reading)
            == Run(p.(phase := StartVersion, url := HttpUrl.Split(p.buffer + w), buffer := ""), u[1..], reading)
  {
    w, u := WordOf(p, x, reading);
    var p2 := p.(buffer := p.buffer + w);
    UrlEnds(p2, u, reading);
  }

  /** Then blanks, a target of URL characters and a blank. */
  lemma TargetOf(p: Parser, s: string, reading: Reading) returns (k: nat, target: string, tail: string)
    requires p.phase == StartUrl && p.buffer == "" && Run(p, s, reading).ok
    ensures TargetOk(target) && s == Spaces(k) + target + " " + tail
    ensures Run(p, s, reading) == Run(p.(phase := StartVersion, url := HttpUrl.Split(target)), tail, reading)
  {
    var t;
    k, t := BlanksOf(p, s, reading);
    UrlStarts(p, t, reading);
    var p1 := Push(p, t[0]).(phase := ReadUrl);
    var w, u := UrlRest(p1, t[1..], reading);
    target := [t[0]] + w;
    assert p1.buffer + w == target;
    assert p1.(phase := StartVersion, url := HttpUrl.Split(target), buffer := "")
        == p.(phase := StartVersion, url := HttpUrl.Split(target));
    tail := u[1..];
    UrlWord(t[0], w);
    Bracketed(s, Spaces(k), t, w, u, " ");
  }

  /** A URL character and the URL characters after it make a target. */
  lemma UrlWord(c: char, w: string)
    requires IsUrlPart(c) && forall i :: 0 <= i < |w| ==> Extends(ReadUrl, w[i])
    ensures TargetOk([c] + w)
  {
    forall i | 0 <= i < |[c] + w|
      ensures IsUrlPart(([c] + w)[i])
    {
      if i > 0 {
        assert ([c] + w)[i] == w[i - 1];
      }
    }
  }

  /** A text made of a, a first character, w, a separator and the rest. */
  lemma Bracketed(s: string, a: string, t: string, w: string, u: string, sep: string)
    requires s == a + t && |t| > 0 && t[1..] == w + u && |sep| <= |u| && u[..|sep|] == sep
    ensures s == a + ([t[0]] + w) + sep + u[|sep|..]
  {
    assert t == [t[0]] + t[1..] && u == u[..|sep|] + u[|sep|..];
  }

  /** Then blanks, a known version's text, CR and LF. */
  lemma VersionOf(p: Parser, s: string, reading: Reading) returns (k: nat, v: Version, tail: string)
    requires p.phase == StartVersion && p.buffer == "" && Run(p, s, reading).ok
    ensures v != UnknownVersion && s == Spaces(k) + VersionName(v) + "\r\n" + tail
    ensures Run(p, s, reading)
            == Run(p.(phase := StartHeader, version := v, buffer := VersionLeft(v, reading)), tail, reading)
  {
    var t;
    k, t := BlanksOf(p, s, reading);
    assert |t| > 0 && t[0] != ' ' && IsHttpVersionPart(t[0]) by {
      assert Run(p, t, reading).ok;
    }
    VersionStarts(p, t, reading);
    var p1 := Push(p, t[0]).(phase := ReadVersion);
    var w, u;
    w, u, v := VersionRest(p1, t[1..], reading);
    assert p1.buffer + w == [t[0]] + w;
    assert p1.(phase := StartHeader, version := v, buffer := VersionLeft(v, reading))
        == p.(phase := StartHeader, version := v, buffer := VersionLeft(v, reading));
    tail := u[2..];
    Bracketed(s, Spaces(k), t, w, u, "\r\n");
  }

  /** On the way to acceptance, the rest of the version's text runs up to
   *  CR and LF, and names a known version. */
  lemma VersionRest(p: Parser, x: string, reading: Reading) returns (w: string, u: string, v: Version)
    requires p.phase == ReadVersion && Run(p, x, reading).ok
    ensures x == w + u && v != UnknownVersion && p.buffer + w == VersionName(v)
    ensures |u| >= 2 && u[..2] == "\r\n"
    ensures Run(p, x, reading)
            == Run(p.(phase := StartHeader, version := v, buffer := VersionLeft(v, reading)), u[2..], reading)
  {
    w, u := WordOf(p, x, reading);
    var p2 := p.(buffer := p.buffer + w);
    v := VersionEnds(p2, u, reading);
  }

  /** The first character of the version starts it. */
  lemma VersionStarts(p: Parser, t: string, reading: Reading)
    requires p.phase == StartVersion && |t| > 0 && t[0] != ' ' && IsHttpVersionPart(t[0])
    ensures Run(p, t, reading) == Run(Push(p, t[0]).(phase := ReadVersion), t[1..], reading)
  {
  }

  /** On the way to acceptance, the version's text is a known version's
   *  name, and CR and LF end it. */
  lemma VersionEnds(p: Parser, u: string, reading: Reading) returns (v: Version)
    requires p.phase == ReadVersion && |u| > 0 && !Extends(ReadVersion, u[0]) && Run(p, u, reading).ok
    ensures v != UnknownVersion && p.buffer == VersionName(v) && |u| >= 2 && u[..2] == "\r\n"
    ensures Run(p, u, reading)
            == Run(p.(phase := StartHeader, version := v, buffer := VersionLeft(v, reading)), u[2..], reading)
  {
    assert u[0] == '\r' && ToVersion(p.buffer) != UnknownVersion;
    v := ToVersion(p.buffer);
    VersionNames(p.buffer, v);
    var p3 := p.(phase := RequestEnd, version := v, buffer := VersionLeft(v, reading));
    assert Run(p, u, reading) == Run(p3, u[1..], reading);
    assert |u[1..]| > 0 && u[1] == '\n';
    assert u[1..][1..] == u[2..];
  }

  /** A header name and ':', on the way to acceptance. */
  lemma NameOf(p: Parser, s: string, reading: Reading) returns (name: string, tail: string)
    requires p.phase == StartHeader && Run(p, s, reading).ok && |s| > 0 && s[0] != '\r'
    ensures NameText(name) && s == name + ":" + tail
    ensures Run(p, s, reading)
            == Run(p.(phase := StartHeaderValue, name := p.buffer + name, buffer := ""), tail, reading)
  {
    assert IsHeaderPart(s[0]);
    var p1 := Push(p, s[0]).(phase := ReadHeader);
    assert Run(p, s, reading) == Run(p1, s[1..], reading);
    var w, u := WordOf(p1, s[1..], reading);
    name := [s[0]] + w;
    assert p1.buffer + w == p.buffer + name;
    assert u[0] == ':';
    tail := u[1..];
    assert s == [s[0]] + s[1..] && u == ":" + tail;
  }

  /** Blanks, a header value, CR and LF, on the way to acceptance. */
  lemma ValueOf(p: Parser, s: string, reading: Reading) returns (gap: nat, value: string, tail: string)
    requires p.phase == StartHeaderValue && p.buffer == "" && Run(p, s, reading).ok
    ensures ValueText(value) && value[0] != ' ' && s == Spaces(gap) + value + "\r\n" + tail
    ensures Run(p, s, reading)
            == Run(p.(phase := StartHeader, headers := Insert(p.headers, p.name, value)), tail, reading)
  {
    var x;
    gap, x := BlanksOf(p, s, reading);
    assert |x| > 0 && IsHeaderValuePart(x[0]);
    var p1 := Push(p, x[0]).(phase := ReadHeaderValue);
    assert Run(p, x, reading) == Run(p1, x[1..], reading);
    var w, y := WordOf(p1, x[1..], reading);
    value := [x[0]] + w;
    assert p1.buffer + w == value;
    assert y[0] == '\r';
    var p2 := p.(phase := EndHeader, buffer := value);
    assert Run(p, s, reading) == Run(p2, y[1..], reading);
    assert |y[1..]| > 0 && y[1] == '\n';
    tail := y[2..];
    assert x == [x[0]] + x[1..] && y == "\r\n" + tail;
  }

  /** A header line, on the way to acceptance. */
  lemma LineOf(p: Parser, s: string, reading: Reading) returns (h: HeaderLine, tail: string, q: Parser)
    requires p.phase == StartHeader && Run(p, s, reading).ok && |s| > 0 && s[0] != '\r'
    ensures LineOk(h) && s == LineText(h) + tail && q.phase == StartHeader
    ensures Run(p, s, reading) == Run(q, tail, reading)
  {
    var name, u := NameOf(p, s, reading);
    var p1 := p.(phase := StartHeaderValue, name := p.buffer + name, buffer := "");
    var gap, value;
    gap, value, tail := ValueOf(p1, u, reading);
    q := p1.(phase := StartHeader, headers := Insert(p1.headers, p1.name, value));
    h := HeaderLine(name, gap, value);
    assert s == name + ":" + (Spaces(gap) + value + "\r\n" + tail);
  }

  /** Header lines and the blank line, on the way to acceptance. */
  lemma {:induction false} HeadersOf(p: Parser, s: string, reading: Reading) returns (hs: seq<HeaderLine>, rest: string)
    requires p.phase == StartHeader && Run(p, s, reading).ok
    ensures forall k :: 0 <= k < |hs| ==> LineOk(hs[k])
    ensures s == Lines(hs) + "\r\n" + rest
    decreases |s|
  {
    if s[0] == '\r' {
      var q := p.(phase := EndHeaders);
      assert Run(p, s, reading) == Run(q, s[1..], reading);
      assert |s[1..]| > 0 && s[1] == '\n';
      hs, rest := [], s[2..];
      assert s == "\r\n" + rest;
    } else {
      var h, t, q := LineOf(p, s, reading);
      var more;
      more, rest := HeadersOf(q, t, reading);
      hs := [h] + more;
      assert hs[0] == h && hs[1..] == more;
      assert Lines(hs) == LineText(h) + Lines(more);
      LinesJoined(s, LineText(h), t, Lines(more), rest);
      forall k | 0 <= k < |hs|
        ensures LineOk(hs[k])
      {
        if k > 0 {
          assert hs[k] == more[k - 1];
        }
      }
    }
  }

  /** A line, then the text after it. */
  lemma LinesJoined(s: string, a: string, t: string, b: string, rest: string)
    requires s == a + t && t == b + "\r\n" + rest
    ensures s == a + b + "\r\n" + rest
  {
  }

  /** A request's text, cut where the parse moves between its parts. */
  lemma RequestTextParts(m: Method, j1: nat, target: string, j2: nat, v: Version,
                         hs: seq<HeaderLine>, rest: string)
    requires m != UnknownMethod && v != UnknownVersion
    ensures RequestText(m, j1 + 1, target, j2 + 1, v, hs) + rest
            == MethodName(m) + " " + (Spaces(j1) + target + " " + (Spaces(j2) + VersionName(v) + "\r\n"
               + (Lines(hs) + "\r\n" + rest)))
  {
    var a, s1, s2, l := MethodName(m), Spaces(j1), Spaces(j2), Lines(hs);
    assert Spaces(j1 + 1) == " " + s1 && Spaces(j2 + 1) == " " + s2;
    assert RequestText(m, j1 + 1, target, j2 + 1, v, hs)
           == a + (" " + s1) + target + (" " + s2) + VersionName(v) + "\r\n" + l + "\r\n";
    Regroup(a, s1, target, s2, VersionName(v), l, rest);
  }

  lemma Regroup(a: string, s1: string, t: string, s2: string, w: string, l: string, rest: string)
    ensures a + (" " + s1) + t + (" " + s2) + w + "\r\n" + l + "\r\n" + rest
            == a + " " + (s1 + t + " " + (s2 + w + "\r\n" + (l + "\r\n" + rest)))
  {
  }

  /** The converse of `ParseRequest`: every text `parse` accepts is a
   *  method, blanks, a target, blanks, a version, CR LF, header lines and
   *  a blank line, followed by the unread rest; so what it holds is what
   *  `ParseRequest` describes. */
  lemma RequestOf(s: string, reading: Reading)
    returns (m: Method, k1: nat, target: string, k2: nat, v: Version, hs: seq<HeaderLine>, rest: string)
    requires Run(Fresh(), s, reading).ok
    ensures m != UnknownMethod && v != UnknownVersion && k1 >= 1 && k2 >= 1 && TargetOk(target)
    ensures forall k :: 0 <= k < |hs| ==> LineOk(hs[k])
    ensures s == RequestText(m, k1, target, k2, v, hs) + rest
    ensures var r := Run(Fresh(), s, reading);
      && r.rest == rest
      && r.p.verb == m && r.p.version == v && r.p.url == HttpUrl.Split(target)
      && r.p.headers == Stored([], hs, VersionLeft(v, reading))
  {
    var t1, t2, t3, j1, j2;
    m, t1 := MethodOf(s, reading);
    var p1 := Fresh().(phase := StartUrl, verb := m);
    j1, target, t2 := TargetOf(p1, t1, reading);
    var p2 := p1.(phase := StartVersion, url := HttpUrl.Split(target));
    j2, v, t3 := VersionOf(p2, t2, reading);
    var p3 := p2.(phase := StartHeader, version := v, buffer := VersionLeft(v, reading));
    hs, rest := HeadersOf(p3, t3, reading);
    k1, k2 := j1 + 1, j2 + 1;
    RequestTextParts(m, j1, target, j2, v, hs, rest);
    ParseRequest(m, k1, target, k2, v, hs, rest, reading);
  }

  // ---------------------------------------------------------------
  // Keep-alive and Content-Length
  // ---------------------------------------------------------------

  /** `isKeepAlive`: HTTP/1.1 always; HTTP/1.0 only with the header
   *  "Connection: Keep-alive". */
  predicate KeepAlive(version: Version, headers: seq<(string, string)>)
  {
    version == Http11 || (version == Http10 && Find(headers, "Connection") == Some("Keep-alive"))
  }

  /** An HTTP/1.1 request is kept alive whatever its headers; an HTTP/1.0
   *  request exactly when its last "Connection" line says "Keep-alive". */
  lemma KeepAliveOfRequest(m: Method, target: string, v: Version, hs: seq<HeaderLine>, rest: string)
    requires m != UnknownMethod && v != UnknownVersion && TargetOk(target)
    requires forall k :: 0 <= k < |hs| ==> LineOk(hs[k])
    ensures var r := Run(Fresh(), RequestText(m, 1, target, 1, v, hs) + rest, Intended);
      r.ok && (KeepAlive(r.p.version, r.p.headers) <==>
               v == Http11 || (v == Http10 && Find(Stored([], hs, ""), "Connection") == Some("Keep-alive")))
  {
    ParseRequest(m, 1, target, 1, v, hs, rest, Intended);
  }

  /** The request "GET / HTTP/1.0" with the single header line
   *  "Connection: Keep-alive": as written the header is stored under
   *  "HTTP/1.0Connection" and the connection is closed. */
  lemma FirstHeaderPrefixed()
    ensures var t := RequestText(Get, 1, "/", 1, Http10, [HeaderLine("Connection", 1, "Keep-alive")]);
      && Run(Fresh(), t, AsWritten).ok
      && Run(Fresh(), t, AsWritten).p.headers == [("HTTP/1.0Connection", "Keep-alive")]
      && !KeepAlive(Run(Fresh(), t, AsWritten).p.version, Run(Fresh(), t, AsWritten).p.headers)
  {
    var h := HeaderLine("Connection", 1, "Keep-alive");
    assert LineOk(h);
    var t := RequestText(Get, 1, "/", 1, Http10, [h]);
    assert TargetOk("/");
    ParseRequest(Get, 1, "/", 1, Http10, [h], "", AsWritten);
    assert t + "" == t;
    assert [h][1..] == [];
    assert "HTTP/1.0" + "Connection" == "HTTP/1.0Connection";
    assert Stored([], [h], "HTTP/1.0") == Insert([], "HTTP/1.0Connection", "Keep-alive");
    assert "HTTP/1.0Connection" != "Connection" by {
      assert |"HTTP/1.0Connection"| != |"Connection"|;
    }
  }

  /** The same request as intended: the header is stored under its own
   *  name and the connection is kept alive. */
  lemma FirstHeaderKeptAlive()
    ensures var t := RequestText(Get, 1, "/", 1, Http10, [HeaderLine("Connection", 1, "Keep-alive")]);
      && Run(Fresh(), t, Intended).ok
      && Run(Fresh(), t, Intended).p.headers == [("Connection", "Keep-alive")]
      && KeepAlive(Run(Fresh(), t, Intended).p.version, Run(Fresh(), t, Intended).p.headers)
  {
    var h := HeaderLine("Connection", 1, "Keep-alive");
    assert LineOk(h);
    var t := RequestText(Get, 1, "/", 1, Http10, [h]);
    assert TargetOk("/");
    ParseRequest(Get, 1, "/", 1, Http10, [h], "", Intended);
    assert t + "" == t;
    assert [h][1..] == [];
    assert Stored([], [h], "") == Insert([], "" + "Connection", "Keep-alive");
    assert "" + "Connection" == "Connection";
  }

  /** The decimal digits `operator<<` writes for n. */
  function Decimal(n: nat): (s: string)
    ensures |s| > 0 && forall i :: 0 <= i < |s| ==> IsNum(s[i])
    decreases n
  {
    if n < 10 then [HexDigit(n)] else Decimal(n / 10) + [HexDigit(n % 10)]
  }

  /** The value of a run of decimal digits. */
  function DigitsValue(s: string): nat
    requires forall i :: 0 <= i < |s| ==> IsNum(s[i])
    decreases |s|
  {
    if |s| == 0 then 0 else DigitsValue(s[..|s| - 1]) * 10 + HexVal(s[|s| - 1])
  }

  /** The longest prefix of decimal digits. */
  function LeadingDigits(s: string): (d: string)
    ensures |d| <= |s| && d == s[..|d|] && forall i :: 0 <= i < |d| ==> IsNum(d[i])
    ensures |d| < |s| ==> !IsNum(s[|d|])
    decreases |s|
  {
    if |s| == 0 || !IsNum(s[0]) then "" else [s[0]] + LeadingDigits(s[1..])
  }

  function SkipCSpace(s: string): (t: string)
    decreases |s|
  {
    if |s| > 0 && IsCSpace(s[0]) then SkipCSpace(s[1..]) else s
  }

  /** `atol`: blanks, an optional sign, then the leading digits. */
  function Atol(s: string): int
  {
    var t := SkipCSpace(s);
    if |t| > 0 && t[0] == '-' then -(DigitsValue(LeadingDigits(t[1..])) as int)
    else if |t| > 0 && t[0] == '+' then DigitsValue(LeadingDigits(t[1..]))
    else DigitsValue(LeadingDigits(t))
  }

  lemma {:induction false} DecimalValue(n: nat)
    ensures DigitsValue(Decimal(n)) == n
    decreases n
  {
    if n >= 10 {
      DecimalValue(n / 10);
      HexDigitVal(n % 10);
      var d := Decimal(n);
      assert d[..|d| - 1] == Decimal(n / 10);
    } else {
      HexDigitVal(n);
      assert Decimal(n)[..0] == [];
    }
  }

  lemma {:induction false} AllDigitsLeading(s: string)
    requires forall i :: 0 <= i < |s| ==> IsNum(s[i])
    ensures LeadingDigits(s) == s
  {
  }

  /** The Content-Length a request reports: `atol` of the header, as a
   *  `size_t`. */
  function ContentLength(headers: seq<(string, string)>): int
    requires "Content-Length" in Keys(headers)
  {
    U64(Atol(Find(headers, "Content-Length").value))
  }

  function U64(x: int): (r: int)
    ensures 0 <= r < 0x1_0000_0000_0000_0000
  {
    x % 0x1_0000_0000_0000_0000
  }

  /** A Content-Length written as decimal digits reads back as its
   *  value. */
  lemma ContentLengthDecimal(headers: seq<(string, string)>, n: nat)
    requires n < 0x8000_0000_0000_0000
    requires Find(headers, "Content-Length") == Some(Decimal(n))
    ensures "Content-Length" in Keys(headers) && ContentLength(headers) == n
  {
    var d := Decimal(n);
    assert SkipCSpace(d) == d by {
      assert IsNum(d[0]);
    }
    AllDigitsLeading(d);
    DecimalValue(n);
    assert Atol(d) == n by {
      assert IsNum(d[0]);
    }
    assert U64(n) == n;
  }

  // ---------------------------------------------------------------
  // The request object
  // ---------------------------------------------------------------

  /** `Request`: the verb, version, URL and headers `parse` fills in. */
  class Request {
    var verb: Method
    var version: Version
    var url: HttpUrl.UrlValue
    var headers: seq<(string, string)>

    /** `Request(connection)`: an unknown verb, no URL and no headers.
     *  The version is left uninitialised by the source; here it is the
     *  unknown version. */
    constructor ()
      ensures verb == UnknownMethod && version == UnknownVersion
      ensures url == EmptyUrl && headers == []
    {
      verb := UnknownMethod;
      version := UnknownVersion;
      url := EmptyUrl;
      headers := [];
    }

    /** `parse`: reads the input a character at a time; returns whether it
     *  was accepted and the text it left unread. */
    method Parse(input: string, reading: Reading) returns (ok: bool, rest: string)
      modifies this
      ensures var r := Run(Begin(old(verb), old(version), old(url), old(headers)), input, reading);
        && ok == r.ok && rest == r.rest
        && verb == r.p.verb && version == r.p.version && url == r.p.url && headers == r.p.headers
    {
      var phase := ReadMethod;
      var buffer := "";
      var name := "";
      ghost var start := Begin(verb, version, url, headers);
      var i := 0;
      while i < |input|
        invariant 0 <= i <= |input|
        invariant Run(Parser(phase, buffer, name, verb, version, url, headers), input[i..], reading)
                  == Run(start, input, reading)
        decreases |input| - i
      {
        var c := input[i];
        assert input[i..][0] == c && input[i..][1..] == input[i + 1..];
        i := i + 1;
        match phase {
          case ReadMethod =>
            if IsSpace(c) {
              verb := ToMethod(buffer);
              if verb == UnknownMethod {
                return false, input[i..];
              }
              phase := StartUrl;
              buffer := "";
            } else if IsAlphaNum(c) {
              buffer := buffer + [c];
            } else {
              return false, input[i..];
            }
          case StartUrl =>
            if IsSpace(c) {
            } else if IsUrlPart(c) {
              phase := ReadUrl;
              buffer := buffer + [c];
            } else {
              return false, input[i..];
            }
          case ReadUrl =>
            if IsSpace(c) {
              phase := StartVersion;
              var u := HttpUrl.Url.FromString(buffer);
              url := u.Value();
              buffer := "";
            } else if IsUrlPart(c) {
              buffer := buffer + [c];
            } else {
              return false, input[i..];
            }
          case StartVersion =>
            if IsSpace(c) {
            } else if IsHttpVersionPart(c) {
              buffer := buffer + [c];
              phase := ReadVersion;
            } else {
              return false, input[i..];
            }
          case ReadVersion =>
            if IsCr(c) {
              version := ToVersion(buffer);
              if reading == Intended {
                buffer := "";
              }
              if version == UnknownVersion {
                return false, input[i..];
              }
              phase := RequestEnd;
            } else if IsHttpVersionPart(c) {
              buffer := buffer + [c];
            } else {
              return false, input[i..];
            }
          case RequestEnd =>
            if IsNl(c) {
              phase := StartHeader;
            } else {
              return false, input[i..];
            }
          case StartHeader =>
            if IsCr(c) {
              phase := EndHeaders;
            } else if IsHeaderPart(c) {
              buffer := buffer + [c];
              phase := ReadHeader;
            } else {
              return false, input[i..];
            }
          case ReadHeader =>
            if IsHeaderPart(c) {
              buffer := buffer + [c];
            } else if IsColon(c) {
              name := buffer;
              buffer := "";
              phase := StartHeaderValue;
            } else {
              return false, input[i..];
            }
          case StartHeaderValue =>
            if IsSpace(c) {
            } else if IsHeaderValuePart(c) {
              buffer := buffer + [c];
              phase := ReadHeaderValue;
            } else {
              return false, input[i..];
            }
          case ReadHeaderValue =>
            if IsHeaderValuePart(c) {
              buffer := buffer + [c];
            } else if IsCr(c) {
              phase := EndHeader;
            } else {
              return false, input[i..];
            }
          case EndHeader =>
            if IsNl(c) {
              headers := Insert(headers, name, buffer);
              buffer := "";
              phase := StartHeader;
            } else {
              return false, input[i..];
            }
          case EndHeaders =>
            return IsNl(c), input[i..];
        }
      }
      return false, "";
    }

    /** `isKeepAlive`. */
    predicate IsKeepAlive()
      reads this
    {
      KeepAlive(version, headers)
    }

    /** `hasContentLength`. */
    predicate HasContentLength()
      reads this
    {
      "Content-Length" in Keys(headers)
    }

    /** `contentLength`: the header must be there (the source dereferences
     *  the result of `find`). */
    function ContentLengthOf(): int
      reads this
      requires HasContentLength()
    {
      ContentLength(headers)
    }
  }

  // ---------------------------------------------------------------
  // The response header
  // ---------------------------------------------------------------

  /** `Response::Status`. */
  datatype Status = StatusOk | StatusBadRequest | StatusNotFound | StatusServerError

  function StatusCode(s: Status): nat
  {
    match s
    case StatusOk => 200
    case StatusBadRequest => 400
    case StatusNotFound => 404
    case StatusServerError => 500
  }

  /** The status line after "HTTP/1.1 ". */
  function StatusLine(s: Status): string
  {
    match s
    case StatusOk => "200 OK\r\n"
    case StatusBadRequest => "400 BAD REQUEST\r\n"
    case StatusNotFound => "404 NOT FOUND\r\n"
    case StatusServerError => "500 SERVER ERROR\r\n"
  }

  /** Each status line starts with the status code in decimal, a blank,
   *  and ends with CR LF. */
  lemma StatusLineCode(s: Status)
    ensures var t := StatusLine(s);
      |t| > 6 && t[..4] == Decimal(StatusCode(s)) + " " && t[|t| - 2..] == "\r\n"
  {
    var n := StatusCode(s);
    assert Decimal(n) == Decimal(n / 10) + [HexDigit(n % 10)];
    assert Decimal(n / 10) == Decimal(n / 100) + [HexDigit(n / 10 % 10)];
  }

  /** "name: value" CR LF for every header, in key order. */
  function HeaderBlock(h: seq<(string, string)>): string
    decreases |h|
  {
    if |h| == 0 then "" else h[0].0 + ": " + h[0].1 + "\r\n" + HeaderBlock(h[1..])
  }

  /** The text `sendHeaders` sends. */
  function HeadText(s: Status, h: seq<(string, string)>): string
  {
    "HTTP/1.1 " + StatusLine(s) + HeaderBlock(h) + "\r\n"
  }

  /** The header lines of a header block, each with one blank after ':'. */
  function LinesOf(h: seq<(string, string)>): (hs: seq<HeaderLine>)
    ensures |hs| == |h|
    ensures forall k :: 0 <= k < |h| ==> hs[k] == HeaderLine(h[k].0, 1, h[k].1)
    decreases |h|
  {
    if |h| == 0 then [] else [HeaderLine(h[0].0, 1, h[0].1)] + LinesOf(h[1..])
  }

  lemma {:induction false} BlockLines(h: seq<(string, string)>)
    ensures HeaderBlock(h) == Lines(LinesOf(h))
    decreases |h|
  {
    if |h| > 0 {
      BlockLines(h[1..]);
      assert LinesOf(h)[1..] == LinesOf(h[1..]);
      assert Spaces(1) == " ";
      assert h[0].0 + ": " + h[0].1 + "\r\n" == LineText(LinesOf(h)[0]);
      assert HeaderBlock(h) == (h[0].0 + ": " + h[0].1 + "\r\n") + HeaderBlock(h[1..]);
    }
  }

  /** Storing the lines of a sorted header map, in order, gives the map
   *  back. */
  lemma {:induction false} StoredSorted(e: seq<(string, string)>, h: seq<(string, string)>)
    requires Sorted(e + h)
    ensures Stored(e, LinesOf(h), "") == e + h
    decreases |h|
  {
    if |h| == 0 {
      assert e + h == e;
    } else {
      SortedSplit(e, h);
      InsertLast(e, h[0].0, h[0].1);
      assert "" + h[0].0 == h[0].0;
      assert LinesOf(h)[1..] == LinesOf(h[1..]);
      StoredSorted(e + [h[0]], h[1..]);
    }
  }

  /** Header maps whose every entry is a line `parse` accepts. */
  predicate Sendable(h: seq<(string, string)>)
  {
    Sorted(h) && forall k :: 0 <= k < |h| ==> LineOk(HeaderLine(h[k].0, 1, h[k].1))
  }

  function Names(hs: seq<HeaderLine>): set<string>
  {
    set k | 0 <= k < |hs| :: hs[k].name
  }

  lemma {:induction false} StoredKeys(e: seq<(string, string)>, hs: seq<HeaderLine>, prefix: string)
    ensures Keys(Stored(e, hs, prefix))
      == Keys(e) + (if |hs| == 0 then {} else {prefix + hs[0].name} + Names(hs[1..]))
    decreases |hs|
  {
    if |hs| > 0 {
      var e' := Insert(e, prefix + hs[0].name, hs[0].value);
      InsertKeys(e, prefix + hs[0].name, hs[0].value);
      StoredKeys(e', hs[1..], "");
      var t := hs[1..];
      if |t| > 0 {
        assert "" + t[0].name == t[0].name;
        assert t[1..] == hs[2..];
        assert Names(t) == {t[0].name} + Names(t[1..]) by {
          forall x | x in Names(t) ensures x in {t[0].name} + Names(t[1..]) {
            var k :| 0 <= k < |t| && t[k].name == x;
            if k > 0 { assert t[1..][k - 1] == t[k]; }
          }
          forall x | x in Names(t[1..]) ensures x in Names(t) {
            var k :| 0 <= k < |t[1..]| && t[1..][k].name == x;
            assert t[k + 1] == t[1..][k];
          }
        }
      } else {
        assert Names(t) == {};
      }
    }
  }

  /** The header block `sendHeaders` writes is read back by `parse` as the
   *  same header map when the version text is cleared from the buffer. As
   *  written, the first header (the least name) is lost under its own name:
   *  it is stored behind the version text. */
  lemma HeaderBlockReadBack(m: Method, target: string, v: Version, h: seq<(string, string)>,
                            rest: string, reading: Reading)
    requires m != UnknownMethod && v != UnknownVersion && TargetOk(target) && Sendable(h)
    ensures var r := Run(Fresh(), RequestLine(m, 1, target, 1, v) + HeaderBlock(h) + "\r\n" + rest, reading);
      && r.ok && r.rest == rest
      && (reading == Intended ==> r.p.headers == h)
      && (reading == AsWritten && |h| > 0 ==> h[0].0 !in Keys(r.p.headers))
  {
    BlockLines(h);
    var hs := LinesOf(h);
    forall k | 0 <= k < |hs| ensures LineOk(hs[k]) {
      assert hs[k] == HeaderLine(h[k].0, 1, h[k].1);
    }
    ParseRequest(m, 1, target, 1, v, hs, rest, reading);
    if reading == Intended {
      assert [] + h == h;
      StoredSorted([], h);
    }
    if reading == AsWritten && |h| > 0 {
      StoredKeys([], hs, VersionName(v));
      assert |VersionName(v) + h[0].0| != |h[0].0|;
      if h[0].0 in Names(hs[1..]) {
        var k :| 0 <= k < |hs[1..]| && hs[1..][k].name == h[0].0;
        assert hs[1..][k] == hs[k + 1];
        LessAsymmetric(h[0].0, h[k + 1].0);
      }
    }
  }

  /** `Response`: the status and the headers to send. */
  class Response {
    var status: Status
    var headers: seq<(string, string)>

    ghost predicate Valid()
      reads this
    {
      Sorted(headers)
    }

    /** `Response(connection)`: a server error until set otherwise. */
    constructor ()
      ensures Valid() && status == StatusServerError && headers == []
    {
      status := StatusServerError;
      headers := [];
    }

    method SetStatus(s: Status)
      modifies this
      ensures status == s && headers == old(headers)
    {
      status := s;
    }

    predicate HasHeader(name: string)
      reads this
    {
      name in Keys(headers)
    }

    /** `setHeader`: `_headers[name] = value`. */
    method SetHeader(name: string, value: string)
      requires Valid()
      modifies this
      ensures Valid() && status == old(status) && headers == Insert(old(headers), name, value)
      ensures forall x :: Find(headers, x) == if x == name then Some(value) else Find(old(headers), x)
    {
      InsertSorted(headers, name, value);
      forall x ensures Find(Insert(headers, name, value), x) == if x == name then Some(value) else Find(headers, x) {
        FindInsert(headers, name, value, x);
      }
      headers := Insert(headers, name, value);
    }

    /** `setContentLength`: the length in decimal under "Content-Length";
     *  a request carrying these headers reports that length when it fits
     *  the `long` that `atol` returns. */
    method SetContentLength(n: nat)
      requires Valid()
      modifies this
      ensures Valid() && status == old(status)
      ensures headers == Insert(old(headers), "Content-Length", Decimal(n))
      ensures "Content-Length" in Keys(headers)
      ensures n < 0x8000_0000_0000_0000 ==> ContentLength(headers) == n
    {
      ghost var hs := headers;
      SetHeader("Content-Length", Decimal(n));
      InsertKeys(hs, "Content-Length", Decimal(n));
      if n < 0x8000_0000_0000_0000 {
        ContentLengthDecimal(headers, n);
      }
    }

    /** The text of `sendHeaders`: "HTTP/1.1", the status line, a line per
     *  header in key order, and a blank line. */
    method SendHeaders() returns (text: string)
      ensures text == HeadText(status, headers)
    {
      text := "HTTP/1.1 ";
      match status {
        case StatusOk => text := text + "200 OK\r\n";
        case StatusBadRequest => text := text + "400 BAD REQUEST\r\n";
        case StatusNotFound => text := text + "404 NOT FOUND\r\n";
        case StatusServerError => text := text + "500 SERVER ERROR\r\n";
      }
      ghost var head := text;
      var i := 0;
      while i < |headers|
        invariant 0 <= i <= |headers|
        invariant text + HeaderBlock(headers[i..]) == head + HeaderBlock(headers)
      {
        assert headers[i..][1..] == headers[i + 1..];
        text := text + headers[i].0 + ": " + headers[i].1 + "\r\n";
        i := i + 1;
      }
      assert headers[i..] == [];
      text := text + "\r\n";
    }
  }
}
