/** APRS position reports (aprs.cc): the filter on AX.25 frames and the
 *  decoding of the information field into a location, a symbol, a time
 *  stamp and a comment, as in chapter 6 of the APRS Protocol Reference
 *  1.0.1. The payload is the frame's text, control and protocol bytes
 *  first. */
module Aprs {
  import opened Common

  // ---------------------------------------------------------------
  // Characters
  // ---------------------------------------------------------------

  /** `_payload[i]`: the terminating '\0' at the size of the string; reads
   *  further out are modelled the same way. */
  function At(s: string, i: nat): (c: char)
    ensures i < |s| ==> c == s[i]
  {
    if i < |s| then s[i] else '\0'
  }

  /** `__is_number`. */
  predicate IsNumber(c: char)
  {
    '0' <= c <= '9'
  }

  /** `int(c - 0x30)`: the value of a digit. */
  function Val(c: char): int
  {
    c as int - 0x30
  }

  /** The two-digit number at i. */
  function Two(s: string, i: nat): int
  {
    Val(At(s, i)) * 10 + Val(At(s, i + 1))
  }

  /** The digit character of d and the two-digit text of n. */
  function DigitChar(d: int): (c: char)
    requires 0 <= d < 10
    ensures IsNumber(c) && Val(c) == d
  {
    (d + 0x30) as char
  }

  function TwoText(n: int): (t: string)
    requires 0 <= n < 100
    ensures |t| == 2 && IsNumber(t[0]) && IsNumber(t[1]) && Val(t[0]) * 10 + Val(t[1]) == n
  {
    [DigitChar(n / 10), DigitChar(n % 10)]
  }

  // ---------------------------------------------------------------
  // Symbols
  // ---------------------------------------------------------------

  datatype Symbol =
    | NoSymbol | Police | Digi | Phone | Aircraft | House | Motorcycle | Car | Bbs
    | Balloon | Bus | Boat | Jogger | Wx

  /** `__toSymbol`: only the primary table '/' has symbols here; the
   *  alternate table '\\' and every other table give none. */
  function ToSymbol(table: char, sym: char): Symbol
  {
    if table == '/' then
      match sym
      case 'P' | '!' => Police
      case '%' | '&' | '(' | 'B' | 'n' | '#' => Digi
      case '[' | 'e' | '$' => Jogger
      case 'X' | '^' | 'g' | '\'' => Aircraft
      case '-' => House
      case 'b' | '<' => Motorcycle
      case '=' | '*' | 'U' | 'j' | 'k' | 'u' | 'v' | '>' => Car
      case 'Y' | 's' | 'C' => Boat
      case 'O' => Balloon
      case '_' => Wx
      case _ => NoSymbol
    else NoSymbol
  }

  /** The characters of the primary table that show each symbol. */
  function SymbolChars(s: Symbol): set<char>
  {
    match s
    case Police => {'P', '!'}
    case Digi => {'%', '&', '(', 'B', 'n', '#'}
    case Jogger => {'[', 'e', '$'}
    case Aircraft => {'X', '^', 'g', '\''}
    case House => {'-'}
    case Motorcycle => {'b', '<'}
    case Car => {'=', '*', 'U', 'j', 'k', 'u', 'v', '>'}
    case Boat => {'Y', 's', 'C'}
    case Balloon => {'O'}
    case Wx => {'_'}
    case _ => {}
  }

  /** A station gets a symbol exactly when the table is '/' and the
   *  character is one of that symbol's; the phone, BBS and bus symbols
   *  are never produced. */
  lemma SymbolTable(table: char, c: char, s: Symbol)
    requires s != NoSymbol
    ensures ToSymbol(table, c) == s <==> table == '/' && c in SymbolChars(s)
  {
  }

  lemma NoAlternateSymbols(c: char)
    ensures ToSymbol('\\', c) == NoSymbol
    ensures ToSymbol('/', c) !in {Phone, Bbs, Bus}
  {
  }

  // ---------------------------------------------------------------
  // Coordinates and time stamps
  // ---------------------------------------------------------------

  /** A coordinate as the decoder assembles it: degrees, minutes and
   *  hundredths of a minute, and the sign for south or west. */
  datatype Coord = Coord(degrees: int, minutes: int, hundredths: int, negative: bool)
  {
    /** The value in degrees the source stores as a double. */
    function Value(): real
    {
      var v := degrees as real + (minutes as real + hundredths as real / 100.0) / 60.0;
      if negative then -v else v
    }
  }

  const Zero := Coord(0, 0, 0, false)

  datatype Zone = Utc | Local

  /** The fields of the time stamp the decoder changes; the current time
   *  they are written into is not modelled. */
  datatype Stamp =
    | DayHourMinute(zone: Zone, day: int, hour: int, minute: int)
    | HourMinuteSecond(hour: int, minute: int, second: int)
    | MonthDayHourMinute(month: int, day: int, hour: int, minute: int)

  /** The result of reading a coordinate: whether it succeeded, the
   *  coordinate field afterwards (partly written on a failure) and the
   *  offset after it. */
  datatype CoordRead = CoordRead(ok: bool, coord: Coord, next: nat)

  /** Two digits at i. */
  predicate Pair(s: string, i: nat)
  {
    IsNumber(At(s, i)) && IsNumber(At(s, i + 1))
  }

  /** The minutes of a coordinate at i: two digits, '.', two digits. */
  predicate MinutesAt(s: string, i: nat)
  {
    Pair(s, i) && At(s, i + 2) == '.' && Pair(s, i + 3)
  }

  /** `_readLatitude` at i with the field holding prev: two degree digits,
   *  two minute digits, '.', two digits, then 'N' or 'S'. After the
   *  first digit the field holds the degrees read so far, and the minutes
   *  are added once all digits are read. */
  function Latitude(s: string, i: nat, prev: Coord): (r: CoordRead)
  {
    if !IsNumber(At(s, i)) then CoordRead(false, prev, i)
    else if !IsNumber(At(s, i + 1)) then CoordRead(false, Coord(Val(At(s, i)), 0, 0, false), i)
    else
      var deg := Two(s, i);
      if !MinutesAt(s, i + 2) then CoordRead(false, Coord(deg, 0, 0, false), i)
      else
        var c := Coord(deg, Two(s, i + 2), Two(s, i + 5), false);
        var h := At(s, i + 7);
        if h == 'N' || h == 'S' then CoordRead(true, c.(negative := h == 'S'), i + 8)
        else CoordRead(false, c, i)
  }

  /** `_readLongitude` at i: as a latitude with three degree digits and
   *  'E' or 'W'. */
  function Longitude(s: string, i: nat, prev: Coord): (r: CoordRead)
  {
    if !IsNumber(At(s, i)) then CoordRead(false, prev, i)
    else if !IsNumber(At(s, i + 1)) then CoordRead(false, Coord(Val(At(s, i)), 0, 0, false), i)
    else if !IsNumber(At(s, i + 2)) then CoordRead(false, Coord(Two(s, i), 0, 0, false), i)
    else
      var deg := Two(s, i) * 10 + Val(At(s, i + 2));
      if !MinutesAt(s, i + 3) then CoordRead(false, Coord(deg, 0, 0, false), i)
      else
        var c := Coord(deg, Two(s, i + 3), Two(s, i + 6), false);
        var h := At(s, i + 8);
        if h == 'E' || h == 'W' then CoordRead(true, c.(negative := h == 'W'), i + 9)
        else CoordRead(false, c, i)
  }

  /** `_readTime` at i: six digits, then 'z' (day, hour, minute in UTC),
   *  '/' (the same in local time), 'h' (hour, minute, second) or two
   *  further digits (month, day, hour, minute). */
  function Time(s: string, i: nat): (r: Option<(Stamp, nat)>)
  {
    if !(Pair(s, i) && Pair(s, i + 2) && Pair(s, i + 4)) then None
    else
      var a, b, c := Two(s, i), Two(s, i + 2), Two(s, i + 4);
      var k := At(s, i + 6);
      if k == 'z' then Some((DayHourMinute(Utc, a, b, c), i + 7))
      else if k == '/' then Some((DayHourMinute(Local, a, b, c), i + 7))
      else if k == 'h' then Some((HourMinuteSecond(a, b, c), i + 7))
      else if Pair(s, i + 6) then Some((MonthDayHourMinute(a, b, c, Two(s, i + 6)), i + 8))
      else None
  }

  // ---------------------------------------------------------------
  // Text of the fields
  // ---------------------------------------------------------------

  /** Coordinates the text format can carry. */
  predicate Fits(c: Coord, maxDegrees: int)
  {
    0 <= c.degrees <= maxDegrees && 0 <= c.minutes < 100 && 0 <= c.hundredths < 100
  }

  function LatitudeText(c: Coord): (t: string)
    requires Fits(c, 99)
    ensures |t| == 8
  {
    TwoText(c.degrees) + TwoText(c.minutes) + "." + TwoText(c.hundredths) + (if c.negative then "S" else "N")
  }

  function LongitudeText(c: Coord): (t: string)
    requires Fits(c, 999)
    ensures |t| == 9
  {
    [DigitChar(c.degrees / 100)] + TwoText(c.degrees % 100) + TwoText(c.minutes) + "."
      + TwoText(c.hundredths) + (if c.negative then "W" else "E")
  }

  /** Time stamps the text format can carry. */
  predicate StampFits(st: Stamp)
  {
    match st
    case DayHourMinute(_, d, h, m) => 0 <= d < 100 && 0 <= h < 100 && 0 <= m < 100
    case HourMinuteSecond(h, m, x) => 0 <= h < 100 && 0 <= m < 100 && 0 <= x < 100
    case MonthDayHourMinute(mo, d, h, m) => 0 <= mo < 100 && 0 <= d < 100 && 0 <= h < 100 && 0 <= m < 100
  }

  function TimeText(st: Stamp): (t: string)
    requires StampFits(st)
  {
    match st
    case DayHourMinute(z, d, h, m) => TwoText(d) + TwoText(h) + TwoText(m) + (if z == Utc then "z" else "/")
    case HourMinuteSecond(h, m, x) => TwoText(h) + TwoText(m) + TwoText(x) + "h"
    case MonthDayHourMinute(mo, d, h, m) => TwoText(mo) + TwoText(d) + TwoText(h) + TwoText(m)
  }

  /** The characters of t behind a prefix p and followed by anything
   *  are read back as t's. */
  lemma AtMiddle(p: string, t: string, rest: string)
    ensures forall j :: 0 <= j < |t| ==> At(p + t + rest, |p| + j) == t[j]
  {
    forall j | 0 <= j < |t|
      ensures At(p + t + rest, |p| + j) == t[j]
    {
      assert (p + t + rest)[|p| + j] == t[j];
    }
  }

  /** Round trip: a latitude written in the APRS format is read back, and
   *  the offset moves past its eight characters. */
  lemma LatitudeRoundTrip(p: string, c: Coord, rest: string, prev: Coord)
    requires Fits(c, 99)
    ensures Latitude(p + LatitudeText(c) + rest, |p|, prev) == CoordRead(true, c, |p| + 8)
  {
    AtMiddle(p, LatitudeText(c), rest);
  }

  /** Round trip for a longitude and its nine characters. */
  lemma LongitudeRoundTrip(p: string, c: Coord, rest: string, prev: Coord)
    requires Fits(c, 999)
    ensures Longitude(p + LongitudeText(c) + rest, |p|, prev) == CoordRead(true, c, |p| + 9)
  {
    AtMiddle(p, LongitudeText(c), rest);
  }

  /** Round trip for a time stamp. */
  lemma TimeRoundTrip(p: string, st: Stamp, rest: string)
    requires StampFits(st)
    ensures Time(p + TimeText(st) + rest, |p|) == Some((st, |p| + |TimeText(st)|))
  {
    AtMiddle(p, TimeText(st), rest);
    match st
    case DayHourMinute(_, _, _, _) =>
    case HourMinuteSecond(_, _, _) =>
    case MonthDayHourMinute(_, _, _, _) =>
  }

  // ---------------------------------------------------------------
  // Messages
  // ---------------------------------------------------------------

  /** The decoded fields of a message. `time` is None when the message
   *  leaves the current time in place. */
  datatype Fields = Fields(
    hasLocation: bool, latitude: Coord, longitude: Coord, symbol: Symbol,
    hasTime: bool, time: Option<Stamp>, comment: string)
  {
    /** `hasComment`. */
    predicate HasComment() { |comment| != 0 }
  }

  const Initial := Fields(false, Zero, Zero, NoSymbol, false, None, "")

  /** `substr(offset)` when offset is inside the payload, nothing
   *  otherwise. */
  function Rest(s: string, i: nat): string
  {
    if i < |s| then s[i..] else ""
  }

  /** `_readLocation` at i: latitude, a symbol table character,
   *  longitude, a symbol character. On a failure the coordinates keep
   *  what was read. */
  function Location(s: string, i: nat, f: Fields): (r: (bool, Fields, nat))
  {
    var lat := Latitude(s, i, f.latitude);
    if !lat.ok then (false, f.(latitude := lat.coord), i)
    else
      var lon := Longitude(s, lat.next + 1, f.longitude);
      if !lon.ok then (false, f.(latitude := lat.coord, longitude := lon.coord), i)
      else
        var sym := ToSymbol(At(s, lat.next), At(s, lon.next));
        (true, f.(latitude := lat.coord, longitude := lon.coord, symbol := sym), lon.next + 1)
  }

  /** What follows the type character at i: the time if the type has one,
   *  then the location, then the rest as comment. A failed read ends the
   *  decoding with the fields as they are. */
  function Body(s: string, i: nat, f: Fields): Fields
  {
    if f.hasTime then
      match Time(s, i)
      case None => f
      case Some((st, j)) => AfterTime(s, j, f.(time := Some(st)))
    else AfterTime(s, i, f)
  }

  function AfterTime(s: string, i: nat, f: Fields): Fields
  {
    var loc := Location(s, i, f);
    if !loc.0 then loc.1
    else if loc.2 < |s| then loc.1.(comment := s[loc.2..])
    else loc.1
  }

  /** The `Message` constructor on a payload: '=' or '!' is a location,
   *  '/' or '@' a time and a location, ';' an object (nine characters of
   *  name and a delimiter are skipped) with a time and a location; any
   *  other type makes everything from the type on the comment. */
  function Decode(s: string): Fields
  {
    var k := At(s, 2);
    if k == '=' || k == '!' then Body(s, 3, Initial.(hasLocation := true))
    else if k == '/' || k == '@' then Body(s, 3, Initial.(hasLocation := true, hasTime := true))
    else if k == ';' then Body(s, 13, Initial.(hasLocation := true, hasTime := true))
    else Initial.(comment := Rest(s, 2))
  }

  /** `handleAX25Message`: only UI frames (control 0x03) without a layer-3
   *  protocol (0xf0) are decoded. */
  function Handle(payload: string): (r: Option<Fields>)
    ensures r.Some? <==> At(payload, 0) == '\U{3}' && At(payload, 1) == '\U{f0}'
    ensures r.Some? ==> r.value == Decode(payload)
  {
    if At(payload, 0) != '\U{3}' then None
    else if At(payload, 1) != '\U{f0}' then None
    else Some(Decode(payload))
  }

  /** The frame header of a UI frame without a layer-3 protocol. */
  const Header: string := ['\U{3}', '\U{f0}']

  /** The text of a location: latitude, symbol table, longitude, symbol. */
  function LocationText(lat: Coord, table: char, lon: Coord, sym: char): (t: string)
    requires Fits(lat, 99) && Fits(lon, 999)
    ensures |t| == 19
  {
    LatitudeText(lat) + [table] + LongitudeText(lon) + [sym]
  }

  /** A location written after a prefix p is read back, and what follows
   *  it, if anything, becomes the comment. */
  lemma LocationRoundTrip(p: string, lat: Coord, table: char, lon: Coord, sym: char, rest: string, f: Fields)
    requires Fits(lat, 99) && Fits(lon, 999)
    ensures AfterTime(p + LocationText(lat, table, lon, sym) + rest, |p|, f)
      == f.(latitude := lat, longitude := lon, symbol := ToSymbol(table, sym),
            comment := if |rest| > 0 then rest else f.comment)
  {
    var p2 := p + LatitudeText(lat) + [table];
    var tail := [sym] + rest;
    var s := p2 + LongitudeText(lon) + tail;
    assert s == p + LocationText(lat, table, lon, sym) + rest;
    assert s == p + LatitudeText(lat) + ([table] + LongitudeText(lon) + tail);
    LatitudeRoundTrip(p, lat, [table] + LongitudeText(lon) + tail, f.latitude);
    LongitudeRoundTrip(p2, lon, tail, f.longitude);
    assert At(s, |p| + 8) == table && At(s, |p| + 18) == sym;
    assert |rest| > 0 ==> s[|p| + 19..] == rest;
  }

  /** A position report without time, "!" or "=", is decoded into its
   *  coordinates, its symbol and the rest as comment. */
  lemma PositionRoundTrip(k: char, lat: Coord, table: char, lon: Coord, sym: char, comment: string)
    requires k == '!' || k == '='
    requires Fits(lat, 99) && Fits(lon, 999)
    ensures var s := Header + [k] + LocationText(lat, table, lon, sym) + comment;
      Handle(s) == Some(Fields(true, lat, lon, ToSymbol(table, sym), false, None, comment))
  {
    var s := Header + [k] + LocationText(lat, table, lon, sym) + comment;
    LocationRoundTrip(Header + [k], lat, table, lon, sym, comment, Initial.(hasLocation := true));
    assert At(s, 2) == k;
  }

  /** A report with a time stamp, "/" or "@", or an object, ";" followed
   *  by a nine-character name and a delimiter, is decoded into its time
   *  stamp, its coordinates, its symbol and the rest as comment. */
  lemma TimedRoundTrip(k: char, skip: string, st: Stamp, lat: Coord, table: char, lon: Coord,
                       sym: char, comment: string)
    requires ((k == '/' || k == '@') && |skip| == 0) || (k == ';' && |skip| == 10)
    requires StampFits(st) && Fits(lat, 99) && Fits(lon, 999)
    ensures var s := Header + [k] + skip + TimeText(st) + LocationText(lat, table, lon, sym) + comment;
      Handle(s) == Some(Fields(true, lat, lon, ToSymbol(table, sym), true, Some(st), comment))
  {
    var p0 := Header + [k] + skip;
    var loc := LocationText(lat, table, lon, sym);
    var s := p0 + TimeText(st) + loc + comment;
    var f := Initial.(hasLocation := true, hasTime := true);
    assert At(s, 2) == k;
    assert |p0| == if k == ';' then 13 else 3;
    assert Decode(s) == Body(s, |p0|, f);
    TimedBody(p0, st, lat, table, lon, sym, comment, f);
  }

  /** After a prefix p, a time stamp followed by a location is read into f. */
  lemma TimedBody(p: string, st: Stamp, lat: Coord, table: char, lon: Coord, sym: char,
                  comment: string, f: Fields)
    requires StampFits(st) && Fits(lat, 99) && Fits(lon, 999) && f.hasTime
    ensures Body(p + TimeText(st) + LocationText(lat, table, lon, sym) + comment, |p|, f)
      == f.(time := Some(st), latitude := lat, longitude := lon, symbol := ToSymbol(table, sym),
            comment := if |comment| > 0 then comment else f.comment)
  {
    var loc := LocationText(lat, table, lon, sym);
    var s := p + TimeText(st) + loc + comment;
    assert s == p + TimeText(st) + (loc + comment);
    TimeRoundTrip(p, st, loc + comment);
    LocationRoundTrip(p + TimeText(st), lat, table, lon, sym, comment, f.(time := Some(st)));
  }

  /** Any other type character: no location, no time, and everything from
   *  the type character on is the comment. */
  lemma OtherTypes(s: string)
    requires At(s, 2) !in {'=', '!', '/', '@', ';'}
    ensures Decode(s) == Fields(false, Zero, Zero, NoSymbol, false, None, Rest(s, 2))
    ensures |s| > 2 ==> Decode(s).comment == s[2..]
  {
  }

  /** A failed time or location read ends the decoding: the message
   *  claims a location but has no symbol and no comment. */
  lemma FailedRead(s: string)
    requires At(s, 2) in {'=', '!', '/', '@', ';'}
    requires var i := if At(s, 2) == ';' then 13 else 3;
      var t := Time(s, i);
      if At(s, 2) in {'/', '@', ';'} then t.None? || !Location(s, t.value.1, Initial).0
      else !Location(s, i, Initial).0
    ensures Decode(s).hasLocation && Decode(s).symbol == NoSymbol && Decode(s).comment == ""
  {
  }

  // ---------------------------------------------------------------
  // The message
  // ---------------------------------------------------------------

  /** `APRS::Message`: the payload and the fields the constructor fills
   *  while it advances through the payload. */
  class Message {
    const payload: string
    var hasLocation: bool
    var latitude: Coord
    var longitude: Coord
    var symbol: Symbol
    var hasTime: bool
    var time: Option<Stamp>
    var comment: string

    function Current(): Fields
      reads this
    {
      Fields(hasLocation, latitude, longitude, symbol, hasTime, time, comment)
    }

    /** `Message(const AX25::Message &)`: the fields decoded from the
     *  payload. */
    constructor (payload: string)
      ensures this.payload == payload && Current() == Decode(payload)
    {
      this.payload := payload;
      hasLocation, latitude, longitude, symbol := false, Zero, Zero, NoSymbol;
      hasTime, time, comment := false, None, "";
      new;
      var offset := 2;
      var k := At(payload, offset);
      if k == '=' || k == '!' {
        hasLocation := true;
        offset := offset + 1;
      } else if k == '/' || k == '@' {
        hasTime, hasLocation := true, true;
        offset := offset + 1;
      } else if k == ';' {
        hasTime, hasLocation := true, true;
        offset := offset + 11;
      } else {
        if offset < |payload| {
          comment := payload[offset..];
        }
        return;
      }
      ReadBody(offset);
    }

    /** The part of the constructor after the type character. */
    method ReadBody(offset: nat)
      modifies this`latitude, this`longitude, this`symbol, this`time, this`comment
      ensures Current() == Body(payload, offset, old(Current()))
    {
      var next := offset;
      if hasTime {
        var ok;
        ok, next := ReadTime(offset);
        if !ok {
          return;
        }
      }
      ReadRest(next);
    }

    /** The location and the comment after it. */
    method ReadRest(offset: nat)
      modifies this`latitude, this`longitude, this`symbol, this`comment
      ensures Current() == AfterTime(payload, offset, old(Current()))
    {
      var ok, next := ReadLocation(offset);
      if !ok {
        return;
      }
      if next < |payload| {
        comment := payload[next..];
      }
    }

    /** `_readTime`: on success the time stamp is set and the offset is
     *  behind the time field. */
    method ReadTime(offset: nat) returns (ok: bool, next: nat)
      modifies this`time
      ensures var r := Time(payload, offset);
        ok == r.Some? && (ok ==> time == Some(r.value.0) && next == r.value.1)
        && (!ok ==> time == old(time))
    {
      next := offset;
      var a := 0;
      var b := 0;
      var c := 0;
      ok, a, next := ReadTwo(next);
      if !ok {
        return;
      }
      ok, b, next := ReadTwo(next);
      if !ok {
        return;
      }
      ok, c, next := ReadTwo(next);
      if !ok {
        return;
      }
      var k := At(payload, next);
      if k == 'z' {
        time := Some(DayHourMinute(Utc, a, b, c));
        next := next + 1;
      } else if k == '/' {
        time := Some(DayHourMinute(Local, a, b, c));
        next := next + 1;
      } else if k == 'h' {
        time := Some(HourMinuteSecond(a, b, c));
        next := next + 1;
      } else if IsNumber(k) {
        var d;
        ok, d, next := ReadTwo(next);
        if !ok {
          return;
        }
        time := Some(MonthDayHourMinute(a, b, c, d));
      } else {
        ok := false;
      }
    }

    /** Two digits at offset, as `_readTime` reads each of its numbers. */
    method ReadTwo(offset: nat) returns (ok: bool, n: int, next: nat)
      ensures ok == (IsNumber(At(payload, offset)) && IsNumber(At(payload, offset + 1)))
      ensures ok ==> n == Two(payload, offset) && next == offset + 2
    {
      n, next := 0, offset;
      if !IsNumber(At(payload, next)) {
        return false, n, next;
      }
      n := Val(At(payload, next));
      next := next + 1;
      if !IsNumber(At(payload, next)) {
        return false, n, next;
      }
      n := n * 10 + Val(At(payload, next));
      next := next + 1;
      ok := true;
    }

    /** `_readLatitude`. */
    method ReadLatitude(offset: nat) returns (ok: bool, next: nat)
      modifies this`latitude
      ensures var r := Latitude(payload, offset, old(latitude));
        ok == r.ok && latitude == r.coord && (ok ==> next == r.next)
    {
      next := offset;
      if !IsNumber(At(payload, next)) {
        return false, next;
      }
      latitude := Coord(Val(At(payload, next)), 0, 0, false);
      next := next + 1;
      if !IsNumber(At(payload, next)) {
        return false, next;
      }
      var deg := latitude.degrees * 10 + Val(At(payload, next));
      latitude := Coord(deg, 0, 0, false);
      next := next + 1;
      var min, dec;
      ok, min, dec, next := ReadMinutes(next);
      if !ok {
        return;
      }
      latitude := Coord(deg, min, dec, false);
      var h := At(payload, next);
      if h == 'N' {
        next := next + 1;
      } else if h == 'S' {
        latitude := latitude.(negative := true);
        next := next + 1;
      } else {
        ok := false;
      }
    }

    /** `_readLongitude`. */
    method ReadLongitude(offset: nat) returns (ok: bool, next: nat)
      modifies this`longitude
      ensures var r := Longitude(payload, offset, old(longitude));
        ok == r.ok && longitude == r.coord && (ok ==> next == r.next)
    {
      next := offset;
      if !IsNumber(At(payload, next)) {
        return false, next;
      }
      longitude := Coord(Val(At(payload, next)), 0, 0, false);
      next := next + 1;
      if !IsNumber(At(payload, next)) {
        return false, next;
      }
      longitude := Coord(longitude.degrees * 10 + Val(At(payload, next)), 0, 0, false);
      next := next + 1;
      if !IsNumber(At(payload, next)) {
        return false, next;
      }
      var deg := longitude.degrees * 10 + Val(At(payload, next));
      longitude := Coord(deg, 0, 0, false);
      next := next + 1;
      var min, dec;
      ok, min, dec, next := ReadMinutes(next);
      if !ok {
        return;
      }
      longitude := Coord(deg, min, dec, false);
      var h := At(payload, next);
      if h == 'E' {
        next := next + 1;
      } else if h == 'W' {
        next := next + 1;
        longitude := longitude.(negative := true);
      } else {
        ok := false;
      }
    }

    /** The minutes part shared by both coordinates: two digits, '.', two
     *  digits. */
    method ReadMinutes(offset: nat) returns (ok: bool, min: int, dec: int, next: nat)
      ensures ok == (IsNumber(At(payload, offset)) && IsNumber(At(payload, offset + 1))
        && At(payload, offset + 2) == '.' && IsNumber(At(payload, offset + 3)) && IsNumber(At(payload, offset + 4)))
      ensures ok ==> min == Two(payload, offset) && dec == Two(payload, offset + 3) && next == offset + 5
    {
      min, dec := 0, 0;
      ok, min, next := ReadTwo(offset);
      if !ok {
        return;
      }
      if At(payload, next) != '.' {
        return false, min, dec, next;
      }
      next := next + 1;
      ok, dec, next := ReadTwo(next);
    }

    /** `_readLocation`. */
    method ReadLocation(offset: nat) returns (ok: bool, next: nat)
      modifies this`latitude, this`longitude, this`symbol
      ensures var r := Location(payload, offset, old(Current()));
        ok == r.0 && Current() == r.1 && (ok ==> next == r.2)
    {
      ok, next := ReadLatitude(offset);
      if !ok {
        return;
      }
      var table := At(payload, next);
      next := next + 1;
      ok, next := ReadLongitude(next);
      if !ok {
        return;
      }
      symbol := ToSymbol(table, At(payload, next));
      next := next + 1;
    }
  }
}
