/** The JSON values of the HTTP server (http.hh, http.cc): the value
 *  object, its serialiser, and the recursive-descent parser of the
 *  `_json_*` routines. Unlike RFC 8259, table keys are written and read
 *  as bare identifiers, not as strings.
 *
 *  The parsers advance a text pointer and a remaining count, both by
 *  reference; here they take the text and a position and return the new
 *  position. Numbers are read with `strtof` and written by the stream's
 *  double formatting; neither is modelled: a number is kept as the text the
 *  stream writes for it, and a value that starts with any character other
 *  than 'n', 't', 'f', '"', '[' and '{' is reported as reaching the number
 *  reader. */
module HttpJson {
  import opened Common
  import opened HttpText
  import opened SortedMaps

  /** `JSON`: null, a boolean, a number, a string, a list or a table (a
   *  `std::map`, kept as its entries in key order). Copying is a deep copy
   *  in the source, so a value here. The `isNull` ... `isTable`
   *  predicates are the constructor tests `Null?` ... `Table?`. */
  datatype Json =
    | Null
    | Bool(b: bool)
    | Number(text: string)
    | Text(s: string)
    | List(items: seq<Json>)
    | Table(entries: seq<(string, Json)>)

  // ---------------------------------------------------------------
  // Serialising
  // ---------------------------------------------------------------

  /** A character of a string value: as written only '"' is escaped;
   *  intended, the escape character '\' itself is escaped too, as the
   *  parser expects. */
  function EscapeChar(c: char, reading: Reading): string
  {
    if c == '"' || (reading == Intended && c == '\\') then ['\\', c] else [c]
  }

  function Escaped(s: string, reading: Reading): string
    decreases |s|
  {
    if |s| == 0 then "" else EscapeChar(s[0], reading) + Escaped(s[1..], reading)
  }

  /** `serialize`: the text written for a value. */
  function Serialized(j: Json, reading: Reading): string
    decreases j
  {
    match j
    case Null => "null"
    case Bool(b) => if b then "true" else "false"
    case Number(t) => t
    case Text(s) => "\"" + Escaped(s, reading) + "\""
    case List(items) =>
      "[" + (if |items| == 0 then "" else Serialized(items[0], reading) + ItemsTail(items, 1, reading)) + "]"
    case Table(e) =>
      "{" + (if |e| == 0 then "" else EntryText(e, 0, reading) + EntriesTail(e, 1, reading)) + "}"
  }

  /** ",item" for every item from k on. */
  function ItemsTail(items: seq<Json>, k: nat, reading: Reading): string
    requires k <= |items|
    decreases items, |items| - k
  {
    if k == |items| then "" else "," + Serialized(items[k], reading) + ItemsTail(items, k + 1, reading)
  }

  /** "key:value" for entry k. */
  function EntryText(e: seq<(string, Json)>, k: nat, reading: Reading): string
    requires k < |e|
    decreases e, 0
  {
    var p := e[k];
    assert p.1 < p;
    p.0 + ":" + Serialized(p.1, reading)
  }

  /** ",key:value" for every entry from k on. */
  function EntriesTail(e: seq<(string, Json)>, k: nat, reading: Reading): string
    requires k <= |e|
    decreases e, |e| - k + 1
  {
    if k == |e| then "" else "," + EntryText(e, k, reading) + EntriesTail(e, k + 1, reading)
  }

  /** As written, a string without '"' is written unchanged between the
   *  quotes. */
  lemma {:induction false} EscapedPlain(s: string)
    requires '"' !in s
    ensures Escaped(s, AsWritten) == s
    decreases |s|
  {
    if |s| > 0 {
      EscapedPlain(s[1..]);
      assert [s[0]] + s[1..] == s;
    }
  }

  // ---------------------------------------------------------------
  // Parsing, as functions of the remaining text
  // ---------------------------------------------------------------

  /** A parser's verdict: accepted, rejected, or the text reached the
   *  number reader, which this model does not follow. */
  datatype Status = Accepted | Rejected | AtNumber

  /** The verdict, the value of the `obj` out-parameter afterwards, and
   *  the text left after the pointer. */
  datatype Parse = Parse(status: Status, obj: Json, rest: string)

  /** Which reading the parser takes of each of its three defects, one by
   *  one: the `false` word (stored or not), the identifier test of a key,
   *  and the character that closes a table. */
  datatype Parser = Parser(words: Reading, ids: Reading, closer: Reading)

  /** The parser that takes one reading throughout. */
  function Uniform(reading: Reading): (p: Parser)
    ensures p.words == reading && p.ids == reading && p.closer == reading
  {
    Parser(reading, reading, reading)
  }

  /** A reader never moves the pointer back, and moves it on when it
   *  accepts a value. */
  predicate Advances(r: Parse, s: string)
  {
    |r.rest| <= |s| && (r.status == Accepted ==> |r.rest| < |s|)
  }

  /** `_json_skip_ws`. */
  function SkipWsText(s: string): (t: string)
    ensures |t| <= |s|
    ensures |t| > 0 ==> !IsWs(t[0])
    decreases |s|
  {
    if |s| > 0 && IsWs(s[0]) then SkipWsText(s[1..]) else s
  }

  /** `_json_parse_null` and `_json_parse_true`: the word, then the end of
   *  the text or a character that is neither a letter nor a digit. The
   *  value is stored before that last test. */
  function ReadLiteral(t: string, word: string, value: Json, obj: Json): (r: Parse)
    requires |word| > 0
    ensures Advances(r, t)
  {
    if |t| < |word| || t[..|word|] != word then Parse(Rejected, obj, t)
    else
      var u := t[|word|..];
      if |u| == 0 || !IsAlphaNum(u[0]) then Parse(Accepted, value, u)
      else Parse(Rejected, value, u)
  }

  /** `_json_parse_false`. As written it returns true WITHOUT storing the
   *  value, and stores false only on the failing path; intended, it is
   *  the same as the other two words. */
  function ReadFalse(t: string, obj: Json, parser: Parser): (r: Parse)
    ensures Advances(r, t)
  {
    if parser.words == Intended then ReadLiteral(t, "false", Bool(false), obj)
    else if |t| < 5 || t[..5] != "false" then Parse(Rejected, obj, t)
    else
      var u := t[5..];
      if |u| == 0 || !IsAlphaNum(u[0]) then Parse(Accepted, obj, u)
      else Parse(Rejected, Bool(false), u)
  }

  /** The loop of `_json_parse_string` after the opening '"': a '\' makes
   *  the next character literal; the first other '"' ends the string. */
  function StringBody(s: string, buffer: string, escape: bool, obj: Json): (r: Parse)
    ensures |r.rest| < |s| || (r.status == Rejected && r.rest == "")
    decreases |s|
  {
    if |s| == 0 then Parse(Rejected, obj, s)
    else if escape then StringBody(s[1..], buffer + [s[0]], false, obj)
    else if s[0] == '\\' then StringBody(s[1..], buffer, true, obj)
    else if s[0] == '"' then Parse(Accepted, Text(buffer), s[1..])
    else StringBody(s[1..], buffer + [s[0]], false, obj)
  }

  function ReadString(t: string, obj: Json): (r: Parse)
    requires |t| > 0
    ensures |r.rest| < |t|
  {
    StringBody(t[1..], "", false, obj)
  }

  /** The character that closes a table: ']' as written, '}' intended. */
  function Closer(parser: Parser): char
  {
    if parser.closer == AsWritten then ']' else '}'
  }

  /** The end of the identifier part of u that starts at i. */
  function IdEnd(u: string, i: nat, parser: Parser): (k: nat)
    requires i <= |u|
    ensures i <= k <= |u|
    decreases |u| - i
  {
    if i == |u| || !IsIdPart(u[i], parser.ids) then i else IdEnd(u, i + 1, parser)
  }

  /** `_json_parse_identifier`: the name and the text after it. As
   *  written every character is an identifier character, so the name is
   *  the whole remaining text. */
  function ReadIdent(u: string, parser: Parser): (r: Option<(string, string)>)
    ensures r.Some? ==> |r.value.1| < |u|
  {
    if |u| == 0 || !IsIdStart(u[0], parser.ids) then None
    else
      var k := IdEnd(u, 1, parser);
      Some((u[..k], u[k..]))
  }

  /** `_json_parse`: skip blanks, then dispatch on the first character. */
  function ReadValue(s: string, obj: Json, parser: Parser): (r: Parse)
    ensures Advances(r, s)
    decreases |s|, 2
  {
    var t := SkipWsText(s);
    if |t| == 0 then Parse(Rejected, obj, t)
    else if t[0] == 'n' then ReadLiteral(t, "null", Null, obj)
    else if t[0] == 't' then ReadLiteral(t, "true", Bool(true), obj)
    else if t[0] == 'f' then ReadFalse(t, obj, parser)
    else if t[0] == '"' then ReadString(t, obj)
    else if t[0] == '[' then ReadList(t, obj, parser)
    else if t[0] == '{' then ReadTable(t, obj, parser)
    else Parse(AtNumber, obj, t)
  }

  /** `_json_parse_list`. */
  function ReadList(t: string, obj: Json, parser: Parser): (r: Parse)
    requires |t| > 0
    ensures Advances(r, t)
    decreases |t|, 1
  {
    var u := SkipWsText(t[1..]);
    if |u| == 0 then Parse(Rejected, obj, u)
    else if u[0] == ']' then Parse(Accepted, List([]), u[1..])
    else ReadItems(u, obj, Null, [], parser)
  }

  /** The loop of `_json_parse_list`: `tmp` is the value the last item
   *  left in the reused temporary, `lst` the items so far. */
  function ReadItems(u: string, obj: Json, tmp: Json, lst: seq<Json>, parser: Parser): (r: Parse)
    ensures Advances(r, u)
    decreases |u|, 3
  {
    if |u| == 0 then Parse(Rejected, obj, u)
    else
      var r := ReadValue(u, tmp, parser);
      if r.status != Accepted then Parse(r.status, obj, r.rest)
      else ItemsAfter(SkipWsText(r.rest), obj, r.obj, lst + [r.obj], parser)
  }

  /** The rest of the list loop once an item has been read and stored:
   *  ']' ends the list, ',' goes on to the next item. */
  function ItemsAfter(w: string, obj: Json, tmp: Json, lst: seq<Json>, parser: Parser): (r: Parse)
    ensures Advances(r, w)
    decreases |w|, 4
  {
    if |w| == 0 then Parse(Rejected, obj, w)
    else if w[0] == ']' then Parse(Accepted, List(lst), w[1..])
    else if w[0] != ',' then Parse(Rejected, obj, w)
    else ReadItems(SkipWsText(w[1..]), obj, tmp, lst, parser)
  }

  /** `_json_parse_table`. */
  function ReadTable(t: string, obj: Json, parser: Parser): (r: Parse)
    requires |t| > 0
    ensures Advances(r, t)
    decreases |t|, 1
  {
    var u := SkipWsText(t[1..]);
    if |u| == 0 then Parse(Rejected, obj, u)
    else if u[0] == '}' then Parse(Accepted, Table([]), u[1..])
    else ReadEntries(u, obj, Null, [], parser)
  }

  /** The start of an entry: an identifier, blanks, ':' and blanks. */
  datatype Key = NoKey(at: string) | Key(name: string, value: string)

  function ReadKey(u: string, parser: Parser): (k: Key)
    ensures k.NoKey? ==> |k.at| <= |u|
    ensures k.Key? ==> |k.value| < |u|
  {
    match ReadIdent(u, parser)
    case None => NoKey(u)
    case Some(id) =>
      var w := SkipWsText(id.1);
      if |w| == 0 || w[0] != ':' then NoKey(w) else Key(id.0, SkipWsText(w[1..]))
  }

  /** The loop of `_json_parse_table`, at the start of an entry. */
  function ReadEntries(u: string, obj: Json, tmp: Json, table: seq<(string, Json)>,
                       parser: Parser): (r: Parse)
    ensures Advances(r, u)
    decreases |u|, 4
  {
    if |u| == 0 then Parse(Rejected, obj, u)
    else match ReadKey(u, parser)
      case NoKey(w) => Parse(Rejected, obj, w)
      case Key(name, v) => EntryValue(v, obj, tmp, table, name, parser)
  }

  /** The value of an entry, stored as `table[name] = tmp`. */
  function EntryValue(v: string, obj: Json, tmp: Json, table: seq<(string, Json)>, name: string,
                      parser: Parser): (r: Parse)
    ensures Advances(r, v)
    decreases |v|, 3
  {
    var r := ReadValue(v, tmp, parser);
    if r.status != Accepted then Parse(r.status, obj, r.rest)
    else EntriesAfter(SkipWsText(r.rest), obj, r.obj, Insert(table, name, r.obj), parser)
  }

  /** The rest of the table loop after an entry: the closing character
   *  ends the table, ',' goes on to the next entry. */
  function EntriesAfter(y: string, obj: Json, tmp: Json, table: seq<(string, Json)>,
                        parser: Parser): (r: Parse)
    ensures Advances(r, y)
    decreases |y|, 5
  {
    if |y| == 0 then Parse(Rejected, obj, y)
    else if y[0] == Closer(parser) then Parse(Accepted, Table(table), y[1..])
    else if y[0] != ',' then Parse(Rejected, obj, y)
    else ReadEntries(SkipWsText(y[1..]), obj, tmp, table, parser)
  }

  // ---------------------------------------------------------------
  // Properties of the parser
  // ---------------------------------------------------------------

  /** Identifiers as intended: a letter or '_', then letters, digits and
   *  '_'. */
  predicate Identifier(s: string)
  {
    |s| > 0 && IsIdStart(s[0], Intended) && forall i :: 0 <= i < |s| ==> IsIdPart(s[i], Intended)
  }

  /** Values the serialiser and parser can exchange under a reading.
   *  Intended: every value without numbers whose table keys are
   *  identifiers, in key order. As written: only null, true, strings
   *  without '\\', the empty table and lists of these, since "false" is
   *  not stored, a table with entries is rejected and '\\' is not
   *  escaped. */
  predicate Exchanged(j: Json, reading: Reading)
    decreases j
  {
    match j
    case Null => true
    case Bool(b) => b || reading == Intended
    case Number(_) => false
    case Text(s) => reading == Intended || '\\' !in s
    case List(items) =>
      forall k {:trigger Exchanged(items[k], reading)} :: 0 <= k < |items| ==> Exchanged(items[k], reading)
    case Table(e) =>
      && (reading == AsWritten ==> e == [])
      && Sorted(e)
      && (forall k {:trigger Identifier(e[k].0)} :: 0 <= k < |e| ==> Identifier(e[k].0))
      && (forall k {:trigger Exchanged(e[k].1, reading)} :: 0 <= k < |e| ==> Exchanged(e[k].1, reading))
  }

  /** What may follow a value: the end, or a character that is neither a
   *  letter nor a digit. */
  predicate Delimited(rest: string)
  {
    |rest| == 0 || !IsAlphaNum(rest[0])
  }

  lemma SkipNone(s: string)
    requires |s| > 0 && !IsWs(s[0])
    ensures SkipWsText(s) == s
  {
  }

  /** An exchangeable value's text starts with a character that is not
   *  blank. */
  lemma FirstChar(j: Json, reading: Reading)
    requires Exchanged(j, reading)
    ensures |Serialized(j, reading)| > 0 && Serialized(j, reading)[0] in "ntf\"[{"
    ensures !IsWs(Serialized(j, reading)[0])
  {
  }

  lemma SkipBefore(j: Json, tail: string, reading: Reading)
    requires Exchanged(j, reading)
    ensures SkipWsText(Serialized(j, reading) + tail) == Serialized(j, reading) + tail
  {
    FirstChar(j, reading);
    SkipNone(Serialized(j, reading) + tail);
  }

  /** `null`, `true` and, intended, `false` read back, followed by a
   *  delimiter. */
  lemma WordBack(word: string, value: Json, obj: Json, rest: string, reading: Reading)
    requires (word, value) in {("null", Null), ("true", Bool(true)), ("false", Bool(false))}
    requires word == "false" ==> reading == Intended
    requires Delimited(rest)
    ensures ReadValue(word + rest, obj, Uniform(reading)) == Parse(Accepted, value, rest)
  {
    var t := word + rest;
    assert t[0] == word[0];
    SkipNone(t);
    assert t[..|word|] == word && t[|word|..] == rest;
  }

  /** One character of an escaped string, read back. */
  lemma StringChar(c: char, tail: string, buffer: string, obj: Json, reading: Reading)
    requires c == '\\' ==> reading == Intended
    ensures StringBody(EscapeChar(c, reading) + tail, buffer, false, obj)
            == StringBody(tail, buffer + [c], false, obj)
  {
    var text := EscapeChar(c, reading) + tail;
    if c == '"' || c == '\\' {
      assert text[0] == '\\' && text[1..][0] == c && text[1..][1..] == tail;
    } else {
      assert text[0] == c && text[1..] == tail;
    }
  }

  /** An escaped string and its closing quote read back as the
   *  string. */
  lemma {:induction false} StringBack(s: string, buffer: string, obj: Json, rest: string, reading: Reading)
    requires '\\' in s ==> reading == Intended
    ensures StringBody(Escaped(s, reading) + ("\"" + rest), buffer, false, obj)
            == Parse(Accepted, Text(buffer + s), rest)
    decreases |s|
  {
    if |s| == 0 {
      var text := "\"" + rest;
      assert text[0] == '"' && text[1..] == rest;
      assert buffer + s == buffer;
    } else {
      var c, x := s[0], "\"" + rest;
      var tail := Escaped(s[1..], reading) + x;
      assert Escaped(s, reading) == EscapeChar(c, reading) + Escaped(s[1..], reading);
      Assoc(EscapeChar(c, reading), Escaped(s[1..], reading), x);
      StringChar(c, tail, buffer, obj, reading);
      StringBack(s[1..], buffer + [c], obj, rest, reading);
      Assoc(buffer, [c], s[1..]);
      assert [c] + s[1..] == s;
    }
  }

  lemma TextBack(s: string, obj: Json, rest: string, reading: Reading)
    requires '\\' in s ==> reading == Intended
    ensures ReadValue(Serialized(Text(s), reading) + rest, obj, Uniform(reading)) == Parse(Accepted, Text(s), rest)
  {
    var text := Serialized(Text(s), reading) + rest;
    assert text == "\"" + (Escaped(s, reading) + ("\"" + rest));
    assert text[0] == '"' && text[1..] == Escaped(s, reading) + ("\"" + rest);
    SkipNone(text);
    StringBack(s, "", obj, rest, reading);
    assert "" + s == s;
  }

  /** The identifier part of `key + tail` ends where the key ends, when
   *  the tail starts with a non-identifier character. */
  lemma {:induction false} IdEndKey(key: string, tail: string, i: nat)
    requires Identifier(key) && 1 <= i <= |key|
    requires |tail| > 0 && !IsIdPart(tail[0], Intended)
    ensures IdEnd(key + tail, i, Uniform(Intended)) == |key|
    decreases |key| - i
  {
    var u := key + tail;
    if i < |key| {
      assert u[i] == key[i];
      IdEndKey(key, tail, i + 1);
    } else {
      assert u[i] == tail[0];
    }
  }

  /** An identifier, ':' and a value's text read back as the key and
   *  the value's text. */
  lemma KeyBack(key: string, vt: string)
    requires Identifier(key) && |vt| > 0 && !IsWs(vt[0])
    ensures ReadKey(key + (":" + vt), Uniform(Intended)) == Key(key, vt)
  {
    var after := ":" + vt;
    var u := key + after;
    IdEndKey(key, after, 1);
    assert u[0] == key[0];
    assert u[..|key|] == key && u[|key|..] == after;
    SkipNone(after);
    assert after[1..] == vt;
    SkipNone(vt);
  }

  /** Under either reading, the text of every value the two sides can
   *  exchange reads back as that value, whatever the `obj` out-parameter
   *  held before, and the pointer stops right after it. */
  lemma {:induction false} ParseSerialized(j: Json, obj: Json, rest: string, reading: Reading)
    requires Exchanged(j, reading) && Delimited(rest)
    ensures ReadValue(Serialized(j, reading) + rest, obj, Uniform(reading)) == Parse(Accepted, j, rest)
    decreases j
  {
    match j
    case Null => WordBack("null", Null, obj, rest, reading);
    case Bool(b) =>
      if b { WordBack("true", Bool(true), obj, rest, reading); } else { WordBack("false", Bool(false), obj, rest, reading); }
    case Text(s) => TextBack(s, obj, rest, reading);
    case List(items) => ListBack(items, obj, rest, reading);
    case Table(e) => if reading == Intended { TableBack(e, obj, rest); } else { TableEmpty(obj, rest, reading); }
  }

  /** `_json_parse` on a '[': the list loop, unless the list is empty. */
  lemma OpenList(body: string, obj: Json, parser: Parser)
    ensures ReadValue("[" + body, obj, parser)
            == var u := SkipWsText(body);
               if |u| == 0 then Parse(Rejected, obj, u)
               else if u[0] == ']' then Parse(Accepted, List([]), u[1..])
               else ReadItems(u, obj, Null, [], parser)
  {
    var t := "[" + body;
    assert t[0] == '[' && t[1..] == body;
    SkipNone(t);
    assert ReadValue(t, obj, parser) == ReadList(t, obj, parser);
  }

  /** `_json_parse` on a '{': the table loop, unless the table is empty. */
  lemma OpenTable(body: string, obj: Json, parser: Parser)
    ensures ReadValue("{" + body, obj, parser)
            == var u := SkipWsText(body);
               if |u| == 0 then Parse(Rejected, obj, u)
               else if u[0] == '}' then Parse(Accepted, Table([]), u[1..])
               else ReadEntries(u, obj, Null, [], parser)
  {
    var t := "{" + body;
    assert t[0] == '{' && t[1..] == body;
    SkipNone(t);
    assert ReadValue(t, obj, parser) == ReadTable(t, obj, parser);
  }

  lemma Assoc(a: string, b: string, c: string)
    ensures (a + b) + c == a + (b + c)
  {
  }

  /** A list's text followed by more text, grouped from the right. */
  lemma ListText(items: seq<Json>, rest: string, reading: Reading)
    requires |items| > 0
    ensures Serialized(List(items), reading) + rest
            == "[" + (Serialized(items[0], reading) + (ItemsTail(items, 1, reading) + ("]" + rest)))
  {
    var first, tail := Serialized(items[0], reading), ItemsTail(items, 1, reading);
    assert Serialized(List(items), reading) == ("[" + (first + tail)) + "]";
    Assoc("[" + (first + tail), "]", rest);
    Assoc("[", first + tail, "]" + rest);
    Assoc(first, tail, "]" + rest);
  }

  /** A table's text followed by more text, grouped from the right. */
  lemma TableText(e: seq<(string, Json)>, rest: string)
    requires |e| > 0
    ensures Serialized(Table(e), Intended) + rest
            == "{" + (EntryText(e, 0, Intended) + (EntriesTail(e, 1, Intended) + ("}" + rest)))
  {
    var first, tail := EntryText(e, 0, Intended), EntriesTail(e, 1, Intended);
    assert Serialized(Table(e), Intended) == ("{" + (first + tail)) + "}";
    Assoc("{" + (first + tail), "}", rest);
    Assoc("{", first + tail, "}" + rest);
    Assoc(first, tail, "}" + rest);
  }

  /** "[]" reads back as the empty list. */
  lemma ListEmpty(obj: Json, rest: string, reading: Reading)
    ensures ReadValue(Serialized(List([]), reading) + rest, obj, Uniform(reading)) == Parse(Accepted, List([]), rest)
  {
    var body := "]" + rest;
    assert Serialized(List([]), reading) == "[" + "]";
    Assoc("[", "]", rest);
    OpenList(body, obj, Uniform(reading));
    SkipNone(body);
    assert body[1..] == rest;
  }

  /** A '[' and a first item that is not blank start the list loop. */
  lemma ListOpen(items: seq<Json>, obj: Json, rest: string, reading: Reading)
    requires |items| > 0 && Exchanged(items[0], reading)
    ensures ReadValue(Serialized(List(items), reading) + rest, obj, Uniform(reading))
            == ReadItems(Serialized(items[0], reading) + (ItemsTail(items, 1, reading) + ("]" + rest)),
                         obj, Null, items[..0], Uniform(reading))
  {
    var body := Serialized(items[0], reading) + (ItemsTail(items, 1, reading) + ("]" + rest));
    ListText(items, rest, reading);
    OpenList(body, obj, Uniform(reading));
    FirstChar(items[0], reading);
    assert body[0] == Serialized(items[0], reading)[0];
    SkipNone(body);
    assert items[..0] == [];
  }

  /** The text of a list of exchangeable values reads back as the list. */
  lemma {:induction false} ListBack(items: seq<Json>, obj: Json, rest: string, reading: Reading)
    requires forall i {:trigger Exchanged(items[i], reading)} :: 0 <= i < |items| ==> Exchanged(items[i], reading)
    requires Delimited(rest)
    ensures ReadValue(Serialized(List(items), reading) + rest, obj, Uniform(reading)) == Parse(Accepted, List(items), rest)
    decreases items, 1
  {
    if |items| == 0 {
      ListEmpty(obj, rest, reading);
    } else {
      assert Exchanged(items[0], reading);
      ListOpen(items, obj, rest, reading);
      ItemsBack(items, 0, obj, Null, rest, reading);
    }
  }

  /** "{}" reads back as the empty table. */
  lemma TableEmpty(obj: Json, rest: string, reading: Reading)
    ensures ReadValue(Serialized(Table([]), reading) + rest, obj, Uniform(reading)) == Parse(Accepted, Table([]), rest)
  {
    var body := "}" + rest;
    assert Serialized(Table([]), reading) == "{" + "}";
    Assoc("{", "}", rest);
    OpenTable(body, obj, Uniform(reading));
    SkipNone(body);
    assert body[1..] == rest;
  }

  /** A '{' and a first entry that is not blank start the table loop. */
  lemma TableOpen(e: seq<(string, Json)>, obj: Json, rest: string)
    requires |e| > 0
    requires var t := EntryText(e, 0, Intended) + (EntriesTail(e, 1, Intended) + ("}" + rest));
             SkipWsText(t) == t && t[0] != '}'
    ensures ReadValue(Serialized(Table(e), Intended) + rest, obj, Uniform(Intended))
            == ReadEntries(EntryText(e, 0, Intended) + (EntriesTail(e, 1, Intended) + ("}" + rest)),
                           obj, Null, e[..0], Uniform(Intended))
  {
    var body := EntryText(e, 0, Intended) + (EntriesTail(e, 1, Intended) + ("}" + rest));
    TableText(e, rest);
    OpenTable(body, obj, Uniform(Intended));
    assert e[..0] == [];
  }

  /** Intended, the text of a table of exchangeable values reads back as
   *  the table. */
  lemma {:induction false} TableBack(e: seq<(string, Json)>, obj: Json, rest: string)
    requires Exchanged(Table(e), Intended) && Delimited(rest)
    ensures ReadValue(Serialized(Table(e), Intended) + rest, obj, Uniform(Intended)) == Parse(Accepted, Table(e), rest)
    decreases e, 1
  {
    if |e| == 0 {
      TableEmpty(obj, rest, Intended);
    } else {
      EntriesBack(e, 0, obj, Null, rest);
      TableOpen(e, obj, rest);
    }
  }

  /** What follows item k of a list's text: ']' after the last item,
   *  otherwise ',' and the next item. */
  lemma ItemsShape(items: seq<Json>, k: nat, rest: string, reading: Reading)
    requires k < |items|
    ensures ItemsTail(items, k + 1, reading) + ("]" + rest)
            == if k + 1 == |items| then "]" + rest
               else "," + (Serialized(items[k + 1], reading) + (ItemsTail(items, k + 2, reading) + ("]" + rest)))
  {
  }

  /** The list loop after an item followed by ','. */
  lemma ItemsNext(u: string, obj: Json, tmp: Json, lst: seq<Json>, item: Json, next: string, reading: Reading)
    requires ReadValue(u, tmp, Uniform(reading)) == Parse(Accepted, item, "," + next)
    requires |next| > 0 && !IsWs(next[0])
    ensures ReadItems(u, obj, tmp, lst, Uniform(reading)) == ReadItems(next, obj, item, lst + [item], Uniform(reading))
  {
    var tail := "," + next;
    SkipNone(tail);
    assert tail[1..] == next;
    SkipNone(next);
  }

  /** The list loop after its last item and the ']'. */
  lemma ItemsLast(u: string, obj: Json, tmp: Json, lst: seq<Json>, item: Json, rest: string, reading: Reading)
    requires ReadValue(u, tmp, Uniform(reading)) == Parse(Accepted, item, "]" + rest)
    ensures ReadItems(u, obj, tmp, lst, Uniform(reading)) == Parse(Accepted, List(lst + [item]), rest)
  {
    var tail := "]" + rest;
    SkipNone(tail);
    assert tail[1..] == rest;
  }

  /** The last item of a list and the closing ']' end the list. */
  lemma ItemsEnd(items: seq<Json>, k: nat, obj: Json, tmp: Json, rest: string, reading: Reading)
    requires k + 1 == |items|
    requires ReadValue(Serialized(items[k], reading) + (ItemsTail(items, k + 1, reading) + ("]" + rest)), tmp, Uniform(reading))
             == Parse(Accepted, items[k], ItemsTail(items, k + 1, reading) + ("]" + rest))
    ensures ReadItems(Serialized(items[k], reading) + (ItemsTail(items, k + 1, reading) + ("]" + rest)),
                      obj, tmp, items[..k], Uniform(reading))
            == Parse(Accepted, List(items), rest)
  {
    var tail := ItemsTail(items, k + 1, reading) + ("]" + rest);
    ItemsShape(items, k, rest, reading);
    ItemsLast(Serialized(items[k], reading) + tail, obj, tmp, items[..k], items[k], rest, reading);
    TakeSucc(items, k);
    assert items[..k + 1] == items;
  }

  /** An item of a list followed by ',' hands the loop on to the next one. */
  lemma ItemsStep(items: seq<Json>, k: nat, obj: Json, tmp: Json, rest: string, reading: Reading)
    requires k + 1 < |items| && Exchanged(items[k + 1], reading)
    requires ReadValue(Serialized(items[k], reading) + (ItemsTail(items, k + 1, reading) + ("]" + rest)), tmp, Uniform(reading))
             == Parse(Accepted, items[k], ItemsTail(items, k + 1, reading) + ("]" + rest))
    ensures ReadItems(Serialized(items[k], reading) + (ItemsTail(items, k + 1, reading) + ("]" + rest)),
                      obj, tmp, items[..k], Uniform(reading))
            == ReadItems(Serialized(items[k + 1], reading) + (ItemsTail(items, k + 2, reading) + ("]" + rest)),
                         obj, items[k], items[..k + 1], Uniform(reading))
  {
    var tail := ItemsTail(items, k + 1, reading) + ("]" + rest);
    var after := ItemsTail(items, k + 2, reading) + ("]" + rest);
    ItemsShape(items, k, rest, reading);
    FirstChar(items[k + 1], reading);
    ItemsNext(Serialized(items[k], reading) + tail, obj, tmp, items[..k], items[k],
              Serialized(items[k + 1], reading) + after, reading);
    TakeSucc(items, k);
  }

  /** The items of a list from the k-th on, and the closing ']', read
   *  back as the whole list. */
  lemma {:induction false} ItemsBack(items: seq<Json>, k: nat, obj: Json, tmp: Json, rest: string, reading: Reading)
    requires k < |items| && forall i {:trigger Exchanged(items[i], reading)} :: 0 <= i < |items| ==> Exchanged(items[i], reading)
    requires Delimited(rest)
    ensures ReadItems(Serialized(items[k], reading) + (ItemsTail(items, k + 1, reading) + ("]" + rest)),
                      obj, tmp, items[..k], Uniform(reading))
            == Parse(Accepted, List(items), rest)
    decreases items, 0, |items| - k
  {
    assert Exchanged(items[k], reading);
    ItemsShape(items, k, rest, reading);
    ParseSerialized(items[k], tmp, ItemsTail(items, k + 1, reading) + ("]" + rest), reading);
    if k + 1 == |items| {
      ItemsEnd(items, k, obj, tmp, rest, reading);
    } else {
      assert Exchanged(items[k + 1], reading);
      ItemsStep(items, k, obj, tmp, rest, reading);
      ItemsBack(items, k + 1, obj, items[k], rest, reading);
    }
  }

  /** The text of entry k starts with its key, which is not blank. */
  lemma EntryFirst(e: seq<(string, Json)>, k: nat, tail: string)
    requires k < |e| && Sorted(e)
    requires forall i {:trigger Identifier(e[i].0)} :: 0 <= i < |e| ==> Identifier(e[i].0)
    requires forall i {:trigger Exchanged(e[i].1, Intended)} :: 0 <= i < |e| ==> Exchanged(e[i].1, Intended)
    ensures SkipWsText(EntryText(e, k, Intended) + tail) == EntryText(e, k, Intended) + tail
    ensures (EntryText(e, k, Intended) + tail)[0] != '}'
  {
    assert Identifier(e[k].0);
    var t := EntryText(e, k, Intended) + tail;
    assert t[0] == e[k].0[0];
    SkipNone(t);
  }

  /** Entry k's text is its key, ':' and its value's text; then comes
   *  '}' after the last entry, otherwise ',' and the next entry. */
  lemma EntriesShape(e: seq<(string, Json)>, k: nat, rest: string)
    requires k < |e|
    ensures EntryText(e, k, Intended) + (EntriesTail(e, k + 1, Intended) + ("}" + rest))
            == e[k].0 + (":" + (Serialized(e[k].1, Intended) + (EntriesTail(e, k + 1, Intended) + ("}" + rest))))
    ensures EntriesTail(e, k + 1, Intended) + ("}" + rest)
            == if k + 1 == |e| then "}" + rest
               else "," + (EntryText(e, k + 1, Intended) + (EntriesTail(e, k + 2, Intended) + ("}" + rest)))
  {
  }

  /** The table loop after an entry followed by ','. */
  lemma EntryNext(u: string, obj: Json, tmp: Json, table: seq<(string, Json)>, key: string, vt: string,
                  item: Json, next: string)
    requires ReadKey(u, Uniform(Intended)) == Key(key, vt)
    requires ReadValue(vt, tmp, Uniform(Intended)) == Parse(Accepted, item, "," + next)
    requires |next| > 0 && !IsWs(next[0])
    ensures ReadEntries(u, obj, tmp, table, Uniform(Intended)) == ReadEntries(next, obj, item, Insert(table, key, item), Uniform(Intended))
  {
    assert |u| > 0;
    var tail := "," + next;
    assert ReadEntries(u, obj, tmp, table, Uniform(Intended)) == EntryValue(vt, obj, tmp, table, key, Uniform(Intended));
    SkipNone(tail);
    assert tail[1..] == next;
    SkipNone(next);
    assert EntryValue(vt, obj, tmp, table, key, Uniform(Intended))
           == EntriesAfter(tail, obj, item, Insert(table, key, item), Uniform(Intended));
  }

  /** The table loop after its last entry and the '}'. */
  lemma EntryLast(u: string, obj: Json, tmp: Json, table: seq<(string, Json)>, key: string, vt: string,
                  item: Json, rest: string)
    requires ReadKey(u, Uniform(Intended)) == Key(key, vt)
    requires ReadValue(vt, tmp, Uniform(Intended)) == Parse(Accepted, item, "}" + rest)
    ensures ReadEntries(u, obj, tmp, table, Uniform(Intended)) == Parse(Accepted, Table(Insert(table, key, item)), rest)
  {
    assert |u| > 0;
    var tail := "}" + rest;
    assert ReadEntries(u, obj, tmp, table, Uniform(Intended)) == EntryValue(vt, obj, tmp, table, key, Uniform(Intended));
    SkipNone(tail);
    assert tail[1..] == rest;
    assert EntryValue(vt, obj, tmp, table, key, Uniform(Intended))
           == EntriesAfter(tail, obj, item, Insert(table, key, item), Uniform(Intended));
  }

  /** Adding entry k to the entries before it, which are all smaller. */
  lemma InsertNext(e: seq<(string, Json)>, k: nat)
    requires k < |e| && Sorted(e)
    ensures Insert(e[..k], e[k].0, e[k].1) == e[..k + 1]
  {
    forall i | 0 <= i < k
      ensures Less(e[..k][i].0, e[k].0)
    {
      assert e[..k][i] == e[i];
    }
    InsertLast(e[..k], e[k].0, e[k].1);
    assert e[..k] + [(e[k].0, e[k].1)] == e[..k + 1];
  }

  /** The last entry of a table and the closing '}' end the table. */
  lemma EntriesEnd(e: seq<(string, Json)>, k: nat, obj: Json, tmp: Json, rest: string)
    requires k + 1 == |e| && Sorted(e) && Identifier(e[k].0) && Exchanged(e[k].1, Intended)
    requires ReadValue(Serialized(e[k].1, Intended) + (EntriesTail(e, k + 1, Intended) + ("}" + rest)), tmp, Uniform(Intended))
             == Parse(Accepted, e[k].1, EntriesTail(e, k + 1, Intended) + ("}" + rest))
    ensures ReadEntries(EntryText(e, k, Intended) + (EntriesTail(e, k + 1, Intended) + ("}" + rest)),
                        obj, tmp, e[..k], Uniform(Intended))
            == Parse(Accepted, Table(e), rest)
  {
    var key, v := e[k].0, e[k].1;
    var tail := EntriesTail(e, k + 1, Intended) + ("}" + rest);
    var vt := Serialized(v, Intended) + tail;
    EntriesShape(e, k, rest);
    FirstChar(v, Intended);
    KeyBack(key, vt);
    InsertNext(e, k);
    EntryLast(EntryText(e, k, Intended) + tail, obj, tmp, e[..k], key, vt, v, rest);
    assert e[..k + 1] == e;
  }

  /** An entry of a table followed by ',' hands the loop on to the next one. */
  lemma EntriesStep(e: seq<(string, Json)>, k: nat, obj: Json, tmp: Json, rest: string)
    requires k + 1 < |e| && Sorted(e)
    requires forall i {:trigger Identifier(e[i].0)} :: 0 <= i < |e| ==> Identifier(e[i].0)
    requires forall i {:trigger Exchanged(e[i].1, Intended)} :: 0 <= i < |e| ==> Exchanged(e[i].1, Intended)
    requires ReadValue(Serialized(e[k].1, Intended) + (EntriesTail(e, k + 1, Intended) + ("}" + rest)), tmp, Uniform(Intended))
             == Parse(Accepted, e[k].1, EntriesTail(e, k + 1, Intended) + ("}" + rest))
    ensures ReadEntries(EntryText(e, k, Intended) + (EntriesTail(e, k + 1, Intended) + ("}" + rest)),
                        obj, tmp, e[..k], Uniform(Intended))
            == ReadEntries(EntryText(e, k + 1, Intended) + (EntriesTail(e, k + 2, Intended) + ("}" + rest)),
                           obj, e[k].1, e[..k + 1], Uniform(Intended))
  {
    var key, v := e[k].0, e[k].1;
    var tail := EntriesTail(e, k + 1, Intended) + ("}" + rest);
    var vt := Serialized(v, Intended) + tail;
    var next := EntryText(e, k + 1, Intended) + (EntriesTail(e, k + 2, Intended) + ("}" + rest));
    EntriesShape(e, k, rest);
    assert Identifier(key) && Exchanged(v, Intended);
    FirstChar(v, Intended);
    KeyBack(key, vt);
    EntryFirst(e, k + 1, EntriesTail(e, k + 2, Intended) + ("}" + rest));
    InsertNext(e, k);
    EntryNext(EntryText(e, k, Intended) + tail, obj, tmp, e[..k], key, vt, v, next);
  }

  /** The entries of a table from the k-th on, and the closing '}', read
   *  back as the whole table. */
  lemma {:induction false} EntriesBack(e: seq<(string, Json)>, k: nat, obj: Json, tmp: Json, rest: string)
    requires k < |e| && Sorted(e)
    requires forall i {:trigger Identifier(e[i].0)} :: 0 <= i < |e| ==> Identifier(e[i].0)
    requires forall i {:trigger Exchanged(e[i].1, Intended)} :: 0 <= i < |e| ==> Exchanged(e[i].1, Intended)
    requires Delimited(rest)
    ensures ReadEntries(EntryText(e, k, Intended) + (EntriesTail(e, k + 1, Intended) + ("}" + rest)),
                        obj, tmp, e[..k], Uniform(Intended))
            == Parse(Accepted, Table(e), rest)
    ensures var t := EntryText(e, k, Intended) + (EntriesTail(e, k + 1, Intended) + ("}" + rest));
            SkipWsText(t) == t && t[0] != '}'
    decreases e, 0, |e| - k
  {
    EntryFirst(e, k, EntriesTail(e, k + 1, Intended) + ("}" + rest));
    var p := e[k];
    assert p.1 < p;
    assert Identifier(p.0) && Exchanged(p.1, Intended);
    EntriesShape(e, k, rest);
    ParseSerialized(p.1, tmp, EntriesTail(e, k + 1, Intended) + ("}" + rest), Intended);
    if k + 1 == |e| {
      EntriesEnd(e, k, obj, tmp, rest);
    } else {
      EntriesStep(e, k, obj, tmp, rest);
      EntriesBack(e, k + 1, obj, p.1, rest);
    }
  }

  /** `null` and `true` followed by a letter or digit are rejected, though
   *  the out-parameter already holds the value. */
  lemma WordFollowed(word: string, value: Json, c: char, rest: string, obj: Json, parser: Parser)
    requires (word == "null" && value == Null) || (word == "true" && value == Bool(true))
    requires IsAlphaNum(c)
    ensures ReadValue(word + [c] + rest, obj, parser) == Parse(Rejected, value, [c] + rest)
  {
    var t := word + [c] + rest;
    SkipNone(t);
    assert t[..4] == word && t[4..] == [c] + rest;
  }

  /** As written, "false" is accepted but leaves the out-parameter as it
   *  was, so "[false]" reads as a list holding null. */
  lemma FalseKeepsObject(obj: Json)
    ensures ReadValue("false", obj, Uniform(AsWritten)) == Parse(Accepted, obj, "")
    ensures ReadValue("[false]", obj, Uniform(AsWritten)) == Parse(Accepted, List([Null]), "")
  {
    SkipNone("false");
    assert "false"[..5] == "false";
    SkipNone("[false]");
    assert "[false]"[1..] == "false]";
    SkipNone("false]");
    assert "false]"[..5] == "false" && "false]"[5..] == "]";
    SkipNone("]");
    assert [] + [Null] == [Null];
  }

  /** The identifier test as written, whatever the parser's other two
   *  readings: the identifier of the first entry swallows the rest of the
   *  text, so every table that is not empty is rejected. */
  lemma TableAsWritten(u: string, obj: Json, p: Parser)
    requires p.ids == AsWritten
    requires |SkipWsText(u)| > 0 && SkipWsText(u)[0] != '}'
    ensures ReadValue("{" + u, obj, p).status == Rejected
  {
    OpenTable(u, obj, p);
    var v := SkipWsText(u);
    AllIdent(v, 1, p);
    assert v[..|v|] == v && v[|v|..] == "";
    assert ReadIdent(v, p) == Some((v, ""));
    assert ReadKey(v, p) == NoKey("");
  }

  /** The table closer on its own, with the other two defects read as
   *  intended: as written a table is closed by ']' and a '}' after an
   *  entry is rejected, so "{a:null]" is a table and "{a:null}" is not. */
  lemma ClosedByBracket(obj: Json)
    ensures ReadValue("{a:null]", obj, Parser(Intended, Intended, AsWritten))
            == Parse(Accepted, Table([("a", Null)]), "")
    ensures ReadValue("{a:null}", obj, Parser(Intended, Intended, AsWritten)).status == Rejected
  {
    var p := Parser(Intended, Intended, AsWritten);
    ClosedEntry(']', obj, p);
    assert "{a:null]" == "{a:null" + [']'];
    assert EntriesAfter("]", obj, Null, [("a", Null)], p) == Parse(Accepted, Table([("a", Null)]), "");
    ClosedEntry('}', obj, p);
    assert "{a:null}" == "{a:null" + ['}'];
  }

  /** "{a:null" and one more character: the entry is read, and the
   *  character decides. */
  lemma ClosedEntry(c: char, obj: Json, p: Parser)
    requires p.ids == Intended && (c == ']' || c == '}')
    ensures ReadValue("{a:null" + [c], obj, p)
            == EntriesAfter([c], obj, Null, [("a", Null)], p)
  {
    var body := "a:null" + [c];
    assert "{a:null" + [c] == "{" + body;
    OpenTable(body, obj, p);
    SkipNone(body);
    EntryA(c, obj, p);
  }

  lemma EntryA(c: char, obj: Json, p: Parser)
    requires p.ids == Intended && !IsAlphaNum(c) && !IsWs(c)
    ensures ReadEntries("a:null" + [c], obj, Null, [], p)
            == EntriesAfter([c], obj, Null, [("a", Null)], p)
  {
    var v := "null" + [c];
    assert "a:null" + [c] == "a" + (":" + v);
    KeyA(v, p);
    NullBefore(c, p);
    SkipNone([c]);
    assert Insert([], "a", Null) == [("a", Null)];
  }

  lemma KeyA(v: string, p: Parser)
    requires p.ids == Intended && |v| > 0 && !IsWs(v[0])
    ensures ReadKey("a" + (":" + v), p) == Key("a", v)
  {
    var u := "a" + (":" + v);
    assert u[0] == 'a' && u[1] == ':' && u[..1] == "a" && u[1..] == ":" + v;
    assert IsIdStart('a', p.ids) && !IsIdPart(':', p.ids);
    assert IdEnd(u, 1, p) == 1;
    SkipNone(":" + v);
    assert (":" + v)[1..] == v;
    SkipNone(v);
  }

  lemma NullBefore(c: char, p: Parser)
    requires !IsAlphaNum(c)
    ensures ReadValue("null" + [c], Null, p) == Parse(Accepted, Null, [c])
  {
    var v := "null" + [c];
    SkipNone(v);
    assert v[0] == 'n' && v[..4] == "null" && v[4..] == [c];
  }

  lemma {:induction false} AllIdent(u: string, i: nat, p: Parser)
    requires p.ids == AsWritten && 1 <= i <= |u|
    ensures IdEnd(u, i, p) == |u|
    decreases |u| - i
  {
    if i < |u| {
      AllIdent(u, i + 1, p);
    }
  }

  /** As written, a string holding a '\' is written with the '\'
   *  unescaped, and its text is not read back: "\\" becomes the three
   *  characters '"', '\', '"', in which the '\' escapes the closing
   *  quote. */
  lemma BackslashAsWritten(obj: Json)
    ensures Serialized(Text("\\"), AsWritten) == "\"\\\""
    ensures ReadValue(Serialized(Text("\\"), AsWritten), obj, Uniform(AsWritten)).status == Rejected
  {
    assert Escaped("\\", AsWritten) == "\\";
    var t := "\"\\\"";
    SkipNone(t);
    assert t[1..] == "\\\"";
    assert "\\\""[1..] == "\"";
    assert "\""[1..] == "";
  }

  // ---------------------------------------------------------------
  // The routines
  //
  // Each routine takes the text from the pointer on (the pointer and the
  // remaining count together) and returns the text left after it.
  // ---------------------------------------------------------------

  /** `_json_skip_ws`. */
  method SkipWs(text: string) returns (rest: string)
    ensures rest == SkipWsText(text)
  {
    rest := text;
    while |rest| > 0 && IsWs(rest[0])
      invariant SkipWsText(rest) == SkipWsText(text)
      decreases |rest|
    {
      rest := rest[1..];
    }
  }

  /** `_json_parse_null` and `_json_parse_true`. */
  method ParseWord(text: string, word: string, value: Json, obj: Json) returns (st: Status, rest: string, o: Json)
    requires |word| > 0
    ensures Parse(st, o, rest) == ReadLiteral(text, word, value, obj)
  {
    if |text| < |word| || text[..|word|] != word {
      return Rejected, text, obj;
    }
    rest := text[|word|..];
    o := value;
    st := if |rest| == 0 || !IsAlphaNum(rest[0]) then Accepted else Rejected;
  }

  /** `_json_parse_false`, which stores the value only when it fails. */
  method ParseFalse(text: string, obj: Json, parser: Parser) returns (st: Status, rest: string, o: Json)
    ensures Parse(st, o, rest) == ReadFalse(text, obj, parser)
  {
    if parser.words == Intended {
      st, rest, o := ParseWord(text, "false", Bool(false), obj);
      return;
    }
    if |text| < 5 || text[..5] != "false" {
      return Rejected, text, obj;
    }
    rest := text[5..];
    if |rest| == 0 || !IsAlphaNum(rest[0]) {
      st, o := Accepted, obj;
    } else {
      st, o := Rejected, Bool(false);
    }
  }

  /** `_json_parse_string`, with the pointer on the opening '"'. */
  method ParseString(text: string, obj: Json) returns (st: Status, rest: string, o: Json)
    requires |text| > 0
    ensures Parse(st, o, rest) == ReadString(text, obj)
  {
    rest := text[1..];
    var buffer := "";
    var escape := false;
    while |rest| > 0
      invariant StringBody(rest, buffer, escape, obj) == ReadString(text, obj)
      decreases |rest|
    {
      var c := rest[0];
      if escape {
        buffer := buffer + [c];
        escape := false;
      } else if c == '\\' {
        escape := true;
      } else if c == '"' {
        return Accepted, rest[1..], Text(buffer);
      } else {
        buffer := buffer + [c];
      }
      rest := rest[1..];
    }
    return Rejected, rest, obj;
  }

  /** `_json_parse_identifier`: false, or the name and the text after
   *  it. */
  method ParseIdentifier(text: string, parser: Parser) returns (ok: bool, rest: string, name: string)
    ensures ReadIdent(text, parser) == if ok then Some((name, rest)) else None
  {
    if |text| == 0 || !IsIdStart(text[0], parser.ids) {
      return false, text, "";
    }
    var k := 1;
    while k < |text| && IsIdPart(text[k], parser.ids)
      invariant 1 <= k <= |text|
      invariant IdEnd(text, k, parser) == IdEnd(text, 1, parser)
    {
      k := k + 1;
    }
    return true, text[k..], text[..k];
  }

  /** The identifier, the ':' and the blanks around it, as the table
   *  loop reads them. */
  method ParseKey(text: string, parser: Parser) returns (k: Key)
    ensures k == ReadKey(text, parser)
  {
    var found, after, name := ParseIdentifier(text, parser);
    if !found {
      return NoKey(text);
    }
    var w := SkipWs(after);
    if |w| == 0 || w[0] != ':' {
      return NoKey(w);
    }
    var v := SkipWs(w[1..]);
    return Key(name, v);
  }

  /** `_json_parse`. */
  method ParseValue(text: string, obj: Json, parser: Parser) returns (st: Status, rest: string, o: Json)
    ensures Parse(st, o, rest) == ReadValue(text, obj, parser)
    decreases |text|, 2
  {
    var t := SkipWs(text);
    if |t| == 0 {
      return Rejected, t, obj;
    }
    var c := t[0];
    if c == 'n' {
      st, rest, o := ParseWord(t, "null", Null, obj);
    } else if c == 't' {
      st, rest, o := ParseWord(t, "true", Bool(true), obj);
    } else if c == 'f' {
      st, rest, o := ParseFalse(t, obj, parser);
    } else if c == '"' {
      st, rest, o := ParseString(t, obj);
    } else if c == '[' {
      st, rest, o := ParseList(t, obj, parser);
    } else if c == '{' {
      st, rest, o := ParseTable(t, obj, parser);
    } else {
      st, rest, o := AtNumber, t, obj;
    }
  }

  /** `_json_parse_list`, with the pointer on the '['. */
  method ParseList(text: string, obj: Json, parser: Parser) returns (st: Status, rest: string, o: Json)
    requires |text| > 0
    ensures Parse(st, o, rest) == ReadList(text, obj, parser)
    decreases |text|, 1
  {
    rest := SkipWs(text[1..]);
    if |rest| == 0 {
      return Rejected, rest, obj;
    }
    if rest[0] == ']' {
      return Accepted, rest[1..], List([]);
    }
    var lst: seq<Json> := [];
    var tmp := Null;
    while |rest| > 0
      invariant |rest| < |text|
      invariant ReadItems(rest, obj, tmp, lst, parser) == ReadList(text, obj, parser)
      decreases |rest|
    {
      var s, after, item := ParseValue(rest, tmp, parser);
      if s != Accepted {
        return s, after, obj;
      }
      tmp := item;
      lst := lst + [tmp];
      var w := SkipWs(after);
      if |w| == 0 {
        return Rejected, w, obj;
      }
      if w[0] == ']' {
        return Accepted, w[1..], List(lst);
      }
      if w[0] != ',' {
        return Rejected, w, obj;
      }
      rest := SkipWs(w[1..]);
    }
    return Rejected, rest, obj;
  }

  /** `_json_parse_table`, with the pointer on the '{'. */
  method ParseTable(text: string, obj: Json, parser: Parser) returns (st: Status, rest: string, o: Json)
    requires |text| > 0
    ensures Parse(st, o, rest) == ReadTable(text, obj, parser)
    decreases |text|, 1
  {
    rest := SkipWs(text[1..]);
    if |rest| == 0 {
      return Rejected, rest, obj;
    }
    if rest[0] == '}' {
      return Accepted, rest[1..], Table([]);
    }
    var table: seq<(string, Json)> := [];
    var tmp := Null;
    while |rest| > 0
      invariant |rest| < |text|
      invariant ReadEntries(rest, obj, tmp, table, parser) == ReadTable(text, obj, parser)
      decreases |rest|
    {
      var key := ParseKey(rest, parser);
      if key.NoKey? {
        return Rejected, key.at, obj;
      }
      var name, v := key.name, key.value;
      assert EntryValue(v, obj, tmp, table, name, parser) == ReadTable(text, obj, parser);
      var s, after, item := ParseValue(v, tmp, parser);
      if s != Accepted {
        return s, after, obj;
      }
      tmp := item;
      table := Insert(table, name, tmp);
      var y := SkipWs(after);
      assert EntriesAfter(y, obj, tmp, table, parser) == ReadTable(text, obj, parser);
      if |y| == 0 {
        return Rejected, y, obj;
      }
      if y[0] == Closer(parser) {
        return Accepted, y[1..], Table(table);
      }
      if y[0] != ',' {
        return Rejected, y, obj;
      }
      rest := SkipWs(y[1..]);
      assert ReadEntries(rest, obj, tmp, table, parser) == ReadTable(text, obj, parser);
    }
    return Rejected, rest, obj;
  }

  /** `JSON::parse`: whether the text starts with a value, and the value
   *  the out-parameter holds afterwards. */
  method ParseText(text: string, obj: Json, parser: Parser) returns (st: Status, o: Json)
    ensures (st, o) == (ReadValue(text, obj, parser).status, ReadValue(text, obj, parser).obj)
  {
    var rest;
    st, rest, o := ParseValue(text, obj, parser);
  }

  lemma Regroup(a: string, b: string, c: string, d: string)
    ensures ((a + b) + c) + d == a + ((b + c) + d)
  {
    Assoc(a + b, c, d);
    Assoc(a, b, c + d);
    Assoc(b, c, d);
  }

  lemma Regroup5(a: string, b: string, c: string, d: string, e: string)
    ensures (((a + b) + c) + d) + e == a + (b + ((c + d) + e))
  {
    Regroup(a + b, c, d, e);
    Assoc(a, b, (c + d) + e);
  }

  /** `serialize(std::ostream&)`: appends the text of j to the stream. */
  method Serialize(j: Json, reading: Reading, stream: string) returns (out: string)
    ensures out == stream + Serialized(j, reading)
    decreases j, 1
  {
    match j {
      case Null => out := stream + "null";
      case Bool(b) => out := stream + (if b then "true" else "false");
      case Number(t) => out := stream + t;
      case Text(s) => out := SerializeString(s, reading, stream);
      case List(items) => out := SerializeList(items, reading, stream);
      case Table(e) => out := SerializeTable(e, reading, stream);
    }
  }

  /** The STRING case of `serialize`: the characters between quotes,
   *  escaping as `EscapeChar` says. */
  method SerializeString(s: string, reading: Reading, stream: string) returns (out: string)
    ensures out == stream + Serialized(Text(s), reading)
  {
    out := stream + "\"";
    var i := 0;
    while i < |s|
      invariant 0 <= i <= |s|
      invariant out + Escaped(s[i..], reading) == (stream + "\"") + Escaped(s, reading)
    {
      assert s[i..][1..] == s[i + 1..];
      var piece := if s[i] == '"' || (reading == Intended && s[i] == '\\') then ['\\', s[i]] else [s[i]];
      assert piece == EscapeChar(s[i], reading);
      Assoc(out, piece, Escaped(s[i + 1..], reading));
      out := out + piece;
      i := i + 1;
    }
    assert s[i..] == "";
    Regroup(stream, "\"", Escaped(s, reading), "\"");
    out := out + "\"";
  }

  /** The ARRAY case of `serialize`: the items, separated by ','. */
  method SerializeList(items: seq<Json>, reading: Reading, stream: string) returns (out: string)
    ensures out == stream + Serialized(List(items), reading)
    decreases items, 0
  {
    out := stream + "[";
    var body := "";
    if |items| > 0 {
      body := Serialized(items[0], reading) + ItemsTail(items, 1, reading);
      out := Serialize(items[0], reading, out);
      Assoc(stream + "[", Serialized(items[0], reading), ItemsTail(items, 1, reading));
      var k := 1;
      while k < |items|
        invariant 1 <= k <= |items|
        invariant out + ItemsTail(items, k, reading) == (stream + "[") + body
      {
        var next := ItemsTail(items, k + 1, reading);
        var before := out;
        out := Serialize(items[k], reading, out + ",");
        Regroup(before, ",", Serialized(items[k], reading), next);
        k := k + 1;
      }
    } else {
      assert (stream + "[") + body == stream + "[";
    }
    Regroup(stream, "[", body, "]");
    out := out + "]";
  }

  /** The TABLE case of `serialize`: `key:value` entries in key order,
   *  separated by ','. */
  method SerializeTable(e: seq<(string, Json)>, reading: Reading, stream: string) returns (out: string)
    ensures out == stream + Serialized(Table(e), reading)
    decreases e, 0
  {
    out := stream + "{";
    var body := "";
    if |e| > 0 {
      var p := e[0];
      assert p.1 < p;
      body := EntryText(e, 0, reading) + EntriesTail(e, 1, reading);
      out := Serialize(p.1, reading, out + p.0 + ":");
      Regroup(stream + "{", p.0, ":", Serialized(p.1, reading));
      Assoc(stream + "{", EntryText(e, 0, reading), EntriesTail(e, 1, reading));
      var k := 1;
      while k < |e|
        invariant 1 <= k <= |e|
        invariant out + EntriesTail(e, k, reading) == (stream + "{") + body
      {
        var q := e[k];
        assert q.1 < q;
        var next := EntriesTail(e, k + 1, reading);
        var before := out;
        out := Serialize(q.1, reading, out + "," + q.0 + ":");
        Regroup5(before, ",", q.0, ":", Serialized(q.1, reading));
        Assoc(before, "," + EntryText(e, k, reading), next);
        k := k + 1;
      }
    } else {
      assert (stream + "{") + body == stream + "{";
    }
    Regroup(stream, "{", body, "}");
    out := out + "}";
  }

  /** `serialize(std::string&)`: the same text as the stream version. */
  method SerializeText(j: Json, reading: Reading) returns (text: string)
    ensures text == Serialized(j, reading)
  {
    text := Serialize(j, reading, "");
  }
}
