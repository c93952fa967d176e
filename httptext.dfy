/** Character classes, request methods, protocol versions and hexadecimal
 *  digits shared by the HTTP server's URL, request and JSON code
 *  (http.cc). Characters stand for the bytes of a `std::string`; the
 *  range tests of the source are on a signed `char`, so a byte of 128 or
 *  more fails every one of them, as a code point of 128 or more does
 *  here. */
module HttpText {

  /** Two readings of a routine with a defect: the code as written and the
   *  evidently intended code. Routines that have no defect ignore it. */
  datatype Reading = AsWritten | Intended

  predicate IsCr(c: char) { c == '\r' }
  predicate IsNl(c: char) { c == '\n' }
  predicate IsColon(c: char) { c == ':' }

  predicate IsAlpha(c: char)
  {
    ('A' <= c <= 'Z') || ('a' <= c <= 'z')
  }

  predicate IsNum(c: char)
  {
    '0' <= c <= '9'
  }

  /** `is_ws`: blank, tab, new line and carriage return. */
  predicate IsWs(c: char)
  {
    c == ' ' || c == '\t' || c == '\n' || c == '\r'
  }

  predicate IsAlphaNum(c: char)
  {
    IsAlpha(c) || IsNum(c)
  }

  /** `is_id_start` and `is_id_part`: as written, `|| '_'` tests a
   *  non-zero character constant instead of comparing c with it, so both
   *  hold of every character; intended, the underscore is compared. */
  predicate IsIdStart(c: char, reading: Reading)
  {
    reading == AsWritten || IsAlpha(c) || c == '_'
  }

  predicate IsIdPart(c: char, reading: Reading)
  {
    reading == AsWritten || IsAlphaNum(c) || c == '_'
  }

  predicate IsSpace(c: char) { c == ' ' }

  predicate IsHeaderPart(c: char)
  {
    IsAlphaNum(c) || c == '-' || c == '_'
  }

  /** Printable characters and DEL. */
  predicate IsHeaderValuePart(c: char)
  {
    32 <= c as int <= 127
  }

  predicate IsUrlUnreserved(c: char)
  {
    IsAlphaNum(c) || c == '-' || c == '_' || c == '.' || c == '~'
  }

  predicate IsUrlReserved(c: char)
  {
    c in {'!', '*', '\'', '(', ')', ';', ':', '@', '&', '=', '+', '$', ',', '/', '?', '#', '[', ']', '%'}
  }

  predicate IsUrlPart(c: char)
  {
    IsUrlUnreserved(c) || IsUrlReserved(c)
  }

  predicate IsHttpVersionPart(c: char)
  {
    IsAlphaNum(c) || c == '/' || c == '.'
  }

  /** The as-written identifier classes accept every character, the
   *  intended ones only identifier characters. */
  lemma IdClasses(c: char)
    ensures IsIdStart(c, AsWritten) && IsIdPart(c, AsWritten)
    ensures IsIdStart(c, Intended) <==> IsAlpha(c) || c == '_'
    ensures IsIdPart(c, Intended) <==> IsAlphaNum(c) || c == '_'
    ensures IsIdStart(c, Intended) ==> IsIdPart(c, Intended)
  {
  }

  // ---------------------------------------------------------------
  // Methods and versions
  // ---------------------------------------------------------------

  datatype Method = UnknownMethod | Get | Head | Post

  datatype Version = UnknownVersion | Http10 | Http11

  /** `to_method`. */
  function ToMethod(name: string): Method
  {
    if name == "GET" then Get
    else if name == "HEAD" then Head
    else if name == "POST" then Post
    else UnknownMethod
  }

  /** The request-line word of a known method. */
  function MethodName(m: Method): (name: string)
    requires m != UnknownMethod
    ensures |name| > 0 && forall i :: 0 <= i < |name| ==> IsAlpha(name[i])
  {
    match m
    case Get => "GET"
    case Head => "HEAD"
    case Post => "POST"
  }

  /** `to_version`. */
  function ToVersion(name: string): Version
  {
    if name == "HTTP/1.0" then Http10
    else if name == "HTTP/1.1" then Http11
    else UnknownVersion
  }

  function VersionName(v: Version): (name: string)
    requires v != UnknownVersion
    ensures |name| == 8 && forall i :: 0 <= i < |name| ==> IsHttpVersionPart(name[i])
  {
    if v == Http10 then "HTTP/1.0" else "HTTP/1.1"
  }

  /** Exactly the three method words are known, and each is read back as
   *  its method. */
  lemma MethodNames(name: string, m: Method)
    requires m != UnknownMethod
    ensures ToMethod(MethodName(m)) == m
    ensures ToMethod(name) != UnknownMethod ==> MethodName(ToMethod(name)) == name
  {
  }

  lemma VersionNames(name: string, v: Version)
    requires v != UnknownVersion
    ensures ToVersion(VersionName(v)) == v
    ensures ToVersion(name) != UnknownVersion ==> VersionName(ToVersion(name)) == name
  {
  }

  // ---------------------------------------------------------------
  // Hexadecimal digits
  // ---------------------------------------------------------------

  /** The digit `std::hex` writes for d: lower-case letters. */
  function HexDigit(d: int): (c: char)
    requires 0 <= d < 16
  {
    if d < 10 then (d + 0x30) as char else (d - 10 + 0x61) as char
  }

  predicate IsHexDigit(c: char)
  {
    IsNum(c) || ('a' <= c <= 'f') || ('A' <= c <= 'F')
  }

  function HexVal(c: char): (d: int)
    requires IsHexDigit(c)
    ensures 0 <= d < 16
  {
    if IsNum(c) then c as int - 0x30
    else if 'a' <= c <= 'f' then c as int - 0x61 + 10
    else c as int - 0x41 + 10
  }

  lemma HexDigitVal(d: int)
    requires 0 <= d < 16
    ensures IsHexDigit(HexDigit(d)) && HexVal(HexDigit(d)) == d
  {
  }

  /** `setw(2) << setfill('0') << hex << n` for n below 256. */
  function Hex2(n: int): (t: string)
    requires 0 <= n < 256
    ensures |t| == 2
  {
    [HexDigit(n / 16), HexDigit(n % 16)]
  }

  /** The two digits of n are hex digits that give n back. */
  lemma Hex2Value(n: int)
    requires 0 <= n < 256
    ensures IsHexDigit(Hex2(n)[0]) && IsHexDigit(Hex2(n)[1])
    ensures HexVal(Hex2(n)[0]) * 16 + HexVal(Hex2(n)[1]) == n
  {
    HexDigitVal(n / 16);
    HexDigitVal(n % 16);
  }

  /** `isspace` of the C locale. */
  predicate IsCSpace(c: char)
  {
    c == ' ' || c == '\t' || c == '\n' || c == '\r' || c == '\U{b}' || c == '\U{c}'
  }
}
