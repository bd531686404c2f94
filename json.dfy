/** JSON values, the two serialisers the system uses (JavaScript's `JSON.stringify`
    and Python's `json.dumps` with its default arguments), a recursive-descent
    parser in the manner of JavaScript's `JSON.parse`, and the JavaScript
    conventions the result handling relies on (property access, truthiness,
    conversion to a string). */
module Json {
  import opened Wrappers
  import opened Text
  import Dict

  /** Numbers are integers: fractions and exponents are floating point and are
      rejected by the parser. An object keeps its members in text order,
      duplicates included; property access takes the last one, as JSON.parse does,
      and `ObjectOf` gives the dictionary both languages build from them. */
  datatype Json =
    | JNull
    | JBool(b: bool)
    | JNum(n: int)
    | JStr(s: string)
    | JArr(elems: seq<Json>)
    | JObj(members: seq<Member>)

  datatype Member = Member(key: string, value: Json)

  /** Js: `JSON.stringify(v)` — no spaces, non-ASCII text written raw.
      Py: `json.dumps(v)` — separators ", " and ": ", every character outside
      space..tilde written as a \u escape (surrogate pairs above U+FFFF). */
  datatype Style = Js | Py

  /* ---------- characters and digits ---------- */

  predicate IsDigit(c: char) { '0' <= c <= '9' }

  predicate IsWs(c: char) { c == ' ' || c == '\t' || c == '\n' || c == '\r' }

  function DigitChar(d: nat): (c: char)
    requires d < 10
    ensures IsDigit(c) && c as int - '0' as int == d
  {
    (d + '0' as int) as char
  }

  /** Decimal text of a natural number, without leading zeros. */
  function Digits(n: nat): (s: string)
    ensures |s| > 0
    decreases n
  {
    if n < 10 then [DigitChar(n)] else Digits(n / 10) + [DigitChar(n % 10)]
  }

  function IntText(n: int): string {
    if n < 0 then "-" + Digits(-n) else Digits(n)
  }

  predicate AllDigits(s: string) {
    forall i :: 0 <= i < |s| ==> IsDigit(s[i])
  }

  /** Value of a run of decimal digits. */
  function DigitsValue(s: string): nat
    requires AllDigits(s)
    decreases |s|
  {
    if |s| == 0 then 0
    else DigitsValue(s[..|s| - 1]) * 10 + (s[|s| - 1] as int - '0' as int)
  }

  /** The longest prefix of s made of decimal digits. */
  function DigitRun(s: string): (run: string)
    ensures AllDigits(run) && StartsWith(s, run)
    ensures |run| < |s| ==> !IsDigit(s[|run|])
    ensures |s| > 0 && IsDigit(s[0]) ==> |run| > 0
    decreases |s|
  {
    if |s| > 0 && IsDigit(s[0]) then [s[0]] + DigitRun(s[1..]) else []
  }

  lemma {:induction false} DigitsFacts(n: nat)
    ensures AllDigits(Digits(n)) && DigitsValue(Digits(n)) == n
    ensures n > 0 ==> Digits(n)[0] != '0'
    ensures n == 0 ==> Digits(n) == "0"
    decreases n
  {
    if n >= 10 {
      DigitsFacts(n / 10);
      var s := Digits(n);
      assert s[..|s| - 1] == Digits(n / 10);
    }
  }

  lemma {:induction false} DigitRunOfDigits(d: string, rest: string)
    requires AllDigits(d) && (rest == [] || !IsDigit(rest[0]))
    ensures DigitRun(d + rest) == d
    decreases |d|
  {
    if |d| == 0 {
      assert d + rest == rest;
    } else {
      assert (d + rest)[1..] == d[1..] + rest;
      DigitRunOfDigits(d[1..], rest);
      assert d == [d[0]] + d[1..];
    }
  }

  function HexChar(d: nat): char
    requires d < 16
  {
    "0123456789abcdef"[d]
  }

  /** Four lower-case hexadecimal digits, as both serialisers write \u escapes. */
  function Hex4(n: nat): (s: string)
    requires n < 0x10000
    ensures |s| == 4
  {
    [HexChar(n / 0x1000), HexChar(n / 0x100 % 0x10), HexChar(n / 0x10 % 0x10), HexChar(n % 0x10)]
  }

  function HexValue(c: char): Option<nat> {
    if '0' <= c <= '9' then Some(c as int - '0' as int)
    else if 'a' <= c <= 'f' then Some(c as int - 'a' as int + 10)
    else if 'A' <= c <= 'F' then Some(c as int - 'A' as int + 10)
    else None
  }

  function ParseHex4(s: string): (r: Option<nat>)
    requires |s| >= 4
    ensures r.Some? ==> r.value < 0x10000
  {
    match (HexValue(s[0]), HexValue(s[1]), HexValue(s[2]), HexValue(s[3]))
    case (Some(a), Some(b), Some(c), Some(d)) =>
      if a < 16 && b < 16 && c < 16 && d < 16 then Some(((a * 16 + b) * 16 + c) * 16 + d) else None
    case _ => None
  }

  lemma HexCharValue(d: nat)
    requires d < 16
    ensures HexValue(HexChar(d)) == Some(d)
  {
  }

  lemma HexDigitsValue(n: nat)
    requires n < 0x10000
    ensures ((n / 0x1000 * 16 + n / 0x100 % 0x10) * 16 + n / 0x10 % 0x10) * 16 + n % 0x10 == n
  {
    assert n / 0x1000 * 16 + n / 0x100 % 0x10 == n / 0x100;
    assert (n / 0x100) * 16 + n / 0x10 % 0x10 == n / 0x10;
  }

  lemma {:induction false} Hex4RoundTrip(n: nat, rest: string)
    requires n < 0x10000
    ensures ParseHex4(Hex4(n) + rest) == Some(n)
  {
    var s := Hex4(n) + rest;
    var a, b, c, d := n / 0x1000, n / 0x100 % 0x10, n / 0x10 % 0x10, n % 0x10;
    HexCharValue(a); HexCharValue(b); HexCharValue(c); HexCharValue(d);
    assert s[0] == HexChar(a) && s[1] == HexChar(b) && s[2] == HexChar(c) && s[3] == HexChar(d);
    HexDigitsValue(n);
  }

  /* ---------- serialisation ---------- */

  /** The text of v in the given style. */
  function Serialize(v: Json, st: Style): string
    decreases v
  {
    match v
    case JNull => "null"
    case JBool(b) => if b then "true" else "false"
    case JNum(n) => IntText(n)
    case JStr(s) => Quote(s, st)
    case JArr(es) => "[" + SerializeElems(es, st) + "]"
    case JObj(ms) => "{" + SerializeMembers(ms, st) + "}"
  }

  function ItemSep(st: Style): string { if st == Js then "," else ", " }

  function KeySep(st: Style): string { if st == Js then ":" else ": " }

  function SerializeElems(es: seq<Json>, st: Style): string
    decreases es
  {
    if |es| == 0 then ""
    else if |es| == 1 then Serialize(es[0], st)
    else Serialize(es[0], st) + ItemSep(st) + SerializeElems(es[1..], st)
  }

  function SerializeMembers(ms: seq<Member>, st: Style): string
    decreases ms
  {
    if |ms| == 0 then ""
    else
      var m := Quote(ms[0].key, st) + KeySep(st) + Serialize(ms[0].value, st);
      if |ms| == 1 then m else m + ItemSep(st) + SerializeMembers(ms[1..], st)
  }

  function Quote(s: string, st: Style): string {
    "\"" + Escape(s, st) + "\""
  }

  function Escape(s: string, st: Style): string
    decreases |s|
  {
    if |s| == 0 then "" else EscapeChar(s[0], st) + Escape(s[1..], st)
  }

  /** The letter written after a backslash for the characters both serialisers
      escape with two characters. */
  function ShortEscape(c: char): Option<char> {
    if c == '"' then Some('"')
    else if c == '\\' then Some('\\')
    else if c == '\U{8}' then Some('b')
    else if c == '\U{C}' then Some('f')
    else if c == '\n' then Some('n')
    else if c == '\r' then Some('r')
    else if c == '\t' then Some('t')
    else None
  }

  /** How one character of a string is written between the quotes. */
  function EscapeChar(c: char, st: Style): (e: string)
    ensures |e| > 0 && e[0] != '"'
  {
    match ShortEscape(c)
    case Some(letter) => ['\\', letter]
    case None => if c < ' ' || (st == Py && c > '~') then UnicodeEscape(c) else [c]
  }

  /** "\uXXXX", or two of them (a UTF-16 surrogate pair) above U+FFFF. */
  function UnicodeEscape(c: char): (e: string)
    ensures |e| > 0 && e[0] == '\\'
  {
    if c as int < 0x10000 then "\\u" + Hex4(c as int)
    else
      var u := c as int - 0x10000;
      "\\u" + Hex4(0xD800 + u / 0x400) + "\\u" + Hex4(0xDC00 + u % 0x400)
  }

  /* ---------- parsing ---------- */

  function SkipWs(s: string): (t: string)
    ensures |t| <= |s| && t == s[|s| - |t|..]
    ensures |t| > 0 ==> !IsWs(t[0])
    decreases |s|
  {
    if |s| > 0 && IsWs(s[0]) then SkipWs(s[1..]) else s
  }

  /** `JSON.parse(s)`: one value, surrounded by nothing but whitespace. */
  function Parse(s: string): Result<Json, string> {
    match ParseValue(s)
    case Err(e) => Err(e)
    case Ok((v, rest)) =>
      if SkipWs(rest) == [] then Ok(v) else Err("Unexpected non-whitespace character after JSON")
  }

  /** A value after optional whitespace; on success also the unread text. */
  function ParseValue(s: string): (r: Result<(Json, string), string>)
    ensures r.Ok? ==> |r.value.1| < |s|
    decreases |s|, 2
  {
    ParseToken(SkipWs(s))
  }

  /** A value starting at the first character of t. */
  function ParseToken(t: string): (r: Result<(Json, string), string>)
    ensures r.Ok? ==> |r.value.1| < |t|
    decreases |t|, 1
  {
    if |t| == 0 then Err("Unexpected end of JSON input")
    else if t[0] == 'n' then ParseLiteral(t, "null", JNull)
    else if t[0] == 't' then ParseLiteral(t, "true", JBool(true))
    else if t[0] == 'f' then ParseLiteral(t, "false", JBool(false))
    else if t[0] == '"' then
      match ParseStringBody(t[1..])
      case Err(e) => Err(e)
      case Ok((str, rest)) => Ok((JStr(str), rest))
    else if t[0] == '[' then ParseArrayBody(t[1..])
    else if t[0] == '{' then ParseObjectBody(t[1..])
    else if t[0] == '-' || IsDigit(t[0]) then ParseNumber(t)
    else Err("Unexpected token in JSON")
  }

  function ParseLiteral(t: string, word: string, v: Json): (r: Result<(Json, string), string>)
    requires |word| > 0
    ensures r.Ok? ==> |r.value.1| < |t|
  {
    if StartsWith(t, word) then Ok((v, t[|word|..])) else Err("Unexpected token in JSON")
  }

  function ParseNumber(t: string): (r: Result<(Json, string), string>)
    requires |t| > 0
    ensures r.Ok? ==> |r.value.1| < |t|
  {
    if t[0] == '-' then
      match ParseUnsigned(t[1..])
      case Err(e) => Err(e)
      case Ok((m, rest)) => Ok((JNum(-(m as int)), rest))
    else
      match ParseUnsigned(t)
      case Err(e) => Err(e)
      case Ok((m, rest)) => Ok((JNum(m), rest))
  }

  /** The digits of an integer part: a lone leading zero, or the whole run of digits. */
  function IntegerRun(u: string): (run: string)
    requires |u| > 0 && IsDigit(u[0])
    ensures AllDigits(run) && 0 < |run| <= |u| && run == u[..|run|]
  {
    if u[0] == '0' then [u[0]] else DigitRun(u)
  }

  /** An unsigned integer: "0" or a digit run without a leading zero. A fraction
      or an exponent after it is refused, since numbers here are integers. */
  function ParseUnsigned(u: string): (r: Result<(nat, string), string>)
    ensures r.Ok? ==> |r.value.1| < |u|
  {
    if |u| == 0 || !IsDigit(u[0]) then Err("No number after minus sign in JSON")
    else
      var run := IntegerRun(u);
      var rest := u[|run|..];
      if |rest| > 0 && (rest[0] == '.' || rest[0] == 'e' || rest[0] == 'E') then
        Err("Unsupported number in JSON")
      else Ok((DigitsValue(run), rest))
  }

  /** The characters of a string after its opening quote, up to and including the
      closing quote; on success the decoded string and the text after the quote. */
  function ParseStringBody(s: string): (r: Result<(string, string), string>)
    ensures r.Ok? ==> |r.value.1| < |s|
    decreases |s|
  {
    if |s| == 0 then Err("Unterminated string in JSON")
    else if s[0] == '"' then Ok(([], s[1..]))
    else
      match DecodeChar(s)
      case Err(e) => Err(e)
      case Ok((c, t)) =>
        match ParseStringBody(t)
        case Err(e) => Err(e)
        case Ok((str, rest)) => Ok(([c] + str, rest))
  }

  /** One character of string content: a raw character or an escape sequence. */
  function DecodeChar(s: string): (r: Result<(char, string), string>)
    requires |s| > 0 && s[0] != '"'
    ensures r.Ok? ==> |r.value.1| < |s|
  {
    if s[0] == '\\' then DecodeEscape(s[1..])
    else if s[0] < ' ' then Err("Bad control character in string literal in JSON")
    else Ok((s[0], s[1..]))
  }

  /** The character a two-character escape stands for (JSON also accepts "\/"). */
  function Unescape(letter: char): Option<char> {
    if letter == '"' then Some('"')
    else if letter == '\\' then Some('\\')
    else if letter == '/' then Some('/')
    else if letter == 'b' then Some('\U{8}')
    else if letter == 'f' then Some('\U{C}')
    else if letter == 'n' then Some('\n')
    else if letter == 'r' then Some('\r')
    else if letter == 't' then Some('\t')
    else None
  }

  /** What follows a backslash inside a string. */
  function DecodeEscape(s: string): (r: Result<(char, string), string>)
    ensures r.Ok? ==> |r.value.1| < |s|
  {
    if |s| == 0 then Err("Unterminated string in JSON")
    else if s[0] == 'u' then DecodeUnicode(s[1..])
    else match Unescape(s[0])
      case Some(c) => Ok((c, s[1..]))
      case None => Err("Bad escaped character in JSON")
  }

  /** The four hex digits after "\u", with a second escape for a surrogate pair. */
  function DecodeUnicode(s: string): (r: Result<(char, string), string>)
    ensures r.Ok? ==> |r.value.1| < |s|
  {
    if |s| < 4 then Err("Bad Unicode escape in JSON")
    else match ParseHex4(s)
      case None => Err("Bad Unicode escape in JSON")
      case Some(h) =>
        if h < 0xD800 || 0xE000 <= h then Ok((h as char, s[4..]))
        else if h >= 0xDC00 || |s| < 10 || s[4..6] != "\\u" then
          Err("Unpaired surrogate in JSON")
        else match ParseHex4(s[6..10])
          case None => Err("Bad Unicode escape in JSON")
          case Some(l) =>
            if 0xDC00 <= l < 0xE000 then
              Ok(((0x10000 + (h - 0xD800) * 0x400 + (l - 0xDC00)) as char, s[10..]))
            else Err("Unpaired surrogate in JSON")
  }

  /** After "[": the elements and the closing bracket. */
  function ParseArrayBody(s: string): (r: Result<(Json, string), string>)
    ensures r.Ok? ==> |r.value.1| < |s|
    decreases |s|, 4
  {
    var t := SkipWs(s);
    if |t| > 0 && t[0] == ']' then Ok((JArr([]), t[1..]))
    else
      match ParseElems(t)
      case Err(e) => Err(e)
      case Ok((es, rest)) => Ok((JArr(es), rest))
  }

  /** One or more elements separated by commas, then "]". */
  function ParseElems(s: string): (r: Result<(seq<Json>, string), string>)
    ensures r.Ok? ==> |r.value.1| < |s|
    decreases |s|, 3
  {
    match ParseValue(s)
    case Err(e) => Err(e)
    case Ok((v, rest)) => ParseMoreElems(v, rest)
  }

  /** After one element: "]" ends the array, "," starts the next element. */
  function ParseMoreElems(v: Json, rest: string): (r: Result<(seq<Json>, string), string>)
    ensures r.Ok? ==> |r.value.1| < |rest|
    decreases |rest|, 4
  {
    var t := SkipWs(rest);
    if |t| == 0 then Err("Unexpected end of JSON input")
    else if t[0] == ']' then Ok(([v], t[1..]))
    else if t[0] == ',' then
      match ParseElems(t[1..])
      case Err(e) => Err(e)
      case Ok((vs, rest')) => Ok(([v] + vs, rest'))
    else Err("Expected ',' or ']' after array element in JSON")
  }

  /** After "{": the members and the closing brace. */
  function ParseObjectBody(s: string): (r: Result<(Json, string), string>)
    ensures r.Ok? ==> |r.value.1| < |s|
    decreases |s|, 4
  {
    var t := SkipWs(s);
    if |t| > 0 && t[0] == '}' then Ok((JObj([]), t[1..]))
    else
      match ParseMembers(t)
      case Err(e) => Err(e)
      case Ok((ms, rest)) => Ok((JObj(ms), rest))
  }

  /** One or more `"key": value` members separated by commas, then "}". */
  function ParseMembers(s: string): (r: Result<(seq<Member>, string), string>)
    ensures r.Ok? ==> |r.value.1| < |s|
    decreases |s|, 3
  {
    MembersAt(SkipWs(s))
  }

  /** One or more members, from the first non-blank character on. */
  function MembersAt(t: string): (r: Result<(seq<Member>, string), string>)
    ensures r.Ok? ==> |r.value.1| < |t|
    decreases |t|, 2
  {
    if |t| == 0 || t[0] != '"' then Err("Expected property name in JSON")
    else
      match ParseStringBody(t[1..])
      case Err(e) => Err(e)
      case Ok((k, afterKey)) =>
        var u := SkipWs(afterKey);
        if |u| == 0 || u[0] != ':' then Err("Expected ':' after property name in JSON")
        else
          match ParseValue(u[1..])
          case Err(e) => Err(e)
          case Ok((v, rest)) => ParseMoreMembers(Member(k, v), rest)
  }

  /** After one member: "}" ends the object, "," starts the next member. */
  function ParseMoreMembers(m: Member, rest: string): (r: Result<(seq<Member>, string), string>)
    ensures r.Ok? ==> |r.value.1| < |rest|
    decreases |rest|, 4
  {
    var w := SkipWs(rest);
    if |w| == 0 then Err("Unexpected end of JSON input")
    else if w[0] == '}' then Ok(([m], w[1..]))
    else if w[0] == ',' then
      match ParseMembers(w[1..])
      case Err(e) => Err(e)
      case Ok((ms, rest')) => Ok(([m] + ms, rest'))
    else Err("Expected ',' or '}' after property value in JSON")
  }

  /* ---------- the round trip: parsing what either serialiser wrote ---------- */

  /** What may follow a number without changing where it ends. */
  predicate NumberEnd(rest: string) {
    rest == [] || (!IsDigit(rest[0]) && rest[0] != '.' && rest[0] != 'e' && rest[0] != 'E')
  }

  lemma {:induction false} UnsignedRoundTrip(m: nat, rest: string)
    requires NumberEnd(rest)
    ensures ParseUnsigned(Digits(m) + rest) == Ok((m, rest))
  {
    DigitsFacts(m);
    var d := Digits(m);
    var u := d + rest;
    assert u[0] == d[0];
    if m == 0 {
      assert [u[0]] == d;
    } else {
      DigitRunOfDigits(d, rest);
    }
    assert IntegerRun(u) == d;
    assert u[|d|..] == rest;
    UnsignedStep(u, d, rest);
  }

  lemma UnsignedStep(u: string, run: string, rest: string)
    requires |u| > 0 && IsDigit(u[0]) && IntegerRun(u) == run && u[|run|..] == rest && NumberEnd(rest)
    ensures ParseUnsigned(u) == Ok((DigitsValue(run), rest))
  {
  }

  lemma NegativeStep(t: string, m: nat, rest: string)
    requires |t| > 0 && t[0] == '-' && ParseUnsigned(t[1..]) == Ok((m, rest))
    ensures ParseNumber(t) == Ok((JNum(-(m as int)), rest))
  {
  }

  lemma NonNegativeStep(t: string, m: nat, rest: string)
    requires |t| > 0 && t[0] != '-' && ParseUnsigned(t) == Ok((m, rest))
    ensures ParseNumber(t) == Ok((JNum(m), rest))
  {
  }

  lemma {:induction false} NumberRoundTrip(n: int, rest: string)
    requires NumberEnd(rest)
    ensures ParseNumber(IntText(n) + rest) == Ok((JNum(n), rest))
  {
    var m: nat := if n < 0 then -n else n;
    var u := Digits(m) + rest;
    UnsignedRoundTrip(m, rest);
    if n < 0 {
      Assoc("-", Digits(m), rest);
      assert IntText(n) + rest == "-" + u;
      assert ("-" + u)[1..] == u;
      NegativeStep("-" + u, m, rest);
    } else {
      DigitsFacts(m);
      assert u[0] == Digits(m)[0];
      NonNegativeStep(u, m, rest);
    }
  }

  lemma ShortEscapeRoundTrip(c: char)
    requires ShortEscape(c).Some?
    ensures Unescape(ShortEscape(c).value) == Some(c) && ShortEscape(c).value != 'u'
  {
  }

  lemma {:induction false} BmpEscapeRoundTrip(c: char, t: string)
    requires (c as int) < 0x10000
    ensures DecodeEscape(UnicodeEscape(c)[1..] + t) == Ok((c, t))
  {
    var n := c as int;
    var s := UnicodeEscape(c)[1..] + t;
    assert s == "u" + (Hex4(n) + t);
    assert s[1..] == Hex4(n) + t;
    Hex4RoundTrip(n, t);
    assert s[1..][4..] == t;
  }

  lemma DecodePairStep(s: string, hi: nat, lo: nat)
    requires |s| >= 10 && ParseHex4(s) == Some(hi) && s[4..6] == "\\u" && ParseHex4(s[6..10]) == Some(lo)
    requires 0xD800 <= hi < 0xDC00 && 0xDC00 <= lo < 0xE000
    ensures DecodeUnicode(s) == Ok(((0x10000 + (hi - 0xD800) * 0x400 + (lo - 0xDC00)) as char, s[10..]))
  {
  }

  /** A surrogate pair written as two \u escapes decodes to one character. */
  lemma PairDecode(hi: nat, lo: nat, t: string)
    requires 0xD800 <= hi < 0xDC00 && 0xDC00 <= lo < 0xE000
    ensures DecodeUnicode(Hex4(hi) + "\\u" + Hex4(lo) + t) ==
      Ok(((0x10000 + (hi - 0xD800) * 0x400 + (lo - 0xDC00)) as char, t))
  {
    var s := Hex4(hi) + "\\u" + Hex4(lo) + t;
    var w := "\\u" + Hex4(lo) + t;
    Assoc(Hex4(hi) + "\\u", Hex4(lo), t);
    Assoc(Hex4(hi), "\\u", Hex4(lo) + t);
    Assoc("\\u", Hex4(lo), t);
    assert s == Hex4(hi) + w;
    Hex4RoundTrip(hi, w);
    assert s[4..] == w;
    assert s[4..6] == "\\u";
    Hex4RoundTrip(lo, []);
    assert s[6..10] == Hex4(lo) + [];
    assert s[10..] == t;
    DecodePairStep(s, hi, lo);
  }

  /** The two halves of a surrogate pair put back together. */
  lemma PairHalves(c: char, hi: nat, lo: nat)
    requires (c as int) >= 0x10000
    requires hi == 0xD800 + (c as int - 0x10000) / 0x400 && lo == 0xDC00 + (c as int - 0x10000) % 0x400
    ensures 0xD800 <= hi < 0xDC00 && 0xDC00 <= lo < 0xE000
    ensures (0x10000 + (hi - 0xD800) * 0x400 + (lo - 0xDC00)) as char == c
  {
  }

  lemma PairEscapeForm(c: char, hi: nat, lo: nat)
    requires (c as int) >= 0x10000
    requires hi == 0xD800 + (c as int - 0x10000) / 0x400 && lo == 0xDC00 + (c as int - 0x10000) % 0x400
    ensures UnicodeEscape(c) == "\\u" + Hex4(hi) + "\\u" + Hex4(lo)
  {
  }

  /** Dropping the backslash of two escapes written one after the other. */
  lemma DropBackslash(a: string, b: string, t: string)
    ensures ("\\u" + a + "\\u" + b)[1..] + t == "u" + (a + "\\u" + b + t)
  {
    var x := a + "\\u" + b;
    Assoc("\\u" + a, "\\u", b);
    Assoc("\\u", a, "\\u" + b);
    Assoc(a, "\\u", b);
    assert "\\u" + a + "\\u" + b == "\\u" + x;
    assert ("\\u" + x)[1..] == "u" + x;
    Assoc("u", x, t);
  }

  lemma EscapeUStep(s: string)
    requires |s| > 0 && s[0] == 'u'
    ensures DecodeEscape(s) == DecodeUnicode(s[1..])
  {
  }

  lemma {:induction false} PairEscapeRoundTrip(c: char, t: string)
    requires (c as int) >= 0x10000
    ensures DecodeEscape(UnicodeEscape(c)[1..] + t) == Ok((c, t))
  {
    var hi: nat := 0xD800 + (c as int - 0x10000) / 0x400;
    var lo: nat := 0xDC00 + (c as int - 0x10000) % 0x400;
    var w := Hex4(hi) + "\\u" + Hex4(lo) + t;
    PairEscapeForm(c, hi, lo);
    DropBackslash(Hex4(hi), Hex4(lo), t);
    assert ("u" + w)[1..] == w;
    EscapeUStep("u" + w);
    PairHalves(c, hi, lo);
    PairDecode(hi, lo, t);
  }

  lemma {:induction false} EscapeCharRoundTrip(c: char, st: Style, t: string)
    ensures DecodeChar(EscapeChar(c, st) + t) == Ok((c, t))
  {
    var e := EscapeChar(c, st);
    var s := e + t;
    assert s[0] == e[0];
    match ShortEscape(c)
    case Some(letter) =>
      ShortEscapeRoundTrip(c);
      assert s[1..] == [letter] + t;
    case None =>
      if c < ' ' || (st == Py && c > '~') {
        assert s[1..] == UnicodeEscape(c)[1..] + t;
        if (c as int) < 0x10000 { BmpEscapeRoundTrip(c, t); } else { PairEscapeRoundTrip(c, t); }
      } else {
        assert s[1..] == t;
      }
  }

  lemma {:induction false} EscapeRoundTrip(s: string, st: Style, rest: string)
    ensures ParseStringBody(Escape(s, st) + "\"" + rest) == Ok((s, rest))
    decreases |s|
  {
    if |s| == 0 {
      assert Escape(s, st) + "\"" + rest == "\"" + rest;
    } else {
      var tail := Escape(s[1..], st) + "\"" + rest;
      assert Escape(s, st) + "\"" + rest == EscapeChar(s[0], st) + tail;
      EscapeCharRoundTrip(s[0], st, tail);
      EscapeRoundTrip(s[1..], st, rest);
      assert [s[0]] + s[1..] == s;
    }
  }

  /** Every serialised value starts with a character that opens a value. */
  lemma SerializeStart(v: Json, st: Style, rest: string)
    ensures var s := Serialize(v, st) + rest;
      |Serialize(v, st)| > 0 && s[0] == Serialize(v, st)[0] && !IsWs(s[0]) && s[0] != ']' &&
      (v.JNum? ==> s[0] == '-' || IsDigit(s[0]))
  {
    if v.JNum? {
      var m: nat := if v.n < 0 then -v.n else v.n;
      DigitsFacts(m);
      assert Serialize(v, st)[0] == if v.n < 0 then '-' else Digits(m)[0];
    }
  }

  lemma ElemsStart(es: seq<Json>, st: Style, rest: string)
    requires |es| > 0
    ensures var s := SerializeElems(es, st) + rest; |s| > 0 && !IsWs(s[0]) && s[0] != ']'
  {
    var h := Serialize(es[0], st);
    var x := if |es| == 1 then rest else ItemSep(st) + SerializeElems(es[1..], st) + rest;
    if |es| == 1 {
      assert SerializeElems(es, st) == h;
    } else {
      assert SerializeElems(es, st) == h + ItemSep(st) + SerializeElems(es[1..], st);
    }
    assert SerializeElems(es, st) + rest == h + x;
    SerializeStart(es[0], st, x);
  }

  lemma MembersStart(ms: seq<Member>, st: Style, rest: string)
    requires |ms| > 0
    ensures var s := SerializeMembers(ms, st) + rest; |s| > 0 && s[0] == '"'
  {
  }

  /* One step of each parser, on abstract text. */

  lemma ValueStep(s: string)
    requires |s| > 0 && !IsWs(s[0])
    ensures ParseValue(s) == ParseToken(s)
  {
  }

  lemma ValueSkipsSpace(y: string)
    requires |y| > 0 && !IsWs(y[0])
    ensures ParseValue(" " + y) == ParseValue(y)
  {
    assert (" " + y)[1..] == y;
    assert SkipWs(" " + y) == y;
  }

  lemma ElemsSkipsSpace(y: string)
    requires |y| > 0 && !IsWs(y[0])
    ensures ParseElems(" " + y) == ParseElems(y)
  {
    ValueSkipsSpace(y);
  }

  lemma MembersSkipsSpace(y: string)
    requires |y| > 0 && !IsWs(y[0])
    ensures ParseMembers(" " + y) == ParseMembers(y)
  {
    assert (" " + y)[1..] == y;
    assert SkipWs(" " + y) == y;
    assert SkipWs(y) == y;
  }

  lemma StringTokenStep(t: string, str: string, rest: string)
    requires |t| > 0 && t[0] == '"' && ParseStringBody(t[1..]) == Ok((str, rest))
    ensures ParseToken(t) == Ok((JStr(str), rest))
  {
  }

  lemma ArrayTokenStep(t: string, r: Result<(Json, string), string>)
    requires |t| > 0 && t[0] == '[' && ParseArrayBody(t[1..]) == r
    ensures ParseToken(t) == r
  {
    assert t[0] != 'n' && t[0] != 't' && t[0] != 'f' && t[0] != '"';
  }

  lemma ObjectTokenStep(t: string, r: Result<(Json, string), string>)
    requires |t| > 0 && t[0] == '{' && ParseObjectBody(t[1..]) == r
    ensures ParseToken(t) == r
  {
    assert t[0] != 'n' && t[0] != 't' && t[0] != 'f' && t[0] != '"' && t[0] != '[';
  }

  lemma NumberTokenStep(t: string)
    requires |t| > 0 && (t[0] == '-' || IsDigit(t[0]))
    ensures ParseToken(t) == ParseNumber(t)
  {
    assert t[0] != 'n' && t[0] != 't' && t[0] != 'f' && t[0] != '"' && t[0] != '[' && t[0] != '{';
  }

  lemma ElemsStep(s: string, v: Json, x: string)
    requires ParseValue(s) == Ok((v, x))
    ensures ParseElems(s) == ParseMoreElems(v, x)
  {
  }

  lemma ElemsStepLast(s: string, v: Json, rest: string)
    requires ParseValue(s) == Ok((v, "]" + rest))
    ensures ParseElems(s) == Ok(([v], rest))
  {
    ElemsStep(s, v, "]" + rest);
    assert SkipWs("]" + rest) == "]" + rest;
    assert ("]" + rest)[1..] == rest;
  }

  lemma ElemsStepMore(s: string, v: Json, x: string, vs: seq<Json>, rest: string)
    requires ParseValue(s) == Ok((v, x)) && |x| > 0 && x[0] == ','
    requires ParseElems(x[1..]) == Ok((vs, rest))
    ensures ParseElems(s) == Ok(([v] + vs, rest))
  {
    ElemsStep(s, v, x);
    MoreElemsStep(v, x, vs, rest);
  }

  lemma MoreElemsStep(v: Json, x: string, vs: seq<Json>, rest: string)
    requires |x| > 0 && x[0] == ',' && ParseElems(x[1..]) == Ok((vs, rest))
    ensures ParseMoreElems(v, x) == Ok(([v] + vs, rest))
  {
    assert !IsWs(x[0]) && x[0] != ']';
    assert SkipWs(x) == x;
  }

  lemma MembersStep(s: string, k: string, afterKey: string, v: Json, rest: string)
    requires |s| > 0 && s[0] == '"' && ParseStringBody(s[1..]) == Ok((k, afterKey))
    requires |afterKey| > 0 && afterKey[0] == ':' && ParseValue(afterKey[1..]) == Ok((v, rest))
    ensures ParseMembers(s) == ParseMoreMembers(Member(k, v), rest)
  {
    assert SkipWs(s) == s;
    assert SkipWs(afterKey) == afterKey;
  }

  lemma MoreStepLast(m: Member, rest: string)
    ensures ParseMoreMembers(m, "}" + rest) == Ok(([m], rest))
  {
    assert SkipWs("}" + rest) == "}" + rest;
    assert ("}" + rest)[1..] == rest;
  }

  lemma MoreStepMore(m: Member, x: string, ms: seq<Member>, rest: string)
    requires |x| > 0 && x[0] == ',' && ParseMembers(x[1..]) == Ok((ms, rest))
    ensures ParseMoreMembers(m, x) == Ok(([m] + ms, rest))
  {
    assert !IsWs(x[0]) && x[0] != '}';
    assert SkipWs(x) == x;
  }

  /** What follows a separator character, with or without one space. */
  lemma SeparatorTail(c: char, x: string, y: string)
    requires x == [c] + y || x == [c, ' '] + y
    ensures |x| > 0 && x[0] == c
    ensures x == [c] + y ==> x[1..] == y
    ensures x == [c, ' '] + y ==> x[1..] == " " + y
  {
    if x == [c, ' '] + y {
      Assoc([c], [' '], y);
      assert [c, ' '] == [c] + [' '];
    }
  }

  lemma ElemsGlue(s: string, v: Json, x: string, y: string, vs: seq<Json>, rest: string)
    requires ParseValue(s) == Ok((v, x)) && (x == "," + y || x == ", " + y)
    requires |y| > 0 && !IsWs(y[0]) && ParseElems(y) == Ok((vs, rest))
    ensures ParseElems(s) == Ok(([v] + vs, rest))
  {
    SeparatorTail(',', x, y);
    if x == ", " + y {
      ElemsSkipsSpace(y);
    }
    ElemsStepMore(s, v, x, vs, rest);
  }

  lemma MembersGlue(m: Member, x: string, y: string, ms: seq<Member>, rest: string)
    requires x == "," + y || x == ", " + y
    requires |y| > 0 && !IsWs(y[0]) && ParseMembers(y) == Ok((ms, rest))
    ensures ParseMoreMembers(m, x) == Ok(([m] + ms, rest))
  {
    SeparatorTail(',', x, y);
    if x == ", " + y {
      MembersSkipsSpace(y);
    }
    MoreStepMore(m, x, ms, rest);
  }

  /** Parsing the text of v, followed by anything that cannot extend a number,
      gives back v and leaves the rest unread. */
  lemma {:induction false} ValueRoundTrip(v: Json, st: Style, rest: string)
    requires NumberEnd(rest)
    ensures ParseValue(Serialize(v, st) + rest) == Ok((v, rest))
    decreases v, 1
  {
    SerializeStart(v, st, rest);
    ValueStep(Serialize(v, st) + rest);
    TokenRoundTrip(v, st, rest);
  }

  lemma {:induction false} TokenRoundTrip(v: Json, st: Style, rest: string)
    requires NumberEnd(rest)
    ensures ParseToken(Serialize(v, st) + rest) == Ok((v, rest))
    decreases v, 0
  {
    var s := Serialize(v, st) + rest;
    match v
    case JNull => LiteralTokenRoundTrip(v, st, rest);
    case JBool(_) => LiteralTokenRoundTrip(v, st, rest);
    case JNum(n) =>
      SerializeStart(v, st, rest);
      NumberTokenStep(s);
      NumberRoundTrip(n, rest);
    case JStr(str) =>
      Enclosed('"', Escape(str, st), '"', rest);
      EscapeRoundTrip(str, st, rest);
      StringTokenStep(s, str, rest);
    case JArr(es) =>
      Enclosed('[', SerializeElems(es, st), ']', rest);
      ArrayRoundTrip(es, st, rest);
      ArrayTokenStep(s, Ok((v, rest)));
    case JObj(ms) =>
      Enclosed('{', SerializeMembers(ms, st), '}', rest);
      ObjectRoundTrip(ms, st, rest);
      ObjectTokenStep(s, Ok((v, rest)));
  }

  lemma LiteralTokenRoundTrip(v: Json, st: Style, rest: string)
    requires v.JNull? || v.JBool?
    ensures ParseToken(Serialize(v, st) + rest) == Ok((v, rest))
  {
    var s := Serialize(v, st) + rest;
    if v.JNull? {
      assert s[..4] == "null" && s[4..] == rest;
    } else if v.b {
      assert s[..4] == "true" && s[4..] == rest;
    } else {
      assert s[..5] == "false" && s[5..] == rest;
    }
  }

  /** Text between an opening and a closing character, followed by more text. */
  lemma Enclosed(o: char, body: string, c: char, rest: string)
    ensures var s := [o] + body + [c] + rest; |s| > 0 && s[0] == o && s[1..] == body + [c] + rest
  {
    Assoc([o] + body, [c], rest);
    Assoc([o], body, [c] + rest);
    Assoc(body, [c], rest);
  }

  lemma {:induction false} ArrayRoundTrip(es: seq<Json>, st: Style, rest: string)
    ensures ParseArrayBody(SerializeElems(es, st) + "]" + rest) == Ok((JArr(es), rest))
    decreases es, 2
  {
    var text := SerializeElems(es, st);
    if |es| == 0 {
      assert text + "]" + rest == "]" + rest;
      ArrayBodyEmpty(rest);
    } else {
      ElemsStart(es, st, "]" + rest);
      Assoc(text, "]", rest);
      ElemsRoundTrip(es, st, rest);
      ArrayBodyStep(text + "]" + rest, es, rest);
    }
  }

  lemma ArrayBodyEmpty(rest: string)
    ensures ParseArrayBody("]" + rest) == Ok((JArr([]), rest))
  {
    assert SkipWs("]" + rest) == "]" + rest;
    assert ("]" + rest)[1..] == rest;
  }

  lemma ArrayBodyStep(s: string, es: seq<Json>, rest: string)
    requires |s| > 0 && !IsWs(s[0]) && s[0] != ']' && ParseElems(s) == Ok((es, rest))
    ensures ParseArrayBody(s) == Ok((JArr(es), rest))
  {
    assert SkipWs(s) == s;
  }

  lemma {:induction false} ObjectRoundTrip(ms: seq<Member>, st: Style, rest: string)
    ensures ParseObjectBody(SerializeMembers(ms, st) + "}" + rest) == Ok((JObj(ms), rest))
    decreases ms, 2
  {
    var text := SerializeMembers(ms, st);
    if |ms| == 0 {
      assert text + "}" + rest == "}" + rest;
      ObjectBodyEmpty(rest);
    } else {
      MembersStart(ms, st, "}" + rest);
      Assoc(text, "}", rest);
      MembersRoundTrip(ms, st, rest);
      ObjectBodyStep(text + "}" + rest, ms, rest);
    }
  }

  lemma ObjectBodyEmpty(rest: string)
    ensures ParseObjectBody("}" + rest) == Ok((JObj([]), rest))
  {
    assert SkipWs("}" + rest) == "}" + rest;
    assert ("}" + rest)[1..] == rest;
  }

  lemma ObjectBodyStep(s: string, ms: seq<Member>, rest: string)
    requires |s| > 0 && s[0] == '"' && ParseMembers(s) == Ok((ms, rest))
    ensures ParseObjectBody(s) == Ok((JObj(ms), rest))
  {
    assert SkipWs(s) == s;
  }

  lemma {:induction false} ElemsRoundTrip(es: seq<Json>, st: Style, rest: string)
    requires |es| > 0
    ensures ParseElems(SerializeElems(es, st) + "]" + rest) == Ok((es, rest))
    decreases es, 1
  {
    if |es| == 1 { LastElemRoundTrip(es, st, rest); } else { MoreElemsRoundTrip(es, st, rest); }
  }

  lemma {:induction false} LastElemRoundTrip(es: seq<Json>, st: Style, rest: string)
    requires |es| == 1
    ensures ParseElems(SerializeElems(es, st) + "]" + rest) == Ok((es, rest))
    decreases es, 0
  {
    var h := Serialize(es[0], st);
    var x := "]" + rest;
    assert SerializeElems(es, st) == h;
    assert SerializeElems(es, st) + "]" + rest == h + x;
    ValueRoundTrip(es[0], st, x);
    ElemsStepLast(h + x, es[0], rest);
    assert [es[0]] == es;
  }

  lemma {:induction false} MoreElemsRoundTrip(es: seq<Json>, st: Style, rest: string)
    requires |es| > 1
    ensures ParseElems(SerializeElems(es, st) + "]" + rest) == Ok((es, rest))
    decreases es, 0
  {
    var x := ItemSep(st) + (SerializeElems(es[1..], st) + ("]" + rest));
    SeparatorStart(st, SerializeElems(es[1..], st) + ("]" + rest));
    ValueRoundTrip(es[0], st, x);
    ElemsRoundTrip(es[1..], st, rest);
    MoreElemsFinish(es, st, rest);
  }

  /** The first element and the rest of the list, each parsed, make the whole list. */
  lemma MoreElemsFinish(es: seq<Json>, st: Style, rest: string)
    requires |es| > 1
    requires var x := ItemSep(st) + (SerializeElems(es[1..], st) + ("]" + rest));
      ParseValue(Serialize(es[0], st) + x) == Ok((es[0], x))
    requires ParseElems(SerializeElems(es[1..], st) + "]" + rest) == Ok((es[1..], rest))
    ensures ParseElems(SerializeElems(es, st) + "]" + rest) == Ok((es, rest))
  {
    ElemsText(es, st, rest);
    MoreElemsParsed(es, st, rest);
  }

  lemma MoreElemsParsed(es: seq<Json>, st: Style, rest: string)
    requires |es| > 1
    requires var x := ItemSep(st) + (SerializeElems(es[1..], st) + ("]" + rest));
      ParseValue(Serialize(es[0], st) + x) == Ok((es[0], x))
    requires ParseElems(SerializeElems(es[1..], st) + "]" + rest) == Ok((es[1..], rest))
    ensures ParseElems(Serialize(es[0], st) + (ItemSep(st) + (SerializeElems(es[1..], st) + ("]" + rest)))) ==
      Ok((es, rest))
  {
    var tail := SerializeElems(es[1..], st);
    ElemsStart(es[1..], st, "]" + rest);
    MoreElemsGlue(Serialize(es[0], st) + (ItemSep(st) + (tail + ("]" + rest))), es[0], st, tail, es[1..], rest);
    HeadTail(es);
  }

  lemma SeparatorStart(st: Style, y: string)
    ensures |ItemSep(st) + y| > 0 && (ItemSep(st) + y)[0] == ',' && NumberEnd(ItemSep(st) + y)
  {
  }

  /** A first element, a separator and an element list that parses. */
  lemma MoreElemsGlue(s: string, v: Json, st: Style, tl: string, vs: seq<Json>, rest: string)
    requires ParseValue(s) == Ok((v, ItemSep(st) + (tl + ("]" + rest))))
    requires |tl + ("]" + rest)| > 0 && !IsWs((tl + ("]" + rest))[0])
    requires ParseElems(tl + "]" + rest) == Ok((vs, rest))
    ensures ParseElems(s) == Ok(([v] + vs, rest))
  {
    var y := tl + ("]" + rest);
    Assoc(tl, "]", rest);
    SeparatorForm(st, y);
    ElemsGlue(s, v, ItemSep(st) + y, y, vs, rest);
  }

  /** The text of an array body with more than one element, split after its first. */
  lemma ElemsText(es: seq<Json>, st: Style, rest: string)
    requires |es| > 1
    ensures SerializeElems(es, st) + "]" + rest ==
      Serialize(es[0], st) + (ItemSep(st) + (SerializeElems(es[1..], st) + ("]" + rest)))
  {
    var h, sep, tail := Serialize(es[0], st), ItemSep(st), SerializeElems(es[1..], st);
    assert SerializeElems(es, st) == h + sep + tail;
    Assoc(h + sep + tail, "]", rest);
    Assoc(h + sep, tail, "]" + rest);
    Assoc(h, sep, tail + ("]" + rest));
  }

  lemma {:induction false} MembersRoundTrip(ms: seq<Member>, st: Style, rest: string)
    requires |ms| > 0
    ensures ParseMembers(SerializeMembers(ms, st) + "}" + rest) == Ok((ms, rest))
    decreases ms, 1
  {
    var k, v := ms[0].key, ms[0].value;
    var x := if |ms| == 1 then "}" + rest else ItemSep(st) + SerializeMembers(ms[1..], st) + "}" + rest;
    var z := Serialize(v, st) + x;
    var afterKey := KeySep(st) + z;
    var e := Escape(k, st) + "\"" + afterKey;
    var s := SerializeMembers(ms, st) + "}" + rest;
    MembersText(ms, st, rest, x);
    EscapeRoundTrip(k, st, afterKey);
    ValueRoundTrip(v, st, x);
    SerializeStart(v, st, x);
    KeyValueGlue(s, k, afterKey, z, v, x);
    if |ms| == 1 {
      MoreStepLast(ms[0], rest);
      assert [ms[0]] == ms;
    } else {
      MoreMembersRoundTrip(ms, st, rest);
    }
  }



  /** The text of a non-empty member list, split at its first member. */
  lemma MembersText(ms: seq<Member>, st: Style, rest: string, x: string)
    requires |ms| > 0
    requires x == if |ms| == 1 then "}" + rest else ItemSep(st) + SerializeMembers(ms[1..], st) + "}" + rest
    ensures SerializeMembers(ms, st) + "}" + rest ==
      "\"" + (Escape(ms[0].key, st) + "\"" + (KeySep(st) + (Serialize(ms[0].value, st) + x)))
  {
    var e, ks, v := Escape(ms[0].key, st), KeySep(st), Serialize(ms[0].value, st);
    var q := Quote(ms[0].key, st);
    var p := q + ks + v;
    var s := SerializeMembers(ms, st);
    if |ms| == 1 {
      assert s == p;
      Assoc(s, "}", rest);
    } else {
      var sep, tl := ItemSep(st), SerializeMembers(ms[1..], st);
      assert s == p + sep + tl;
      Assoc(p, sep, tl);
      Assoc(p, sep + tl, "}");
      Assoc(p, sep + tl + "}", rest);
    }
    assert s + "}" + rest == p + x;
    Assoc(q + ks, v, x);
    Assoc(q, ks, v + x);
    var w := ks + (v + x);
    Assoc("\"" + e, "\"", w);
    Assoc("\"", e, "\"" + w);
    Assoc(e, "\"", w);
  }

  lemma KeyValueGlue(s: string, k: string, afterKey: string, z: string, v: Json, x: string)
    requires |s| > 0 && s[0] == '"' && ParseStringBody(s[1..]) == Ok((k, afterKey))
    requires afterKey == ":" + z || afterKey == ": " + z
    requires |z| > 0 && !IsWs(z[0]) && ParseValue(z) == Ok((v, x))
    ensures ParseMembers(s) == ParseMoreMembers(Member(k, v), x)
  {
    SeparatorTail(':', afterKey, z);
    if afterKey == ": " + z {
      ValueSkipsSpace(z);
    }
    MembersStep(s, k, afterKey, v, x);
  }

  lemma SeparatorForm(st: Style, y: string)
    ensures ItemSep(st) + y == "," + y || ItemSep(st) + y == ", " + y
  {
  }

  /** A separator and a member list that parses, after a first member. */
  lemma MoreMembersGlue(m: Member, st: Style, tl: string, ms: seq<Member>, rest: string)
    requires (tl + ("}" + rest))[0] == '"' && ParseMembers(tl + "}" + rest) == Ok((ms, rest))
    ensures ParseMoreMembers(m, ItemSep(st) + tl + "}" + rest) == Ok(([m] + ms, rest))
  {
    var y := tl + ("}" + rest);
    Assoc(ItemSep(st) + tl, "}", rest);
    Assoc(ItemSep(st), tl, "}" + rest);
    Assoc(tl, "}", rest);
    SeparatorForm(st, y);
    MembersGlue(m, ItemSep(st) + y, y, ms, rest);
  }

  lemma {:induction false} MoreMembersRoundTrip(ms: seq<Member>, st: Style, rest: string)
    requires |ms| > 1
    ensures ParseMoreMembers(ms[0], ItemSep(st) + SerializeMembers(ms[1..], st) + "}" + rest) == Ok((ms, rest))
    decreases ms, 0
  {
    MembersRoundTrip(ms[1..], st, rest);
    MoreMembersFinish(ms, st, rest);
  }

  lemma HeadTail<T>(xs: seq<T>)
    requires |xs| > 0
    ensures [xs[0]] + xs[1..] == xs
  {
  }

  /** A first member, a separator and the rest of the list parsed make the whole list. */
  lemma MoreMembersFinish(ms: seq<Member>, st: Style, rest: string)
    requires |ms| > 1
    requires ParseMembers(SerializeMembers(ms[1..], st) + "}" + rest) == Ok((ms[1..], rest))
    ensures ParseMoreMembers(ms[0], ItemSep(st) + SerializeMembers(ms[1..], st) + "}" + rest) == Ok((ms, rest))
  {
    var tl := SerializeMembers(ms[1..], st);
    MembersStart(ms[1..], st, "}" + rest);
    MoreMembersGlue(ms[0], st, tl, ms[1..], rest);
    HeadTail(ms);
  }

  /** `JSON.parse` inverts both serialisers, with or without trailing whitespace
      (Python's `print` adds a newline). */
  lemma ParseSerialize(v: Json, st: Style, trailing: string)
    requires forall i :: 0 <= i < |trailing| ==> IsWs(trailing[i])
    ensures Parse(Serialize(v, st) + trailing) == Ok(v)
  {
    assert NumberEnd(trailing) by {
      if |trailing| > 0 {
        assert IsWs(trailing[0]);
      }
    }
    ValueRoundTrip(v, st, trailing);
    AllWsSkipped(trailing);
    ParseStep(Serialize(v, st) + trailing, v, trailing);
  }

  /** A value followed by nothing but whitespace is what Parse returns. */
  lemma ParseStep(s: string, v: Json, rest: string)
    requires ParseValue(s) == Ok((v, rest)) && SkipWs(rest) == []
    ensures Parse(s) == Ok(v)
  {
  }

  lemma {:induction false} AllWsSkipped(w: string)
    requires forall i :: 0 <= i < |w| ==> IsWs(w[i])
    ensures SkipWs(w) == []
    decreases |w|
  {
    if |w| > 0 {
      AllWsSkipped(w[1..]);
    }
  }

  /* ---------- JavaScript conventions on parsed values ---------- */

  /** `v.key`: the value of the last member named key (JSON.parse keeps the last
      of duplicated keys); None, JavaScript's undefined, for a missing member and
      for anything that is not an object. */
  function Get(v: Json, key: string): (r: Option<Json>)
    ensures r.Some? <==> v.JObj? && exists i :: 0 <= i < |v.members| && v.members[i].key == key
    ensures r.Some? ==> exists i :: 0 <= i < |v.members| && v.members[i] == Member(key, r.value) &&
                                    (forall j :: i < j < |v.members| ==> v.members[j].key != key)
  {
    if v.JObj? then LastValue(v.members, key) else None
  }

  function LastValue(ms: seq<Member>, key: string): (r: Option<Json>)
    ensures r.Some? <==> exists i :: 0 <= i < |ms| && ms[i].key == key
    ensures r.Some? ==> exists i :: 0 <= i < |ms| && ms[i] == Member(key, r.value) &&
                                    (forall j :: i < j < |ms| ==> ms[j].key != key)
    decreases |ms|
  {
    if |ms| == 0 then None
    else if ms[|ms| - 1].key == key then Some(ms[|ms| - 1].value)
    else LastValue(ms[..|ms| - 1], key)
  }

  /* ---------- objects as dictionaries ---------- */

  /** An object's members as name/value pairs, in text order. */
  function Pairs(ms: seq<Member>): (d: Dict.Dict<Json>)
    ensures |d| == |ms| && forall i :: 0 <= i < |ms| ==> d[i] == (ms[i].key, ms[i].value)
  {
    seq(|ms|, i requires 0 <= i < |ms| => (ms[i].key, ms[i].value))
  }

  /** The dictionary an object stands for, as `JSON.parse` builds a JavaScript
      object and `json.load` a Python dict: a repeated name keeps the place of
      its first member and takes the value of its last. */
  function ObjectOf(ms: seq<Member>): (d: Dict.Dict<Json>)
    ensures Dict.UniqueKeys(d) && |d| <= |ms|
    ensures forall k :: k in Dict.Keys(d) <==> k in Dict.Keys(Pairs(ms))
  {
    Dict.PutAllKeys(Pairs(ms));
    Dict.PutAll(Pairs(ms))
  }

  /** A dictionary written out as an object, one member per pair. */
  function DictJson(d: Dict.Dict<Json>): (j: Json)
    ensures j.JObj? && Pairs(j.members) == d
  {
    var j := JObj(seq(|d|, i requires 0 <= i < |d| => Member(d[i].0, d[i].1)));
    assert Pairs(j.members) == d;
    j
  }

  /** Each name of the dictionary holds what `v.key` reads: its last value. */
  lemma ObjectOfLookup(ms: seq<Member>, k: string)
    ensures Dict.Lookup(ObjectOf(ms), k) == LastValue(ms, k)
  {
    var r := LastValue(ms, k);
    if r.Some? {
      var i :| 0 <= i < |ms| && ms[i] == Member(k, r.value) && forall j :: i < j < |ms| ==> ms[j].key != k;
      Dict.PutAllLast(Pairs(ms), i);
    } else {
      assert k !in Dict.Keys(Pairs(ms));
    }
  }

  /** Members with distinct names are kept as they are, in order. */
  lemma ObjectOfUnique(ms: seq<Member>)
    requires forall i, j :: 0 <= i < j < |ms| ==> ms[i].key != ms[j].key
    ensures ObjectOf(ms) == Pairs(ms)
  {
    Dict.PutAllDistinct(Pairs(ms));
  }

  /** The members of an object's dictionary: each name once, with its last value. */
  lemma ObjectMembersLast(ms: seq<Member>)
    ensures var es := DictJson(ObjectOf(ms)).members;
      && (forall i, j :: 0 <= i < j < |es| ==> es[i].key != es[j].key)
      && (forall i :: 0 <= i < |es| ==> LastValue(ms, es[i].key) == Some(es[i].value))
  {
    var d := ObjectOf(ms);
    var es := DictJson(d).members;
    assert forall i :: 0 <= i < |es| ==> es[i].key == Dict.Keys(d)[i];
    forall i | 0 <= i < |es| ensures LastValue(ms, es[i].key) == Some(es[i].value) {
      assert (es[i].key, es[i].value) == d[i];
      ObjectOfLookup(ms, d[i].0);
      Dict.LookupAt(d, i);
    }
  }

  /** Every name of the object is among the dictionary's members. */
  lemma ObjectMembersCover(ms: seq<Member>)
    ensures var es := DictJson(ObjectOf(ms)).members;
      forall i :: 0 <= i < |ms| ==> exists j :: 0 <= j < |es| && es[j].key == ms[i].key
  {
    forall i | 0 <= i < |ms| ensures exists j :: 0 <= j < |DictJson(ObjectOf(ms)).members| && DictJson(ObjectOf(ms)).members[j].key == ms[i].key {
      ObjectMemberFound(ms, i);
    }
  }

  lemma ObjectMemberFound(ms: seq<Member>, i: nat)
    requires i < |ms|
    ensures exists j :: 0 <= j < |DictJson(ObjectOf(ms)).members| && DictJson(ObjectOf(ms)).members[j].key == ms[i].key
  {
    var d := ObjectOf(ms);
    var ks := Dict.Keys(d);
    assert Dict.Keys(Pairs(ms))[i] == ms[i].key;
    assert ms[i].key in ks;
    var j :| 0 <= j < |ks| && ks[j] == ms[i].key;
    var es := DictJson(d).members;
    assert (es[j].key, es[j].value) == d[j];
  }

  /** With no name repeated, the dictionary's members are the object's, in order. */
  lemma ObjectMembersUnique(ms: seq<Member>)
    requires forall i, j :: 0 <= i < j < |ms| ==> ms[i].key != ms[j].key
    ensures DictJson(ObjectOf(ms)).members == ms
  {
    var es := DictJson(ObjectOf(ms)).members;
    ObjectOfUnique(ms);
    assert forall i :: 0 <= i < |es| ==> es[i] == ms[i];
  }

  /** A name given twice is kept once, with the second value. */
  lemma ObjectOfRepeated(k: string, a: Json, b: Json)
    ensures ObjectOf([Member(k, a), Member(k, b)]) == [(k, b)]
  {
    var ps := Pairs([Member(k, a), Member(k, b)]);
    assert ps[..1] == [(k, a)] && ps[..1][..0] == [];
    Dict.PutAllUnfold(ps);
    Dict.PutAllUnfold(ps[..1]);
  }

  /** JavaScript truthiness; None is undefined. */
  predicate Truthy(v: Option<Json>) {
    match v
    case None => false
    case Some(JNull) => false
    case Some(JBool(b)) => b
    case Some(JNum(n)) => n != 0
    case Some(JStr(s)) => |s| > 0
    case Some(JArr(_)) => true
    case Some(JObj(_)) => true
  }

  /** `${v}`: JavaScript's conversion of a value to a string. Arrays are joined
      with "," and show null elements as the empty string. */
  function ToJsString(v: Json): string
    decreases v, 1
  {
    match v
    case JNull => "null"
    case JBool(b) => if b then "true" else "false"
    case JNum(n) => IntText(n)
    case JStr(s) => s
    case JArr(es) => JoinElems(es)
    case JObj(_) => "[object Object]"
  }

  function JoinElems(es: seq<Json>): string
    decreases es, 0
  {
    if |es| == 0 then ""
    else
      var first := if es[0].JNull? then "" else ToJsString(es[0]);
      if |es| == 1 then first else first + "," + JoinElems(es[1..])
  }
}
