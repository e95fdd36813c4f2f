/** JSON text: a compact printer and a parser for RFC 8259, sections 2 to 7.
    Text is a sequence of UTF-8 bytes; `\u` escapes are decoded into their UTF-8 bytes. */
module Json {

  datatype Member = Member(key: string, value: Json)

  /** Objects keep their members in text order, duplicates included. Numbers keep their token. */
  datatype Json =
    | JNull
    | JBool(b: bool)
    | JNumber(token: string)
    | JString(s: string)
    | JArray(elems: seq<Json>)
    | JObject(members: seq<Member>)

  // ---------------------------------------------------------------- printing

  function HexDigit(d: nat): (c: char)
    requires d < 16
  {
    if d < 10 then ('0' as int + d) as char else ('a' as int + d - 10) as char
  }

  function EscapeChar(c: char): string {
    if c == '"' then "\\\""
    else if c == '\\' then "\\\\"
    else if c == '\n' then "\\n"
    else if c == '\r' then "\\r"
    else if c == '\t' then "\\t"
    else if c as int == 8 then "\\b"
    else if c as int == 12 then "\\f"
    else if c as int < 32 then "\\u00" + [HexDigit(c as int / 16), HexDigit(c as int % 16)]
    else [c]
  }

  function Escape(s: string): string {
    if s == "" then "" else EscapeChar(s[0]) + Escape(s[1..])
  }

  function Print(j: Json): string
    decreases j, 1
  {
    match j
    case JNull => "null"
    case JBool(b) => if b then "true" else "false"
    case JNumber(token) => token
    case JString(s) => "\"" + Escape(s) + "\""
    case JArray(elems) => if elems == [] then "[]" else "[" + PrintElems(elems) + "]"
    case JObject(members) => if members == [] then "{}" else "{" + PrintMembers(members) + "}"
  }

  function PrintElems(elems: seq<Json>): string
    requires elems != []
    decreases elems, 0
  {
    if |elems| == 1 then Print(elems[0]) else Print(elems[0]) + "," + PrintElems(elems[1..])
  }

  function PrintMember(m: Member): string
    decreases m, 2
  {
    "\"" + Escape(m.key) + "\":" + Print(m.value)
  }

  function PrintMembers(members: seq<Member>): string
    requires members != []
    decreases members, 0
  {
    if |members| == 1 then PrintMember(members[0]) else PrintMember(members[0]) + "," + PrintMembers(members[1..])
  }

  // ---------------------------------------------------------------- parsing

  datatype Parsed<+T> = Fail | Got(value: T, rest: string)

  predicate IsWs(c: char) { c == ' ' || c == '\t' || c == '\n' || c == '\r' }

  predicate IsDigit(c: char) { '0' <= c <= '9' }

  function SkipWs(s: string): (t: string)
    ensures |t| <= |s|
  {
    if s != "" && IsWs(s[0]) then SkipWs(s[1..]) else s
  }

  /** The number of leading digits. */
  function DigitsLen(s: string): (n: nat)
    ensures n <= |s|
  {
    if s != "" && IsDigit(s[0]) then 1 + DigitsLen(s[1..]) else 0
  }

  function IntLen(s: string): (n: nat)
    ensures n <= |s|
  {
    if s == "" || !IsDigit(s[0]) then 0 else if s[0] == '0' then 1 else DigitsLen(s)
  }

  datatype Len = Bad | Len(n: nat)

  function FracLen(s: string): (l: Len)
    ensures l.Len? ==> l.n <= |s|
  {
    if s == "" || s[0] != '.' then Len(0)
    else var d := DigitsLen(s[1..]); if d == 0 then Bad else Len(1 + d)
  }

  function ExpLen(s: string): (l: Len)
    ensures l.Len? ==> l.n <= |s|
  {
    if s == "" || (s[0] != 'e' && s[0] != 'E') then Len(0)
    else
      var sign := if |s| > 1 && (s[1] == '+' || s[1] == '-') then 1 else 0;
      var d := DigitsLen(s[1 + sign..]);
      if d == 0 then Bad else Len(1 + sign + d)
  }

  /** Fraction and exponent. */
  function TailLen(s: string): (l: Len)
    ensures l.Len? ==> l.n <= |s|
  {
    var f := FracLen(s);
    if f.Bad? then Bad else
    var e := ExpLen(s[f.n..]);
    if e.Bad? then Bad else Len(f.n + e.n)
  }

  function MinusLen(s: string): (n: nat)
    ensures n <= |s|
  {
    if s != "" && s[0] == '-' then 1 else 0
  }

  /** Digits, fraction and exponent. */
  function UnsignedLen(s: string): (l: Len)
    ensures l.Len? ==> 0 < l.n <= |s|
  {
    var i := IntLen(s);
    if i == 0 then Bad else
    var tail := TailLen(s[i..]);
    if tail.Bad? then Bad else Len(i + tail.n)
  }

  function NumberLen(s: string): (l: Len)
    ensures l.Len? ==> 0 < l.n <= |s|
  {
    var u := UnsignedLen(s[MinusLen(s)..]);
    if u.Bad? then Bad else Len(MinusLen(s) + u.n)
  }

  /** The token is one whole number. */
  predicate IsNumber(token: string) {
    NumberLen(token) == Len(|token|)
  }

  type NumberToken = t: string | IsNumber(t) witness "0"

  /** A string literal can hold the text as it is: no quote, backslash or control character. */
  predicate IsPlain(s: string) {
    forall i | 0 <= i < |s| :: s[i] as int >= 32 && s[i] != '"' && s[i] != '\\'
  }

  function HexValue(c: char): (v: int)
    ensures -1 <= v < 16
  {
    if '0' <= c <= '9' then c as int - '0' as int
    else if 'a' <= c <= 'f' then c as int - 'a' as int + 10
    else if 'A' <= c <= 'F' then c as int - 'A' as int + 10
    else -1
  }

  /** The code unit written by four hexadecimal digits, or -1. */
  function Hex4(s: string): (v: int)
    ensures v >= 0 ==> |s| >= 4 && v < 0x1_0000
    ensures v >= -1
  {
    if |s| < 4 || HexValue(s[0]) < 0 || HexValue(s[1]) < 0 || HexValue(s[2]) < 0 || HexValue(s[3]) < 0 then -1
    else ((HexValue(s[0]) * 16 + HexValue(s[1])) * 16 + HexValue(s[2])) * 16 + HexValue(s[3])
  }

  function Byte(b: nat): char
    requires b < 256
  {
    b as char
  }

  /** UTF-8 encoding of a code point. */
  function Utf8(code: nat): string
    requires code < 0x11_0000
  {
    if code < 0x80 then [Byte(code)]
    else if code < 0x800 then [Byte(0xC0 + code / 64), Byte(0x80 + code % 64)]
    else if code < 0x1_0000 then [Byte(0xE0 + code / 4096), Byte(0x80 + code / 64 % 64), Byte(0x80 + code % 64)]
    else [Byte(0xF0 + code / 262144), Byte(0x80 + code / 4096 % 64), Byte(0x80 + code / 64 % 64), Byte(0x80 + code % 64)]
  }

  /** The rest of a string literal, after its opening quote. */
  function ParseString(s: string): (r: Parsed<string>)
    ensures r.Got? ==> |r.rest| < |s|
    decreases |s|
  {
    if s == "" then Fail
    else if s[0] == '"' then Got("", s[1..])
    else if s[0] == '\\' then ParseEscape(s)
    else if s[0] as int < 32 then Fail
    else Prepend([s[0]], ParseString(s[1..]))
  }

  function Prepend(head: string, r: Parsed<string>): (p: Parsed<string>)
    ensures p.Got? <==> r.Got?
    ensures r.Got? ==> p.rest == r.rest
  {
    match r case Fail => Fail case Got(v, rest) => Got(head + v, rest)
  }

  /** What the escape at the front of a text stands for, and how long it is. */
  datatype Escaped = NoEscape | Escaped(text: string, len: nat)

  function DecodeEscape(s: string): (e: Escaped)
    requires s != "" && s[0] == '\\'
    ensures e.Escaped? ==> |e.text| < e.len <= |s|
  {
    if |s| < 2 then NoEscape
    else match s[1]
      case '"' => Escaped("\"", 2)
      case '\\' => Escaped("\\", 2)
      case '/' => Escaped("/", 2)
      case 'b' => Escaped([8 as char], 2)
      case 'f' => Escaped([12 as char], 2)
      case 'n' => Escaped("\n", 2)
      case 'r' => Escaped("\r", 2)
      case 't' => Escaped("\t", 2)
      case 'u' =>
        var unit := Hex4(s[2..]);
        if unit < 0 || 0xDC00 <= unit < 0xE000 then NoEscape
        else if unit < 0xD800 || 0xE000 <= unit then Escaped(Utf8(unit), 6)
        else if |s| < 12 || s[6] != '\\' || s[7] != 'u' then NoEscape
        else
          var low := Hex4(s[8..]);
          if !(0xDC00 <= low < 0xE000) then NoEscape
          else Escaped(Utf8(0x1_0000 + (unit - 0xD800) * 1024 + (low - 0xDC00)), 12)
      case _ => NoEscape
  }

  function ParseEscape(s: string): (r: Parsed<string>)
    requires s != "" && s[0] == '\\'
    ensures r.Got? ==> |r.rest| < |s|
    decreases |s|, 0
  {
    match DecodeEscape(s)
    case NoEscape => Fail
    case Escaped(text, len) => Prepend(text, ParseString(s[len..]))
  }

  predicate HasPrefix(s: string, word: string) {
    |word| <= |s| && s[..|word|] == word
  }

  function ParseValue(s: string): (r: Parsed<Json>)
    ensures r.Got? ==> |r.rest| < |s|
    decreases |s|, 1
  {
    var t := SkipWs(s);
    if t == "" then Fail
    else if t[0] == '"' then
      (match ParseString(t[1..]) case Fail => Fail case Got(v, rest) => Got(JString(v), rest))
    else if t[0] == '[' then
      var u := SkipWs(t[1..]);
      if u != "" && u[0] == ']' then Got(JArray([]), u[1..])
      else (match ParseElems(t[1..]) case Fail => Fail case Got(v, rest) => Got(JArray(v), rest))
    else if t[0] == '{' then
      var u := SkipWs(t[1..]);
      if u != "" && u[0] == '}' then Got(JObject([]), u[1..])
      else (match ParseMembers(t[1..]) case Fail => Fail case Got(v, rest) => Got(JObject(v), rest))
    else if HasPrefix(t, "null") then Got(JNull, t[4..])
    else if HasPrefix(t, "true") then Got(JBool(true), t[4..])
    else if HasPrefix(t, "false") then Got(JBool(false), t[5..])
    else match NumberLen(t)
      case Bad => Fail
      case Len(n) => Got(JNumber(t[..n]), t[n..])
  }

  /** One or more elements and the closing bracket. */
  function ParseElems(s: string): (r: Parsed<seq<Json>>)
    ensures r.Got? ==> |r.rest| < |s|
    decreases |s|, 2
  {
    match ParseValue(s)
    case Fail => Fail
    case Got(v, rest) =>
      var t := SkipWs(rest);
      if t != "" && t[0] == ']' then Got([v], t[1..])
      else if t != "" && t[0] == ',' then
        (match ParseElems(t[1..]) case Fail => Fail case Got(vs, rest') => Got([v] + vs, rest'))
      else Fail
  }

  function ParseMember(s: string): (r: Parsed<Member>)
    ensures r.Got? ==> |r.rest| < |s|
    decreases |s|, 2
  {
    var t := SkipWs(s);
    if t == "" || t[0] != '"' then Fail else
    match ParseString(t[1..])
    case Fail => Fail
    case Got(key, rest) =>
      var u := SkipWs(rest);
      if u == "" || u[0] != ':' then Fail else
      match ParseValue(u[1..])
      case Fail => Fail
      case Got(v, rest') => Got(Member(key, v), rest')
  }

  /** One or more members and the closing brace. */
  function ParseMembers(s: string): (r: Parsed<seq<Member>>)
    ensures r.Got? ==> |r.rest| < |s|
    decreases |s|, 3
  {
    match ParseMember(s)
    case Fail => Fail
    case Got(m, rest) =>
      var t := SkipWs(rest);
      if t != "" && t[0] == '}' then Got([m], t[1..])
      else if t != "" && t[0] == ',' then
        (match ParseMembers(t[1..]) case Fail => Fail case Got(ms, rest') => Got([m] + ms, rest'))
      else Fail
  }

  datatype Text = NotJson | IsJson(value: Json)

  /** A whole JSON text. */
  function Parse(s: string): Text {
    match ParseValue(s)
    case Fail => NotJson
    case Got(v, rest) => if SkipWs(rest) == "" then IsJson(v) else NotJson
  }

  // ---------------------------------------------------------------- round trip

  predicate WellFormed(j: Json) {
    match j
    case JNull => true
    case JBool(_) => true
    case JNumber(token) => IsNumber(token)
    case JString(_) => true
    case JArray(elems) => forall i | 0 <= i < |elems| :: WellFormed(elems[i])
    case JObject(members) => forall i | 0 <= i < |members| :: WellFormed(members[i].value)
  }

  /** A number token cannot run on into `rest`. */
  predicate Delimits(rest: string) {
    rest == "" || (!IsDigit(rest[0]) && rest[0] != '.' && rest[0] != 'e' && rest[0] != 'E')
  }

  lemma {:induction false} DigitsLenExtend(t: string, rest: string)
    requires DigitsLen(t) < |t| || rest == "" || !IsDigit(rest[0])
    ensures DigitsLen(t + rest) == DigitsLen(t)
  {
    if t == "" {
      assert t + rest == rest;
    } else if IsDigit(t[0]) {
      assert (t + rest)[1..] == t[1..] + rest;
      DigitsLenExtend(t[1..], rest);
    }
  }

  lemma IntLenExtend(t: string, rest: string)
    requires 0 < IntLen(t) && (IntLen(t) < |t| || Delimits(rest))
    ensures IntLen(t + rest) == IntLen(t)
  {
    if t[0] != '0' {
      DigitsLenExtend(t, rest);
    }
  }

  lemma FracLenExtend(t: string, rest: string)
    requires FracLen(t).Len? && (FracLen(t).n < |t| || Delimits(rest))
    ensures FracLen(t + rest) == FracLen(t)
  {
    if t != "" && t[0] == '.' {
      assert (t + rest)[1..] == t[1..] + rest;
      DigitsLenExtend(t[1..], rest);
    }
  }

  lemma ExpLenExtend(t: string, rest: string)
    requires ExpLen(t).Len? && (ExpLen(t).n < |t| || Delimits(rest))
    ensures ExpLen(t + rest) == ExpLen(t)
  {
    if t != "" && (t[0] == 'e' || t[0] == 'E') {
      var sign := if |t| > 1 && (t[1] == '+' || t[1] == '-') then 1 else 0;
      assert (t + rest)[1 + sign..] == t[1 + sign..] + rest;
      DigitsLenExtend(t[1 + sign..], rest);
    }
  }

  lemma Suffix(t: string, rest: string, k: nat)
    requires k <= |t|
    ensures (t + rest)[k..] == t[k..] + rest
  {
  }

  lemma TailLenExtend(t: string, rest: string)
    requires TailLen(t).Len? && (TailLen(t).n < |t| || Delimits(rest))
    ensures TailLen(t + rest) == TailLen(t)
  {
    FracLenExtend(t, rest);
    var f := FracLen(t).n;
    Suffix(t, rest, f);
    ExpLenExtend(t[f..], rest);
  }

  lemma UnsignedLenExtend(t: string, rest: string)
    requires UnsignedLen(t).Len? && (UnsignedLen(t).n < |t| || Delimits(rest))
    ensures UnsignedLen(t + rest) == UnsignedLen(t)
  {
    IntLenExtend(t, rest);
    var i := IntLen(t);
    Suffix(t, rest, i);
    TailLenExtend(t[i..], rest);
  }

  lemma NumberLenExtend(t: string, rest: string)
    requires NumberLen(t).Len? && (NumberLen(t).n < |t| || Delimits(rest))
    ensures NumberLen(t + rest) == NumberLen(t)
  {
    var minus := MinusLen(t);
    Suffix(t, rest, minus);
    UnsignedLenExtend(t[minus..], rest);
  }

  lemma NumberStart(t: string)
    requires IsNumber(t)
    ensures t[0] == '-' || IsDigit(t[0])
  {
  }

  lemma HexDigitValue(d: nat)
    requires d < 16
    ensures HexValue(HexDigit(d)) == d
  {
  }

  lemma ParseEscapedChar(c: char, rest: string)
    ensures ParseString(EscapeChar(c) + rest) == Prepend([c], ParseString(rest))
  {
    var e := EscapeChar(c);
    var s := e + rest;
    if c as int < 32 && |e| == 6 {
      var hi, lo := c as int / 16, c as int % 16;
      HexDigitValue(hi);
      HexDigitValue(lo);
      assert HexValue('0') == 0;
      assert s[2..][0] == '0' && s[2..][1] == '0' && s[2..][2] == HexDigit(hi) && s[2..][3] == HexDigit(lo);
      assert Hex4(s[2..]) == c as int;
      assert Utf8(c as int) == [c];
      assert s[6..] == rest;
    } else if |e| == 2 {
      assert s[2..] == rest;
    } else {
      assert s[1..] == rest;
    }
  }

  lemma {:induction false} ParseEscaped(v: string, rest: string)
    ensures ParseString(Escape(v) + "\"" + rest) == Got(v, rest)
  {
    hide EscapeChar, ParseEscape;
    if v == "" {
      assert Escape(v) + "\"" + rest == "\"" + rest;
      assert ("\"" + rest)[1..] == rest;
    } else {
      ParseEscaped(v[1..], rest);
      var tail := Escape(v[1..]) + "\"" + rest;
      assert Escape(v) + "\"" + rest == EscapeChar(v[0]) + tail;
      ParseEscapedChar(v[0], tail);
      assert [v[0]] + v[1..] == v;
    }
  }

  /** First character of a printed value: never white space, never a closing bracket. */
  lemma PrintStart(j: Json)
    requires WellFormed(j)
    ensures Print(j) != ""
    ensures var c := Print(j)[0]; !IsWs(c) && c != ']' && c != '}' && c != ','
  {
    if j.JNumber? {
      NumberStart(j.token);
    }
  }

  lemma NoSkip(s: string)
    requires s != "" && !IsWs(s[0])
    ensures SkipWs(s) == s
  {
  }

  lemma ParsePrintedLiteral(j: Json, rest: string)
    requires j.JNull? || j.JBool?
    ensures ParseValue(Print(j) + rest) == Got(j, rest)
  {
    var w := Print(j);
    var s := w + rest;
    assert s[..|w|] == w && s[|w|..] == rest;
    NoSkip(s);
    assert s[0] == w[0];
  }

  lemma NotAWord(s: string, word: string)
    requires s != "" && word != "" && s[0] != word[0]
    ensures !HasPrefix(s, word)
  {
  }

  lemma ParseNumberText(s: string, n: nat)
    requires s != "" && (s[0] == '-' || IsDigit(s[0]))
    requires n <= |s| && NumberLen(s) == Len(n)
    ensures ParseValue(s) == Got(JNumber(s[..n]), s[n..])
  {
    hide ParseElems, ParseMembers, ParseString, NumberLen, HasPrefix, SkipWs;
    NoSkip(s);
    NotAWord(s, "null");
    NotAWord(s, "true");
    NotAWord(s, "false");
  }

  lemma ParsePrintedNumber(token: string, rest: string)
    requires IsNumber(token) && Delimits(rest)
    ensures ParseValue(token + rest) == Got(JNumber(token), rest)
  {
    NumberStart(token);
    NumberLenExtend(token, rest);
    assert (token + rest)[..|token|] == token && (token + rest)[|token|..] == rest;
    ParseNumberText(token + rest, |token|);
  }

  lemma ParseQuoted(v: string, rest: string)
    ensures ParseValue("\"" + Escape(v) + "\"" + rest) == Got(JString(v), rest)
  {
    var tail := Escape(v) + "\"" + rest;
    var s := "\"" + tail;
    assert "\"" + Escape(v) + "\"" + rest == s;
    NoSkip(s);
    assert s[1..] == tail;
    ParseEscaped(v, rest);
  }

  /** `s` is `c` followed by `tail`. */
  lemma ParseBracket(s: string, tail: string)
    requires s == "[" + tail
    ensures tail != "" && tail[0] == ']' ==> ParseValue(s) == Got(JArray([]), tail[1..])
    ensures tail != "" && !IsWs(tail[0]) && tail[0] != ']' && ParseElems(tail).Got? ==>
              ParseValue(s) == Got(JArray(ParseElems(tail).value), ParseElems(tail).rest)
  {
    hide ParseMembers, NumberLen, ParseString, ParseElems;
    NoSkip(s);
    assert s[1..] == tail;
  }

  lemma ParseBrace(s: string, tail: string)
    requires s == "{" + tail
    ensures tail != "" && tail[0] == '}' ==> ParseValue(s) == Got(JObject([]), tail[1..])
    ensures tail != "" && tail[0] == '"' && ParseMembers(tail).Got? ==>
              ParseValue(s) == Got(JObject(ParseMembers(tail).value), ParseMembers(tail).rest)
  {
    hide ParseMembers, NumberLen, ParseString, ParseElems;
    NoSkip(s);
    assert s[1..] == tail;
  }

  /** A printed value followed by anything that cannot extend it parses back to itself. */
  lemma {:induction false} ParsePrinted(j: Json, rest: string)
    requires WellFormed(j) && Delimits(rest)
    ensures ParseValue(Print(j) + rest) == Got(j, rest)
    decreases j, 1
  {
    match j
    case JArray(elems) =>
      if elems != [] {
        ParsePrintedElems(elems, rest);
      }
      ParsePrintedArray(elems, rest);
    case JObject(members) =>
      if members != [] {
        ParsePrintedMembers(members, rest);
      }
      ParsePrintedObject(members, rest);
    case JString(v) => ParseQuoted(v, rest);
    case JNumber(token) => ParsePrintedNumber(token, rest);
    case JNull => ParsePrintedLiteral(j, rest);
    case JBool(_) => ParsePrintedLiteral(j, rest);
  }

  lemma ParsePrintedArray(elems: seq<Json>, rest: string)
    requires WellFormed(JArray(elems))
    requires elems != [] ==> ParseElems(PrintElems(elems) + "]" + rest) == Got(elems, rest)
    ensures ParseValue(Print(JArray(elems)) + rest) == Got(JArray(elems), rest)
  {
    hide ParseElems, PrintElems, ParseValue;
    var s := Print(JArray(elems)) + rest;
    if elems == [] {
      assert ("]" + rest)[1..] == rest;
      ParseBracket(s, "]" + rest);
    } else {
      PrintElemsStart(elems);
      var tail := PrintElems(elems) + "]" + rest;
      assert s == "[" + tail;
      ParseBracket(s, tail);
    }
  }

  lemma ParsePrintedObject(members: seq<Member>, rest: string)
    requires members != [] ==> ParseMembers(PrintMembers(members) + "}" + rest) == Got(members, rest)
    ensures ParseValue(Print(JObject(members)) + rest) == Got(JObject(members), rest)
  {
    hide ParseMembers, PrintMembers, ParseValue;
    var s := Print(JObject(members)) + rest;
    if members == [] {
      assert ("}" + rest)[1..] == rest;
      ParseBrace(s, "}" + rest);
    } else {
      PrintMembersStart(members);
      var tail := PrintMembers(members) + "}" + rest;
      assert s == "{" + tail;
      ParseBrace(s, tail);
    }
  }

  lemma PrintMembersStart(members: seq<Member>)
    requires members != []
    ensures PrintMembers(members) != "" && PrintMembers(members)[0] == '"'
  {
  }

  lemma PrintElemsStart(elems: seq<Json>)
    requires elems != [] && WellFormed(elems[0])
    ensures PrintElems(elems) != ""
    ensures var c := PrintElems(elems)[0]; !IsWs(c) && c != ']'
  {
    PrintStart(elems[0]);
  }

  lemma {:induction false} ParsePrintedElems(elems: seq<Json>, rest: string)
    requires elems != [] && forall i | 0 <= i < |elems| :: WellFormed(elems[i])
    ensures ParseElems(PrintElems(elems) + "]" + rest) == Got(elems, rest)
    decreases elems, 0
  {
    hide ParseValue, Print, SkipWs, WellFormed;
    var s := PrintElems(elems) + "]" + rest;
    if |elems| == 1 {
      var after := "]" + rest;
      assert s == Print(elems[0]) + after;
      ParsePrinted(elems[0], after);
      NoSkip(after);
      assert after[1..] == rest;
      assert [elems[0]] == elems;
    } else {
      var after := "," + (PrintElems(elems[1..]) + "]" + rest);
      assert s == Print(elems[0]) + after;
      ParsePrinted(elems[0], after);
      NoSkip(after);
      assert after[1..] == PrintElems(elems[1..]) + "]" + rest;
      ParsePrintedElems(elems[1..], rest);
      assert [elems[0]] + elems[1..] == elems;
    }
  }

  lemma {:induction false} ParsePrintedMember(m: Member, rest: string)
    requires WellFormed(m.value) && Delimits(rest)
    ensures ParseMember(PrintMember(m) + rest) == Got(m, rest)
    decreases m, 2
  {
    hide Print, ParseValue, Escape, ParseString, ParseEscape, SkipWs, WellFormed;
    var s := PrintMember(m) + rest;
    var after := ":" + (Print(m.value) + rest);
    NoSkip(s);
    assert s[1..] == Escape(m.key) + "\"" + after;
    ParseEscaped(m.key, after);
    NoSkip(after);
    assert after[1..] == Print(m.value) + rest;
    ParsePrinted(m.value, rest);
  }

  lemma {:induction false} ParsePrintedMembers(members: seq<Member>, rest: string)
    requires members != [] && forall i | 0 <= i < |members| :: WellFormed(members[i].value)
    ensures ParseMembers(PrintMembers(members) + "}" + rest) == Got(members, rest)
    decreases members, 0
  {
    hide ParseMember, ParseValue, PrintMember, Print, SkipWs, WellFormed;
    var s := PrintMembers(members) + "}" + rest;
    if |members| == 1 {
      var after := "}" + rest;
      assert s == PrintMember(members[0]) + after;
      ParsePrintedMember(members[0], after);
      NoSkip(after);
      assert after[1..] == rest;
      assert [members[0]] == members;
    } else {
      var after := "," + (PrintMembers(members[1..]) + "}" + rest);
      assert s == PrintMember(members[0]) + after;
      ParsePrintedMember(members[0], after);
      NoSkip(after);
      assert after[1..] == PrintMembers(members[1..]) + "}" + rest;
      ParsePrintedMembers(members[1..], rest);
      assert [members[0]] + members[1..] == members;
    }
  }

  /** Printing and parsing undo each other. */
  lemma ParseOfPrint(j: Json)
    requires WellFormed(j)
    ensures Parse(Print(j)) == IsJson(j)
  {
    ParsePrinted(j, "");
    assert Print(j) + "" == Print(j);
  }

  // ---------------------------------------------------------------- parsed values are well formed

  lemma {:induction false} DigitsLenTruncate(s: string, k: nat)
    requires DigitsLen(s) <= k <= |s|
    ensures DigitsLen(s[..k]) == DigitsLen(s)
  {
    if s != "" && IsDigit(s[0]) {
      assert s[..k][1..] == s[1..][..k - 1];
      DigitsLenTruncate(s[1..], k - 1);
    }
  }

  lemma IntLenTruncate(s: string, k: nat)
    requires 0 < IntLen(s) <= k <= |s|
    ensures IntLen(s[..k]) == IntLen(s)
  {
    assert s[..k][0] == s[0];
    if s[0] != '0' {
      DigitsLenTruncate(s, k);
    }
  }

  lemma FracLenTruncate(s: string, k: nat)
    requires FracLen(s).Len? && FracLen(s).n <= k <= |s|
    ensures FracLen(s[..k]) == FracLen(s)
  {
    if s != "" && s[0] == '.' {
      assert s[..k][1..] == s[1..][..k - 1];
      DigitsLenTruncate(s[1..], k - 1);
    }
  }

  lemma ExpLenTruncate(s: string)
    requires ExpLen(s).Len?
    ensures ExpLen(s[..ExpLen(s).n]) == ExpLen(s)
  {
    var k := ExpLen(s).n;
    if s != "" && (s[0] == 'e' || s[0] == 'E') {
      var sign := if |s| > 1 && (s[1] == '+' || s[1] == '-') then 1 else 0;
      assert s[..k][1 + sign..] == s[1 + sign..][..k - 1 - sign];
      DigitsLenTruncate(s[1 + sign..], k - 1 - sign);
      assert IsDigit(s[1 + sign]);
    }
  }

  lemma TailLenTruncate(s: string)
    requires TailLen(s).Len?
    ensures TailLen(s[..TailLen(s).n]) == TailLen(s)
  {
    var k := TailLen(s).n;
    FracLenTruncate(s, k);
    var f := FracLen(s).n;
    assert s[..k][f..] == s[f..][..k - f];
    ExpLenTruncate(s[f..]);
  }

  lemma UnsignedLenTruncate(s: string)
    requires UnsignedLen(s).Len?
    ensures UnsignedLen(s[..UnsignedLen(s).n]) == UnsignedLen(s)
  {
    hide TailLen, FracLen, ExpLen, DigitsLen;
    var k := UnsignedLen(s).n;
    var i := IntLen(s);
    IntLenTruncate(s, k);
    assert s[..k][i..] == s[i..][..k - i];
    TailLenTruncate(s[i..]);
  }

  lemma ScannedNumberIsNumber(s: string)
    requires NumberLen(s).Len?
    ensures IsNumber(s[..NumberLen(s).n])
  {
    hide IntLen, TailLen;
    var k, m := NumberLen(s).n, MinusLen(s);
    assert s[..k][0] == s[0];
    assert s[..k][m..] == s[m..][..k - m];
    UnsignedLenTruncate(s[m..]);
  }

  lemma {:induction false} ParsedIsWellFormed(s: string)
    ensures ParseValue(s).Got? ==> WellFormed(ParseValue(s).value)
    decreases |s|, 1
  {
    hide ParseElems, ParseMembers, ParseString, HasPrefix, IsNumber, SkipWs, NumberLen;
    var t := SkipWs(s);
    if t != "" {
      if t[0] == '[' {
        ParsedElemsAreWellFormed(t[1..]);
      } else if t[0] == '{' {
        ParsedMembersAreWellFormed(t[1..]);
      } else if NumberLen(t).Len? {
        ScannedNumberIsNumber(t);
      }
    }
  }

  lemma {:induction false} ParsedElemsAreWellFormed(s: string)
    ensures ParseElems(s).Got? ==> forall i | 0 <= i < |ParseElems(s).value| :: WellFormed(ParseElems(s).value[i])
    decreases |s|, 2
  {
    ParsedIsWellFormed(s);
    if ParseValue(s).Got? {
      var t := SkipWs(ParseValue(s).rest);
      if t != "" && t[0] == ',' {
        ParsedElemsAreWellFormed(t[1..]);
      }
    }
  }

  lemma {:induction false} ParsedMembersAreWellFormed(s: string)
    ensures ParseMembers(s).Got? ==> forall i | 0 <= i < |ParseMembers(s).value| :: WellFormed(ParseMembers(s).value[i].value)
    decreases |s|, 3
  {
    ParsedMemberIsWellFormed(s);
    if ParseMember(s).Got? {
      var t := SkipWs(ParseMember(s).rest);
      if t != "" && t[0] == ',' {
        ParsedMembersAreWellFormed(t[1..]);
      }
    }
  }

  lemma {:induction false} ParsedMemberIsWellFormed(s: string)
    ensures ParseMember(s).Got? ==> WellFormed(ParseMember(s).value.value)
    decreases |s|, 2
  {
    var t := SkipWs(s);
    if t != "" && t[0] == '"' && ParseString(t[1..]).Got? {
      var u := SkipWs(ParseString(t[1..]).rest);
      if u != "" && u[0] == ':' {
        ParsedIsWellFormed(u[1..]);
      }
    }
  }

  // ---------------------------------------------------------------- printed text is one line

  /** No control character, so in particular no line break. */
  predicate OneLine(s: string) {
    forall i | 0 <= i < |s| :: s[i] as int >= 32
  }

  lemma {:induction false} EscapeIsOneLine(s: string)
    ensures OneLine(Escape(s))
  {
    if s != "" {
      EscapeIsOneLine(s[1..]);
      assert OneLine(EscapeChar(s[0]));
    }
  }

  lemma {:induction false} DigitsAreDigits(s: string)
    ensures forall i | 0 <= i < DigitsLen(s) :: IsDigit(s[i])
  {
    if s != "" && IsDigit(s[0]) {
      DigitsAreDigits(s[1..]);
      forall i | 0 <= i < DigitsLen(s) ensures IsDigit(s[i]) {
        assert i > 0 ==> s[i] == s[1..][i - 1];
      }
    }
  }

  lemma TailIsOneLine(s: string)
    requires TailLen(s) == Len(|s|)
    ensures OneLine(s)
  {
    var f := FracLen(s).n;
    if f > 0 {
      DigitsAreDigits(s[1..]);
      assert forall i | 1 <= i < f :: s[i] == s[1..][i - 1];
    }
    var e := s[f..];
    if e != "" {
      var sign := if |e| > 1 && (e[1] == '+' || e[1] == '-') then 1 else 0;
      DigitsAreDigits(e[1 + sign..]);
      assert forall i | 1 + sign <= i < |e| :: e[i] == e[1 + sign..][i - 1 - sign];
      assert OneLine(e);
    }
    forall i | 0 <= i < |s| ensures s[i] as int >= 32 {
      if i >= f {
        assert s[i] == e[i - f];
      }
    }
  }

  lemma IntIsOneLine(s: string)
    ensures OneLine(s[..IntLen(s)])
  {
    DigitsAreDigits(s);
    forall i | 0 <= i < IntLen(s) ensures s[i] as int >= 32 {
      assert IsDigit(s[i]);
    }
  }

  lemma OneLineAppend(a: string, b: string)
    requires OneLine(a) && OneLine(b)
    ensures OneLine(a + b)
  {
  }

  lemma NumberIsOneLine(token: string)
    requires IsNumber(token)
    ensures OneLine(token)
  {
    hide IntLen, TailLen, OneLine;
    var m := MinusLen(token);
    var u := token[m..];
    var i := IntLen(u);
    IntIsOneLine(u);
    TailIsOneLine(u[i..]);
    OneLineAppend(u[..i], u[i..]);
    assert u == u[..i] + u[i..];
    MinusIsOneLine(token);
    OneLineAppend(token[..m], u);
    assert token == token[..m] + u;
  }

  lemma MinusIsOneLine(token: string)
    ensures OneLine(token[..MinusLen(token)])
  {
  }

  // ---------------------------------------------------------------- printed text is compact

  /** No string in the value holds a space. */
  ghost predicate Spaceless(j: Json) {
    match j
    case JString(s) => ' ' !in s
    case JArray(elems) => forall i | 0 <= i < |elems| :: Spaceless(elems[i])
    case JObject(members) => forall i | 0 <= i < |members| :: ' ' !in members[i].key && Spaceless(members[i].value)
    case JNumber(token) => IsNumber(token) && ' ' !in token
    case _ => true
  }

  lemma {:induction false} EscapeIsCompact(s: string)
    requires ' ' !in s
    ensures ' ' !in Escape(s)
  {
    if s != "" {
      EscapeIsCompact(s[1..]);
      assert s[0] in s;
      assert ' ' !in EscapeChar(s[0]);
    }
  }

  /** Printing adds no white space: a space in the text comes from a string. */
  lemma {:induction false} PrintIsCompact(j: Json)
    requires Spaceless(j)
    ensures ' ' !in Print(j)
    decreases j, 1
  {
    match j
    case JString(s) => EscapeIsCompact(s);
    case JArray(elems) => if elems != [] { ElemsAreCompact(elems); }
    case JObject(members) => if members != [] { MembersAreCompact(members); }
    case JNull =>
    case JBool(_) =>
    case JNumber(_) =>
  }

  lemma {:induction false} ElemsAreCompact(elems: seq<Json>)
    requires elems != [] && forall i | 0 <= i < |elems| :: Spaceless(elems[i])
    ensures ' ' !in PrintElems(elems)
    decreases elems, 0
  {
    PrintIsCompact(elems[0]);
    if |elems| > 1 {
      ElemsAreCompact(elems[1..]);
    }
  }

  lemma {:induction false} MembersAreCompact(members: seq<Member>)
    requires members != [] && forall i | 0 <= i < |members| :: ' ' !in members[i].key && Spaceless(members[i].value)
    ensures ' ' !in PrintMembers(members)
    decreases members, 0
  {
    EscapeIsCompact(members[0].key);
    PrintIsCompact(members[0].value);
    if |members| > 1 {
      MembersAreCompact(members[1..]);
    }
  }

  // ---------------------------------------------------------------- printed text is one line

  lemma {:induction false} PrintIsOneLine(j: Json)
    requires WellFormed(j)
    ensures OneLine(Print(j))
    decreases j, 1
  {
    match j
    case JString(s) => EscapeIsOneLine(s);
    case JNumber(token) => NumberIsOneLine(token);
    case JArray(elems) => if elems != [] { PrintElemsIsOneLine(elems); }
    case JObject(members) => if members != [] { PrintMembersIsOneLine(members); }
    case JNull =>
    case JBool(_) =>
  }

  lemma {:induction false} PrintElemsIsOneLine(elems: seq<Json>)
    requires elems != [] && forall i | 0 <= i < |elems| :: WellFormed(elems[i])
    ensures OneLine(PrintElems(elems))
    decreases elems, 0
  {
    PrintIsOneLine(elems[0]);
    if |elems| > 1 {
      PrintElemsIsOneLine(elems[1..]);
    }
  }

  lemma {:induction false} PrintMembersIsOneLine(members: seq<Member>)
    requires members != [] && forall i | 0 <= i < |members| :: WellFormed(members[i].value)
    ensures OneLine(PrintMembers(members))
    decreases members, 0
  {
    PrintIsOneLine(members[0].value);
    EscapeIsOneLine(members[0].key);
    assert OneLine(PrintMember(members[0]));
    if |members| > 1 {
      PrintMembersIsOneLine(members[1..]);
    }
  }
}
