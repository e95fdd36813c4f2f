/** The parser on texts it has not printed: what follows a value does not change how it is read, and a
    string literal holds a text unescaped exactly when the text is plain. */
module JsonScanning {
  import opened Json

  // ---------------------------------------------------------------- longer texts

  lemma {:induction false} SkipWsExtend(s: string, t: string)
    requires SkipWs(s) != ""
    ensures SkipWs(s + t) == SkipWs(s) + t
  {
    if IsWs(s[0]) {
      Suffix(s, t, 1);
      SkipWsExtend(s[1..], t);
    }
  }

  lemma {:induction false} SkipWsAll(s: string, t: string)
    requires SkipWs(s) == ""
    ensures SkipWs(s + t) == SkipWs(t)
  {
    if s == "" {
      assert s + t == t;
    } else {
      Suffix(s, t, 1);
      SkipWsAll(s[1..], t);
    }
  }

  lemma DecodeEscapeExtend(s: string, t: string)
    requires s != "" && s[0] == '\\' && DecodeEscape(s).Escaped?
    ensures DecodeEscape(s + t) == DecodeEscape(s)
  {
    hide HexValue, Utf8;
    assert |s| >= 2 && (s + t)[1] == s[1];
    if s[1] == 'u' {
      Suffix(s, t, 2);
      Hex4Extend(s[2..], t);
      if |s| >= 12 {
        Suffix(s, t, 8);
        Hex4Extend(s[8..], t);
      }
    }
  }

  lemma Hex4Extend(s: string, t: string)
    requires |s| >= 4
    ensures Hex4(s + t) == Hex4(s)
  {
  }

  lemma {:induction false} ParseStringExtend(s: string, t: string)
    requires ParseString(s).Got?
    ensures ParseString(s + t) == Got(ParseString(s).value, ParseString(s).rest + t)
    decreases |s|
  {
    hide DecodeEscape;
    if s[0] == '\\' {
      DecodeEscapeExtend(s, t);
      var len := DecodeEscape(s).len;
      Suffix(s, t, len);
      ParseStringExtend(s[len..], t);
    } else {
      Suffix(s, t, 1);
      if s[0] != '"' {
        ParseStringExtend(s[1..], t);
      }
    }
  }

  /** More text after a value leaves the value as it was, unless the value is a number at the end that
      the text continues. */
  lemma {:induction false} ParseValueExtend(s: string, t: string)
    requires ParseValue(s).Got? && (ParseValue(s).rest != "" || Delimits(t))
    ensures ParseValue(s + t) == Got(ParseValue(s).value, ParseValue(s).rest + t)
    decreases |s|, 1
  {
    hide ParseElems, ParseMembers, ParseString, NumberLen, HasPrefix;
    var v := SkipWs(s);
    SkipWsExtend(s, t);
    Suffix(v, t, 1);
    if v[0] == '"' {
      ParseStringExtend(v[1..], t);
    } else if v[0] == '[' {
      ElemsStart(v[1..]);
      SkipWsExtend(v[1..], t);
      var u := SkipWs(v[1..]);
      Suffix(u, t, 1);
      if u[0] != ']' {
        ParseElemsExtend(v[1..], t);
      }
    } else if v[0] == '{' {
      MembersStart(v[1..]);
      SkipWsExtend(v[1..], t);
      var u := SkipWs(v[1..]);
      Suffix(u, t, 1);
      if u[0] != '}' {
        ParseMembersExtend(v[1..], t);
      }
    } else {
      SkipWsStops(s);
      ParseScalarExtend(v, t);
    }
  }

  lemma {:induction false} SkipWsStops(s: string)
    ensures SkipWs(SkipWs(s)) == SkipWs(s)
  {
    if s != "" && IsWs(s[0]) {
      SkipWsStops(s[1..]);
    }
  }

  /** Words and numbers. */
  lemma ParseScalarExtend(v: string, t: string)
    requires v != "" && SkipWs(v) == v && v[0] !in "\"[{"
    requires ParseValue(v).Got? && (ParseValue(v).rest != "" || Delimits(t))
    ensures ParseValue(v + t) == Got(ParseValue(v).value, ParseValue(v).rest + t)
  {
    hide ParseElems, ParseMembers, ParseString, NumberLen, HasPrefix, SkipWs;
    SkipWsExtend(v, t);
    if HasPrefix(v, "null") {
      WordExtend(v, t, "null");
    } else if HasPrefix(v, "true") {
      WordExtend(v, t, "true");
      NotAWord(v, "null");
      NotAWord(v + t, "null");
    } else if HasPrefix(v, "false") {
      WordExtend(v, t, "false");
      NotAWord(v + t, "null");
      NotAWord(v + t, "true");
    } else {
      var n := NumberLen(v).n;
      ScannedStart(v);
      NumberLenExtend(v, t);
      Suffix(v, t, n);
      assert (v + t)[..n] == v[..n];
      ParseNumberText(v + t, n);
    }
  }

  lemma WordExtend(v: string, t: string, word: string)
    requires HasPrefix(v, word)
    ensures HasPrefix(v + t, word) && (v + t)[|word|..] == v[|word|..] + t
    ensures word != "" ==> v != "" && v[0] == word[0]
  {
    assert (v + t)[..|word|] == v[..|word|];
    if word != "" {
      assert v[..|word|][0] == v[0];
    }
  }

  lemma ScannedStart(v: string)
    requires v != "" && NumberLen(v).Len?
    ensures v[0] == '-' || IsDigit(v[0])
  {
  }

  lemma ElemsStart(s: string)
    requires ParseElems(s).Got? || SkipWs(s) != ""
    ensures SkipWs(s) != ""
  {
  }

  lemma MembersStart(s: string)
    requires ParseMembers(s).Got? || SkipWs(s) != ""
    ensures SkipWs(s) != ""
  {
  }

  lemma {:induction false} ParseElemsExtend(s: string, t: string)
    requires ParseElems(s).Got?
    ensures ParseElems(s + t) == Got(ParseElems(s).value, ParseElems(s).rest + t)
    decreases |s|, 2
  {
    hide ParseValue;
    ParseValueExtend(s, t);
    var rest := ParseValue(s).rest;
    SkipWsExtend(rest, t);
    var u := SkipWs(rest);
    Suffix(u, t, 1);
    if u[0] == ',' {
      ParseElemsExtend(u[1..], t);
    }
  }

  lemma {:induction false} ParseMemberExtend(s: string, t: string)
    requires ParseMember(s).Got? && (ParseMember(s).rest != "" || Delimits(t))
    ensures ParseMember(s + t) == Got(ParseMember(s).value, ParseMember(s).rest + t)
    decreases |s|, 2
  {
    hide ParseValue, ParseString;
    SkipWsExtend(s, t);
    var v := SkipWs(s);
    Suffix(v, t, 1);
    ParseStringExtend(v[1..], t);
    var rest := ParseString(v[1..]).rest;
    SkipWsExtend(rest, t);
    var u := SkipWs(rest);
    Suffix(u, t, 1);
    ParseValueExtend(u[1..], t);
  }

  lemma {:induction false} ParseMembersExtend(s: string, t: string)
    requires ParseMembers(s).Got?
    ensures ParseMembers(s + t) == Got(ParseMembers(s).value, ParseMembers(s).rest + t)
    decreases |s|, 3
  {
    hide ParseMember;
    ParseMemberExtend(s, t);
    var rest := ParseMember(s).rest;
    SkipWsExtend(rest, t);
    var u := SkipWs(rest);
    Suffix(u, t, 1);
    if u[0] == ',' {
      ParseMembersExtend(u[1..], t);
    }
  }

  /** A whole JSON text keeps its value in front of a delimiter, whatever white space it ends with. */
  lemma TextInFrontOf(text: string, tail: string)
    requires Parse(text).IsJson? && tail != "" && !IsWs(tail[0]) && Delimits(tail)
    ensures var r := ParseValue(text + tail);
            r.Got? && r.value == Parse(text).value && SkipWs(r.rest) == tail
  {
    hide ParseValue, SkipWs;
    ParseValueExtend(text, tail);
    SkipWsAll(ParseValue(text).rest, tail);
    NoSkip(tail);
  }

  // ---------------------------------------------------------------- unescaped literals

  /** The place of the first quote; the length when there is none. */
  function QuoteAt(s: string): (q: nat)
    ensures q <= |s|
  {
    if s == "" || s[0] == '"' then 0 else 1 + QuoteAt(s[1..])
  }

  lemma {:induction false} QuoteAtAppend(a: string, b: string)
    ensures QuoteAt(a) < |a| ==> QuoteAt(a + b) == QuoteAt(a)
    ensures QuoteAt(a) == |a| ==> QuoteAt(a + b) == |a| + QuoteAt(b)
  {
    if a == "" {
      assert a + b == b;
    } else if a[0] != '"' {
      Suffix(a, b, 1);
      QuoteAtAppend(a[1..], b);
    }
  }

  lemma {:induction false} NoQuote(s: string)
    requires '"' !in s
    ensures QuoteAt(s) == |s|
  {
    if s != "" {
      assert '"' !in s[1..];
      NoQuote(s[1..]);
    }
  }

  /** Only one escape holds a quote, the one that stands for it. */
  lemma EscapeQuote(s: string)
    requires s != "" && s[0] == '\\' && DecodeEscape(s).Escaped?
    ensures var e := DecodeEscape(s); '"' in s[..e.len] ==> e == Escaped("\"", 2) && s[1] == '"'
  {
    hide Utf8;
    var e := DecodeEscape(s);
    if s[1] == 'u' {
      Hex4NoQuote(s[2..]);
      assert s[..6] == s[..2] + s[2..][..4];
      if e.len == 12 {
        Hex4NoQuote(s[8..]);
        assert s[..12] == s[..6] + s[6..8] + s[8..][..4];
        assert s[6..8] == ['\\', 'u'];
      }
    } else {
      assert s[..2] == ['\\', s[1]];
    }
  }

  lemma Hex4NoQuote(s: string)
    requires Hex4(s) >= 0
    ensures '"' !in s[..4]
  {
    assert s[..4] == [s[0], s[1], s[2], s[3]];
  }

  /** The length of the literal that `ParseString` reads, without its closing quote. */
  function ContentLength(s: string): (n: nat)
    requires ParseString(s).Got?
    ensures n < |s|
  {
    |s| - |ParseString(s).rest| - 1
  }

  /** A quote stays earlier in the value `w` than in its literal, of length `n`, when an escape is put in front. */
  lemma QuoteAfterEscape(s: string, w: string, n: nat)
    requires s != "" && s[0] == '\\' && DecodeEscape(s).Escaped?
    requires var rest := s[DecodeEscape(s).len..]; QuoteAt(rest) < n ==> QuoteAt(w) < QuoteAt(rest)
    ensures var e := DecodeEscape(s); QuoteAt(s) < e.len + n ==> QuoteAt(e.text + w) < QuoteAt(s)
  {
    hide DecodeEscape;
    var e := DecodeEscape(s);
    EscapeQuote(s);
    QuoteAtAppend(e.text, w);
    assert s == s[..e.len] + s[e.len..];
    QuoteAtAppend(s[..e.len], s[e.len..]);
    if '"' !in s[..e.len] {
      NoQuote(s[..e.len]);
    } else {
      assert QuoteAt(s) == 1 by {
        assert QuoteAt(s[1..]) == 0;
      }
    }
  }

  /** What a literal stands for is shorter than the literal unless it is the literal itself; a quote
      inside the literal is escaped and stands earlier in what it stands for. */
  lemma {:induction false} LiteralValue(s: string)
    requires ParseString(s).Got?
    ensures var (v, n) := (ParseString(s).value, ContentLength(s));
            |v| <= n
            && (|v| == n ==> v == s[..n] && IsPlain(v))
            && (QuoteAt(s) < n ==> QuoteAt(v) < QuoteAt(s))
    decreases |s|
  {
    hide DecodeEscape, Utf8;
    var v, n := ParseString(s).value, ContentLength(s);
    if s[0] == '\\' {
      hide QuoteAt;
      var rest := s[DecodeEscape(s).len..];
      LiteralValue(rest);
      QuoteAfterEscape(s, ParseString(rest).value, ContentLength(rest));
    } else if s[0] != '"' {
      var rest := s[1..];
      LiteralValue(rest);
      var w := ParseString(rest).value;
      assert v == [s[0]] + w && v[1..] == w;
      assert n == 1 + ContentLength(rest);
      if |v| == n {
        assert s[..n] == [s[0]] + rest[..n - 1];
      }
    }
  }

  lemma {:induction false} PlainReadsBack(text: string, rest: string)
    requires IsPlain(text)
    ensures ParseString(text + "\"" + rest) == Got(text, rest)
  {
    var s := text + "\"" + rest;
    if text == "" {
      assert s[1..] == rest;
    } else {
      assert s[1..] == text[1..] + "\"" + rest;
      PlainReadsBack(text[1..], rest);
      assert [text[0]] + text[1..] == text;
    }
  }

  /** Between quotes a text reads back as itself if and only if it is plain. */
  lemma ReadsBackIffPlain(text: string, rest: string)
    ensures ParseString(text + "\"" + rest).Got? && ParseString(text + "\"" + rest).value == text <==> IsPlain(text)
    ensures IsPlain(text) ==> ParseString(text + "\"" + rest).rest == rest
  {
    hide ParseString;
    var s := text + "\"" + rest;
    if IsPlain(text) {
      PlainReadsBack(text, rest);
    } else if ParseString(s).Got? && ParseString(s).value == text {
      LiteralValue(s);
      var tail := "\"" + rest;
      assert s == text + tail;
      QuoteAtAppend(text, tail);
      assert false;
    }
  }
}
