/** The JSON, hex and plain-text writers for OTLP attributes, appending to a reused buffer. */
module AttributeWriter {
  import opened Wrappers
  import opened Json
  import opened TextBuffers
  import opened Attributes

  const LINEAR_SCAN_THRESHOLD: nat := 32
  const HEX_CHUNK: nat := 32

  // ---------------------------------------------------------------- strings and hex

  predicate NeedsEscape(c: char) {
    c == '"' || c == '\\' || c as int < 32
  }

  predicate AnyNeedsEscape(s: string) {
    exists i | 0 <= i < |s| :: NeedsEscape(s[i])
  }

  lemma {:induction false} PlainEscape(s: string)
    requires !AnyNeedsEscape(s)
    ensures Escape(s) == s
  {
    if s != "" {
      assert !NeedsEscape(s[0]);
      assert forall i | 0 <= i < |s| - 1 :: s[1..][i] == s[i + 1];
      PlainEscape(s[1..]);
    }
  }

  lemma {:induction false} EscapeSnoc(s: string, c: char)
    ensures Escape(s + [c]) == Escape(s) + EscapeChar(c)
  {
    if s == "" {
      assert s + [c] == [c];
      assert [c][1..] == "";
      assert Escape([c]) == EscapeChar(c) + Escape("");
    } else {
      assert (s + [c])[1..] == s[1..] + [c];
      EscapeSnoc(s[1..], c);
    }
  }

  method PushEscaped(buf: TextBuffer, c: char)
    modifies buf
    ensures buf.text == old(buf.text) + EscapeChar(c)
  {
    if c == '"' {
      buf.PushStr("\\\"");
    } else if c == '\\' {
      buf.PushStr("\\\\");
    } else if c == '\n' {
      buf.PushStr("\\n");
    } else if c == '\r' {
      buf.PushStr("\\r");
    } else if c == '\t' {
      buf.PushStr("\\t");
    } else if c as int == 8 {
      buf.PushStr("\\b");
    } else if c as int == 12 {
      buf.PushStr("\\f");
    } else if c as int < 32 {
      buf.PushStr("\\u00" + [HexDigit(c as int / 16), HexDigit(c as int % 16)]);
    } else {
      buf.Push(c);
    }
  }

  method EscapeJsonStr(s: string, buf: TextBuffer)
    modifies buf
    ensures buf.text == old(buf.text) + Escape(s)
  {
    hide EscapeChar;
    if !AnyNeedsEscape(s) {
      PlainEscape(s);
      buf.PushStr(s);
      return;
    }
    for i := 0 to |s|
      invariant buf.text == old(buf.text) + Escape(s[..i])
    {
      assert s[..i + 1] == s[..i] + [s[i]];
      EscapeSnoc(s[..i], s[i]);
      PushEscaped(buf, s[i]);
    }
    assert s[..|s|] == s;
  }

  lemma {:induction false} HexAppend(a: seq<byte>, b: seq<byte>)
    ensures Hex(a + b) == Hex(a) + Hex(b)
  {
    if a == [] {
      assert a + b == b;
    } else {
      assert (a + b)[1..] == a[1..] + b;
      HexAppend(a[1..], b);
    }
  }

  method WriteHexToString(buf: TextBuffer, bytes: seq<byte>)
    modifies buf
    ensures buf.text == old(buf.text) + Hex(bytes)
  {
    var at := 0;
    while at < |bytes|
      invariant at <= |bytes|
      invariant buf.text == old(buf.text) + Hex(bytes[..at])
    {
      var end := if at + HEX_CHUNK < |bytes| then at + HEX_CHUNK else |bytes|;
      assert bytes[..end] == bytes[..at] + bytes[at..end];
      HexAppend(bytes[..at], bytes[at..end]);
      buf.PushStr(Hex(bytes[at..end]));
      at := end;
    }
    assert bytes[..|bytes|] == bytes;
  }

  // ---------------------------------------------------------------- which attributes are kept

  /** The hash-set pass from the back: keeps exactly what the lookahead scan keeps. */
  method KeepMask(attrs: seq<KeyValue>) returns (keep: array<bool>)
    ensures fresh(keep) && keep.Length == |attrs|
    ensures forall i | 0 <= i < |attrs| :: keep[i] == Wins(attrs, i)
  {
    var seen: set<string> := {};
    keep := new bool[|attrs|](_ => false);
    var idx: nat := |attrs|;
    while idx > 0
      invariant idx <= |attrs| == keep.Length
      invariant forall key :: key in seen <==> SetLater(key, attrs[idx..])
      invariant forall i | 0 <= i < idx :: !keep[i]
      invariant forall i | idx <= i < |attrs| :: keep[i] == Wins(attrs, i)
    {
      idx := idx - 1;
      SeenGrows(attrs, idx, seen);
      if attrs[idx].HasValue() && attrs[idx].key !in seen {
        keep[idx] := true;
      }
      if attrs[idx].HasValue() {
        seen := seen + {attrs[idx].key};
      }
    }
  }

  lemma SeenGrows(attrs: seq<KeyValue>, idx: nat, seen: set<string>)
    requires idx < |attrs|
    requires forall key :: key in seen <==> SetLater(key, attrs[idx + 1..])
    ensures forall key :: SetLater(key, attrs[idx..]) <==> key in seen || (attrs[idx].key == key && attrs[idx].HasValue())
  {
    assert attrs[idx..][1..] == attrs[idx + 1..] && attrs[idx..][0] == attrs[idx];
    forall key ensures SetLater(key, attrs[idx..]) <==> key in seen || (attrs[idx].key == key && attrs[idx].HasValue()) {
      SetLaterCons(key, attrs[idx..]);
    }
  }

  /** Linear lookahead: is the key set again behind position `idx`? */
  method IsSetLater(attrs: seq<KeyValue>, idx: nat) returns (r: bool)
    requires idx < |attrs|
    ensures r == SetLater(attrs[idx].key, attrs[idx + 1..])
  {
    var later := attrs[idx + 1..];
    for i := 0 to |later|
      invariant forall j | 0 <= j < i :: !(later[j].key == attrs[idx].key && later[j].HasValue())
    {
      if later[i].key == attrs[idx].key && later[i].HasValue() {
        return true;
      }
    }
    return false;
  }

  // ---------------------------------------------------------------- members in list order

  /** The members of the first `n` attributes, judged against the whole list. */
  ghost function MembersUpto(attrs: seq<KeyValue>, n: nat): seq<Member>
    requires n <= |attrs|
  {
    if n == 0 then []
    else if Wins(attrs, n - 1) then MembersUpto(attrs, n - 1) + [Member(attrs[n - 1].key, JsonOf(attrs[n - 1].value.value))]
    else MembersUpto(attrs, n - 1)
  }

  lemma {:induction false} MembersUptoCons(attrs: seq<KeyValue>, n: nat)
    requires 0 < n <= |attrs|
    ensures MembersUpto(attrs, n) == (if Wins(attrs, 0) then [Member(attrs[0].key, JsonOf(attrs[0].value.value))] else [])
                                     + MembersUpto(attrs[1..], n - 1)
  {
    if n == 1 {
      assert MembersUpto(attrs, 0) == [];
    } else {
      MembersUptoCons(attrs, n - 1);
      assert attrs[1..][n - 2] == attrs[n - 1] && attrs[1..][n - 1..] == attrs[n..];
    }
  }

  lemma {:induction false} MembersUptoAll(attrs: seq<KeyValue>)
    ensures MembersUpto(attrs, |attrs|) == Members(attrs)
  {
    if attrs != [] {
      MembersUptoCons(attrs, |attrs|);
      MembersUptoAll(attrs[1..]);
    }
  }

  /** Members separated by commas; nothing for none. */
  ghost function Body(ms: seq<Member>): string {
    if ms == [] then "" else PrintMembers(ms)
  }

  lemma Regroup(a: string, b: string, c: string)
    ensures a + "," + (b + "," + c) == a + "," + b + "," + c
  {
  }

  lemma {:induction false} PrintMembersSnoc(ms: seq<Member>, m: Member)
    ensures Body(ms + [m]) == Body(ms) + (if ms == [] then "" else ",") + PrintMember(m)
  {
    hide PrintMember;
    var all := ms + [m];
    if ms == [] {
      assert all == [m];
    } else if |ms| == 1 {
      assert all[1..] == [m];
      assert PrintMembers(all) == PrintMember(ms[0]) + "," + PrintMembers([m]);
    } else {
      var rest := ms[1..];
      PrintMembersSnoc(rest, m);
      assert all[1..] == rest + [m];
      assert PrintMembers(all) == PrintMember(ms[0]) + "," + PrintMembers(rest + [m]);
      Regroup(PrintMember(ms[0]), PrintMembers(rest), PrintMember(m));
    }
  }

  /** Values separated by commas; nothing for none. */
  ghost function ElemsBody(elems: seq<Json>): string {
    if elems == [] then "" else PrintElems(elems)
  }

  lemma {:induction false} PrintElemsSnoc(elems: seq<Json>, e: Json)
    ensures ElemsBody(elems + [e]) == ElemsBody(elems) + (if elems == [] then "" else ",") + Print(e)
  {
    hide Print;
    var all := elems + [e];
    if elems == [] {
      assert all == [e];
    } else if |elems| == 1 {
      assert all[1..] == [e];
      assert PrintElems(all) == Print(elems[0]) + "," + PrintElems([e]);
    } else {
      var rest := elems[1..];
      PrintElemsSnoc(rest, e);
      assert all[1..] == rest + [e];
      assert PrintElems(all) == Print(elems[0]) + "," + PrintElems(rest + [e]);
      Regroup(Print(elems[0]), PrintElems(rest), Print(e));
    }
  }

  lemma Join3(a: string, b: string, c: string)
    ensures a + b + c == a + (b + c)
  {
  }

  lemma Join4(a: string, b: string, c: string, d: string)
    ensures a + b + c + d == a + (b + c + d)
  {
  }

  ghost function MemberText(kv: KeyValue): string
    requires kv.HasValue()
  {
    PrintMember(Member(kv.key, JsonOf(kv.value.value)))
  }

  ghost function BodyUpto(attrs: seq<KeyValue>, n: nat): string
    requires n <= |attrs|
  {
    Body(MembersUpto(attrs, n))
  }

  // ---------------------------------------------------------------- write_kvlist_json, write_any_value_json

  method WriteQuoted(buf: TextBuffer, s: string)
    modifies buf
    ensures buf.text == old(buf.text) + ("\"" + Escape(s) + "\"")
  {
    ghost var before := buf.text;
    buf.Push('"');
    EscapeJsonStr(s, buf);
    buf.Push('"');
    Join4(before, "\"", Escape(s), "\"");
  }

  method WriteMember(buf: TextBuffer, kv: KeyValue)
    requires kv.HasValue()
    modifies buf
    ensures buf.text == old(buf.text) + MemberText(kv)
    decreases kv, 0
  {
    ghost var before := buf.text;
    buf.Push('"');
    EscapeJsonStr(kv.key, buf);
    buf.PushStr("\":");
    Join4(before, "\"", Escape(kv.key), "\":");
    WriteAnyValueJson(buf, kv.value.value);
    Join3(before, "\"" + Escape(kv.key) + "\":", Print(JsonOf(kv.value.value)));
  }

  ghost predicate IsMask(mask: Option<array<bool>>, attrs: seq<KeyValue>)
    reads if mask.Some? then {mask.value} else {}
  {
    mask.Some? ==> mask.value.Length == |attrs| && forall i | 0 <= i < |attrs| :: mask.value[i] == Wins(attrs, i)
  }

  /** By the mask if there is one, else by looking ahead. */
  method IsOverwritten(attrs: seq<KeyValue>, idx: nat, mask: Option<array<bool>>) returns (r: bool)
    requires idx < |attrs| && attrs[idx].HasValue() && IsMask(mask, attrs)
    ensures r == !Wins(attrs, idx)
  {
    if mask.Some? {
      r := !mask.value[idx];
    } else {
      r := IsSetLater(attrs, idx);
    }
  }

  lemma KeptStep(attrs: seq<KeyValue>, idx: nat, open: string)
    requires idx < |attrs| && Wins(attrs, idx)
    ensures MembersUpto(attrs, idx + 1) != []
    ensures open + BodyUpto(attrs, idx) + (if MembersUpto(attrs, idx) == [] then "" else ",") + MemberText(attrs[idx])
         == open + BodyUpto(attrs, idx + 1)
  {
    var done, m := MembersUpto(attrs, idx), Member(attrs[idx].key, JsonOf(attrs[idx].value.value));
    PrintMembersSnoc(done, m);
    Join4(open, Body(done), if done == [] then "" else ",", PrintMember(m));
  }

  /** The loop body for an attribute that is kept. */
  method WriteKept(buf: TextBuffer, attrs: seq<KeyValue>, idx: nat, first: bool, ghost open: string)
    requires idx < |attrs| && Wins(attrs, idx)
    requires first == (MembersUpto(attrs, idx) == [])
    requires buf.text == open + BodyUpto(attrs, idx)
    modifies buf
    ensures MembersUpto(attrs, idx + 1) != []
    ensures buf.text == open + BodyUpto(attrs, idx + 1)
    decreases attrs, 0
  {
    KeptStep(attrs, idx, open);
    ghost var start := buf.text;
    if !first {
      buf.Push(',');
    }
    assert buf.text == start + if first then "" else ",";
    WriteMember(buf, attrs[idx]);
  }

  method WriteKvlistJson(buf: TextBuffer, attrs: seq<KeyValue>)
    modifies buf
    ensures buf.text == old(buf.text) + Print(AttributesJson(attrs))
    decreases attrs, 1
  {
    if attrs == [] {
      buf.PushStr("{}");
      return;
    }
    var mask: Option<array<bool>> := None;
    if |attrs| > LINEAR_SCAN_THRESHOLD {
      var keep := KeepMask(attrs);
      mask := Some(keep);
    }
    ghost var before, open := buf.text, buf.text + "{";
    buf.Push('{');
    var first := true;
    for idx := 0 to |attrs|
      invariant first == (MembersUpto(attrs, idx) == [])
      invariant buf.text == open + BodyUpto(attrs, idx)
      invariant IsMask(mask, attrs)
    {
      if attrs[idx].HasValue() {
        var overwritten := IsOverwritten(attrs, idx, mask);
        if !overwritten {
          WriteKept(buf, attrs, idx, first, open);
          first := false;
        }
      }
    }
    MembersUptoAll(attrs);
    buf.Push('}');
    Join4(before, "{", Body(Members(attrs)), "}");
  }

  method WriteAnyValueJson(buf: TextBuffer, v: AnyValue)
    modifies buf
    ensures buf.text == old(buf.text) + Print(JsonOf(v))
    decreases v, 1
  {
    match v {
      case StringValue(s) => WriteQuoted(buf, s);
      case IntValue(i) => buf.PushStr(IntText(i));
      case DoubleValue(Finite(token)) =>
        buf.PushStr(token);
        if !HasPointOrExponent(token) {
          Join3(old(buf.text), token, ".0");
          buf.PushStr(".0");
        }
      case DoubleValue(NonFinite(_)) => buf.PushStr("null");
      case BoolValue(b) => buf.PushStr(if b then "true" else "false");
      case BytesValue(bytes) => WriteHexString(buf, bytes);
      case ArrayValue(values) => WriteArray(buf, values);
      case KvlistValue(attrs) => WriteKvlistJson(buf, attrs);
      case Unset => buf.PushStr("null");
    }
  }

  /** Hex digits between quotes need no escaping. */
  method WriteHexString(buf: TextBuffer, bytes: seq<byte>)
    modifies buf
    ensures buf.text == old(buf.text) + Print(JString(Hex(bytes)))
  {
    ghost var before := buf.text;
    buf.Push('"');
    WriteHexToString(buf, bytes);
    buf.Push('"');
    HexIsPlain(bytes);
    PlainEscape(Hex(bytes));
    Join4(before, "\"", Hex(bytes), "\"");
  }

  lemma {:induction false} HexIsPlain(bytes: seq<byte>)
    ensures !AnyNeedsEscape(Hex(bytes))
  {
    if bytes != [] {
      HexIsPlain(bytes[1..]);
      var h, t := HexByte(bytes[0]), Hex(bytes[1..]);
      forall i | 0 <= i < |h + t| ensures !NeedsEscape((h + t)[i]) {
        if i >= 2 {
          assert (h + t)[i] == t[i - 2];
        }
      }
    }
  }

  /** The values of the first `n` elements, comma separated. */
  ghost function ElemsUpto(values: seq<AnyValue>, n: nat): string
    requires n <= |values|
  {
    ElemsBody(JsonOf(ArrayValue(values)).elems[..n])
  }

  lemma ElemStep(values: seq<AnyValue>, idx: nat, open: string)
    requires idx < |values|
    ensures open + ElemsUpto(values, idx) + (if idx > 0 then "," else "") + Print(JsonOf(values[idx])) == open + ElemsUpto(values, idx + 1)
  {
    hide Print, ElemsBody;
    var elems := JsonOf(ArrayValue(values)).elems;
    assert elems[..idx + 1] == elems[..idx] + [JsonOf(values[idx])];
    PrintElemsSnoc(elems[..idx], JsonOf(values[idx]));
    Join4(open, ElemsBody(elems[..idx]), if idx > 0 then "," else "", Print(JsonOf(values[idx])));
  }

  lemma ArrayText(values: seq<AnyValue>)
    ensures Print(JsonOf(ArrayValue(values))) == "[" + ElemsUpto(values, |values|) + "]"
    ensures ElemsUpto(values, 0) == ""
  {
    var elems := JsonOf(ArrayValue(values)).elems;
    assert elems[..|values|] == elems;
  }

  method WriteArray(buf: TextBuffer, values: seq<AnyValue>)
    modifies buf
    ensures buf.text == old(buf.text) + Print(JsonOf(ArrayValue(values)))
    decreases values, 0
  {
    hide Print, JsonOf, ElemsUpto;
    ghost var before, open := buf.text, buf.text + "[";
    ArrayText(values);
    buf.Push('[');
    for idx := 0 to |values|
      invariant buf.text == open + ElemsUpto(values, idx)
    {
      ElemStep(values, idx, open);
      if idx > 0 {
        buf.Push(',');
      }
      WriteAnyValueJson(buf, values[idx]);
    }
    buf.Push(']');
    Join4(before, "[", ElemsUpto(values, |values|), "]");
  }

  /** Clears the buffer first, so what it held before never shows. */
  method WriteAttributesJson(buf: TextBuffer, attrs: seq<KeyValue>)
    modifies buf
    ensures buf.text == Print(AttributesJson(attrs))
  {
    buf.Clear();
    WriteKvlistJson(buf, attrs);
  }

  // ---------------------------------------------------------------- write_any_value_string

  method WriteAnyValueString(buf: TextBuffer, v: AnyValue)
    modifies buf
    ensures buf.text == old(buf.text) + Rendered(v)
    decreases v, 1
  {
    match v {
      case StringValue(s) => buf.PushStr(s);
      case IntValue(i) => buf.PushStr(IntText(i));
      case DoubleValue(d) => buf.PushStr(DisplayOf(d));
      case BoolValue(b) => buf.PushStr(if b then "true" else "false");
      case KvlistValue(attrs) => WriteKvlistJson(buf, attrs);
      case ArrayValue(values) => WriteRenderedArray(buf, values);
      case BytesValue(bytes) => WriteHexToString(buf, bytes);
      case Unset =>
    }
  }

  lemma RenderedStep(values: seq<AnyValue>, idx: nat)
    requires idx < |values|
    ensures RenderedAll(values[..idx + 1]) == RenderedAll(values[..idx]) + (if idx == 0 then "" else ",") + Rendered(values[idx])
  {
    assert values[..idx + 1][..idx] == values[..idx];
    assert values[..idx + 1][idx] == values[idx];
    if idx == 0 {
      assert values[..0] == [];
      assert RenderedAll(values[..1]) == Rendered(values[0]);
    }
  }

  method WriteRenderedArray(buf: TextBuffer, values: seq<AnyValue>)
    modifies buf
    ensures buf.text == old(buf.text) + Rendered(ArrayValue(values))
    decreases values, 0
  {
    ghost var before, open := buf.text, buf.text + "[";
    buf.Push('[');
    for idx := 0 to |values|
      invariant buf.text == open + RenderedAll(values[..idx])
    {
      RenderedStep(values, idx);
      Join4(open, RenderedAll(values[..idx]), if idx == 0 then "" else ",", Rendered(values[idx]));
      if idx > 0 {
        buf.Push(',');
      }
      WriteAnyValueString(buf, values[idx]);
    }
    assert values[..|values|] == values;
    buf.Push(']');
    Join4(before, "[", RenderedAll(values), "]");
  }
}
