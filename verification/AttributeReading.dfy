/** What the printed form and the rendering of an attribute value mean to a reader. */
module AttributeReading {
  import opened Wrappers
  import opened Text
  import opened Json
  import opened Attributes

  // ---------------------------------------------------------------- numbers and bytes

  predicate AreDigits(s: string) {
    s != "" && forall i | 0 <= i < |s| :: '0' <= s[i] <= '9'
  }

  /** The number that decimal digits denote. */
  function NatOf(digits: string): (n: int)
    requires forall i | 0 <= i < |digits| :: '0' <= digits[i] <= '9'
  {
    if digits == "" then 0 else
    var last := |digits| - 1;
    10 * NatOf(digits[..last]) + (digits[last] as int - '0' as int)
  }

  /** Digits, possibly after a minus. */
  predicate IsInteger(token: string) {
    if token != "" && token[0] == '-' then AreDigits(token[1..]) else AreDigits(token)
  }

  function IntOf(token: string): int
    requires IsInteger(token)
  {
    if token[0] == '-' then -NatOf(token[1..]) else NatOf(token)
  }

  lemma {:induction false} DecimalReadsBack(n: nat)
    ensures AreDigits(Decimal(n)) && NatOf(Decimal(n)) == n
  {
    var d := Decimal(n);
    if n >= 10 {
      DecimalReadsBack(n / 10);
      assert d[..|d| - 1] == Decimal(n / 10);
    } else {
      assert d[..0] == "";
    }
  }

  /** The token of an integer denotes that integer. */
  lemma IntReadsBack(i: int)
    ensures IsInteger(IntText(i)) && IntOf(IntText(i)) == i
  {
    hide Decimal, NatOf;
    if i < 0 {
      DecimalReadsBack(-i);
      assert IntText(i)[1..] == Decimal(-i);
    } else {
      DecimalReadsBack(i);
    }
  }

  /** Distinct integers print to distinct values. */
  lemma IntsDiffer(a: int, b: int)
    ensures Parse(Print(JsonOf(IntValue(a)))) == Parse(Print(JsonOf(IntValue(b)))) ==> a == b
  {
    hide Parse, Print;
    JsonOfIsWellFormed(IntValue(a));
    JsonOfIsWellFormed(IntValue(b));
    ParseOfPrint(JsonOf(IntValue(a)));
    ParseOfPrint(JsonOf(IntValue(b)));
    IntReadsBack(a);
    IntReadsBack(b);
  }

  /** A lower-case hexadecimal digit, or -1. */
  function Nibble(c: char): int {
    if '0' <= c <= '9' then c as int - '0' as int else if 'a' <= c <= 'f' then c as int - 'a' as int + 10 else -1
  }

  /** The bytes that pairs of lower-case hexadecimal digits denote, if the text consists of such pairs. */
  function BytesOf(s: string): Option<seq<byte>> {
    if s == "" then Some([])
    else if |s| == 1 || Nibble(s[0]) < 0 || Nibble(s[1]) < 0 then None
    else match BytesOf(s[2..])
      case None => None
      case Some(rest) => Some([16 * Nibble(s[0]) + Nibble(s[1])] + rest)
  }

  lemma {:induction false} HexReadsBack(bytes: seq<byte>)
    ensures BytesOf(Hex(bytes)) == Some(bytes)
  {
    hide HexByte, BytesOf;
    if bytes == [] {
      NoBytes();
    } else {
      HexReadsBack(bytes[1..]);
      ByteReadsBack(bytes[0], Hex(bytes[1..]));
      assert [bytes[0]] + bytes[1..] == bytes;
    }
  }

  lemma NoBytes()
    ensures BytesOf("") == Some([])
  {
  }

  lemma ByteReadsBack(b: byte, rest: string)
    requires BytesOf(rest).Some?
    ensures BytesOf(HexByte(b) + rest) == Some([b] + BytesOf(rest).value)
  {
    hide Nibble, HexDigit;
    NibbleOfDigit(b / 16);
    NibbleOfDigit(b % 16);
    assert (HexByte(b) + rest)[2..] == rest;
  }

  lemma NibbleOfDigit(d: nat)
    requires d < 16
    ensures Nibble(HexDigit(d)) == d
  {
  }

  // ---------------------------------------------------------------- the printed value

  /** The attribute at `i` has a value, and no later one of its key has. */
  ghost predicate IsFinal(attrs: seq<KeyValue>, i: nat)
    requires i < |attrs|
  {
    && attrs[i].value.Some? && attrs[i].value.value != Unset
    && forall k | i < k < |attrs| && attrs[k].key == attrs[i].key :: attrs[k].value.None? || attrs[k].value.value == Unset
  }

  /** Some attribute gives the key its final value. */
  ghost predicate HasFinal(attrs: seq<KeyValue>, key: string) {
    exists i :: 0 <= i < |attrs| && attrs[i].key == key && IsFinal(attrs, i)
  }

  /** The JSON value stands for the attribute value: integers by their number, bytes by their digits, lists
      element by element, and objects by the last value of every key. */
  ghost predicate Stands(j: Json, v: AnyValue)
    decreases v
  {
    match v
    case Unset => j == JNull
    case StringValue(s) => j == JString(s)
    case IntValue(i) => j.JNumber? && IsInteger(j.token) && IntOf(j.token) == i
    case DoubleValue(NonFinite(_)) => j == JNull
    case DoubleValue(Finite(token)) =>
      j == JNumber(if '.' in token || 'e' in token || 'E' in token then token else token + ".0")
    case BoolValue(b) => j == JBool(b)
    case BytesValue(bytes) => j.JString? && BytesOf(j.s) == Some(bytes)
    case ArrayValue(values) =>
      j.JArray? && |j.elems| == |values| && forall i | 0 <= i < |values| :: Stands(j.elems[i], values[i])
    case KvlistValue(attrs) =>
      && j.JObject? && DistinctKeys(j.members)
      && (forall m | m in j.members :: HasFinal(attrs, m.key))
      && forall i | 0 <= i < |attrs| && IsFinal(attrs, i) ::
           exists m :: m in j.members && m.key == attrs[i].key && Stands(m.value, attrs[i].value.value)
  }

  lemma FinalWins(attrs: seq<KeyValue>, i: nat)
    requires i < |attrs|
    ensures IsFinal(attrs, i) <==> Wins(attrs, i)
  {
    var later := attrs[i + 1..];
    assert forall k | i < k < |attrs| :: later[k - i - 1] == attrs[k];
    if Wins(attrs, i) {
      forall k | i < k < |attrs| && attrs[k].key == attrs[i].key ensures attrs[k].value.None? || attrs[k].value.value == Unset {
        assert !(later[k - i - 1].key == attrs[i].key && later[k - i - 1].HasValue());
      }
    }
  }

  lemma FinalCons(attrs: seq<KeyValue>, i: nat)
    requires attrs != [] && i < |attrs| - 1
    ensures IsFinal(attrs, i + 1) <==> IsFinal(attrs[1..], i)
  {
    var rest := attrs[1..];
    assert forall k | 0 <= k < |rest| :: rest[k] == attrs[k + 1];
    if IsFinal(rest, i) {
      forall k | i + 1 < k < |attrs| && attrs[k].key == attrs[i + 1].key ensures attrs[k].value.None? || attrs[k].value.value == Unset {
        assert rest[k - 1].key == rest[i].key;
      }
    }
  }

  lemma HasFinalCons(attrs: seq<KeyValue>, key: string)
    requires attrs != []
    ensures HasFinal(attrs, key) <==> (attrs[0].key == key && IsFinal(attrs, 0)) || HasFinal(attrs[1..], key)
  {
    hide IsFinal;
    var rest := attrs[1..];
    if HasFinal(rest, key) {
      var i :| 0 <= i < |rest| && rest[i].key == key && IsFinal(rest, i);
      FinalCons(attrs, i);
      assert attrs[i + 1].key == key;
    }
    if i :| 0 <= i < |attrs| && attrs[i].key == key && IsFinal(attrs, i) {
      if i > 0 {
        FinalCons(attrs, i - 1);
        assert rest[i - 1].key == key;
      }
    }
  }

  /** Every final attribute has its member. */
  lemma {:induction false} FinalsHaveMembers(attrs: seq<KeyValue>, i: nat)
    requires i < |attrs| && IsFinal(attrs, i)
    ensures Member(attrs[i].key, JsonOf(attrs[i].value.value)) in Members(attrs)
    decreases i
  {
    hide JsonOf, IsFinal, Wins;
    FinalWins(attrs, i);
    if i > 0 {
      FinalCons(attrs, i - 1);
      FinalsHaveMembers(attrs[1..], i - 1);
    } else {
      assert attrs[0].value.Some? by {
        WinsHasValue(attrs, 0);
      }
    }
  }

  lemma WinsHasValue(attrs: seq<KeyValue>, i: nat)
    requires i < |attrs| && Wins(attrs, i)
    ensures attrs[i].value.Some?
  {
  }

  /** Every member has its final attribute. */
  lemma {:induction false} MembersHaveFinals(attrs: seq<KeyValue>, m: Member)
    requires m in Members(attrs)
    ensures HasFinal(attrs, m.key)
    decreases |attrs|
  {
    hide JsonOf, IsFinal, Wins, HasFinal;
    HasFinalCons(attrs, m.key);
    FinalWins(attrs, 0);
    if m in Members(attrs[1..]) {
      MembersHaveFinals(attrs[1..], m);
    }
  }

  /** The normalised value stands for the attribute value, at every depth. */
  lemma {:induction false} ValueStands(v: AnyValue)
    ensures Stands(JsonOf(v), v)
    decreases v
  {
    match v
    case IntValue(i) => IntReadsBack(i);
    case BytesValue(bytes) => HexReadsBack(bytes);
    case ArrayValue(values) =>
      forall i | 0 <= i < |values| ensures Stands(JsonOf(values[i]), values[i]) {
        ValueStands(values[i]);
      }
    case KvlistValue(attrs) =>
      forall i | 0 <= i < |attrs| && IsFinal(attrs, i) ensures Stands(JsonOf(attrs[i].value.value), attrs[i].value.value) {
        ValueStands(attrs[i].value.value);
      }
      ObjectStands(attrs);
    case Unset =>
    case StringValue(_) =>
    case DoubleValue(_) =>
    case BoolValue(_) =>
  }

  lemma ObjectStands(attrs: seq<KeyValue>)
    requires forall i | 0 <= i < |attrs| && IsFinal(attrs, i) :: Stands(JsonOf(attrs[i].value.value), attrs[i].value.value)
    ensures Stands(JsonOf(KvlistValue(attrs)), KvlistValue(attrs))
  {
    hide IsFinal, DistinctKeys, HasFinal, Members;
    var ms := Members(attrs);
    MembersAreLastWins(attrs);
    forall m | m in ms ensures HasFinal(attrs, m.key) {
      MembersHaveFinals(attrs, m);
    }
    forall i | 0 <= i < |attrs| && IsFinal(attrs, i)
      ensures attrs[i].value.Some? && exists m :: m in ms && m.key == attrs[i].key && Stands(m.value, attrs[i].value.value)
    {
      FinalHasValue(attrs, i);
      FinalsHaveMembers(attrs, i);
      assert Stands(Member(attrs[i].key, JsonOf(attrs[i].value.value)).value, attrs[i].value.value);
    }
    ObjectIs(attrs);
  }

  lemma FinalHasValue(attrs: seq<KeyValue>, i: nat)
    requires i < |attrs| && IsFinal(attrs, i)
    ensures attrs[i].value.Some?
  {
  }

  lemma ObjectIs(attrs: seq<KeyValue>)
    ensures JsonOf(KvlistValue(attrs)) == JObject(Members(attrs))
  {
  }

  /** The printed text reads as a value that stands for the attribute value. */
  lemma PrintStands(v: AnyValue)
    ensures Parse(Print(JsonOf(v))).IsJson? && Stands(Parse(Print(JsonOf(v))).value, v)
  {
    hide Parse, Print, JsonOf, Stands;
    JsonOfIsWellFormed(v);
    ParseOfPrint(JsonOf(v));
    ValueStands(v);
  }

  // ---------------------------------------------------------------- the rendered value

  /** Texts with a comma between any two. */
  function Commas(parts: seq<string>): string {
    if parts == [] then "" else if |parts| == 1 then parts[0] else parts[0] + "," + Commas(parts[1..])
  }

  lemma {:induction false} CommasSnoc(parts: seq<string>, last: string)
    requires parts != []
    ensures Commas(parts + [last]) == Commas(parts) + "," + last
  {
    var all := parts + [last];
    if |parts| == 1 {
      assert all[1..] == [last];
    } else {
      assert all[1..] == parts[1..] + [last];
      CommasSnoc(parts[1..], last);
      assert parts[0] + "," + (Commas(parts[1..]) + "," + last) == parts[0] + "," + Commas(parts[1..]) + "," + last;
    }
  }

  function Parts(values: seq<AnyValue>): (parts: seq<string>)
    ensures |parts| == |values|
    ensures forall i | 0 <= i < |values| :: parts[i] == Rendered(values[i])
  {
    seq(|values|, i requires 0 <= i < |values| => Rendered(values[i]))
  }

  lemma {:induction false} RenderedAllIsCommas(values: seq<AnyValue>)
    ensures RenderedAll(values) == Commas(Parts(values))
    decreases |values|
  {
    hide Rendered;
    if |values| > 1 {
      var n := |values| - 1;
      RenderedAllIsCommas(values[..n]);
      CommasSnoc(Parts(values[..n]), Rendered(values[n]));
      assert Parts(values) == Parts(values[..n]) + [Rendered(values[n])];
    } else if |values| == 1 {
      assert Parts(values) == [Rendered(values[0])];
    }
  }

  /** The text shows the value: strings as they are, numbers and bytes by their digits, objects as JSON and
      lists in brackets. */
  ghost predicate Shows(text: string, v: AnyValue)
    decreases v
  {
    match v
    case Unset => text == ""
    case StringValue(s) => text == s
    case IntValue(i) => IsInteger(text) && IntOf(text) == i
    case DoubleValue(Finite(token)) => text == token
    case DoubleValue(NonFinite(display)) => text == display
    case BoolValue(b) => text == if b then "true" else "false"
    case BytesValue(bytes) => BytesOf(text) == Some(bytes)
    case KvlistValue(_) => Parse(text).IsJson? && Stands(Parse(text).value, v)
    case ArrayValue(values) =>
      text == "[" + Commas(Parts(values)) + "]" && forall i | 0 <= i < |values| :: Shows(Parts(values)[i], values[i])
  }

  lemma {:induction false} RenderedShows(v: AnyValue)
    ensures Shows(Rendered(v), v)
    decreases v
  {
    match v
    case IntValue(i) => IntReadsBack(i);
    case BytesValue(bytes) => HexReadsBack(bytes);
    case KvlistValue(_) => PrintStands(v);
    case ArrayValue(values) =>
      RenderedAllIsCommas(values);
      forall i | 0 <= i < |values| ensures Shows(Parts(values)[i], values[i]) {
        RenderedShows(values[i]);
      }
    case Unset =>
    case StringValue(_) =>
    case DoubleValue(_) =>
    case BoolValue(_) =>
  }

  /** The service name is the rendering of the last value that `service.name` has, or "unknown". */
  lemma ServiceNameShows(attrs: seq<KeyValue>)
    ensures (forall i | 0 <= i < |attrs| && attrs[i].key == "service.name" && IsFinal(attrs, i) ::
               Shows(ServiceName(attrs), attrs[i].value.value))
    ensures (forall i | 0 <= i < |attrs| && attrs[i].key == "service.name" :: !IsFinal(attrs, i)) ==> ServiceName(attrs) == "unknown"
  {
    hide Shows, Rendered;
    FinalIsIndexed(attrs, SERVICE_NAME);
    if Final(attrs, SERVICE_NAME).Some? {
      RenderedShows(Final(attrs, SERVICE_NAME).value);
    }
  }

  lemma {:induction false} FinalIsIndexed(attrs: seq<KeyValue>, key: string)
    ensures forall i | 0 <= i < |attrs| && attrs[i].key == key && IsFinal(attrs, i) :: Final(attrs, key) == Some(attrs[i].value.value)
    ensures Final(attrs, key).Some? ==> exists i :: 0 <= i < |attrs| && attrs[i].key == key && IsFinal(attrs, i)
  {
    if attrs != [] {
      var n := |attrs| - 1;
      FinalIsIndexed(attrs[..n], key);
      if attrs[n].key == key && attrs[n].HasValue() {
        assert IsFinal(attrs, n);
      } else {
        forall i | 0 <= i < n && attrs[i].key == key ensures IsFinal(attrs, i) <==> IsFinal(attrs[..n], i) {
        }
      }
    }
  }
}
