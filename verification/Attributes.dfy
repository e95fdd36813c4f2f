/** OTLP attribute values and the JSON they stand for. */
module Attributes {
  import opened Wrappers
  import opened Text
  import opened Json
  import opened JsonObject

  type byte = b: int | 0 <= b < 256

  /** A finite double is known by the decimal text the formatter prints for it. */
  datatype Double = Finite(token: NumberToken) | NonFinite(display: string)

  datatype AnyValue =
    | Unset
    | StringValue(s: string)
    | IntValue(i: int)
    | DoubleValue(d: Double)
    | BoolValue(b: bool)
    | BytesValue(bytes: seq<byte>)
    | ArrayValue(values: seq<AnyValue>)
    | KvlistValue(attrs: seq<KeyValue>)

  datatype KeyValue = KeyValue(key: string, value: Option<AnyValue>)
  {
    predicate HasValue() {
      value.Some? && value.value != Unset
    }
  }

  // ---------------------------------------------------------------- number and byte text

  function IntText(i: int): string {
    if i < 0 then "-" + Decimal(-i) else Decimal(i)
  }

  predicate HasPointOrExponent(t: string) {
    '.' in t || 'e' in t || 'E' in t
  }

  function DoubleText(token: string): string {
    if HasPointOrExponent(token) then token else token + ".0"
  }

  function DisplayOf(d: Double): string {
    match d case Finite(token) => token case NonFinite(display) => display
  }

  function HexByte(b: byte): string {
    [HexDigit(b / 16), HexDigit(b % 16)]
  }

  function Hex(bytes: seq<byte>): string {
    if bytes == [] then "" else HexByte(bytes[0]) + Hex(bytes[1..])
  }

  // ---------------------------------------------------------------- meaning

  /** `key` is set again further on. */
  predicate SetLater(key: string, later: seq<KeyValue>) {
    exists i | 0 <= i < |later| :: later[i].key == key && later[i].HasValue()
  }

  /** The occurrence at `i` is the last one of its key that has a value. */
  predicate Wins(attrs: seq<KeyValue>, i: nat)
    requires i < |attrs|
  {
    attrs[i].HasValue() && !SetLater(attrs[i].key, attrs[i + 1..])
  }

  /** The normalised value: last write wins, attributes without a value are dropped, an unset
      value is null, bytes are lowercase hex, non-finite doubles are null. */
  function JsonOf(v: AnyValue): Json
    decreases v, 1
  {
    match v
    case Unset => JNull
    case StringValue(s) => JString(s)
    case IntValue(i) => JNumber(IntText(i))
    case DoubleValue(d) => if d.Finite? then JNumber(DoubleText(d.token)) else JNull
    case BoolValue(b) => JBool(b)
    case BytesValue(bytes) => JString(Hex(bytes))
    case ArrayValue(values) => JArray(seq(|values|, i requires 0 <= i < |values| => JsonOf(values[i])))
    case KvlistValue(attrs) => JObject(Members(attrs))
  }

  /** The members printed for an attribute list, in list order. */
  function Members(attrs: seq<KeyValue>): seq<Member>
    decreases attrs, 0
  {
    if attrs == [] then []
    else if Wins(attrs, 0) then [Member(attrs[0].key, JsonOf(attrs[0].value.value))] + Members(attrs[1..])
    else Members(attrs[1..])
  }

  function AttributesJson(attrs: seq<KeyValue>): Json {
    JObject(Members(attrs))
  }

  // ---------------------------------------------------------------- last write wins

  /** The association built by writing the attributes one after the other. */
  function LastWins(attrs: seq<KeyValue>): map<string, Json> {
    if attrs == [] then map[]
    else
      var last := attrs[|attrs| - 1];
      var before := LastWins(attrs[..|attrs| - 1]);
      if last.HasValue() then before[last.key := JsonOf(last.value.value)] else before
  }

  lemma {:induction false} LastWinsCons(kv: KeyValue, rest: seq<KeyValue>)
    ensures LastWins([kv] + rest) == (if kv.HasValue() then map[kv.key := JsonOf(kv.value.value)] else map[]) + LastWins(rest)
  {
    if rest == [] {
      assert [kv] + rest == [kv];
      assert [kv][..0] == rest;
    } else {
      var n := |rest| - 1;
      assert ([kv] + rest)[..n + 1] == [kv] + rest[..n];
      LastWinsCons(kv, rest[..n]);
    }
  }

  lemma {:induction false} LastWinsKeys(attrs: seq<KeyValue>, key: string)
    ensures key in LastWins(attrs) <==> SetLater(key, attrs)
  {
    if attrs != [] {
      var n := |attrs| - 1;
      LastWinsKeys(attrs[..n], key);
      SetLaterSnoc(key, attrs);
    }
  }

  lemma SetLaterSnoc(key: string, attrs: seq<KeyValue>)
    requires attrs != []
    ensures var last := attrs[|attrs| - 1];
            SetLater(key, attrs) <==> SetLater(key, attrs[..|attrs| - 1]) || (last.key == key && last.HasValue())
  {
    var n := |attrs| - 1;
    assert attrs == attrs[..n] + [attrs[n]];
    if SetLater(key, attrs) {
      var i :| 0 <= i < |attrs| && attrs[i].key == key && attrs[i].HasValue();
      assert i < n ==> attrs[..n][i] == attrs[i];
    }
    if SetLater(key, attrs[..n]) {
      var i :| 0 <= i < n && attrs[..n][i].key == key && attrs[..n][i].HasValue();
      assert attrs[i] == attrs[..n][i];
    }
  }

  lemma SetLaterCons(key: string, attrs: seq<KeyValue>)
    requires attrs != []
    ensures SetLater(key, attrs) <==> SetLater(key, attrs[1..]) || (attrs[0].key == key && attrs[0].HasValue())
  {
    if SetLater(key, attrs) {
      var i :| 0 <= i < |attrs| && attrs[i].key == key && attrs[i].HasValue();
      assert i > 0 ==> attrs[1..][i - 1] == attrs[i];
    }
    if SetLater(key, attrs[1..]) {
      var i :| 0 <= i < |attrs| - 1 && attrs[1..][i].key == key && attrs[1..][i].HasValue();
      assert attrs[i + 1] == attrs[1..][i];
    }
  }

  predicate DistinctKeys(ms: seq<Member>) {
    forall i, j | 0 <= i < j < |ms| :: ms[i].key != ms[j].key
  }

  /** Printing each key at its last occurrence gives the association of sequential writes, with
      every key once. */
  lemma {:induction false} MembersAreLastWins(attrs: seq<KeyValue>)
    ensures View(Members(attrs)) == LastWins(attrs)
    ensures DistinctKeys(Members(attrs))
  {
    if attrs != [] {
      var rest := attrs[1..];
      MembersAreLastWins(rest);
      LastWinsCons(attrs[0], rest);
      LastWinsKeys(rest, attrs[0].key);
      assert [attrs[0]] + rest == attrs;
      if Wins(attrs, 0) {
        ViewCons(Member(attrs[0].key, JsonOf(attrs[0].value.value)), Members(rest));
        KeyAbsent(Members(rest), attrs[0].key);
      }
    }
  }

  lemma KeyAbsent(ms: seq<Member>, key: string)
    requires key !in View(ms)
    ensures forall i | 0 <= i < |ms| :: ms[i].key != key
  {
    ViewKeys(ms, key);
  }

  // ---------------------------------------------------------------- what is printed is JSON

  lemma {:induction false} DecimalIsDigits(n: nat)
    ensures DigitsLen(Decimal(n)) == |Decimal(n)|
    ensures Decimal(n)[0] == '0' ==> n == 0
  {
    if n >= 10 {
      DecimalIsDigits(n / 10);
      DigitsLenAppend(Decimal(n / 10), [Digit(n % 10)]);
      assert DigitsLen([Digit(n % 10)]) == 1 + DigitsLen([Digit(n % 10)][1..]);
    } else {
      assert DigitsLen([Digit(n)]) == 1 + DigitsLen([Digit(n)][1..]);
    }
  }

  lemma {:induction false} DigitsLenAppend(a: string, b: string)
    requires DigitsLen(a) == |a|
    ensures DigitsLen(a + b) == |a| + DigitsLen(b)
  {
    if a == "" {
      assert a + b == b;
    } else {
      assert (a + b)[1..] == a[1..] + b;
      DigitsLenAppend(a[1..], b);
    }
  }

  lemma DecimalIsUnsigned(n: nat)
    ensures UnsignedLen(Decimal(n)) == Len(|Decimal(n)|)
  {
    var d := Decimal(n);
    DecimalIsDigits(n);
    assert IntLen(d) == |d|;
    assert d[|d|..] == "";
  }

  lemma IntTextIsNumber(i: int)
    ensures IsNumber(IntText(i))
    ensures !HasPointOrExponent(IntText(i))
  {
    hide UnsignedLen, Decimal;
    if i < 0 {
      DecimalIsUnsigned(-i);
      var d := Decimal(-i);
      assert IntText(i)[1..] == d;
      assert forall c <- "-" + d :: c == '-' || '0' <= c <= '9';
    } else {
      DecimalIsUnsigned(i);
      assert IntText(i)[0..] == IntText(i);
    }
  }

  lemma PlainTailIsEmpty(tail: string)
    requires !HasPointOrExponent(tail) && TailLen(tail) == Len(|tail|)
    ensures |tail| == 0
  {
    assert FracLen(tail) == Len(0);
    assert tail[0..] == tail;
    assert ExpLen(tail) == Len(0);
  }

  /** A number without point or exponent is only digits after its sign. */
  lemma PlainNumberIsDigits(t: string)
    requires IsNumber(t) && !HasPointOrExponent(t)
    ensures var m := MinusLen(t); IntLen(t[m..]) == |t| - m
  {
    var u := t[MinusLen(t)..];
    var tail := u[IntLen(u)..];
    assert forall c <- tail :: c in t;
    PlainTailIsEmpty(tail);
  }

  lemma PointZeroExtends(u: string)
    requires 0 < IntLen(u) == |u|
    ensures UnsignedLen(u + ".0") == Len(|u| + 2)
  {
    var t := u + ".0";
    assert DigitsLen("") == 0;
    if u[0] == '0' {
      assert IntLen(t) == 1;
    } else {
      DigitsLenAppend(u, ".0");
    }
    assert IntLen(t) == |u|;
    assert t[|u|..] == ".0";
    assert ".0"[1..] == "0" && "0"[1..] == "";
    assert DigitsLen("0") == 1;
    assert FracLen(".0") == Len(2);
    assert ".0"[2..] == "";
  }

  lemma DoubleTextIsNumber(token: string)
    requires IsNumber(token)
    ensures IsNumber(DoubleText(token))
    ensures HasPointOrExponent(DoubleText(token))
  {
    hide UnsignedLen, IntLen;
    if !HasPointOrExponent(token) {
      PlainNumberIsDigits(token);
      var m := MinusLen(token);
      PointZeroExtends(token[m..]);
      assert DoubleText(token)[m..] == token[m..] + ".0";
      assert DoubleText(token)[|token|] == '.';
    }
  }

  /** No integer prints to the token of a double. */
  lemma IntIsNotDouble(i: int, token: NumberToken)
    ensures IntText(i) != DoubleText(token)
  {
    IntTextIsNumber(i);
    DoubleTextIsNumber(token);
  }

  /** Distinct integers print to distinct tokens. */
  lemma {:induction false} DecimalInjective(a: nat, b: nat)
    requires Decimal(a) == Decimal(b)
    ensures a == b
  {
    if a < 10 && b < 10 {
      assert Decimal(a)[0] == Decimal(b)[0];
    } else if a >= 10 && b >= 10 {
      var x, y := Decimal(a / 10), Decimal(b / 10);
      assert Decimal(a) == x + [Digit(a % 10)] && Decimal(b) == y + [Digit(b % 10)];
      assert x == Decimal(a)[..|x|] && y == Decimal(b)[..|y|];
      assert Decimal(a)[|x|] == Digit(a % 10) && Decimal(b)[|y|] == Digit(b % 10);
      DecimalInjective(a / 10, b / 10);
    }
  }

  lemma {:induction false} JsonOfIsWellFormed(v: AnyValue)
    ensures WellFormed(JsonOf(v))
    decreases v, 1
  {
    match v
    case IntValue(i) => IntTextIsNumber(i);
    case DoubleValue(d) =>
      if d.Finite? {
        DoubleTextIsNumber(d.token);
      }
    case ArrayValue(values) =>
      forall i | 0 <= i < |values| ensures WellFormed(JsonOf(values[i])) {
        JsonOfIsWellFormed(values[i]);
      }
    case KvlistValue(attrs) => MembersAreWellFormed(attrs);
    case Unset =>
    case StringValue(_) =>
    case BoolValue(_) =>
    case BytesValue(_) =>
  }

  lemma {:induction false} MembersAreWellFormed(attrs: seq<KeyValue>)
    ensures forall i | 0 <= i < |Members(attrs)| :: WellFormed(Members(attrs)[i].value)
    decreases attrs, 0
  {
    if attrs != [] {
      MembersAreWellFormed(attrs[1..]);
      if Wins(attrs, 0) {
        JsonOfIsWellFormed(attrs[0].value.value);
      }
    }
  }

  /** No object in the value, at any depth, repeats a key. */
  predicate NoRepeatedKey(j: Json) {
    match j
    case JArray(elems) => forall i | 0 <= i < |elems| :: NoRepeatedKey(elems[i])
    case JObject(members) => DistinctKeys(members) && forall i | 0 <= i < |members| :: NoRepeatedKey(members[i].value)
    case _ => true
  }

  lemma {:induction false} NothingRepeats(v: AnyValue)
    ensures NoRepeatedKey(JsonOf(v))
    decreases v, 1
  {
    match v
    case ArrayValue(values) =>
      forall i | 0 <= i < |values| ensures NoRepeatedKey(JsonOf(values[i])) {
        NothingRepeats(values[i]);
      }
    case KvlistValue(attrs) =>
      MembersAreLastWins(attrs);
      MembersRepeatNothing(attrs);
    case _ =>
  }

  lemma {:induction false} MembersRepeatNothing(attrs: seq<KeyValue>)
    ensures forall i | 0 <= i < |Members(attrs)| :: NoRepeatedKey(Members(attrs)[i].value)
    decreases attrs, 0
  {
    if attrs != [] {
      MembersRepeatNothing(attrs[1..]);
      if Wins(attrs, 0) {
        NothingRepeats(attrs[0].value.value);
      }
    }
  }

  /** Round trip: the printed text parses back to the normalised value, and to nothing else. */
  lemma AttributesRoundTrip(attrs: seq<KeyValue>)
    ensures Parse(Print(AttributesJson(attrs))) == IsJson(AttributesJson(attrs))
    ensures NoRepeatedKey(AttributesJson(attrs))
    ensures View(AttributesJson(attrs).members) == LastWins(attrs)
  {
    JsonOfIsWellFormed(KvlistValue(attrs));
    ParseOfPrint(AttributesJson(attrs));
    NothingRepeats(KvlistValue(attrs));
    MembersAreLastWins(attrs);
  }

  // ---------------------------------------------------------------- service name

  const SERVICE_NAME := "service.name"

  /** The value the attribute list ends up with for `key`. */
  function Final(attrs: seq<KeyValue>, key: string): Option<AnyValue> {
    if attrs == [] then None
    else
      var last := attrs[|attrs| - 1];
      if last.key == key && last.HasValue() then Some(last.value.value) else Final(attrs[..|attrs| - 1], key)
  }

  lemma {:induction false} FinalIsLastWins(attrs: seq<KeyValue>, key: string)
    ensures key in LastWins(attrs) <==> Final(attrs, key).Some?
    ensures Final(attrs, key).Some? ==> LastWins(attrs)[key] == JsonOf(Final(attrs, key).value) && Final(attrs, key).value != Unset
  {
    if attrs != [] {
      FinalIsLastWins(attrs[..|attrs| - 1], key);
    }
  }

  /** A value as unquoted text. */
  function Rendered(v: AnyValue): string
    decreases v, 1
  {
    match v
    case StringValue(s) => s
    case IntValue(i) => IntText(i)
    case DoubleValue(d) => DisplayOf(d)
    case BoolValue(b) => if b then "true" else "false"
    case KvlistValue(attrs) => Print(AttributesJson(attrs))
    case ArrayValue(values) => "[" + RenderedAll(values) + "]"
    case BytesValue(bytes) => Hex(bytes)
    case Unset => ""
  }

  function RenderedAll(values: seq<AnyValue>): string
    decreases values, 0
  {
    if values == [] then ""
    else if |values| == 1 then Rendered(values[0])
    else RenderedAll(values[..|values| - 1]) + "," + Rendered(values[|values| - 1])
  }

  function ServiceName(attrs: seq<KeyValue>): string {
    match Final(attrs, SERVICE_NAME)
    case None => "unknown"
    case Some(v) => Rendered(v)
  }

  /** The service name column shows the very value the printed object holds for `service.name`,
      and "unknown" when it holds none. */
  lemma ServiceNameIsPrintedValue(attrs: seq<KeyValue>)
    ensures var view := View(AttributesJson(attrs).members);
            if SERVICE_NAME in view then
              exists v :: view[SERVICE_NAME] == JsonOf(v) && ServiceName(attrs) == Rendered(v)
            else ServiceName(attrs) == "unknown"
    ensures forall s :: SERVICE_NAME in View(AttributesJson(attrs).members) && View(AttributesJson(attrs).members)[SERVICE_NAME] == JString(s)
                        ==> ServiceName(attrs) == s
  {
    MembersAreLastWins(attrs);
    FinalIsLastWins(attrs, SERVICE_NAME);
  }
}
