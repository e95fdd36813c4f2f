/** Monotone Parquet file names: an atomic clock shared by any number of callers, updated by
    compare-and-swap, and names whose byte order is the order of their timestamps. */
module FileNamer {
  import opened Wrappers
  import opened Text
  import opened Widths
  import opened JsonObject

  const STAMP_WIDTH: nat := 20
  const UUID_LENGTH: nat := 36

  function SaturatingAdd(n: nat): nat {
    if n < I64_MAX then n + 1 else I64_MAX
  }

  /** The new clock value for a reading `now` when the last one was `prev`. */
  function NextStamp(now: nat, prev: nat): (next: nat)
    requires now <= I64_MAX && prev <= I64_MAX
    ensures prev <= next <= I64_MAX
    ensures prev < next <==> prev < I64_MAX
    ensures next == now || next == prev + 1 || prev == next == I64_MAX
    ensures next == now <== now > prev
  {
    if now > prev then now else SaturatingAdd(prev)
  }

  // ---------------------------------------------------------------- concurrent callers

  /** A caller has read the wall clock and then the shared value; it returns what it swaps in. */
  datatype Caller = Idle | Loaded(now: nat, prev: nat) | Returned(stamp: nat)

  /** `issued` lists the stamps in the order of the successful swaps. */
  datatype State = State(last: nat, callers: seq<Caller>, issued: seq<nat>)

  datatype Step =
    | Load(c: nat, now: nat)
    | Swap(c: nat)
    | SwapFails(c: nat)
    | Again(c: nat)

  function Next(s: State, step: Step): Option<State> {
    if step.c >= |s.callers| then None
    else
      var caller := s.callers[step.c];
      match step
      case Load(c, now) =>
        if caller.Idle? && now <= I64_MAX then Some(s.(callers := s.callers[c := Loaded(now, s.last)])) else None
      case Swap(c) =>
        if caller.Loaded? && caller.prev == s.last && caller.now <= I64_MAX && s.last <= I64_MAX then
          var stamp := NextStamp(caller.now, caller.prev);
          Some(State(stamp, s.callers[c := Returned(stamp)], s.issued + [stamp]))
        else None
      case SwapFails(c) =>
        if caller.Loaded? then Some(s.(callers := s.callers[c := Loaded(caller.now, s.last)])) else None
      case Again(c) =>
        if caller.Returned? then Some(s.(callers := s.callers[c := Idle])) else None
  }

  function Run(s: State, steps: seq<Step>): Option<State> {
    if steps == [] then Some(s) else
    match Run(s, steps[..|steps| - 1])
    case None => None
    case Some(t) => Next(t, steps[|steps| - 1])
  }

  function Start(callers: nat): State {
    State(0, seq(callers, i => Idle), [])
  }

  /** Later stamps are larger, up to the end of time. */
  predicate Increasing(issued: seq<nat>) {
    forall i, j | 0 <= i < j < |issued| :: issued[i] < issued[j] || (issued[i] == I64_MAX && issued[j] == I64_MAX)
  }

  ghost predicate Inv(s: State) {
    && s.last <= I64_MAX
    && (forall c | 0 <= c < |s.callers| && s.callers[c].Loaded? :: s.callers[c].now <= I64_MAX && s.callers[c].prev <= I64_MAX)
    && (forall i | 0 <= i < |s.issued| :: s.issued[i] <= s.last)
    && (s.issued != [] ==> s.issued[|s.issued| - 1] == s.last)
    && (s.issued == [] ==> s.last == 0)
    && Increasing(s.issued)
    && (forall c | 0 <= c < |s.callers| && s.callers[c].Returned? :: s.callers[c].stamp in s.issued)
  }

  lemma StepKeepsInv(s: State, step: Step)
    requires Inv(s) && Next(s, step).Some?
    ensures Inv(Next(s, step).value)
  {
    if step.Swap? {
      var t := Next(s, step).value;
      var stamp := t.last;
      forall i, j | 0 <= i < j < |t.issued|
        ensures t.issued[i] < t.issued[j] || (t.issued[i] == I64_MAX && t.issued[j] == I64_MAX)
      {
        if j == |s.issued| {
          assert s.issued[i] <= s.last;
        }
      }
      assert t.issued[|s.issued|] == stamp;
      forall c | 0 <= c < |t.callers| && t.callers[c].Returned? ensures t.callers[c].stamp in t.issued {
        if c != step.c {
          assert s.callers[c].stamp in s.issued;
        }
      }
    }
  }

  /** Whatever the interleaving and however the wall clock jumps, stamps increase strictly in the
      order of the swaps, until the largest representable one is reached. */
  lemma {:induction false} StampsIncrease(callers: nat, steps: seq<Step>)
    requires Run(Start(callers), steps).Some?
    ensures Inv(Run(Start(callers), steps).value)
    ensures Increasing(Run(Start(callers), steps).value.issued)
  {
    if steps != [] {
      var before := steps[..|steps| - 1];
      StampsIncrease(callers, before);
      StepKeepsInv(Run(Start(callers), before).value, steps[|steps| - 1]);
    }
  }

  /** Two calls get the same stamp only at saturation. */
  lemma StampsAreDistinct(callers: nat, steps: seq<Step>, i: nat, j: nat)
    requires Run(Start(callers), steps).Some?
    requires var issued := Run(Start(callers), steps).value.issued; i < j < |issued|
    ensures var issued := Run(Start(callers), steps).value.issued;
            issued[i] == issued[j] ==> issued[i] == I64_MAX
  {
    StampsIncrease(callers, steps);
  }

  // ---------------------------------------------------------------- the order of names

  function Zeros(n: nat): string {
    seq(n, i => '0')
  }

  /** Decimal text padded with zeros on the left. */
  function Padded(n: nat, width: nat): string {
    var d := Decimal(n);
    if |d| >= width then d else Zeros(width - |d|) + d
  }

  function Directory(partitionPrefix: string): string {
    var prefix := TrimSlashes(partitionPrefix);
    if prefix == "" then "" else prefix + "/"
  }

  function FileName(partitionPrefix: string, stamp: nat, nodeId: string, uuid: string, sequence: nat): string {
    Directory(partitionPrefix) + (Padded(stamp, STAMP_WIDTH) + ("_" + nodeId + "_" + uuid + "_" + Padded(sequence, 4) + ".parquet"))
  }

  /** A name tells its parts: the directory without trailing slashes, the stamp in twenty digits, the node, the
      unique id, and the sequence number in at least four digits. */
  ghost predicate IsName(name: string, partitionPrefix: string, stamp: nat, nodeId: string, uuid: string, sequence: nat) {
    exists directory, digits, counter ::
      && name == directory + (digits + ("_" + nodeId + "_" + uuid + "_" + counter + ".parquet"))
      && IsDirectory(directory, partitionPrefix)
      && |digits| == 20 && Digits(digits) && Val(digits) == stamp
      && |counter| >= 4 && Digits(counter) && Val(counter) == sequence
  }

  /** The prefix without the slashes at its end, and one slash behind it if anything is left. */
  ghost predicate IsDirectory(directory: string, partitionPrefix: string) {
    exists n :: 0 <= n <= |partitionPrefix|
      && (forall i | n <= i < |partitionPrefix| :: partitionPrefix[i] == '/')
      && (n > 0 ==> partitionPrefix[n - 1] != '/')
      && directory == if n == 0 then "" else partitionPrefix[..n] + "/"
  }

  lemma {:induction false} TrimSlashesIs(s: string) returns (n: nat)
    ensures n <= |s| && TrimSlashes(s) == s[..n] && (forall i | n <= i < |s| :: s[i] == '/') && (n > 0 ==> s[n - 1] != '/')
  {
    if s != "" && s[|s| - 1] == '/' {
      var t := s[..|s| - 1];
      n := TrimSlashesIs(t);
      assert forall i | 0 <= i < |t| :: t[i] == s[i];
    } else {
      n := |s|;
    }
  }

  lemma FileNameIs(prefix: string, stamp: nat, node: string, uuid: string, sequence: nat)
    requires stamp <= I64_MAX
    ensures IsName(FileName(prefix, stamp, node, uuid, sequence), prefix, stamp, node, uuid, sequence)
  {
    hide Padded, Val, TrimSlashes;
    var n := TrimSlashesIs(prefix);
    assert IsDirectory(Directory(prefix), prefix);
    StampFits(stamp);
    PaddedIsDigits(stamp, STAMP_WIDTH);
    PaddedIsDigits(sequence, 4);
    var digits, counter := Padded(stamp, STAMP_WIDTH), Padded(sequence, 4);
    assert FileName(prefix, stamp, node, uuid, sequence)
        == Directory(prefix) + (digits + ("_" + node + "_" + uuid + "_" + counter + ".parquet"));
  }

  /** The value of a digit string. */
  function Val(s: string): nat {
    if s == "" then 0
    else 10 * Val(s[..|s| - 1]) + if '0' <= s[|s| - 1] <= '9' then s[|s| - 1] as int - '0' as int else 0
  }

  predicate Digits(s: string) {
    forall i | 0 <= i < |s| :: '0' <= s[i] <= '9'
  }

  lemma {:induction false} ValOfDecimal(n: nat)
    ensures Val(Decimal(n)) == n
  {
    if n < 10 {
      assert Decimal(n)[..0] == "";
    } else {
      ValOfDecimal(n / 10);
      assert Decimal(n)[..|Decimal(n)| - 1] == Decimal(n / 10);
    }
  }

  lemma {:induction false} ValOfZeros(k: nat, d: string)
    ensures Val(Zeros(k) + d) == Val(d)
    decreases |d|, k
  {
    if d == "" {
      assert Zeros(k) + d == Zeros(k);
      if k > 0 {
        assert Zeros(k)[..k - 1] == Zeros(k - 1);
        ValOfZeros(k - 1, "");
        assert Zeros(k - 1) + "" == Zeros(k - 1);
      }
    } else {
      assert (Zeros(k) + d)[..k + |d| - 1] == Zeros(k) + d[..|d| - 1];
      ValOfZeros(k, d[..|d| - 1]);
    }
  }

  lemma PaddedIsDigits(n: nat, width: nat)
    ensures Val(Padded(n, width)) == n && Digits(Padded(n, width))
    ensures |Padded(n, width)| >= width
    ensures |Decimal(n)| <= width ==> |Padded(n, width)| == width
  {
    ValOfDecimal(n);
    if |Decimal(n)| < width {
      ValOfZeros(width - |Decimal(n)|, Decimal(n));
    }
  }

  function Pow10(k: nat): nat {
    if k == 0 then 1 else 10 * Pow10(k - 1)
  }

  lemma {:induction false} DecimalLength(n: nat, k: nat)
    requires n < Pow10(k) && k > 0
    ensures |Decimal(n)| <= k
  {
    if n >= 10 {
      DecimalLength(n / 10, k - 1);
    }
  }

  lemma StampFits(stamp: nat)
    requires stamp <= I64_MAX
    ensures |Padded(stamp, STAMP_WIDTH)| == STAMP_WIDTH
  {
    assert Pow10(10) == 1_00000_00000;
    assert Pow10(20) == 1_00000_00000_00000_00000;
    DecimalLength(stamp, 20);
    PaddedIsDigits(stamp, STAMP_WIDTH);
  }

  lemma {:induction false} LessSnoc(a: string, b: string, c: char, d: char)
    requires |a| == |b|
    ensures Less(a + [c], b + [d]) <==> Less(a, b) || (a == b && c < d)
  {
    if a == "" {
      assert a + [c] == [c] && b + [d] == [d];
      assert [c][1..] == "" && [d][1..] == "";
    } else {
      assert (a + [c])[1..] == a[1..] + [c] && (b + [d])[1..] == b[1..] + [d];
      LessSnoc(a[1..], b[1..], c, d);
      assert a == [a[0]] + a[1..] && b == [b[0]] + b[1..];
    }
  }

  /** Among digit strings of one length, byte order is numeric order. */
  lemma {:induction false} DigitOrder(a: string, b: string)
    requires |a| == |b| && Digits(a) && Digits(b)
    ensures Less(a, b) <==> Val(a) < Val(b)
    ensures a == b <==> Val(a) == Val(b)
  {
    if a != "" {
      var n := |a| - 1;
      DigitOrder(a[..n], b[..n]);
      LessSnoc(a[..n], b[..n], a[n], b[n]);
      assert a == a[..n] + [a[n]] && b == b[..n] + [b[n]];
    }
  }

  lemma {:induction false} LessCommonHead(head: string, a: string, b: string)
    ensures Less(head + a, head + b) <==> Less(a, b)
  {
    if head == "" {
      assert head + a == a && head + b == b;
    } else {
      assert (head + a)[1..] == head[1..] + a && (head + b)[1..] == head[1..] + b;
      LessCommonHead(head[1..], a, b);
    }
  }

  lemma {:induction false} LessDecidedEarly(a: string, b: string, s: string, t: string)
    requires |a| == |b| && a != b
    ensures Less(a + s, b + t) <==> Less(a, b)
  {
    assert a == [a[0]] + a[1..] && b == [b[0]] + b[1..];
    assert (a + s)[1..] == a[1..] + s && (b + t)[1..] == b[1..] + t;
    if a[0] == b[0] {
      LessDecidedEarly(a[1..], b[1..], s, t);
    }
  }

  /** Names under one prefix sort as their timestamps do, whatever node, uuid and sequence follow. */
  lemma NamesSortByStamp(prefix: string, a: nat, b: nat, node: string, uuidA: string, uuidB: string, seqA: nat, seqB: nat)
    requires a <= I64_MAX && b <= I64_MAX && a != b
    ensures Less(FileName(prefix, a, node, uuidA, seqA), FileName(prefix, b, node, uuidB, seqB)) <==> a < b
  {
    var x, y := Padded(a, STAMP_WIDTH), Padded(b, STAMP_WIDTH);
    var s := "_" + node + "_" + uuidA + "_" + Padded(seqA, 4) + ".parquet";
    var t := "_" + node + "_" + uuidB + "_" + Padded(seqB, 4) + ".parquet";
    StampFits(a);
    StampFits(b);
    PaddedIsDigits(a, STAMP_WIDTH);
    PaddedIsDigits(b, STAMP_WIDTH);
    DigitOrder(x, y);
    LessDecidedEarly(x, y, s, t);
    LessCommonHead(Directory(prefix), x + s, y + t);
  }

  /** Names issued one after the other sort in that order, for any callers and clock readings. */
  lemma IssuedNamesSort(callers: nat, steps: seq<Step>, i: nat, j: nat,
                        prefix: string, node: string, uuidI: string, uuidJ: string, seqI: nat, seqJ: nat)
    requires Run(Start(callers), steps).Some?
    requires var issued := Run(Start(callers), steps).value.issued; i < j < |issued| && issued[i] < I64_MAX
    ensures var issued := Run(Start(callers), steps).value.issued;
            Less(FileName(prefix, issued[i], node, uuidI, seqI), FileName(prefix, issued[j], node, uuidJ, seqJ))
  {
    StampsIncrease(callers, steps);
    var issued := Run(Start(callers), steps).value.issued;
    NamesSortByStamp(prefix, issued[i], issued[j], node, uuidI, uuidJ, seqI, seqJ);
  }

  // ---------------------------------------------------------------- the reserved capacity

  function Capacity(partitionPrefix: string, nodeId: string): nat {
    var prefix := TrimSlashes(partitionPrefix);
    |prefix| + (if prefix == "" then 0 else 1) + 20 + 1 + |nodeId| + 1 + 36 + 1 + 5 + 8
  }

  /** A name never outgrows its buffer: it is one byte short of the capacity, or fills it exactly when
      the sequence number has five digits. */
  lemma NameLength(prefix: string, stamp: nat, node: string, uuid: string, sequence: nat)
    requires stamp <= I64_MAX && sequence <= 0xFFFF && |uuid| == UUID_LENGTH
    ensures |FileName(prefix, stamp, node, uuid, sequence)| == Capacity(prefix, node) - if sequence < 10000 then 1 else 0
  {
    StampFits(stamp);
    assert Pow10(4) == 10000 && Pow10(5) == 100000;
    PaddedIsDigits(sequence, 4);
    DecimalLength(sequence, 5);
    if sequence < 10000 {
      DecimalLength(sequence, 4);
    } else {
      FiveDigits(sequence);
    }
  }

  lemma FiveDigits(n: nat)
    requires 10000 <= n < 100000
    ensures |Decimal(n)| == 5
  {
    assert |Decimal(n)| == |Decimal(n / 10)| + 1;
    assert |Decimal(n / 10)| == |Decimal(n / 10 / 10)| + 1;
    assert |Decimal(n / 10 / 10)| == |Decimal(n / 10 / 10 / 10)| + 1;
    assert |Decimal(n / 10 / 10 / 10)| == |Decimal(n / 10 / 10 / 10 / 10)| + 1;
  }

  // ---------------------------------------------------------------- generate_filename

  class Namer {
    const nodeId: string
    var lastNanos: nat

    ghost predicate Valid()
      reads this
    {
      lastNanos <= I64_MAX
    }

    constructor (nodeId: string)
      ensures Valid() && this.nodeId == nodeId && lastNanos == 0
    {
      this.nodeId, lastNanos := nodeId, 0;
    }

    /** One call without interference: the steps `Load` and `Swap` of the protocol at a stretch.
        `clock` is the wall clock, absent when it cannot be expressed in nanoseconds. */
    method GenerateFilename(partitionPrefix: string, sequence: nat, clock: Option<int>, uuid: string)
      returns (name: string, ghost stamp: nat)
      requires Valid() && sequence <= 0xFFFF && |uuid| == UUID_LENGTH
      requires clock.Some? ==> clock.value <= I64_MAX
      modifies this`lastNanos
      ensures Valid() && lastNanos == stamp
      ensures old(lastNanos) < stamp || stamp == I64_MAX
      ensures if clock.Some? && clock.value > old(lastNanos) then stamp == clock.value
              else stamp == old(lastNanos) + 1 || stamp == old(lastNanos) == I64_MAX
      ensures name == FileName(partitionPrefix, stamp, nodeId, uuid, sequence)
      ensures IsName(name, partitionPrefix, stamp, nodeId, uuid, sequence)
      ensures |name| <= Capacity(partitionPrefix, nodeId)
    {
      var reading := if clock.Some? then clock.value else 0;
      var now := if reading < 0 then 0 else reading;
      var next := if now > lastNanos then now else SaturatingAdd(lastNanos);
      lastNanos := next;
      stamp := next;
      NameLength(partitionPrefix, next, nodeId, uuid, sequence);
      FileNameIs(partitionPrefix, next, nodeId, uuid, sequence);
      var prefix := TrimSlashes(partitionPrefix);
      var file := Padded(next, STAMP_WIDTH) + ("_" + nodeId + "_" + uuid + "_" + Padded(sequence, 4) + ".parquet");
      if prefix == "" {
        assert "" + file == file;
        name := file;
      } else {
        name := prefix + "/" + file;
      }
    }
  }
}
