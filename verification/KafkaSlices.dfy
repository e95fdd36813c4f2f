/** Cutting a sorted batch into one Kafka record per partition key, and sending the records. */
module KafkaSlices {
  import opened Wrappers
  import opened Text
  import opened JsonObject
  import opened Sorting
  import opened Failures

  /** Rows for one record; `None` is the SQL null key, distinct from the empty string. */
  datatype Slice = Slice(key: Option<string>, rows: seq<Row>)

  datatype PrepareError = SortFailed | MissingKeyColumn | KeyColumnNotUtf8

  function KeyOf(row: Row, col: nat): Option<string>
    requires col < |row| && !row[col].Num?
  {
    if row[col] == Null then None else Some(row[col].s)
  }

  predicate HasKeys(rows: seq<Row>, col: nat) {
    forall r | 0 <= r < |rows| :: col < |rows[r]| && !rows[r][col].Num?
  }

  function AllRows(slices: seq<Slice>): seq<Row> {
    if slices == [] then [] else AllRows(slices[..|slices| - 1]) + slices[|slices| - 1].rows
  }

  /** Every slice is a non-empty run of rows with its key, and neighbours have different keys. */
  ghost predicate AreRuns(slices: seq<Slice>, col: nat) {
    && (forall i | 0 <= i < |slices| ::
          slices[i].rows != [] && HasKeys(slices[i].rows, col)
          && forall r | 0 <= r < |slices[i].rows| ::
               slices[i].rows[r][col] == match slices[i].key case None => Null case Some(key) => Txt(key))
    && (forall i | 0 < i < |slices| :: slices[i - 1].key != slices[i].key)
  }

  /** Scans the key column once and cuts where the key changes. */
  method ExtractPartitionSlices(t: Table, keyColumn: string) returns (r: Result<seq<Slice>, PrepareError>)
    requires t.Valid()
    ensures var col := IndexOf(t.names, keyColumn);
            if col == |t.names| then r == Err(MissingKeyColumn)
            else if !t.utf8[col] then r == Err(KeyColumnNotUtf8)
            else r.Ok? && AllRows(r.value) == t.rows && AreRuns(r.value, col)
  {
    hide AreRuns, AllRows;
    var col := IndexOf(t.names, keyColumn);
    if col == |t.names| {
      return Err(MissingKeyColumn);
    }
    if !t.utf8[col] {
      return Err(KeyColumnNotUtf8);
    }
    var slices: seq<Slice> := [];
    NoRuns(col);
    if |t.rows| == 0 {
      return Ok(slices);
    }
    var start := 0;
    var currentVal := KeyOf(t.rows[0], col);
    for i := 1 to |t.rows|
      invariant 0 <= start < i
      invariant AllRows(slices) == t.rows[..start] && AreRuns(slices, col)
      invariant forall r | start <= r < i :: KeyOf(t.rows[r], col) == currentVal
      invariant slices != [] ==> slices[|slices| - 1].key != currentVal
    {
      var val := KeyOf(t.rows[i], col);
      if val != currentVal {
        CutRun(t, col, slices, start, i, currentVal);
        slices := slices + [Slice(currentVal, t.rows[start..i])];
        start := i;
        currentVal := val;
      }
    }
    CutRun(t, col, slices, start, |t.rows|, currentVal);
    assert t.rows[..|t.rows|] == t.rows;
    return Ok(slices + [Slice(currentVal, t.rows[start..|t.rows|])]);
  }

  lemma NoRuns(col: nat)
    ensures AllRows([]) == [] && AreRuns([], col)
  {
  }

  lemma RunsSnoc(slices: seq<Slice>, last: Slice, col: nat)
    requires AreRuns(slices, col)
    requires last.rows != [] && HasKeys(last.rows, col) && forall r | 0 <= r < |last.rows| :: KeyOf(last.rows[r], col) == last.key
    requires slices != [] ==> slices[|slices| - 1].key != last.key
    ensures AreRuns(slices + [last], col)
  {
  }

  lemma RowsSnoc(slices: seq<Slice>, last: Slice)
    ensures AllRows(slices + [last]) == AllRows(slices) + last.rows
  {
    assert (slices + [last])[..|slices|] == slices;
  }

  lemma CutRun(t: Table, col: nat, slices: seq<Slice>, start: nat, end: nat, key: Option<string>)
    requires t.Valid() && col < |t.names| && t.utf8[col]
    requires start < end <= |t.rows|
    requires AllRows(slices) == t.rows[..start] && AreRuns(slices, col)
    requires forall r | start <= r < end :: KeyOf(t.rows[r], col) == key
    requires slices != [] ==> slices[|slices| - 1].key != key
    ensures var cut := slices + [Slice(key, t.rows[start..end])];
            AllRows(cut) == t.rows[..end] && AreRuns(cut, col) && cut[|cut| - 1].key == key
  {
    hide AreRuns, AllRows;
    var run := t.rows[start..end];
    assert t.rows[..end] == t.rows[..start] + run;
    assert forall r | 0 <= r < |run| :: run[r] == t.rows[start + r];
    RunsSnoc(slices, Slice(key, run), col);
    RowsSnoc(slices, Slice(key, run));
  }

  // ---------------------------------------------------------------- slices of a sorted batch

  /** Keys in the order of the sort: ascending, the null key last. */
  predicate KeyBefore(a: Option<string>, b: Option<string>) {
    match (a, b)
    case (Some(x), Some(y)) => Less(x, y)
    case (Some(_), None) => true
    case _ => false
  }

  predicate SortedByLead(cols: seq<SortColumn>, col: nat) {
    cols != [] && cols[0] == SortColumn(col, Options(false, false))
  }

  lemma KeysAscend(cols: seq<SortColumn>, col: nat, a: Row, b: Row)
    requires SortedByLead(cols, col) && |a| == |b| && InTable(cols, |a|) && !a[col].Num? && !b[col].Num?
    requires RowLe(cols, a, b)
    ensures KeyOf(a, col) == KeyOf(b, col) || KeyBefore(KeyOf(a, col), KeyOf(b, col))
    ensures KeyOf(a, col) == KeyOf(b, col) ==> RowLe(cols[1..], a, b)
  {
    BeforeIsTotal(a[col], b[col], LEAD_OPTIONS);
  }

  lemma KeyBeforeIsStrict(a: Option<string>, b: Option<string>, c: Option<string>)
    ensures KeyBefore(a, b) && KeyBefore(b, c) ==> KeyBefore(a, c)
    ensures !KeyBefore(a, a)
  {
    if a.Some? {
      LessIrreflexive(a.value);
      if b.Some? && c.Some? && Less(a.value, b.value) && Less(b.value, c.value) {
        LessTransitive(a.value, b.value, c.value);
      }
    }
  }

  /** The position in the batch where slice `i` starts. */
  ghost function StartOf(slices: seq<Slice>, i: nat): nat
    requires i <= |slices|
  {
    |AllRows(slices[..i])|
  }

  lemma {:induction false} SliceRowAt(slices: seq<Slice>, i: nat, r: nat)
    requires i < |slices| && r < |slices[i].rows|
    ensures StartOf(slices, i) + r < |AllRows(slices)|
    ensures AllRows(slices)[StartOf(slices, i) + r] == slices[i].rows[r]
    decreases |slices|
  {
    var n := |slices| - 1;
    if i == n {
      assert slices[..i] == slices[..n];
    } else {
      SliceRowAt(slices[..n], i, r);
      assert slices[..n][..i] == slices[..i];
    }
  }

  lemma StartStep(slices: seq<Slice>, i: nat)
    requires i < |slices|
    ensures StartOf(slices, i + 1) == StartOf(slices, i) + |slices[i].rows|
  {
    assert slices[..i + 1][..i] == slices[..i];
  }

  /** Keys of neighbouring slices increase strictly. */
  lemma NeighboursAscend(slices: seq<Slice>, cols: seq<SortColumn>, col: nat, width: nat, i: nat)
    requires 0 < i < |slices| && AreRuns(slices, col) && SortedByLead(cols, col) && InTable(cols, width)
    requires forall r | 0 <= r < |AllRows(slices)| :: |AllRows(slices)[r]| == width
    requires SortedRows(cols, AllRows(slices), width)
    ensures KeyBefore(slices[i - 1].key, slices[i].key)
  {
    var rows := AllRows(slices);
    SliceRowAt(slices, i - 1, 0);
    SliceRowAt(slices, i, 0);
    StartStep(slices, i - 1);
    var a, b := StartOf(slices, i - 1), StartOf(slices, i);
    assert KeyOf(rows[a], col) == slices[i - 1].key && KeyOf(rows[b], col) == slices[i].key;
    KeysAscend(cols, col, rows[a], rows[b]);
  }

  lemma {:induction false} SlicesAscend(slices: seq<Slice>, cols: seq<SortColumn>, col: nat, width: nat, i: nat, j: nat)
    requires i < j < |slices| && AreRuns(slices, col) && SortedByLead(cols, col) && InTable(cols, width)
    requires forall r | 0 <= r < |AllRows(slices)| :: |AllRows(slices)[r]| == width
    requires SortedRows(cols, AllRows(slices), width)
    ensures KeyBefore(slices[i].key, slices[j].key)
    decreases j - i
  {
    NeighboursAscend(slices, cols, col, width, j);
    if i < j - 1 {
      SlicesAscend(slices, cols, col, width, i, j - 1);
      KeyBeforeIsStrict(slices[i].key, slices[j - 1].key, slices[j].key);
    }
  }

  /** Within a slice the rows are in the order of the remaining sort keys. */
  lemma SliceIsSortedByRest(slices: seq<Slice>, cols: seq<SortColumn>, col: nat, width: nat, i: nat, p: nat, q: nat)
    requires i < |slices| && AreRuns(slices, col) && SortedByLead(cols, col) && InTable(cols, width)
    requires forall r | 0 <= r < |AllRows(slices)| :: |AllRows(slices)[r]| == width
    requires SortedRows(cols, AllRows(slices), width)
    requires p < q < |slices[i].rows|
    ensures |slices[i].rows[p]| == |slices[i].rows[q]| == width && RowLe(cols[1..], slices[i].rows[p], slices[i].rows[q])
  {
    SliceRowAt(slices, i, p);
    SliceRowAt(slices, i, q);
    KeysAscend(cols, col, slices[i].rows[p], slices[i].rows[q]);
  }

  // ---------------------------------------------------------------- prepare_kafka_slices

  /** One slice per key: distinct keys in ascending order, the null key last, and inside a slice the
      remaining sort order. */
  ghost predicate Partitioned(slices: seq<Slice>, rest: seq<SortColumn>, col: nat) {
    && AreRuns(slices, col)
    && (forall i, j | 0 <= i < j < |slices| :: KeyBefore(slices[i].key, slices[j].key))
    && (forall i, p, q | 0 <= i < |slices| && 0 <= p < q < |slices[i].rows| ::
          (forall k | 0 <= k < |rest| :: rest[k].index < |slices[i].rows[p]| && rest[k].index < |slices[i].rows[q]|)
          && RowLe(rest, slices[i].rows[p], slices[i].rows[q]))
  }

  lemma RunsArePartitioned(slices: seq<Slice>, cols: seq<SortColumn>, col: nat, width: nat)
    requires AreRuns(slices, col) && SortedByLead(cols, col) && InTable(cols, width)
    requires forall r | 0 <= r < |AllRows(slices)| :: |AllRows(slices)[r]| == width
    requires SortedRows(cols, AllRows(slices), width)
    ensures Partitioned(slices, cols[1..], col)
  {
    forall i, j | 0 <= i < j < |slices| ensures KeyBefore(slices[i].key, slices[j].key) {
      SlicesAscend(slices, cols, col, width, i, j);
    }
    forall i, p, q | 0 <= i < |slices| && 0 <= p < q < |slices[i].rows|
      ensures (forall k | 0 <= k < |cols[1..]| ::
                 cols[1..][k].index < |slices[i].rows[p]| && cols[1..][k].index < |slices[i].rows[q]|)
              && RowLe(cols[1..], slices[i].rows[p], slices[i].rows[q])
    {
      SliceIsSortedByRest(slices, cols, col, width, i, p, q);
    }
  }

  /** A key is in at most one slice. */
  lemma EachKeyOnce(slices: seq<Slice>, rest: seq<SortColumn>, col: nat, i: nat, j: nat)
    requires Partitioned(slices, rest, col) && i < |slices| && j < |slices| && slices[i].key == slices[j].key
    ensures i == j
    ensures slices[i].key.None? ==> i == |slices| - 1
  {
    KeyBeforeIsStrict(slices[i].key, slices[j].key, slices[i].key);
    assert i < |slices| - 1 ==> KeyBefore(slices[i].key, slices[i + 1].key);
  }

  lemma {:induction false} LeadComesFirst(names: seq<string>, key: string, keys: seq<SortKey>, skipMissing: bool)
    requires IndexOf(names, key) < |names|
    requires Resolve(names, AllKeys(Some(key), keys), skipMissing).Some?
    ensures SortedByLead(Resolve(names, AllKeys(Some(key), keys), skipMissing).value, IndexOf(names, key))
  {
    var all := AllKeys(Some(key), keys);
    if keys == [] {
      assert all == [SortKey(key, LEAD_OPTIONS)];
      assert all[..0] == [];
      assert Resolve(names, all[..0], skipMissing) == Some([]);
    } else {
      assert all[..|all| - 1] == AllKeys(Some(key), keys[..|keys| - 1]);
      LeadComesFirst(names, key, keys[..|keys| - 1], skipMissing);
    }
  }

  /** With a text key column, a batch is cut into one slice per distinct key; the slices hold the
      rows of the batch, each once, in whatever order the sort leaves ties. */
  method PrepareKafkaSlices(t: Table, keys: seq<SortKey>, partitionKey: Option<string>, skipMissing: bool)
    returns (r: Result<seq<Slice>, PrepareError>)
    requires t.Valid()
    ensures t.rows == [] ==> r == Ok([])
    ensures r.Ok? ==> multiset(AllRows(r.value)) == multiset(t.rows)
    ensures t.rows != [] && partitionKey.None? && r.Ok? ==> |r.value| == 1 && r.value[0].key == None
    ensures t.rows != [] ==> (r.Ok? <==>
              && (|t.rows| == 1 || Resolve(t.names, AllKeys(partitionKey, keys), skipMissing).Some?)
              && (partitionKey.Some? ==> IndexOf(t.names, partitionKey.value) < |t.names| && t.utf8[IndexOf(t.names, partitionKey.value)]))
    ensures r.Ok? && partitionKey.Some? && t.rows != [] ==> AreRuns(r.value, IndexOf(t.names, partitionKey.value))
    ensures var cols := Resolve(t.names, AllKeys(partitionKey, keys), skipMissing);
            r.Ok? && t.rows != [] && partitionKey.Some? && cols.Some? ==>
              SortedByLead(cols.value, IndexOf(t.names, partitionKey.value))
              && Partitioned(r.value, cols.value[1..], IndexOf(t.names, partitionKey.value))
  {
    if |t.rows| == 0 {
      return Ok([]);
    }
    var sorted := SortWithExtraLeadColumn(t, partitionKey, keys, skipMissing);
    if sorted.None? {
      return Err(SortFailed);
    }
    if partitionKey.None? {
      var whole := [Slice(None, sorted.value.rows)];
      assert whole[..0] == [];
      assert AllRows(whole) == [] + whole[0].rows;
      return Ok(whole);
    }
    r := ExtractPartitionSlices(sorted.value, partitionKey.value);
    if r.Ok? {
      ghost var cols := Resolve(t.names, AllKeys(partitionKey, keys), skipMissing);
      if cols.Some? {
        LeadComesFirst(t.names, partitionKey.value, keys, skipMissing);
        RunsArePartitioned(r.value, cols.value, IndexOf(t.names, partitionKey.value), |t.names|);
      }
    }
  }

  // ---------------------------------------------------------------- sending

  function MergeFailureClass(current: Option<FailureClass>, next: FailureClass): FailureClass {
    if current.Some? && Severity(current.value) >= Severity(next) then current.value else next
  }

  datatype Delivery = Delivered | Failed(class_: FailureClass) | Cancelled

  /** What becomes of one record: queued and then delivered or not, sent directly because the queue
      was full, or not accepted. */
  datatype Sending = Enqueued(delivery: Delivery) | QueueFull(sent: Option<FailureClass>) | Refused(class_: FailureClass)
  {
    function Failure(): Option<FailureClass> {
      match this
      case Enqueued(Failed(c)) => Some(c)
      case Enqueued(_) => None
      case QueueFull(sent) => sent
      case Refused(c) => Some(c)
    }

    predicate IsCancelled() {
      Enqueued? && delivery.Cancelled?
    }
  }

  /** `kept` is the class of some failure among the first `n`, of the highest severity. */
  ghost predicate Worst(failures: seq<Option<FailureClass>>, kept: Option<FailureClass>) {
    && (forall i | 0 <= i < |failures| :: failures[i].Some? ==> kept.Some? && Severity(failures[i].value) <= Severity(kept.value))
    && (kept.Some? ==> exists i | 0 <= i < |failures| :: failures[i] == kept)
  }

  lemma NothingFailed()
    ensures Worst([], None)
  {
  }

  lemma MergeKeepsWorst(failures: seq<Option<FailureClass>>, kept: Option<FailureClass>, next: Option<FailureClass>)
    requires Worst(failures, kept)
    ensures Worst(failures + [next], if next.None? then kept else Some(MergeFailureClass(kept, next.value)))
  {
    var all := failures + [next];
    var merged := if next.None? then kept else Some(MergeFailureClass(kept, next.value));
    assert all[|failures|] == next;
    if merged.Some? && merged == kept {
      var i :| 0 <= i < |failures| && failures[i] == kept;
      assert all[i] == kept;
    }
  }

  /** The record was refused, or could not be delivered, for this reason. */
  predicate FailsWith(s: Sending, c: FailureClass) {
    s == Enqueued(Failed(c)) || s == QueueFull(Some(c)) || s == Refused(c)
  }

  lemma FailureIs(s: Sending)
    ensures s.Failure().None? <==> s in {Enqueued(Delivered), QueueFull(None), Enqueued(Cancelled)}
    ensures forall c :: s.Failure() == Some(c) <==> FailsWith(s, c)
  {
  }

  /** The failure a record shows when it is submitted, and when its delivery is awaited. */
  function AtSubmission(s: Sending): Option<FailureClass> {
    if s.Enqueued? then None else s.Failure()
  }

  function AtDelivery(s: Sending): Option<FailureClass> {
    if s.Enqueued? then s.Failure() else None
  }

  function BothPhases(sendings: seq<Sending>): seq<Option<FailureClass>> {
    seq(|sendings|, i requires 0 <= i < |sendings| => AtSubmission(sendings[i]))
    + seq(|sendings|, i requires 0 <= i < |sendings| => AtDelivery(sendings[i]))
  }

  /** Submits every record before awaiting any delivery. Without a cancelled delivery the lease is
      acknowledged exactly if every record got through, and otherwise refused with the gravest class. */
  method SendPreparedSlices(sendings: seq<Sending>) returns (r: Result<Option<FailureClass>, string>)
    requires |sendings| == 1 ==> !sendings[0].IsCancelled()
    ensures r.Err? <==> exists i | 0 <= i < |sendings| :: sendings[i].IsCancelled()
    ensures r.Ok? ==>
              && (r.value.None? <==> forall i | 0 <= i < |sendings| :: sendings[i] in {Enqueued(Delivered), QueueFull(None)})
              && (r.value.Some? ==> exists i | 0 <= i < |sendings| :: FailsWith(sendings[i], r.value.value))
              && (forall i, c | 0 <= i < |sendings| && FailsWith(sendings[i], c) :: Severity(c) <= Severity(r.value.value))
  {
    hide Worst, MergeFailureClass, Severity;
    forall i | 0 <= i < |sendings|
      ensures sendings[i].Failure().None? <==> sendings[i] in {Enqueued(Delivered), QueueFull(None), Enqueued(Cancelled)}
      ensures forall c :: sendings[i].Failure() == Some(c) <==> FailsWith(sendings[i], c)
    {
      FailureIs(sendings[i]);
    }
    hide FailsWith;
    if |sendings| == 1 {
      return Ok(sendings[0].Failure());
    }
    var failure: Option<FailureClass> := None;
    ghost var phases := BothPhases(sendings);
    NothingFailed();
    for i := 0 to |sendings|
      invariant Worst(phases[..i], failure)
    {
      MergeKeepsWorst(phases[..i], failure, AtSubmission(sendings[i]));
      assert phases[..i + 1] == phases[..i] + [phases[i]];
      match sendings[i] {
        case Enqueued(_) =>
        case QueueFull(sent) =>
          if sent.Some? {
            failure := Some(MergeFailureClass(failure, sent.value));
          }
        case Refused(c) => failure := Some(MergeFailureClass(failure, c));
      }
    }
    for i := 0 to |sendings|
      invariant Worst(phases[..|sendings| + i], failure)
      invariant forall j | 0 <= j < i :: !sendings[j].IsCancelled()
    {
      MergeKeepsWorst(phases[..|sendings| + i], failure, AtDelivery(sendings[i]));
      assert phases[..|sendings| + i + 1] == phases[..|sendings| + i] + [phases[|sendings| + i]];
      if sendings[i].Enqueued? {
        match sendings[i].delivery {
          case Delivered =>
          case Failed(c) => failure := Some(MergeFailureClass(failure, c));
          case Cancelled => return Err("cancelled");
        }
      }
    }
    assert phases[..2 * |sendings|] == phases;
    WorstOfBoth(sendings, failure);
    return Ok(failure);
  }

  lemma WorstOfBoth(sendings: seq<Sending>, kept: Option<FailureClass>)
    requires Worst(BothPhases(sendings), kept)
    ensures kept.None? <==> forall i | 0 <= i < |sendings| :: sendings[i].Failure().None?
    ensures kept.Some? ==> exists i | 0 <= i < |sendings| :: sendings[i].Failure() == kept
    ensures forall i | 0 <= i < |sendings| && sendings[i].Failure().Some? ::
              kept.Some? && Severity(sendings[i].Failure().value) <= Severity(kept.value)
  {
    var phases, n := BothPhases(sendings), |sendings|;
    forall i | 0 <= i < n && sendings[i].Failure().Some?
      ensures kept.Some? && Severity(sendings[i].Failure().value) <= Severity(kept.value)
    {
      assert phases[i] == AtSubmission(sendings[i]) && phases[n + i] == AtDelivery(sendings[i]);
    }
    if kept.Some? {
      var k :| 0 <= k < |phases| && phases[k] == kept;
      var i := if k < n then k else k - n;
      assert sendings[i].Failure() == kept;
    }
  }
}
