/** What one lease comes to, as a function of its chunks and of what each chunk task came to.
    Completion order is not an argument: the sink's code is shown elsewhere to compute this
    function under every schedule. */
module LeaseVerdict {
  import opened BulkItems
  import opened Failures
  import opened BulkRetry
  import opened Chunking

  datatype TaskResult = Panicked | Finished(result: SendResult)

  /** What a lease reports to its buffer; rows are positions in the sorted batch. */
  datatype Event =
    | Ack
    | Nack(class_: FailureClass)
    | Quarantine(rows: seq<nat>)
    | QuarantineFailed(rows: seq<nat>)

  predicate AnyPanicked(results: seq<TaskResult>) {
    exists i | 0 <= i < |results| :: results[i].Panicked?
  }

  predicate AnyFailed(results: seq<TaskResult>) {
    exists i | 0 <= i < |results| :: IsFailure(results[i])
  }

  predicate IsFailure(r: TaskResult) {
    r.Finished? && r.result.Err?
  }

  predicate AllDelivered(results: seq<TaskResult>) {
    forall i | 0 <= i < |results| :: results[i].Finished? && results[i].result.Ok?
  }

  /** The highest severity among the failed tasks, 0 if none failed. */
  function WorstSeverity(results: seq<TaskResult>): (s: nat)
    ensures forall i | 0 <= i < |results| && IsFailure(results[i]) :: Severity(Classify(results[i].result.error)) <= s
    ensures s > 0 ==> exists i | 0 <= i < |results| :: IsFailure(results[i]) && Severity(Classify(results[i].result.error)) == s
    ensures s == 0 <==> !AnyFailed(results)
    ensures s <= 3
  {
    if results == [] then 0 else
    var last := |results| - 1;
    var before := WorstSeverity(results[..last]);
    if IsFailure(results[last]) && Severity(Classify(results[last].result.error)) > before
    then Severity(Classify(results[last].result.error)) else before
  }

  function ClassOf(severity: nat): FailureClass {
    if severity == 3 then Fatal else if severity == 2 then Rejected else Transient
  }

  predicate AnyRecoverable(results: seq<TaskResult>)
    requires AllDelivered(results)
  {
    exists i | 0 <= i < |results| :: results[i].result.value.HasRecoverable()
  }

  /** Rows of the first `upto` items that were refused for good. */
  function RefusedRows(startRow: nat, rowCount: nat, items: seq<BulkItemWrapper>, numRows: nat, upto: nat): (r: seq<nat>)
    requires upto <= |items|
  {
    if upto == 0 then [] else
    var before := RefusedRows(startRow, rowCount, items, numRows, upto - 1);
    if items[upto - 1].IsUnrecoverable() && upto - 1 < rowCount && startRow + (upto - 1) < numRows
    then before + [startRow + (upto - 1)] else before
  }

  function RefusedIn(c: BulkChunk, r: TaskResult, numRows: nat): seq<nat>
    requires r.Finished? && r.result.Ok?
  {
    RefusedRows(c.startRow, c.rowCount, r.result.value.items, numRows, |r.result.value.items|)
  }

  /** Refused rows of the first `n` chunks, in chunk order. */
  function RefusedUpto(chunks: seq<BulkChunk>, results: seq<TaskResult>, numRows: nat, n: nat): seq<nat>
    requires n <= |chunks| == |results| && AllDelivered(results)
  {
    if n == 0 then [] else RefusedUpto(chunks, results, numRows, n - 1) + RefusedIn(chunks[n - 1], results[n - 1], numRows)
  }

  /** Oversized rows that exist in the batch. */
  function OversizedRows(oversized: seq<OversizedRow>, numRows: nat): (r: seq<nat>)
  {
    if oversized == [] then [] else
    var last := |oversized| - 1;
    OversizedRows(oversized[..last], numRows) + (if oversized[last].row < numRows then [oversized[last].row] else [])
  }

  function RejectedRows(cut: Chunks, results: seq<TaskResult>, numRows: nat): seq<nat>
    requires |cut.chunks| == |results| && AllDelivered(results)
  {
    OversizedRows(cut.oversized, numRows) + RefusedUpto(cut.chunks, results, numRows, |cut.chunks|)
  }

  function Settlement(rejected: seq<nat>, dlqOk: bool): seq<Event> {
    if rejected == [] then [Ack]
    else if dlqOk then [Quarantine(rejected), Ack]
    else [QuarantineFailed(rejected), Nack(Fatal)]
  }

  /** The verdict on a lease. `closed` says that a permit could not be acquired because the
      semaphore was closed; `dlqOk` that the dead-letter store takes what it is given. */
  function Verdict(cut: Chunks, results: seq<TaskResult>, numRows: nat, closed: bool, dlqOk: bool): seq<Event>
    requires |cut.chunks| == |results|
  {
    if cut.chunks == [] then Settlement(OversizedRows(cut.oversized, numRows), dlqOk)
    else if closed then [Nack(Fatal)]
    else if AnyPanicked(results) then [Nack(Fatal)]
    else if AnyFailed(results) then [Nack(ClassOf(WorstSeverity(results)))]
    else if AnyRecoverable(results) then [Nack(Transient)]
    else Settlement(RejectedRows(cut, results, numRows), dlqOk)
  }

  predicate Acknowledged(events: seq<Event>) {
    Ack in events
  }

  function QuarantinedRows(events: seq<Event>): seq<nat> {
    if events == [] then [] else
    (match events[0] case Quarantine(rows) => rows case _ => []) + QuarantinedRows(events[1..])
  }

  /** The verdict is negative exactly when a permit or a task was lost, a chunk failed, a retryable
      item was left, or the dead-letter store failed; and then nothing counts as quarantined. */
  lemma NegativeVerdictQuarantinesNothing(cut: Chunks, results: seq<TaskResult>, numRows: nat, closed: bool, dlqOk: bool)
    requires |cut.chunks| == |results|
    ensures var events := Verdict(cut, results, numRows, closed, dlqOk);
            && (Acknowledged(events) <==> !exists i | 0 <= i < |events| :: events[i].Nack?)
            && (!Acknowledged(events) ==> QuarantinedRows(events) == [])
            && (cut.chunks != [] && (closed || AnyPanicked(results) || AnyFailed(results)) ==> !Acknowledged(events))
            && (cut.chunks != [] && AllDelivered(results) && AnyRecoverable(results) ==> !Acknowledged(events))
  {
    var events := Verdict(cut, results, numRows, closed, dlqOk);
    if |events| == 1 {
      QuarantinedByOne(events[0]);
      assert events == [events[0]];
    } else {
      QuarantinedByTwo(events[0], events[1]);
      assert events == [events[0], events[1]];
    }
  }

  lemma QuarantinedByOne(e: Event)
    ensures QuarantinedRows([e]) == if e.Quarantine? then e.rows else []
  {
    var none: seq<Event> := [];
    assert [e][1..] == none;
  }

  lemma QuarantinedByTwo(e: Event, f: Event)
    ensures QuarantinedRows([e, f]) == (if e.Quarantine? then e.rows else []) + (if f.Quarantine? then f.rows else [])
  {
    assert [e, f][1..] == [f];
    QuarantinedByOne(f);
  }
}
