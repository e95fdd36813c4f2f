/** The life of one lease in the Elasticsearch sink: prepare, dispatch, join, settle. */
module ProcessLease {
  import opened Wrappers
  import opened Bags
  import opened Failures
  import opened BulkRetry
  import opened RowSerializer
  import opened Chunking
  import opened LeaseVerdict
  import opened LeaseTasks

  /** A leased batch of rows; `events` is what its buffer gets to see. */
  class Lease {
    const numRows: nat
    const dlqOk: bool
    var events: seq<Event>

    constructor (numRows: nat, dlqOk: bool)
      ensures events == [] && this.numRows == numRows && this.dlqOk == dlqOk
    {
      this.numRows, this.dlqOk, events := numRows, dlqOk, [];
    }

    method Ack()
      modifies this
      ensures events == old(events) + [Event.Ack]
    {
      events := events + [Event.Ack];
    }

    method Nack(class_: FailureClass)
      modifies this
      ensures events == old(events) + [Event.Nack(class_)]
    {
      events := events + [Event.Nack(class_)];
    }

    method QuarantineBatches(rows: seq<nat>) returns (ok: bool)
      modifies this
      ensures ok == dlqOk
      ensures events == old(events) + [if ok then Quarantine(rows) else QuarantineFailed(rows)]
    {
      ok := dlqOk;
      events := events + [if ok then Quarantine(rows) else QuarantineFailed(rows)];
    }

    /** Hands rejected rows to the dead-letter store, then acknowledges. */
    method Settle(rejected: seq<nat>) returns (failed: bool)
      modifies this
      ensures events == old(events) + Settlement(rejected, dlqOk)
      ensures failed == (rejected != [] && !dlqOk)
    {
      if rejected != [] {
        var ok := QuarantineBatches(rejected);
        if !ok {
          Nack(Fatal);
          return true;
        }
      }
      Ack();
      return false;
    }
  }

  /** Everything outside the sink's control while a lease is processed: the cluster's answers to
      each chunk, which tasks panic and at which dispatches the semaphore is closed. */
  datatype Surroundings = Surroundings(servers: nat -> Server, panics: nat -> bool, closed: nat -> bool, maxRetries: nat)

  function ResultOf(chunks: seq<BulkChunk>, env: Surroundings, i: nat): TaskResult
    requires i < |chunks|
  {
    if env.panics(i) then Panicked else Finished(Deliver(chunks[i].payload, env.servers(i), env.maxRetries))
  }

  function ResultsOf(chunks: seq<BulkChunk>, env: Surroundings): (r: seq<TaskResult>)
    ensures |r| == |chunks|
    ensures forall i | 0 <= i < |r| :: r[i] == ResultOf(chunks, env, i)
  {
    seq(|chunks|, i requires 0 <= i < |chunks| => ResultOf(chunks, env, i))
  }

  ghost predicate AnyClosed(env: Surroundings, n: nat) {
    exists i: nat | i < n :: env.closed(i)
  }

  /** The chunks and oversized rows the serializer cuts the rows into. */
  ghost predicate IsCut(rows: seq<string>, max: nat, cut: Chunks) {
    && IsSplit(rows, max, cut.chunks, |rows|)
    && IsGreedy(rows, max, cut.chunks)
    && cut.oversized == Oversized(rows, max, |rows|)
  }

  /** A batch in sorted order that serializes; `None` stands for a failed sort. */
  predicate CanPrepare(names: seq<string>, sorted: Option<seq<seq<Cell>>>, unpack: bool)
    requires sorted.Some? ==> RowsMatchSchema(names, sorted.value)
  {
    sorted.Some? && AllSerializable(names, sorted.value, unpack)
  }

  lemma ChunkHasText(names: seq<string>, batch: seq<seq<Cell>>, unpack: bool, max: nat, cut: Chunks, i: nat)
    requires RowsMatchSchema(names, batch) && AllSerializable(names, batch, unpack)
    requires IsCut(RowTexts(names, batch, unpack), max, cut) && i < |cut.chunks|
    ensures cut.chunks[i].payload != "" && cut.chunks[i].rowCount > 0
  {
    var rows, c := RowTexts(names, batch, unpack), cut.chunks[i];
    RowTextNonEmpty(names, batch[c.startRow], unpack);
    FlattenLength(rows[c.startRow..c.End()], 0);
  }

  lemma ChunksAscend(rows: seq<string>, max: nat, cut: Chunks)
    requires IsCut(rows, max, cut)
    ensures forall i, j | 0 <= i < j < |cut.chunks| :: cut.chunks[i].startRow < cut.chunks[j].startRow
  {
  }

  method CollectOversized(oversized: seq<OversizedRow>, numRows: nat) returns (rejected: seq<nat>)
    ensures rejected == OversizedRows(oversized, numRows)
  {
    rejected := [];
    for i := 0 to |oversized|
      invariant rejected == OversizedRows(oversized[..i], numRows)
    {
      assert oversized[..i + 1][..i] == oversized[..i];
      if oversized[i].row < numRows {
        rejected := rejected + [oversized[i].row];
      }
    }
    assert oversized[..|oversized|] == oversized;
  }

  method CollectRefusedItems(o: ChunkOutcome, numRows: nat) returns (rejected: seq<nat>)
    ensures rejected == RefusedRows(o.startRow, o.rowCount, o.resp.items, numRows, |o.resp.items|)
  {
    rejected := [];
    for itemIdx := 0 to |o.resp.items|
      invariant rejected == RefusedRows(o.startRow, o.rowCount, o.resp.items, numRows, itemIdx)
    {
      if o.resp.items[itemIdx].IsUnrecoverable() {
        if itemIdx < o.rowCount {
          var rowIdx := o.startRow + itemIdx;
          if rowIdx < numRows {
            rejected := rejected + [rowIdx];
          }
        }
      }
    }
  }

  method CollectRefused(outcomes: seq<ChunkOutcome>, numRows: nat, ghost chunks: seq<BulkChunk>, ghost results: seq<TaskResult>)
    returns (rejected: seq<nat>)
    requires |chunks| == |results| && AllDelivered(results) && outcomes == Canonical(chunks, results)
    ensures rejected == RefusedUpto(chunks, results, numRows, |chunks|)
  {
    rejected := [];
    for i := 0 to |outcomes|
      invariant rejected == RefusedUpto(chunks, results, numRows, i)
    {
      var more := CollectRefusedItems(outcomes[i], numRows);
      rejected := rejected + more;
    }
  }

  method AnyOutcomeRecoverable(outcomes: seq<ChunkOutcome>) returns (r: bool)
    ensures r == exists i | 0 <= i < |outcomes| :: outcomes[i].resp.HasRecoverable()
  {
    for i := 0 to |outcomes|
      invariant forall j | 0 <= j < i :: !outcomes[j].resp.HasRecoverable()
    {
      if outcomes[i].resp.HasRecoverable() {
        return true;
      }
    }
    return false;
  }

  /** Spawns every chunk; `ok` unless a permit could not be had. Either way all spawned tasks are joined. */
  method DispatchAll(tasks: ChunkTasks, chunks: seq<BulkChunk>, env: Surroundings) returns (ok: bool)
    requires tasks.Valid() && tasks.spawned == 0 && tasks.joinSet == [] && tasks.chunks == chunks
    requires forall i | 0 <= i < |chunks| :: chunks[i].payload != "" && chunks[i].rowCount > 0
    modifies tasks
    ensures tasks.Valid() && tasks.joinSet == []
    ensures ok <==> !AnyClosed(env, |chunks|)
    ensures ok ==> tasks.spawned == |chunks|
  {
    for i := 0 to |chunks|
      invariant tasks.Valid() && tasks.spawned == i
      invariant !AnyClosed(env, i)
    {
      var dispatched := tasks.Dispatch(i, env.closed(i));
      if !dispatched {
        tasks.DrainJoinSet();
        return false;
      }
    }
    tasks.DrainJoinSet();
    return true;
  }

  lemma DeliveredUnless(results: seq<TaskResult>)
    requires !AnyPanicked(results) && !AnyFailed(results)
    ensures AllDelivered(results)
  {
    forall i | 0 <= i < |results| ensures results[i].Finished? && results[i].result.Ok? {
      assert !IsFailure(results[i]);
    }
  }

  /** Settles a lease whose chunk tasks have all been joined. */
  method Conclude(lease: Lease, tasks: ChunkTasks, cut: Chunks) returns (failed: bool)
    requires tasks.Valid() && tasks.joinSet == [] && tasks.spawned == |cut.chunks|
    requires tasks.chunks == cut.chunks && cut.chunks != [] && lease.events == []
    requires forall i, j | 0 <= i < j < |cut.chunks| :: cut.chunks[i].startRow < cut.chunks[j].startRow
    modifies lease
    ensures lease.events == Verdict(cut, tasks.results, lease.numRows, false, lease.dlqOk)
    ensures failed <==> Nack(Fatal) in lease.events
  {
    ghost var results, recorded := tasks.results, tasks.recorded;
    DrainedPanics(results, recorded);
    DrainedErrors(results, recorded, tasks.firstEsErr);
    if tasks.firstJoinErr {
      lease.Nack(Fatal);
      return true;
    }
    if tasks.firstEsErr.Some? {
      var class_ := Classify(tasks.firstEsErr.value);
      lease.Nack(class_);
      return class_ == Fatal;
    }
    DeliveredUnless(results);
    var outcomes := SortBy((o: ChunkOutcome) => o.startRow, tasks.outcomes);
    DrainedOutcomes(cut.chunks, results, recorded, outcomes);
    failed := SettleOutcomes(lease, cut, results, outcomes);
  }

  method SettleOutcomes(lease: Lease, cut: Chunks, ghost results: seq<TaskResult>, outcomes: seq<ChunkOutcome>) returns (failed: bool)
    requires |results| == |cut.chunks| && AllDelivered(results) && outcomes == Canonical(cut.chunks, results)
    requires cut.chunks != [] && lease.events == []
    modifies lease
    ensures lease.events == Verdict(cut, results, lease.numRows, false, lease.dlqOk)
    ensures failed <==> Nack(Fatal) in lease.events
  {
    var recoverable := AnyOutcomeRecoverable(outcomes);
    assert recoverable == AnyRecoverable(results);
    if recoverable {
      lease.Nack(Transient);
      return false;
    }
    var rejected := CollectOversized(cut.oversized, lease.numRows);
    var refused := CollectRefused(outcomes, lease.numRows, cut.chunks, results);
    failed := lease.Settle(rejected + refused);
  }

  method ProcessChunks(lease: Lease, cut: Chunks, env: Surroundings) returns (failed: bool)
    requires lease.events == []
    requires forall i | 0 <= i < |cut.chunks| :: cut.chunks[i].payload != "" && cut.chunks[i].rowCount > 0
    requires forall i, j | 0 <= i < j < |cut.chunks| :: cut.chunks[i].startRow < cut.chunks[j].startRow
    modifies lease
    ensures lease.events == Verdict(cut, ResultsOf(cut.chunks, env), lease.numRows, AnyClosed(env, |cut.chunks|), lease.dlqOk)
    ensures failed <==> Nack(Fatal) in lease.events
  {
    if cut.chunks == [] {
      var rejected := CollectOversized(cut.oversized, lease.numRows);
      failed := lease.Settle(rejected);
      return;
    }
    var tasks := new ChunkTasks(cut.chunks, ResultsOf(cut.chunks, env));
    var dispatched := DispatchAll(tasks, cut.chunks, env);
    if !dispatched {
      lease.Nack(Fatal);
      return true;
    }
    failed := Conclude(lease, tasks, cut);
  }

  /** Processes one lease. `sorted` is its batch after sorting, or `None` when sorting failed. The
      verdict is a function of the batch and the surroundings: no completion order appears in it. */
  method Process(lease: Lease, names: seq<string>, sorted: Option<seq<seq<Cell>>>, unpack: bool, max: nat, env: Surroundings)
    returns (failed: bool, ghost cut: Chunks)
    requires sorted.Some? ==> |sorted.value| == lease.numRows && RowsMatchSchema(names, sorted.value)
    requires lease.events == []
    modifies lease
    ensures lease.numRows == 0 ==> lease.events == [Ack]
    ensures lease.numRows > 0 && !CanPrepare(names, sorted, unpack) ==> lease.events == [Nack(Fatal)]
    ensures lease.numRows > 0 && CanPrepare(names, sorted, unpack) ==>
              && IsCut(RowTexts(names, sorted.value, unpack), max, cut)
              && lease.events == Verdict(cut, ResultsOf(cut.chunks, env), lease.numRows, AnyClosed(env, |cut.chunks|), lease.dlqOk)
    ensures failed <==> Nack(Fatal) in lease.events
  {
    cut := Chunks([], []);
    if lease.numRows == 0 {
      lease.Ack();
      return false, cut;
    }
    if sorted.None? {
      lease.Nack(Fatal);
      return true, cut;
    }
    var prepared := SerializeBatchChunks(names, sorted.value, unpack, max);
    if prepared.None? {
      lease.Nack(Fatal);
      return true, cut;
    }
    cut := prepared.value;
    forall i | 0 <= i < |cut.chunks| ensures cut.chunks[i].payload != "" && cut.chunks[i].rowCount > 0 {
      ChunkHasText(names, sorted.value, unpack, max, cut, i);
    }
    ChunksAscend(RowTexts(names, sorted.value, unpack), max, cut);
    failed := ProcessChunks(lease, prepared.value, env);
  }
}
