/** One lease from the leased batch to its last event: sort, cut, deliver, settle. */
module LeaseDelivery {
  import opened Wrappers
  import opened Text
  import Bags
  import opened Ndjson
  import opened Failures
  import BulkRetry
  import opened RowSerializer
  import opened Chunking
  import opened LeaseVerdict
  import opened ProcessLease
  import opened RowAccounting
  import opened Refusals
  import Sorting

  /** The leased rows behind positions of the batch in sorted order. */
  ghost function Leased(order: seq<nat>, positions: seq<nat>): seq<nat>
    requires InRange(positions, |order|)
  {
    Pick(order, positions)
  }

  /** Every leased row was quarantined or taken by the cluster: one of the two, and once. */
  ghost predicate Conserved(order: seq<nat>, events: seq<Event>, cut: Chunks, env: Surroundings) {
    var q, t := QuarantinedRows(events), TakenRows(cut, env, |order|);
    InRange(q, |order|) && InRange(t, |order|)
    && multiset(Leased(order, q)) + multiset(Leased(order, t)) == multiset(Upto(|order|))
  }

  /** The row at position `r` is neither quarantined nor taken exactly when some answer passes over it or
      its last item decides nothing. */
  ghost predicate LostIffLeftOpen(events: seq<Event>, cut: Chunks, env: Surroundings, r: nat) {
    !TakenByCluster(cut, env, r) && r !in QuarantinedRows(events) <==>
      Covers(cut.chunks, r)
      && var i := ChunkOf(cut, r);
         BulkRetry.AnyPassesOver(ChunkPosts(cut, env, i), r - cut.chunks[i].startRow) || LeftUndecided(cut, env, r)
  }

  /** The row at position `r` is quarantined exactly when it is oversized or the last answer about its own
      document refused it, and taken exactly when that answer accepted it or, with nothing said about it,
      the final answer reported no error. */
  ghost predicate FateIsOwn(rows: seq<string>, max: nat, events: seq<Event>, cut: Chunks, env: Surroundings, r: nat)
    requires r < |rows|
  {
    && (r in QuarantinedRows(events) <==> |rows[r]| > max || RefusedByAnswer(rows, cut, env, r))
    && (TakenByCluster(cut, env, r) <==>
          || AcceptedByAnswer(rows, cut, env, r)
          || (Covers(cut.chunks, r) && LastWord(cut, env, r).None? && NoErrorReported(cut, env, r)))
  }

  lemma DeliveredRows(rows: seq<string>, max: nat, cut: Chunks, env: Surroundings, dlqOk: bool, order: seq<nat>, events: seq<Event>)
    requires IsCut(rows, max, cut) && |order| == |rows| && multiset(order) == multiset(Upto(|order|))
    requires events == Events(cut, env, |rows|, dlqOk) && Acknowledged(events)
    ensures AnswersListEveryRow(cut, env) && AnswersDecide(cut, env) ==> Conserved(order, events, cut, env)
    ensures forall r | 0 <= r < |order| :: LostIffLeftOpen(events, cut, env, r)
    ensures AllDocuments(rows) ==> forall r | 0 <= r < |order| :: FateIsOwn(rows, max, events, cut, env, r)
  {
    hide IsCut, Acknowledged, Events, AnswersListEveryRow, AnswersDecide, QuarantinedRows, TakenByCluster, AllDocuments, FateIsOwn;
    if AnswersListEveryRow(cut, env) && AnswersDecide(cut, env) {
      RowsAreConserved(Upto(|order|), order, rows, max, cut, env, dlqOk);
    }
    forall r | 0 <= r < |order| ensures LostIffLeftOpen(events, cut, env, r) {
      RowIsLostIff(rows, max, cut, env, dlqOk, r);
    }
    if AllDocuments(rows) {
      forall r | 0 <= r < |order| ensures FateIsOwn(rows, max, events, cut, env, r) {
        OwnFate(rows, max, cut, env, dlqOk, events, r);
      }
    }
  }

  lemma OwnFate(rows: seq<string>, max: nat, cut: Chunks, env: Surroundings, dlqOk: bool, events: seq<Event>, r: nat)
    requires IsCut(rows, max, cut) && AllDocuments(rows) && r < |rows|
    requires events == Events(cut, env, |rows|, dlqOk) && Acknowledged(events)
    ensures FateIsOwn(rows, max, events, cut, env, r)
  {
    hide IsCut, Acknowledged, Events, QuarantinedRows, AllDocuments, LastWord, LastAnswer, NoErrorReported;
    QuarantineIsExact(rows, max, cut, env, dlqOk, r);
    if Covers(cut.chunks, r) {
      AnsweredIff(rows, max, cut, env, r);
    }
  }

  lemma NothingLeased(cut: Chunks, env: Surroundings)
    ensures Conserved([], [Ack], cut, env)
  {
    QuarantinedByOne(Ack);
    assert Leased([], []) == [] && Upto(0) == [];
  }

  /** Every leased row once, in the order of the sort columns when they resolve. */
  ghost predicate IsArrangement(order: seq<nat>, values: Sorting.Table, keys: seq<Sorting.SortKey>, skipMissing: bool)
    requires values.Valid()
  {
    var cols := Sorting.Resolve(values.names, Sorting.AllKeys(None, keys), skipMissing);
    && InRange(order, |values.rows|) && multiset(order) == multiset(Upto(|values.rows|))
    && (cols.Some? ==> Sorting.IsSortOrder(order, cols.value, values))
  }

  /** The sort columns resolve, unless there is nothing to sort, and every row serializes. */
  ghost predicate Preparable(names: seq<string>, batch: seq<seq<Cell>>, values: Sorting.Table, keys: seq<Sorting.SortKey>,
                             skipMissing: bool, unpack: bool)
    requires RowsMatchSchema(names, batch)
  {
    && (|batch| <= 1 || skipMissing || forall k | 0 <= k < |keys| :: keys[k].column in values.names)
    && forall r | 0 <= r < |batch| :: RowText(names, batch[r], unpack).Some?
  }

  lemma ResolvesIff(names: seq<string>, keys: seq<Sorting.SortKey>, skipMissing: bool)
    ensures Sorting.Resolve(names, Sorting.AllKeys(None, keys), skipMissing).Some? <==>
              skipMissing || forall k | 0 <= k < |keys| :: keys[k].column in names
  {
    assert Sorting.AllKeys(None, keys) == keys;
    forall k | 0 <= k < |keys| ensures keys[k].column in names <==> IndexOf(names, keys[k].column) < |names| {
      var i := IndexOf(names, keys[k].column);
      assert i < |names| ==> names[i] == keys[k].column;
    }
  }

  /** Reordering changes nothing about which rows serialize. */
  lemma SerializableInAnyOrder(names: seq<string>, batch: seq<seq<Cell>>, order: seq<nat>, unpack: bool)
    requires RowsMatchSchema(names, batch) && InRange(order, |batch|) && multiset(order) == multiset(Upto(|batch|))
    ensures AllSerializable(names, Pick(batch, order), unpack) <==>
              forall r | 0 <= r < |batch| :: RowText(names, batch[r], unpack).Some?
  {
    hide RowText;
    var sorted := Pick(batch, order);
    if AllSerializable(names, sorted, unpack) {
      forall r | 0 <= r < |batch| ensures RowText(names, batch[r], unpack).Some? {
        UptoContains(|batch|, r);
        var k := Bags.IndexIn(order, r);
        assert sorted[k] == batch[r];
      }
    }
  }

  /** The chunks are those of the texts of the rows in this order, all of which serialize. */
  ghost predicate CutFrom(order: seq<nat>, names: seq<string>, batch: seq<seq<Cell>>, unpack: bool, max: nat, cut: Chunks)
    requires RowsMatchSchema(names, batch)
  {
    && InRange(order, |batch|)
    && AllSerializable(names, Pick(batch, order), unpack)
    && IsCut(RowTexts(names, Pick(batch, order), unpack), max, cut)
  }

  /** When no written name has a line break, every row meets its own fate. */
  ghost predicate FatesAreOwn(order: seq<nat>, names: seq<string>, batch: seq<seq<Cell>>, unpack: bool, max: nat,
                              events: seq<Event>, cut: Chunks, env: Surroundings)
    requires RowsMatchSchema(names, batch) && InRange(order, |batch|)
  {
    var rows := RowTexts(names, Pick(batch, order), unpack);
    OneLineRows(names, batch) ==> forall r | 0 <= r < |rows| :: FateIsOwn(rows, max, events, cut, env, r)
  }

  lemma PickedRowsAreDocuments(order: seq<nat>, names: seq<string>, batch: seq<seq<Cell>>, unpack: bool)
    requires RowsMatchSchema(names, batch) && InRange(order, |batch|) && OneLineRows(names, batch)
    requires AllSerializable(names, Pick(batch, order), unpack)
    ensures AllDocuments(RowTexts(names, Pick(batch, order), unpack))
  {
    hide AllDocuments, RowTexts, OneLineWritten, AllSerializable;
    var sorted := Pick(batch, order);
    assert OneLineRows(names, sorted) by {
      forall r | 0 <= r < |sorted| ensures OneLineWritten(names, sorted[r]) {
        assert sorted[r] == batch[order[r]];
      }
    }
    RowsAreDocumentsIff(names, sorted, unpack);
  }

  /** Sorts and processes one lease. `values` are the leased rows as the sort sees them and `batch` the
      same rows as the serializer sees them. */
  method ProcessLeasedBatch(lease: Lease, names: seq<string>, batch: seq<seq<Cell>>, values: Sorting.Table,
                            keys: seq<Sorting.SortKey>, skipMissing: bool, unpack: bool, max: nat, env: Surroundings)
    returns (failed: bool, ghost order: seq<nat>, ghost cut: Chunks)
    requires values.Valid() && |values.rows| == |batch| == lease.numRows
    requires RowsMatchSchema(names, batch) && lease.events == []
    modifies lease
    ensures failed <==> Nack(Fatal) in lease.events
    ensures lease.numRows == 0 ==> lease.events == [Ack]
    ensures lease.numRows > 0 && !Preparable(names, batch, values, keys, skipMissing, unpack) ==> lease.events == [Nack(Fatal)]
    ensures lease.numRows > 0 && Preparable(names, batch, values, keys, skipMissing, unpack) ==>
              IsArrangement(order, values, keys, skipMissing) && CutFrom(order, names, batch, unpack, max, cut)
              && EventsAre(lease.events, cut, env, lease.dlqOk)
    ensures Acknowledged(lease.events) ==> IsArrangement(order, values, keys, skipMissing)
    ensures Acknowledged(lease.events) && lease.numRows > 0 ==> CutFrom(order, names, batch, unpack, max, cut)
    ensures Acknowledged(lease.events) && AnswersListEveryRow(cut, env) && AnswersDecide(cut, env) ==>
              Conserved(order, lease.events, cut, env)
    ensures Acknowledged(lease.events) ==> forall r | 0 <= r < |batch| :: LostIffLeftOpen(lease.events, cut, env, r)
    ensures Acknowledged(lease.events) && lease.numRows > 0 ==>
              InRange(order, |batch|) && FatesAreOwn(order, names, batch, unpack, max, lease.events, cut, env)
  {
    hide IsCut, QuarantinedRows, Conserved, LostIffLeftOpen, FateIsOwn, AnswersListEveryRow, AnswersDecide, OneLineRows, AllDocuments;
    hide EventsAre, AllSerializable, Sorting.Resolve, Verdict;
    ResolvesIff(values.names, keys, skipMissing);
    var sortedOrder := Sorting.SortOrder(values, None, keys, skipMissing);
    var sorted: Option<seq<seq<Cell>>> := None;
    order := [];
    if sortedOrder.Some? {
      order := sortedOrder.value;
      Bags.SameLength(order, Upto(|batch|));
      sorted := Some(Pick(batch, sortedOrder.value));
      SerializableInAnyOrder(names, batch, order, unpack);
    }
    failed, cut := Process(lease, names, sorted, unpack, max, env);
    EventsFollow(cut, env, lease.numRows, lease.dlqOk);
    if lease.numRows == 0 {
      NothingLeased(cut, env);
    } else if Acknowledged(lease.events) {
      DeliveredRows(RowTexts(names, sorted.value, unpack), max, cut, env, lease.dlqOk, order, lease.events);
      if OneLineRows(names, batch) {
        PickedRowsAreDocuments(order, names, batch, unpack);
      }
    }
  }
}
