/** Cutting the serialized rows of a batch into byte-bounded bulk payloads. */
module Chunking {
  import opened Wrappers
  import opened Text
  import opened Ndjson
  import opened RowSerializer
  import opened TextBuffers

  datatype BulkChunk = BulkChunk(startRow: nat, rowCount: nat, payload: string)
  {
    function End(): nat { startRow + rowCount }
  }

  datatype OversizedRow = OversizedRow(row: nat, bytes: nat)

  predicate Fits(rows: seq<string>, max: nat, r: nat)
    requires r < |rows|
  {
    |rows[r]| <= max
  }

  /** A non-empty run of rows whose text fits. */
  ghost predicate ValidChunk(rows: seq<string>, max: nat, c: BulkChunk) {
    && 0 < c.rowCount && c.End() <= |rows|
    && c.payload == Flatten(rows[c.startRow..c.End()])
    && |c.payload| <= max
  }

  ghost predicate InOrder(chunks: seq<BulkChunk>) {
    forall i, j | 0 <= i < j < |chunks| :: chunks[i].End() <= chunks[j].startRow
  }

  ghost predicate Holds(c: BulkChunk, r: nat) {
    c.startRow <= r < c.End()
  }

  ghost predicate Covers(chunks: seq<BulkChunk>, r: nat) {
    exists i | 0 <= i < |chunks| :: Holds(chunks[i], r)
  }

  /** Chunks are bounded runs of rows, in row order and disjoint, holding every row below `upto` that fits. */
  ghost predicate IsSplit(rows: seq<string>, max: nat, chunks: seq<BulkChunk>, upto: nat)
    requires upto <= |rows|
  {
    && (forall i | 0 <= i < |chunks| :: ValidChunk(rows, max, chunks[i]) && chunks[i].End() <= upto)
    && InOrder(chunks)
    && (forall r | 0 <= r < upto && Fits(rows, max, r) :: Covers(chunks, r))
  }

  /** The row after the chunk does not fit into it. */
  ghost predicate IsFull(rows: seq<string>, max: nat, c: BulkChunk) {
    c.End() >= |rows| || |c.payload| + |rows[c.End()]| > max
  }

  ghost predicate IsGreedy(rows: seq<string>, max: nat, chunks: seq<BulkChunk>) {
    forall i | 0 <= i < |chunks| :: IsFull(rows, max, chunks[i])
  }

  /** The rows below `upto` that do not fit on their own, with their sizes. */
  function Oversized(rows: seq<string>, max: nat, upto: nat): (r: seq<OversizedRow>)
    requires upto <= |rows|
  {
    if upto == 0 then []
    else if Fits(rows, max, upto - 1) then Oversized(rows, max, upto - 1)
    else Oversized(rows, max, upto - 1) + [OversizedRow(upto - 1, |rows[upto - 1]|)]
  }

  lemma {:induction false} OversizedAreListed(rows: seq<string>, max: nat, upto: nat)
    requires upto <= |rows|
    ensures forall o <- Oversized(rows, max, upto) :: o.row < upto && |rows[o.row]| > max && o.bytes == |rows[o.row]|
    ensures forall k | 0 <= k < upto && !Fits(rows, max, k) :: OversizedRow(k, |rows[k]|) in Oversized(rows, max, upto)
    ensures forall i, j | 0 <= i < j < |Oversized(rows, max, upto)| ::
              Oversized(rows, max, upto)[i].row < Oversized(rows, max, upto)[j].row
  {
    if upto > 0 {
      OversizedAreListed(rows, max, upto - 1);
    }
  }

  // ---------------------------------------------------------------- lengths

  lemma {:induction false} FlattenLength(rows: seq<string>, k: nat)
    requires k < |rows|
    ensures |rows[k]| <= |Flatten(rows)|
  {
    if k > 0 {
      assert rows[1..][k - 1] == rows[k];
      FlattenLength(rows[1..], k - 1);
    }
  }

  /** A longer run of rows is not shorter in bytes. */
  lemma RunLength(rows: seq<string>, a: nat, b: nat, c: nat, d: nat)
    requires a <= b <= c <= d <= |rows|
    ensures |Flatten(rows[b..c])| <= |Flatten(rows[a..d])|
  {
    assert rows[a..d] == rows[a..b] + (rows[b..c] + rows[c..d]);
    FlattenAppend(rows[a..b], rows[b..c] + rows[c..d]);
    FlattenAppend(rows[b..c], rows[c..d]);
  }

  /** A row in a chunk fits, so oversized rows are in none. */
  lemma ChunkedRowFits(rows: seq<string>, max: nat, c: BulkChunk, r: nat)
    requires ValidChunk(rows, max, c) && Holds(c, r)
    ensures Fits(rows, max, r)
  {
    var run := rows[c.startRow..c.End()];
    assert run[r - c.startRow] == rows[r];
    FlattenLength(run, r - c.startRow);
  }

  /** Every row is in exactly one chunk or oversized, never both. */
  lemma RowsArePartitioned(rows: seq<string>, max: nat, chunks: seq<BulkChunk>, r: nat)
    requires IsSplit(rows, max, chunks, |rows|) && r < |rows|
    ensures |rows[r]| <= max <==> Covers(chunks, r)
    ensures |rows[r]| > max <==> OversizedRow(r, |rows[r]|) in Oversized(rows, max, |rows|)
    ensures forall i, j | 0 <= i < |chunks| && 0 <= j < |chunks| && Holds(chunks[i], r) && Holds(chunks[j], r) :: i == j
  {
    OversizedAreListed(rows, max, |rows|);
    if Covers(chunks, r) {
      var i :| 0 <= i < |chunks| && Holds(chunks[i], r);
      ChunkedRowFits(rows, max, chunks[i], r);
    }
  }

  // ---------------------------------------------------------------- optimality

  lemma NextStart(rows: seq<string>, max: nat, chunks: seq<BulkChunk>, k: nat, r: nat)
    requires IsSplit(rows, max, chunks, |rows|)
    requires k <= |chunks| && r < |rows| && Fits(rows, max, r)
    requires k > 0 ==> chunks[k - 1].End() <= r
    ensures k < |chunks| && chunks[k].startRow <= r
  {
    hide Fits, Flatten;
    assert Covers(chunks, r);
    var i :| 0 <= i < |chunks| && Holds(chunks[i], r);
    assert chunks[k].startRow <= chunks[i].startRow;
  }

  /** A full chunk reaches at least as far as any chunk that starts no later. */
  lemma FullReachesFurther(rows: seq<string>, max: nat, g: BulkChunk, o: BulkChunk)
    requires ValidChunk(rows, max, g) && IsFull(rows, max, g) && ValidChunk(rows, max, o)
    requires o.startRow <= g.startRow
    ensures o.End() <= g.End()
  {
    if g.End() < o.End() {
      RunLength(rows, o.startRow, g.startRow, g.End() + 1, o.End());
      assert rows[g.startRow..g.End() + 1] == rows[g.startRow..g.End()] + [rows[g.End()]];
      FlattenSnoc(rows[g.startRow..g.End()], rows[g.End()]);
      assert false;
    }
  }

  /** Greedy stays ahead: its k-th chunk ends no earlier than the k-th chunk of any split. */
  lemma {:induction false} GreedyStaysAhead(rows: seq<string>, max: nat, greedy: seq<BulkChunk>, other: seq<BulkChunk>, k: nat)
    requires IsSplit(rows, max, greedy, |rows|) && IsGreedy(rows, max, greedy)
    requires IsSplit(rows, max, other, |rows|)
    requires k < |greedy| && k < |other|
    ensures greedy[k].End() >= other[k].End()
    decreases k
  {
    hide Fits, IsFull;
    var g := greedy[k];
    if k > 0 {
      GreedyStaysAhead(rows, max, greedy, other, k - 1);
      assert greedy[k - 1].End() <= g.startRow;
    }
    ChunkedRowFits(rows, max, g, g.startRow);
    NextStart(rows, max, other, k, g.startRow);
    FullReachesFurther(rows, max, g, other[k]);
  }

  /** No split of the rows that fit into bounded runs uses fewer chunks. */
  lemma GreedyIsOptimal(rows: seq<string>, max: nat, greedy: seq<BulkChunk>, other: seq<BulkChunk>)
    requires IsSplit(rows, max, greedy, |rows|) && IsGreedy(rows, max, greedy)
    requires IsSplit(rows, max, other, |rows|)
    ensures |greedy| <= |other|
  {
    var n := |other|;
    if n < |greedy| {
      var r := greedy[n].startRow;
      ChunkedRowFits(rows, max, greedy[n], r);
      if n > 0 {
        GreedyStaysAhead(rows, max, greedy, other, n - 1);
      }
      NextStart(rows, max, other, n, r);
    }
  }

  lemma {:induction false} SameChunks(rows: seq<string>, max: nat, a: seq<BulkChunk>, b: seq<BulkChunk>, k: nat)
    requires IsSplit(rows, max, a, |rows|) && IsGreedy(rows, max, a)
    requires IsSplit(rows, max, b, |rows|) && IsGreedy(rows, max, b)
    requires k < |a| == |b|
    ensures a[k] == b[k]
  {
    hide IsGreedy, Fits;
    GreedyStaysAhead(rows, max, a, b, k);
    GreedyStaysAhead(rows, max, b, a, k);
    if k > 0 {
      GreedyStaysAhead(rows, max, a, b, k - 1);
      GreedyStaysAhead(rows, max, b, a, k - 1);
    }
    ChunkedRowFits(rows, max, a[k], a[k].startRow);
    ChunkedRowFits(rows, max, b[k], b[k].startRow);
    NextStart(rows, max, a, k, b[k].startRow);
    NextStart(rows, max, b, k, a[k].startRow);
  }

  /** There is one greedy split. */
  lemma GreedyIsUnique(rows: seq<string>, max: nat, a: seq<BulkChunk>, b: seq<BulkChunk>)
    requires IsSplit(rows, max, a, |rows|) && IsGreedy(rows, max, a)
    requires IsSplit(rows, max, b, |rows|) && IsGreedy(rows, max, b)
    ensures a == b
  {
    GreedyIsOptimal(rows, max, a, b);
    GreedyIsOptimal(rows, max, b, a);
    forall k | 0 <= k < |a| ensures a[k] == b[k] {
      SameChunks(rows, max, a, b, k);
    }
  }

  // ---------------------------------------------------------------- steps of the loop

  /** What the loop has done when it stands at `row`: sealed chunks up to `start`, and a current
      chunk holding rows `start..row`. */
  ghost predicate Progress(rows: seq<string>, max: nat, chunks: seq<BulkChunk>, start: nat, row: nat, current: string) {
    && start <= row <= |rows|
    && IsSplit(rows, max, chunks, start) && IsGreedy(rows, max, chunks)
    && current == Flatten(rows[start..row]) && |current| <= max
  }

  lemma StartProgress(rows: seq<string>, max: nat)
    ensures Progress(rows, max, [], 0, 0, "")
  {
    assert rows[0..0] == [];
  }

  lemma SealChunk(rows: seq<string>, max: nat, chunks: seq<BulkChunk>, start: nat, row: nat, current: string)
    requires Progress(rows, max, chunks, start, row, current) && start < row
    requires row == |rows| || |current| + |rows[row]| > max
    ensures Progress(rows, max, chunks + [BulkChunk(start, row - start, current)], row, row, "")
  {
    var c := BulkChunk(start, row - start, current);
    var sealed := chunks + [c];
    forall r | 0 <= r < row && Fits(rows, max, r) ensures Covers(sealed, r) {
      if r < start {
        assert Covers(chunks, r);
        var i :| 0 <= i < |chunks| && Holds(chunks[i], r);
        assert sealed[i] == chunks[i];
      } else {
        assert Holds(sealed[|chunks|], r);
      }
    }
    assert rows[row..row] == [];
  }

  lemma SkipRow(rows: seq<string>, max: nat, chunks: seq<BulkChunk>, row: nat)
    requires Progress(rows, max, chunks, row, row, "") && row < |rows| && !Fits(rows, max, row)
    ensures Progress(rows, max, chunks, row + 1, row + 1, "")
  {
    assert rows[row + 1..row + 1] == [];
  }

  lemma GrowChunk(rows: seq<string>, max: nat, chunks: seq<BulkChunk>, start: nat, row: nat, current: string)
    requires Progress(rows, max, chunks, start, row, current) && row < |rows|
    requires |current| + |rows[row]| <= max
    ensures Progress(rows, max, chunks, start, row + 1, current + rows[row])
  {
    assert rows[start..row + 1] == rows[start..row] + [rows[row]];
    FlattenSnoc(rows[start..row], rows[row]);
  }

  // ---------------------------------------------------------------- serialize_batch_chunks_internal

  datatype Chunks = Chunks(chunks: seq<BulkChunk>, oversized: seq<OversizedRow>)

  predicate RowsMatchSchema(names: seq<string>, batch: seq<seq<Cell>>) {
    forall r | 0 <= r < |batch| :: |batch[r]| == |names|
  }

  predicate SerializableUpto(names: seq<string>, batch: seq<seq<Cell>>, unpack: bool, upto: nat)
    requires RowsMatchSchema(names, batch) && upto <= |batch|
  {
    forall r | 0 <= r < upto :: RowText(names, batch[r], unpack).Some?
  }

  predicate AllSerializable(names: seq<string>, batch: seq<seq<Cell>>, unpack: bool)
    requires RowsMatchSchema(names, batch)
  {
    SerializableUpto(names, batch, unpack, |batch|)
  }

  /** The text of every row. */
  function RowTexts(names: seq<string>, batch: seq<seq<Cell>>, unpack: bool): (rows: seq<string>)
    requires RowsMatchSchema(names, batch)
    ensures |rows| == |batch|
    ensures forall r | 0 <= r < |batch| && RowText(names, batch[r], unpack).Some? ::
              rows[r] == RowText(names, batch[r], unpack).value
  {
    seq(|batch|, r requires 0 <= r < |batch| =>
      match RowText(names, batch[r], unpack) case Some(t) => t case None => "")
  }

  lemma RowTextNonEmpty(names: seq<string>, cells: seq<Cell>, unpack: bool)
    requires |names| == |cells| && RowText(names, cells, unpack).Some?
    ensures |RowText(names, cells, unpack).value| > 0
  {
  }

  /** Local variables of the loop: sealed chunks, oversized rows, and the current chunk. */
  datatype Cut = Cut(chunks: seq<BulkChunk>, oversized: seq<OversizedRow>, current: string, start: nat, count: nat)

  ghost predicate CutInv(rows: seq<string>, max: nat, row: nat, s: Cut) {
    && s.count <= row <= |rows|
    && (s.current == "" <==> s.count == 0)
    && (s.count > 0 ==> s.start == row - s.count)
    && Progress(rows, max, s.chunks, row - s.count, row, s.current)
    && s.oversized == Oversized(rows, max, row)
  }

  function Sealed(s: Cut): Cut {
    Cut(s.chunks + [BulkChunk(s.start, s.count, s.current)], s.oversized, "", s.start, 0)
  }

  lemma SealedKeepsInv(rows: seq<string>, max: nat, row: nat, s: Cut)
    requires CutInv(rows, max, row, s) && s.count > 0
    requires row == |rows| || |s.current| + |rows[row]| > max
    ensures CutInv(rows, max, row, Sealed(s))
  {
    var c := BulkChunk(s.start, s.count, s.current);
    SealChunk(rows, max, s.chunks, s.start, row, s.current);
    assert Sealed(s).chunks == s.chunks + [c] && c.rowCount == row - s.start;
    assert Progress(rows, max, s.chunks + [c], row, row, "");
  }

  lemma StartInv(rows: seq<string>, max: nat)
    ensures CutInv(rows, max, 0, Cut([], [], "", 0, 0))
  {
    StartProgress(rows, max);
  }

  lemma FinalInv(rows: seq<string>, max: nat, s: Cut)
    requires CutInv(rows, max, |rows|, s) && s.count == 0
    ensures IsSplit(rows, max, s.chunks, |rows|) && IsGreedy(rows, max, s.chunks)
    ensures s.oversized == Oversized(rows, max, |rows|)
  {
  }

  /** Seals the current chunk, unless it is empty. */
  method Seal(s: Cut, ghost rows: seq<string>, ghost max: nat, ghost row: nat) returns (s': Cut)
    requires CutInv(rows, max, row, s)
    requires row == |rows| || |s.current| + |rows[row]| > max
    ensures CutInv(rows, max, row, s') && s'.count == 0
  {
    if s.current == "" {
      return s;
    }
    SealedKeepsInv(rows, max, row, s);
    return Sealed(s);
  }

  /** The decision made for one serialized row. */
  method PlaceRow(s: Cut, text: string, max: nat, row: nat, ghost rows: seq<string>) returns (s': Cut)
    requires CutInv(rows, max, row, s)
    requires row < |rows| && text == rows[row] && text != ""
    ensures CutInv(rows, max, row + 1, s')
  {
    s' := s;
    if |text| > max {
      s' := Seal(s', rows, max, row);
      SkipRow(rows, max, s'.chunks, row);
      return s'.(oversized := s'.oversized + [OversizedRow(row, |text|)]);
    }
    if |s'.current| + |text| > max {
      s' := Seal(s', rows, max, row);
    }
    if s'.count == 0 {
      s' := s'.(start := row);
    }
    GrowChunk(rows, max, s'.chunks, s'.start, row, s'.current);
    s' := s'.(current := s'.current + text, count := s'.count + 1);
  }

  method SerializeRow(rowBuf: TextBuffer, names: seq<string>, batch: seq<seq<Cell>>, row: nat, unpack: bool)
    returns (ok: bool)
    requires RowsMatchSchema(names, batch) && row < |batch|
    modifies rowBuf
    ensures !ok ==> !AllSerializable(names, batch, unpack)
    ensures ok && SerializableUpto(names, batch, unpack, row) ==> SerializableUpto(names, batch, unpack, row + 1)
    ensures ok ==> rowBuf.text == RowTexts(names, batch, unpack)[row] && rowBuf.text != ""
  {
    ok := WriteRow(rowBuf, names, batch[row], unpack);
    if ok {
      RowTextNonEmpty(names, batch[row], unpack);
    }
  }

  method SerializeBatchChunks(names: seq<string>, batch: seq<seq<Cell>>, unpack: bool, max: nat)
    returns (r: Option<Chunks>)
    requires RowsMatchSchema(names, batch)
    ensures r.Some? <==> AllSerializable(names, batch, unpack)
    ensures r.Some? ==>
              var rows := RowTexts(names, batch, unpack);
              && IsSplit(rows, max, r.value.chunks, |rows|)
              && IsGreedy(rows, max, r.value.chunks)
              && r.value.oversized == Oversized(rows, max, |rows|)
  {
    var rowBuf := new TextBuffer();
    ghost var rows := RowTexts(names, batch, unpack);
    var s := Cut([], [], "", 0, 0);
    StartInv(rows, max);
    for row := 0 to |batch|
      invariant SerializableUpto(names, batch, unpack, row)
      invariant CutInv(rows, max, row, s)
    {
      var ok := SerializeRow(rowBuf, names, batch, row, unpack);
      if !ok {
        return None;
      }
      s := PlaceRow(s, rowBuf.text, max, row, rows);
    }
    s := Seal(s, rows, max, |rows|);
    FinalInv(rows, max, s);
    return Some(Chunks(s.chunks, s.oversized));
  }

  // ---------------------------------------------------------------- chunks against the extractor

  /** No name of a column that is written in some row has a line break. */
  ghost predicate OneLineRows(names: seq<string>, batch: seq<seq<Cell>>)
    requires RowsMatchSchema(names, batch)
  {
    forall r | 0 <= r < |batch| :: OneLineWritten(names, batch[r])
  }

  lemma RowsAreDocumentsIff(names: seq<string>, batch: seq<seq<Cell>>, unpack: bool)
    requires RowsMatchSchema(names, batch) && AllSerializable(names, batch, unpack)
    ensures AllDocuments(RowTexts(names, batch, unpack)) <==> OneLineRows(names, batch)
  {
    hide RowText, IsDocument, OneLineWritten;
    var rows := RowTexts(names, batch, unpack);
    forall r | 0 <= r < |batch| ensures IsDocument(rows[r]) <==> OneLineWritten(names, batch[r]) {
      RowIsADocumentIff(names, batch[r], unpack);
    }
  }

  /** The documents of a chunk are its rows, one each, and extracting the documents `indices` from
      it gives the exact bytes of rows `startRow + i`. */
  lemma ExtractFromChunk(rows: seq<string>, max: nat, c: BulkChunk, indices: seq<nat>)
    requires AllDocuments(rows) && ValidChunk(rows, max, c) && InRange(indices, c.rowCount)
    ensures EvenLines(c.payload) && Documents(c.payload) == rows[c.startRow..c.End()]
    ensures Extract(c.payload, indices) == Ok(Flatten(Pick(rows[c.startRow..c.End()], indices)))
    ensures forall k | 0 <= k < |indices| ::
              Pick(rows[c.startRow..c.End()], indices)[k] == rows[c.startRow + indices[k]]
  {
    var run := rows[c.startRow..c.End()];
    assert AllDocuments(run) by {
      forall k | 0 <= k < |run| ensures IsDocument(run[k]) {
        assert run[k] == rows[c.startRow + k];
      }
    }
    DocumentsOfFlatten(run);
    ExtractFromDocuments(run, indices);
  }
}
