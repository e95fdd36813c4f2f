/** End-to-end accounting of the rows of a lease: an index survives the cut into chunks, every retry
    of a retry, the merge of the answers and the slice handed to the dead-letter store. */
module RowAccounting {
  import opened Wrappers
  import opened Text
  import opened Bags
  import opened Ndjson
  import opened BulkItems
  import opened BulkRetry
  import opened RowSerializer
  import opened Chunking
  import opened LeaseVerdict
  import opened ProcessLease

  // ---------------------------------------------------------------- the right document

  ghost function ChunkPosts(cut: Chunks, env: Surroundings, i: nat): (posts: seq<Round>)
    requires i < |cut.chunks|
    ensures posts != []
  {
    Posts(cut.chunks[i].payload, env.servers(i), env.maxRetries)
  }

  /** What an aligned POST carries when the documents of the chunk are `rows`. */
  lemma AlignedDocuments(rows: seq<string>, start: nat, count: nat, payload: string, sent: string, active: seq<nat>)
    requires AllDocuments(rows) && start + count <= |rows|
    requires Documents(payload) == rows[start..start + count]
    requires InRange(active, count) && |Documents(sent)| == |active|
    requires forall j | 0 <= j < |active| :: Documents(sent)[j] == Terminated(Documents(payload)[active[j]])
    ensures forall j | 0 <= j < |active| :: Documents(sent)[j] == rows[start + active[j]]
  {
    forall j | 0 <= j < |active| ensures Documents(sent)[j] == rows[start + active[j]] {
      assert Documents(payload)[active[j]] == rows[start + active[j]];
      assert IsDocument(rows[start + active[j]]);
    }
  }

  /** The documents of a POST are all rows of the chunk, or those of its active documents, in order. */
  ghost predicate SendsRows(rows: seq<string>, c: BulkChunk, s: Loop) {
    if s.items == [] then c.End() <= |rows| && Documents(s.payload) == rows[c.startRow..c.End()]
    else
      && StrictlyIncreasing(s.active) && InRange(s.active, c.rowCount) && c.End() <= |rows|
      && |Documents(s.payload)| == |s.active|
      && forall j | 0 <= j < |s.active| :: Documents(s.payload)[j] == rows[c.startRow + s.active[j]]
  }

  /** In every POST for a chunk, the j-th document sent is exactly the text of row
      `startRow + active[j]` of the sorted batch, and each row is sent at most once. */
  lemma EveryPostSendsRows(rows: seq<string>, max: nat, c: BulkChunk, server: Server, maxRetries: nat, k: nat)
    requires AllDocuments(rows) && ValidChunk(rows, max, c)
    requires k < |Posts(c.payload, server, maxRetries)|
    ensures SendsRows(rows, c, Posts(c.payload, server, maxRetries)[k].before)
  {
    var s := Posts(c.payload, server, maxRetries)[k].before;
    var none: seq<nat> := [];
    ExtractFromChunk(rows, max, c, none);
    EveryPostIsAligned(c.payload, server, maxRetries, k);
    if s.items != [] {
      AlignedDocuments(rows, c.startRow, c.rowCount, c.payload, s.payload, s.active);
    }
  }

  /** The same for the rows of a sorted batch, whatever its strings contain, provided that written
      column names have no line breaks. */
  lemma EveryPostSendsBatchRows(names: seq<string>, batch: seq<seq<Cell>>, unpack: bool, max: nat, cut: Chunks,
                                env: Surroundings, i: nat, k: nat)
    requires RowsMatchSchema(names, batch) && OneLineRows(names, batch) && AllSerializable(names, batch, unpack)
    requires IsCut(RowTexts(names, batch, unpack), max, cut)
    requires i < |cut.chunks| && k < |ChunkPosts(cut, env, i)|
    ensures SendsRows(RowTexts(names, batch, unpack), cut.chunks[i], ChunkPosts(cut, env, i)[k].before)
  {
    hide RowTexts, SendsRows, OneLineRows, AllSerializable;
    RowsAreDocumentsIff(names, batch, unpack);
    EveryPostSendsRows(RowTexts(names, batch, unpack), max, cut.chunks[i], env.servers(i), env.maxRetries, k);
  }

  // ---------------------------------------------------------------- which rows are rejected

  /** An increasing list of rows below `bound`, namely those that `member` selects. */
  ghost predicate Lists(list: seq<nat>, bound: nat, member: nat -> bool) {
    StrictlyIncreasing(list) && forall r: nat :: r in list <==> r < bound && member(r)
  }

  lemma IncreasingSnoc(list: seq<nat>, last: nat)
    requires StrictlyIncreasing(list) && forall r: nat | r in list :: r < last
    ensures StrictlyIncreasing(list + [last])
  {
    assert forall k | 0 <= k < |list| :: list[k] in list;
  }

  lemma ListsNone(list: seq<nat>, bound: nat, member: nat -> bool)
    requires list == [] && forall r: nat | r < bound :: !member(r)
    ensures Lists(list, bound, member)
  {
  }

  lemma ListsSnoc(before: seq<nat>, bound: nat, member: nat -> bool, list: seq<nat>)
    requires Lists(before, bound, member)
    requires list == if member(bound) then before + [bound] else before
    ensures Lists(list, bound + 1, member)
  {
    IncreasingSnoc(before, bound);
  }

  lemma OversizedRowsStep(rows: seq<string>, max: nat, upto: nat)
    requires upto < |rows|
    ensures OversizedRows(Oversized(rows, max, upto + 1), |rows|)
         == var before := OversizedRows(Oversized(rows, max, upto), |rows|);
            if Fits(rows, max, upto) then before else before + [upto]
  {
    var before := Oversized(rows, max, upto);
    var all := before + [OversizedRow(upto, |rows[upto]|)];
    assert all[..|before|] == before;
  }

  ghost function IsOversized(rows: seq<string>, max: nat): nat -> bool {
    (r: nat) => r < |rows| && !Fits(rows, max, r)
  }

  lemma NoRowsYet(rows: seq<string>, max: nat)
    ensures OversizedRows(Oversized(rows, max, 0), |rows|) == []
  {
  }

  lemma {:induction false} OversizedRowsAre(rows: seq<string>, max: nat, upto: nat)
    requires upto <= |rows|
    ensures Lists(OversizedRows(Oversized(rows, max, upto), |rows|), upto, IsOversized(rows, max))
  {
    hide Lists, OversizedRows, Oversized, Fits;
    if upto == 0 {
      NoRowsYet(rows, max);
      ListsNone(OversizedRows(Oversized(rows, max, upto), |rows|), 0, IsOversized(rows, max));
    } else {
      OversizedRowsAre(rows, max, upto - 1);
      OversizedRowsStep(rows, max, upto - 1);
      ListsSnoc(OversizedRows(Oversized(rows, max, upto - 1), |rows|), upto - 1, IsOversized(rows, max),
                OversizedRows(Oversized(rows, max, upto), |rows|));
    }
  }

  /** Row `r` is document `r - startRow` of chunk `i`, whose final item refuses it. */
  ghost predicate RefusedBy(chunks: seq<BulkChunk>, results: seq<TaskResult>, i: nat, r: nat)
    requires |chunks| == |results| && AllDelivered(results)
  {
    && i < |chunks| && Holds(chunks[i], r)
    && var items := results[i].result.value.items;
    r - chunks[i].startRow < |items| && items[r - chunks[i].startRow].IsUnrecoverable()
  }

  /** Row `r` belongs to an item that refuses it for good. */
  ghost function RefusedItem(c: BulkChunk, items: seq<BulkItemWrapper>, numRows: nat): nat -> bool {
    (r: nat) => c.startRow <= r < c.startRow + |items| && r < c.End() && r < numRows && items[r - c.startRow].IsUnrecoverable()
  }

  lemma {:induction false} RefusedRowsAre(c: BulkChunk, items: seq<BulkItemWrapper>, numRows: nat, upto: nat)
    requires upto <= |items|
    ensures Lists(RefusedRows(c.startRow, c.rowCount, items, numRows, upto), c.startRow + upto, RefusedItem(c, items, numRows))
  {
    if upto == 0 {
      ListsNone(RefusedRows(c.startRow, c.rowCount, items, numRows, 0), c.startRow, RefusedItem(c, items, numRows));
    } else {
      RefusedRowsAre(c, items, numRows, upto - 1);
      var last := c.startRow + (upto - 1);
      assert last - c.startRow == upto - 1;
      assert RefusedItem(c, items, numRows)(last) <==> last < c.End() && last < numRows && items[last - c.startRow].IsUnrecoverable();
      ListsSnoc(RefusedRows(c.startRow, c.rowCount, items, numRows, upto - 1), c.startRow + (upto - 1), RefusedItem(c, items, numRows),
                RefusedRows(c.startRow, c.rowCount, items, numRows, upto));
    }
  }

  lemma RefusedInChunk(c: BulkChunk, result: TaskResult, numRows: nat, r: nat)
    requires result.Finished? && result.result.Ok? && c.End() <= numRows
    ensures StrictlyIncreasing(RefusedIn(c, result, numRows))
    ensures r in RefusedIn(c, result, numRows) <==>
            Holds(c, r) && r - c.startRow < |result.result.value.items|
            && result.result.value.items[r - c.startRow].IsUnrecoverable()
  {
    var items := result.result.value.items;
    RefusedRowsAre(c, items, numRows, |items|);
    assert RefusedItem(c, items, numRows)(r) <==> Holds(c, r) && r - c.startRow < |items| && items[r - c.startRow].IsUnrecoverable();
  }

  ghost function IsRefused(chunks: seq<BulkChunk>, results: seq<TaskResult>): nat -> bool
    requires |chunks| == |results| && AllDelivered(results)
  {
    (r: nat) => exists i: nat :: RefusedBy(chunks, results, i, r)
  }

  lemma IncreasingAppend(a: seq<nat>, b: seq<nat>, bound: nat)
    requires StrictlyIncreasing(a) && StrictlyIncreasing(b)
    requires forall r: nat | r in a :: r < bound
    requires forall r: nat | r in b :: bound <= r
    ensures StrictlyIncreasing(a + b)
  {
    assert forall k | 0 <= k < |a| :: a[k] in a;
    assert forall k | 0 <= k < |b| :: b[k] in b;
  }

  lemma ListsAppend(before: seq<nat>, middle: nat, more: seq<nat>, bound: nat, member: nat -> bool)
    requires Lists(before, middle, member) && middle <= bound && StrictlyIncreasing(more)
    requires forall r: nat :: r in more <==> middle <= r < bound && member(r)
    ensures Lists(before + more, bound, member)
  {
    IncreasingAppend(before, more, middle);
  }

  function EndOf(chunks: seq<BulkChunk>, n: nat): nat
    requires n <= |chunks|
  {
    if n == 0 then 0 else chunks[n - 1].End()
  }

  lemma RefusedOfChunk(rows: seq<string>, max: nat, chunks: seq<BulkChunk>, results: seq<TaskResult>, n: nat)
    requires IsSplit(rows, max, chunks, |rows|) && n < |chunks| == |results| && AllDelivered(results)
    ensures var more := RefusedIn(chunks[n], results[n], |rows|);
            && StrictlyIncreasing(more) && EndOf(chunks, n) <= EndOf(chunks, n + 1)
            && forall r: nat :: r in more <==> EndOf(chunks, n) <= r < EndOf(chunks, n + 1) && IsRefused(chunks, results)(r)
  {
    var more := RefusedIn(chunks[n], results[n], |rows|);
    RefusedInChunk(chunks[n], results[n], |rows|, 0);
    forall r: nat ensures r in more <==> EndOf(chunks, n) <= r < EndOf(chunks, n + 1) && IsRefused(chunks, results)(r) {
      RefusedInChunk(chunks[n], results[n], |rows|, r);
      if r in more {
        assert RefusedBy(chunks, results, n, r);
      }
      if EndOf(chunks, n) <= r < EndOf(chunks, n + 1) && IsRefused(chunks, results)(r) {
        var i: nat :| RefusedBy(chunks, results, i, r);
        assert i == n;
      }
    }
  }

  lemma {:induction false} RefusedUptoAre(rows: seq<string>, max: nat, chunks: seq<BulkChunk>, results: seq<TaskResult>, n: nat)
    requires IsSplit(rows, max, chunks, |rows|) && n <= |chunks| == |results| && AllDelivered(results)
    ensures Lists(RefusedUpto(chunks, results, |rows|, n), EndOf(chunks, n), IsRefused(chunks, results))
  {
    if n == 0 {
      ListsNone(RefusedUpto(chunks, results, |rows|, n), 0, IsRefused(chunks, results));
    } else {
      RefusedUptoAre(rows, max, chunks, results, n - 1);
      RefusedOfChunk(rows, max, chunks, results, n - 1);
      ListsAppend(RefusedUpto(chunks, results, |rows|, n - 1), EndOf(chunks, n - 1),
                  RefusedIn(chunks[n - 1], results[n - 1], |rows|), EndOf(chunks, n), IsRefused(chunks, results));
    }
  }

  // ---------------------------------------------------------------- acknowledged leases

  ghost predicate Distinct(s: seq<nat>) {
    forall i, j | 0 <= i < j < |s| :: s[i] != s[j]
  }

  lemma AcknowledgedMeans(cut: Chunks, results: seq<TaskResult>, numRows: nat, closed: bool, dlqOk: bool)
    requires |cut.chunks| == |results|
    requires Acknowledged(Verdict(cut, results, numRows, closed, dlqOk))
    ensures AllDelivered(results) && !AnyRecoverable(results)
    ensures QuarantinedRows(Verdict(cut, results, numRows, closed, dlqOk)) == RejectedRows(cut, results, numRows)
  {
    if cut.chunks != [] {
      DeliveredUnless(results);
    }
    var rejected := RejectedRows(cut, results, numRows);
    assert cut.chunks == [] ==> rejected == OversizedRows(cut.oversized, numRows);
    if rejected == [] {
      QuarantinedByOne(Ack);
    } else {
      QuarantinedByTwo(Quarantine(rejected), Ack);
    }
  }

  /** The chunk row `r` travels in; only rows that fit have one. */
  ghost function ChunkOf(cut: Chunks, r: nat): (i: nat)
    requires Covers(cut.chunks, r)
    ensures i < |cut.chunks| && Holds(cut.chunks[i], r)
  {
    var i: nat :| i < |cut.chunks| && Holds(cut.chunks[i], r);
    i
  }

  /** The last thing the cluster said about row `r`. */
  ghost function LastWord(cut: Chunks, env: Surroundings, r: nat): Option<BulkItemWrapper>
    requires Covers(cut.chunks, r)
  {
    var i := ChunkOf(cut, r);
    LastReport(ChunkPosts(cut, env, i), r - cut.chunks[i].startRow)
  }

  /** The final answer for the chunk of row `r` reports no error at all and was not inspected. */
  ghost predicate NoErrorReported(cut: Chunks, env: Surroundings, r: nat)
    requires Covers(cut.chunks, r)
  {
    var posts := ChunkPosts(cut, env, ChunkOf(cut, r));
    TakenUnchecked(posts[|posts| - 1])
  }

  /** The cluster took row `r`: it said so last, or it ended with an answer free of errors that
      does not list the row. */
  ghost predicate TakenByCluster(cut: Chunks, env: Surroundings, r: nat) {
    && Covers(cut.chunks, r)
    && match LastWord(cut, env, r)
       case Some(item) => item.IsAccepted()
       case None => NoErrorReported(cut, env, r)
  }

  /** The last word on row `r` is neither a success nor a failure. */
  ghost predicate LeftUndecided(cut: Chunks, env: Surroundings, r: nat)
    requires Covers(cut.chunks, r)
  {
    LastWord(cut, env, r).Some? && LastWord(cut, env, r).value.IsUndecided()
  }

  /** Row `r` was sent, but its fate is open: its last word decides nothing, or nothing was ever said
      about it in answers that do report errors. */
  ghost predicate LeftOpen(cut: Chunks, env: Surroundings, r: nat) {
    Covers(cut.chunks, r) && (LeftUndecided(cut, env, r) || (LastWord(cut, env, r).None? && !NoErrorReported(cut, env, r)))
  }

  ghost function Events(cut: Chunks, env: Surroundings, numRows: nat, dlqOk: bool): seq<Event> {
    Verdict(cut, ResultsOf(cut.chunks, env), numRows, AnyClosed(env, |cut.chunks|), dlqOk)
  }

  lemma LastWordIsFinalItem(cut: Chunks, env: Surroundings, r: nat)
    requires Covers(cut.chunks, r) && AllDelivered(ResultsOf(cut.chunks, env))
    ensures var i := ChunkOf(cut, r);
            LastWord(cut, env, r) == ItemAt(ResultsOf(cut.chunks, env)[i].result.value.items, r - cut.chunks[i].startRow)
  {
    var i := ChunkOf(cut, r);
    assert ResultsOf(cut.chunks, env)[i] == Finished(Deliver(cut.chunks[i].payload, env.servers(i), env.maxRetries));
    ResultIsLatest(cut.chunks[i].payload, env.servers(i), env.maxRetries, r - cut.chunks[i].startRow);
  }

  lemma RejectedAre(rows: seq<string>, max: nat, cut: Chunks, results: seq<TaskResult>)
    requires IsCut(rows, max, cut) && |cut.chunks| == |results| && AllDelivered(results)
    ensures Distinct(RejectedRows(cut, results, |rows|))
    ensures forall r: nat :: r in RejectedRows(cut, results, |rows|) <==>
              IsOversized(rows, max)(r) || IsRefused(cut.chunks, results)(r)
  {
    var o, f := OversizedRows(cut.oversized, |rows|), RefusedUpto(cut.chunks, results, |rows|, |cut.chunks|);
    OversizedRowsAre(rows, max, |rows|);
    RefusedUptoAre(rows, max, cut.chunks, results, |cut.chunks|);
    forall r: nat | IsRefused(cut.chunks, results)(r)
      ensures r in f && r !in o
    {
      var i: nat :| RefusedBy(cut.chunks, results, i, r);
      ChunkedRowFits(rows, max, cut.chunks[i], r);
    }
    DistinctAppend(o, f);
  }

  lemma DistinctAppend(a: seq<nat>, b: seq<nat>)
    requires StrictlyIncreasing(a) && StrictlyIncreasing(b)
    requires forall r: nat | r in b :: r !in a
    ensures Distinct(a + b)
  {
    assert forall k | 0 <= k < |a| :: a[k] in a;
    assert forall k | 0 <= k < |b| :: b[k] in b;
  }

  lemma RefusedIsLastWord(rows: seq<string>, max: nat, cut: Chunks, env: Surroundings, r: nat)
    requires IsCut(rows, max, cut) && r < |rows| && AllDelivered(ResultsOf(cut.chunks, env))
    ensures IsRefused(cut.chunks, ResultsOf(cut.chunks, env))(r) <==>
            Covers(cut.chunks, r) && LastWord(cut, env, r).Some? && LastWord(cut, env, r).value.IsUnrecoverable()
  {
    var results := ResultsOf(cut.chunks, env);
    RowsArePartitioned(rows, max, cut.chunks, r);
    if Covers(cut.chunks, r) {
      LastWordIsFinalItem(cut, env, r);
      var k := ChunkOf(cut, r);
      assert RefusedBy(cut.chunks, results, k, r) <==> LastWord(cut, env, r).Some? && LastWord(cut, env, r).value.IsUnrecoverable();
      forall i: nat | RefusedBy(cut.chunks, results, i, r) ensures i == k {
      }
    }
  }

  // ---------------------------------------------------------------- the document behind an item

  /** Item `j` of the answer to POST `k` for the chunk of row `r` is about that row: the j-th document of
      that POST is the row's text, and no later answer speaks of the row. */
  ghost predicate IsLastAnswer(rows: seq<string>, cut: Chunks, env: Surroundings, r: nat, k: nat, j: nat)
    requires Covers(cut.chunks, r) && r < |rows|
  {
    var i := ChunkOf(cut, r);
    var posts := ChunkPosts(cut, env, i);
    && SpeaksLast(posts, k, j, r - cut.chunks[i].startRow)
    && j < |Documents(posts[k].before.payload)| && Documents(posts[k].before.payload)[j] == rows[r]
  }

  /** The last answer about the document of row `r` is `item`. */
  ghost predicate LastAnswer(rows: seq<string>, cut: Chunks, env: Surroundings, r: nat, item: BulkItemWrapper)
    requires Covers(cut.chunks, r) && r < |rows|
  {
    exists k: nat, j: nat ::
      && IsLastAnswer(rows, cut, env, r, k, j)
      && ChunkPosts(cut, env, ChunkOf(cut, r))[k].outcome.body.value.items[j] == item
  }

  lemma PostsIncrease(payload: string, server: Server, maxRetries: nat)
    ensures forall k | 0 <= k < |Posts(payload, server, maxRetries)| ::
              StrictlyIncreasing(Posts(payload, server, maxRetries)[k].before.active)
  {
    forall k | 0 <= k < |Posts(payload, server, maxRetries)|
      ensures StrictlyIncreasing(Posts(payload, server, maxRetries)[k].before.active)
    {
      InvInRound(payload, Start(payload), server, maxRetries, k);
    }
  }

  /** An item about a row of the chunk stands where that row's text stands in the payload. */
  lemma ItemMeetsDocument(rows: seq<string>, c: BulkChunk, p: Round, j: nat, r: nat)
    requires SendsRows(rows, c, p.before) && c.startRow <= r < c.End()
    requires SpeaksOf(p, j, r - c.startRow)
    ensures r < |rows| && j < |Documents(p.before.payload)| && Documents(p.before.payload)[j] == rows[r]
  {
  }

  /** When every row is one document, the last word on a row is the item of the last answer whose
      document, at the item's place, is the text of that very row. */
  lemma LastWordIsLastAnswer(rows: seq<string>, max: nat, cut: Chunks, env: Surroundings, r: nat, item: BulkItemWrapper)
    requires AllDocuments(rows) && IsCut(rows, max, cut) && r < |rows| && Covers(cut.chunks, r)
    ensures LastWord(cut, env, r) == Some(item) <==> LastAnswer(rows, cut, env, r, item)
  {
    hide Posts, LastReport, SendsRows, SpeaksOf, SpeaksLast, Documents;
    var i := ChunkOf(cut, r);
    var c := cut.chunks[i];
    var posts := ChunkPosts(cut, env, i);
    var d := r - c.startRow;
    PostsIncrease(c.payload, env.servers(i), env.maxRetries);
    LastReportIff(posts, d, item);
    forall k: nat, j: nat | SpeaksLast(posts, k, j, d) ensures IsLastAnswer(rows, cut, env, r, k, j) {
      SpeaksLastIsInPosts(posts, k, j, d);
      EveryPostSendsRows(rows, max, c, env.servers(i), env.maxRetries, k);
      ItemMeetsDocument(rows, c, posts[k], j, r);
    }
  }

  lemma SpeaksLastIsInPosts(posts: seq<Round>, k: nat, j: nat, d: nat)
    requires SpeaksLast(posts, k, j, d)
    ensures k < |posts| && SpeaksOf(posts[k], j, d)
  {
  }

  /** The cluster refused the document of row `r` for good, in the last answer about it. */
  ghost predicate RefusedByAnswer(rows: seq<string>, cut: Chunks, env: Surroundings, r: nat)
    requires r < |rows|
  {
    Covers(cut.chunks, r) && exists item :: LastAnswer(rows, cut, env, r, item) && item.IsUnrecoverable()
  }

  /** The cluster accepted the document of row `r`, in the last answer about it. */
  ghost predicate AcceptedByAnswer(rows: seq<string>, cut: Chunks, env: Surroundings, r: nat)
    requires r < |rows|
  {
    Covers(cut.chunks, r) && exists item :: LastAnswer(rows, cut, env, r, item) && item.IsAccepted()
  }

  lemma AnsweredIff(rows: seq<string>, max: nat, cut: Chunks, env: Surroundings, r: nat)
    requires AllDocuments(rows) && IsCut(rows, max, cut) && r < |rows| && Covers(cut.chunks, r)
    ensures RefusedByAnswer(rows, cut, env, r) <==> LastWord(cut, env, r).Some? && LastWord(cut, env, r).value.IsUnrecoverable()
    ensures AcceptedByAnswer(rows, cut, env, r) <==> LastWord(cut, env, r).Some? && LastWord(cut, env, r).value.IsAccepted()
  {
    hide LastWord, LastAnswer, IsCut, AllDocuments;
    forall item ensures LastWord(cut, env, r) == Some(item) <==> LastAnswer(rows, cut, env, r, item) {
      LastWordIsLastAnswer(rows, max, cut, env, r, item);
    }
  }

  // ---------------------------------------------------------------- acknowledged leases, row by row

  /** An acknowledged lease quarantined exactly the oversized rows and those whose last word is
      unrecoverable, none of them twice; and when every row is one document, that word is the last
      answer about the row's own document. */
  lemma QuarantineIsExact(rows: seq<string>, max: nat, cut: Chunks, env: Surroundings, dlqOk: bool, r: nat)
    requires IsCut(rows, max, cut) && r < |rows|
    requires Acknowledged(Events(cut, env, |rows|, dlqOk))
    ensures Distinct(QuarantinedRows(Events(cut, env, |rows|, dlqOk)))
    ensures r in QuarantinedRows(Events(cut, env, |rows|, dlqOk)) <==>
            |rows[r]| > max || (Covers(cut.chunks, r) && LastWord(cut, env, r).Some? && LastWord(cut, env, r).value.IsUnrecoverable())
    ensures AllDocuments(rows) ==>
              (r in QuarantinedRows(Events(cut, env, |rows|, dlqOk)) <==> |rows[r]| > max || RefusedByAnswer(rows, cut, env, r))
  {
    hide AllDocuments, LastWord, RefusedByAnswer;
    if AllDocuments(rows) && Covers(cut.chunks, r) {
      AnsweredIff(rows, max, cut, env, r);
    }
    if RefusedByAnswer(rows, cut, env, r) {
      RefusedWasSent(rows, cut, env, r);
    }
    var results := ResultsOf(cut.chunks, env);
    AcknowledgedMeans(cut, results, |rows|, AnyClosed(env, |cut.chunks|), dlqOk);
    RejectedAre(rows, max, cut, results);
    RefusedIsLastWord(rows, max, cut, env, r);
  }

  lemma RefusedWasSent(rows: seq<string>, cut: Chunks, env: Surroundings, r: nat)
    requires r < |rows| && RefusedByAnswer(rows, cut, env, r)
    ensures Covers(cut.chunks, r)
  {
  }

  predicate ExactlyOne(a: bool, b: bool, c: bool) {
    (a && !b && !c) || (!a && b && !c) || (!a && !b && c)
  }

  lemma LastWordIsNotRecoverable(cut: Chunks, env: Surroundings, r: nat)
    requires Covers(cut.chunks, r)
    requires AllDelivered(ResultsOf(cut.chunks, env)) && !AnyRecoverable(ResultsOf(cut.chunks, env))
    ensures LastWord(cut, env, r).Some? ==> !LastWord(cut, env, r).value.IsRecoverable()
  {
    LastWordIsFinalItem(cut, env, r);
    var i := ChunkOf(cut, r);
    assert !ResultsOf(cut.chunks, env)[i].result.value.HasRecoverable();
  }

  /** Every row of an acknowledged batch is exactly one of: quarantined, taken by the cluster, or left
      open by the answers. */
  lemma EveryRowIsAccountedFor(rows: seq<string>, max: nat, cut: Chunks, env: Surroundings, dlqOk: bool, r: nat)
    requires IsCut(rows, max, cut) && r < |rows|
    requires Acknowledged(Events(cut, env, |rows|, dlqOk))
    ensures ExactlyOne(r in QuarantinedRows(Events(cut, env, |rows|, dlqOk)), TakenByCluster(cut, env, r), LeftOpen(cut, env, r))
  {
    AcknowledgedMeans(cut, ResultsOf(cut.chunks, env), |rows|, AnyClosed(env, |cut.chunks|), dlqOk);
    QuarantineIsExact(rows, max, cut, env, dlqOk, r);
    RowsArePartitioned(rows, max, cut.chunks, r);
    if Covers(cut.chunks, r) {
      LastWordIsNotRecoverable(cut, env, r);
    }
  }

  /** The first flagged answer for a chunk lists every document of the chunk. */
  ghost predicate AnswersListEveryRow(cut: Chunks, env: Surroundings) {
    forall i | 0 <= i < |cut.chunks| :: AllListed(ChunkPosts(cut, env, i), cut.chunks[i].rowCount)
  }

  /** Every item of every answer is a success or a failure. */
  ghost predicate AnswersDecide(cut: Chunks, env: Surroundings) {
    forall i | 0 <= i < |cut.chunks| :: AllDecided(ChunkPosts(cut, env, i))
  }

  /** With the cluster's promises that an answer flagged with errors lists every document, and that every
      item is a success or a failure, no row of an acknowledged batch is lost: each is either taken or
      quarantined, never both. */
  lemma NoRowIsLost(rows: seq<string>, max: nat, cut: Chunks, env: Surroundings, dlqOk: bool, r: nat)
    requires IsCut(rows, max, cut) && r < |rows|
    requires Acknowledged(Events(cut, env, |rows|, dlqOk))
    requires AnswersListEveryRow(cut, env) && AnswersDecide(cut, env)
    ensures TakenByCluster(cut, env, r) <==> r !in QuarantinedRows(Events(cut, env, |rows|, dlqOk))
  {
    hide IsCut, Acknowledged, Events, TakenByCluster, QuarantinedRows, AnyPassesOver, AllListed, LastWord;
    EveryRowIsAccountedFor(rows, max, cut, env, dlqOk, r);
    RowIsLostIff(rows, max, cut, env, dlqOk, r);
    if Covers(cut.chunks, r) {
      var i := ChunkOf(cut, r);
      ListedIsNotPassedOver(ChunkPosts(cut, env, i), cut.chunks[i].rowCount, r - cut.chunks[i].startRow);
      DecidedIsNotLeftOpen(cut, env, r);
    }
  }

  lemma ListedIsNotPassedOver(rounds: seq<Round>, n: nat, d: nat)
    requires AllListed(rounds, n) && d < n
    ensures !AnyPassesOver(rounds, d)
  {
    assert forall k | 0 <= k < |rounds| :: ListsAll(rounds[k], n);
  }

  lemma DecidedIsNotLeftOpen(cut: Chunks, env: Surroundings, r: nat)
    requires Covers(cut.chunks, r) && AnswersDecide(cut, env)
    ensures !LeftUndecided(cut, env, r)
  {
    hide LastReport, Posts;
    if LastWord(cut, env, r).Some? {
      var i := ChunkOf(cut, r);
      LastReportDecides(ChunkPosts(cut, env, i), r - cut.chunks[i].startRow);
    }
  }

  // ---------------------------------------------------------------- when rows are lost

  /** Without those promises a row of an acknowledged batch is lost, neither taken nor quarantined,
      exactly when the first decodable answer to its chunk flagged errors and listed too few items
      to reach the row, or the last item about it is neither a success nor a failure. */
  lemma RowIsLostIff(rows: seq<string>, max: nat, cut: Chunks, env: Surroundings, dlqOk: bool, r: nat)
    requires IsCut(rows, max, cut) && r < |rows|
    requires Acknowledged(Events(cut, env, |rows|, dlqOk))
    ensures !TakenByCluster(cut, env, r) && r !in QuarantinedRows(Events(cut, env, |rows|, dlqOk)) <==>
            && Covers(cut.chunks, r)
            && var i := ChunkOf(cut, r);
               AnyPassesOver(ChunkPosts(cut, env, i), r - cut.chunks[i].startRow) || LeftUndecided(cut, env, r)
  {
    AcknowledgedMeans(cut, ResultsOf(cut.chunks, env), |rows|, AnyClosed(env, |cut.chunks|), dlqOk);
    EveryRowIsAccountedFor(rows, max, cut, env, dlqOk, r);
    if Covers(cut.chunks, r) {
      var i := ChunkOf(cut, r);
      LastWordIsFinalItem(cut, env, r);
      assert ResultsOf(cut.chunks, env)[i] == Finished(Deliver(cut.chunks[i].payload, env.servers(i), env.maxRetries));
      ResultMissesIff(cut.chunks[i].payload, env.servers(i), env.maxRetries, r - cut.chunks[i].startRow);
    }
  }

  predicate ItemsUndecided(items: seq<BulkItemWrapper>) {
    forall j | 0 <= j < |items| :: items[j].IsUndecided()
  }

  lemma {:induction false} NothingToRetry(items: seq<BulkItemWrapper>, active: seq<nat>)
    requires ItemsUndecided(items)
    ensures RecoverablePositions(items, active) == []
    decreases |active|
  {
    if active != [] {
      NothingToRetry(items, active[..|active| - 1]);
    }
  }

  lemma NothingUnrecoverable(items: seq<BulkItemWrapper>)
    requires ItemsUndecided(items)
    ensures !HasUnrecoverable(items) && !BulkResponse(false, items).HasRecoverable()
  {
  }

  /** A first answer that flags errors but decides nothing ends the delivery at once. */
  lemma UndecidedAnswer(payload: string, server: Server, maxRetries: nat, items: seq<BulkItemWrapper>)
    requires server(0) == Response(200, "OK", "", Some(BulkResponse(true, items)))
    requires ItemsUndecided(items)
    ensures Deliver(payload, server, maxRetries) == Ok(BulkResponse(false, items))
    ensures Posts(payload, server, maxRetries) == [Round(Start(payload), server(0))]
  {
    hide Rounds, Outcome, Extract, HasUnrecoverable, RecoverablePositions, Upto, Merge;
    NothingUnrecoverable(items);
    NothingToRetry(items, Upto(|items|));
    assert React(Start(payload), server(0), maxRetries) == Done(Ok(BulkResponse(false, items)));
    UnfoldRound(Start(payload), server, maxRetries);
  }

  /** Every chunk's first answer flags errors and holds these items. */
  ghost predicate AnswersAre(cut: Chunks, env: Surroundings, itemsOf: nat -> seq<BulkItemWrapper>) {
    && (forall i: nat | i < |cut.chunks| :: env.servers(i)(0) == Response(200, "OK", "", Some(BulkResponse(true, itemsOf(i)))))
    && forall i: nat :: !env.panics(i) && !env.closed(i)
  }

  /** Whatever the batch: when every first answer flags errors and none of its items decides anything, the
      sink acknowledges the lease while losing every row that fits into a chunk. */
  lemma UndecidedAnswersLoseEveryRow(rows: seq<string>, max: nat, cut: Chunks, env: Surroundings, r: nat,
                                     itemsOf: nat -> seq<BulkItemWrapper>)
    requires IsCut(rows, max, cut) && AnswersAre(cut, env, itemsOf)
    requires forall i: nat :: ItemsUndecided(itemsOf(i))
    requires r < |rows| && Fits(rows, max, r)
    ensures Acknowledged(Events(cut, env, |rows|, true))
    ensures !TakenByCluster(cut, env, r) && r !in QuarantinedRows(Events(cut, env, |rows|, true))
  {
    hide Deliver, Posts, Verdict, QuarantinedRows, React;
    var results := ResultsOf(cut.chunks, env);
    forall i | 0 <= i < |cut.chunks| ensures results[i] == Finished(Ok(BulkResponse(false, itemsOf(i)))) {
      UndecidedAnswer(cut.chunks[i].payload, env.servers(i), env.maxRetries, itemsOf(i));
      NothingUnrecoverable(itemsOf(i));
    }
    UndecidedResultsAck(cut, results, |rows|);
    RowsArePartitioned(rows, max, cut.chunks, r);
    var i := ChunkOf(cut, r);
    UndecidedAnswer(cut.chunks[i].payload, env.servers(i), env.maxRetries, itemsOf(i));
    LastWordIsFinalItem(cut, env, r);
    RowIsLostIff(rows, max, cut, env, true, r);
    var posts, d := ChunkPosts(cut, env, i), r - cut.chunks[i].startRow;
    assert posts[0] == Round(Start(cut.chunks[i].payload), env.servers(i)(0));
    assert |itemsOf(i)| <= d ==> PassesOver(posts[0], d);
  }

  /** Witness: answers without any item. */
  lemma EmptyAnswersLoseEveryRow(rows: seq<string>, max: nat, cut: Chunks, env: Surroundings, r: nat)
    requires IsCut(rows, max, cut) && AnswersAre(cut, env, _ => [])
    requires r < |rows| && Fits(rows, max, r)
    ensures Acknowledged(Events(cut, env, |rows|, true))
    ensures !TakenByCluster(cut, env, r) && r !in QuarantinedRows(Events(cut, env, |rows|, true))
  {
    UndecidedAnswersLoseEveryRow(rows, max, cut, env, r, _ => []);
  }

  const NO_ACTION := BulkItemWrapper(None, None, None, None)

  /** One item that names no action for each document of a chunk. */
  ghost function Blanks(cut: Chunks): nat -> seq<BulkItemWrapper> {
    (i: nat) => seq(if i < |cut.chunks| then cut.chunks[i].rowCount else 0, _ => NO_ACTION)
  }

  /** Witness: answers that list every document, but with items that name no action. */
  lemma BlankItemsLoseEveryRow(rows: seq<string>, max: nat, cut: Chunks, env: Surroundings, r: nat)
    requires IsCut(rows, max, cut) && AnswersAre(cut, env, Blanks(cut))
    requires r < |rows| && Fits(rows, max, r)
    ensures AnswersListEveryRow(cut, env) && Acknowledged(Events(cut, env, |rows|, true))
    ensures !TakenByCluster(cut, env, r) && r !in QuarantinedRows(Events(cut, env, |rows|, true))
  {
    hide Deliver, Posts, React, Events, Acknowledged, QuarantinedRows, TakenByCluster, IsCut;
    UndecidedAnswersLoseEveryRow(rows, max, cut, env, r, Blanks(cut));
    forall i | 0 <= i < |cut.chunks| ensures AllListed(ChunkPosts(cut, env, i), cut.chunks[i].rowCount) {
      UndecidedAnswer(cut.chunks[i].payload, env.servers(i), env.maxRetries, Blanks(cut)(i));
    }
  }

  lemma UndecidedResultsAck(cut: Chunks, results: seq<TaskResult>, numRows: nat)
    requires |cut.chunks| == |results| && AllDelivered(results)
    requires forall i | 0 <= i < |results| :: !results[i].result.value.HasRecoverable()
    ensures Acknowledged(Verdict(cut, results, numRows, false, true))
  {
    assert !AnyRecoverable(results);
    assert Acknowledged(Settlement(RejectedRows(cut, results, numRows), true)) by {
      SettledWithDlq(RejectedRows(cut, results, numRows));
    }
    SettledWithDlq(OversizedRows(cut.oversized, numRows));
  }

  lemma SettledWithDlq(rejected: seq<nat>)
    ensures Acknowledged(Settlement(rejected, true))
  {
    assert [Quarantine(rejected), Ack][1] == Ack;
  }

  // ---------------------------------------------------------------- conservation

  /** The rows below `n` the cluster took. */
  ghost function TakenRows(cut: Chunks, env: Surroundings, n: nat): (taken: seq<nat>)
    ensures StrictlyIncreasing(taken)
    ensures forall r: nat :: r in taken <==> r < n && TakenByCluster(cut, env, r)
  {
    if n == 0 then [] else
    var before := TakenRows(cut, env, n - 1);
    IncreasingSnoc(before, n - 1);
    if TakenByCluster(cut, env, n - 1) then before + [n - 1] else before
  }

  lemma {:induction false} DistinctBag(s: seq<nat>, x: nat)
    requires Distinct(s)
    ensures multiset(s)[x] == if x in s then 1 else 0
  {
    if s != [] {
      TailBag(s);
      DistinctBag(s[1..], x);
      assert s == [s[0]] + s[1..];
    }
  }

  lemma SplitIsEverything(n: nat, a: seq<nat>, b: seq<nat>)
    requires Distinct(a) && Distinct(b)
    requires forall r: nat :: (r in a || r in b) <==> r < n
    requires forall r: nat :: !(r in a && r in b)
    ensures multiset(a + b) == multiset(Upto(n))
  {
    forall x: nat ensures multiset(a + b)[x] == multiset(Upto(n))[x] {
      DistinctBag(a, x);
      DistinctBag(b, x);
      DistinctBag(Upto(n), x);
      if x < n {
        UptoContains(n, x);
      }
    }
  }

  /** Picking both halves of a partition of the positions gives back every element once. */
  lemma PartitionConserves<T>(s: seq<T>, a: seq<nat>, b: seq<nat>)
    requires Distinct(a) && Distinct(b)
    requires forall r: nat :: (r in a || r in b) <==> r < |s|
    requires forall r: nat :: !(r in a && r in b)
    requires InRange(a, |s|) && InRange(b, |s|)
    ensures multiset(Pick(s, a)) + multiset(Pick(s, b)) == multiset(s)
  {
    SplitIsEverything(|s|, a, b);
    SameLength(a + b, Upto(|s|));
    if s != [] {
      var f := (i: nat) => if i < |s| then s[i] else s[0];
      MapPermutation(f, a + b, Upto(|s|));
      assert MapSeq(f, a + b) == Pick(s, a) + Pick(s, b);
      assert MapSeq(f, Upto(|s|)) == s;
    }
  }

  lemma QuarantineIsInBatch(rows: seq<string>, max: nat, cut: Chunks, env: Surroundings, dlqOk: bool)
    requires IsCut(rows, max, cut)
    requires Acknowledged(Events(cut, env, |rows|, dlqOk))
    ensures Distinct(QuarantinedRows(Events(cut, env, |rows|, dlqOk)))
    ensures forall r: nat | r in QuarantinedRows(Events(cut, env, |rows|, dlqOk)) :: r < |rows|
  {
    var results := ResultsOf(cut.chunks, env);
    AcknowledgedMeans(cut, results, |rows|, AnyClosed(env, |cut.chunks|), dlqOk);
    RejectedAre(rows, max, cut, results);
  }

  /** What is quarantined and what the cluster took are together, row for row, the leased batch. */
  lemma RowsAreConserved<T>(leased: seq<T>, batch: seq<T>, rows: seq<string>, max: nat, cut: Chunks, env: Surroundings, dlqOk: bool)
    requires multiset(leased) == multiset(batch) && |batch| == |rows|
    requires IsCut(rows, max, cut)
    requires Acknowledged(Events(cut, env, |rows|, dlqOk))
    requires AnswersListEveryRow(cut, env) && AnswersDecide(cut, env)
    ensures var q, t := QuarantinedRows(Events(cut, env, |rows|, dlqOk)), TakenRows(cut, env, |rows|);
            && InRange(q, |batch|) && InRange(t, |batch|)
            && multiset(Pick(batch, q)) + multiset(Pick(batch, t)) == multiset(leased)
  {
    hide IsCut, Acknowledged, Events, AnswersListEveryRow, AnswersDecide, TakenByCluster, QuarantinedRows, Distinct;
    var q, t := QuarantinedRows(Events(cut, env, |rows|, dlqOk)), TakenRows(cut, env, |rows|);
    QuarantineIsInBatch(rows, max, cut, env, dlqOk);
    IncreasingIsDistinct(t);
    forall r: nat ensures (r in q || r in t) <==> r < |rows|
                  ensures !(r in q && r in t)
    {
      if r < |rows| {
        NoRowIsLost(rows, max, cut, env, dlqOk, r);
      }
    }
    assert forall k | 0 <= k < |q| :: q[k] in q;
    assert forall k | 0 <= k < |t| :: t[k] in t;
    PartitionConserves(batch, q, t);
  }

  lemma IncreasingIsDistinct(s: seq<nat>)
    requires StrictlyIncreasing(s)
    ensures Distinct(s)
  {
  }
}
