/** Dispatching the chunks of a lease as concurrent tasks and folding their results. Which task
    completes when, how many completions are seen before the next spawn and when permits run out
    are all left open; the result does not depend on them. */
module LeaseTasks {
  import opened Wrappers
  import opened Text
  import opened Bags
  import opened BulkItems
  import opened Failures
  import opened Chunking
  import opened LeaseVerdict

  datatype ChunkOutcome = ChunkOutcome(startRow: nat, rowCount: nat, resp: BulkResponse)

  // ---------------------------------------------------------------- recorded results

  predicate IsDelivery(r: TaskResult) {
    r.Finished? && r.result.Ok?
  }

  function OutcomeOf(c: BulkChunk, r: TaskResult): ChunkOutcome
    requires IsDelivery(r)
  {
    ChunkOutcome(c.startRow, c.rowCount, r.result.value)
  }

  /** Outcomes of the recorded deliveries, in recording order. */
  ghost function OutcomesOf(chunks: seq<BulkChunk>, results: seq<TaskResult>, recorded: seq<nat>): seq<ChunkOutcome>
    requires |chunks| == |results| && InRange(recorded, |results|)
  {
    if recorded == [] then [] else
    var last := recorded[|recorded| - 1];
    OutcomesOf(chunks, results, recorded[..|recorded| - 1])
    + if IsDelivery(results[last]) then [OutcomeOf(chunks[last], results[last])] else []
  }

  function SeverityOf(r: TaskResult): nat {
    if IsFailure(r) then Severity(Classify(r.result.error)) else 0
  }

  /** `kept` is the error of a recorded failure of the highest severity. */
  ghost predicate KeepsWorst(results: seq<TaskResult>, recorded: seq<nat>, kept: Option<ElasticsearchError>)
    requires InRange(recorded, |results|)
  {
    && (kept.None? ==> forall k | 0 <= k < |recorded| :: !IsFailure(results[recorded[k]]))
    && (kept.Some? ==>
          && (exists k | 0 <= k < |recorded| :: results[recorded[k]] == Finished(Err(kept.value)))
          && (forall k | 0 <= k < |recorded| :: SeverityOf(results[recorded[k]]) <= Severity(Classify(kept.value))))
  }

  ghost predicate SomePanicked(results: seq<TaskResult>, recorded: seq<nat>)
    requires InRange(recorded, |results|)
  {
    exists k | 0 <= k < |recorded| :: results[recorded[k]].Panicked?
  }

  /** The accumulators of `process_lease` while its chunk tasks run. */
  class ChunkTasks {
    const chunks: seq<BulkChunk>
    const results: seq<TaskResult>
    var joinSet: seq<nat>
    var outcomes: seq<ChunkOutcome>
    var firstEsErr: Option<ElasticsearchError>
    var firstJoinErr: bool
    ghost var recorded: seq<nat>
    ghost var spawned: nat

    /** Every spawned task is either running or recorded, once. */
    ghost predicate Accounted()
      reads this
    {
      && |chunks| == |results| && spawned <= |chunks|
      && multiset(recorded) + multiset(joinSet) == multiset(Upto(spawned))
      && InRange(recorded, |results|) && InRange(joinSet, |results|)
    }

    ghost predicate Valid()
      reads this
    {
      && Accounted()
      && outcomes == OutcomesOf(chunks, results, recorded)
      && KeepsWorst(results, recorded, firstEsErr)
      && firstJoinErr == SomePanicked(results, recorded)
    }

    constructor (chunks: seq<BulkChunk>, results: seq<TaskResult>)
      requires |chunks| == |results|
      ensures Valid() && spawned == 0 && joinSet == []
      ensures this.chunks == chunks && this.results == results
    {
      this.chunks, this.results := chunks, results;
      joinSet, outcomes, firstEsErr, firstJoinErr := [], [], None, false;
      recorded, spawned := [], 0;
    }

    /** Records the result of one completed task. */
    method RecordTaskResult(task: nat)
      requires |chunks| == |results| && InRange(recorded, |results|) && task < |results|
      requires outcomes == OutcomesOf(chunks, results, recorded)
      requires KeepsWorst(results, recorded, firstEsErr)
      requires firstJoinErr == SomePanicked(results, recorded)
      modifies this`outcomes, this`firstEsErr, this`firstJoinErr, this`recorded
      ensures recorded == old(recorded) + [task]
      ensures InRange(recorded, |results|)
      ensures outcomes == OutcomesOf(chunks, results, recorded)
      ensures KeepsWorst(results, recorded, firstEsErr)
      ensures firstJoinErr == SomePanicked(results, recorded)
    {
      RecordSteps(chunks, results, recorded, task, firstEsErr);
      match results[task] {
        case Panicked =>
          firstJoinErr := true;
        case Finished(Ok(resp)) =>
          outcomes := outcomes + [ChunkOutcome(chunks[task].startRow, chunks[task].rowCount, resp)];
        case Finished(Err(esErr)) =>
          var replace := firstEsErr.None? || Severity(Classify(esErr)) > Severity(Classify(firstEsErr.value));
          if replace {
            firstEsErr := Some(esErr);
          }
      }
      recorded := recorded + [task];
    }

    /** Awaits some task of the join set, whichever completes next, and records it. */
    method JoinNext()
      requires Valid() && joinSet != []
      modifies this`joinSet, this`outcomes, this`firstEsErr, this`firstJoinErr, this`recorded
      ensures Valid() && |joinSet| == |old(joinSet)| - 1
    {
      hide OutcomesOf, KeepsWorst, SomePanicked;
      var k :| 0 <= k < |joinSet|;
      var task := joinSet[k];
      assert joinSet == joinSet[..k] + [task] + joinSet[k + 1..];
      RecordTaskResult(task);
      joinSet := joinSet[..k] + joinSet[k + 1..];
    }

    /** Spawns a task for the next chunk once a permit is held; an empty chunk needs no task.
        `closed` stands for a semaphore that no longer hands out permits. */
    method Dispatch(chunk: nat, closed: bool) returns (ok: bool)
      requires Valid() && chunk == spawned < |chunks|
      modifies this
      ensures Valid()
      ensures ok == (!closed || chunks[chunk].payload == "" || chunks[chunk].rowCount == 0)
      ensures spawned == old(spawned) + if !closed && chunks[chunk].payload != "" && chunks[chunk].rowCount > 0 then 1 else 0
    {
      if chunks[chunk].payload == "" || chunks[chunk].rowCount == 0 {
        return true;
      }
      JoinSome();
      JoinSome();
      if closed {
        return false;
      }
      Spawn(chunk);
      return true;
    }

    /** Joins as many tasks as the scheduler sees fit: those already completed, and then those
        awaited while permits are exhausted. */
    method JoinSome()
      requires Valid()
      modifies this`joinSet, this`outcomes, this`firstEsErr, this`firstJoinErr, this`recorded
      ensures Valid()
    {
      var more: bool := *;
      while more && joinSet != []
        invariant Valid()
        decreases |joinSet|
      {
        JoinNext();
        more := *;
      }
    }

    method Spawn(chunk: nat)
      requires Valid() && chunk == spawned < |chunks|
      modifies this`joinSet, this`spawned
      ensures Valid() && spawned == old(spawned) + 1
    {
      hide OutcomesOf, KeepsWorst, SomePanicked;
      joinSet := joinSet + [chunk];
      assert Upto(spawned + 1) == Upto(spawned) + [spawned];
      spawned := spawned + 1;
    }

    method DrainJoinSet()
      requires Valid()
      modifies this`joinSet, this`outcomes, this`firstEsErr, this`firstJoinErr, this`recorded
      ensures Valid() && joinSet == []
    {
      while joinSet != []
        invariant Valid()
        decreases |joinSet|
      {
        JoinNext();
      }
    }
  }

  lemma RecordSteps(chunks: seq<BulkChunk>, results: seq<TaskResult>, recorded: seq<nat>, task: nat, kept: Option<ElasticsearchError>)
    requires |chunks| == |results| && InRange(recorded, |results|) && task < |results|
    requires KeepsWorst(results, recorded, kept)
    ensures OutcomesOf(chunks, results, recorded + [task])
         == OutcomesOf(chunks, results, recorded) + if IsDelivery(results[task]) then [OutcomeOf(chunks[task], results[task])] else []
    ensures SomePanicked(results, recorded + [task]) == (SomePanicked(results, recorded) || results[task].Panicked?)
    ensures KeepsWorst(results, recorded + [task],
              if IsFailure(results[task]) && (kept.None? || SeverityOf(results[task]) > Severity(Classify(kept.value)))
              then Some(results[task].result.error) else kept)
  {
    var all := recorded + [task];
    assert all[..|recorded|] == recorded;
    assert forall k | 0 <= k < |recorded| :: all[k] == recorded[k];
    assert all[|recorded|] == task;
  }

  // ---------------------------------------------------------------- after the drain

  lemma Recorded(recorded: seq<nat>, n: nat, i: nat) returns (k: nat)
    requires multiset(recorded) == multiset(Upto(n)) && i < n
    ensures k < |recorded| && recorded[k] == i
  {
    UptoContains(n, i);
    assert i in multiset(Upto(n));
    k := IndexIn(recorded, i);
  }

  lemma DrainedPanics(results: seq<TaskResult>, recorded: seq<nat>)
    requires multiset(recorded) == multiset(Upto(|results|)) && InRange(recorded, |results|)
    ensures SomePanicked(results, recorded) == AnyPanicked(results)
  {
    if AnyPanicked(results) {
      var i :| 0 <= i < |results| && results[i].Panicked?;
      var k := Recorded(recorded, |results|, i);
    }
  }

  /** The retained error has the highest severity of all failed chunks. */
  lemma DrainedErrors(results: seq<TaskResult>, recorded: seq<nat>, kept: Option<ElasticsearchError>)
    requires multiset(recorded) == multiset(Upto(|results|)) && InRange(recorded, |results|)
    requires KeepsWorst(results, recorded, kept)
    ensures kept.Some? <==> AnyFailed(results)
    ensures kept.Some? ==> Severity(Classify(kept.value)) == WorstSeverity(results)
  {
    hide Classify, Severity;
    if AnyFailed(results) {
      var i :| 0 <= i < |results| && IsFailure(results[i]) && SeverityOf(results[i]) == WorstSeverity(results);
      var k := Recorded(recorded, |results|, i);
    }
    if kept.Some? {
      var k :| 0 <= k < |recorded| && results[recorded[k]] == Finished(Err(kept.value));
      assert IsFailure(results[recorded[k]]);
    }
  }

  // ---------------------------------------------------------------- sorting the outcomes

  /** The outcome of task `i`; only used for delivered chunks. */
  ghost function OutcomeAt(chunks: seq<BulkChunk>, results: seq<TaskResult>): nat -> ChunkOutcome
    requires |chunks| == |results|
  {
    (i: nat) => if i < |results| && IsDelivery(results[i]) then OutcomeOf(chunks[i], results[i])
                else ChunkOutcome(0, 0, BulkResponse(false, []))
  }

  /** Outcomes in chunk order. */
  ghost function Canonical(chunks: seq<BulkChunk>, results: seq<TaskResult>): (r: seq<ChunkOutcome>)
    requires |chunks| == |results| && AllDelivered(results)
    ensures |r| == |chunks|
    ensures forall i | 0 <= i < |r| :: r[i] == OutcomeOf(chunks[i], results[i])
  {
    MapSeq(OutcomeAt(chunks, results), Upto(|results|))
  }

  lemma {:induction false} OutcomesAreMapped(chunks: seq<BulkChunk>, results: seq<TaskResult>, recorded: seq<nat>)
    requires |chunks| == |results| && InRange(recorded, |results|) && AllDelivered(results)
    ensures OutcomesOf(chunks, results, recorded) == MapSeq(OutcomeAt(chunks, results), recorded)
  {
    hide OutcomeOf;
    if recorded != [] {
      OutcomesAreMapped(chunks, results, recorded[..|recorded| - 1]);
    }
  }

  /** Whatever the completion order, the sorted outcomes are the deliveries in chunk order. */
  lemma {:induction false} DrainedOutcomes(chunks: seq<BulkChunk>, results: seq<TaskResult>, recorded: seq<nat>, sorted: seq<ChunkOutcome>)
    requires |chunks| == |results| && AllDelivered(results)
    requires multiset(recorded) == multiset(Upto(|results|)) && InRange(recorded, |results|)
    requires forall i, j | 0 <= i < j < |chunks| :: chunks[i].startRow < chunks[j].startRow
    requires multiset(sorted) == multiset(OutcomesOf(chunks, results, recorded))
    requires SortedBy((o: ChunkOutcome) => o.startRow, sorted)
    ensures sorted == Canonical(chunks, results)
  {
    OutcomesAreMapped(chunks, results, recorded);
    MapPermutation(OutcomeAt(chunks, results), recorded, Upto(|results|));
    SortedIsUnique((o: ChunkOutcome) => o.startRow, sorted, Canonical(chunks, results));
  }
}
