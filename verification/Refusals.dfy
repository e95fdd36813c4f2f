/** Which events a lease sees, told from the answers to its chunks. */
module Refusals {
  import opened Wrappers
  import opened Failures
  import opened BulkRetry
  import opened Chunking
  import opened LeaseVerdict
  import opened ProcessLease
  import opened RowAccounting
  import opened Deliveries

  ghost predicate AnyPanics(env: Surroundings, n: nat) {
    exists i: nat | i < n :: env.panics(i)
  }

  /** Some chunk's last answer refused the credentials. */
  ghost predicate AnyUnauthorized(cut: Chunks, env: Surroundings) {
    exists i | 0 <= i < |cut.chunks| :: EndsUnauthorized(ChunkPosts(cut, env, i))
  }

  /** Some chunk ended where no retry helps. */
  ghost predicate AnyRejected(cut: Chunks, env: Surroundings) {
    exists i | 0 <= i < |cut.chunks| :: EndsRejected(cut.chunks[i].payload, ChunkPosts(cut, env, i))
  }

  /** The last answer is an unflagged first one although it lists a retryable item. */
  ghost predicate LeavesRetryable(posts: seq<Round>)
    requires posts != []
  {
    var k := |posts| - 1;
    EndsDelivered(posts) && !Inspected(posts, k)
    && var items := posts[k].outcome.body.value.items;
       exists j | 0 <= j < |items| ::
         items[j].Status() == Some(429) || items[j].Status() == Some(500) || items[j].Status() == Some(503)
  }

  /** Some chunk was not delivered, or was with a retryable item left. */
  ghost predicate AnyUnfinished(cut: Chunks, env: Surroundings) {
    exists i | 0 <= i < |cut.chunks| :: !EndsDelivered(ChunkPosts(cut, env, i)) || LeavesRetryable(ChunkPosts(cut, env, i))
  }

  /** An acknowledgement, after the dead-letter store took what was rejected; or its failure. */
  ghost predicate IsSettlement(events: seq<Event>, dlqOk: bool) {
    || events == [Ack]
    || (dlqOk && exists rows :: rows != [] && events == [Quarantine(rows), Ack])
    || (!dlqOk && exists rows :: rows != [] && events == [QuarantineFailed(rows), Nack(Fatal)])
  }

  /** A lease is refused as fatal if the semaphore was closed, a task panicked or the cluster refused the
      credentials; else as rejected if some chunk ended where no retry helps; else as transient if some chunk
      was not delivered or has a retryable item left; and else it is settled. */
  ghost predicate EventsAre(events: seq<Event>, cut: Chunks, env: Surroundings, dlqOk: bool) {
    if cut.chunks != [] && (AnyClosed(env, |cut.chunks|) || AnyPanics(env, |cut.chunks|) || AnyUnauthorized(cut, env)) then
      events == [Nack(Fatal)]
    else if AnyRejected(cut, env) then events == [Nack(Rejected)]
    else if AnyUnfinished(cut, env) then events == [Nack(Transient)]
    else IsSettlement(events, dlqOk)
  }

  lemma SettlementIsSettlement(rejected: seq<nat>, dlqOk: bool)
    ensures IsSettlement(Settlement(rejected, dlqOk), dlqOk)
  {
  }

  /** The same settlement when the dead-letter store fails. */
  ghost function WithoutStore(events: seq<Event>): seq<Event> {
    if |events| == 2 && events[0].Quarantine? then [QuarantineFailed(events[0].rows), Nack(Fatal)] else events
  }

  /** A failing dead-letter store is offered the rows that a working one takes. */
  lemma StoreIsOfferedTheSame(cut: Chunks, env: Surroundings, numRows: nat)
    ensures Events(cut, env, numRows, false) == WithoutStore(Events(cut, env, numRows, true))
  {
    hide RejectedRows, OversizedRows, WorstSeverity, ResultOf, AnyClosed;
  }

  /** Without panics, what became of a chunk. */
  lemma ChunkFollows(cut: Chunks, env: Surroundings, i: nat)
    requires i < |cut.chunks| && !AnyPanics(env, |cut.chunks|)
    ensures var r, posts := ResultsOf(cut.chunks, env)[i], ChunkPosts(cut, env, i);
            && !r.Panicked?
            && (IsFailure(r) <==> !EndsDelivered(posts))
            && (IsFailure(r) ==> Classify(r.result.error) == EndClass(cut.chunks[i].payload, posts))
            && (!IsFailure(r) ==> (r.result.value.HasRecoverable() <==> LeavesRetryable(posts)))
  {
    hide Rounds, Outcome, EndsUnauthorized, EndsRejected, EndsDelivered, Inspected, Classify;
    assert !env.panics(i);
    var payload, server := cut.chunks[i].payload, env.servers(i);
    ClassFollows(payload, server, env.maxRetries);
    if Deliver(payload, server, env.maxRetries).Ok? {
      LeftRetryableIff(payload, server, env.maxRetries);
    }
  }

  lemma LeftRetryableIff(payload: string, server: Server, maxRetries: nat)
    requires Deliver(payload, server, maxRetries).Ok?
    ensures Deliver(payload, server, maxRetries).value.HasRecoverable() <==> LeavesRetryable(Posts(payload, server, maxRetries))
  {
    hide Rounds, Outcome, EndsDelivered;
    var posts := Posts(payload, server, maxRetries);
    var k := |posts| - 1;
    OkHasRecoverableIff(payload, server, maxRetries);
    ClassFollows(payload, server, maxRetries);
    UncheckedIff(payload, server, maxRetries);
    assert Decoded(posts[k].outcome) by {
      DeliveredIsDecoded(posts);
    }
    if TakenUnchecked(posts[k]) {
      RetryableIff(posts[k].outcome.body.value);
    }
  }

  lemma DeliveredIsDecoded(posts: seq<Round>)
    requires posts != [] && EndsDelivered(posts)
    ensures Decoded(posts[|posts| - 1].outcome)
  {
  }

  lemma RetryableIff(resp: BulkItems.BulkResponse)
    ensures resp.HasRecoverable() <==> exists j | 0 <= j < |resp.items| ::
              resp.items[j].Status() == Some(429) || resp.items[j].Status() == Some(500) || resp.items[j].Status() == Some(503)
  {
  }

  lemma UncheckedIff(payload: string, server: Server, maxRetries: nat)
    ensures var posts := Posts(payload, server, maxRetries);
            var k := |posts| - 1;
            TakenUnchecked(posts[k]) <==> Decoded(posts[k].outcome) && !Inspected(posts, k)
  {
    hide Rounds, Inv, Reflects, Inspected;
    var posts := Posts(payload, server, maxRetries);
    RoundReflects(payload, server, maxRetries, |posts| - 1);
    RecordedIsPending(payload, posts, |posts| - 1);
  }

  lemma PanicsAre(cut: Chunks, env: Surroundings)
    ensures AnyPanicked(ResultsOf(cut.chunks, env)) <==> AnyPanics(env, |cut.chunks|)
  {
    var results := ResultsOf(cut.chunks, env);
    if i: nat :| i < |cut.chunks| && env.panics(i) {
      assert results[i].Panicked?;
    }
  }

  /** The gravest class among the failed chunks. */
  lemma WorstFollows(cut: Chunks, env: Surroundings)
    requires !AnyPanics(env, |cut.chunks|) && AnyFailed(ResultsOf(cut.chunks, env))
    ensures ClassOf(WorstSeverity(ResultsOf(cut.chunks, env)))
         == if AnyUnauthorized(cut, env) then Fatal else if AnyRejected(cut, env) then Rejected else Transient
  {
    hide EndsUnauthorized, EndsRejected, EndsDelivered, Classify, Posts, Deliver, AnyPanics, WorstSeverity;
    var results := ResultsOf(cut.chunks, env);
    var s := WorstSeverity(results);
    forall i | 0 <= i < |cut.chunks|
      ensures IsFailure(results[i]) ==> Severity(EndClass(cut.chunks[i].payload, ChunkPosts(cut, env, i))) <= s
      ensures EndsUnauthorized(ChunkPosts(cut, env, i)) || EndsRejected(cut.chunks[i].payload, ChunkPosts(cut, env, i)) ==> IsFailure(results[i])
    {
      ChunkFollows(cut, env, i);
      GraveIsUndelivered(cut.chunks[i].payload, ChunkPosts(cut, env, i));
    }
    var w :| 0 <= w < |results| && IsFailure(results[w]) && Severity(Classify(results[w].result.error)) == s;
    ChunkFollows(cut, env, w);
    if i :| 0 <= i < |cut.chunks| && EndsUnauthorized(ChunkPosts(cut, env, i)) {
      assert Severity(EndClass(cut.chunks[i].payload, ChunkPosts(cut, env, i))) == 3;
    } else if i :| 0 <= i < |cut.chunks| && EndsRejected(cut.chunks[i].payload, ChunkPosts(cut, env, i)) {
      assert Severity(EndClass(cut.chunks[i].payload, ChunkPosts(cut, env, i))) == 2;
    }
  }

  lemma GraveIsUndelivered(payload: string, posts: seq<Round>)
    requires posts != []
    ensures EndsUnauthorized(posts) || EndsRejected(payload, posts) ==> !EndsDelivered(posts)
  {
    hide QuotesPhrase, Inspected, AnyPending, Resendable;
    OneKind(posts[|posts| - 1].outcome);
  }

  /** The events of a lease follow from the answers to its chunks, the panics and the semaphore. */
  lemma EventsFollow(cut: Chunks, env: Surroundings, numRows: nat, dlqOk: bool)
    ensures EventsAre(Events(cut, env, numRows, dlqOk), cut, env, dlqOk)
  {
    hide EndsUnauthorized, EndsRejected, EndsDelivered, LeavesRetryable, Classify, Posts, Deliver, AnyClosed, AnyPanics,
      RejectedRows, OversizedRows, Settlement, IsSettlement, WorstSeverity, ClassOf;
    var results := ResultsOf(cut.chunks, env);
    if cut.chunks == [] {
      SettlementIsSettlement(OversizedRows(cut.oversized, numRows), dlqOk);
    } else {
      PanicsAre(cut, env);
      if !AnyClosed(env, |cut.chunks|) && !AnyPanics(env, |cut.chunks|) {
        forall i | 0 <= i < |cut.chunks|
          ensures IsFailure(results[i]) <==> !EndsDelivered(ChunkPosts(cut, env, i))
          ensures !results[i].Panicked?
          ensures !IsFailure(results[i]) ==> (results[i].result.value.HasRecoverable() <==> LeavesRetryable(ChunkPosts(cut, env, i)))
          ensures EndsUnauthorized(ChunkPosts(cut, env, i)) || EndsRejected(cut.chunks[i].payload, ChunkPosts(cut, env, i)) ==> IsFailure(results[i])
        {
          ChunkFollows(cut, env, i);
          GraveIsUndelivered(cut.chunks[i].payload, ChunkPosts(cut, env, i));
        }
        if AnyFailed(results) {
          WorstFollows(cut, env);
        } else {
          DeliveredUnless(results);
          SettlementIsSettlement(RejectedRows(cut, results, numRows), dlqOk);
        }
      }
    }
  }
}
