/** What a call of `send_bulk` does and comes to, told from its POSTs and their answers alone. */
module Deliveries {
  import opened Wrappers
  import opened Text
  import opened Widths
  import opened Ndjson
  import opened BulkItems
  import opened Failures
  import opened BulkRetry

  /** No answer, or one whose status has the whole POST made again. */
  predicate AsksAgain(o: PostOutcome) {
    o.TransportError? || o.status == 429 || o.status == 500 || o.status == 502 || o.status == 503 || o.status == 504
  }

  predicate IsUnauthorized(o: PostOutcome) {
    o.Response? && (o.status == 401 || o.status == 403)
  }

  /** A success that is not a bulk response. */
  predicate IsGarbled(o: PostOutcome) {
    o.Response? && 200 <= o.status < 300 && o.body.None?
  }

  /** Any other status. */
  predicate IsOther(o: PostOutcome) {
    !AsksAgain(o) && !IsUnauthorized(o) && !(200 <= o.status < 300)
  }

  /** Answer `k` is looked at item by item: it is a bulk response, and flagged or not the first one. */
  ghost predicate Inspected(posts: seq<Round>, k: nat)
    requires k < |posts|
  {
    Decoded(posts[k].outcome) && (posts[k].outcome.body.value.errors || exists i | 0 <= i < k :: Decoded(posts[i].outcome))
  }

  /** After answer `k` the last thing said about document `d` asks for a retry. */
  ghost predicate Pending(posts: seq<Round>, k: nat, d: nat)
    requires k < |posts|
  {
    var said := LastReport(posts[..k + 1], d);
    said.Some? && said.value.Status().Some? && var status := said.value.Status().value; status == 429 || status == 500 || status == 503
  }

  ghost predicate AnyPending(posts: seq<Round>, k: nat)
    requires k < |posts|
  {
    exists d: nat :: Pending(posts, k, d)
  }

  /** The payload holds the documents to be retried, in pairs of lines. */
  ghost predicate Resendable(payload: string, posts: seq<Round>, k: nat)
    requires k < |posts|
  {
    EvenLines(payload) && forall d: nat | Pending(posts, k, d) :: d < |Documents(payload)|
  }

  // ---------------------------------------------------------------- the loop state and the answers

  ghost predicate NoneDecoded(posts: seq<Round>) {
    forall i | 0 <= i < |posts| :: !Decoded(posts[i].outcome)
  }

  /** The loop state says what the answers so far said. */
  ghost predicate Reflects(history: seq<Round>, s: Loop) {
    Tracks(history, s.items) && (s.items == [] <==> NoneDecoded(history))
  }

  lemma StepReflects(original: string, s: Loop, outcome: PostOutcome, maxRetries: nat, history: seq<Round>)
    requires Inv(original, s) && Reflects(history, s)
    requires React(s, outcome, maxRetries).Again?
    ensures Reflects(history + [Round(s, outcome)], React(s, outcome, maxRetries).next)
  {
    hide React, Inv, Tracks, LastReport;
    var all := history + [Round(s, outcome)];
    StepRecords(s, outcome, maxRetries);
    RecordedTracks(original, s, outcome, history);
    assert all[|history|] == Round(s, outcome) && forall i | 0 <= i < |history| :: all[i] == history[i];
    if s.items == [] {
      FirstStep(s, outcome, maxRetries);
    }
  }

  lemma {:induction false} RoundReflects(payload: string, server: Server, maxRetries: nat, k: nat)
    requires k < |Posts(payload, server, maxRetries)|
    ensures var posts := Posts(payload, server, maxRetries);
            Inv(payload, posts[k].before) && Reflects(posts[..k], posts[k].before) && posts[k].before.attempt == k
    decreases k
  {
    hide React, Inv, Rounds, Reflects;
    var posts := Posts(payload, server, maxRetries);
    StartKeepsInv(payload);
    InvInRound(payload, Start(payload), server, maxRetries, k);
    if k == 0 {
      NothingReflected(payload);
      assert posts[..0] == [];
      assert posts[0] == Round(Start(payload), server(0));
    } else {
      var r := posts[k - 1];
      RoundReflects(payload, server, maxRetries, k - 1);
      Successive(Start(payload), server, maxRetries, k);
      StepReflects(payload, r.before, r.outcome, maxRetries, posts[..k - 1]);
      assert posts[..k - 1] + [Round(r.before, r.outcome)] == posts[..k];
    }
  }

  lemma StartKeepsInv(payload: string)
    ensures Inv(payload, Start(payload))
  {
  }

  lemma NothingReflected(payload: string)
    ensures Reflects([], Start(payload))
  {
  }

  /** What an inspected answer leaves to be done. */
  lemma RecordedIsPending(payload: string, posts: seq<Round>, k: nat)
    requires k < |posts| && Inv(payload, posts[k].before) && Reflects(posts[..k], posts[k].before)
    ensures forall d: nat :: Pending(posts, k, d) <==>
              var items := Recorded(posts[k].before, posts[k].outcome); d < |items| && items[d].IsRecoverable()
    ensures Inspected(posts, k) <==> Decoded(posts[k].outcome) && !TakenUnchecked(posts[k])
  {
    hide Inv, LastReport, Recorded;
    var r := posts[k];
    RecordedTracks(payload, r.before, r.outcome, posts[..k]);
    assert posts[..k] + [Round(r.before, r.outcome)] == posts[..k + 1];
    assert forall i | 0 <= i < k :: posts[..k][i] == posts[i];
  }

  lemma PreparedIs(payload: string, posts: seq<Round>, k: nat)
    requires k < |posts| && Inv(payload, posts[k].before) && Reflects(posts[..k], posts[k].before)
    requires Decoded(posts[k].outcome)
    ensures var s, o := posts[k].before, posts[k].outcome;
            var p := Prepared(s.payload, Recorded(s, o), InFlight(s, o));
            && (p == Ok(None) <==> !AnyPending(posts, k))
            && (p.Err? <==> AnyPending(posts, k) && !Resendable(payload, posts, k))
    ensures posts[k].before.items != [] && AnyPending(posts, k) ==> Resendable(payload, posts, k)
  {
    hide Pending, Reflects, Inspected, EvenLines, Documents;
    var s, o := posts[k].before, posts[k].outcome;
    RecordedIsPending(payload, posts, k);
    var items, active := Recorded(s, o), InFlight(s, o);
    var again := RecoverablePositions(items, active);
    if s.items == [] {
      FirstPositions(items, again);
    } else {
      ExtractNonEmptyIsEven(payload, s.active);
      ExtractedDocuments(payload, s.active);
      MergedRecoverableIsActive(s, o.body.value.items);
      LaterPositions(items, s.active, again);
    }
    if again != [] {
      assert Pending(posts, k, active[again[0]]);
    }
  }

  lemma FirstPositions(items: seq<BulkItemWrapper>, again: seq<nat>)
    requires again == RecoverablePositions(items, Upto(|items|))
    ensures forall d: nat :: d in again <==> d < |items| && items[d].IsRecoverable()
    ensures forall k | 0 <= k < |again| :: again[k] in again
  {
  }

  lemma LaterPositions(items: seq<BulkItemWrapper>, active: seq<nat>, again: seq<nat>)
    requires again == RecoverablePositions(items, active)
    requires forall d: nat | d < |items| && items[d].IsRecoverable() :: d in active
    ensures again == [] ==> forall d: nat | d < |items| :: !items[d].IsRecoverable()
  {
  }

  // ---------------------------------------------------------------- what one answer leads to

  /** The step after answer `k`, told from the answers. */
  ghost predicate StepIs(payload: string, posts: seq<Round>, k: nat, maxRetries: nat, step: Step)
    requires k < |posts|
  {
    var o := posts[k].outcome;
    var retry := Inspected(posts, k) && AnyPending(posts, k);
    && (step.Again? <==> k < maxRetries && k + 1 < USIZE_MAX && (AsksAgain(o) || (retry && Resendable(payload, posts, k))))
    && (step.Done? ==> ResultIs(payload, posts, k, step.result))
  }

  /** The result after the last answer `k`, told from the answers. */
  ghost predicate ResultIs(payload: string, posts: seq<Round>, k: nat, result: SendResult)
    requires k < |posts|
  {
    var o := posts[k].outcome;
    var retry := Inspected(posts, k) && AnyPending(posts, k);
    && (result.Ok? <==> Decoded(o) && !retry)
    && (result == Err(AuthenticationFailed) <==> IsUnauthorized(o))
    && (result == Err(Http) <==> IsGarbled(o))
    && (result == Err(Serialization) <==> retry && !Resendable(payload, posts, k))
    && (result.Err? && result.error.BulkFailed? <==> AsksAgain(o) || IsOther(o) || (retry && Resendable(payload, posts, k)))
    && (result.Err? ==> result.error in {AuthenticationFailed, Http, Serialization} || result.error.BulkFailed?)
  }

  lemma DecodedStep(s: Loop, o: PostOutcome, maxRetries: nat)
    requires Decoded(o)
    ensures var p := Prepared(s.payload, Recorded(s, o), InFlight(s, o));
            var step := React(s, o, maxRetries);
            if TakenUnchecked(Round(s, o)) then step == Done(Ok(o.body.value))
            else if p.Err? then step == Done(Err(Serialization))
            else if p.value.None? then step.Done? && step.result.Ok?
            else if s.attempt + 1 >= MaxAttempts(maxRetries) then step.Done? && step.result.Err? && step.result.error.BulkFailed?
            else step.Again?
    ensures !AsksAgain(o) && !IsUnauthorized(o) && !IsGarbled(o) && !IsOther(o)
  {
    hide Prepared, Merge, Upto;
  }

  lemma UndecodedStep(s: Loop, o: PostOutcome, maxRetries: nat)
    requires !Decoded(o)
    ensures var step := React(s, o, maxRetries);
            if AsksAgain(o) then
              && (step.Again? <==> s.attempt + 1 < MaxAttempts(maxRetries))
              && (step.Done? ==> step.result.Err? && step.result.error.BulkFailed?)
            else if IsUnauthorized(o) then step == Done(Err(AuthenticationFailed))
            else if IsGarbled(o) then step == Done(Err(Http))
            else step.Done? && step.result.Err? && step.result.error.BulkFailed?
    ensures AsksAgain(o) ==> !IsUnauthorized(o) && !IsGarbled(o)
    ensures IsUnauthorized(o) ==> !IsGarbled(o)
    ensures IsOther(o) <==> !AsksAgain(o) && !IsUnauthorized(o) && !IsGarbled(o)
  {
    hide Absorb;
  }

  lemma ReactIs(payload: string, posts: seq<Round>, k: nat, maxRetries: nat)
    requires k < |posts| && Inv(payload, posts[k].before) && Reflects(posts[..k], posts[k].before) && posts[k].before.attempt == k
    ensures StepIs(payload, posts, k, maxRetries, React(posts[k].before, posts[k].outcome, maxRetries))
  {
    hide *;
    if Decoded(posts[k].outcome) {
      DecodedReactIs(payload, posts, k, maxRetries);
    } else {
      UndecodedReactIs(payload, posts, k, maxRetries);
    }
  }

  lemma DecodedReactIs(payload: string, posts: seq<Round>, k: nat, maxRetries: nat)
    requires k < |posts| && Inv(payload, posts[k].before) && Reflects(posts[..k], posts[k].before) && posts[k].before.attempt == k
    requires Decoded(posts[k].outcome)
    ensures StepIs(payload, posts, k, maxRetries, React(posts[k].before, posts[k].outcome, maxRetries))
  {
    hide Prepared, Recorded, InFlight, Inv, Reflects, Inspected, AnyPending, Pending, Resendable, TakenUnchecked, Decoded;
    hide React, AsksAgain, IsUnauthorized, IsGarbled, IsOther;
    PreparedIs(payload, posts, k);
    RecordedIsPending(payload, posts, k);
    DecodedStep(posts[k].before, posts[k].outcome, maxRetries);
  }

  lemma UndecodedReactIs(payload: string, posts: seq<Round>, k: nat, maxRetries: nat)
    requires k < |posts| && posts[k].before.attempt == k && !Decoded(posts[k].outcome)
    ensures StepIs(payload, posts, k, maxRetries, React(posts[k].before, posts[k].outcome, maxRetries))
  {
    hide React, AnyPending, Pending, Resendable, Decoded, AsksAgain, IsUnauthorized, IsGarbled, IsOther;
    UndecodedStep(posts[k].before, posts[k].outcome, maxRetries);
  }

  // ---------------------------------------------------------------- the whole call

  lemma LastIsDone(payload: string, server: Server, maxRetries: nat, k: nat)
    requires k < |Posts(payload, server, maxRetries)|
    ensures var posts := Posts(payload, server, maxRetries);
            var step := React(posts[k].before, posts[k].outcome, maxRetries);
            && (step.Again? <==> k + 1 < |posts|)
            && (step.Done? ==> step.result == Deliver(payload, server, maxRetries))
  {
    hide React, Rounds, Outcome, Inv;
    var posts := Posts(payload, server, maxRetries);
    StartKeepsInv(payload);
    InvInRound(payload, Start(payload), server, maxRetries, k);
    RoundsFromRound(Start(payload), server, maxRetries, k);
    var b := posts[k].before;
    UnfoldRound(b, server, maxRetries);
    assert posts[k..][0] == posts[k] && |posts[k..]| == |posts| - k;
    if React(b, posts[k].outcome, maxRetries).Again? {
      assert |posts[k..]| > 1;
    }
  }

  /** A further POST follows POST `k` exactly while attempts are left and its answer calls for one: there
      is none, its status is one of the retried five, or it leaves a document to be retried that the
      payload holds. */
  lemma NextPostIff(payload: string, server: Server, maxRetries: nat, k: nat)
    requires k < |Posts(payload, server, maxRetries)|
    ensures var posts := Posts(payload, server, maxRetries);
            k + 1 < |posts| <==>
              && k < maxRetries && k + 1 < USIZE_MAX
              && (AsksAgain(posts[k].outcome) || (Inspected(posts, k) && AnyPending(posts, k) && Resendable(payload, posts, k)))
  {
    hide React, Rounds, Inv, Reflects, Pending, AsksAgain, Inspected, AnyPending, Resendable, ResultIs;
    RoundReflects(payload, server, maxRetries, k);
    ReactIs(payload, Posts(payload, server, maxRetries), k, maxRetries);
    LastIsDone(payload, server, maxRetries, k);
  }

  /** The result of a call, told from its answers. */
  lemma ResultFollows(payload: string, server: Server, maxRetries: nat)
    ensures var posts := Posts(payload, server, maxRetries);
            ResultIs(payload, posts, |posts| - 1, Deliver(payload, server, maxRetries))
  {
    hide React, Rounds, Inv, Reflects, Pending, AsksAgain, Inspected, AnyPending, Resendable, ResultIs;
    var posts := Posts(payload, server, maxRetries);
    RoundReflects(payload, server, maxRetries, |posts| - 1);
    ReactIs(payload, posts, |posts| - 1, maxRetries);
    LastIsDone(payload, server, maxRetries, |posts| - 1);
  }

  /** Only a first bulk response can leave documents that cannot be sent again. */
  lemma UnsendableIsFirst(payload: string, server: Server, maxRetries: nat)
    requires Deliver(payload, server, maxRetries) == Err(Serialization)
    ensures var posts := Posts(payload, server, maxRetries);
            && NoneDecoded(posts[..|posts| - 1])
            && Decoded(posts[|posts| - 1].outcome) && posts[|posts| - 1].outcome.body.value.errors
  {
    hide React, Rounds, Inv, Tracks, Pending, AsksAgain, AnyPending, Resendable;
    var posts := Posts(payload, server, maxRetries);
    var k := |posts| - 1;
    RoundReflects(payload, server, maxRetries, k);
    ResultFollows(payload, server, maxRetries);
    PreparedIs(payload, posts, k);
    assert forall i | 0 <= i < k :: posts[..k][i] == posts[i];
  }

  /** An uninspected answer is returned as it is. Otherwise the result is flagged exactly when the last thing
      said about some document is a failure. */
  lemma FlagFollows(payload: string, server: Server, maxRetries: nat)
    requires Deliver(payload, server, maxRetries).Ok?
    ensures var posts := Posts(payload, server, maxRetries);
            var k := |posts| - 1;
            && Decoded(posts[k].outcome)
            && if Inspected(posts, k) then
                 Deliver(payload, server, maxRetries).value.errors <==> exists d: nat :: FailsLast(posts, d)
               else Deliver(payload, server, maxRetries) == Ok(posts[k].outcome.body.value)
  {
    hide React, Rounds, Outcome, Inv, Reflects, Pending, LastReport, Prepared, Recorded, Inspected, HasUnrecoverable, Decoded;
    var posts := Posts(payload, server, maxRetries);
    var k := |posts| - 1;
    RoundReflects(payload, server, maxRetries, k);
    RecordedIsPending(payload, posts, k);
    LastIsDone(payload, server, maxRetries, k);
    OkStep(posts[k].before, posts[k].outcome, maxRetries);
    OkHasRecoverableIff(payload, server, maxRetries);
    var items := Deliver(payload, server, maxRetries).value.items;
    forall d: nat ensures LastReport(posts, d) == ItemAt(items, d) {
      ResultIsLatest(payload, server, maxRetries, d);
    }
    if Inspected(posts, k) {
      FailureIff(posts, items);
    }
  }

  /** The last thing said about document `d` is a failure. */
  ghost predicate FailsLast(posts: seq<Round>, d: nat) {
    var said := LastReport(posts, d);
    said.Some? && said.value.Status().Some? && said.value.Status().value >= 400
  }

  lemma FailureIff(posts: seq<Round>, items: seq<BulkItemWrapper>)
    requires forall d: nat :: LastReport(posts, d) == ItemAt(items, d)
    requires !BulkResponse(false, items).HasRecoverable()
    ensures HasUnrecoverable(items) <==> exists d: nat :: FailsLast(posts, d)
  {
    hide LastReport;
    if HasUnrecoverable(items) {
      var d: nat :| d < |items| && items[d].IsUnrecoverable();
      assert FailsLast(posts, d);
    }
    if d: nat :| FailsLast(posts, d) {
      assert !items[d].IsRecoverable();
    }
  }

  lemma OkStep(s: Loop, o: PostOutcome, maxRetries: nat)
    requires React(s, o, maxRetries).Done? && React(s, o, maxRetries).result.Ok?
    ensures var r := React(s, o, maxRetries).result.value;
            Decoded(o) && if TakenUnchecked(Round(s, o)) then r == o.body.value else r.errors == HasUnrecoverable(r.items)
  {
    hide Prepared, Merge, Upto;
  }

  // ---------------------------------------------------------------- the class of a failure

  /** The words of the server hold the phrase the client uses for exhausted retries. */
  ghost predicate QuotesPhrase(o: PostOutcome)
    requires o.Response?
  {
    Contains(o.phrase + ": " + o.text, "recoverable status (429/500/503)")
  }

  /** The call ends on a status that no retry helps against, or on documents it cannot send again. */
  ghost predicate EndsRejected(payload: string, posts: seq<Round>)
    requires posts != []
  {
    var k := |posts| - 1;
    var o := posts[k].outcome;
    || (IsOther(o) && !QuotesPhrase(o))
    || (Inspected(posts, k) && AnyPending(posts, k) && !Resendable(payload, posts, k))
  }

  ghost predicate EndsUnauthorized(posts: seq<Round>)
    requires posts != []
  {
    IsUnauthorized(posts[|posts| - 1].outcome)
  }

  /** The call ends on a bulk response with nothing left to retry. */
  ghost predicate EndsDelivered(posts: seq<Round>)
    requires posts != []
  {
    var k := |posts| - 1;
    Decoded(posts[k].outcome) && !(Inspected(posts, k) && AnyPending(posts, k))
  }

  ghost function EndClass(payload: string, posts: seq<Round>): FailureClass
    requires posts != []
  {
    if EndsUnauthorized(posts) then Fatal else if EndsRejected(payload, posts) then Rejected else Transient
  }

  lemma OtherStep(s: Loop, o: PostOutcome, maxRetries: nat)
    requires IsOther(o)
    ensures React(s, o, maxRetries) == Done(Err(BulkFailed(s.attempt, OtherStatusMessage(o.status, o.phrase, o.text))))
    ensures !IsTransientStatus(o.status)
  {
    hide Absorb, OtherStatusMessage;
  }

  lemma OtherClass(o: PostOutcome, retries: nat)
    requires IsOther(o)
    ensures Classify(BulkFailed(retries, OtherStatusMessage(o.status, o.phrase, o.text)))
         == if QuotesPhrase(o) then Transient else Rejected
  {
    hide OtherStatusMessage, Contains, StartsWith;
    OtherStatusIsRejectedIff(o.status, o.phrase, o.text, retries);
  }

  /** The failure class of a call, told from its answers: fatal for missing credentials, rejected where no
      retry helps, and transient otherwise. */
  lemma ClassFollows(payload: string, server: Server, maxRetries: nat)
    ensures var posts := Posts(payload, server, maxRetries);
            var result := Deliver(payload, server, maxRetries);
            && (result.Ok? <==> EndsDelivered(posts))
            && (result.Err? ==> Classify(result.error) == EndClass(payload, posts))
  {
    hide React, Rounds, Outcome, Pending, AnyPending, Resendable, Inspected, QuotesPhrase, OtherStatusMessage;
    hide IsOther, IsUnauthorized, IsGarbled, Decoded;
    var posts := Posts(payload, server, maxRetries);
    var k := |posts| - 1;
    var b, o := posts[k].before, posts[k].outcome;
    var result := Deliver(payload, server, maxRetries);
    ResultFollows(payload, server, maxRetries);
    LastIsDone(payload, server, maxRetries, k);
    OneKind(o);
    if IsOther(o) {
      OtherStep(b, o, maxRetries);
      OtherClass(o, b.attempt);
    } else if result.Err? && result.error.BulkFailed? {
      LastIsNotOther(o);
      ExhaustedIsTransient(payload, server, maxRetries);
    }
  }

  /** An answer is of one kind. */
  lemma OneKind(o: PostOutcome)
    ensures Decoded(o) ==> !AsksAgain(o) && !IsUnauthorized(o) && !IsGarbled(o) && !IsOther(o)
    ensures IsOther(o) ==> !AsksAgain(o) && !IsUnauthorized(o) && !IsGarbled(o)
    ensures IsUnauthorized(o) ==> !AsksAgain(o) && !IsGarbled(o)
    ensures AsksAgain(o) ==> !IsGarbled(o)
  {
  }

  lemma LastIsNotOther(o: PostOutcome)
    requires !IsOther(o) && !IsUnauthorized(o)
    ensures !IsOtherStatus(o)
  {
  }
}
