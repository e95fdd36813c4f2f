/** The partial-retry loop of `send_bulk` as a state machine over the answers of the cluster.
    `server(k)` is the answer to the k-th POST; every server behaviour is some such function. */
module BulkRetry {
  import opened Wrappers
  import opened Text
  import opened Widths
  import opened Ndjson
  import opened BulkItems
  import opened Failures

  /** Three digits, as the HTTP library guarantees. */
  type StatusCode = s: nat | 100 <= s < 1000 witness 200

  /** `body` is `None` when the response text is not a bulk response. */
  datatype PostOutcome =
    | TransportError(detail: string)
    | Response(status: StatusCode, phrase: string, text: string, body: Option<BulkResponse>)

  type Server = nat -> PostOutcome

  type SendResult = Result<BulkResponse, ElasticsearchError>

  /** Loop variables of `send_bulk`. */
  datatype Loop = Loop(attempt: nat, payload: string, active: seq<nat>, items: seq<BulkItemWrapper>)

  datatype Step = Again(next: Loop) | Done(result: SendResult)

  function MaxAttempts(maxRetries: nat): (n: nat)
    ensures 0 < n
  {
    if maxRetries < USIZE_MAX then maxRetries + 1 else USIZE_MAX
  }

  function Start(payload: string): Loop {
    Loop(0, payload, [], [])
  }

  /** Later answers overwrite the entries of the documents they are about. */
  function Merge(items: seq<BulkItemWrapper>, active: seq<nat>, retry: seq<BulkItemWrapper>): (r: seq<BulkItemWrapper>)
    ensures |r| == |items|
    decreases |retry|
  {
    if retry == [] || active == [] then items else
    Merge(if active[0] < |items| then items[active[0] := retry[0]] else items, active[1..], retry[1..])
  }

  /** Positions in `active` of the documents whose latest status asks for a retry. */
  function RecoverablePositions(items: seq<BulkItemWrapper>, active: seq<nat>): (r: seq<nat>)
    ensures InRange(r, |active|)
    ensures StrictlyIncreasing(r)
    ensures forall k | 0 <= k < |r| :: active[r[k]] < |items| && items[active[r[k]]].IsRecoverable()
    ensures forall p | 0 <= p < |active| && active[p] < |items| && items[active[p]].IsRecoverable() :: p in r
  {
    if active == [] then [] else
    var last := |active| - 1;
    var r := RecoverablePositions(items, active[..last]);
    if active[last] < |items| && items[active[last]].IsRecoverable() then r + [last] else r
  }

  predicate HasUnrecoverable(items: seq<BulkItemWrapper>) {
    exists i | 0 <= i < |items| :: items[i].IsUnrecoverable()
  }

  function Backoff(s: Loop, maxRetries: nat, message: string): Step {
    if s.attempt + 1 >= MaxAttempts(maxRetries) then Done(Err(BulkFailed(maxRetries, message)))
    else Again(s.(attempt := s.attempt + 1))
  }

  datatype Retry = Retry(payload: string, indices: seq<nat>)

  /** The sub-payload of the next POST and the documents in it, if any document is retryable. */
  function Prepared(payload: string, items: seq<BulkItemWrapper>, active: seq<nat>): Result<Option<Retry>, ExtractError> {
    var again := RecoverablePositions(items, active);
    if again == [] then Ok(None) else
    var extracted := Extract(payload, again);
    if extracted.Err? then Err(extracted.error) else Ok(Some(Retry(extracted.value, Pick(active, again))))
  }

  function Settle(attempt: nat, payload: string, items: seq<BulkItemWrapper>, active: seq<nat>, maxRetries: nat): Step {
    var prepared := Prepared(payload, items, active);
    if prepared.Err? then Done(Err(Serialization))
    else if prepared.value.None? then Done(Ok(BulkResponse(HasUnrecoverable(items), items)))
    else
      var retry := prepared.value.value;
      if attempt + 1 >= MaxAttempts(maxRetries) then
        Done(Err(BulkFailed(maxRetries, RecoverableMessage(|retry.indices|, maxRetries))))
      else
        Again(Loop(attempt + 1, retry.payload, retry.indices, items))
  }

  function Absorb(s: Loop, resp: BulkResponse, maxRetries: nat): Step {
    if s.items != [] then Settle(s.attempt, s.payload, Merge(s.items, s.active, resp.items), s.active, maxRetries)
    else if !resp.errors then Done(Ok(resp))
    else Settle(s.attempt, s.payload, resp.items, Upto(|resp.items|), maxRetries)
  }

  /** A response that is not retried as a whole: its bulk response, or why there is none. */
  function CheckStatus(attempt: nat, response: PostOutcome): Result<BulkResponse, ElasticsearchError>
    requires response.Response?
  {
    if response.status == 401 || response.status == 403 then Err(AuthenticationFailed)
    else if !(200 <= response.status < 300) then
      Err(BulkFailed(attempt, OtherStatusMessage(response.status, response.phrase, response.text)))
    else match response.body
      case None => Err(Http)
      case Some(resp) => Ok(resp)
  }

  /** One iteration of the loop. */
  function React(s: Loop, outcome: PostOutcome, maxRetries: nat): Step {
    match outcome
    case TransportError(detail) => Backoff(s, maxRetries, NetworkMessage(s.attempt + 1, detail))
    case Response(status, phrase, text, body) =>
      if IsTransientStatus(status) then Backoff(s, maxRetries, TransientMessage(status, phrase, s.attempt + 1))
      else
        var checked := CheckStatus(s.attempt, outcome);
        if checked.Err? then Done(Err(checked.error)) else Absorb(s, checked.value, maxRetries)
  }

  /** A successful answer that is a bulk response. */
  predicate Decoded(outcome: PostOutcome) {
    outcome.Response? && 200 <= outcome.status < 300 && outcome.body.Some?
  }

  datatype Round = Round(before: Loop, outcome: PostOutcome)

  /** The first decodable answer, and not flagged as erroneous: returned as it is. */
  predicate TakenUnchecked(r: Round) {
    r.before.items == [] && Decoded(r.outcome) && !r.outcome.body.value.errors
  }

  /** Every POST the loop makes from `s` on, with the loop state it was made in. */
  function Rounds(s: Loop, server: Server, maxRetries: nat): (r: seq<Round>)
    requires s.attempt < MaxAttempts(maxRetries)
    ensures r != [] && r[0] == Round(s, server(s.attempt))
    decreases MaxAttempts(maxRetries) - s.attempt
  {
    [Round(s, server(s.attempt))] +
    match React(s, server(s.attempt), maxRetries)
    case Done(_) => []
    case Again(next) => Rounds(next, server, maxRetries)
  }

  function Outcome(s: Loop, server: Server, maxRetries: nat): SendResult
    requires s.attempt < MaxAttempts(maxRetries)
    decreases MaxAttempts(maxRetries) - s.attempt
  {
    match React(s, server(s.attempt), maxRetries)
    case Done(result) => result
    case Again(next) => Outcome(next, server, maxRetries)
  }

  lemma AgainAdvances(s: Loop, outcome: PostOutcome, maxRetries: nat)
    requires React(s, outcome, maxRetries).Again?
    ensures React(s, outcome, maxRetries).next.attempt == s.attempt + 1 < MaxAttempts(maxRetries)
  {
  }

  /** One iteration unfolded. */
  lemma UnfoldRound(s: Loop, server: Server, maxRetries: nat)
    requires s.attempt < MaxAttempts(maxRetries)
    ensures var step := React(s, server(s.attempt), maxRetries);
            if step.Done? then
              Rounds(s, server, maxRetries) == [Round(s, server(s.attempt))] && Outcome(s, server, maxRetries) == step.result
            else
              && step.next.attempt == s.attempt + 1 && s.attempt + 1 < MaxAttempts(maxRetries)
              && Rounds(s, server, maxRetries) == [Round(s, server(s.attempt))] + Rounds(step.next, server, maxRetries)
              && Outcome(s, server, maxRetries) == Outcome(step.next, server, maxRetries)
  {
    hide React;
    if React(s, server(s.attempt), maxRetries).Again? {
      AgainAdvances(s, server(s.attempt), maxRetries);
    }
  }

  /** What `send_bulk` returns for a payload. */
  function Deliver(payload: string, server: Server, maxRetries: nat): SendResult {
    Outcome(Start(payload), server, maxRetries)
  }

  function Posts(payload: string, server: Server, maxRetries: nat): (posts: seq<Round>)
    ensures posts != []
  {
    Rounds(Start(payload), server, maxRetries)
  }

  // ---------------------------------------------------------------- how an answer is merged

  lemma {:induction false} MergeUntouched(items: seq<BulkItemWrapper>, active: seq<nat>, retry: seq<BulkItemWrapper>, d: nat)
    requires d < |items| && d !in active
    ensures Merge(items, active, retry)[d] == items[d]
    decreases |retry|
  {
    if retry != [] && active != [] {
      assert active[0] in active;
      assert d !in active[1..];
      MergeUntouched(if active[0] < |items| then items[active[0] := retry[0]] else items, active[1..], retry[1..], d);
    }
  }

  lemma {:induction false} MergeAt(items: seq<BulkItemWrapper>, active: seq<nat>, retry: seq<BulkItemWrapper>, p: nat)
    requires StrictlyIncreasing(active) && InRange(active, |items|) && p < |active|
    ensures Merge(items, active, retry)[active[p]] == if p < |retry| then retry[p] else items[active[p]]
    decreases |retry|
  {
    if retry != [] && active != [] {
      var items1 := items[active[0] := retry[0]];
      if p == 0 {
        assert active[0] !in active[1..] by {
          forall k | 0 <= k < |active[1..]| ensures active[1..][k] != active[0] {
            assert active[1..][k] == active[k + 1];
          }
        }
        MergeUntouched(items1, active[1..], retry[1..], active[0]);
      } else {
        assert active[1..][p - 1] == active[p];
        MergeAt(items1, active[1..], retry[1..], p - 1);
      }
    }
  }

  // ---------------------------------------------------------------- the loop invariant

  /** Before every POST: nothing was reported yet, or the documents in flight are exactly the
      ones last reported as retryable, in order, and the payload holds exactly their text. */
  ghost predicate Inv(original: string, s: Loop) {
    if s.items == [] then
      s.payload == original && s.active == []
    else
      && s.active != []
      && StrictlyIncreasing(s.active)
      && InRange(s.active, |s.items|)
      && (forall d | 0 <= d < |s.items| :: s.items[d].IsRecoverable() <==> d in s.active)
      && Extract(original, s.active) == Ok(s.payload)
  }

  lemma PickIncreasing(active: seq<nat>, again: seq<nat>)
    requires StrictlyIncreasing(active) && StrictlyIncreasing(again) && InRange(again, |active|)
    ensures StrictlyIncreasing(Pick(active, again))
  {
  }

  lemma IdentityExtract(original: string, n: nat, again: seq<nat>)
    requires InRange(again, n)
    ensures Pick(Upto(n), again) == again
  {
  }

  /** Which documents have a retryable status after an answer: exactly those picked for the next round. */
  lemma AbsorbedRecoverable(items: seq<BulkItemWrapper>, active: seq<nat>, again: seq<nat>)
    requires again == RecoverablePositions(items, active)
    requires forall d | 0 <= d < |items| && items[d].IsRecoverable() :: d in active
    ensures forall d | 0 <= d < |items| :: items[d].IsRecoverable() <==> d in Pick(active, again)
  {
    forall d | 0 <= d < |items| && items[d].IsRecoverable() ensures d in Pick(active, again) {
      var p :| 0 <= p < |active| && active[p] == d;
      var k :| 0 <= k < |again| && again[k] == p;
      assert Pick(active, again)[k] == d;
    }
  }

  lemma MergedRecoverableIsActive(s: Loop, retry: seq<BulkItemWrapper>)
    requires forall d | 0 <= d < |s.items| && s.items[d].IsRecoverable() :: d in s.active
    ensures forall d | 0 <= d < |s.items| && Merge(s.items, s.active, retry)[d].IsRecoverable() :: d in s.active
  {
    forall d | 0 <= d < |s.items| && Merge(s.items, s.active, retry)[d].IsRecoverable() ensures d in s.active {
      if d !in s.active {
        MergeUntouched(s.items, s.active, retry, d);
      }
    }
  }

  lemma ExtractNonEmptyIsEven(p: string, indices: seq<nat>)
    requires indices != [] && Extract(p, indices).Ok?
    ensures EvenLines(p) && InRange(indices, |Documents(p)|)
  {
  }

  /** The items recorded once `outcome` has been taken in, and the documents they were about. */
  ghost function Recorded(s: Loop, outcome: PostOutcome): seq<BulkItemWrapper> {
    if !Decoded(outcome) then s.items
    else if s.items == [] then outcome.body.value.items
    else Merge(s.items, s.active, outcome.body.value.items)
  }

  ghost function InFlight(s: Loop, outcome: PostOutcome): seq<nat> {
    if s.items == [] && Decoded(outcome) then Upto(|outcome.body.value.items|) else s.active
  }

  lemma StepRecords(s: Loop, outcome: PostOutcome, maxRetries: nat)
    ensures var step := React(s, outcome, maxRetries);
            && (step.Again? ==> step.next.items == Recorded(s, outcome))
            && (step.Done? && step.result.Ok? ==> Decoded(outcome) && step.result.value.items == Recorded(s, outcome))
            && (step.Done? && step.result.Ok? && !TakenUnchecked(Round(s, outcome)) ==>
                  RecoverablePositions(Recorded(s, outcome), InFlight(s, outcome)) == [])
  {
  }

  lemma SettleKeepsInv(original: string, attempt: nat, payload: string, items: seq<BulkItemWrapper>, active: seq<nat>, maxRetries: nat)
    requires StrictlyIncreasing(active) && InRange(active, |items|)
    requires forall d | 0 <= d < |items| && items[d].IsRecoverable() :: d in active
    requires var again := RecoverablePositions(items, active);
             again != [] ==> Extract(payload, again) == Extract(original, Pick(active, again))
    requires Settle(attempt, payload, items, active, maxRetries).Again?
    ensures Inv(original, Settle(attempt, payload, items, active, maxRetries).next)
  {
    hide Extract, RecoverablePositions, HasUnrecoverable, RecoverableMessage;
    var again := RecoverablePositions(items, active);
    AbsorbedRecoverable(items, active, again);
    PickIncreasing(active, again);
    assert Pick(active, again)[0] == active[again[0]];
  }

  lemma AbsorbKeepsInv(original: string, s: Loop, resp: BulkResponse, maxRetries: nat)
    requires Inv(original, s)
    requires Absorb(s, resp, maxRetries).Again?
    ensures Inv(original, Absorb(s, resp, maxRetries).next)
  {
    if s.items == [] {
      var active := Upto(|resp.items|);
      forall d: nat | d < |resp.items| ensures d in active {
        UptoContains(|resp.items|, d);
      }
      IdentityExtract(original, |resp.items|, RecoverablePositions(resp.items, active));
      SettleKeepsInv(original, s.attempt, s.payload, resp.items, active, maxRetries);
    } else {
      var items := Merge(s.items, s.active, resp.items);
      MergedRecoverableIsActive(s, resp.items);
      ExtractNonEmptyIsEven(original, s.active);
      ExtractComposes(original, s.active, RecoverablePositions(items, s.active));
      SettleKeepsInv(original, s.attempt, s.payload, items, s.active, maxRetries);
    }
  }

  lemma StepKeepsInv(original: string, s: Loop, outcome: PostOutcome, maxRetries: nat)
    requires Inv(original, s)
    requires React(s, outcome, maxRetries).Again?
    ensures Inv(original, React(s, outcome, maxRetries).next)
    ensures React(s, outcome, maxRetries).next.attempt == s.attempt + 1 < MaxAttempts(maxRetries)
  {
    if Decoded(outcome) && !IsTransientStatus(outcome.status) {
      AbsorbKeepsInv(original, s, outcome.body.value, maxRetries);
    }
  }

  lemma {:induction false} RoundsFromRound(s: Loop, server: Server, maxRetries: nat, k: nat)
    requires s.attempt < MaxAttempts(maxRetries)
    requires k < |Rounds(s, server, maxRetries)|
    ensures var b := Rounds(s, server, maxRetries)[k].before;
            && b.attempt < MaxAttempts(maxRetries)
            && Rounds(b, server, maxRetries) == Rounds(s, server, maxRetries)[k..]
            && Outcome(b, server, maxRetries) == Outcome(s, server, maxRetries)
    decreases k
  {
    hide React, Rounds, Outcome;
    UnfoldRound(s, server, maxRetries);
    var rounds := Rounds(s, server, maxRetries);
    if k == 0 {
      assert rounds[0..] == rounds;
    } else {
      var next := React(s, server(s.attempt), maxRetries).next;
      RoundsFromRound(next, server, maxRetries, k - 1);
      assert rounds[1..] == Rounds(next, server, maxRetries);
      assert rounds[1..][k - 1..] == rounds[k..];
    }
  }

  /** Consecutive POSTs are one loop iteration apart. */
  lemma {:induction false} Successive(s: Loop, server: Server, maxRetries: nat, k: nat)
    requires s.attempt < MaxAttempts(maxRetries)
    requires 0 < k < |Rounds(s, server, maxRetries)|
    ensures var r, q := Rounds(s, server, maxRetries)[k - 1], Rounds(s, server, maxRetries)[k];
            && React(r.before, r.outcome, maxRetries) == Again(q.before)
            && r.outcome == server(r.before.attempt) && q.outcome == server(q.before.attempt)
            && q.before.attempt == r.before.attempt + 1 < MaxAttempts(maxRetries)
    decreases k
  {
    hide React, Rounds, Outcome;
    UnfoldRound(s, server, maxRetries);
    var next := React(s, server(s.attempt), maxRetries).next;
    assert Rounds(s, server, maxRetries) == [Round(s, server(s.attempt))] + Rounds(next, server, maxRetries);
    if k > 1 {
      Successive(next, server, maxRetries, k - 1);
    }
  }

  lemma {:induction false} InvInRound(original: string, s: Loop, server: Server, maxRetries: nat, k: nat)
    requires s.attempt < MaxAttempts(maxRetries) && Inv(original, s)
    requires k < |Rounds(s, server, maxRetries)|
    ensures Inv(original, Rounds(s, server, maxRetries)[k].before)
    ensures Rounds(s, server, maxRetries)[k].before.attempt == s.attempt + k < MaxAttempts(maxRetries)
    ensures Rounds(s, server, maxRetries)[k].outcome == server(s.attempt + k)
    decreases k
  {
    hide Inv, React, Rounds;
    if k > 0 {
      var r := Rounds(s, server, maxRetries)[k - 1];
      InvInRound(original, s, server, maxRetries, k - 1);
      Successive(s, server, maxRetries, k);
      StepKeepsInv(original, r.before, r.outcome, maxRetries);
    }
  }

  /** In every POST the k-th document sent is document `active[k]` of the original payload, the
      indices increase strictly, and exactly the documents last reported retryable are sent. */
  lemma EveryPostIsAligned(payload: string, server: Server, maxRetries: nat, k: nat)
    requires k < |Posts(payload, server, maxRetries)|
    ensures var s := Posts(payload, server, maxRetries)[k].before;
            if s.items == [] then s.payload == payload else
              && EvenLines(s.payload)
              && |Documents(s.payload)| == |s.active|
              && StrictlyIncreasing(s.active)
              && InRange(s.active, |Documents(payload)|)
              && (forall j | 0 <= j < |s.active| :: Documents(s.payload)[j] == Terminated(Documents(payload)[s.active[j]]))
              && (forall d | 0 <= d < |s.items| :: s.items[d].IsRecoverable() <==> d in s.active)
  {
    InvInRound(payload, Start(payload), server, maxRetries, k);
    var s := Posts(payload, server, maxRetries)[k].before;
    if s.items != [] {
      ExtractNonEmptyIsEven(payload, s.active);
      ExtractedDocuments(payload, s.active);
    }
  }

  lemma PostsAreBounded(payload: string, server: Server, maxRetries: nat)
    ensures 1 <= |Posts(payload, server, maxRetries)| <= MaxAttempts(maxRetries) <= maxRetries + 1
  {
    InvInRound(payload, Start(payload), server, maxRetries, |Posts(payload, server, maxRetries)| - 1);
  }

  // ---------------------------------------------------------------- settled documents

  lemma StepKeepsSettled(original: string, s: Loop, outcome: PostOutcome, maxRetries: nat, d: nat)
    requires Inv(original, s) && d < |s.items| && !s.items[d].IsRecoverable()
    ensures var step := React(s, outcome, maxRetries);
            && (step.Again? ==> d < |step.next.items| && step.next.items[d] == s.items[d] && d !in step.next.active)
            && (step.Done? && step.result.Ok? ==> d < |step.result.value.items| && step.result.value.items[d] == s.items[d])
  {
    StepRecords(s, outcome, maxRetries);
    if Decoded(outcome) {
      MergeUntouched(s.items, s.active, outcome.body.value.items, d);
    }
    if React(s, outcome, maxRetries).Again? {
      StepKeepsInv(original, s, outcome, maxRetries);
    }
  }

  lemma SettledIsInactive(original: string, s: Loop, d: nat)
    requires Inv(original, s) && d < |s.items| && !s.items[d].IsRecoverable()
    ensures d !in s.active
  {
  }

  /** Once a document has been accepted or refused for good it is never sent again, and its
      entry is the one that comes back. */
  lemma {:induction false} SettledStaysSettled(original: string, s: Loop, server: Server, maxRetries: nat, d: nat)
    requires s.attempt < MaxAttempts(maxRetries)
    requires Inv(original, s) && d < |s.items| && !s.items[d].IsRecoverable()
    ensures forall k | 0 <= k < |Rounds(s, server, maxRetries)| ::
              d !in Rounds(s, server, maxRetries)[k].before.active
    ensures var r := Outcome(s, server, maxRetries);
            r.Ok? ==> d < |r.value.items| && r.value.items[d] == s.items[d]
    decreases MaxAttempts(maxRetries) - s.attempt
  {
    hide React, Rounds, Outcome, Inv;
    StepKeepsSettled(original, s, server(s.attempt), maxRetries, d);
    UnfoldRound(s, server, maxRetries);
    assert d !in s.active by { SettledIsInactive(original, s, d); }
    match React(s, server(s.attempt), maxRetries)
    case Done(_) =>
    case Again(next) =>
      StepKeepsInv(original, s, server(s.attempt), maxRetries);
      SettledStaysSettled(original, next, server, maxRetries, d);
  }

  /** A document settled before POST `a` is in no POST from `a` on. */
  lemma SettledNeverResent(payload: string, server: Server, maxRetries: nat, a: nat, b: nat, d: nat)
    requires a <= b < |Posts(payload, server, maxRetries)|
    requires var s := Posts(payload, server, maxRetries)[a].before;
             d < |s.items| && !s.items[d].IsRecoverable()
    ensures d !in Posts(payload, server, maxRetries)[b].before.active
    ensures Posts(payload, server, maxRetries)[b].before.items != []
    ensures var r := Deliver(payload, server, maxRetries);
            r.Ok? ==> d < |r.value.items| && r.value.items[d] == Posts(payload, server, maxRetries)[a].before.items[d]
  {
    hide React, Rounds, Outcome;
    var rounds := Posts(payload, server, maxRetries);
    InvInRound(payload, Start(payload), server, maxRetries, a);
    RoundsFromRound(Start(payload), server, maxRetries, a);
    SettledStaysSettled(payload, rounds[a].before, server, maxRetries, d);
    assert rounds[a..][b - a] == rounds[b];
    ItemsStay(rounds[a].before, server, maxRetries, b - a);
  }

  lemma {:induction false} ItemsStay(s: Loop, server: Server, maxRetries: nat, k: nat)
    requires s.attempt < MaxAttempts(maxRetries) && s.items != []
    requires k < |Rounds(s, server, maxRetries)|
    ensures Rounds(s, server, maxRetries)[k].before.items != []
    decreases k
  {
    hide React, Rounds, Outcome;
    UnfoldRound(s, server, maxRetries);
    StepRecords(s, server(s.attempt), maxRetries);
    if k > 0 {
      var next := React(s, server(s.attempt), maxRetries).next;
      ItemsStay(next, server, maxRetries, k - 1);
    } else {
      assert Rounds(s, server, maxRetries)[0] == Round(s, server(s.attempt));
    }
  }

  // ---------------------------------------------------------------- the result against the answers

  /** What one POST reports about document `d`, if anything. */
  function Report(r: Round, d: nat): Option<BulkItemWrapper> {
    if Decoded(r.outcome) then
      var items := r.outcome.body.value.items;
      if r.before.items == [] then
        if d < |items| then Some(items[d]) else None
      else if exists j | 0 <= j < |r.before.active| :: r.before.active[j] == d && j < |items| then
        var j := PositionOf(r.before.active, d);
        if j < |items| then Some(items[j]) else None
      else None
    else None
  }

  function PositionOf(s: seq<nat>, d: nat): (j: nat)
    ensures j <= |s|
    ensures d in s ==> j < |s| && s[j] == d
  {
    if s == [] then 0 else if s[0] == d then 0 else 1 + PositionOf(s[1..], d)
  }

  /** The last thing the cluster said about document `d`. */
  function LastReport(rounds: seq<Round>, d: nat): Option<BulkItemWrapper>
    decreases |rounds|
  {
    if rounds == [] then None else
    var last := Report(rounds[|rounds| - 1], d);
    if last.Some? then last else LastReport(rounds[..|rounds| - 1], d)
  }

  lemma LastReportSnoc(history: seq<Round>, r: Round, d: nat)
    ensures LastReport(history + [r], d) == if Report(r, d).Some? then Report(r, d) else LastReport(history, d)
  {
    assert (history + [r])[..|history|] == history;
  }

  function ItemAt(items: seq<BulkItemWrapper>, d: nat): Option<BulkItemWrapper> {
    if d < |items| then Some(items[d]) else None
  }

  /** The recorded items are the last reports, and there are no others. */
  ghost predicate Tracks(history: seq<Round>, items: seq<BulkItemWrapper>) {
    forall d: nat :: LastReport(history, d) == ItemAt(items, d)
  }

  lemma PositionInIncreasing(active: seq<nat>, j: nat)
    requires StrictlyIncreasing(active) && j < |active|
    ensures PositionOf(active, active[j]) == j
  {
    var p := PositionOf(active, active[j]);
    assert active[j] in active;
    assert active[p] == active[j];
  }

  lemma MergeIsReport(original: string, s: Loop, outcome: PostOutcome, d: nat)
    requires Inv(original, s) && s.items != [] && d < |s.items|
    requires Decoded(outcome)
    ensures Merge(s.items, s.active, outcome.body.value.items)[d]
         == match Report(Round(s, outcome), d) case Some(report) => report case None => s.items[d]
  {
    var retry := outcome.body.value.items;
    if d in s.active {
      var j :| 0 <= j < |s.active| && s.active[j] == d;
      PositionInIncreasing(s.active, j);
      MergeAt(s.items, s.active, retry, j);
    } else {
      MergeUntouched(s.items, s.active, retry, d);
    }
  }

  lemma RecordedTracks(original: string, s: Loop, outcome: PostOutcome, history: seq<Round>)
    requires Inv(original, s) && Tracks(history, s.items)
    ensures Tracks(history + [Round(s, outcome)], Recorded(s, outcome))
  {
    var r, items := Round(s, outcome), Recorded(s, outcome);
    forall d: nat ensures LastReport(history + [r], d) == ItemAt(items, d) {
      LastReportSnoc(history, r, d);
      if s.items != [] && Decoded(outcome) && d < |s.items| {
        MergeIsReport(original, s, outcome, d);
      }
    }
  }

  lemma {:induction false} OutcomeTracks(original: string, s: Loop, server: Server, maxRetries: nat, history: seq<Round>)
    requires s.attempt < MaxAttempts(maxRetries)
    requires Inv(original, s) && Tracks(history, s.items)
    ensures var r := Outcome(s, server, maxRetries);
            r.Ok? ==> Tracks(history + Rounds(s, server, maxRetries), r.value.items)
    decreases MaxAttempts(maxRetries) - s.attempt
  {
    hide React, Rounds, Outcome, Inv, Tracks;
    var r := Round(s, server(s.attempt));
    UnfoldRound(s, server, maxRetries);
    StepRecords(s, server(s.attempt), maxRetries);
    RecordedTracks(original, s, server(s.attempt), history);
    match React(s, server(s.attempt), maxRetries)
    case Done(_) =>
      assert Rounds(s, server, maxRetries) == [r];
    case Again(next) =>
      StepKeepsInv(original, s, server(s.attempt), maxRetries);
      OutcomeTracks(original, next, server, maxRetries, history + [r]);
      assert history + [r] + Rounds(next, server, maxRetries) == history + Rounds(s, server, maxRetries);
  }

  /** Every entry of a successful result is the last thing the cluster said about that document,
      and a document without an entry was never mentioned. */
  lemma ResultIsLatest(payload: string, server: Server, maxRetries: nat, d: nat)
    requires Deliver(payload, server, maxRetries).Ok?
    ensures LastReport(Posts(payload, server, maxRetries), d)
         == ItemAt(Deliver(payload, server, maxRetries).value.items, d)
  {
    OutcomeTracks(payload, Start(payload), server, maxRetries, []);
    assert [] + Posts(payload, server, maxRetries) == Posts(payload, server, maxRetries);
  }

  /** Item `j` of the answer to this POST is about document `d`. */
  predicate SpeaksOf(r: Round, j: nat, d: nat) {
    && Decoded(r.outcome) && j < |r.outcome.body.value.items|
    && if r.before.items == [] then j == d else j < |r.before.active| && r.before.active[j] == d
  }

  ghost predicate Silent(r: Round, d: nat) {
    forall j: nat :: !SpeaksOf(r, j, d)
  }

  lemma ReportIsItem(r: Round, d: nat) returns (j: nat)
    requires StrictlyIncreasing(r.before.active)
    ensures Report(r, d).None? ==> Silent(r, d)
    ensures Report(r, d).Some? ==> SpeaksOf(r, j, d) && r.outcome.body.value.items[j] == Report(r, d).value
  {
    j := if r.before.items == [] then d else PositionOf(r.before.active, d);
    if r.before.items != [] && Report(r, d).None? {
      forall i: nat ensures !SpeaksOf(r, i, d) {
        if SpeaksOf(r, i, d) {
          PositionInIncreasing(r.before.active, i);
        }
      }
    }
  }

  /** Item `j` of the answer to POST `k` is about document `d`, and no later answer is. */
  ghost predicate SpeaksLast(rounds: seq<Round>, k: nat, j: nat, d: nat) {
    && k < |rounds| && SpeaksOf(rounds[k], j, d)
    && forall k': nat | k < k' < |rounds| :: Silent(rounds[k'], d)
  }

  lemma {:induction false} LastReportIsItem(rounds: seq<Round>, d: nat) returns (k: nat, j: nat)
    requires forall i | 0 <= i < |rounds| :: StrictlyIncreasing(rounds[i].before.active)
    requires LastReport(rounds, d).Some?
    ensures SpeaksLast(rounds, k, j, d) && rounds[k].outcome.body.value.items[j] == LastReport(rounds, d).value
    decreases |rounds|
  {
    var last := |rounds| - 1;
    j := ReportIsItem(rounds[last], d);
    if Report(rounds[last], d).Some? {
      k := last;
    } else {
      k, j := LastReportIsItem(rounds[..last], d);
      assert rounds[..last][k] == rounds[k];
      assert forall i | 0 <= i < last :: rounds[..last][i] == rounds[i];
    }
  }

  /** Two items about one document after which nothing is said about it are the same item. */
  lemma SpeaksLastOnce(rounds: seq<Round>, k: nat, j: nat, k': nat, j': nat, d: nat)
    requires forall i | 0 <= i < |rounds| :: StrictlyIncreasing(rounds[i].before.active)
    requires SpeaksLast(rounds, k, j, d) && SpeaksLast(rounds, k', j', d)
    ensures k == k' && j == j'
  {
  }

  lemma {:induction false} SilentMeansNoReport(rounds: seq<Round>, d: nat)
    requires forall i | 0 <= i < |rounds| :: StrictlyIncreasing(rounds[i].before.active)
    requires LastReport(rounds, d).None?
    ensures forall k | 0 <= k < |rounds| :: Silent(rounds[k], d)
    decreases |rounds|
  {
    if rounds != [] {
      var last := |rounds| - 1;
      var _ := ReportIsItem(rounds[last], d);
      SilentMeansNoReport(rounds[..last], d);
      assert forall i | 0 <= i < last :: rounds[..last][i] == rounds[i];
    }
  }

  /** What the cluster said last about a document is the item of the last answer that speaks of it. */
  lemma LastReportIff(rounds: seq<Round>, d: nat, item: BulkItemWrapper)
    requires forall i | 0 <= i < |rounds| :: StrictlyIncreasing(rounds[i].before.active)
    ensures LastReport(rounds, d) == Some(item) <==>
            exists k: nat, j: nat :: SpeaksLast(rounds, k, j, d) && rounds[k].outcome.body.value.items[j] == item
  {
    hide LastReport, SpeaksOf;
    if LastReport(rounds, d).Some? {
      var k, j := LastReportIsItem(rounds, d);
      forall k': nat, j': nat | SpeaksLast(rounds, k', j', d) ensures k' == k && j' == j {
        SpeaksLastOnce(rounds, k, j, k', j', d);
      }
    } else {
      SilentMeansNoReport(rounds, d);
    }
  }

  /** Every item of every answer is a success or a failure. */
  ghost predicate AllDecided(rounds: seq<Round>) {
    forall k | 0 <= k < |rounds| && Decoded(rounds[k].outcome) :: ItemsDecided(rounds[k].outcome.body.value.items)
  }

  predicate ItemsDecided(items: seq<BulkItemWrapper>) {
    forall j | 0 <= j < |items| :: !items[j].IsUndecided()
  }

  lemma {:induction false} LastReportDecides(rounds: seq<Round>, d: nat)
    requires AllDecided(rounds) && LastReport(rounds, d).Some?
    ensures !LastReport(rounds, d).value.IsUndecided()
    decreases |rounds|
  {
    var last := |rounds| - 1;
    if Report(rounds[last], d).None? {
      assert forall i | 0 <= i < last :: rounds[..last][i] == rounds[i];
      LastReportDecides(rounds[..last], d);
    }
  }

  // ---------------------------------------------------------------- when retryable items slip through

  ghost function LastPost(payload: string, server: Server, maxRetries: nat): Round {
    var rounds := Posts(payload, server, maxRetries);
    rounds[|rounds| - 1]
  }

  lemma InspectedHasNoRecoverable(original: string, s: Loop, outcome: PostOutcome)
    requires Inv(original, s) && Decoded(outcome)
    requires RecoverablePositions(Recorded(s, outcome), InFlight(s, outcome)) == []
    ensures forall d | 0 <= d < |Recorded(s, outcome)| :: !Recorded(s, outcome)[d].IsRecoverable()
  {
    var items, active := Recorded(s, outcome), InFlight(s, outcome);
    if s.items != [] {
      MergedRecoverableIsActive(s, outcome.body.value.items);
    }
    forall d | 0 <= d < |items| ensures !items[d].IsRecoverable() {
      if s.items == [] {
        UptoContains(|items|, d);
      }
      assert items[d].IsRecoverable() ==> d in active;
    }
  }

  /** A successful result holds a retryable item exactly when the first decodable answer was not
      flagged `errors` although it held one; such an answer is returned without being inspected. */
  lemma OkHasRecoverableIff(payload: string, server: Server, maxRetries: nat)
    requires Deliver(payload, server, maxRetries).Ok?
    ensures Deliver(payload, server, maxRetries).value.HasRecoverable()
       <==> var last := LastPost(payload, server, maxRetries);
            TakenUnchecked(last) && last.outcome.body.value.HasRecoverable()
  {
    var rounds := Posts(payload, server, maxRetries);
    var k := |rounds| - 1;
    var last := rounds[k];
    InvInRound(payload, Start(payload), server, maxRetries, k);
    RoundsFromRound(Start(payload), server, maxRetries, k);
    assert rounds[k..] == [last];
    UnfoldRound(last.before, server, maxRetries);
    StepRecords(last.before, last.outcome, maxRetries);
    if !TakenUnchecked(last) {
      InspectedHasNoRecoverable(payload, last.before, last.outcome);
    }
  }

  /** Without the flag the retry loop leaves retryable items behind on its very first answer. */
  lemma UncheckedAnswerExample()
    ensures var item := BulkItemWrapper(Some(BulkItem(429)), None, None, None);
            var server: Server := (k: nat) => Response(200, "OK", "", Some(BulkResponse(false, [item])));
            var r := Deliver("{}\n{}\n", server, 3);
            r.Ok? && r.value.HasRecoverable()
  {
    var item := BulkItemWrapper(Some(BulkItem(429)), None, None, None);
    assert item.IsRecoverable();
    assert [item][0].IsRecoverable();
  }

  // ---------------------------------------------------------------- coverage and failure classes

  /** If `r` is the first decodable answer and flagged `errors`, it lists `n` items. */
  predicate ListsAll(r: Round, n: nat) {
    r.before.items == [] && Decoded(r.outcome) && r.outcome.body.value.errors
    ==> |r.outcome.body.value.items| == n
  }

  ghost predicate AllListed(rounds: seq<Round>, n: nat) {
    forall k | 0 <= k < |rounds| :: ListsAll(rounds[k], n)
  }

  lemma {:induction false} OutcomeLength(s: Loop, server: Server, maxRetries: nat)
    requires s.attempt < MaxAttempts(maxRetries) && s.items != []
    ensures Outcome(s, server, maxRetries).Ok? ==> |Outcome(s, server, maxRetries).value.items| == |s.items|
    decreases MaxAttempts(maxRetries) - s.attempt
  {
    hide React, Rounds, Outcome;
    StepRecords(s, server(s.attempt), maxRetries);
    UnfoldRound(s, server, maxRetries);
    match React(s, server(s.attempt), maxRetries)
    case Done(_) =>
    case Again(next) => OutcomeLength(next, server, maxRetries);
  }

  lemma StepCovers(s: Loop, outcome: PostOutcome, maxRetries: nat, n: nat)
    requires s.items == [] && ListsAll(Round(s, outcome), n)
    ensures var step := React(s, outcome, maxRetries);
            && (step.Again? ==> step.next.items == [] || |step.next.items| == n)
            && (step.Done? && step.result.Ok? ==> |step.result.value.items| == n || TakenUnchecked(Round(s, outcome)))
  {
    StepRecords(s, outcome, maxRetries);
  }

  ghost predicate EndsUnchecked(rounds: seq<Round>)
    requires rounds != []
  {
    TakenUnchecked(rounds[|rounds| - 1])
  }

  lemma AllListedSplit(r: Round, tail: seq<Round>, n: nat)
    ensures AllListed([r] + tail, n) <==> ListsAll(r, n) && AllListed(tail, n)
  {
    var all := [r] + tail;
    assert all[0] == r && forall k | 0 <= k < |tail| :: all[k + 1] == tail[k];
  }

  lemma {:induction false} OutcomeCovers(s: Loop, server: Server, maxRetries: nat, n: nat)
    requires s.attempt < MaxAttempts(maxRetries) && s.items == []
    requires AllListed(Rounds(s, server, maxRetries), n)
    ensures var r := Outcome(s, server, maxRetries);
            r.Ok? ==> |r.value.items| == n || EndsUnchecked(Rounds(s, server, maxRetries))
    decreases MaxAttempts(maxRetries) - s.attempt
  {
    hide React, Rounds, Outcome, AllListed, ListsAll, TakenUnchecked;
    var r := Round(s, server(s.attempt));
    UnfoldRound(s, server, maxRetries);
    match React(s, r.outcome, maxRetries)
    case Done(_) =>
      AllListedSplit(r, [], n);
      assert [r] + [] == [r];
      StepCovers(s, r.outcome, maxRetries, n);
    case Again(next) =>
      var tail := Rounds(next, server, maxRetries);
      AllListedSplit(r, tail, n);
      StepCovers(s, r.outcome, maxRetries, n);
      if next.items == [] {
        OutcomeCovers(next, server, maxRetries, n);
        EndsAlike(r, tail);
      } else {
        OutcomeLength(next, server, maxRetries);
      }
  }

  lemma EndsAlike(r: Round, tail: seq<Round>)
    requires tail != []
    ensures EndsUnchecked([r] + tail) <==> EndsUnchecked(tail)
  {
  }

  /** If erroneous answers list every document, then so does every result that was inspected. */
  lemma ResultCovers(payload: string, server: Server, maxRetries: nat, n: nat)
    requires AllListed(Posts(payload, server, maxRetries), n)
    requires Deliver(payload, server, maxRetries).Ok?
    ensures |Deliver(payload, server, maxRetries).value.items| == n || TakenUnchecked(LastPost(payload, server, maxRetries))
  {
    hide React, Rounds, Outcome, AllListed;
    OutcomeCovers(Start(payload), server, maxRetries, n);
  }

  /** A first decodable answer that flags errors and has no entry for document `d`. */
  predicate PassesOver(r: Round, d: nat) {
    r.before.items == [] && Decoded(r.outcome) && r.outcome.body.value.errors && |r.outcome.body.value.items| <= d
  }

  ghost predicate AnyPassesOver(rounds: seq<Round>, d: nat) {
    exists k | 0 <= k < |rounds| :: PassesOver(rounds[k], d)
  }

  /** Once items are recorded, no later answer is the first one. */
  lemma LaterAnswersAreNotFirst(s: Loop, server: Server, maxRetries: nat, d: nat)
    requires s.attempt < MaxAttempts(maxRetries) && s.items != []
    ensures !AnyPassesOver(Rounds(s, server, maxRetries), d) && !EndsUnchecked(Rounds(s, server, maxRetries))
  {
    hide React, Rounds;
    var rounds := Rounds(s, server, maxRetries);
    forall k | 0 <= k < |rounds| ensures rounds[k].before.items != [] {
      ItemsStay(s, server, maxRetries, k);
    }
  }

  lemma AfterFirstRound(r: Round, tail: seq<Round>, d: nat)
    requires tail != []
    ensures AnyPassesOver([r] + tail, d) <==> PassesOver(r, d) || AnyPassesOver(tail, d)
    ensures EndsUnchecked([r] + tail) <==> EndsUnchecked(tail)
  {
    var all := [r] + tail;
    assert all[0] == r && forall k | 0 <= k < |tail| :: all[k + 1] == tail[k];
    if AnyPassesOver(tail, d) {
      var k :| 0 <= k < |tail| && PassesOver(tail[k], d);
      assert PassesOver(all[k + 1], d);
    }
    if AnyPassesOver(all, d) && !PassesOver(r, d) {
      var k :| 0 <= k < |all| && PassesOver(all[k], d);
      assert PassesOver(tail[k - 1], d);
    }
  }

  lemma {:induction false} OutcomePassesOverIff(s: Loop, server: Server, maxRetries: nat, d: nat)
    requires s.attempt < MaxAttempts(maxRetries) && s.items == []
    requires Outcome(s, server, maxRetries).Ok?
    ensures |Outcome(s, server, maxRetries).value.items| <= d && !EndsUnchecked(Rounds(s, server, maxRetries)) <==>
            AnyPassesOver(Rounds(s, server, maxRetries), d)
    decreases MaxAttempts(maxRetries) - s.attempt
  {
    var r := Round(s, server(s.attempt));
    StepRecords(s, r.outcome, maxRetries);
    UnfoldRound(s, server, maxRetries);
    FirstStep(s, r.outcome, maxRetries);
    hide React, Rounds, Outcome;
    match React(s, r.outcome, maxRetries)
    case Done(_) =>
      assert [r][0] == r;
    case Again(next) =>
      AfterFirstRound(r, Rounds(next, server, maxRetries), d);
      if next.items == [] {
        OutcomePassesOverIff(next, server, maxRetries, d);
      } else {
        OutcomeLength(next, server, maxRetries);
        LaterAnswersAreNotFirst(next, server, maxRetries, d);
      }
  }

  /** The loop goes on without items only after an answer that could not be decoded, and with items
      only after a flagged one. */
  lemma FirstStep(s: Loop, outcome: PostOutcome, maxRetries: nat)
    requires s.items == []
    ensures var step := React(s, outcome, maxRetries);
            && (step.Again? ==> (step.next.items == [] <==> !Decoded(outcome)))
            && (step.Again? && Decoded(outcome) ==> outcome.body.value.errors && step.next.items == outcome.body.value.items)
  {
  }

  /** A result of an inspected answer misses document `d` exactly when the first decodable answer
      flagged errors and listed at most `d` items: retries never change how many there are. */
  lemma ResultMissesIff(payload: string, server: Server, maxRetries: nat, d: nat)
    requires Deliver(payload, server, maxRetries).Ok?
    ensures |Deliver(payload, server, maxRetries).value.items| <= d && !TakenUnchecked(LastPost(payload, server, maxRetries)) <==>
            AnyPassesOver(Posts(payload, server, maxRetries), d)
  {
    OutcomePassesOverIff(Start(payload), server, maxRetries, d);
  }

  /** A status that is neither a success nor retried. */
  predicate IsOtherStatus(outcome: PostOutcome) {
    outcome.Response? && !IsTransientStatus(outcome.status) && !(200 <= outcome.status < 300)
  }

  /** A run that fails without an answer of another status has made every attempt it may, and its failure
      is transient. */
  lemma ExhaustedIsTransient(payload: string, server: Server, maxRetries: nat)
    requires Deliver(payload, server, maxRetries).Err? && Deliver(payload, server, maxRetries).error.BulkFailed?
    ensures !IsOtherStatus(LastPost(payload, server, maxRetries).outcome) ==>
              && |Posts(payload, server, maxRetries)| == MaxAttempts(maxRetries)
              && Classify(Deliver(payload, server, maxRetries).error) == Transient
  {
    hide React, Rounds, Outcome, Classify;
    var k := |Posts(payload, server, maxRetries)| - 1;
    var last := LastPost(payload, server, maxRetries);
    InvInRound(payload, Start(payload), server, maxRetries, k);
    RoundsFromRound(Start(payload), server, maxRetries, k);
    UnfoldRound(last.before, server, maxRetries);
    if !IsOtherStatus(last.outcome) {
      GivingUpIsTransient(last.before, last.outcome, maxRetries);
    }
  }

  /** Giving up is always transient: retries end with a message of one of the three retried kinds. */
  lemma GivingUpIsTransient(s: Loop, outcome: PostOutcome, maxRetries: nat)
    requires React(s, outcome, maxRetries).Done? && React(s, outcome, maxRetries).result.Err?
    requires outcome.TransportError? || IsTransientStatus(outcome.status)
             || (200 <= outcome.status < 300 && React(s, outcome, maxRetries).result.error.BulkFailed?)
    ensures Classify(React(s, outcome, maxRetries).result.error) == Transient
    ensures s.attempt + 1 >= MaxAttempts(maxRetries)
  {
    match outcome
    case TransportError(detail) =>
      NetworkMessageIsTransient(s.attempt + 1, detail, maxRetries);
    case Response(status, phrase, text, body) =>
      if IsTransientStatus(status) {
        TransientMessageIsTransient(status, phrase, s.attempt + 1, maxRetries);
      } else {
        var resp := body.value;
        var items := if s.items == [] then resp.items else Merge(s.items, s.active, resp.items);
        var active := if s.items == [] then Upto(|resp.items|) else s.active;
        RecoverableMessageIsTransient(|Prepared(s.payload, items, active).value.value.indices|, maxRetries, maxRetries);
      }
  }
}
