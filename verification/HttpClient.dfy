/** The bulk client: an object holding the endpoint rotation state, and the retry loop that drives it. */
module HttpClients {
  import opened Wrappers
  import opened Text
  import opened Widths
  import opened Endpoints
  import opened Rotations
  import opened Ndjson
  import opened BulkItems
  import opened Failures
  import opened BulkRetry

  class HttpClient {
    const endpoints: seq<string>
    const cooldowns: array<nat>
    const maxRetries: nat
    var currentEndpoint: nat

    ghost predicate Valid()
      reads this
    {
      cooldowns.Length == |endpoints| && currentEndpoint <= USIZE_MAX
    }

    function State(): Rotation
      reads this, cooldowns
    {
      Rotation(currentEndpoint, cooldowns[..])
    }

    constructor (names: seq<string>, maxRetries: nat)
      ensures Valid() && fresh(cooldowns)
      ensures endpoints == Stored(names)
      ensures forall i | 0 <= i < cooldowns.Length :: cooldowns[i] == 0
      ensures currentEndpoint == 0 && this.maxRetries == maxRetries
    {
      endpoints := Stored(names);
      cooldowns := new nat[|names|](_ => 0);
      currentEndpoint := 0;
      this.maxRetries := maxRetries;
    }

    method NextEndpoint(now: nat) returns (endpoint: string, ghost chosen: nat)
      requires Valid()
      modifies this`currentEndpoint
      ensures Valid()
      ensures |endpoints| == 0 ==> endpoint == ""
      ensures |endpoints| > 0 ==> chosen == Asked(endpoints, old(State()), now) && endpoint == endpoints[chosen]
      ensures currentEndpoint == CounterAfter(|endpoints|, old(currentEndpoint), 1)
    {
      var count := |endpoints|;
      chosen := 0;
      if count == 0 {
        return "", 0;
      }
      if count == 1 {
        return endpoints[0], 0;
      }
      var startIdx := currentEndpoint % count;
      currentEndpoint := (currentEndpoint + 1) % (USIZE_MAX + 1);
      for offset := 0 to count
        invariant Choose(cooldowns[..], now, startIdx, 0) == Choose(cooldowns[..], now, startIdx, offset)
      {
        var candidate := Candidate(count, startIdx, offset);
        if cooldowns[candidate] <= now {
          return endpoints[candidate], candidate;
        }
      }
      return endpoints[startIdx], startIdx;
    }

    method MarkEndpointFailed(endpoint: string, now: nat)
      requires Valid()
      modifies cooldowns
      ensures Valid()
      ensures cooldowns[..] == Marked(endpoints, old(cooldowns[..]), endpoint, now)
    {
      var i := IndexOf(endpoints, Normalize(endpoint));
      if i < |endpoints| {
        cooldowns[i] := RestUntil(now);
      }
    }

    /** Drives the retry loop. `asking(k)` and `failing(k)` are the wall clock when the k-th endpoint is
        chosen and when its failure is noted; they only steer which endpoints are asked. The ghost
        result lists the POSTs made. */
    method SendBulk(payload: string, server: Server, asking: nat -> nat, failing: nat -> nat)
      returns (result: SendResult, ghost rounds: seq<Round>)
      requires Valid()
      modifies this`currentEndpoint, cooldowns
      ensures Valid()
      ensures result == Deliver(payload, server, maxRetries)
      ensures rounds == Posts(payload, server, maxRetries)
      ensures State() == AfterPosts(endpoints, old(State()), asking, failing, rounds)
    {
      hide Absorb, Merge, Settle, Rounds, Outcome, CheckStatus, NetworkMessage, TransientMessage, Choose, Asked, Marked;
      var maxAttempts := MaxAttempts(maxRetries);
      var attempt: nat := 0;
      var currentPayload := payload;
      var activeIndices: seq<nat> := [];
      var finalItems := new BulkItemWrapper[0];
      rounds := [];
      ghost var s := Start(payload);

      while true
        invariant Valid() && fresh(finalItems)
        invariant s.attempt == attempt < maxAttempts && s.payload == currentPayload
        invariant s.active == activeIndices && s.items == finalItems[..]
        invariant Remains(payload, rounds, s, server, maxRetries)
        invariant |rounds| == attempt && State() == AfterPosts(endpoints, old(State()), asking, failing, rounds)
        decreases maxAttempts - attempt
      {
        var endpoint, _ := NextEndpoint(asking(attempt));
        var outcome := server(attempt);
        Advance(payload, rounds, s, server, maxRetries);
        AfterOneMore(endpoints, old(State()), asking, failing, rounds, Round(s, outcome));
        rounds := rounds + [Round(s, outcome)];

        if outcome.TransportError? || IsTransientStatus(outcome.status) {
          MarkEndpointFailed(endpoint, failing(attempt));
          attempt := attempt + 1;
          if attempt >= maxAttempts {
            return Err(BulkFailed(maxRetries, GiveUpMessage(outcome, attempt))), rounds;
          }
        } else {
          var checked := CheckStatus(attempt, outcome);
          if checked.Err? {
            return Err(checked.error), rounds;
          }
          var step, nextItems := TakeAnswer(s, attempt, maxRetries, currentPayload, activeIndices, finalItems, checked.value);
          if step.Done? {
            return step.result, rounds;
          }
          attempt, currentPayload, activeIndices := step.next.attempt, step.next.payload, step.next.active;
          finalItems := nextItems;
        }
        s := React(s, outcome, maxRetries).next;
      }
    }
  }

  function GiveUpMessage(outcome: PostOutcome, attempt: nat): string
    requires outcome.TransportError? || IsTransientStatus(outcome.status)
  {
    if outcome.TransportError? then NetworkMessage(attempt, outcome.detail)
    else TransientMessage(outcome.status, outcome.phrase, attempt)
  }

  /** `rounds` have been made, and the loop continues from `s`. */
  ghost predicate Remains(payload: string, rounds: seq<Round>, s: Loop, server: Server, maxRetries: nat)
    requires s.attempt < MaxAttempts(maxRetries)
  {
    && rounds + Rounds(s, server, maxRetries) == Posts(payload, server, maxRetries)
    && Outcome(s, server, maxRetries) == Deliver(payload, server, maxRetries)
  }

  lemma Advance(payload: string, rounds: seq<Round>, s: Loop, server: Server, maxRetries: nat)
    requires s.attempt < MaxAttempts(maxRetries) && Remains(payload, rounds, s, server, maxRetries)
    ensures var r := Round(s, server(s.attempt));
            var step := React(s, server(s.attempt), maxRetries);
            if step.Done? then
              rounds + [r] == Posts(payload, server, maxRetries) && step.result == Deliver(payload, server, maxRetries)
            else
              && step.next.attempt == s.attempt + 1 < MaxAttempts(maxRetries)
              && Remains(payload, rounds + [r], step.next, server, maxRetries)
  {
    hide React, Rounds, Outcome, MaxAttempts;
    UnfoldRound(s, server, maxRetries);
    var step := React(s, server(s.attempt), maxRetries);
    if step.Again? {
      var r := Round(s, server(s.attempt));
      assert rounds + ([r] + Rounds(step.next, server, maxRetries)) == rounds + [r] + Rounds(step.next, server, maxRetries);
    }
  }

  /** The part of an iteration that handles a decoded bulk response: record or merge the items,
      then finish or go on with the retryable documents. */
  method TakeAnswer(ghost s: Loop, attempt: nat, maxRetries: nat, currentPayload: string, activeIndices: seq<nat>,
                    finalItems: array<BulkItemWrapper>, resp: BulkResponse)
    returns (step: Step, nextItems: array<BulkItemWrapper>)
    requires s.attempt == attempt && s.payload == currentPayload
    requires s.active == activeIndices && s.items == finalItems[..]
    modifies finalItems
    ensures nextItems == finalItems || fresh(nextItems)
    ensures step == Absorb(s, resp, maxRetries)
    ensures step.Again? ==> step.next.items == nextItems[..]
  {
    if finalItems.Length == 0 {
      if !resp.errors {
        return Done(Ok(resp)), finalItems;
      }
      nextItems := FromSeq(resp.items);
      step := SettleItems(attempt, maxRetries, currentPayload, nextItems, Upto(|resp.items|));
    } else {
      nextItems := finalItems;
      MergeRetryItems(finalItems, activeIndices, resp.items);
      step := SettleItems(attempt, maxRetries, currentPayload, finalItems, activeIndices);
    }
  }

  method SettleItems(attempt: nat, maxRetries: nat, currentPayload: string,
                     finalItems: array<BulkItemWrapper>, activeIndices: seq<nat>)
    returns (step: Step)
    ensures step == Settle(attempt, currentPayload, finalItems[..], activeIndices, maxRetries)
    ensures step.Again? ==> step.next.items == finalItems[..]
  {
    var prepared := PrepareSubPayloadRetry(currentPayload, finalItems, activeIndices);
    if prepared.Err? {
      return Done(Err(Serialization));
    }
    if prepared.value.None? {
      var hasErrors := AnyUnrecoverable(finalItems);
      return Done(Ok(BulkResponse(hasErrors, finalItems[..])));
    }
    var retry := prepared.value.value;
    if attempt + 1 >= MaxAttempts(maxRetries) {
      return Done(Err(BulkFailed(maxRetries, RecoverableMessage(|retry.indices|, maxRetries))));
    }
    return Again(Loop(attempt + 1, retry.payload, retry.indices, finalItems[..]));
  }

  method FromSeq(items: seq<BulkItemWrapper>) returns (a: array<BulkItemWrapper>)
    ensures fresh(a) && a[..] == items
  {
    a := new BulkItemWrapper[|items|](i requires 0 <= i < |items| => items[i]);
  }

  method MergeRetryItems(finalItems: array<BulkItemWrapper>, activeIndices: seq<nat>, retryItems: seq<BulkItemWrapper>)
    modifies finalItems
    ensures finalItems[..] == Merge(old(finalItems[..]), activeIndices, retryItems)
  {
    assert retryItems[0..] == retryItems && activeIndices[0..] == activeIndices;
    for subIdx := 0 to |retryItems|
      invariant subIdx <= |activeIndices| ==>
                  Merge(finalItems[..], activeIndices[subIdx..], retryItems[subIdx..])
                  == Merge(old(finalItems[..]), activeIndices, retryItems)
      invariant subIdx > |activeIndices| ==> finalItems[..] == Merge(old(finalItems[..]), activeIndices, retryItems)
    {
      if subIdx < |activeIndices| {
        assert activeIndices[subIdx..][1..] == activeIndices[subIdx + 1..];
        assert retryItems[subIdx..][1..] == retryItems[subIdx + 1..];
        if activeIndices[subIdx] < finalItems.Length {
          ghost var items := finalItems[..];
          finalItems[activeIndices[subIdx]] := retryItems[subIdx];
          assert finalItems[..] == items[activeIndices[subIdx] := retryItems[subIdx]];
        }
      }
    }
  }

  lemma RecoverableStep(items: seq<BulkItemWrapper>, active: seq<nat>, k: nat)
    requires k < |active|
    ensures RecoverablePositions(items, active[..k + 1]) ==
            RecoverablePositions(items, active[..k])
            + if active[k] < |items| && items[active[k]].IsRecoverable() then [k] else []
  {
    assert active[..k + 1][..k] == active[..k];
  }

  method InspectActiveItems(finalItems: array<BulkItemWrapper>, activeIndices: seq<nat>) returns (positions: seq<nat>)
    ensures positions == RecoverablePositions(finalItems[..], activeIndices)
  {
    positions := [];
    ghost var items := finalItems[..];
    for subIdx := 0 to |activeIndices|
      invariant positions == RecoverablePositions(items, activeIndices[..subIdx])
    {
      RecoverableStep(items, activeIndices, subIdx);
      var origIdx := activeIndices[subIdx];
      if origIdx < finalItems.Length && finalItems[origIdx].IsRecoverable() {
        positions := positions + [subIdx];
      }
    }
    assert activeIndices[..|activeIndices|] == activeIndices;
  }

  method PrepareSubPayloadRetry(currentPayload: string, finalItems: array<BulkItemWrapper>, activeIndices: seq<nat>)
    returns (r: Result<Option<Retry>, ExtractError>)
    ensures r == Prepared(currentPayload, finalItems[..], activeIndices)
  {
    var positions := InspectActiveItems(finalItems, activeIndices);
    if positions == [] {
      return Ok(None);
    }
    var extracted := ExtractSubPayload(currentPayload, positions);
    if extracted.Err? {
      return Err(extracted.error);
    }
    return Ok(Some(Retry(extracted.value, Pick(activeIndices, positions))));
  }

  method AnyUnrecoverable(finalItems: array<BulkItemWrapper>) returns (r: bool)
    ensures r == HasUnrecoverable(finalItems[..])
  {
    for i := 0 to finalItems.Length
      invariant forall j | 0 <= j < i :: !finalItems[j].IsUnrecoverable()
    {
      if finalItems[i].IsUnrecoverable() {
        assert finalItems[..][i].IsUnrecoverable();
        return true;
      }
    }
    return false;
  }
}
