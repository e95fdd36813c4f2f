/** Which endpoint the bulk client asks next: round robin, skipping endpoints in cooldown. */
module Endpoints {

  lemma ModUnique(x: nat, n: nat, q: nat, r: nat)
    requires r < n && x == q * n + r
    ensures x % n == r
  {
    var q', r' := x / n, x % n;
    assert x == n * q' + r' && r' < n;
    if q < q' {
      MulGap(n, q, q');
    } else if q' < q {
      MulGap(n, q', q);
    }
  }

  lemma {:induction false} MulGap(n: nat, a: nat, b: nat)
    requires a < b
    ensures n * a + n <= n * b
    decreases b - a
  {
    assert n * (a + 1) == n * a + n;
    if a + 1 < b {
      MulGap(n, a + 1, b);
    }
  }

  /** The endpoint `offset` cyclic steps after `start`. */
  function Candidate(n: nat, start: nat, offset: nat): (c: nat)
    requires 0 < n
    ensures c < n
  {
    (start + offset) % n
  }

  /** The scan over candidates, from `offset` on. */
  function Choose(cooldowns: seq<nat>, now: nat, start: nat, offset: nat): (c: nat)
    requires start < |cooldowns| && offset <= |cooldowns|
    ensures c < |cooldowns|
    decreases |cooldowns| - offset
  {
    if offset == |cooldowns| then start
    else if cooldowns[Candidate(|cooldowns|, start, offset)] <= now then Candidate(|cooldowns|, start, offset)
    else Choose(cooldowns, now, start, offset + 1)
  }

  ghost predicate AllCoolingDown(cooldowns: seq<nat>, now: nat) {
    forall i | 0 <= i < |cooldowns| :: cooldowns[i] > now
  }

  /** The first `steps` candidates are all in cooldown. */
  ghost predicate Skipped(cooldowns: seq<nat>, now: nat, start: nat, steps: nat)
    requires start < |cooldowns|
  {
    forall o: nat | o < steps :: cooldowns[Candidate(|cooldowns|, start, o)] > now
  }

  /** `c` is out of cooldown, and reached in `steps` cyclic steps over endpoints in cooldown. */
  ghost predicate CyclicallyFirst(cooldowns: seq<nat>, now: nat, start: nat, c: nat, steps: nat)
    requires start < |cooldowns|
  {
    && steps < |cooldowns| && c == Candidate(|cooldowns|, start, steps)
    && cooldowns[c] <= now && Skipped(cooldowns, now, start, steps)
  }

  lemma {:induction false} ChooseFrom(cooldowns: seq<nat>, now: nat, start: nat, offset: nat) returns (steps: nat)
    requires start < |cooldowns| && offset <= |cooldowns|
    requires Skipped(cooldowns, now, start, offset)
    ensures var c := Choose(cooldowns, now, start, offset);
            CyclicallyFirst(cooldowns, now, start, c, steps)
            || (c == start && Skipped(cooldowns, now, start, |cooldowns|))
    decreases |cooldowns| - offset
  {
    if offset == |cooldowns| || cooldowns[Candidate(|cooldowns|, start, offset)] <= now {
      steps := offset;
    } else {
      steps := ChooseFrom(cooldowns, now, start, offset + 1);
    }
  }

  lemma EveryEndpointIsReached(n: nat, start: nat, i: nat) returns (o: nat)
    requires start < n && i < n
    ensures o < n && Candidate(n, start, o) == i
  {
    if start <= i {
      o := i - start;
      ModUnique(i, n, 0, i);
    } else {
      o := i + n - start;
      ModUnique(i + n, n, 1, i);
    }
  }

  /** The cyclically first endpoint out of cooldown; the round-robin start if there is none. */
  lemma ChooseIsCyclicallyFirst(cooldowns: seq<nat>, now: nat, start: nat) returns (steps: nat)
    requires start < |cooldowns|
    ensures AllCoolingDown(cooldowns, now) ==> Choose(cooldowns, now, start, 0) == start
    ensures !AllCoolingDown(cooldowns, now) ==>
              CyclicallyFirst(cooldowns, now, start, Choose(cooldowns, now, start, 0), steps)
  {
    steps := ChooseFrom(cooldowns, now, start, 0);
    if !AllCoolingDown(cooldowns, now) {
      var i :| 0 <= i < |cooldowns| && cooldowns[i] <= now;
      var o := EveryEndpointIsReached(|cooldowns|, start, i);
    }
  }

  lemma CandidateIs(n: nat, start: nat, o: nat)
    requires start < n && o < n
    ensures Candidate(n, start, o) == if start + o < n then start + o else start + o - n
  {
    if start + o < n {
      ModUnique(start + o, n, 0, start + o);
    } else {
      ModUnique(start + o, n, 1, start + o - n);
    }
  }

  /** All endpoints from `a` up to `b` are in cooldown. */
  ghost predicate RestBetween(cooldowns: seq<nat>, now: nat, a: nat, b: nat)
    requires b <= |cooldowns|
  {
    forall i | a <= i < b :: cooldowns[i] > now
  }

  /** The first endpoint out of cooldown at or after the start; failing that, the first one before it; and
      failing that, the start. */
  ghost predicate IsChoice(cooldowns: seq<nat>, now: nat, start: nat, c: nat)
    requires start < |cooldowns|
  {
    var n := |cooldowns|;
    if !RestBetween(cooldowns, now, start, n) then start <= c < n && cooldowns[c] <= now && RestBetween(cooldowns, now, start, c)
    else if !RestBetween(cooldowns, now, 0, start) then c < start && cooldowns[c] <= now && RestBetween(cooldowns, now, 0, c)
    else c == start
  }

  lemma ChoiceByIndex(cooldowns: seq<nat>, now: nat, start: nat)
    requires start < |cooldowns|
    ensures IsChoice(cooldowns, now, start, Choose(cooldowns, now, start, 0))
  {
    hide Candidate, Choose;
    var n, c := |cooldowns|, Choose(cooldowns, now, start, 0);
    var steps := ChooseIsCyclicallyFirst(cooldowns, now, start);
    if !AllCoolingDown(cooldowns, now) {
      CandidateIs(n, start, steps);
      forall i: nat | (start <= i < n && i - start < steps) || (i < start && i + n - start < steps) ensures cooldowns[i] > now {
        CandidateIs(n, start, if start <= i then i - start else i + n - start);
      }
    }
  }

  /** An endpoint in cooldown is chosen only when every endpoint is. */
  lemma FailedEndpointIsAvoided(cooldowns: seq<nat>, now: nat, start: nat, failed: nat)
    requires start < |cooldowns| && failed < |cooldowns|
    requires cooldowns[failed] > now && !AllCoolingDown(cooldowns, now)
    ensures Choose(cooldowns, now, start, 0) != failed
  {
    var _ := ChooseIsCyclicallyFirst(cooldowns, now, start);
  }

  /** When nothing is in cooldown the choice is the round-robin start. */
  lemma ChooseWithoutCooldown(cooldowns: seq<nat>, now: nat, start: nat)
    requires start < |cooldowns| && forall i | 0 <= i < |cooldowns| :: cooldowns[i] <= now
    ensures Choose(cooldowns, now, start, 0) == start
  {
    ModUnique(start, |cooldowns|, 0, start);
  }

  /** How often endpoint `c` of `n` is the start for counter values `from`, ..., `from + calls - 1`. */
  function TimesChosen(n: nat, c: nat, from: nat, calls: nat): nat
    requires 0 < n
  {
    if calls == 0 then 0
    else TimesChosen(n, c, from, calls - 1) + Hit(n, c, from + calls - 1)
  }

  function Hit(n: nat, c: nat, counter: nat): nat
    requires 0 < n
  {
    if counter % n == c then 1 else 0
  }

  lemma {:induction false} TimesSplit(n: nat, c: nat, from: nat, a: nat, b: nat)
    requires 0 < n
    ensures TimesChosen(n, c, from, a + b) == TimesChosen(n, c, from, a) + TimesChosen(n, c, from + a, b)
    decreases b
  {
    if b > 0 {
      TimesSplit(n, c, from, a, b - 1);
    }
  }

  lemma {:induction false} FirstWindow(n: nat, c: nat, m: nat)
    requires c < n && m <= n
    ensures TimesChosen(n, c, 0, m) == if c < m then 1 else 0
    decreases m
  {
    if m > 0 {
      FirstWindow(n, c, m - 1);
      ModUnique(m - 1, n, 0, m - 1);
    }
  }

  lemma HitIsPeriodic(n: nat, c: nat, counter: nat)
    requires 0 < n
    ensures Hit(n, c, counter + n) == Hit(n, c, counter)
  {
    var q, r := counter / n, counter % n;
    assert counter == n * q + r;
    assert counter + n == (q + 1) * n + r;
    ModUnique(counter + n, n, q + 1, r);
  }

  /** Any `n` consecutive counter values hit every endpoint once. */
  lemma {:induction false} AnyWindow(n: nat, c: nat, from: nat)
    requires c < n
    ensures TimesChosen(n, c, from, n) == 1
    decreases from
  {
    if from == 0 {
      FirstWindow(n, c, n);
    } else {
      AnyWindow(n, c, from - 1);
      TimesSplit(n, c, from - 1, 1, n - 1);
      HitIsPeriodic(n, c, from - 1);
      assert TimesChosen(n, c, from - 1, 1) == TimesChosen(n, c, from - 1, 0) + Hit(n, c, from - 1);
      assert TimesChosen(n, c, from, n) == TimesChosen(n, c, from, n - 1) + Hit(n, c, from + n - 1);
    }
  }

  /** Any `n * k` consecutive counter values start at every endpoint `k` times. */
  lemma {:induction false} RoundRobinIsFair(n: nat, c: nat, from: nat, k: nat)
    requires c < n
    ensures TimesChosen(n, c, from, n * k) == k
    decreases k
  {
    if k > 0 {
      RoundRobinIsFair(n, c, from, k - 1);
      var before := n * (k - 1);
      assert n * k == before + n;
      AnyWindow(n, c, from + before);
      TimesSplit(n, c, from, before, n);
    }
  }
}
