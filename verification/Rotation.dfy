/** The endpoint rotation of the bulk client: which endpoint is asked next, which one rests after a
    failure, and under which names endpoints are stored and found again. */
module Rotations {
  import opened Text
  import opened Widths
  import opened Endpoints
  import opened Failures
  import opened BulkRetry

  const COOLDOWN_SECS: nat := 10

  // ---------------------------------------------------------------- names

  /** The ASCII white space that trimming removes: a space, and the characters from tab to carriage return. */
  predicate IsSpace(c: char) { c == ' ' || 9 <= c as int <= 13 }

  function TrimStart(s: string): string {
    if s != "" && IsSpace(s[0]) then TrimStart(s[1..]) else s
  }

  function TrimEnd(s: string): string {
    if s != "" && IsSpace(s[|s| - 1]) then TrimEnd(s[..|s| - 1]) else s
  }

  function Trim(s: string): string {
    TrimEnd(TrimStart(s))
  }

  /** How endpoint names are stored and looked up. */
  function Normalize(endpoint: string): string {
    TrimSlashes(Trim(endpoint))
  }

  /** White space stands right before the slashes at the end. */
  predicate SpaceBeforeSlashes(s: string) {
    exists i | 0 <= i < |s| :: IsSpace(s[i]) && AllSlashes(s, i + 1)
  }

  predicate AllSlashes(s: string, from: nat) {
    forall j | from <= j < |s| :: s[j] == '/'
  }

  lemma {:induction false} TrimStartClean(s: string)
    ensures TrimStart(s) == "" || !IsSpace(TrimStart(s)[0])
  {
    if s != "" && IsSpace(s[0]) {
      TrimStartClean(s[1..]);
    }
  }

  lemma {:induction false} TrimEndClean(s: string)
    ensures TrimEnd(s) <= s
    ensures TrimEnd(s) == "" || !IsSpace(TrimEnd(s)[|TrimEnd(s)| - 1])
  {
    if s != "" && IsSpace(s[|s| - 1]) {
      TrimEndClean(s[..|s| - 1]);
    }
  }

  lemma {:induction false} TrimSlashesClean(s: string)
    ensures var v := TrimSlashes(s);
            && v <= s && AllSlashes(s, |v|)
            && (v == "" || v[|v| - 1] != '/')
  {
    if s != "" && s[|s| - 1] == '/' {
      TrimSlashesClean(s[..|s| - 1]);
    }
  }

  predicate AllSpace(s: string) {
    forall i | 0 <= i < |s| :: s[i] == ' ' || 9 <= s[i] as int <= 13
  }

  lemma {:induction false} TrimStartIs(s: string) returns (n: nat)
    ensures n <= |s| && AllSpace(s[..n]) && TrimStart(s) == s[n..]
  {
    if s != "" && IsSpace(s[0]) {
      n := TrimStartIs(s[1..]);
      assert s[..n + 1] == [s[0]] + s[1..][..n];
      n := n + 1;
    } else {
      n := 0;
    }
  }

  lemma {:induction false} TrimEndIs(s: string) returns (n: nat)
    ensures n <= |s| && AllSpace(s[n..]) && TrimEnd(s) == s[..n]
  {
    if s != "" && IsSpace(s[|s| - 1]) {
      var t := s[..|s| - 1];
      n := TrimEndIs(t);
      assert s[n..] == t[n..] + [s[|s| - 1]] && s[..n] == t[..n];
    } else {
      n := |s|;
    }
  }

  /** `trimmed` is what stands between the white space at both ends of the name. */
  ghost predicate IsTrimmed(name: string, trimmed: string) {
    && (exists m, n :: 0 <= m <= n <= |name| && AllSpace(name[..m]) && AllSpace(name[n..]) && trimmed == name[m..n])
    && (trimmed == "" || (!AllSpace(trimmed[..1]) && !AllSpace(trimmed[|trimmed| - 1..])))
  }

  /** `stored` is the trimmed name without the slashes at its end. */
  ghost predicate IsStoredForm(name: string, stored: string) {
    exists trimmed :: IsTrimmed(name, trimmed) && stored <= trimmed && AllSlashes(trimmed, |stored|)
                      && (stored == "" || stored[|stored| - 1] != '/')
  }

  lemma TrimIs(name: string)
    ensures IsTrimmed(name, Trim(name))
  {
    hide TrimStart, TrimEnd;
    TrimStartClean(name);
    TrimEndClean(TrimStart(name));
    var m := TrimStartIs(name);
    var n := TrimEndIs(TrimStart(name));
    var u := Trim(name);
    assert name[m + n..] == TrimStart(name)[n..] && name[m..m + n] == u;
    if u != "" {
      assert u[..1][0] == u[0] == TrimStart(name)[0] && u[|u| - 1..][0] == u[|u| - 1];
    }
  }

  lemma NormalizeIs(name: string)
    ensures IsStoredForm(name, Normalize(name))
  {
    hide Trim, TrimSlashes, IsTrimmed;
    TrimIs(name);
    TrimSlashesClean(Trim(name));
  }

  /** Without white space at either end and without slashes at its end, a name is stored as it is. */
  lemma NormalizeOfClean(v: string)
    requires v == "" || (!IsSpace(v[0]) && v[|v| - 1] != '/')
    ensures Normalize(v) == v <==> v == "" || !IsSpace(v[|v| - 1])
  {
    if v != "" && IsSpace(v[|v| - 1]) {
      TrimEndClean(v[..|v| - 1]);
      TrimSlashesClean(Trim(v));
    }
  }

  /** A configured name is found again under its stored form exactly when no white space precedes the
      slashes at its end. */
  lemma StoredNameIsStableIff(name: string)
    ensures Normalize(Normalize(name)) == Normalize(name) <==> !SpaceBeforeSlashes(Trim(name))
  {
    var u, v := Trim(name), Normalize(name);
    TrimStartClean(name);
    TrimEndClean(TrimStart(name));
    TrimSlashesClean(u);
    NormalizeOfClean(v);
    if v != "" && IsSpace(v[|v| - 1]) {
      assert IsSpace(u[|v| - 1]) && AllSlashes(u, |v| - 1 + 1);
    }
    if SpaceBeforeSlashes(u) {
      var i :| 0 <= i < |u| && IsSpace(u[i]) && AllSlashes(u, i + 1);
      assert i == |v| - 1;
    }
  }

  // ---------------------------------------------------------------- rotation and cooldowns

  /** Where the endpoint rotation stands. */
  datatype Rotation = Rotation(counter: nat, cooldowns: seq<nat>)

  function Asked(endpoints: seq<string>, r: Rotation, now: nat): (i: nat)
    requires 0 < |endpoints| == |r.cooldowns|
    ensures i < |endpoints|
  {
    if |endpoints| == 1 then 0 else Choose(r.cooldowns, now, r.counter % |endpoints|, 0)
  }

  /** Selection by index, from where the counter points. */
  lemma AskedByIndex(endpoints: seq<string>, r: Rotation, now: nat)
    requires 0 < |endpoints| == |r.cooldowns|
    ensures IsChoice(r.cooldowns, now, r.counter % |endpoints|, Asked(endpoints, r, now))
  {
    ChoiceByIndex(r.cooldowns, now, r.counter % |endpoints|);
  }

  /** The counter after `calls` selections; a single endpoint needs no counter. */
  function CounterAfter(n: nat, counter: nat, calls: nat): nat {
    if n < 2 then counter else (counter + calls) % (USIZE_MAX + 1)
  }

  /** Selections one after the other add up. */
  lemma CounterSteps(n: nat, counter: nat, calls: nat)
    ensures CounterAfter(n, CounterAfter(n, counter, calls), 1) == CounterAfter(n, counter, calls + 1)
  {
    var m := USIZE_MAX + 1;
    var a := counter + calls;
    if n >= 2 && a % m + 1 == m {
      ModUnique(a + 1, m, a / m + 1, 0);
    } else if n >= 2 {
      ModUnique(a + 1, m, a / m, a % m + 1);
      ModUnique(a % m + 1, m, 0, a % m + 1);
    }
  }

  function RestUntil(now: nat): nat {
    if now + COOLDOWN_SECS < U64_MAX then now + COOLDOWN_SECS else U64_MAX
  }

  /** The cooldowns once the endpoint of that name has failed; an unknown name changes nothing. */
  function Marked(endpoints: seq<string>, cooldowns: seq<nat>, endpoint: string, now: nat): (r: seq<nat>)
    requires |cooldowns| == |endpoints|
    ensures |r| == |cooldowns|
  {
    var i := IndexOf(endpoints, Normalize(endpoint));
    if i == |endpoints| then cooldowns else cooldowns[i := RestUntil(now)]
  }

  predicate EndpointFails(outcome: PostOutcome) {
    outcome.TransportError? || IsTransientStatus(outcome.status)
  }

  /** The rotation after one POST: the counter moves on, and a failing endpoint starts to rest. The
      clock is read when the endpoint is chosen and again when it has failed. */
  function AfterPost(endpoints: seq<string>, r: Rotation, asking: nat, failing: nat, outcome: PostOutcome): (after: Rotation)
    requires |endpoints| == |r.cooldowns|
    ensures |after.cooldowns| == |r.cooldowns|
  {
    var name := if endpoints == [] then "" else endpoints[Asked(endpoints, r, asking)];
    Rotation(CounterAfter(|endpoints|, r.counter, 1),
             if EndpointFails(outcome) then Marked(endpoints, r.cooldowns, name, failing) else r.cooldowns)
  }

  /** An answer that is no failure leaves all cooldowns as they are. */
  lemma OtherAnswersRestNothing(endpoints: seq<string>, r: Rotation, asking: nat, failing: nat, outcome: PostOutcome)
    requires |endpoints| == |r.cooldowns|
    requires outcome.Response? && outcome.status !in {429, 500, 502, 503, 504}
    ensures AfterPost(endpoints, r, asking, failing, outcome).cooldowns == r.cooldowns
  {
  }

  /** The rotation after all the POSTs of a call. */
  function AfterPosts(endpoints: seq<string>, r: Rotation, asking: nat -> nat, failing: nat -> nat, rounds: seq<Round>): (after: Rotation)
    requires |endpoints| == |r.cooldowns|
    ensures |after.cooldowns| == |r.cooldowns|
  {
    if rounds == [] then r
    else
      var last := |rounds| - 1;
      AfterPost(endpoints, AfterPosts(endpoints, r, asking, failing, rounds[..last]), asking(last), failing(last), rounds[last].outcome)
  }

  lemma AfterOneMore(endpoints: seq<string>, r: Rotation, asking: nat -> nat, failing: nat -> nat, rounds: seq<Round>, round: Round)
    requires |endpoints| == |r.cooldowns|
    ensures AfterPosts(endpoints, r, asking, failing, rounds + [round])
         == AfterPost(endpoints, AfterPosts(endpoints, r, asking, failing, rounds), asking(|rounds|), failing(|rounds|), round.outcome)
  {
    assert (rounds + [round])[..|rounds|] == rounds;
  }

  // ---------------------------------------------------------------- which endpoint rests

  /** Endpoint `i` is found under its own name. */
  predicate FoundAgain(endpoints: seq<string>, i: nat)
    requires i < |endpoints|
  {
    Normalize(endpoints[i]) == endpoints[i] && forall j | 0 <= j < i :: endpoints[j] != endpoints[i]
  }

  /** Marking an endpoint as failed puts that very endpoint to rest exactly when its stored name is
      found again and belongs to no earlier endpoint. */
  lemma MarkedRestsIff(endpoints: seq<string>, cooldowns: seq<nat>, i: nat, now: nat)
    requires i < |endpoints| == |cooldowns| && cooldowns[i] != RestUntil(now)
    ensures Marked(endpoints, cooldowns, endpoints[i], now)[i] == RestUntil(now) <==> FoundAgain(endpoints, i)
  {
    hide Normalize;
    var j := IndexOf(endpoints, Normalize(endpoints[i]));
    if FoundAgain(endpoints, i) {
      assert j == i;
    }
  }

  /** An endpoint is out of the rotation, wherever the counter stands, exactly while it rests. */
  lemma OutOfRotationIff(endpoints: seq<string>, cooldowns: seq<nat>, now: nat, i: nat)
    requires 1 < |endpoints| == |cooldowns| && i < |endpoints| && !AllCoolingDown(cooldowns, now)
    ensures (forall counter: nat :: Asked(endpoints, Rotation(counter, cooldowns), now) != i) <==> cooldowns[i] > now
  {
    if cooldowns[i] > now {
      forall counter: nat ensures Asked(endpoints, Rotation(counter, cooldowns), now) != i {
        FailedEndpointIsAvoided(cooldowns, now, counter % |endpoints|, i);
      }
    } else {
      ModUnique(i, |endpoints|, 0, i);
      assert Candidate(|endpoints|, i, 0) == i;
      assert Asked(endpoints, Rotation(i, cooldowns), now) == i;
    }
  }

  /** A POST makes its endpoint rest when it got no answer or one of the five statuses that are retried. */
  lemma EndpointFailsIff(outcome: PostOutcome)
    ensures EndpointFails(outcome) <==>
              outcome.TransportError? || outcome.status in {429, 500, 502, 503, 504}
  {
  }

  /** Marking touches the cooldown of one endpoint at most, the first that bears the stored form of the name,
      which then rests for ten seconds. */
  lemma MarkedTouchesOne(endpoints: seq<string>, cooldowns: seq<nat>, endpoint: string, now: nat, j: nat)
    requires j < |endpoints| == |cooldowns|
    ensures var first := endpoints[j] == Normalize(endpoint) && Normalize(endpoint) !in endpoints[..j];
            Marked(endpoints, cooldowns, endpoint, now)[j] == if !first then cooldowns[j] else if now + 10 < U64_MAX then now + 10 else U64_MAX
  {
    hide Normalize;
    var name := Normalize(endpoint);
    var i := IndexOf(endpoints, name);
    if name in endpoints[..j] {
      var k :| 0 <= k < j && endpoints[..j][k] == name;
      assert endpoints[k] == name;
    }
  }

  /** After a failing POST the endpoint that was asked stays out of the rotation until its cooldown is
      over, wherever the counter stands, exactly when it is found again under its name. */
  lemma FailedEndpointRestsIff(endpoints: seq<string>, r: Rotation, asking: nat, failing: nat, outcome: PostOutcome, later: nat)
    requires 1 < |endpoints| == |r.cooldowns| && EndpointFails(outcome)
    requires r.cooldowns[Asked(endpoints, r, asking)] <= later < U64_MAX && later < failing + 10
    requires !AllCoolingDown(AfterPost(endpoints, r, asking, failing, outcome).cooldowns, later)
    ensures var asked, after := Asked(endpoints, r, asking), AfterPost(endpoints, r, asking, failing, outcome).cooldowns;
            (forall counter: nat :: Asked(endpoints, Rotation(counter, after), later) != asked) <==> FoundAgain(endpoints, asked)
  {
    hide Normalize, Choose, Asked;
    var asked, after := Asked(endpoints, r, asking), AfterPost(endpoints, r, asking, failing, outcome).cooldowns;
    MarkedRestsIff(endpoints, r.cooldowns, asked, failing);
    OutOfRotationIff(endpoints, after, later, asked);
    assert after[asked] == RestUntil(failing) || after[asked] == r.cooldowns[asked];
  }

  /** The stored form of configured names. */
  function Stored(names: seq<string>): (endpoints: seq<string>)
    ensures |endpoints| == |names|
    ensures forall i | 0 <= i < |names| :: endpoints[i] == Normalize(names[i])
  {
    seq(|names|, i requires 0 <= i < |names| => Normalize(names[i]))
  }

  /** The same for configured names: an endpoint can rest exactly when no white space precedes the
      slashes at the end of its name and no earlier name is stored in the same form. */
  lemma ConfiguredEndpointRestsIff(names: seq<string>, cooldowns: seq<nat>, i: nat, now: nat)
    requires i < |names| == |cooldowns| && cooldowns[i] != RestUntil(now)
    ensures Marked(Stored(names), cooldowns, Stored(names)[i], now)[i] == RestUntil(now) <==>
            !SpaceBeforeSlashes(Trim(names[i])) && forall j | 0 <= j < i :: Normalize(names[j]) != Normalize(names[i])
  {
    hide Normalize, Trim, SpaceBeforeSlashes;
    MarkedRestsIff(Stored(names), cooldowns, i, now);
    StoredNameIsStableIff(names[i]);
  }

  lemma SpacedName()
    ensures Normalize("h /") == "h " && Normalize("h ") == "h" && Normalize("h") == "h"
  {
    assert TrimStart("h /") == "h /" && TrimEnd("h /") == "h /";
    assert "h /"[..2] == "h ";
    assert TrimSlashes("h ") == "h " && TrimSlashes("h /") == "h ";
    assert "h "[..1] == "h";
    assert TrimStart("h ") == "h " && TrimEnd("h") == "h" && TrimEnd("h ") == "h" && TrimSlashes("h") == "h";
    assert TrimStart("h") == "h";
  }

  /** Witness: a name with white space before its slash never rests. */
  lemma SpacedNameNeverRests(cooldowns: seq<nat>, now: nat)
    requires |cooldowns| == 1
    ensures var endpoints := Stored(["h /"]); Marked(endpoints, cooldowns, endpoints[0], now) == cooldowns
  {
    SpacedName();
    assert Stored(["h /"]) == ["h "];
    assert ["h "][1..] == [];
  }

  /** Witness: the failure of such an endpoint can put another one to rest. */
  lemma WrongEndpointRests(cooldowns: seq<nat>, now: nat)
    requires |cooldowns| == 2
    ensures var endpoints := Stored(["h", "h /"]);
            Marked(endpoints, cooldowns, endpoints[1], now) == cooldowns[0 := RestUntil(now)]
  {
    SpacedName();
    assert Stored(["h", "h /"]) == ["h", "h "];
    assert IndexOf(["h", "h "], "h") == 0;
  }

  // ---------------------------------------------------------------- fairness

  /** How often endpoint `c` is asked in `calls` consecutive selections, the k-th at time `clock(k)`. */
  function TimesAsked(endpoints: seq<string>, r: Rotation, clock: nat -> nat, c: nat, calls: nat): nat
    requires 0 < |endpoints| == |r.cooldowns|
  {
    if calls == 0 then 0
    else
      var k := calls - 1;
      TimesAsked(endpoints, r, clock, c, k)
      + if Asked(endpoints, Rotation(CounterAfter(|endpoints|, r.counter, k), r.cooldowns), clock(k)) == c then 1 else 0
  }

  predicate NoneRests(cooldowns: seq<nat>, clock: nat -> nat, calls: nat) {
    forall k: nat, i | k < calls && 0 <= i < |cooldowns| :: cooldowns[i] <= clock(k)
  }

  lemma {:induction false} TimesAskedIsTimesChosen(endpoints: seq<string>, r: Rotation, clock: nat -> nat, c: nat, calls: nat)
    requires 0 < |endpoints| == |r.cooldowns|
    requires NoneRests(r.cooldowns, clock, calls) && r.counter + calls <= USIZE_MAX + 1
    ensures TimesAsked(endpoints, r, clock, c, calls) == TimesChosen(|endpoints|, c, r.counter, calls)
    decreases calls
  {
    if calls > 0 {
      var k, n := calls - 1, |endpoints|;
      TimesAskedIsTimesChosen(endpoints, r, clock, c, k);
      ChooseWithoutCooldown(r.cooldowns, clock(k), (r.counter + k) % n);
      if n > 1 {
        ModUnique(r.counter + k, USIZE_MAX + 1, 0, r.counter + k);
      }
    }
  }

  /** With nothing resting and no counter wrap, any `n * k` consecutive selections ask each of the `n`
      endpoints exactly `k` times, whatever the clock does. */
  lemma SelectionIsFair(endpoints: seq<string>, r: Rotation, clock: nat -> nat, c: nat, k: nat)
    requires c < |endpoints| == |r.cooldowns|
    requires NoneRests(r.cooldowns, clock, |endpoints| * k) && r.counter + |endpoints| * k <= USIZE_MAX + 1
    ensures TimesAsked(endpoints, r, clock, c, |endpoints| * k) == k
  {
    TimesAskedIsTimesChosen(endpoints, r, clock, c, |endpoints| * k);
    RoundRobinIsFair(|endpoints|, c, r.counter, k);
  }
}
