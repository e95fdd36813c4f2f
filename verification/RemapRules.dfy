/** The attribute remap rules of the compliance engine. They are iterated in the unspecified order
    of a hash map, so an order is any arrangement of the rules. */
module RemapRules {
  import opened Wrappers
  import opened Json
  import opened JsonObject
  import Bags

  datatype Rule = Rule(source: string, target: string)
  {
    predicate Moves() { source != target }
  }

  type Attrs = map<string, Json>

  // ---------------------------------------------------------------- one rule, all rules

  function ApplyRule(m: Attrs, r: Rule): Attrs {
    if r.source in m then (m - {r.source})[r.target := m[r.source]] else m
  }

  function ApplyAll(m: Attrs, order: seq<Rule>): Attrs {
    if order == [] then m else ApplyRule(ApplyAll(m, order[..|order| - 1]), order[|order| - 1])
  }

  /** The same on the sorted member list of a JSON object. */
  function RemapMembers(ms: seq<Member>, order: seq<Rule>): seq<Member> {
    if order == [] then ms
    else RemapMember(RemapMembers(ms, order[..|order| - 1]), order[|order| - 1])
  }

  function RemapMember(ms: seq<Member>, r: Rule): seq<Member> {
    if r.source in View(ms) then Put(Delete(ms, r.source), r.target, View(ms)[r.source]) else ms
  }

  /** One cell: text that is not JSON is kept, JSON is printed back, an object with its rules applied. */
  function RemapText(text: string, order: seq<Rule>): string {
    match Read(text)
    case None => text
    case Some(j) => Print(RemapJson(j, order))
  }

  function RemapJson(j: Json, order: seq<Rule>): Json {
    if j.JObject? then JObject(RemapMembers(j.members, order)) else j
  }

  ghost predicate DistinctSources(rules: seq<Rule>) {
    forall i, j | 0 <= i < j < |rules| :: rules[i].source != rules[j].source
  }

  ghost predicate IsOrder(order: seq<Rule>, rules: seq<Rule>) {
    multiset(order) == multiset(rules)
  }

  /** Rules that move a value have distinct targets, and none writes what another one reads. */
  ghost predicate Independent(rules: seq<Rule>) {
    forall i, j | 0 <= i < |rules| && 0 <= j < |rules| && rules[i].Moves() && rules[j].Moves() ::
      rules[i].target != rules[j].source && (i != j ==> rules[i].target != rules[j].target)
  }

  // ---------------------------------------------------------------- the closed form

  function Lookup(m: Attrs, key: string): Option<Json> {
    if key in m then Some(m[key]) else None
  }

  /** A rule moves a value of `m` to `key`. */
  ghost predicate Feeds(rules: seq<Rule>, i: nat, m: Attrs, key: string) {
    i < |rules| && rules[i].Moves() && rules[i].target == key && rules[i].source in m
  }

  ghost predicate Drained(rules: seq<Rule>, key: string) {
    exists i | 0 <= i < |rules| :: rules[i].Moves() && rules[i].source == key
  }

  /** What independent rules do, without any order: a key that is fed holds the value of its source,
      a source that is not fed is gone, everything else is as before. */
  ghost predicate IsMoved(m: Attrs, rules: seq<Rule>, result: Attrs) {
    && (forall i: nat, key | Feeds(rules, i, m, key) :: Lookup(result, key) == Some(m[rules[i].source]))
    && (forall key | !(exists i: nat :: Feeds(rules, i, m, key)) ::
          Lookup(result, key) == if Drained(rules, key) then None else Lookup(m, key))
  }

  lemma IndependentPrefix(rules: seq<Rule>, n: nat)
    requires Independent(rules) && DistinctSources(rules) && n <= |rules|
    ensures Independent(rules[..n]) && DistinctSources(rules[..n])
  {
  }

  lemma LookupAfter(m: Attrs, r: Rule, key: string)
    ensures Lookup(ApplyRule(m, r), key)
         == if r.source !in m then Lookup(m, key)
            else if key == r.target then Some(m[r.source])
            else if key == r.source then None
            else Lookup(m, key)
  {
  }

  lemma LookupsAreEqual(a: Attrs, b: Attrs)
    requires forall key :: Lookup(a, key) == Lookup(b, key)
    ensures a == b
  {
    forall key ensures key in a <==> key in b
               ensures key in a && key in b ==> a[key] == b[key]
    {
      assert Lookup(a, key) == Lookup(b, key);
    }
  }

  lemma FeedsSnoc(rules: seq<Rule>, m: Attrs, key: string)
    requires rules != []
    ensures var n := |rules| - 1;
            && (forall i: nat | i < n :: Feeds(rules, i, m, key) <==> Feeds(rules[..n], i, m, key))
            && (Drained(rules, key) <==> Drained(rules[..n], key) || (rules[n].Moves() && rules[n].source == key))
  {
    var n := |rules| - 1;
    assert forall i | 0 <= i < n :: rules[..n][i] == rules[i];
    if Drained(rules[..n], key) {
      var i :| 0 <= i < n && rules[..n][i].Moves() && rules[..n][i].source == key;
      assert rules[i].Moves();
    }
  }

  /** The source of the last rule still holds its first value when its turn comes. */
  lemma LastSourceUntouched(m: Attrs, rules: seq<Rule>, before: Attrs)
    requires Independent(rules) && DistinctSources(rules) && rules != []
    requires IsMoved(m, rules[..|rules| - 1], before)
    requires rules[|rules| - 1].Moves()
    ensures Lookup(before, rules[|rules| - 1].source) == Lookup(m, rules[|rules| - 1].source)
  {
    var n := |rules| - 1;
    var key := rules[n].source;
    forall i: nat ensures !Feeds(rules[..n], i, m, key) {
      assert i < n ==> rules[..n][i] == rules[i];
    }
    assert !Drained(rules[..n], key);
  }

  lemma MovedStep(m: Attrs, rules: seq<Rule>, before: Attrs)
    requires Independent(rules) && DistinctSources(rules) && rules != []
    requires IsMoved(m, rules[..|rules| - 1], before)
    ensures IsMoved(m, rules, ApplyRule(before, rules[|rules| - 1]))
  {
    var n := |rules| - 1;
    var r, after := rules[n], ApplyRule(before, rules[n]);
    if r.Moves() {
      LastSourceUntouched(m, rules, before);
    }
    forall i: nat, key | Feeds(rules, i, m, key)
      ensures Lookup(after, key) == Some(m[rules[i].source])
    {
      LookupAfter(before, r, key);
      FeedsSnoc(rules, m, key);
      if i < n {
        assert Feeds(rules[..n], i, m, key);
      }
    }
    forall key | !(exists i: nat :: Feeds(rules, i, m, key))
      ensures Lookup(after, key) == if Drained(rules, key) then None else Lookup(m, key)
    {
      LookupAfter(before, r, key);
      FeedsSnoc(rules, m, key);
      assert !Feeds(rules, n, m, key);
      forall i: nat ensures !Feeds(rules[..n], i, m, key) {
        assert !Feeds(rules, i, m, key);
      }
    }
  }

  /** Applied one after the other, independent rules act all at once. */
  lemma {:induction false} AppliedIsMoved(m: Attrs, rules: seq<Rule>)
    requires Independent(rules) && DistinctSources(rules)
    ensures IsMoved(m, rules, ApplyAll(m, rules))
  {
    if rules != [] {
      IndependentPrefix(rules, |rules| - 1);
      AppliedIsMoved(m, rules[..|rules| - 1]);
      MovedStep(m, rules, ApplyAll(m, rules[..|rules| - 1]));
    }
  }

  lemma SameRule(p: seq<Rule>, q: seq<Rule>, i: nat) returns (j: nat)
    requires IsOrder(p, q) && i < |p|
    ensures j < |q| && q[j] == p[i]
  {
    assert p[i] in multiset(p);
    assert p[i] in q;
    j :| 0 <= j < |q| && q[j] == p[i];
  }

  lemma ReorderedIsMoved(m: Attrs, p: seq<Rule>, q: seq<Rule>, result: Attrs)
    requires IsOrder(p, q) && IsMoved(m, p, result)
    ensures IsMoved(m, q, result)
  {
    forall i: nat, key | Feeds(q, i, m, key)
      ensures Lookup(result, key) == Some(m[q[i].source])
    {
      var j := SameRule(q, p, i);
      assert Feeds(p, j, m, key);
    }
    forall key | !(exists i: nat :: Feeds(q, i, m, key))
      ensures Lookup(result, key) == if Drained(q, key) then None else Lookup(m, key)
    {
      forall i: nat ensures !Feeds(p, i, m, key) {
        if i < |p| {
          var j := SameRule(p, q, i);
          assert !Feeds(q, j, m, key);
        }
      }
      DrainedReordered(p, q, key);
    }
  }

  lemma DrainedReordered(p: seq<Rule>, q: seq<Rule>, key: string)
    requires IsOrder(p, q)
    ensures Drained(p, key) <==> Drained(q, key)
  {
    if Drained(p, key) {
      var i :| 0 <= i < |p| && p[i].Moves() && p[i].source == key;
      var j := SameRule(p, q, i);
      assert q[j].Moves() && q[j].source == key;
    }
    if Drained(q, key) {
      var i :| 0 <= i < |q| && q[i].Moves() && q[i].source == key;
      var j := SameRule(q, p, i);
      assert p[j].Moves() && p[j].source == key;
    }
  }

  lemma MovedIsUnique(m: Attrs, rules: seq<Rule>, a: Attrs, b: Attrs)
    requires IsMoved(m, rules, a) && IsMoved(m, rules, b)
    ensures a == b
  {
    forall key ensures Lookup(a, key) == Lookup(b, key) {
      if exists i: nat :: Feeds(rules, i, m, key) {
        var i: nat :| Feeds(rules, i, m, key);
      }
    }
    LookupsAreEqual(a, b);
  }

  /** Reordering a list of rules with distinct sources keeps them apart. */
  lemma ReorderedSources(p: seq<Rule>, q: seq<Rule>)
    requires IsOrder(p, q) && DistinctSources(p)
    ensures DistinctSources(q)
  {
    forall i, j | 0 <= i < j < |q| ensures q[i].source != q[j].source {
      if q[i].source == q[j].source {
        var k := SameRule(q, p, i);
        var l := SameRule(q, p, j);
        assert k == l && q[i] == q[j];
        TwiceInSequence(q, i, j);
        OnceWithDistinctSources(p, k);
      }
    }
  }

  lemma TwiceInSequence(q: seq<Rule>, i: nat, j: nat)
    requires i < j < |q| && q[i] == q[j]
    ensures multiset(q)[q[i]] >= 2
  {
    assert q == q[..j] + [q[j]] + q[j + 1..];
    assert q[..j] == q[..i] + [q[i]] + q[..j][i + 1..];
  }

  lemma {:induction false} OnceWithDistinctSources(p: seq<Rule>, k: nat)
    requires DistinctSources(p) && k < |p|
    ensures multiset(p)[p[k]] == 1
  {
    var others := p[..k] + p[k + 1..];
    assert p == p[..k] + [p[k]] + p[k + 1..];
    assert p[k] !in others;
    assert multiset(p) == multiset(others) + multiset{p[k]};
  }

  lemma ReorderedIndependent(p: seq<Rule>, q: seq<Rule>)
    requires IsOrder(p, q) && DistinctSources(p) && Independent(p)
    ensures Independent(q) && DistinctSources(q)
  {
    ReorderedSources(p, q);
    forall i, j | 0 <= i < |q| && 0 <= j < |q| && q[i].Moves() && q[j].Moves()
      ensures q[i].target != q[j].source && (i != j ==> q[i].target != q[j].target)
    {
      var k := SameRule(q, p, i);
      var l := SameRule(q, p, j);
    }
  }

  // ---------------------------------------------------------------- order does not matter

  /** Every order of independent rules gives the same attributes, namely those of the closed form. */
  lemma IndependentIsConfluent(m: Attrs, rules: seq<Rule>, order: seq<Rule>)
    requires DistinctSources(rules) && Independent(rules) && IsOrder(order, rules)
    ensures ApplyAll(m, order) == ApplyAll(m, rules)
    ensures IsMoved(m, rules, ApplyAll(m, order))
  {
    ReorderedIndependent(rules, order);
    AppliedIsMoved(m, rules);
    AppliedIsMoved(m, order);
    ReorderedIsMoved(m, order, rules, ApplyAll(m, order));
    MovedIsUnique(m, rules, ApplyAll(m, order), ApplyAll(m, rules));
  }

  /** Applying independent rules a second time changes nothing. */
  lemma IndependentIsIdempotent(m: Attrs, rules: seq<Rule>)
    requires DistinctSources(rules) && Independent(rules)
    ensures ApplyAll(ApplyAll(m, rules), rules) == ApplyAll(m, rules)
  {
    AppliedIsMoved(m, rules);
    var once := ApplyAll(m, rules);
    forall k | 0 <= k < |rules|
      ensures rules[k].Moves() ==> rules[k].source !in once
    {
      if rules[k].Moves() {
        forall i: nat ensures !Feeds(rules, i, m, rules[k].source) {
        }
        assert Drained(rules, rules[k].source);
        assert Lookup(once, rules[k].source) == None;
      }
    }
    Unmoved(once, rules);
  }

  /** Rules that find no source, or that move nothing, leave the attributes alone. */
  lemma {:induction false} Unmoved(m: Attrs, order: seq<Rule>)
    requires forall k | 0 <= k < |order| :: order[k].Moves() ==> order[k].source !in m
    ensures ApplyAll(m, order) == m
  {
    if order != [] {
      var n := |order| - 1;
      Unmoved(m, order[..n]);
      var r := order[n];
      assert r.source in m ==> (m - {r.source})[r.target := m[r.source]] == m;
    }
  }

  // ---------------------------------------------------------------- and otherwise it does

  lemma {:induction false} ApplyAppend(m: Attrs, a: seq<Rule>, b: seq<Rule>)
    ensures ApplyAll(m, a + b) == ApplyAll(ApplyAll(m, a), b)
  {
    if b == [] {
      assert a + b == a;
    } else {
      var n := |b| - 1;
      assert (a + b)[..|a| + n] == a + b[..n];
      ApplyAppend(m, a, b[..n]);
    }
  }

  lemma ApplyOne(m: Attrs, r: Rule)
    ensures ApplyAll(m, [r]) == ApplyRule(m, r)
  {
    assert [r][..0] == [];
    assert ApplyAll(m, []) == m;
  }

  /** The other rules, when two are set apart. */
  lemma Others(rules: seq<Rule>, i: nat, j: nat) returns (rest: seq<Rule>)
    requires i < |rules| && j < |rules| && i != j && DistinctSources(rules)
    ensures multiset(rest) + multiset{rules[i]} + multiset{rules[j]} == multiset(rules)
    ensures forall k | 0 <= k < |rest| :: rest[k].source != rules[i].source && rest[k].source != rules[j].source
  {
    var first := rules[..i] + rules[i + 1..];
    var j' := if j < i then j else j - 1;
    assert first[j'] == rules[j];
    Bags.RemoveAt(rules, i);
    Bags.RemoveAt(first, j');
    rest := first[..j'] + first[j' + 1..];
    ApartFromTwo(rules, rules[i], rules[j], rest);
  }

  lemma ApartFromTwo(rules: seq<Rule>, r: Rule, s: Rule, rest: seq<Rule>)
    requires DistinctSources(rules) && multiset(rest) + multiset{r} + multiset{s} == multiset(rules)
    ensures forall k | 0 <= k < |rest| :: rest[k].source != r.source && rest[k].source != s.source
  {
    var all := [r, s] + rest;
    assert IsOrder(all, rules);
    ReorderedSources(rules, all);
    assert forall k | 0 <= k < |rest| :: all[k + 2] == rest[k];
    assert all[0] == r && all[1] == s;
  }

  /** A rule that reads what another one writes: moving first or last makes the difference. */
  lemma ChainDiverges(rules: seq<Rule>, i: nat, j: nat) returns (p: seq<Rule>, q: seq<Rule>, m: Attrs)
    requires DistinctSources(rules) && i < |rules| && j < |rules|
    requires rules[i].Moves() && rules[j].Moves() && rules[i].target == rules[j].source
    ensures IsOrder(p, rules) && IsOrder(q, rules) && ApplyAll(m, p) != ApplyAll(m, q)
    ensures m == map[rules[i].source := JNull]
  {
    var r, s := rules[i], rules[j];
    var rest := Others(rules, i, j);
    m := map[r.source := JNull];
    p, q := (rest + [s]) + [r], ([r] + rest) + [s];

    Unmoved(m, rest + [s]);
    ApplyAppend(m, rest + [s], [r]);
    ApplyOne(m, r);
    assert ApplyAll(m, p) == map[r.target := JNull];

    var moved: Attrs := map[r.target := JNull];
    ApplyAppend(m, [r], rest);
    assert ApplyAll(m, [r]) == moved;
    Unmoved(moved, rest);
    ApplyAppend(m, [r] + rest, [s]);
    ApplyOne(moved, s);
    assert s.target in ApplyAll(m, q) && s.target !in ApplyAll(m, p);
  }

  lemma FirstTwo(m: Attrs, r: Rule, s: Rule, rest: seq<Rule>)
    requires r.Moves() && s.Moves() && r.target == s.target && r.source != s.source
    requires m.Keys == {r.source, s.source}
    requires forall k | 0 <= k < |rest| :: rest[k].Moves() ==> rest[k].source != r.target
    requires r.target != s.source && r.target != r.source
    ensures ApplyAll(m, [r] + [s] + rest) == map[r.target := m[s.source]]
  {
    ApplyOne(m, r);
    ApplyAppend(m, [r], [s]);
    var once := ApplyRule(m, r);
    ApplyOne(once, s);
    assert once[s.source] == m[s.source];
    var twice := ApplyRule(once, s);
    assert twice == map[r.target := m[s.source]];
    ApplyAppend(m, [r] + [s], rest);
    Unmoved(twice, rest);
  }

  /** Two rules with one target: the later one wins. */
  lemma SharedTargetDiverges(rules: seq<Rule>, i: nat, j: nat) returns (p: seq<Rule>, q: seq<Rule>, m: Attrs)
    requires DistinctSources(rules) && i < |rules| && j < |rules| && i != j
    requires rules[i].Moves() && rules[j].Moves() && rules[i].target == rules[j].target
    requires forall k | 0 <= k < |rules| && rules[k].Moves() :: rules[k].source != rules[i].target
    ensures IsOrder(p, rules) && IsOrder(q, rules) && ApplyAll(m, p) != ApplyAll(m, q)
    ensures m == map[rules[i].source := JNull, rules[j].source := JBool(true)]
  {
    var r, s := rules[i], rules[j];
    var rest := Others(rules, i, j);
    m := map[r.source := JNull, s.source := JBool(true)];
    p, q := [r] + [s] + rest, [s] + [r] + rest;
    forall k | 0 <= k < |rest| ensures rest[k].Moves() ==> rest[k].source != r.target {
      assert rest[k] in multiset(rules);
      assert rest[k] in rules;
    }
    FirstTwo(m, r, s, rest);
    FirstTwo(m, s, r, rest);
    assert ApplyAll(m, p)[r.target] == JBool(true) && ApplyAll(m, q)[r.target] == JNull;
  }

  // ---------------------------------------------------------------- on the text of a column

  lemma RemapMemberView(ms: seq<Member>, r: Rule)
    requires Sorted(ms) && CanonicalMembers(ms)
    ensures View(RemapMember(ms, r)) == ApplyRule(View(ms), r)
    ensures Sorted(RemapMember(ms, r)) && CanonicalMembers(RemapMember(ms, r))
  {
    if r.source in View(ms) {
      DeleteIsRemoval(ms, r.source);
      PutIsUpdate(Delete(ms, r.source), r.target, View(ms)[r.source]);
      DeleteCanonical(ms, r.source);
      ViewCanonical(ms, r.source);
      PutCanonical(Delete(ms, r.source), r.target, View(ms)[r.source]);
    }
  }

  lemma {:induction false} DeleteCanonical(ms: seq<Member>, key: string)
    requires CanonicalMembers(ms)
    ensures CanonicalMembers(Delete(ms, key))
  {
    if ms != [] && ms[0].key != key {
      DeleteCanonical(ms[1..], key);
    }
  }

  lemma {:induction false} ViewCanonical(ms: seq<Member>, key: string)
    requires CanonicalMembers(ms) && key in View(ms)
    ensures Canonical(View(ms)[key])
  {
    if ms != [] && ms[|ms| - 1].key != key {
      ViewCanonical(ms[..|ms| - 1], key);
    }
  }

  /** The in-place edits of the sorted object are the edits of the association it stands for. */
  lemma {:induction false} RemapMembersView(ms: seq<Member>, order: seq<Rule>)
    requires Sorted(ms) && CanonicalMembers(ms)
    ensures View(RemapMembers(ms, order)) == ApplyAll(View(ms), order)
    ensures Sorted(RemapMembers(ms, order)) && CanonicalMembers(RemapMembers(ms, order))
  {
    if order != [] {
      var before := order[..|order| - 1];
      RemapMembersView(ms, before);
      RemapMemberView(RemapMembers(ms, before), order[|order| - 1]);
    }
  }

  lemma RemapJsonIsCanonical(j: Json, order: seq<Rule>)
    requires Canonical(j)
    ensures Canonical(RemapJson(j, order))
  {
    if j.JObject? {
      RemapMembersView(j.members, order);
    }
  }

  /** What a remapped cell reads back as. */
  lemma ReadOfRemapped(text: string, order: seq<Rule>)
    requires Read(text).Some?
    ensures Read(RemapText(text, order)) == Some(RemapJson(Read(text).value, order))
  {
    ReadIsCanonical(text);
    RemapJsonIsCanonical(Read(text).value, order);
    ReadOfPrint(RemapJson(Read(text).value, order));
  }

  ghost predicate SameText(text: string, rules: seq<Rule>, order: seq<Rule>) {
    IsOrder(order, rules) ==> RemapText(text, order) == RemapText(text, rules)
  }

  /** Every cell comes out the same whatever order the hash map yields its rules in. */
  ghost predicate Confluent(rules: seq<Rule>) {
    forall text, order :: SameText(text, rules, order)
  }

  lemma IndependentTextIsSame(text: string, rules: seq<Rule>, order: seq<Rule>)
    requires DistinctSources(rules) && Independent(rules)
    ensures SameText(text, rules, order)
  {
    if IsOrder(order, rules) && Read(text).Some? && Read(text).value.JObject? {
      var ms := Read(text).value.members;
      ReadIsCanonical(text);
      RemapMembersView(ms, order);
      RemapMembersView(ms, rules);
      IndependentIsConfluent(View(ms), rules, order);
      JsonObject.SortedIsUnique(RemapMembers(ms, order), RemapMembers(ms, rules));
    }
  }

  lemma DivergingText(ms: seq<Member>, rules: seq<Rule>, p: seq<Rule>, q: seq<Rule>)
    requires Sorted(ms) && CanonicalMembers(ms) && IsOrder(p, rules) && IsOrder(q, rules)
    requires ApplyAll(View(ms), p) != ApplyAll(View(ms), q)
    ensures !Confluent(rules)
  {
    var text := Print(JObject(ms));
    ReadOfPrint(JObject(ms));
    ReadOfRemapped(text, p);
    ReadOfRemapped(text, q);
    RemapMembersView(ms, p);
    RemapMembersView(ms, q);
    assert RemapText(text, p) != RemapText(text, q);
    assert !SameText(text, rules, p) || !SameText(text, rules, q);
  }

  lemma DependentDiverges(rules: seq<Rule>)
    requires DistinctSources(rules) && !Independent(rules)
    ensures !Confluent(rules)
  {
    if i: nat, j: nat :| i < |rules| && j < |rules| && rules[i].Moves() && rules[j].Moves() && rules[i].target == rules[j].source {
      var p, q, m := ChainDiverges(rules, i, j);
      var ms := Put([], rules[i].source, JNull);
      PutIsUpdate([], rules[i].source, JNull);
      DivergingText(ms, rules, p, q);
    } else {
      var i: nat, j: nat :| i < |rules| && j < |rules| && i != j && rules[i].Moves() && rules[j].Moves() && rules[i].target == rules[j].target;
      var p, q, m := SharedTargetDiverges(rules, i, j);
      var ms := Put([], rules[i].source, JNull);
      PutIsUpdate([], rules[i].source, JNull);
      PutIsUpdate(ms, rules[j].source, JBool(true));
      PutCanonical(ms, rules[j].source, JBool(true));
      DivergingText(Put(ms, rules[j].source, JBool(true)), rules, p, q);
    }
  }

  /** The outcome of remapping does not depend on the iteration order of the rules exactly when,
      among the rules that move anything, targets are distinct and no target is a source. */
  lemma ConfluentIff(rules: seq<Rule>)
    requires DistinctSources(rules)
    ensures Confluent(rules) <==> Independent(rules)
  {
    if Independent(rules) {
      forall text, order ensures SameText(text, rules, order) {
        IndependentTextIsSame(text, rules, order);
      }
    } else {
      DependentDiverges(rules);
    }
  }

  /** The text of a cell is the remapped form of another: text that is not JSON is kept, an object gets the
      association that the rules make of its last members, in key order, and any other value is only normalised. */
  ghost predicate IsRemappedText(text: string, order: seq<Rule>, out: string) {
    if Parse(text).NotJson? then out == text
    else if !Parse(text).value.JObject? then Parse(out) == IsJson(Normal(Parse(text).value))
    else
      var after := Parse(out);
      && after.IsJson? && after.value.JObject? && Sorted(after.value.members)
      && View(after.value.members) == ApplyAll(View(FromMembers(Parse(text).value.members)), order)
  }

  lemma RemapTextMeans(text: string, order: seq<Rule>)
    ensures IsRemappedText(text, order, RemapText(text, order))
  {
    hide Print, RemapMembers, ApplyAll, Normal, Parse;
    if Parse(text).IsJson? {
      var j := Read(text).value;
      ReadIsCanonical(text);
      RemapJsonIsCanonical(j, order);
      CanonicalIsWellFormed(RemapJson(j, order));
      ParseOfPrint(RemapJson(j, order));
      if Parse(text).value.JObject? {
        var ms := Parse(text).value.members;
        NormalObject(ms);
        RemapMembersView(FromMembers(ms), order);
      } else {
        NormalScalar(Parse(text).value);
      }
    }
  }

  lemma NormalObject(ms: seq<Member>)
    ensures Normal(JObject(ms)) == JObject(FromMembers(ms))
  {
  }

  lemma NormalScalar(j: Json)
    requires !j.JObject?
    ensures !Normal(j).JObject?
  {
  }

  /** Remapping a remapped cell changes nothing. */
  lemma RemapTextIsIdempotent(text: string, rules: seq<Rule>)
    requires DistinctSources(rules) && Independent(rules)
    ensures RemapText(RemapText(text, rules), rules) == RemapText(text, rules)
  {
    if Read(text).Some? {
      ReadOfRemapped(text, rules);
      var j := Read(text).value;
      if j.JObject? {
        var ms := j.members;
        ReadIsCanonical(text);
        RemapMembersView(ms, rules);
        RemapMembersView(RemapMembers(ms, rules), rules);
        IndependentIsIdempotent(View(ms), rules);
        JsonObject.SortedIsUnique(RemapMembers(RemapMembers(ms, rules), rules), RemapMembers(ms, rules));
      }
    }
  }
}
