/** JSON values as serde_json holds them: an object is a key-sorted list of members without
    duplicates, so that reading a text keeps the last member of each key and printing lists the
    members in byte order of their keys. */
module JsonObject {
  import opened Wrappers
  import opened Json

  /** Byte-wise lexicographic order. */
  predicate Less(a: string, b: string) {
    if b == "" then false
    else if a == "" then true
    else a[0] < b[0] || (a[0] == b[0] && Less(a[1..], b[1..]))
  }

  lemma {:induction false} LessTotal(a: string, b: string)
    ensures Less(a, b) || a == b || Less(b, a)
    ensures !(Less(a, b) && Less(b, a)) && !Less(a, a)
  {
    if a != "" && b != "" && a[0] == b[0] {
      LessTotal(a[1..], b[1..]);
      assert a == [a[0]] + a[1..] && b == [b[0]] + b[1..];
    }
    if a != "" {
      LessIrreflexive(a);
    }
  }

  /** The order of bytes: a proper prefix comes first, and else the smaller byte where the two first differ. */
  lemma {:induction false} LessIff(a: string, b: string)
    ensures Less(a, b) <==> exists k: nat :: k < |b| && k <= |a| && a[..k] == b[..k] && (k == |a| || a[k] < b[k])
  {
    if Less(a, b) {
      if a == "" || a[0] < b[0] {
        assert a[..0] == b[..0];
      } else {
        LessIff(a[1..], b[1..]);
        var k: nat :| k < |b[1..]| && k <= |a[1..]| && a[1..][..k] == b[1..][..k] && (k == |a[1..]| || a[1..][k] < b[1..][k]);
        assert a[..k + 1] == [a[0]] + a[1..][..k] && b[..k + 1] == [b[0]] + b[1..][..k];
      }
    }
    if k: nat :| k < |b| && k <= |a| && a[..k] == b[..k] && (k == |a| || a[k] < b[k]) {
      if k > 0 {
        assert a[..k][0] == a[0] && b[..k][0] == b[0];
        LessIff(a[1..], b[1..]);
        assert a[1..][..k - 1] == a[..k][1..] && b[1..][..k - 1] == b[..k][1..];
      }
    }
  }

  lemma {:induction false} LessIrreflexive(a: string)
    ensures !Less(a, a)
  {
    if a != "" {
      LessIrreflexive(a[1..]);
    }
  }

  lemma {:induction false} LessTransitive(a: string, b: string, c: string)
    requires Less(a, b) && Less(b, c)
    ensures Less(a, c)
  {
    if a != "" && a[0] == b[0] && b[0] == c[0] {
      LessTransitive(a[1..], b[1..], c[1..]);
    }
  }

  /** Keys strictly increase. */
  predicate Sorted(ms: seq<Member>) {
    forall i, j | 0 <= i < j < |ms| :: Less(ms[i].key, ms[j].key)
  }

  function Put(ms: seq<Member>, key: string, value: Json): seq<Member> {
    if ms == [] then [Member(key, value)]
    else if Less(key, ms[0].key) then [Member(key, value)] + ms
    else if key == ms[0].key then [Member(key, value)] + ms[1..]
    else [ms[0]] + Put(ms[1..], key, value)
  }

  function Delete(ms: seq<Member>, key: string): seq<Member> {
    if ms == [] then []
    else if ms[0].key == key then ms[1..]
    else [ms[0]] + Delete(ms[1..], key)
  }

  /** The association of a member list; the last member of a key wins. */
  function View(ms: seq<Member>): map<string, Json> {
    if ms == [] then map[]
    else View(ms[..|ms| - 1])[ms[|ms| - 1].key := ms[|ms| - 1].value]
  }

  function FromMembers(ms: seq<Member>): seq<Member> {
    if ms == [] then []
    else Put(FromMembers(ms[..|ms| - 1]), ms[|ms| - 1].key, Normal(ms[|ms| - 1].value))
  }

  /** The value serde_json reads: last member wins, members sorted, at every level. */
  function Normal(j: Json): Json
    decreases j, 1
  {
    match j
    case JArray(elems) => JArray(seq(|elems|, i requires 0 <= i < |elems| => Normal(elems[i])))
    case JObject(members) => JObject(FromMembers(members))
    case JNull => j
    case JBool(_) => j
    case JNumber(_) => j
    case JString(_) => j
  }

  /** `serde_json::from_str`. */
  function Read(text: string): Option<Json> {
    match Parse(text)
    case NotJson => None
    case IsJson(j) => Some(Normal(j))
  }

  // ---------------------------------------------------------------- member lists as maps

  lemma {:induction false} ViewKeys(ms: seq<Member>, key: string)
    ensures key in View(ms) <==> exists i | 0 <= i < |ms| :: ms[i].key == key
  {
    if ms != [] {
      var n := |ms| - 1;
      ViewKeys(ms[..n], key);
      if exists i | 0 <= i < |ms| :: ms[i].key == key {
        var i :| 0 <= i < |ms| && ms[i].key == key;
        assert i < n ==> ms[..n][i].key == key;
      }
      if exists i | 0 <= i < n :: ms[..n][i].key == key {
        var i :| 0 <= i < n && ms[..n][i].key == key;
        assert ms[i].key == key;
      }
      assert ms[n].key == key ==> exists i | 0 <= i < |ms| :: ms[i].key == key;
    }
  }

  /** The association holds the last member of each key. */
  lemma {:induction false} ViewIsLast(ms: seq<Member>, i: nat)
    requires i < |ms| && forall k | i < k < |ms| :: ms[k].key != ms[i].key
    ensures ms[i].key in View(ms) && View(ms)[ms[i].key] == ms[i].value
    decreases |ms|
  {
    var n := |ms| - 1;
    if i < n {
      assert forall k | 0 <= k < n :: ms[..n][k] == ms[k];
      ViewIsLast(ms[..n], i);
    }
  }

  lemma {:induction false} ViewCons(m: Member, rest: seq<Member>)
    ensures View([m] + rest) == map[m.key := m.value] + View(rest)
  {
    if rest == [] {
      assert [m] + rest == [m];
      assert [m][..0] == [];
    } else {
      var n := |rest| - 1;
      assert ([m] + rest)[..n + 1] == [m] + rest[..n];
      ViewCons(m, rest[..n]);
    }
  }

  lemma ViewSplit(ms: seq<Member>)
    requires ms != []
    ensures View(ms) == map[ms[0].key := ms[0].value] + View(ms[1..])
  {
    ViewCons(ms[0], ms[1..]);
    assert [ms[0]] + ms[1..] == ms;
  }

  /** A key below the first one is absent. */
  lemma SmallKeyAbsent(ms: seq<Member>, key: string)
    requires Sorted(ms) && (ms == [] || Less(key, ms[0].key))
    ensures key !in View(ms)
  {
    ViewKeys(ms, key);
    forall i | 0 <= i < |ms| ensures ms[i].key != key {
      LessIrreflexive(key);
      if i > 0 {
        LessTransitive(key, ms[0].key, ms[i].key);
      }
    }
  }

  lemma FirstKeyOnce(ms: seq<Member>)
    requires Sorted(ms) && ms != []
    ensures ms[0].key !in View(ms[1..])
  {
    if ms[1..] != [] {
      SmallKeyAbsent(ms[1..], ms[0].key);
    }
  }

  lemma SortedCons(m: Member, tail: seq<Member>)
    requires Sorted(tail) && (tail == [] || Less(m.key, tail[0].key))
    ensures Sorted([m] + tail)
  {
    var r := [m] + tail;
    forall i, j | 0 <= i < j < |r| ensures Less(r[i].key, r[j].key) {
      if i == 0 && j > 1 {
        LessTransitive(m.key, tail[0].key, tail[j - 1].key);
      }
    }
  }

  lemma {:induction false} PutSorted(ms: seq<Member>, key: string, value: Json)
    requires Sorted(ms)
    ensures Sorted(Put(ms, key, value)) && Put(ms, key, value) != []
    ensures Put(ms, key, value)[0].key == if ms == [] || Less(key, ms[0].key) then key else ms[0].key
  {
    if ms != [] {
      LessTotal(key, ms[0].key);
      if Less(key, ms[0].key) {
        SortedCons(Member(key, value), ms);
      } else if key == ms[0].key {
        SortedCons(Member(key, value), ms[1..]);
      } else {
        PutSorted(ms[1..], key, value);
        SortedCons(ms[0], Put(ms[1..], key, value));
      }
    }
  }

  lemma PrependAbsent(m: map<string, Json>, key: string, value: Json)
    requires key !in m
    ensures map[key := value] + m == m[key := value]
  {
  }

  lemma SortedTail(ms: seq<Member>)
    requires Sorted(ms)
    ensures ms != [] ==> Sorted(ms[1..])
  {
  }

  lemma NothingViewed()
    ensures View([]) == map[]
  {
  }

  lemma {:induction false} PutView(ms: seq<Member>, key: string, value: Json)
    requires Sorted(ms)
    ensures View(Put(ms, key, value)) == View(ms)[key := value]
  {
    hide View, Sorted, Less;
    SortedTail(ms);
    NothingViewed();
    if ms == [] || Less(key, ms[0].key) {
      SmallKeyAbsent(ms, key);
      PrependAbsent(View(ms), key, value);
      ViewCons(Member(key, value), ms);
      assert [Member(key, value)] + ms == Put(ms, key, value);
    } else if key == ms[0].key {
      var tail := View(ms[1..]);
      FirstKeyOnce(ms);
      PrependAbsent(tail, key, value);
      ViewCons(Member(key, value), ms[1..]);
      ViewSplit(ms);
      assert (map[key := ms[0].value] + tail)[key := value] == tail[key := value];
    } else {
      var tail := View(ms[1..]);
      PutView(ms[1..], key, value);
      ViewCons(ms[0], Put(ms[1..], key, value));
      ViewSplit(ms);
      assert (map[ms[0].key := ms[0].value] + tail)[key := value] == map[ms[0].key := ms[0].value] + tail[key := value];
    }
  }

  /** Inserting into a sorted list updates its association and keeps it sorted. */
  lemma PutIsUpdate(ms: seq<Member>, key: string, value: Json)
    requires Sorted(ms)
    ensures View(Put(ms, key, value)) == View(ms)[key := value]
    ensures Sorted(Put(ms, key, value))
  {
    PutView(ms, key, value);
    PutSorted(ms, key, value);
  }

  lemma {:induction false} DeleteSorted(ms: seq<Member>, key: string)
    requires Sorted(ms)
    ensures var d := Delete(ms, key);
            Sorted(d) && (d == [] || d[0] == ms[0] || (|ms| > 1 && d[0] == ms[1]))
  {
    if ms != [] && ms[0].key != key {
      DeleteSorted(ms[1..], key);
      var tail := Delete(ms[1..], key);
      assert tail == [] || Less(ms[0].key, tail[0].key);
      SortedCons(ms[0], tail);
    }
  }

  lemma {:induction false} DeleteView(ms: seq<Member>, key: string)
    requires Sorted(ms)
    ensures View(Delete(ms, key)) == View(ms) - {key}
  {
    hide View, Sorted;
    NothingViewed();
    if ms != [] {
      SortedTail(ms);
      ViewSplit(ms);
      if ms[0].key == key {
        FirstKeyOnce(ms);
        assert View(ms[1..]) == View(ms) - {key};
      } else {
        DeleteView(ms[1..], key);
        ViewCons(ms[0], Delete(ms[1..], key));
      }
    }
  }

  lemma DeleteIsRemoval(ms: seq<Member>, key: string)
    requires Sorted(ms)
    ensures View(Delete(ms, key)) == View(ms) - {key}
    ensures Sorted(Delete(ms, key))
  {
    DeleteView(ms, key);
    DeleteSorted(ms, key);
  }

  /** A sorted member list is determined by its association. */
  lemma {:induction false} SortedIsUnique(a: seq<Member>, b: seq<Member>)
    requires Sorted(a) && Sorted(b) && View(a) == View(b)
    ensures a == b
  {
    ViewKeysAll(a);
    ViewKeysAll(b);
    if a != [] && b != [] {
      if Less(a[0].key, b[0].key) {
        SmallKeyAbsent(b, a[0].key);
      }
      if Less(b[0].key, a[0].key) {
        SmallKeyAbsent(a, b[0].key);
      }
      LessTotal(a[0].key, b[0].key);
      ViewSplit(a);
      ViewSplit(b);
      FirstKeyOnce(a);
      FirstKeyOnce(b);
      assert View(a)[a[0].key] == a[0].value && View(b)[b[0].key] == b[0].value;
      assert View(a[1..]) == View(a) - {a[0].key};
      assert View(b[1..]) == View(b) - {b[0].key};
      SortedIsUnique(a[1..], b[1..]);
      assert a == [a[0]] + a[1..] && b == [b[0]] + b[1..];
    }
  }

  lemma ViewKeysAll(ms: seq<Member>)
    ensures forall i | 0 <= i < |ms| :: ms[i].key in View(ms)
  {
    forall i | 0 <= i < |ms| ensures ms[i].key in View(ms) {
      ViewKeys(ms, ms[i].key);
    }
  }

  // ---------------------------------------------------------------- canonical values

  /** Sorted at every level, with well-formed numbers. */
  predicate Canonical(j: Json) {
    match j
    case JNull => true
    case JBool(_) => true
    case JNumber(token) => IsNumber(token)
    case JString(_) => true
    case JArray(elems) => forall i | 0 <= i < |elems| :: Canonical(elems[i])
    case JObject(members) => Sorted(members) && forall i | 0 <= i < |members| :: Canonical(members[i].value)
  }

  lemma {:induction false} CanonicalIsWellFormed(j: Json)
    requires Canonical(j)
    ensures WellFormed(j)
  {
    match j
    case JArray(elems) =>
      forall i | 0 <= i < |elems| ensures WellFormed(elems[i]) {
        CanonicalIsWellFormed(elems[i]);
      }
    case JObject(members) =>
      forall i | 0 <= i < |members| ensures WellFormed(members[i].value) {
        CanonicalIsWellFormed(members[i].value);
      }
    case JNull =>
    case JBool(_) =>
    case JNumber(_) =>
    case JString(_) =>
  }

  ghost predicate CanonicalMembers(ms: seq<Member>) {
    forall i | 0 <= i < |ms| :: Canonical(ms[i].value)
  }

  lemma {:induction false} PutCanonical(ms: seq<Member>, key: string, value: Json)
    requires CanonicalMembers(ms) && Canonical(value)
    ensures CanonicalMembers(Put(ms, key, value))
  {
    if ms != [] && !Less(key, ms[0].key) && key != ms[0].key {
      PutCanonical(ms[1..], key, value);
    }
  }

  lemma {:induction false} NormalIsCanonical(j: Json)
    requires WellFormed(j)
    ensures Canonical(Normal(j))
    decreases j, 1
  {
    match j
    case JArray(elems) =>
      forall i | 0 <= i < |elems| ensures Canonical(Normal(elems[i])) {
        NormalIsCanonical(elems[i]);
      }
    case JObject(members) => FromMembersIsCanonical(members);
    case JNull =>
    case JBool(_) =>
    case JNumber(_) =>
    case JString(_) =>
  }

  lemma {:induction false} FromMembersIsCanonical(ms: seq<Member>)
    requires forall i | 0 <= i < |ms| :: WellFormed(ms[i].value)
    ensures Sorted(FromMembers(ms)) && CanonicalMembers(FromMembers(ms))
    decreases ms, 0
  {
    if ms != [] {
      var n := |ms| - 1;
      FromMembersIsCanonical(ms[..n]);
      NormalIsCanonical(ms[n].value);
      PutIsUpdate(FromMembers(ms[..n]), ms[n].key, Normal(ms[n].value));
      PutCanonical(FromMembers(ms[..n]), ms[n].key, Normal(ms[n].value));
    }
  }

  lemma {:induction false} PutAppends(ms: seq<Member>, key: string, value: Json)
    requires forall i | 0 <= i < |ms| :: Less(ms[i].key, key)
    ensures Put(ms, key, value) == ms + [Member(key, value)]
  {
    if ms != [] {
      LessTotal(key, ms[0].key);
      PutAppends(ms[1..], key, value);
      assert ms == [ms[0]] + ms[1..];
    }
  }

  lemma {:induction false} NormalOfCanonical(j: Json)
    requires Canonical(j)
    ensures Normal(j) == j
    decreases j, 1
  {
    match j
    case JArray(elems) =>
      forall i | 0 <= i < |elems| ensures Normal(elems[i]) == elems[i] {
        NormalOfCanonical(elems[i]);
      }
      assert Normal(j).elems == elems;
    case JObject(members) => FromMembersOfCanonical(members);
    case JNull =>
    case JBool(_) =>
    case JNumber(_) =>
    case JString(_) =>
  }

  lemma {:induction false} FromMembersOfCanonical(ms: seq<Member>)
    requires Sorted(ms) && forall i | 0 <= i < |ms| :: Canonical(ms[i].value)
    ensures FromMembers(ms) == ms
    decreases ms, 0
  {
    if ms != [] {
      var n := |ms| - 1;
      FromMembersOfCanonical(ms[..n]);
      NormalOfCanonical(ms[n].value);
      PutAppends(ms[..n], ms[n].key, ms[n].value);
      assert ms == ms[..n] + [ms[n]];
    }
  }

  /** A read value is canonical. */
  lemma ReadIsCanonical(text: string)
    requires Read(text).Some?
    ensures Canonical(Read(text).value)
  {
    ParsedIsWellFormed(text);
    NormalIsCanonical(Parse(text).value);
  }

  /** Reading back a printed canonical value changes nothing. */
  lemma ReadOfPrint(j: Json)
    requires Canonical(j)
    ensures Read(Print(j)) == Some(j)
  {
    CanonicalIsWellFormed(j);
    ParseOfPrint(j);
    NormalOfCanonical(j);
  }

  /** The association read from a list of members is the last-member-wins association. */
  lemma {:induction false} FromMembersView(ms: seq<Member>)
    requires forall i | 0 <= i < |ms| :: WellFormed(ms[i].value)
    ensures View(FromMembers(ms)).Keys == View(ms).Keys
    ensures forall k | k in View(ms) :: View(FromMembers(ms))[k] == Normal(View(ms)[k])
  {
    if ms != [] {
      var n := |ms| - 1;
      FromMembersView(ms[..n]);
      FromMembersIsCanonical(ms[..n]);
      PutIsUpdate(FromMembers(ms[..n]), ms[n].key, Normal(ms[n].value));
    }
  }
}
