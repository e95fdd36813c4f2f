/** Sequences up to reordering. */
module Bags {

  lemma RemoveAt<T>(s: seq<T>, j: nat)
    requires j < |s|
    ensures multiset(s) == multiset(s[..j] + s[j + 1..]) + multiset{s[j]}
  {
    assert s == s[..j] + [s[j]] + s[j + 1..];
  }

  lemma IndexIn<T>(s: seq<T>, x: T) returns (j: nat)
    requires x in multiset(s)
    ensures j < |s| && s[j] == x
  {
    j :| 0 <= j < |s| && s[j] == x;
  }

  lemma SameLength<T>(a: seq<T>, b: seq<T>)
    requires multiset(a) == multiset(b)
    ensures |a| == |b|
  {
    assert |a| == |multiset(a)| && |b| == |multiset(b)|;
  }

  function MapSeq<S, T>(f: S -> T, s: seq<S>): (r: seq<T>)
    ensures |r| == |s|
    ensures forall i | 0 <= i < |s| :: r[i] == f(s[i])
  {
    seq(|s|, i requires 0 <= i < |s| => f(s[i]))
  }

  lemma MapRemove<S, T>(f: S -> T, s: seq<S>, j: nat)
    requires j < |s|
    ensures multiset(MapSeq(f, s)) == multiset(MapSeq(f, s[..j] + s[j + 1..])) + multiset{f(s[j])}
  {
    var m := MapSeq(f, s);
    RemoveAt(m, j);
    assert MapSeq(f, s[..j] + s[j + 1..]) == m[..j] + m[j + 1..];
  }

  lemma MapTail<S, T>(f: S -> T, s: seq<S>)
    requires s != []
    ensures multiset(MapSeq(f, s)) == multiset(MapSeq(f, s[1..])) + multiset{f(s[0])}
  {
    assert MapSeq(f, s) == [f(s[0])] + MapSeq(f, s[1..]);
  }

  lemma RemovedBag<T>(s: seq<T>, j: nat)
    requires j < |s|
    ensures multiset(s[..j] + s[j + 1..]) == multiset(s) - multiset{s[j]}
  {
    RemoveAt(s, j);
  }

  /** Mapping respects reordering. */
  lemma {:induction false} MapPermutation<S, T>(f: S -> T, a: seq<S>, b: seq<S>)
    requires multiset(a) == multiset(b)
    ensures multiset(MapSeq(f, a)) == multiset(MapSeq(f, b))
    decreases |a|
  {
    SameLength(a, b);
    if a == [] {
      assert MapSeq(f, a) == MapSeq(f, b);
    } else {
      var j := IndexIn(b, a[0]);
      TailBag(a);
      RemovedBag(b, j);
      MapPermutation(f, a[1..], b[..j] + b[j + 1..]);
      MapTail(f, a);
      MapRemove(f, b, j);
    }
  }

  predicate SortedBy<T>(key: T -> int, s: seq<T>) {
    forall i, j | 0 <= i < j < |s| :: key(s[i]) <= key(s[j])
  }

  predicate StrictlySortedBy<T>(key: T -> int, s: seq<T>) {
    forall i, j | 0 <= i < j < |s| :: key(s[i]) < key(s[j])
  }

  lemma LeastFirst<T>(key: T -> int, a: seq<T>, c: seq<T>)
    requires multiset(a) == multiset(c) && a != [] && c != []
    requires SortedBy(key, a) && StrictlySortedBy(key, c)
    ensures a[0] == c[0]
  {
    assert a[0] in multiset(a) && c[0] in multiset(c);
    var i := IndexIn(c, a[0]);
    var j := IndexIn(a, c[0]);
    if i > 0 {
      assert key(c[0]) < key(c[i]);
    }
  }

  /** Sorting by distinct keys has one result. */
  lemma {:induction false} SortedIsUnique<T>(key: T -> int, a: seq<T>, c: seq<T>)
    requires multiset(a) == multiset(c)
    requires SortedBy(key, a) && StrictlySortedBy(key, c)
    ensures a == c
  {
    SameLength(a, c);
    if a != [] {
      LeastFirst(key, a, c);
      TailBag(a);
      TailBag(c);
      SortedIsUnique(key, a[1..], c[1..]);
      assert a == [a[0]] + a[1..] && c == [c[0]] + c[1..];
    }
  }

  lemma TailBag<T>(s: seq<T>)
    requires s != []
    ensures multiset(s[1..]) == multiset(s) - multiset{s[0]}
  {
    assert s == [s[0]] + s[1..];
  }

  method SortBy<T>(key: T -> int, s: seq<T>) returns (r: seq<T>)
    ensures SortedBy(key, r) && multiset(r) == multiset(s)
  {
    r := [];
    for i := 0 to |s|
      invariant SortedBy(key, r) && multiset(r) == multiset(s[..i])
    {
      assert s[..i + 1] == s[..i] + [s[i]];
      r := InsertBy(key, r, s[i]);
    }
    assert s[..|s|] == s;
  }

  method InsertBy<T>(key: T -> int, s: seq<T>, o: T) returns (r: seq<T>)
    requires SortedBy(key, s)
    ensures SortedBy(key, r) && multiset(r) == multiset(s) + multiset{o}
  {
    var k := 0;
    while k < |s| && key(s[k]) < key(o)
      invariant k <= |s| && forall j | 0 <= j < k :: key(s[j]) < key(o)
    {
      k := k + 1;
    }
    r := s[..k] + [o] + s[k..];
    assert s == s[..k] + s[k..];
  }
}
