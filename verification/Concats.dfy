/** Concatenations of lists of rows, built up part by part. */
module Concats {

  /** The first `k` parts, one after the other. */
  function ConcatUpto<T>(parts: seq<seq<T>>, k: nat): seq<T>
    requires k <= |parts|
  {
    if k == 0 then [] else ConcatUpto(parts, k - 1) + parts[k - 1]
  }

  function Concat<T>(parts: seq<seq<T>>): seq<T> {
    ConcatUpto(parts, |parts|)
  }

  lemma ConcatIsAll<T>(parts: seq<seq<T>>)
    ensures Concat(parts) == ConcatUpto(parts, |parts|)
  {
  }

  predicate All<T>(p: T -> bool, s: seq<T>) {
    forall i | 0 <= i < |s| :: p(s[i])
  }

  lemma AllAppend<T>(p: T -> bool, a: seq<T>, b: seq<T>)
    ensures All(p, a + b) <==> All(p, a) && All(p, b)
  {
    var all := a + b;
    assert forall i | 0 <= i < |a| :: all[i] == a[i];
    assert forall i | 0 <= i < |b| :: all[|a| + i] == b[i];
  }

  /** What holds of all rows is what holds of the rows of every part. */
  lemma {:induction false} AllUpto<T>(p: T -> bool, parts: seq<seq<T>>, k: nat)
    requires k <= |parts|
    ensures All(p, ConcatUpto(parts, k)) <==> forall i | 0 <= i < k :: All(p, parts[i])
  {
    if k > 0 {
      AllUpto(p, parts, k - 1);
      AllAppend(p, ConcatUpto(parts, k - 1), parts[k - 1]);
    }
  }

  /** One part more; and a row that violates `p` among the first parts violates it among all. */
  lemma ConcatStep<T>(p: T -> bool, parts: seq<seq<T>>, k: nat, before: seq<T>)
    requires k < |parts|
    ensures before + ConcatUpto(parts, k + 1) == before + ConcatUpto(parts, k) + parts[k]
    ensures All(p, ConcatUpto(parts, k + 1)) <==> All(p, ConcatUpto(parts, k)) && All(p, parts[k])
    ensures All(p, Concat(parts)) ==> All(p, ConcatUpto(parts, k + 1))
  {
    AllUpto(p, parts, k);
    AllUpto(p, parts, k + 1);
    AllUpto(p, parts, |parts|);
    assert before + (ConcatUpto(parts, k) + parts[k]) == before + ConcatUpto(parts, k) + parts[k];
  }
}
