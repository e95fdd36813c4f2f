/** Wildcard patterns and the choice of an index template. */
module Glob {
  import opened Wrappers
  import opened Text

  // ---------------------------------------------------------------- what a pattern means

  predicate PartMatches(c: char, part: string) {
    if c == '*' then true else if c == '?' then |part| == 1 else part == [c]
  }

  /** `target` is cut into one part per pattern character. */
  ghost predicate IsDecomposition(pattern: string, target: string, parts: seq<string>) {
    && |parts| == |pattern| && Flatten(parts) == target
    && forall i | 0 <= i < |parts| :: PartMatches(pattern[i], parts[i])
  }

  ghost predicate Decomposes(pattern: string, target: string) {
    exists parts :: IsDecomposition(pattern, target, parts)
  }

  // ---------------------------------------------------------------- the same by recursion

  predicate Matches(p: string, t: string)
    decreases |p|, 0
  {
    if p == "" then t == ""
    else if p[0] == '*' then StarMatches(p[1..], t)
    else t != "" && (p[0] == '?' || p[0] == t[0]) && Matches(p[1..], t[1..])
  }

  /** Some suffix of `t` matches. */
  predicate StarMatches(p: string, t: string)
    decreases |p|, 1
  {
    exists k | 0 <= k <= |t| :: Matches(p, t[k..])
  }

  lemma {:induction false} MatchesDecomposes(p: string, t: string)
    requires Matches(p, t)
    ensures Decomposes(p, t)
    decreases |p|
  {
    if p == "" {
      assert IsDecomposition(p, t, []);
    } else if p[0] == '*' {
      var k :| 0 <= k <= |t| && Matches(p[1..], t[k..]);
      MatchesDecomposes(p[1..], t[k..]);
      PrependPart(p, t, k);
    } else {
      MatchesDecomposes(p[1..], t[1..]);
      PrependPart(p, t, 1);
    }
  }

  lemma PrependPart(p: string, t: string, k: nat)
    requires p != "" && k <= |t| && PartMatches(p[0], t[..k])
    requires Decomposes(p[1..], t[k..])
    ensures Decomposes(p, t)
  {
    var parts :| IsDecomposition(p[1..], t[k..], parts);
    var all := [t[..k]] + parts;
    assert all[1..] == parts;
    assert t == t[..k] + t[k..];
    assert IsDecomposition(p, t, all);
  }

  lemma {:induction false} DecomposedMatches(p: string, t: string, parts: seq<string>)
    requires IsDecomposition(p, t, parts)
    ensures Matches(p, t)
    decreases |p|
  {
    if p != "" {
      var k := |parts[0]|;
      assert t == parts[0] + Flatten(parts[1..]);
      assert t[k..] == Flatten(parts[1..]);
      assert IsDecomposition(p[1..], t[k..], parts[1..]);
      DecomposedMatches(p[1..], t[k..], parts[1..]);
    }
  }

  /** A pattern matches exactly the targets that decompose according to it. */
  lemma MatchesIffDecomposes(p: string, t: string)
    ensures Matches(p, t) <==> Decomposes(p, t)
  {
    if Matches(p, t) {
      MatchesDecomposes(p, t);
    }
    if Decomposes(p, t) {
      var parts :| IsDecomposition(p, t, parts);
      DecomposedMatches(p, t, parts);
    }
  }

  // ---------------------------------------------------------------- the matcher

  lemma StarStarMatches(p: string, t: string)
    requires p != "" && p[0] == '*'
    ensures StarMatches(p, t) <==> StarMatches(p[1..], t)
  {
    if StarMatches(p, t) {
      var k :| 0 <= k <= |t| && Matches(p, t[k..]);
      assert StarMatches(p[1..], t[k..]);
      var l :| 0 <= l <= |t[k..]| && Matches(p[1..], t[k..][l..]);
      assert t[k..][l..] == t[k + l..];
    }
    if StarMatches(p[1..], t) {
      assert t[0..] == t;
      assert Matches(p, t[0..]);
    }
  }

  lemma StarSkips(p: string, t: string)
    requires t != "" && !Matches(p, t)
    ensures StarMatches(p, t) <==> StarMatches(p, t[1..])
  {
    if StarMatches(p, t) {
      var k :| 0 <= k <= |t| && Matches(p, t[k..]);
      assert t[0..] == t;
      assert t[1..][k - 1..] == t[k..];
    }
    if StarMatches(p, t[1..]) {
      var k :| 0 <= k <= |t| - 1 && Matches(p, t[1..][k..]);
      assert t[1..][k..] == t[k + 1..];
    }
  }

  lemma StarHere(p: string, t: string)
    requires Matches(p, t)
    ensures StarMatches(p, t)
  {
    assert t[0..] == t;
  }

  /** The run of stars is skipped as one, then every suffix of the target is tried. */
  method MatchStar(pattern: string, target: string) returns (r: bool)
    requires pattern != "" && pattern[0] == '*'
    ensures r == StarMatches(pattern[1..], target)
    decreases |pattern|, 0
  {
    var p, t := pattern, target;
    StarStarMatches(pattern, target);
    while p != "" && p[0] == '*'
      invariant |p| <= |pattern|
      invariant StarMatches(p, target) == StarMatches(pattern[1..], target)
      invariant p == pattern || |p| < |pattern|
      decreases |p|
    {
      StarStarMatches(p, target);
      p := p[1..];
    }
    if p == "" {
      assert target[|target|..] == "";
      assert Matches(p, target[|target|..]);
      return true;
    }
    while t != ""
      invariant StarMatches(p, t) == StarMatches(p, target)
      decreases |t|
    {
      var found := MatchRecursive(p, t);
      if found {
        StarHere(p, t);
        return true;
      }
      StarSkips(p, t);
      t := t[1..];
    }
    r := MatchRecursive(p, t);
    assert t[0..] == t;
  }

  /** `p` and `t` are what is left of the two iterators. */
  method MatchRecursive(pattern: string, target: string) returns (r: bool)
    ensures r == Matches(pattern, target)
    decreases |pattern|, 1
  {
    var p, t := pattern, target;
    while p != ""
      invariant |p| <= |pattern|
      invariant Matches(p, t) == Matches(pattern, target)
      decreases |p|
    {
      if p[0] == '*' {
        r := MatchStar(p, t);
        return;
      } else if p[0] == '?' {
        if t == "" {
          return false;
        }
        p, t := p[1..], t[1..];
      } else {
        if t == "" || t[0] != p[0] {
          return false;
        }
        p, t := p[1..], t[1..];
      }
    }
    return t == "";
  }

  method PatternMatches(pattern: string, target: string) returns (r: bool)
    ensures r <==> Decomposes(pattern, target)
  {
    MatchesIffDecomposes(pattern, target);
    if pattern == "*" {
      assert target[|target|..] == "" && pattern[1..] == "";
      assert Matches(pattern[1..], target[|target|..]);
      return true;
    }
    r := MatchRecursive(pattern, target);
  }

  // ---------------------------------------------------------------- index templates

  /** `content` is absent when the listing gives only a name. */
  datatype Content = Content(patterns: seq<string>, priority: Option<int>, dataStream: bool)

  datatype Template = Template(name: string, content: Option<Content>)

  ghost predicate Covers(t: Template, stream: string) {
    t.content.Some? && exists i | 0 <= i < |t.content.value.patterns| :: Decomposes(t.content.value.patterns[i], stream)
  }

  function Priority(t: Template): int {
    if t.content.Some? && t.content.value.priority.Some? then t.content.value.priority.value else 0
  }

  method IsCovered(t: Template, stream: string) returns (r: bool)
    ensures r == Covers(t, stream)
  {
    if t.content.None? {
      return false;
    }
    for i := 0 to |t.content.value.patterns|
      invariant forall j | 0 <= j < i :: !Decomposes(t.content.value.patterns[j], stream)
    {
      var matched := PatternMatches(t.content.value.patterns[i], stream);
      if matched {
        return true;
      }
    }
    return false;
  }

  /** The priority of a template; none counts as 0. */
  predicate HasPriority(t: Template, p: int) {
    match t.content case Some(Content(_, Some(q), _)) => p == q case _ => p == 0
  }

  lemma PriorityIs(t: Template)
    ensures HasPriority(t, Priority(t)) && forall p :: HasPriority(t, p) ==> p == Priority(t)
  {
  }

  /** `a` is sorted in front of `b`: higher priority, or listed earlier with the same. */
  predicate InFront(templates: seq<Template>, a: nat, b: nat)
    requires a < |templates| && b < |templates|
  {
    Priority(templates[a]) > Priority(templates[b]) || (Priority(templates[a]) == Priority(templates[b]) && a < b)
  }

  predicate SortedByPriority(templates: seq<Template>, order: seq<nat>)
    requires InRange(order, |templates|)
  {
    forall i, j | 0 <= i < j < |order| :: InFront(templates, order[i], order[j])
  }

  /** A stable sort keeps the listed order among equal priorities: a new last template goes behind
      all that are not of lower priority. */
  method InsertStably(templates: seq<Template>, order: seq<nat>, next: nat) returns (r: seq<nat>)
    requires next < |templates| && InRange(order, |templates|) && SortedByPriority(templates, order)
    requires forall k | 0 <= k < |order| :: order[k] < next
    ensures InRange(r, |templates|) && SortedByPriority(templates, r)
    ensures forall k: nat :: k in r <==> k in order || k == next
    ensures forall k | 0 <= k < |r| :: r[k] < next + 1
  {
    hide Priority;
    var at := |order|;
    while at > 0 && Priority(templates[order[at - 1]]) < Priority(templates[next])
      invariant 0 <= at <= |order|
      invariant forall k | at <= k < |order| :: Priority(templates[order[k]]) < Priority(templates[next])
    {
      at := at - 1;
    }
    r := order[..at] + [next] + order[at..];
  }

  /** The template that applies to a data stream: the first listed among the matching ones of the
      highest priority. */
  method WinningTemplate(templates: seq<Template>, stream: string) returns (winner: Option<nat>)
    ensures winner.None? <==> forall i | 0 <= i < |templates| :: !Covers(templates[i], stream)
    ensures winner.Some? ==>
              && winner.value < |templates| && Covers(templates[winner.value], stream)
              && forall i | 0 <= i < |templates| && Covers(templates[i], stream) ::
                   && (i == winner.value || InFront(templates, winner.value, i))
                   && forall p, q :: HasPriority(templates[winner.value], p) && HasPriority(templates[i], q) ==>
                        q < p || (q == p && winner.value <= i)
  {
    var order: seq<nat> := [];
    for i := 0 to |templates|
      invariant InRange(order, |templates|) && SortedByPriority(templates, order)
      invariant forall k | 0 <= k < |order| :: order[k] < i
      invariant forall k: nat :: k in order <==> k < i && Covers(templates[k], stream)
    {
      var covered := IsCovered(templates[i], stream);
      if covered {
        order := InsertStably(templates, order, i);
      }
    }
    if order == [] {
      return None;
    }
    assert order[0] in order;
    forall i: nat | i < |templates| && Covers(templates[i], stream)
      ensures i == order[0] || InFront(templates, order[0], i)
    {
      assert i in order;
    }
    forall i: nat | i < |templates| ensures forall p :: HasPriority(templates[i], p) ==> p == Priority(templates[i]) {
      PriorityIs(templates[i]);
    }
    return Some(order[0]);
  }
}
