/** Lexicographic batch sorting. The sort itself is any permutation in the order of the configured
    comparator: ties may come out in any order. */
module Sorting {
  import opened Wrappers
  import opened Text
  import opened JsonObject
  import opened Bags

  datatype Value = Null | Num(n: int) | Txt(s: string)

  type Row = seq<Value>

  /** Column names, which columns hold text, and the rows. */
  datatype Table = Table(names: seq<string>, utf8: seq<bool>, rows: seq<Row>)
  {
    predicate Valid() {
      && |utf8| == |names|
      && (forall r | 0 <= r < |rows| :: |rows[r]| == |names|)
      && (forall r, c | 0 <= r < |rows| && 0 <= c < |names| && utf8[c] :: !rows[r][c].Num?)
    }
  }

  datatype Options = Options(descending: bool, nullsFirst: bool)

  datatype SortKey = SortKey(column: string, options: Options)

  datatype SortColumn = SortColumn(index: nat, options: Options)

  // ---------------------------------------------------------------- the comparator

  predicate ValueLess(a: Value, b: Value) {
    match (a, b)
    case (Num(x), Num(y)) => x < y
    case (Txt(x), Txt(y)) => Less(x, y)
    case (Num(_), Txt(_)) => true
    case _ => false
  }

  /** Strictly before, under the direction and null placement of a sort column. */
  predicate Before(a: Value, b: Value, o: Options) {
    if a == Null || b == Null then
      if o.nullsFirst then a == Null && b != Null else a != Null && b == Null
    else if o.descending then ValueLess(b, a) else ValueLess(a, b)
  }

  predicate RowLe(cols: seq<SortColumn>, a: Row, b: Row)
    requires forall k | 0 <= k < |cols| :: cols[k].index < |a| && cols[k].index < |b|
  {
    if cols == [] then true
    else
      var x, y := a[cols[0].index], b[cols[0].index];
      Before(x, y, cols[0].options) || (!Before(y, x, cols[0].options) && RowLe(cols[1..], a, b))
  }

  lemma BeforeIsTotal(a: Value, b: Value, o: Options)
    ensures Before(a, b, o) || a == b || Before(b, a, o)
    ensures !(Before(a, b, o) && Before(b, a, o)) && !Before(a, a, o)
  {
    if a.Txt? && b.Txt? {
      LessTotal(a.s, b.s);
      LessIrreflexive(a.s);
    } else if a.Txt? {
      LessIrreflexive(a.s);
    }
  }

  lemma BeforeIsTransitive(a: Value, b: Value, c: Value, o: Options)
    requires Before(a, b, o) && Before(b, c, o)
    ensures Before(a, c, o)
  {
    if a.Txt? && b.Txt? && c.Txt? {
      if o.descending {
        LessTransitive(c.s, b.s, a.s);
      } else {
        LessTransitive(a.s, b.s, c.s);
      }
    }
  }

  predicate InTable(cols: seq<SortColumn>, width: nat) {
    forall k | 0 <= k < |cols| :: cols[k].index < width
  }

  /** The comparator is a total preorder, so that sorting by it makes sense. */
  lemma {:induction false} RowLeIsPreorder(cols: seq<SortColumn>, a: Row, b: Row, c: Row)
    requires |a| == |b| == |c| && InTable(cols, |a|)
    ensures RowLe(cols, a, b) || RowLe(cols, b, a)
    ensures RowLe(cols, a, b) && RowLe(cols, b, c) ==> RowLe(cols, a, c)
  {
    if cols != [] {
      var i, o := cols[0].index, cols[0].options;
      BeforeIsTotal(a[i], b[i], o);
      BeforeIsTotal(b[i], c[i], o);
      BeforeIsTotal(a[i], c[i], o);
      if Before(a[i], b[i], o) && Before(b[i], c[i], o) {
        BeforeIsTransitive(a[i], b[i], c[i], o);
      }
      RowLeIsPreorder(cols[1..], a, b, c);
    }
  }

  ghost predicate SortedRows(cols: seq<SortColumn>, rows: seq<Row>, width: nat)
    requires InTable(cols, width) && forall r | 0 <= r < |rows| :: |rows[r]| == width
  {
    forall i, j | 0 <= i < j < |rows| :: RowLe(cols, rows[i], rows[j])
  }

  // ---------------------------------------------------------------- what the options ask for

  /** `x` may stand in front of `y`: numbers and texts do not decrease in an ascending column and do not
      increase in a descending one, and nulls are all in front or all at the end. */
  ghost predicate MayPrecede(x: Value, y: Value, o: Options) {
    && (x.Num? && y.Num? ==> if o.descending then y.n <= x.n else x.n <= y.n)
    && (x.Txt? && y.Txt? ==> x.s == y.s || if o.descending then Less(y.s, x.s) else Less(x.s, y.s))
    && (x.Null? && !y.Null? ==> o.nullsFirst)
    && (!x.Null? && y.Null? ==> !o.nullsFirst)
  }

  /** The rows hold the same values in the first `k` sort columns. */
  ghost predicate AgreeBefore(cols: seq<SortColumn>, k: nat, a: Row, b: Row)
    requires k <= |cols| && InTable(cols, |a|) && |a| == |b|
  {
    forall m | 0 <= m < k :: a[cols[m].index] == b[cols[m].index]
  }

  /** Rows that agree on the columns before the k-th stand in the order that its options ask for. */
  ghost predicate OrderedBy(cols: seq<SortColumn>, rows: seq<Row>, width: nat)
    requires InTable(cols, width) && forall r | 0 <= r < |rows| :: |rows[r]| == width
  {
    forall i, j, k | 0 <= i < j < |rows| && 0 <= k < |cols| && AgreeBefore(cols, k, rows[i], rows[j]) ::
      MayPrecede(rows[i][cols[k].index], rows[j][cols[k].index], cols[k].options)
  }

  lemma NotAfterMayPrecede(x: Value, y: Value, o: Options)
    requires !Before(y, x, o)
    ensures MayPrecede(x, y, o)
  {
    if x.Txt? && y.Txt? {
      LessTotal(x.s, y.s);
    }
  }

  lemma {:induction false} RowLeMeans(cols: seq<SortColumn>, a: Row, b: Row, k: nat)
    requires k < |cols| && |a| == |b| && InTable(cols, |a|) && RowLe(cols, a, b) && AgreeBefore(cols, k, a, b)
    ensures MayPrecede(a[cols[k].index], b[cols[k].index], cols[k].options)
    decreases k
  {
    var x, y := a[cols[0].index], b[cols[0].index];
    BeforeIsTotal(x, y, cols[0].options);
    if k == 0 {
      NotAfterMayPrecede(x, y, cols[0].options);
    } else {
      RowLeMeans(cols[1..], a, b, k - 1);
    }
  }

  /** Sorted rows are in the order that the options ask for. */
  lemma SortedIsOrdered(cols: seq<SortColumn>, rows: seq<Row>, width: nat)
    requires InTable(cols, width) && forall r | 0 <= r < |rows| :: |rows[r]| == width
    requires SortedRows(cols, rows, width)
    ensures OrderedBy(cols, rows, width)
  {
    hide RowLe, MayPrecede, AgreeBefore;
    forall i, j, k | 0 <= i < j < |rows| && 0 <= k < |cols| && AgreeBefore(cols, k, rows[i], rows[j])
      ensures MayPrecede(rows[i][cols[k].index], rows[j][cols[k].index], cols[k].options)
    {
      RowLeMeans(cols, rows[i], rows[j], k);
    }
  }

  // ---------------------------------------------------------------- sort columns

  /** Keys as columns of the table; a missing one is skipped or fails. */
  function Resolve(names: seq<string>, keys: seq<SortKey>, skipMissing: bool): (r: Option<seq<SortColumn>>)
    ensures r.Some? ==> InTable(r.value, |names|)
    ensures r.None? <==> !skipMissing && exists k | 0 <= k < |keys| :: IndexOf(names, keys[k].column) == |names|
  {
    if keys == [] then Some([]) else
    var last := keys[|keys| - 1];
    var before := Resolve(names, keys[..|keys| - 1], skipMissing);
    if before.None? then None else
    var i := IndexOf(names, last.column);
    if i < |names| then Some(before.value + [SortColumn(i, last.options)])
    else if skipMissing then before else None
  }

  ghost function IfPresent(names: seq<string>, key: SortKey): seq<SortKey> {
    if key.column in names then [key] else []
  }

  /** The keys whose columns exist, in order. */
  ghost function Present(names: seq<string>, keys: seq<SortKey>): seq<SortKey> {
    if keys == [] then [] else IfPresent(names, keys[0]) + Present(names, keys[1..])
  }

  lemma {:induction false} PresentSnoc(names: seq<string>, keys: seq<SortKey>, last: SortKey)
    ensures Present(names, keys + [last]) == Present(names, keys) + IfPresent(names, last)
  {
    hide IfPresent;
    if keys == [] {
      assert keys + [last] == [last] && [last][1..] == keys;
      assert IfPresent(names, last) + [] == IfPresent(names, last);
    } else {
      assert (keys + [last])[1..] == keys[1..] + [last];
      PresentSnoc(names, keys[1..], last);
    }
  }

  /** The columns are those of the keys: each the first column of its name, with the key's own options. */
  ghost predicate ColumnsOf(cols: seq<SortColumn>, names: seq<string>, present: seq<SortKey>) {
    && |cols| == |present|
    && forall k | 0 <= k < |cols| :: IsColumnOf(cols[k], names, present[k])
  }

  predicate IsColumnOf(col: SortColumn, names: seq<string>, key: SortKey) {
    && col.options == key.options
    && col.index < |names| && names[col.index] == key.column && key.column !in names[..col.index]
  }

  lemma FirstColumn(names: seq<string>, key: SortKey)
    ensures var i := IndexOf(names, key.column);
            if i < |names| then key.column in names && IsColumnOf(SortColumn(i, key.options), names, key) else key.column !in names
  {
    var i := IndexOf(names, key.column);
    assert i < |names| ==> names[i] == key.column;
  }

  /** The sort columns are the keys whose columns exist, in order. */
  lemma {:induction false} ResolvedKeys(names: seq<string>, keys: seq<SortKey>, skipMissing: bool)
    requires Resolve(names, keys, skipMissing).Some?
    ensures ColumnsOf(Resolve(names, keys, skipMissing).value, names, Present(names, keys))
    decreases |keys|
  {
    hide IsColumnOf, IndexOf, Present;
    if keys == [] {
      assert Present(names, []) == [] by {
        NothingPresent(names);
      }
    } else {
      var n := |keys| - 1;
      assert keys == keys[..n] + [keys[n]];
      ResolvedKeys(names, keys[..n], skipMissing);
      PresentSnoc(names, keys[..n], keys[n]);
      FirstColumn(names, keys[n]);
    }
  }

  lemma NothingPresent(names: seq<string>)
    ensures Present(names, []) == []
  {
  }

  const LEAD_OPTIONS := Options(false, false)

  function LeadKeys(lead: Option<string>): seq<SortKey> {
    if lead.None? then [] else [SortKey(lead.value, LEAD_OPTIONS)]
  }

  function AllKeys(lead: Option<string>, keys: seq<SortKey>): seq<SortKey> {
    LeadKeys(lead) + keys
  }

  lemma ResolveStep(names: seq<string>, keys: seq<SortKey>, skipMissing: bool, k: nat)
    requires k < |keys|
    ensures keys[..k + 1] == keys[..k] + [keys[k]]
    ensures Resolve(names, keys[..k], skipMissing).None? ==> Resolve(names, keys[..k + 1], skipMissing).None?
    ensures Resolve(names, keys[..k + 1], skipMissing).None? ==> Resolve(names, keys, skipMissing).None?
  {
    assert keys[..k + 1][..k] == keys[..k];
    if Resolve(names, keys[..k + 1], skipMissing).None? {
      var j :| 0 <= j < k + 1 && IndexOf(names, keys[..k + 1][j].column) == |names|;
      assert keys[j] == keys[..k + 1][j];
    }
  }

  method SortColumns(names: seq<string>, lead: Option<string>, keys: seq<SortKey>, skipMissing: bool)
    returns (r: Option<seq<SortColumn>>)
    ensures r == Resolve(names, AllKeys(lead, keys), skipMissing)
  {
    var all := AllKeys(lead, keys);
    var cols: seq<SortColumn> := [];
    for k := 0 to |all|
      invariant Resolve(names, all[..k], skipMissing) == Some(cols)
    {
      ResolveStep(names, all, skipMissing, k);
      assert all[..k + 1][..k] == all[..k];
      var i := IndexOf(names, all[k].column);
      if i < |names| {
        cols := cols + [SortColumn(i, all[k].options)];
      } else if !skipMissing {
        return None;
      }
    }
    assert all[..|all|] == all;
    return Some(cols);
  }

  // ---------------------------------------------------------------- sort_with_extra_lead_column

  /** `order` is a possible answer of the lexicographic sort. */
  ghost predicate IsSortOrder(order: seq<nat>, cols: seq<SortColumn>, t: Table)
    requires t.Valid() && InTable(cols, |t.names|)
  {
    && InRange(order, |t.rows|)
    && multiset(order) == multiset(Upto(|t.rows|))
    && SortedRows(cols, Pick(t.rows, order), |t.names|)
  }

  lemma PickedRows<T>(s: seq<T>, order: seq<nat>)
    requires InRange(order, |s|) && multiset(order) == multiset(Upto(|s|))
    ensures multiset(Pick(s, order)) == multiset(s)
  {
    SameLength(order, Upto(|s|));
    if s != [] {
      var f := (i: nat) => if i < |s| then s[i] else s[0];
      MapPermutation(f, order, Upto(|s|));
      assert MapSeq(f, order) == Pick(s, order);
      assert MapSeq(f, Upto(|s|)) == s;
    }
  }

  lemma InsertedIsSorted(t: Table, cols: seq<SortColumn>, order: seq<nat>, next: nat, at: nat)
    requires t.Valid() && InTable(cols, |t.names|) && InRange(order, |t.rows|) && next < |t.rows| && at <= |order|
    requires SortedRows(cols, Pick(t.rows, order), |t.names|)
    requires forall j | 0 <= j < at :: RowLe(cols, t.rows[order[j]], t.rows[next])
    requires at < |order| ==> RowLe(cols, t.rows[next], t.rows[order[at]])
    ensures InRange(order[..at] + [next] + order[at..], |t.rows|)
    ensures SortedRows(cols, Pick(t.rows, order[..at] + [next] + order[at..]), |t.names|)
  {
    var after := order[..at] + [next] + order[at..];
    var rows, all := Pick(t.rows, order), Pick(t.rows, after);
    forall i, j | 0 <= i < j < |all| ensures RowLe(cols, all[i], all[j]) {
      if i == at {
        assert all[j] == rows[j - 1];
        if j - 1 > at {
          RowLeIsPreorder(cols, t.rows[next], rows[at], rows[j - 1]);
        }
      } else {
        assert all[i] == rows[if i < at then i else i - 1];
        assert j != at ==> all[j] == rows[if j < at then j else j - 1];
      }
    }
  }

  lemma InsertedBag(order: seq<nat>, next: nat, at: nat)
    requires at <= |order| && multiset(order) == multiset(Upto(next))
    ensures multiset(order[..at] + [next] + order[at..]) == multiset(Upto(next + 1))
  {
    assert order == order[..at] + order[at..];
    assert Upto(next + 1) == Upto(next) + [next];
  }

  lemma NothingIsSorted(t: Table, cols: seq<SortColumn>)
    requires t.Valid() && InTable(cols, |t.names|)
    ensures SortedRows(cols, Pick(t.rows, []), |t.names|)
  {
  }

  /** Where the next row may go: behind all smaller rows, in front of all larger ones, anywhere among
      its equals. */
  method Place(t: Table, cols: seq<SortColumn>, order: seq<nat>, next: nat) returns (at: nat)
    requires t.Valid() && InTable(cols, |t.names|) && InRange(order, |t.rows|) && next < |t.rows|
    ensures at <= |order|
    ensures forall j | 0 <= j < at :: RowLe(cols, t.rows[order[j]], t.rows[next])
    ensures at < |order| ==> RowLe(cols, t.rows[next], t.rows[order[at]])
  {
    at := 0;
    while at < |order|
      invariant at <= |order|
      invariant forall j | 0 <= j < at :: RowLe(cols, t.rows[order[j]], t.rows[next])
    {
      var here := t.rows[order[at]];
      RowLeIsPreorder(cols, here, t.rows[next], here);
      var skip: bool := *;
      if RowLe(cols, t.rows[next], here) && !(skip && RowLe(cols, here, t.rows[next])) {
        return;
      }
      at := at + 1;
    }
  }

  /** The lexicographic sort: some order of the rows by the columns, not necessarily a stable one. */
  method LexsortToIndices(t: Table, cols: seq<SortColumn>) returns (order: seq<nat>)
    requires t.Valid() && InTable(cols, |t.names|)
    ensures IsSortOrder(order, cols, t)
  {
    hide RowLe, SortedRows;
    order := [];
    NothingIsSorted(t, cols);
    for i := 0 to |t.rows|
      invariant InRange(order, |t.rows|) && multiset(order) == multiset(Upto(i))
      invariant SortedRows(cols, Pick(t.rows, order), |t.names|)
    {
      var at := Place(t, cols, order, i);
      InsertedIsSorted(t, cols, order, i, at);
      InsertedBag(order, i, at);
      order := order[..at] + [i] + order[at..];
    }
  }

  /** The order of the rows after sorting by the lead column, ascending with nulls last, and then by the
      keys. One row or none stays as it is, and so does a batch without any sort column. */
  method SortOrder(t: Table, lead: Option<string>, keys: seq<SortKey>, skipMissing: bool) returns (r: Option<seq<nat>>)
    requires t.Valid()
    ensures var cols := Resolve(t.names, AllKeys(lead, keys), skipMissing);
            && (r.Some? <==> |t.rows| <= 1 || cols.Some?)
            && (r.Some? ==> InRange(r.value, |t.rows|) && multiset(r.value) == multiset(Upto(|t.rows|)))
            && (r.Some? && cols.Some? ==> IsSortOrder(r.value, cols.value, t))
  {
    if |t.rows| <= 1 {
      return Some(Upto(|t.rows|));
    }
    var cols := SortColumns(t.names, lead, keys, skipMissing);
    if cols.None? {
      return None;
    }
    if cols.value == [] {
      return Some(Upto(|t.rows|));
    }
    var order := LexsortToIndices(t, cols.value);
    return Some(order);
  }

  /** Sorts a batch: a permutation of its rows in the order of the resolved columns. */
  method SortWithExtraLeadColumn(t: Table, lead: Option<string>, keys: seq<SortKey>, skipMissing: bool) returns (r: Option<Table>)
    requires t.Valid()
    ensures var cols := Resolve(t.names, AllKeys(lead, keys), skipMissing);
            && (r.Some? <==> |t.rows| <= 1 || cols.Some?)
            && (r.Some? ==> r.value.Valid() && r.value.names == t.names && r.value.utf8 == t.utf8
                            && multiset(r.value.rows) == multiset(t.rows))
            && (r.Some? && cols.Some? ==> SortedRows(cols.value, r.value.rows, |t.names|)
                                          && OrderedBy(cols.value, r.value.rows, |t.names|))
  {
    hide OrderedBy, SortedRows;
    var order := SortOrder(t, lead, keys, skipMissing);
    if order.None? {
      return None;
    }
    PickedRows(t.rows, order.value);
    if order.Some? && Resolve(t.names, AllKeys(lead, keys), skipMissing).Some? {
      SortedIsOrdered(Resolve(t.names, AllKeys(lead, keys), skipMissing).value, Pick(t.rows, order.value), |t.names|);
    }
    return Some(Table(t.names, t.utf8, Pick(t.rows, order.value)));
  }

  // ---------------------------------------------------------------- parse_shorthand

  function Upper(c: char): char {
    if 'a' <= c <= 'z' then (c as int - 32) as char else c
  }

  /** Upper-casing identifies the two cases of the ASCII letters and nothing else. */
  lemma UpperIdentifiesCases(c: char, d: char)
    ensures Upper(c) == Upper(d) <==>
              || c == d
              || ('a' <= c <= 'z' && d as int == c as int - 32)
              || ('a' <= d <= 'z' && c as int == d as int - 32)
    ensures !('a' <= Upper(c) <= 'z')
  {
  }

  function ToUpper(s: string): string {
    seq(|s|, i requires 0 <= i < |s| => Upper(s[i]))
  }

  datatype Clause = Asc | Desc | NullsFirst | NullsLast

  function Words(c: Clause): (words: seq<string>)
    ensures 1 <= |words| <= 2
  {
    match c
    case Asc => ["ASC"]
    case Desc => ["DESC"]
    case NullsFirst => ["NULLS", "FIRST"]
    case NullsLast => ["NULLS", "LAST"]
  }

  function AllWords(clauses: seq<Clause>): seq<string> {
    if clauses == [] then [] else Words(clauses[0]) + AllWords(clauses[1..])
  }

  /** Later clauses override earlier ones. */
  function Applied(o: Options, clauses: seq<Clause>): Options
    decreases |clauses|
  {
    if clauses == [] then o else
    Applied(match clauses[0]
            case Asc => o.(descending := false)
            case Desc => o.(descending := true)
            case NullsFirst => o.(nullsFirst := true)
            case NullsLast => o.(nullsFirst := false), clauses[1..])
  }

  /** Of the two words, `word` is the one that occurs last. */
  ghost predicate SaysLast(words: seq<string>, word: string, other: string) {
    exists i :: 0 <= i < |words| && words[i] == word && forall j | i < j < |words| :: words[j] != word && words[j] != other
  }

  lemma SaysLastSnoc(words: seq<string>, last: string, word: string, other: string)
    requires word != other
    ensures SaysLast(words + [last], word, other) <==> last == word || (last != other && SaysLast(words, word, other))
  {
    var all := words + [last];
    assert all[|words|] == last && forall i | 0 <= i < |words| :: all[i] == words[i];
    if SaysLast(all, word, other) && last != word {
      var i :| 0 <= i < |all| && all[i] == word && forall j | i < j < |all| :: all[j] != word && all[j] != other;
      assert words[i] == word;
    }
  }

  lemma {:induction false} AllWordsSnoc(clauses: seq<Clause>, c: Clause)
    ensures AllWords(clauses + [c]) == AllWords(clauses) + Words(c)
  {
    if clauses == [] {
      assert clauses + [c] == [c] && [c][1..] == clauses;
    } else {
      assert (clauses + [c])[1..] == clauses[1..] + [c];
      AllWordsSnoc(clauses[1..], c);
    }
  }

  lemma AppliedCons(o: Options, c: Clause, rest: seq<Clause>)
    ensures Applied(o, [c] + rest) == Applied(Applied(o, [c]), rest)
  {
    var none: seq<Clause> := [];
    assert ([c] + rest)[1..] == rest && [c][1..] == none;
  }

  lemma {:induction false} AppliedSnoc(o: Options, clauses: seq<Clause>, c: Clause)
    ensures Applied(o, clauses + [c]) == Applied(Applied(o, clauses), [c])
    decreases |clauses|
  {
    if clauses == [] {
      assert clauses + [c] == [c];
    } else {
      var d, rest := clauses[0], clauses[1..];
      assert clauses == [d] + rest && clauses + [c] == [d] + (rest + [c]);
      AppliedSnoc(Applied(o, [d]), rest, c);
      AppliedCons(o, d, rest + [c]);
      AppliedCons(o, d, rest);
      hide Applied;
    }
  }

  /** The last direction word and the last null placement decide; without any, ascending and nulls last. */
  lemma {:induction false} AppliedMeans(clauses: seq<Clause>)
    ensures var o := Applied(Options(false, false), clauses);
            && (o.descending <==> SaysLast(AllWords(clauses), "DESC", "ASC"))
            && (o.nullsFirst <==> SaysLast(AllWords(clauses), "FIRST", "LAST"))
    decreases |clauses|
  {
    hide SaysLast;
    if clauses == [] {
      NothingSaid();
    } else {
      var n := |clauses| - 1;
      var c := clauses[n];
      assert clauses == clauses[..n] + [c];
      AppliedMeans(clauses[..n]);
      AppliedSnoc(Options(false, false), clauses[..n], c);
      AllWordsSnoc(clauses[..n], c);
      var words, spelled := AllWords(clauses[..n]), Words(c);
      SaysLastSnoc(words, spelled[0], "DESC", "ASC");
      SaysLastSnoc(words, spelled[0], "FIRST", "LAST");
      if |spelled| == 2 {
        assert words + spelled == words + [spelled[0]] + [spelled[1]];
        SaysLastSnoc(words + [spelled[0]], spelled[1], "DESC", "ASC");
        SaysLastSnoc(words + [spelled[0]], spelled[1], "FIRST", "LAST");
      } else {
        assert spelled == [spelled[0]];
      }
    }
  }

  lemma NothingSaid()
    ensures !SaysLast([], "DESC", "ASC") && !SaysLast([], "FIRST", "LAST")
  {
  }

  /** The clauses that a list of upper-case words spells, if any. */
  function Clauses(words: seq<string>): (r: Option<seq<Clause>>)
    ensures r.Some? ==> AllWords(r.value) == words
    decreases |words|
  {
    if words == [] then Some([])
    else if words[0] == "ASC" then Prefixed(Asc, Clauses(words[1..]))
    else if words[0] == "DESC" then Prefixed(Desc, Clauses(words[1..]))
    else if words[0] == "NULLS" && |words| > 1 && words[1] == "FIRST" then Prefixed(NullsFirst, Clauses(words[2..]))
    else if words[0] == "NULLS" && |words| > 1 && words[1] == "LAST" then Prefixed(NullsLast, Clauses(words[2..]))
    else None
  }

  function Prefixed(c: Clause, rest: Option<seq<Clause>>): Option<seq<Clause>> {
    match rest case None => None case Some(cs) => Some([c] + cs)
  }

  /** Every list of clauses is found again in its words, and in no other way. */
  lemma {:induction false} ClausesOfWords(clauses: seq<Clause>)
    ensures Clauses(AllWords(clauses)) == Some(clauses)
  {
    if clauses != [] {
      ClausesOfWords(clauses[1..]);
      var words, rest := AllWords(clauses), AllWords(clauses[1..]);
      assert words[0] == Words(clauses[0])[0];
      match clauses[0] {
        case Asc => assert words[1..] == rest;
        case Desc => assert words[1..] == rest;
        case NullsFirst => assert words[1] == "FIRST" && words[2..] == rest;
        case NullsLast => assert words[1] == "LAST" && words[2..] == rest;
      }
      assert clauses == [clauses[0]] + clauses[1..];
    }
  }

  /** The words after the column name, in upper case. */
  function UpperTail(tokens: seq<string>): (words: seq<string>)
    requires tokens != []
    ensures |words| == |tokens| - 1
    ensures forall i | 0 <= i < |words| :: words[i] == ToUpper(tokens[i + 1])
  {
    seq(|tokens| - 1, i requires 0 <= i < |tokens| - 1 => ToUpper(tokens[i + 1]))
  }

  /** The clause spelled at `idx`, one or two words long. */
  method ReadClause(tokens: seq<string>, idx: nat) returns (c: Option<Clause>)
    requires 1 <= idx < |tokens|
    ensures var rest := UpperTail(tokens)[idx - 1..];
            if c.Some? then |Words(c.value)| <= |rest| && rest[..|Words(c.value)|] == Words(c.value) else Clauses(rest).None?
  {
    ghost var rest := UpperTail(tokens)[idx - 1..];
    var word := ToUpper(tokens[idx]);
    assert rest[0] == word;
    if word == "ASC" {
      return Some(Asc);
    } else if word == "DESC" {
      return Some(Desc);
    } else if word == "NULLS" {
      if idx + 1 >= |tokens| {
        return None;
      }
      var place := ToUpper(tokens[idx + 1]);
      assert rest[1] == place;
      if place == "FIRST" {
        return Some(NullsFirst);
      } else if place == "LAST" {
        return Some(NullsLast);
      }
    }
    return None;
  }

  /** Reads a shorthand that was split at white space: accepted exactly when the words after the
      column spell clauses, of which the last of each kind wins. */
  method ParseShorthand(tokens: seq<string>) returns (r: Option<SortKey>)
    ensures r.Some? <==> tokens != [] && Clauses(UpperTail(tokens)).Some?
    ensures r.Some? ==>
              && r.value.column == tokens[0]
              && (r.value.options.descending <==> SaysLast(UpperTail(tokens), "DESC", "ASC"))
              && (r.value.options.nullsFirst <==> SaysLast(UpperTail(tokens), "FIRST", "LAST"))
  {
    hide Clauses, Applied, Words;
    if tokens == [] {
      return None;
    }
    ghost var words := UpperTail(tokens);
    var options := Options(false, false);
    var idx := 1;
    assert words[0..] == words;
    NoClauses();
    while idx < |tokens|
      invariant 1 <= idx <= |tokens|
      invariant Clauses(words).Some? <==> Clauses(words[idx - 1..]).Some?
      invariant Clauses(words).Some? ==>
                  Applied(Options(false, false), Clauses(words).value) == Applied(options, Clauses(words[idx - 1..]).value)
    {
      var c := ReadClause(tokens, idx);
      if c.None? {
        return None;
      }
      ClausesStep(words[idx - 1..], c.value, options);
      options := Applied(options, [c.value]);
      var width := |Words(c.value)|;
      assert words[idx - 1..][width..] == words[idx + width - 1..];
      idx := idx + width;
    }
    assert words[idx - 1..] == [];
    AppliedMeans(Clauses(words).value);
    return Some(SortKey(tokens[0], options));
  }

  lemma NoClauses()
    ensures Clauses([]) == Some([]) && forall o :: Applied(o, []) == o
  {
  }

  lemma ClausesStep(rest: seq<string>, c: Clause, o: Options)
    requires |Words(c)| <= |rest| && rest[..|Words(c)|] == Words(c)
    ensures Clauses(rest).Some? <==> Clauses(rest[|Words(c)|..]).Some?
    ensures Clauses(rest).Some? ==> Applied(o, Clauses(rest).value) == Applied(Applied(o, [c]), Clauses(rest[|Words(c)|..]).value)
  {
    assert rest[0] == Words(c)[0];
    if |Words(c)| == 2 {
      assert rest[1] == Words(c)[1];
    }
    assert Clauses(rest) == Prefixed(c, Clauses(rest[|Words(c)|..]));
    var none: seq<Clause> := [];
    assert [c][1..] == none;
    if Clauses(rest).Some? {
      var cs := Clauses(rest[|Words(c)|..]).value;
      assert ([c] + cs)[1..] == cs;
    }
  }
}
