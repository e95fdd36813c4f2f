/** Splitting an NDJSON bulk payload into documents and re-assembling the documents at chosen
    indices (`extract_sub_payload` in the Elasticsearch client). A document is an action line
    followed by a source line; blank lines are skipped in front of an action line and carried
    along between an action line and its source line. */
module Ndjson {
  import opened Wrappers
  import opened Text

  datatype ExtractError = OddLineCount | IndexOutOfBounds

  predicate IsBlankByte(c: char) {
    c == '\r' || c == '\n' || c == ' ' || c == '\t'
  }

  predicate IsBlank(line: string) {
    forall i | 0 <= i < |line| :: IsBlankByte(line[i])
  }

  predicate EndsWithNewline(s: string) {
    |s| > 0 && s[|s| - 1] == '\n'
  }

  /** A complete line: one newline, at its end. */
  predicate IsLine(line: string) {
    EndsWithNewline(line) && '\n' !in line[..|line| - 1]
  }

  function FirstLineLength(p: string): (n: nat)
    ensures n <= |p|
    ensures p != "" ==> 0 < n
  {
    if p == "" then 0 else if p[0] == '\n' then 1 else 1 + FirstLineLength(p[1..])
  }

  function Lines(p: string): (lines: seq<string>)
    decreases |p|
  {
    if p == "" then [] else
    var n := FirstLineLength(p);
    [p[..n]] + Lines(p[n..])
  }

  /** The documents completed so far and the text of a document that still lacks its source line. */
  datatype Pairing = Pairing(docs: seq<string>, open: Option<string>)

  function Pair(lines: seq<string>, open: Option<string>): Pairing
    decreases |lines|
  {
    if lines == [] then Pairing([], open) else
    var line, rest := lines[0], lines[1..];
    if IsBlank(line) then
      Pair(rest, match open case None => None case Some(o) => Some(o + line))
    else
      match open
      case None => Pair(rest, Some(line))
      case Some(o) => var p := Pair(rest, None); Pairing([o + line] + p.docs, p.open)
  }

  function Documents(p: string): seq<string> {
    Pair(Lines(p), None).docs
  }

  /** The payload has an even number of non-blank lines. */
  predicate EvenLines(p: string) {
    Pair(Lines(p), None).open.None?
  }

  function Terminated(s: string): string {
    if EndsWithNewline(s) then s else s + "\n"
  }

  function TerminatedAll(docs: seq<string>): (r: seq<string>)
    ensures |r| == |docs|
    ensures forall k | 0 <= k < |r| :: r[k] == Terminated(docs[k])
  {
    seq(|docs|, k requires 0 <= k < |docs| => Terminated(docs[k]))
  }

  /** What `extract_sub_payload` computes, phrased over documents rather than byte ranges. */
  function Extract(payload: string, indices: seq<nat>): Result<string, ExtractError> {
    if indices == [] then Ok("")
    else if !EvenLines(payload) then Err(OddLineCount)
    else if !InRange(indices, |Documents(payload)|) then Err(IndexOutOfBounds)
    else Ok(Flatten(TerminatedAll(Pick(Documents(payload), indices))))
  }

  /** A document on its own: exactly two non-blank lines, starting with the first and ending,
      newline included, with the second. */
  ghost predicate IsDocument(d: string) {
    EndsWithNewline(d) && Pair(Lines(d), None) == Pairing([d], None)
  }

  ghost predicate AllDocuments(docs: seq<string>) {
    forall k | 0 <= k < |docs| :: IsDocument(docs[k])
  }

  // ---------------------------------------------------------------- lines

  lemma {:induction false} FirstLineOf(line: string, rest: string)
    requires IsLine(line)
    ensures FirstLineLength(line + rest) == |line|
  {
    if |line| > 1 {
      assert line[0] in line[..|line| - 1];
      assert (line + rest)[1..] == line[1..] + rest;
      assert line[..|line| - 1] == [line[0]] + line[1..][..|line| - 2];
      FirstLineOf(line[1..], rest);
    }
  }

  lemma {:induction false} FirstLineIsLine(p: string)
    requires p != ""
    ensures var n := FirstLineLength(p); IsLine(p[..n]) || (n == |p| && '\n' !in p)
    ensures '\n' !in p ==> FirstLineLength(p) == |p|
  {
    if p[0] != '\n' && |p| > 1 {
      FirstLineIsLine(p[1..]);
      var n := FirstLineLength(p);
      assert p[..n] == [p[0]] + p[1..][..n - 1];
      assert p == [p[0]] + p[1..];
    }
  }

  lemma LinesCons(line: string, rest: string)
    requires IsLine(line)
    ensures Lines(line + rest) == [line] + Lines(rest)
  {
    FirstLineOf(line, rest);
    assert (line + rest)[..|line|] == line;
    assert (line + rest)[|line|..] == rest;
  }

  lemma LinesOfOne(line: string)
    requires IsLine(line)
    ensures Lines(line) == [line]
  {
    LinesCons(line, "");
    assert line + "" == line;
  }

  lemma SplitFirstLine(a: string)
    requires EndsWithNewline(a)
    ensures var n := FirstLineLength(a);
            0 < n <= |a| && IsLine(a[..n]) && a == a[..n] + a[n..] && (a[n..] == "" || EndsWithNewline(a[n..]))
  {
    hide FirstLineLength, IsLine;
    FirstLineIsLine(a);
    assert a[|a| - 1] in a;
  }

  lemma LinesConsAppend(line: string, rest: string, b: string)
    requires IsLine(line)
    requires Lines(rest + b) == Lines(rest) + Lines(b)
    ensures Lines((line + rest) + b) == Lines(line + rest) + Lines(b)
  {
    hide Lines, IsLine;
    ghost var all := Lines(rest) + Lines(b);
    assert Lines((line + rest) + b) == [line] + all by {
      assert (line + rest) + b == line + (rest + b);
      LinesCons(line, rest + b);
    }
    assert Lines(line + rest) == [line] + Lines(rest) by {
      LinesCons(line, rest);
    }
  }

  lemma {:induction false} LinesAppend(a: string, b: string)
    requires a == "" || EndsWithNewline(a)
    ensures Lines(a + b) == Lines(a) + Lines(b)
    decreases |a|
  {
    if a == "" {
      assert a + b == b;
    } else {
      SplitFirstLine(a);
      var line, rest := a[..FirstLineLength(a)], a[FirstLineLength(a)..];
      LinesAppend(rest, b);
      LinesConsAppend(line, rest, b);
    }
  }

  /** A line without a newline can only be the last one. */
  ghost predicate WellFormedLines(lines: seq<string>) {
    forall i | 0 <= i < |lines| ::
      IsLine(lines[i]) || (i == |lines| - 1 && lines[i] != "" && '\n' !in lines[i])
  }

  lemma {:induction false} LinesWellFormed(p: string)
    ensures WellFormedLines(Lines(p))
    ensures Flatten(Lines(p)) == p
    decreases |p|
  {
    hide FirstLineLength, IsLine;
    if p != "" {
      FirstLineIsLine(p);
      var n := FirstLineLength(p);
      LinesWellFormed(p[n..]);
      assert p[..n] + p[n..] == p;
      if n == |p| {
        assert Lines(p[n..]) == [];
        assert p[..n] == p;
      }
    }
  }

  // ---------------------------------------------------------------- pairing

  lemma {:induction false} PairAppend(a: seq<string>, b: seq<string>, open: Option<string>)
    ensures var x := Pair(a, open); var y := Pair(b, x.open);
            Pair(a + b, open) == Pairing(x.docs + y.docs, y.open)
    decreases |a|
  {
    if a == [] {
      assert a + b == b;
    } else {
      assert (a + b)[1..] == a[1..] + b;
      var line := a[0];
      if IsBlank(line) {
        PairAppend(a[1..], b, match open case None => None case Some(o) => Some(o + line));
      } else {
        match open
        case None => PairAppend(a[1..], b, Some(line));
        case Some(o) =>
          PairAppend(a[1..], b, None);
          var x := Pair(a[1..], None);
          assert ([o + line] + x.docs) + Pair(b, x.open).docs == [o + line] + (x.docs + Pair(b, x.open).docs);
      }
    }
  }

  /** A line of nothing but spaces, tabs and carriage returns. */
  ghost predicate IsEmptyLine(line: string) {
    EndsWithNewline(line) && forall i | 0 <= i < |line| - 1 :: line[i] in {' ', '\t', '\r'}
  }

  /** A line with some other character in it. */
  ghost predicate IsFullLine(line: string) {
    IsLine(line) && exists i :: 0 <= i < |line| && line[i] !in {' ', '\t', '\r', '\n'}
  }

  lemma EmptyLineIsBlank(line: string)
    requires IsEmptyLine(line)
    ensures IsLine(line) && IsBlank(line)
  {
    forall i | 0 <= i < |line| ensures IsBlankByte(line[i]) {
      assert i < |line| - 1 ==> line[i] in {' ', '\t', '\r'};
    }
  }

  lemma FullLineIsNotBlank(line: string)
    requires IsFullLine(line)
    ensures IsLine(line) && !IsBlank(line)
  {
    var i :| 0 <= i < |line| && line[i] !in {' ', '\t', '\r', '\n'};
    assert !IsBlankByte(line[i]);
  }

  /** An empty line between documents makes no difference. */
  lemma EmptyLineIsSkipped(a: string, line: string, b: string)
    requires (a == "" || EndsWithNewline(a)) && EvenLines(a) && IsEmptyLine(line)
    ensures Documents(a + (line + b)) == Documents(a + b)
  {
    hide Lines, IsLine, IsBlank;
    EmptyLineIsBlank(line);
    LinesAppend(a, line + b);
    LinesAppend(a, b);
    LinesCons(line, b);
    PairAppend(Lines(a), Lines(b), None);
    PairAppend(Lines(a), [line] + Lines(b), None);
    assert ([line] + Lines(b))[1..] == Lines(b);
  }

  lemma PairOfTwo(action: string, source: string)
    requires !IsBlank(action) && !IsBlank(source)
    ensures Pair([action, source], None) == Pairing([action + source], None)
  {
    hide IsBlank;
    var none: seq<string> := [];
    assert [action, source][1..] == [source] && [source][1..] == none;
    assert Pair([source], Some(action)) == Pairing([action + source], None);
  }

  lemma PairWithGap(action: string, gap: string, source: string)
    requires !IsBlank(action) && IsBlank(gap) && !IsBlank(source)
    ensures Pair([action, gap, source], None) == Pairing([action + gap + source], None)
  {
    hide IsBlank;
    var none: seq<string> := [];
    assert [action, gap, source][1..] == [gap, source] && [gap, source][1..] == [source] && [source][1..] == none;
    assert Pair([source], Some(action + gap)) == Pairing([action + gap + source], None);
  }

  /** Two full lines are a document, and so they are with an empty line between them. */
  lemma FullLinesAreADocument(action: string, gap: string, source: string)
    requires IsFullLine(action) && IsFullLine(source) && (gap == "" || IsEmptyLine(gap))
    ensures IsDocument(action + gap + source)
  {
    hide Lines, IsBlank, Pair;
    var all := action + gap + source;
    FullLineIsNotBlank(action);
    FullLineIsNotBlank(source);
    LinesOfOne(source);
    LinesCons(action, gap + source);
    assert all == action + (gap + source);
    assert all[|all| - 1] == source[|source| - 1];
    if gap == "" {
      assert gap + source == source && [action] + [source] == [action, source];
      assert all == action + source;
      PairOfTwo(action, source);
    } else {
      EmptyLineIsBlank(gap);
      LinesCons(gap, source);
      assert [action] + ([gap] + [source]) == [action, gap, source];
      PairWithGap(action, gap, source);
    }
  }

  /** Concatenated documents are found again, one by one. */
  lemma {:induction false} DocumentsOfFlatten(docs: seq<string>)
    requires AllDocuments(docs)
    ensures Documents(Flatten(docs)) == docs
    ensures EvenLines(Flatten(docs))
  {
    if docs != [] {
      var d, rest := docs[0], docs[1..];
      DocumentsOfFlatten(rest);
      LinesAppend(d, Flatten(rest));
      PairAppend(Lines(d), Lines(Flatten(rest)), None);
    }
  }

  /** The text of a document that still lacks its source line. */
  ghost predicate IsOpen(o: string) {
    EndsWithNewline(o) && Pair(Lines(o), None) == Pairing([], Some(o))
  }

  lemma ExtendOpen(o: string, line: string)
    requires IsOpen(o) && IsLine(line)
    ensures IsBlank(line) ==> IsOpen(o + line)
    ensures !IsBlank(line) ==> IsDocument(o + line)
  {
    LinesAppend(o, line);
    LinesOfOne(line);
    PairAppend(Lines(o), [line], None);
    assert [line][1..] == [];
  }

  lemma TerminatedLine(line: string)
    requires IsLine(line) || (line != "" && '\n' !in line)
    ensures IsLine(Terminated(line))
    ensures IsBlank(Terminated(line)) == IsBlank(line)
  {
    if !IsLine(line) {
      assert Terminated(line)[..|line|] == line;
      assert IsBlankByte('\n');
      if IsBlank(Terminated(line)) {
        forall i | 0 <= i < |line| ensures IsBlankByte(line[i]) {
          assert Terminated(line)[i] == line[i];
        }
      }
    }
  }

  lemma {:induction false} PairedAreDocuments(lines: seq<string>, open: Option<string>)
    requires WellFormedLines(lines)
    requires open.Some? && lines != [] ==> IsOpen(open.value)
    ensures forall d <- Pair(lines, open).docs :: d != "" && IsDocument(Terminated(d))
    decreases |lines|
  {
    if lines != [] {
      var line, rest := lines[0], lines[1..];
      TerminatedLine(line);
      assert rest != [] ==> IsLine(line);
      if IsBlank(line) {
        if open.Some? && rest != [] {
          ExtendOpen(open.value, line);
        }
        PairedAreDocuments(rest, match open case None => None case Some(o) => Some(o + line));
      } else if open.None? {
        if rest != [] {
          LinesOfOne(line);
          assert [line][1..] == [];
        }
        PairedAreDocuments(rest, Some(line));
      } else {
        ExtendOpen(open.value, Terminated(line));
        assert Terminated(open.value + line) == open.value + Terminated(line);
        PairedAreDocuments(rest, None);
      }
    }
  }

  /** Every document found in a payload is, once terminated, a document on its own. */
  lemma DocumentsAreDocuments(p: string)
    ensures forall d <- Documents(p) :: IsDocument(Terminated(d))
  {
    LinesWellFormed(p);
    PairedAreDocuments(Lines(p), None);
  }

  // ---------------------------------------------------------------- extraction

  /** The documents of an extracted payload are the requested documents, in the requested order. */
  lemma ExtractedDocuments(p: string, indices: seq<nat>)
    requires EvenLines(p) && InRange(indices, |Documents(p)|)
    ensures Extract(p, indices).Ok?
    ensures EvenLines(Extract(p, indices).value)
    ensures Documents(Extract(p, indices).value) == TerminatedAll(Pick(Documents(p), indices))
  {
    DocumentsAreDocuments(p);
    var docs := TerminatedAll(Pick(Documents(p), indices));
    forall k | 0 <= k < |docs| ensures IsDocument(docs[k]) {
      assert Documents(p)[indices[k]] in Documents(p);
    }
    DocumentsOfFlatten(docs);
    if indices == [] {
      assert docs == [];
    }
  }

  /** Extracting `j` from an extraction of `i` is extracting the composed indices from the original. */
  lemma ExtractComposes(p: string, i: seq<nat>, j: seq<nat>)
    requires EvenLines(p)
    requires InRange(i, |Documents(p)|) && InRange(j, |i|)
    ensures Extract(p, i).Ok?
    ensures Extract(Extract(p, i).value, j) == Extract(p, Pick(i, j))
    ensures Extract(p, Pick(i, j)).Ok?
  {
    ExtractedDocuments(p, i);
    assert InRange(Pick(i, j), |Documents(p)|);
    if j != [] {
      assert Pick(i, j)[0] == i[j[0]];
      assert TerminatedAll(Pick(TerminatedAll(Pick(Documents(p), i)), j))
          == TerminatedAll(Pick(Documents(p), Pick(i, j)));
    }
  }

  /** Extraction fails exactly when something is asked of an odd payload, or an index is out of range. */
  lemma ExtractFailsIff(p: string, indices: seq<nat>)
    ensures Extract(p, indices).Err? <==>
            (indices != [] && !EvenLines(p)) || (exists k | 0 <= k < |indices| :: indices[k] >= |Documents(p)|)
  {
  }

  /** On a payload made of whole documents, extraction returns their exact bytes. */
  lemma ExtractFromDocuments(rows: seq<string>, indices: seq<nat>)
    requires AllDocuments(rows)
    requires InRange(indices, |rows|)
    ensures Extract(Flatten(rows), indices) == Ok(Flatten(Pick(rows, indices)))
  {
    DocumentsOfFlatten(rows);
    assert TerminatedAll(Pick(rows, indices)) == Pick(rows, indices) by {
      forall k | 0 <= k < |indices| ensures Terminated(rows[indices[k]]) == rows[indices[k]] {
        assert IsDocument(rows[indices[k]]);
      }
    }
    if indices == [] {
      assert Pick(rows, indices) == [];
    }
  }

  // ---------------------------------------------------------------- the byte-range implementation

  datatype ByteRange = ByteRange(start: nat, end: nat)

  datatype Copy = Copy(range: ByteRange, addNewline: bool)

  /** Byte ranges of the non-blank lines, for lines starting at `offset`. */
  function LineRanges(lines: seq<string>, offset: nat): seq<ByteRange> {
    if lines == [] then [] else
    var rest := LineRanges(lines[1..], offset + |lines[0]|);
    if IsBlank(lines[0]) then rest else [ByteRange(offset, offset + |lines[0]|)] + rest
  }

  /** Ranges `2k` and `2k + 1` delimit document `k`. */
  ghost predicate RangesDelimit(t: string, ranges: seq<ByteRange>, docs: seq<string>) {
    && |docs| == |ranges| / 2
    && forall k | 0 <= k < |docs| ::
         ranges[2 * k].start <= ranges[2 * k + 1].end <= |t| && docs[k] == t[ranges[2 * k].start..ranges[2 * k + 1].end]
  }

  lemma RangesDelimitCons(t: string, r0: ByteRange, r1: ByteRange, ranges: seq<ByteRange>, doc: string, docs: seq<string>)
    requires RangesDelimit(t, ranges, docs)
    requires r0.start <= r1.end <= |t| && doc == t[r0.start..r1.end]
    ensures RangesDelimit(t, [r0, r1] + ranges, [doc] + docs)
  {
    var all, alld := [r0, r1] + ranges, [doc] + docs;
    forall k | 0 <= k < |alld|
      ensures all[2 * k].start <= all[2 * k + 1].end <= |t| && alld[k] == t[all[2 * k].start..all[2 * k + 1].end]
    {
      if k > 0 {
        assert all[2 * k] == ranges[2 * (k - 1)] && all[2 * k + 1] == ranges[2 * (k - 1) + 1];
      }
    }
  }

  lemma RestOfLines(t: string, lines: seq<string>, offset: nat)
    requires lines != [] && offset <= |t| && Flatten(lines) == t[offset..]
    ensures offset + |lines[0]| <= |t| && t[offset..offset + |lines[0]|] == lines[0]
    ensures Flatten(lines[1..]) == t[offset + |lines[0]|..]
  {
    var line := lines[0];
    assert t[offset..] == line + Flatten(lines[1..]);
    assert t[offset..][..|line|] == line;
    assert t[offset..][|line|..] == Flatten(lines[1..]);
  }

  /** The range of a document that still lacks its source line. */
  ghost function OpenRange(open: Option<ByteRange>): seq<ByteRange> {
    if open.Some? then [open.value] else []
  }

  ghost function OpenText(t: string, offset: nat, open: Option<ByteRange>): Option<string>
    requires offset <= |t| && (open.Some? ==> open.value.start <= offset)
  {
    if open.Some? then Some(t[open.value.start..offset]) else None
  }

  /** The ranges found from `offset` on delimit the documents paired from there on. */
  ghost predicate Agrees(t: string, lines: seq<string>, offset: nat, open: Option<ByteRange>)
    requires offset <= |t| && (open.Some? ==> open.value.start <= offset)
  {
    var ranges, p := OpenRange(open) + LineRanges(lines, offset), Pair(lines, OpenText(t, offset, open));
    (|ranges| % 2 == 0 <==> p.open.None?) && RangesDelimit(t, ranges, p.docs)
  }

  lemma AgreesAtEnd(t: string, offset: nat, open: Option<ByteRange>)
    requires offset <= |t| && (open.Some? ==> open.value.start <= offset)
    ensures Agrees(t, [], offset, open)
  {
    assert OpenRange(open) + LineRanges([], offset) == OpenRange(open);
  }

  lemma AgreesPastBlank(t: string, lines: seq<string>, offset: nat, open: Option<ByteRange>)
    requires offset <= |t| && (open.Some? ==> open.value.start <= offset)
    requires lines != [] && IsBlank(lines[0]) && offset + |lines[0]| <= |t| && t[offset..offset + |lines[0]|] == lines[0]
    requires Agrees(t, lines[1..], offset + |lines[0]|, open)
    ensures Agrees(t, lines, offset, open)
  {
    hide IsBlank, RangesDelimit;
    if open.Some? {
      assert t[open.value.start..offset] + lines[0] == t[open.value.start..offset + |lines[0]|];
    }
  }

  lemma AgreesOpening(t: string, lines: seq<string>, offset: nat)
    requires lines != [] && !IsBlank(lines[0]) && offset + |lines[0]| <= |t| && t[offset..offset + |lines[0]|] == lines[0]
    requires Agrees(t, lines[1..], offset + |lines[0]|, Some(ByteRange(offset, offset + |lines[0]|)))
    ensures Agrees(t, lines, offset, None)
  {
    hide IsBlank, RangesDelimit;
    var range, more := ByteRange(offset, offset + |lines[0]|), LineRanges(lines[1..], offset + |lines[0]|);
    assert [] + ([range] + more) == [range] + more;
  }

  lemma ClosingLine(lines: seq<string>, offset: nat, o: string)
    requires lines != [] && !IsBlank(lines[0])
    ensures LineRanges(lines, offset) == [ByteRange(offset, offset + |lines[0]|)] + LineRanges(lines[1..], offset + |lines[0]|)
    ensures var p := Pair(lines[1..], None); Pair(lines, Some(o)) == Pairing([o + lines[0]] + p.docs, p.open)
  {
    hide IsBlank;
  }

  lemma AgreesClosing(t: string, lines: seq<string>, offset: nat, open: ByteRange)
    requires lines != [] && !IsBlank(lines[0]) && offset + |lines[0]| <= |t| && t[offset..offset + |lines[0]|] == lines[0]
    requires open.start <= offset && Agrees(t, lines[1..], offset + |lines[0]|, None)
    ensures Agrees(t, lines, offset, Some(open))
  {
    hide IsBlank, RangesDelimit, Pair, LineRanges;
    var next := offset + |lines[0]|;
    var range, more := ByteRange(offset, next), LineRanges(lines[1..], next);
    assert [] + more == more;
    assert t[open.start..offset] + lines[0] == t[open.start..next];
    ClosingLine(lines, offset, t[open.start..offset]);
    RangesDelimitCons(t, open, range, more, t[open.start..next], Pair(lines[1..], None).docs);
    assert [open] + ([range] + more) == [open, range] + more;
  }

  lemma {:induction false} RangesDelimitDocuments(t: string, lines: seq<string>, offset: nat, open: Option<ByteRange>)
    requires offset <= |t| && Flatten(lines) == t[offset..]
    requires open.Some? ==> open.value.start <= offset
    ensures Agrees(t, lines, offset, open)
    decreases |lines|
  {
    hide Agrees, IsBlank;
    if lines == [] {
      AgreesAtEnd(t, offset, open);
    } else {
      RestOfLines(t, lines, offset);
      var rest, next := lines[1..], offset + |lines[0]|;
      if IsBlank(lines[0]) {
        RangesDelimitDocuments(t, rest, next, open);
        AgreesPastBlank(t, lines, offset, open);
      } else if open.None? {
        RangesDelimitDocuments(t, rest, next, Some(ByteRange(offset, next)));
        AgreesOpening(t, lines, offset);
      } else {
        RangesDelimitDocuments(t, rest, next, None);
        AgreesClosing(t, lines, offset, open.value);
      }
    }
  }

  lemma LinesOfTail(tail: string)
    requires tail != "" && '\n' !in tail
    ensures Lines(tail) == [tail]
  {
    FirstLineIsLine(tail);
    assert tail[..|tail|] == tail && tail[|tail|..] == "";
  }

  /** The ranges still to be found when the scan stands at a line start. */
  ghost function RangesFrom(payload: string, lineStart: nat): seq<ByteRange>
    requires lineStart <= |payload|
  {
    LineRanges(Lines(payload[lineStart..]), lineStart)
  }

  lemma RangesFromNewline(payload: string, lineStart: nat, idx: nat)
    requires lineStart <= idx < |payload|
    requires '\n' !in payload[lineStart..idx] && payload[idx] == '\n'
    ensures RangesFrom(payload, lineStart)
         == (if IsBlank(payload[lineStart..idx + 1]) then [] else [ByteRange(lineStart, idx + 1)]) + RangesFrom(payload, idx + 1)
  {
    hide Lines, FirstLineLength;
    var line, rest := payload[lineStart..idx + 1], payload[idx + 1..];
    assert line[..|line| - 1] == payload[lineStart..idx];
    assert payload[lineStart..] == line + rest;
    LinesCons(line, rest);
    assert ([line] + Lines(rest))[1..] == Lines(rest);
  }

  lemma RangesFromTail(payload: string, lineStart: nat)
    requires lineStart < |payload| && '\n' !in payload[lineStart..]
    ensures RangesFrom(payload, lineStart)
         == if IsBlank(payload[lineStart..]) then [] else [ByteRange(lineStart, |payload|)]
  {
    var tail := payload[lineStart..];
    LinesOfTail(tail);
    assert [tail][1..] == [];
    assert LineRanges([tail], lineStart) == if IsBlank(tail) then [] else [ByteRange(lineStart, lineStart + |tail|)];
  }

  lemma RangesFromEnd(payload: string)
    ensures RangesFrom(payload, |payload|) == []
    ensures RangesFrom(payload, 0) == LineRanges(Lines(payload), 0)
  {
    assert payload[|payload|..] == "" && payload[0..] == payload;
  }

  /** The scan over bytes: the ranges of the non-blank lines of `payload`. */
  method ScanLineRanges(payload: string) returns (lineRanges: seq<ByteRange>)
    ensures lineRanges == LineRanges(Lines(payload), 0)
  {
    hide Lines, LineRanges, IsBlank;
    lineRanges := [];
    var lineStart: nat := 0;
    RangesFromEnd(payload);
    for idx := 0 to |payload|
      invariant lineStart <= idx
      invariant '\n' !in payload[lineStart..idx]
      invariant lineRanges + RangesFrom(payload, lineStart) == RangesFrom(payload, 0)
    {
      if payload[idx] == '\n' {
        RangesFromNewline(payload, lineStart, idx);
        ghost var rest := RangesFrom(payload, idx + 1);
        if !IsBlank(payload[lineStart..idx + 1]) {
          assert (lineRanges + [ByteRange(lineStart, idx + 1)]) + rest == lineRanges + ([ByteRange(lineStart, idx + 1)] + rest);
          lineRanges := lineRanges + [ByteRange(lineStart, idx + 1)];
        }
        lineStart := idx + 1;
      }
    }
    if lineStart < |payload| {
      assert payload[lineStart..|payload|] == payload[lineStart..];
      RangesFromTail(payload, lineStart);
      if !IsBlank(payload[lineStart..]) {
        lineRanges := lineRanges + [ByteRange(lineStart, |payload|)];
      }
    }
  }

  /** Range `k` of `selected` holds the `k`-th requested document and whether it lacks its newline. */
  ghost predicate Selects(payload: string, selected: seq<Copy>, chosen: seq<string>) {
    && |selected| == |chosen|
    && forall k | 0 <= k < |selected| ::
         && selected[k].range.start <= selected[k].range.end <= |payload|
         && payload[selected[k].range.start..selected[k].range.end] == chosen[k]
         && selected[k].addNewline == !EndsWithNewline(chosen[k])
  }

  method SelectRanges(payload: string, lineRanges: seq<ByteRange>, itemIndices: seq<nat>, ghost docs: seq<string>)
    returns (selected: Option<seq<Copy>>)
    requires RangesDelimit(payload, lineRanges, docs)
    ensures selected.Some? <==> InRange(itemIndices, |docs|)
    ensures selected.Some? ==> Selects(payload, selected.value, Pick(docs, itemIndices))
  {
    var ranges: seq<Copy> := [];
    for n := 0 to |itemIndices|
      invariant |ranges| == n
      invariant InRange(itemIndices[..n], |docs|)
      invariant Selects(payload, ranges, Pick(docs, itemIndices[..n]))
    {
      var idx := itemIndices[n];
      if idx >= |lineRanges| / 2 {
        return None;
      }
      var actionStart := lineRanges[2 * idx].start;
      var docEnd := lineRanges[2 * idx + 1].end;
      assert docs[idx] == payload[actionStart..docEnd];
      ranges := ranges + [Copy(ByteRange(actionStart, docEnd), !EndsWithNewline(payload[actionStart..docEnd]))];
    }
    assert itemIndices[..|itemIndices|] == itemIndices;
    return Some(ranges);
  }

  method CopyRanges(payload: string, selected: seq<Copy>, ghost chosen: seq<string>) returns (buf: string)
    requires Selects(payload, selected, chosen)
    ensures buf == Flatten(TerminatedAll(chosen))
  {
    ghost var lines := TerminatedAll(chosen);
    buf := "";
    for n := 0 to |selected|
      invariant buf == Flatten(lines[..n])
    {
      FlattenSnoc(lines[..n], lines[n]);
      assert lines[..n + 1] == lines[..n] + [lines[n]];
      ghost var before := buf;
      buf := buf + payload[selected[n].range.start..selected[n].range.end];
      if selected[n].addNewline {
        buf := buf + "\n";
        assert buf == before + (chosen[n] + "\n");
      }
    }
    assert lines[..|selected|] == lines;
  }

  method ExtractSubPayload(payload: string, itemIndices: seq<nat>) returns (r: Result<string, ExtractError>)
    ensures r == Extract(payload, itemIndices)
  {
    if itemIndices == [] {
      return Ok("");
    }
    var lineRanges := ScanLineRanges(payload);
    ghost var docs := Documents(payload);
    assert (|lineRanges| % 2 == 0 <==> EvenLines(payload)) && RangesDelimit(payload, lineRanges, docs) by {
      LinesWellFormed(payload);
      assert payload[0..] == payload;
      RangesDelimitDocuments(payload, Lines(payload), 0, None);
      assert [] + LineRanges(Lines(payload), 0) == LineRanges(Lines(payload), 0);
    }
    if |lineRanges| % 2 != 0 {
      return Err(OddLineCount);
    }
    var selected := SelectRanges(payload, lineRanges, itemIndices, docs);
    if selected.None? {
      return Err(IndexOutOfBounds);
    }
    var buf := CopyRanges(payload, selected.value, Pick(docs, itemIndices));
    return Ok(buf);
  }
}
