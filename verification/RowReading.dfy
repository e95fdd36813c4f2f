/** What a reader of the bulk payload gets out of a row's source line. */
module RowReading {
  import opened Wrappers
  import opened Json
  import opened JsonScanning
  import opened RowSerializer

  /** The value of a cell that is written. */
  ghost function CellValue(cell: Cell, unpack: bool): Json {
    match cell
    case Null => JNull
    case Timestamp(iso) => if iso.Some? then JString(iso.value) else JNull
    case Utf8(val) => StringValue(val, unpack)
    case Boolean(b) => JBool(b)
    case Number(digits) => if digits.Some? then JNumber(digits.value) else JNull
    case Other(display) => if display.Some? then JString(display.value) else JNull
  }

  /** The key a column is indexed under: the time of a record is known as `@timestamp`. */
  ghost function KeyOf(name: string): string {
    if name == "timestamp" then "@timestamp" else name
  }

  /** The columns whose texts may be embedded. */
  ghost predicate MayEmbed(name: string) {
    name == "attributes" || name == "resource_attributes"
  }

  /** The members a row stands for: one for each cell that is not null, in column order. */
  ghost function RowMembers(names: seq<string>, cells: seq<Cell>, unpack: bool): seq<Member>
    requires |names| == |cells|
  {
    if cells == [] then [] else
    var last := |cells| - 1;
    RowMembers(names[..last], cells[..last], unpack)
    + if cells[last].Null? then []
      else [MemberOf(names[last], cells[last], unpack)]
  }

  ghost function MemberOf(name: string, cell: Cell, unpack: bool): Member {
    Member(KeyOf(name), CellValue(cell, unpack && MayEmbed(name)))
  }

  /** The columns that are written. */
  ghost function NonNull(cells: seq<Cell>): (cols: seq<nat>)
    ensures forall c: nat :: c in cols <==> c < |cells| && !cells[c].Null?
    ensures forall i, j | 0 <= i < j < |cols| :: cols[i] < cols[j]
    ensures forall k | 0 <= k < |cols| :: cols[k] in cols
  {
    if cells == [] then [] else
    var last := |cells| - 1;
    NonNull(cells[..last]) + if cells[last].Null? then [] else [last]
  }

  /** The members are those of the columns `cols`, one for one. */
  ghost predicate AreMembersOf(ms: seq<Member>, cols: seq<nat>, names: seq<string>, cells: seq<Cell>, unpack: bool)
    requires |names| == |cells|
  {
    && |ms| == |cols|
    && forall k | 0 <= k < |cols| :: cols[k] < |cells| && ms[k] == MemberOf(names[cols[k]], cells[cols[k]], unpack)
  }

  lemma AreMembersSnoc(ms: seq<Member>, cols: seq<nat>, names: seq<string>, cells: seq<Cell>, unpack: bool)
    requires |names| == |cells| > 0 && AreMembersOf(ms, cols, names[..|cells| - 1], cells[..|cells| - 1], unpack)
    ensures var last := |cells| - 1;
            && AreMembersOf(ms, cols, names, cells, unpack)
            && AreMembersOf(ms + [MemberOf(names[last], cells[last], unpack)], cols + [last], names, cells, unpack)
  {
    hide MemberOf;
  }

  lemma {:induction false} RowMembersAre(names: seq<string>, cells: seq<Cell>, unpack: bool)
    requires |names| == |cells|
    ensures AreMembersOf(RowMembers(names, cells, unpack), NonNull(cells), names, cells, unpack)
  {
    hide MemberOf, AreMembersOf;
    if cells == [] {
      NoMembers(names, unpack);
    } else {
      var last := |cells| - 1;
      RowMembersAre(names[..last], cells[..last], unpack);
      AreMembersSnoc(RowMembers(names[..last], cells[..last], unpack), NonNull(cells[..last]), names, cells, unpack);
      assert NonNull(cells[..last]) + [] == NonNull(cells[..last]);
      assert RowMembers(names[..last], cells[..last], unpack) + [] == RowMembers(names[..last], cells[..last], unpack);
    }
  }

  lemma NoMembers(names: seq<string>, unpack: bool)
    requires names == []
    ensures AreMembersOf(RowMembers(names, [], unpack), NonNull([]), names, [], unpack)
  {
  }

  /** The k-th member is that of the k-th column that is not null: under the name `@timestamp` for the column
      `timestamp` and under its own name otherwise. */
  lemma RowMembersAt(names: seq<string>, cells: seq<Cell>, unpack: bool)
    requires |names| == |cells|
    ensures |RowMembers(names, cells, unpack)| == |NonNull(cells)|
    ensures forall k | 0 <= k < |NonNull(cells)| ::
              var c := NonNull(cells)[k];
              RowMembers(names, cells, unpack)[k] ==
                Member(if names[c] == "timestamp" then "@timestamp" else names[c],
                       CellValue(cells[c], unpack && (names[c] == "attributes" || names[c] == "resource_attributes")))
  {
    hide CellValue, RowMembers, NonNull;
    RowMembersAre(names, cells, unpack);
  }

  /** Unless a column is itself called `@timestamp`, that key is there exactly if the time is not null; and
      `timestamp` is never a key. */
  lemma TimeIsRenamed(names: seq<string>, cells: seq<Cell>, unpack: bool)
    requires |names| == |cells| && "@timestamp" !in names
    ensures (exists k :: 0 <= k < |RowMembers(names, cells, unpack)| && RowMembers(names, cells, unpack)[k].key == "@timestamp") <==>
              exists c :: 0 <= c < |cells| && names[c] == "timestamp" && !cells[c].Null?
    ensures forall k | 0 <= k < |RowMembers(names, cells, unpack)| :: RowMembers(names, cells, unpack)[k].key != "timestamp"
  {
    hide CellValue, RowMembers;
    var ms, cols := RowMembers(names, cells, unpack), NonNull(cells);
    RowMembersAt(names, cells, unpack);
    if k :| 0 <= k < |ms| && ms[k].key == "@timestamp" {
      assert names[cols[k]] in names;
      assert names[cols[k]] == "timestamp" && !cells[cols[k]].Null?;
    }
    if c: nat :| c < |cells| && names[c] == "timestamp" && !cells[c].Null? {
      assert c in cols;
      var k :| 0 <= k < |cols| && cols[k] == c;
      assert ms[k].key == "@timestamp";
    }
  }

  lemma NamesAgree(name: string)
    ensures KeyOf(name) == OutputName(name) && (MayEmbed(name) <==> IsAttributeField(name))
  {
  }

  lemma PrintMemberIs(key: string, value: Json)
    requires IsPlain(key)
    ensures Print(JObject([Member(key, value)])) == "{" + ("\"" + key + "\":" + Print(value)) + "}"
  {
    PlainEscape(key);
    var m := Member(key, value);
    assert PrintMembers([m]) == PrintMember(m);
    assert PrintMember(m) == "\"" + Escape(key) + "\":" + Print(value);
  }

  /** The action line asks to create a document. */
  lemma ActionReadsBack()
    ensures Parse(BULK_ACTION) == IsJson(JObject([Member("create", JObject([]))]))
  {
    hide Print, ParseValue, ParseMembers, SkipWs, Escape;
    var action := JObject([Member("create", JObject([]))]);
    PrintMemberIs("create", JObject([]));
    EmptyObject();
    ParsePrinted(action, "\n");
    assert Print(action) + "\n" == BULK_ACTION;
    LineEndIsBlank();
  }

  lemma EmptyObject()
    ensures Print(JObject([])) == "{}"
  {
  }

  lemma LineEndIsBlank()
    ensures SkipWs("\n") == ""
  {
    assert "\n"[1..] == "";
  }

  lemma {:induction false} PlainEscape(s: string)
    requires IsPlain(s)
    ensures Escape(s) == s
  {
    if s != "" {
      PlainEscape(s[1..]);
      assert s == [s[0]] + s[1..];
    }
  }

  /** The names that are written need no escaping. */
  ghost predicate PlainWritten(names: seq<string>, cells: seq<Cell>)
    requires |names| == |cells|
  {
    forall i | 0 <= i < |cells| :: !cells[i].Null? ==> IsPlain(names[i])
  }

  lemma CellReadsBack(cell: Cell, unpack: bool)
    requires CellText(cell, unpack).Some?
    ensures Parse(CellText(cell, unpack).value) == IsJson(CellValue(cell, unpack))
  {
    hide StringText, StringValue, Quoted;
    match cell
    case Utf8(val) => StringReadsBack(val, unpack);
    case Other(display) => QuotedReadsBack(display.value);
    case Timestamp(iso) => if iso.Some? { PlainLiteral(iso.value); } else { ParseOfPrint(JNull); }
    case Number(digits) => ParseOfPrint(if digits.Some? then JNumber(digits.value) else JNull);
    case Boolean(b) => ParseOfPrint(JBool(b));
    case Null => ParseOfPrint(JNull);
  }

  lemma PlainLiteral(text: string)
    requires IsPlain(text)
    ensures Parse("\"" + text + "\"") == IsJson(JString(text))
  {
    var literal := "\"" + text + "\"";
    assert literal[1..] == text + "\"" + "";
    PlainReadsBack(text, "");
    NoSkip(literal);
  }

  // ---------------------------------------------------------------- written fields

  /** A written field: its name, its text, and the value that the text reads as. */
  datatype Field = Field(name: string, text: string, value: Json)

  ghost predicate Reads(fields: seq<Field>) {
    forall i | 0 <= i < |fields| :: Parse(fields[i].text) == IsJson(fields[i].value)
  }

  ghost predicate PlainNames(fields: seq<Field>) {
    forall i | 0 <= i < |fields| :: IsPlain(fields[i].name)
  }

  ghost function MembersOf(fields: seq<Field>): (ms: seq<Member>)
    ensures |ms| == |fields|
  {
    if fields == [] then [] else [Member(fields[0].name, fields[0].value)] + MembersOf(fields[1..])
  }

  lemma {:induction false} MembersOfSnoc(fields: seq<Field>, f: Field)
    ensures MembersOf(fields + [f]) == MembersOf(fields) + [Member(f.name, f.value)]
  {
    if fields == [] {
      assert fields + [f] == [f];
    } else {
      assert (fields + [f])[1..] == fields[1..] + [f];
      MembersOfSnoc(fields[1..], f);
    }
  }

  ghost function FieldText(f: Field): string {
    "\"" + f.name + "\":" + f.text
  }

  ghost function Joined(fields: seq<Field>): (text: string)
    requires fields != []
    ensures text != "" && text[0] == '"'
  {
    FieldText(fields[0]) + if |fields| == 1 then "" else "," + Joined(fields[1..])
  }

  lemma {:induction false} JoinedSnoc(fields: seq<Field>, f: Field)
    requires fields != []
    ensures Joined(fields + [f]) == Joined(fields) + ("," + FieldText(f))
  {
    hide FieldText;
    var more := fields + [f];
    if |fields| == 1 {
      assert more[1..] == [f];
    } else {
      assert more[1..] == fields[1..] + [f];
      JoinedSnoc(fields[1..], f);
    }
  }

  /** The fields of a row. */
  ghost function Written(names: seq<string>, cells: seq<Cell>, unpack: bool): seq<Field>
    requires |names| == |cells| && FieldsText(names, cells, unpack).Some?
  {
    if cells == [] then [] else
    var last := |cells| - 1;
    var before := Written(names[..last], cells[..last], unpack);
    if cells[last].Null? then before else before + [WrittenField(names[last], cells[last], unpack)]
  }

  ghost function WrittenField(name: string, cell: Cell, unpack: bool): Field
    requires CellText(cell, unpack && IsAttributeField(name)).Some?
  {
    var embed := unpack && IsAttributeField(name);
    Field(OutputName(name), CellText(cell, embed).value, CellValue(cell, embed))
  }

  lemma {:induction false} FieldsAreJoined(names: seq<string>, cells: seq<Cell>, unpack: bool)
    requires |names| == |cells| && FieldsText(names, cells, unpack).Some?
    ensures var fields := Written(names, cells, unpack);
            FieldsText(names, cells, unpack).value == if fields == [] then "" else Joined(fields)
  {
    hide CellText, WrittenField, IsAttributeField, Opening, Joined;
    if cells != [] {
      var last := |cells| - 1;
      FieldsAreJoined(names[..last], cells[..last], unpack);
      if !cells[last].Null? {
        FieldIsJoined(Written(names[..last], cells[..last], unpack), names[last], cells[last], unpack);
      }
    }
  }

  lemma FieldIsJoined(before: seq<Field>, name: string, cell: Cell, unpack: bool)
    requires CellText(cell, unpack && IsAttributeField(name)).Some?
    ensures var text := if before == [] then "" else Joined(before);
            text + Opening(text == "", name) + CellText(cell, unpack && IsAttributeField(name)).value
            == Joined(before + [WrittenField(name, cell, unpack)])
  {
    hide CellText, CellValue, IsAttributeField, OutputName, Joined;
    var f := WrittenField(name, cell, unpack);
    if before != [] {
      JoinedSnoc(before, f);
      assert Opening(false, name) + f.text == "," + FieldText(f);
    } else {
      assert before + [f] == [f];
      JoinedOne(f);
    }
  }

  lemma JoinedOne(f: Field)
    ensures Joined([f]) == FieldText(f)
  {
  }

  lemma {:induction false} WrittenMembers(names: seq<string>, cells: seq<Cell>, unpack: bool)
    requires |names| == |cells| && FieldsText(names, cells, unpack).Some?
    ensures var fields := Written(names, cells, unpack);
            MembersOf(fields) == RowMembers(names, cells, unpack)
            && Reads(fields)
            && (PlainNames(fields) <==> PlainWritten(names, cells))
  {
    hide CellText, CellValue, IsAttributeField, Parse, IsPlain;
    if cells != [] {
      var last := |cells| - 1;
      WrittenMembers(names[..last], cells[..last], unpack);
      PlainWrittenSnoc(names, cells);
      if !cells[last].Null? {
        var before := Written(names[..last], cells[..last], unpack);
        var f := WrittenField(names[last], cells[last], unpack);
        CellReadsBack(cells[last], unpack && IsAttributeField(names[last]));
        NamesAgree(names[last]);
        MembersOfSnoc(before, f);
        PlainNamesSnoc(before, f);
        PlainOutputName(names[last]);
      }
    }
  }

  lemma PlainWrittenSnoc(names: seq<string>, cells: seq<Cell>)
    requires |names| == |cells| && cells != []
    ensures var n := |cells| - 1;
            PlainWritten(names, cells) <==> PlainWritten(names[..n], cells[..n]) && (!cells[n].Null? ==> IsPlain(names[n]))
  {
    hide IsPlain;
    var n := |cells| - 1;
    assert forall i | 0 <= i < n :: names[..n][i] == names[i] && cells[..n][i] == cells[i];
  }

  lemma PlainNamesSnoc(fields: seq<Field>, f: Field)
    ensures PlainNames(fields + [f]) <==> PlainNames(fields) && IsPlain(f.name)
  {
    hide IsPlain;
    var more := fields + [f];
    assert more[|fields|] == f;
    assert forall i | 0 <= i < |fields| :: more[i] == fields[i];
  }

  lemma PlainOutputName(name: string)
    ensures IsPlain(OutputName(name)) <==> IsPlain(name)
  {
  }

  // ---------------------------------------------------------------- reading a source line

  /** A field in front of a separator is read as its member exactly when its name is plain. */
  lemma FieldReadsBack(f: Field, tail: string)
    requires Parse(f.text) == IsJson(f.value)
    requires tail != "" && tail[0] in ",}"
    ensures var r := ParseMember(FieldText(f) + tail);
            (r.Got? && r.value.key == f.name ==> IsPlain(f.name))
            && (IsPlain(f.name) ==> r.Got? && r.value == Member(f.name, f.value) && SkipWs(r.rest) == tail)
  {
    hide Parse, ParseValue, ParseString, IsPlain, SkipWs;
    var s := FieldText(f) + tail;
    var after := ":" + (f.text + tail);
    NoSkip(s);
    assert s[1..] == f.name + "\"" + after;
    ReadsBackIffPlain(f.name, after);
    NoSkip(after);
    assert after[1..] == f.text + tail;
    TextInFrontOf(f.text, tail);
  }

  /** Fields in front of a closing brace are read as their members if and only if their names are plain. */
  lemma {:induction false} FieldsReadBack(fields: seq<Field>, rest: string)
    requires fields != [] && Reads(fields)
    ensures var r := ParseMembers(Joined(fields) + "}" + rest);
            (r.Got? && r.value == MembersOf(fields) ==> PlainNames(fields))
            && (PlainNames(fields) ==> r == Got(MembersOf(fields), rest))
  {
    hide Parse, ParseMember, FieldText, IsPlain, SkipWs;
    var s := Joined(fields) + "}" + rest;
    PlainNamesSplit(fields);
    var first := Member(fields[0].name, fields[0].value);
    assert MembersOf(fields)[0] == first && MembersOf(fields)[1..] == MembersOf(fields[1..]);
    if |fields| == 1 {
      var tail := "}" + rest;
      assert s == FieldText(fields[0]) + tail;
      FieldReadsBack(fields[0], tail);
      assert tail[1..] == rest;
      assert MembersOf(fields) == [first];
    } else {
      var more := Joined(fields[1..]) + "}" + rest;
      var tail := "," + more;
      assert s == FieldText(fields[0]) + tail;
      FieldReadsBack(fields[0], tail);
      assert tail[1..] == more;
      FieldsReadBack(fields[1..], rest);
      var r := ParseMembers(s);
      assert r.Got? ==> r.value[0] == ParseMember(s).value;
    }
  }

  lemma PlainNamesSplit(fields: seq<Field>)
    requires fields != []
    ensures PlainNames(fields) <==> IsPlain(fields[0].name) && PlainNames(fields[1..])
  {
    hide IsPlain;
    assert forall i | 1 <= i < |fields| :: fields[i] == fields[1..][i - 1];
  }

  ghost function SourceLine(fields: string): string {
    "{" + fields + "}\n"
  }

  /** The source line of a row reads as the object of its cells that are not null, if and only if no
      name that is written needs escaping. */
  lemma RowReadsBackIff(names: seq<string>, cells: seq<Cell>, unpack: bool)
    requires |names| == |cells| && FieldsText(names, cells, unpack).Some?
    ensures Parse(SourceLine(FieldsText(names, cells, unpack).value)) == IsJson(JObject(RowMembers(names, cells, unpack)))
       <==> PlainWritten(names, cells)
    ensures RowText(names, cells, unpack) == Some(BULK_ACTION + SourceLine(FieldsText(names, cells, unpack).value))
  {
    hide Written, FieldsText, RowMembers, Parse, Reads, PlainNames, PlainWritten, Joined, MembersOf;
    var fields := Written(names, cells, unpack);
    FieldsAreJoined(names, cells, unpack);
    WrittenMembers(names, cells, unpack);
    ObjectReadsBack(fields);
    var text := FieldsText(names, cells, unpack).value;
    assert BULK_ACTION + SourceLine(text) == BULK_ACTION + "{" + text + "}\n";
  }

  /** Witness: a quote in a written name, which is not escaped, changes what its row reads as. */
  lemma QuoteInNameMisreads()
    ensures var (names, cells) := (["a\"b"], [Boolean(true)]);
            var fields := FieldsText(names, cells, false);
            fields.Some? && Parse(SourceLine(fields.value)) != IsJson(JObject(RowMembers(names, cells, false)))
  {
    hide Parse, RowMembers, SourceLine;
    var names, cells := ["a\"b"], [Boolean(true)];
    assert names[..0] == [] && cells[..0] == [];
    assert FieldsText([], [], false) == Some("");
    assert names[0][1] == '"' && !cells[0].Null?;
    RowReadsBackIff(names, cells, false);
  }

  lemma ObjectReadsBack(fields: seq<Field>)
    requires Reads(fields)
    ensures Parse(SourceLine(if fields == [] then "" else Joined(fields))) == IsJson(JObject(MembersOf(fields))) <==> PlainNames(fields)
  {
    hide ParseMembers, ParseElems, ParseString;
    var text := if fields == [] then "" else Joined(fields);
    var line := SourceLine(text);
    NoSkip(line);
    assert SkipWs("\n") == "" by {
      assert "\n"[1..] == "";
    }
    var inner := text + "}" + "\n";
    assert line[1..] == inner;
    NoSkip(inner);
    if fields == [] {
      assert inner[1..] == "\n";
    } else {
      FieldsReadBack(fields, "\n");
      assert MembersOf(fields) != [];
    }
  }
}
