/** One row of a record batch as one bulk document: the action line and the source line. */
module RowSerializer {
  import opened Wrappers
  import opened Ndjson
  import Json
  import JsonObject
  import opened TextBuffers

  const BULK_ACTION := "{\"create\":{}}\n"

  type PlainText = s: string | Json.IsPlain(s) witness ""

  /** A value of one column. `None` stands for a timestamp out of range, a number that is not
      finite, and a value the fallback formatter cannot render. */
  datatype Cell =
    | Null
    | Timestamp(iso: Option<PlainText>)
    | Utf8(value: string)
    | Boolean(b: bool)
    | Number(digits: Option<Json.NumberToken>)
    | Other(display: Option<string>)

  function OutputName(name: string): string {
    if name == "timestamp" then "@timestamp" else name
  }

  predicate IsAttributeField(name: string) {
    name == "attributes" || name == "resource_attributes"
  }

  function EscapeByte(c: char): string {
    if c == '"' then "\\\""
    else if c == '\\' then "\\\\"
    else if c == '\n' then "\\n"
    else if c == '\r' then "\\r"
    else if c == '\t' then "\\t"
    else if c as int < 32 then "\\u00" + [Json.HexDigit(c as int / 16), Json.HexDigit(c as int % 16)]
    else [c]
  }

  function EscapeBytes(s: string): string {
    if s == "" then "" else EscapeBytes(s[..|s| - 1]) + EscapeByte(s[|s| - 1])
  }

  function Quoted(s: string): string {
    "\"" + EscapeBytes(s) + "\""
  }

  predicate LooksLikeJson(s: string) {
    s != "" && (s[0] == '{' || s[0] == '[')
  }

  /** A string value: attribute columns may be embedded as JSON instead of being quoted. */
  function StringText(val: string, unpack: bool): string {
    if unpack && LooksLikeJson(val) then
      if '\n' in val || '\r' in val then
        match JsonObject.Read(val)
        case Some(j) => Json.Print(j)
        case None => Quoted(val)
      else if Json.Parse(val).IsJson? then val
      else Quoted(val)
    else Quoted(val)
  }

  function CellText(cell: Cell, unpack: bool): Option<string> {
    match cell
    case Null => Some("null")
    case Timestamp(iso) => Some(if iso.Some? then "\"" + iso.value + "\"" else "null")
    case Utf8(val) => Some(StringText(val, unpack))
    case Boolean(b) => Some(if b then "true" else "false")
    case Number(digits) => Some(if digits.Some? then digits.value else "null")
    case Other(display) => if display.Some? then Some(Quoted(display.value)) else None
  }

  /** The comma-separated fields of the first `|cells|` columns; null cells are left out. */
  function FieldsText(names: seq<string>, cells: seq<Cell>, unpack: bool): Option<string>
    requires |names| == |cells|
  {
    if cells == [] then Some("") else
    var last := |cells| - 1;
    var before := FieldsText(names[..last], cells[..last], unpack);
    if before.None? then None else WithField(before.value, names[last], cells[last], unpack)
  }

  /** Separator and name of a field. */
  function Opening(firstField: bool, name: string): string {
    (if firstField then "" else ",") + ("\"" + OutputName(name) + "\":")
  }

  function WithField(before: string, name: string, cell: Cell, unpack: bool): Option<string> {
    if cell.Null? then Some(before) else
    var value := CellText(cell, unpack && IsAttributeField(name));
    if value.None? then None else Some(before + Opening(before == "", name) + value.value)
  }

  function RowText(names: seq<string>, cells: seq<Cell>, unpack: bool): Option<string>
    requires |names| == |cells|
  {
    match FieldsText(names, cells, unpack)
    case None => None
    case Some(fields) => Some(BULK_ACTION + "{" + fields + "}\n")
  }

  // ---------------------------------------------------------------- no line break inside a row

  lemma {:induction false} EscapedHasNoNewline(s: string)
    ensures '\n' !in EscapeBytes(s)
  {
    if s != "" {
      EscapedHasNoNewline(s[..|s| - 1]);
      assert '\n' !in EscapeByte(s[|s| - 1]);
    }
  }

  lemma StringHasNoNewline(val: string, unpack: bool)
    ensures '\n' !in StringText(val, unpack)
  {
    EscapedHasNoNewline(val);
    if unpack && LooksLikeJson(val) && ('\n' in val || '\r' in val) && JsonObject.Read(val).Some? {
      JsonObject.ReadIsCanonical(val);
      JsonObject.CanonicalIsWellFormed(JsonObject.Read(val).value);
      Json.PrintIsOneLine(JsonObject.Read(val).value);
    }
  }

  lemma CellHasNoNewline(cell: Cell, unpack: bool)
    ensures CellText(cell, unpack).Some? ==> '\n' !in CellText(cell, unpack).value
  {
    match cell
    case Utf8(val) => StringHasNoNewline(val, unpack);
    case Other(display) => if display.Some? { EscapedHasNoNewline(display.value); }
    case Null =>
    case Timestamp(_) =>
    case Boolean(_) =>
    case Number(digits) => if digits.Some? { Json.NumberIsOneLine(digits.value); }
  }

  /** The names that are written, those of the cells that are not null, have no line break. */
  ghost predicate OneLineWritten(names: seq<string>, cells: seq<Cell>)
    requires |names| == |cells|
  {
    forall i | 0 <= i < |cells| :: !cells[i].Null? ==> '\n' !in names[i]
  }

  lemma OneLineWrittenSnoc(names: seq<string>, cells: seq<Cell>)
    requires |names| == |cells| && cells != []
    ensures var n := |cells| - 1;
            OneLineWritten(names, cells) <==> OneLineWritten(names[..n], cells[..n]) && (!cells[n].Null? ==> '\n' !in names[n])
  {
    var n := |cells| - 1;
    assert forall i | 0 <= i < n :: names[..n][i] == names[i] && cells[..n][i] == cells[i];
  }

  lemma OpeningHasNoNewlineIff(firstField: bool, name: string)
    ensures '\n' in Opening(firstField, name) <==> '\n' in name
  {
    var separator := if firstField then "" else ",";
    var quoted := "\"" + OutputName(name) + "\":";
    assert '\n' !in separator && '\n' !in "\"" && '\n' !in "\":";
    assert '\n' in OutputName(name) <==> '\n' in name;
  }

  lemma {:induction false} FieldsHaveNoNewlineIff(names: seq<string>, cells: seq<Cell>, unpack: bool)
    requires |names| == |cells| && FieldsText(names, cells, unpack).Some?
    ensures '\n' !in FieldsText(names, cells, unpack).value <==> OneLineWritten(names, cells)
  {
    if cells != [] {
      var n := |cells| - 1;
      FieldsHaveNoNewlineIff(names[..n], cells[..n], unpack);
      OneLineWrittenSnoc(names, cells);
      if !cells[n].Null? {
        var before := FieldsText(names[..n], cells[..n], unpack).value;
        CellHasNoNewline(cells[n], unpack && IsAttributeField(names[n]));
        OpeningHasNoNewlineIff(before == "", names[n]);
      }
    }
  }

  lemma TwoLinesAreADocument(action: string, source: string)
    requires IsLine(action) && IsLine(source) && !IsBlank(action) && !IsBlank(source)
    ensures IsDocument(action + source)
  {
    LinesCons(action, source);
    LinesOfOne(source);
    var none: seq<string> := [];
    assert [action] + [source] == [action, source];
    assert [action, source][1..] == [source] && [source][1..] == none;
    assert Pair([source], Some(action)) == Pairing([action + source], None);
  }

  /** A line break before its end splits the source line, and the action pairs with the first piece only. */
  lemma BrokenSourceIsNotADocument(action: string, source: string)
    requires IsLine(action) && !IsBlank(action)
    requires EndsWithNewline(source) && '\n' in source[..|source| - 1] && !IsBlankByte(source[0])
    ensures !IsDocument(action + source)
  {
    var n := FirstLineLength(source);
    FirstLineIsLine(source);
    assert source[|source| - 1] in source;
    var line, rest := source[..n], source[n..];
    assert source == line + rest;
    assert n < |source| by {
      assert n == |source| ==> line == source;
    }
    assert !IsBlank(line) by {
      assert line[0] == source[0];
    }
    LinesCons(action, source);
    LinesCons(line, rest);
    FirstDocument(action, line, Lines(rest));
    assert Lines(action + source) == [action, line] + Lines(rest);
    assert |action + line| < |action + source|;
  }

  lemma FirstDocument(action: string, line: string, more: seq<string>)
    requires !IsBlank(action) && !IsBlank(line)
    ensures Pair([action, line] + more, None).docs != [] && Pair([action, line] + more, None).docs[0] == action + line
  {
    var all := [action, line] + more;
    assert all[1..] == [line] + more && ([line] + more)[1..] == more;
  }

  lemma RowLines(fields: string)
    ensures IsLine(BULK_ACTION) && !IsBlank(BULK_ACTION)
    ensures var source := "{" + fields + "}\n";
            EndsWithNewline(source) && !IsBlankByte(source[0]) && ('\n' in source[..|source| - 1] <==> '\n' in fields)
  {
    var source := "{" + fields + "}\n";
    assert source[..|source| - 1] == "{" + fields + "}";
    assert BULK_ACTION[..|BULK_ACTION| - 1] == "{\"create\":{}}";
    assert !IsBlankByte(BULK_ACTION[0]);
  }

  /** Whatever the cells hold, a row is exactly one document, two non-blank lines, if and only if no
      name that is written has a line break. */
  lemma RowIsADocumentIff(names: seq<string>, cells: seq<Cell>, unpack: bool)
    requires |names| == |cells| && RowText(names, cells, unpack).Some?
    ensures IsDocument(RowText(names, cells, unpack).value) <==> OneLineWritten(names, cells)
  {
    var fields := FieldsText(names, cells, unpack).value;
    var source := "{" + fields + "}\n";
    FieldsHaveNoNewlineIff(names, cells, unpack);
    RowLines(fields);
    assert RowText(names, cells, unpack).value == BULK_ACTION + source;
    if '\n' in fields {
      BrokenSourceIsNotADocument(BULK_ACTION, source);
    } else {
      TwoLinesAreADocument(BULK_ACTION, source);
    }
  }

  /** Witness: a line break in a written name splits its row. */
  lemma NewlineInNameSplitsRow()
    ensures var text := RowText(["a\nb"], [Boolean(true)], false);
            text.Some? && !IsDocument(text.value)
  {
    var names, cells := ["a\nb"], [Boolean(true)];
    assert names[..0] == [] && cells[..0] == [];
    assert FieldsText([], [], false) == Some("");
    assert '\n' in names[0] && !cells[0].Null?;
    RowIsADocumentIff(names, cells, false);
  }

  lemma ThreeLinesTwice(a: string, b: string, c: string)
    requires IsLine(a) && IsLine(b) && IsLine(c) && !IsBlank(a) && !IsBlank(b) && !IsBlank(c)
    ensures var text := a + (b + c); |Documents(text + text)| > 1 && Documents(text + text)[1] == c + a
  {
    hide IsBlank, IsLine;
    var text := a + (b + c);
    ThreeLines(a, b, c, "");
    ThreeLines(a, b, c, text);
    assert text + "" == text;
    var lines: seq<string> := [a, b, c, a, b, c];
    assert Lines(text + text) == lines by {
      assert Lines("") == [];
      assert [a, b, c] + [] == [a, b, c];
      assert [a, b, c] + [a, b, c] == lines;
    }
    assert lines == [a, b] + [c, a, b, c] && [c, a, b, c] == [c, a] + [b, c];
    PairTwo(a, b, [c, a, b, c]);
    PairTwo(c, a, [b, c]);
    hide Pair;
    assert Documents(text + text) == [a + b] + ([c + a] + Pair([b, c], None).docs);
  }

  lemma PairTwo(action: string, line: string, more: seq<string>)
    requires !IsBlank(action) && !IsBlank(line)
    ensures Pair([action, line] + more, None).docs == [action + line] + Pair(more, None).docs
  {
    var all := [action, line] + more;
    assert all[1..] == [line] + more && ([line] + more)[1..] == more;
  }

  lemma ThreeLines(a: string, b: string, c: string, rest: string)
    requires IsLine(a) && IsLine(b) && IsLine(c)
    ensures Lines(a + (b + c) + rest) == [a, b, c] + Lines(rest)
  {
    hide IsLine, Lines;
    LinesCons(a, b + (c + rest));
    LinesCons(b, c + rest);
    LinesCons(c, rest);
    assert a + (b + c) + rest == a + (b + (c + rest));
  }

  /** Witness: two such rows are cut into documents of which the second is not the second row. An answer
      about it is taken to be about that row. */
  lemma NewlineInNameShiftsDocuments()
    ensures var text := RowText(["a\nb"], [Boolean(true)], false);
            && text.Some? && |Documents(text.value + text.value)| > 1
            && Documents(text.value + text.value)[1] != text.value
  {
    hide Documents, Lines, Pair;
    var names, cells := ["a\nb"], [Boolean(true)];
    assert names[..0] == [] && cells[..0] == [];
    var first, second := "{\"a\n", "b\":true}\n";
    var text := RowText(names, cells, false).value;
    assert text == BULK_ACTION + (first + second);
    RowLines("");
    assert first[..|first| - 1] == "{\"a" && second[..|second| - 1] == "b\":true}";
    assert !IsBlankByte(first[0]) && !IsBlankByte(second[0]);
    ThreeLinesTwice(BULK_ACTION, first, second);
    assert text[0] == '{' && (second + BULK_ACTION)[0] == 'b';
  }

  // ---------------------------------------------------------------- values read back

  lemma EscapedByteReadsBack(c: char, rest: string)
    ensures Json.ParseString(EscapeByte(c) + rest) == Json.Prepend([c], Json.ParseString(rest))
  {
    if c as int == 8 || c as int == 12 {
      var s := EscapeByte(c) + rest;
      var lo := c as int % 16;
      Json.HexDigitValue(lo);
      assert s[2..][0] == '0' && s[2..][1] == '0' && s[2..][2] == '0' && s[2..][3] == Json.HexDigit(lo);
      assert Json.HexValue('0') == 0;
      assert Json.Hex4(s[2..]) == c as int;
      assert Json.Utf8(c as int) == [c];
      assert s[6..] == rest;
    } else {
      assert EscapeByte(c) == Json.EscapeChar(c);
      Json.ParseEscapedChar(c, rest);
    }
  }

  lemma {:induction false} EscapedReadsBack(s: string, rest: string)
    ensures Json.ParseString(EscapeBytes(s) + rest) == Json.Prepend(s, Json.ParseString(rest))
  {
    hide EscapeByte, Json.ParseString;
    if s == "" {
      assert EscapeBytes(s) + rest == rest;
      assert Json.ParseString(rest).Got? ==> "" + Json.ParseString(rest).value == Json.ParseString(rest).value;
    } else {
      var last := |s| - 1;
      var tail := EscapeByte(s[last]) + rest;
      EscapedReadsBack(s[..last], tail);
      EscapedByteReadsBack(s[last], rest);
      assert EscapeBytes(s) + rest == EscapeBytes(s[..last]) + tail;
      if Json.ParseString(rest).Got? {
        assert s[..last] + ([s[last]] + Json.ParseString(rest).value) == s + Json.ParseString(rest).value;
      }
    }
  }

  /** The literal that is written for a string stands for that string. */
  lemma QuotedReadsBack(s: string)
    ensures Json.Parse(Quoted(s)) == Json.IsJson(Json.JString(s))
  {
    hide EscapeBytes, Json.DecodeEscape;
    var literal := Quoted(s);
    assert literal[1..] == EscapeBytes(s) + "\"";
    EscapedReadsBack(s, "\"");
    assert s + "" == s;
    Json.NoSkip(literal);
  }

  /** The value of a string cell: the JSON that its text is, when it is embedded, and the string otherwise.
      A text with line breaks is embedded with the last of each key's members, in key order. */
  ghost function StringValue(val: string, unpack: bool): Json.Json {
    if !unpack || val == "" || (val[0] != '{' && val[0] != '[') || Json.Parse(val).NotJson? then Json.JString(val)
    else if '\n' in val || '\r' in val then JsonObject.Normal(Json.Parse(val).value)
    else Json.Parse(val).value
  }

  lemma StringReadsBack(val: string, unpack: bool)
    ensures Json.Parse(StringText(val, unpack)) == Json.IsJson(StringValue(val, unpack))
  {
    hide Quoted, Json.Parse, Json.Print;
    QuotedReadsBack(val);
    if unpack && LooksLikeJson(val) && ('\n' in val || '\r' in val) && JsonObject.Read(val).Some? {
      JsonObject.ReadIsCanonical(val);
      JsonObject.CanonicalIsWellFormed(JsonObject.Read(val).value);
      Json.ParseOfPrint(JsonObject.Read(val).value);
    }
  }

  // ---------------------------------------------------------------- the writers

  method WriteEscapedString(buf: TextBuffer, s: string)
    modifies buf
    ensures buf.text == old(buf.text) + Quoted(s)
    ensures Json.Parse(Quoted(s)) == Json.IsJson(Json.JString(s))
  {
    hide EscapeByte;
    QuotedReadsBack(s);
    buf.Push('"');
    for i := 0 to |s|
      invariant buf.text == old(buf.text) + "\"" + EscapeBytes(s[..i])
    {
      assert s[..i + 1][..i] == s[..i];
      buf.PushStr(EscapeByte(s[i]));
    }
    assert s[..|s|] == s;
    buf.Push('"');
  }

  method WriteStringCol(buf: TextBuffer, val: string, unpack: bool)
    modifies buf
    ensures buf.text == old(buf.text) + StringText(val, unpack)
    ensures Json.Parse(StringText(val, unpack)) == Json.IsJson(StringValue(val, unpack))
  {
    StringReadsBack(val, unpack);
    if unpack && LooksLikeJson(val) {
      if '\n' in val || '\r' in val {
        var parsed := JsonObject.Read(val);
        if parsed.Some? {
          buf.PushStr(Json.Print(parsed.value));
        } else {
          WriteEscapedString(buf, val);
        }
      } else if Json.Parse(val).IsJson? {
        buf.PushStr(val);
      } else {
        WriteEscapedString(buf, val);
      }
    } else {
      WriteEscapedString(buf, val);
    }
  }

  method WriteValue(buf: TextBuffer, cell: Cell, unpack: bool) returns (ok: bool)
    modifies buf
    ensures ok == CellText(cell, unpack).Some?
    ensures ok ==> buf.text == old(buf.text) + CellText(cell, unpack).value
  {
    match cell {
    case Null => buf.PushStr("null");
    case Timestamp(iso) =>
      if iso.Some? {
        buf.PushStr("\"" + iso.value + "\"");
      } else {
        buf.PushStr("null");
      }
    case Utf8(val) => WriteStringCol(buf, val, unpack);
    case Boolean(b) => buf.PushStr(if b then "true" else "false");
    case Number(digits) => buf.PushStr(if digits.Some? then digits.value else "null");
    case Other(display) =>
      if display.None? {
        return false;
      }
      WriteEscapedString(buf, display.value);
    }
    return true;
  }

  method WriteOpening(rowBuf: TextBuffer, name: string, firstField: bool)
    modifies rowBuf
    ensures rowBuf.text == old(rowBuf.text) + Opening(firstField, name)
  {
    ghost var before := rowBuf.text;
    if !firstField {
      rowBuf.Push(',');
    }
    ghost var separator := if firstField then "" else ",";
    assert rowBuf.text == before + separator;
    var quotedName := "\"" + OutputName(name) + "\":";
    rowBuf.PushStr(quotedName);
    assert before + separator + quotedName == before + (separator + quotedName);
  }

  lemma Reassociate(a: string, b: string, c: string, d: string)
    ensures a + b + c + d == a + (b + c + d)
  {
  }

  /** The body of the row loop: `rowBuf` is cleared and filled with the row. */
  method WriteRow(rowBuf: TextBuffer, names: seq<string>, cells: seq<Cell>, unpack: bool) returns (ok: bool)
    requires |names| == |cells|
    modifies rowBuf
    ensures ok == RowText(names, cells, unpack).Some?
    ensures ok ==> rowBuf.text == RowText(names, cells, unpack).value
  {
    rowBuf.Clear();
    rowBuf.PushStr(BULK_ACTION);
    rowBuf.Push('{');
    var firstField := true;
    ghost var head := BULK_ACTION + "{";
    ghost var fields := "";
    for col := 0 to |cells|
      invariant FieldsText(names[..col], cells[..col], unpack) == Some(fields)
      invariant firstField == (fields == "")
      invariant rowBuf.text == head + fields
    {
      FieldsStep(names, cells, unpack, col);
      if !cells[col].Null? {
        WriteOpening(rowBuf, names[col], firstField);
        firstField := false;
        var written := WriteValue(rowBuf, cells[col], unpack && IsAttributeField(names[col]));
        if !written {
          FieldsFail(names, cells, unpack, col + 1);
          return false;
        }
        Reassociate(head, fields, Opening(fields == "", names[col]), CellText(cells[col], unpack && IsAttributeField(names[col])).value);
        fields := WithField(fields, names[col], cells[col], unpack).value;
      }
    }
    assert names[..|cells|] == names && cells[..|cells|] == cells;
    rowBuf.PushStr("}\n");
    return true;
  }

  lemma FieldsStep(names: seq<string>, cells: seq<Cell>, unpack: bool, col: nat)
    requires |names| == |cells| && col < |cells|
    requires FieldsText(names[..col], cells[..col], unpack).Some?
    ensures FieldsText(names[..col + 1], cells[..col + 1], unpack)
         == WithField(FieldsText(names[..col], cells[..col], unpack).value, names[col], cells[col], unpack)
  {
    assert names[..col + 1][..col] == names[..col] && cells[..col + 1][..col] == cells[..col];
  }

  lemma {:induction false} FieldsFail(names: seq<string>, cells: seq<Cell>, unpack: bool, col: nat)
    requires |names| == |cells| && col <= |cells|
    requires FieldsText(names[..col], cells[..col], unpack).None?
    ensures FieldsText(names, cells, unpack).None?
    decreases |cells|
  {
    if col == |cells| {
      assert names[..col] == names && cells[..col] == cells;
    } else {
      var last := |cells| - 1;
      assert names[..last][..col] == names[..col] && cells[..last][..col] == cells[..col];
      FieldsFail(names[..last], cells[..last], unpack, col);
    }
  }
}
