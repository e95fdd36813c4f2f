/** The compliance engine: service names in every row, remapping, tagging and quarantine. */
module Compliance {
  import opened Wrappers
  import opened Text
  import opened Json
  import opened JsonObject
  import opened Attributes
  import opened RemapRules

  const STATUS_KEY := "otel::compliance::status"
  const VERIFIED := "verified"

  datatype ComplianceMode = Strict | Quarantine | Remap | Off

  datatype Data = Utf8(cells: seq<Option<string>>) | OtherData(id: nat)

  datatype Column = Column(name: string, data: Data)

  datatype Batch = Batch(columns: seq<Column>, metadata: map<string, string>, numRows: nat)
  {
    predicate Valid() {
      forall i | 0 <= i < |columns| :: columns[i].data.Utf8? ==> |columns[i].data.cells| == numRows
    }
  }

  datatype Output = Compliant(batch: Batch) | Remapped(batch: Batch) | Quarantined(batch: Batch)

  datatype Error = NotUtf8 | MissingServiceName | NoColumns

  predicate IsSchemaCompliant(b: Batch) {
    STATUS_KEY in b.metadata && b.metadata[STATUS_KEY] == VERIFIED
  }

  function Tagged(b: Batch): Batch {
    b.(metadata := b.metadata[STATUS_KEY := VERIFIED])
  }

  // ---------------------------------------------------------------- service names

  /** The cell is a JSON object with a `service.name`. */
  predicate NamesService(cell: Option<string>) {
    && cell.Some?
    && var j := Read(cell.value);
       j.Some? && j.value.JObject? && SERVICE_NAME in View(j.value.members)
  }

  function Names(columns: seq<Column>): (names: seq<string>)
    ensures |names| == |columns|
    ensures forall i | 0 <= i < |columns| :: names[i] == columns[i].name
  {
    seq(|columns|, i requires 0 <= i < |columns| => columns[i].name)
  }

  /** The first column of that name, or `|columns|`. */
  function FindColumn(columns: seq<Column>, name: string): nat {
    IndexOf(Names(columns), name)
  }

  predicate EveryRowNamesService(b: Batch) {
    var i := FindColumn(b.columns, "resource_attributes");
    && i < |b.columns| && b.columns[i].data.Utf8?
    && forall r | 0 <= r < |b.columns[i].data.cells| :: NamesService(b.columns[i].data.cells[r])
  }

  predicate ResourceColumnIsUtf8(b: Batch) {
    var i := FindColumn(b.columns, "resource_attributes");
    i < |b.columns| ==> b.columns[i].data.Utf8?
  }

  method CheckBatchCompliance(b: Batch) returns (r: Result<bool, Error>)
    ensures r == if ResourceColumnIsUtf8(b) then Ok(EveryRowNamesService(b)) else Err(NotUtf8)
  {
    var i := FindColumn(b.columns, "resource_attributes");
    if i == |b.columns| {
      return Ok(false);
    }
    if !b.columns[i].data.Utf8? {
      return Err(NotUtf8);
    }
    var cells := b.columns[i].data.cells;
    for row := 0 to |cells|
      invariant forall k | 0 <= k < row :: NamesService(cells[k])
    {
      if cells[row].None? {
        return Ok(false);
      }
      var jsonVal := Read(cells[row].value);
      if jsonVal.None? || !jsonVal.value.JObject? || SERVICE_NAME !in View(jsonVal.value.members) {
        return Ok(false);
      }
    }
    return Ok(true);
  }

  // ---------------------------------------------------------------- remapping

  predicate HoldsAttributes(name: string) {
    name == "attributes" || name == "resource_attributes"
  }

  function RemapCell(cell: Option<string>, order: seq<Rule>): Option<string> {
    match cell case None => None case Some(text) => Some(RemapText(text, order))
  }

  function RemapColumn(c: Column, order: seq<Rule>): Column
    requires HoldsAttributes(c.name) ==> c.data.Utf8?
  {
    if HoldsAttributes(c.name) then
      var cells := c.data.cells;
      Column(c.name, Utf8(seq(|cells|, i requires 0 <= i < |cells| => RemapCell(cells[i], order))))
    else c
  }

  predicate CanRemap(b: Batch) {
    b.columns != [] && forall i | 0 <= i < |b.columns| :: HoldsAttributes(b.columns[i].name) ==> b.columns[i].data.Utf8?
  }

  function RemapBatch(b: Batch, order: seq<Rule>): Batch
    requires CanRemap(b)
  {
    b.(columns := seq(|b.columns|, i requires 0 <= i < |b.columns| => RemapColumn(b.columns[i], order)))
  }

  /** Runs the rules over the object of one cell, editing it in place. */
  method RemapOneCell(text: string, order: seq<Rule>) returns (r: string)
    ensures r == RemapText(text, order)
  {
    var parsed := Read(text);
    if parsed.None? {
      return text;
    }
    var jsonVal := parsed.value;
    if jsonVal.JObject? {
      var members := jsonVal.members;
      for k := 0 to |order|
        invariant members == RemapMembers(jsonVal.members, order[..k])
      {
        assert order[..k + 1][..k] == order[..k];
        var view := View(members);
        if order[k].source in view {
          members := Put(Delete(members, order[k].source), order[k].target, view[order[k].source]);
        }
      }
      assert order[..|order|] == order;
      jsonVal := JObject(members);
    }
    return Print(jsonVal);
  }

  method RemapCells(cells: seq<Option<string>>, order: seq<Rule>) returns (builder: seq<Option<string>>)
    ensures |builder| == |cells|
    ensures forall i | 0 <= i < |cells| :: builder[i] == RemapCell(cells[i], order)
  {
    builder := [];
    for j := 0 to |cells|
      invariant |builder| == j
      invariant forall i | 0 <= i < j :: builder[i] == RemapCell(cells[i], order)
    {
      match cells[j] {
        case None => builder := builder + [None];
        case Some(text) =>
          var remapped := RemapOneCell(text, order);
          builder := builder + [Some(remapped)];
      }
    }
  }

  /** Cell by cell, nulls kept. */
  ghost predicate CellsRemapped(cells: seq<Option<string>>, out: seq<Option<string>>, order: seq<Rule>) {
    && |out| == |cells|
    && forall r | 0 <= r < |cells| ::
         out[r] == if cells[r].None? then None else Some(RemapText(cells[r].value, order))
  }

  /** The columns `attributes` and `resource_attributes` are remapped, and nothing else changes. */
  ghost predicate IsRemapped(b: Batch, out: Batch, order: seq<Rule>) {
    && out.numRows == b.numRows && out.metadata == b.metadata && |out.columns| == |b.columns|
    && (forall i | 0 <= i < |b.columns| && b.columns[i].name !in {"attributes", "resource_attributes"} :: out.columns[i] == b.columns[i])
    && (forall i | 0 <= i < |b.columns| && b.columns[i].name in {"attributes", "resource_attributes"} ::
          && out.columns[i].name == b.columns[i].name && out.columns[i].data.Utf8? && b.columns[i].data.Utf8?
          && CellsRemapped(b.columns[i].data.cells, out.columns[i].data.cells, order))
  }

  lemma RemapBatchIs(b: Batch, order: seq<Rule>)
    requires CanRemap(b)
    ensures IsRemapped(b, RemapBatch(b, order), order)
  {
    hide RemapText;
  }

  method ExecuteRemapRules(b: Batch, order: seq<Rule>) returns (r: Result<Batch, Error>)
    ensures r.Ok? <==> CanRemap(b)
    ensures r.Ok? <==>
              b.columns != []
              && forall i | 0 <= i < |b.columns| && b.columns[i].name in {"attributes", "resource_attributes"} :: b.columns[i].data.Utf8?
    ensures CanRemap(b) ==> r == Ok(RemapBatch(b, order)) && IsRemapped(b, r.value, order)
  {
    if CanRemap(b) {
      RemapBatchIs(b, order);
    }
    hide IsRemapped;
    var newColumns: seq<Column> := [];
    for i := 0 to |b.columns|
      invariant |newColumns| == i
      invariant forall k | 0 <= k < i :: HoldsAttributes(b.columns[k].name) ==> b.columns[k].data.Utf8?
      invariant forall k | 0 <= k < i :: newColumns[k] == RemapColumn(b.columns[k], order)
    {
      var c := b.columns[i];
      if HoldsAttributes(c.name) {
        if !c.data.Utf8? {
          return Err(NotUtf8);
        }
        var cells := RemapCells(c.data.cells, order);
        assert cells == RemapColumn(c, order).data.cells;
        newColumns := newColumns + [Column(c.name, Utf8(cells))];
      } else {
        newColumns := newColumns + [c];
      }
    }
    if newColumns == [] {
      return Err(NoColumns);
    }
    assert newColumns == RemapBatch(b, order).columns;
    return Ok(b.(columns := newColumns));
  }

  // ---------------------------------------------------------------- assess_and_remap

  /** What assessing a batch comes to. */
  function Assessed(mode: ComplianceMode, b: Batch, order: seq<Rule>): Result<Output, Error> {
    if mode == Off || IsSchemaCompliant(b) then Ok(Compliant(b))
    else match mode
      case Strict =>
        if !ResourceColumnIsUtf8(b) then Err(NotUtf8)
        else if EveryRowNamesService(b) then Ok(Compliant(Tagged(b))) else Err(MissingServiceName)
      case Quarantine =>
        if !ResourceColumnIsUtf8(b) then Err(NotUtf8)
        else if EveryRowNamesService(b) then Ok(Compliant(Tagged(b))) else Ok(Quarantined(b))
      case Remap =>
        if !CanRemap(b) then Err(if b.columns == [] then NoColumns else NotUtf8)
        else
          var remapped := RemapBatch(b, order);
          if EveryRowNamesService(remapped) then Ok(Remapped(Tagged(remapped))) else Ok(Quarantined(remapped))
  }

  /** Column `i` is the first of that name. */
  ghost predicate IsFirst(b: Batch, i: nat, name: string) {
    i < |b.columns| && b.columns[i].name == name && forall j | 0 <= j < i :: b.columns[j].name != name
  }

  /** The first `resource_attributes` column is text, and every cell of it names a service. */
  ghost predicate NamesAll(b: Batch) {
    exists i: nat :: IsFirst(b, i, "resource_attributes") && b.columns[i].data.Utf8?
                     && forall r | 0 <= r < |b.columns[i].data.cells| :: NamesService(b.columns[i].data.cells[r])
  }

  ghost predicate IsVerified(b: Batch) {
    "otel::compliance::status" in b.metadata && b.metadata["otel::compliance::status"] == "verified"
  }

  ghost function Verified(b: Batch): Batch {
    b.(metadata := b.metadata["otel::compliance::status" := "verified"])
  }

  /** What an assessment comes to: nothing is done when it is off or was done before; a batch that names all its
      services, after remapping in that mode, is tagged; another one fails in strict mode and is set aside in
      the other two; and a column that should be text and is not is an error. */
  ghost predicate IsAssessment(mode: ComplianceMode, b: Batch, order: seq<Rule>, r: Result<Output, Error>) {
    if mode == Off || IsVerified(b) then r == Ok(Compliant(b))
    else if mode == Remap then
      if b.columns == [] then r == Err(NoColumns)
      else if exists i :: 0 <= i < |b.columns| && b.columns[i].name in {"attributes", "resource_attributes"} && !b.columns[i].data.Utf8? then
        r == Err(NotUtf8)
      else
        exists mid :: IsRemapped(b, mid, order) && r == Ok(if NamesAll(mid) then Remapped(Verified(mid)) else Quarantined(mid))
    else
      if exists i: nat :: IsFirst(b, i, "resource_attributes") && !b.columns[i].data.Utf8? then r == Err(NotUtf8)
      else if NamesAll(b) then r == Ok(Compliant(Verified(b)))
      else r == if mode == Strict then Err(MissingServiceName) else Ok(Quarantined(b))
  }

  lemma FirstIs(b: Batch, name: string)
    ensures var i := FindColumn(b.columns, name);
            (i < |b.columns| <==> exists j: nat :: IsFirst(b, j, name)) && forall j: nat :: IsFirst(b, j, name) <==> i == j && i < |b.columns|
  {
    var names, i := Names(b.columns), FindColumn(b.columns, name);
    forall j: nat ensures IsFirst(b, j, name) <==> i == j && i < |b.columns| {
      if i < |b.columns| {
        assert names[i] == name;
      }
      if j < |b.columns| {
        assert names[j] == b.columns[j].name;
      }
    }
    assert i < |b.columns| ==> IsFirst(b, i, name);
  }

  lemma NamesAllIff(b: Batch)
    ensures NamesAll(b) <==> EveryRowNamesService(b)
    ensures ResourceColumnIsUtf8(b) <==> !exists i: nat :: IsFirst(b, i, "resource_attributes") && !b.columns[i].data.Utf8?
  {
    hide NamesService, IsFirst, FindColumn;
    FirstIs(b, "resource_attributes");
  }

  lemma AssessedIs(mode: ComplianceMode, b: Batch, order: seq<Rule>)
    ensures IsAssessment(mode, b, order, Assessed(mode, b, order))
  {
    hide NamesAll, EveryRowNamesService, ResourceColumnIsUtf8, IsFirst, IsRemapped, RemapBatch;
    NamesAllIff(b);
    if CanRemap(b) {
      RemapBatchIs(b, order);
      NamesAllIff(RemapBatch(b, order));
    }
  }

  /** `out` names its service in every row and is tagged so; it has the rows and columns of `b`, only
      attribute columns can differ, and those only when remapping. */
  ghost predicate IsTaggedForm(mode: ComplianceMode, b: Batch, out: Batch) {
    && EveryRowNamesService(out) && IsSchemaCompliant(out)
    && out.Valid() && out.numRows == b.numRows && |out.columns| == |b.columns|
    && (forall i | 0 <= i < |b.columns| :: out.columns[i].name == b.columns[i].name)
    && out.metadata["otel::compliance::status"] == "verified"
    && (forall i | 0 <= i < |b.columns| && (mode != Remap || b.columns[i].name !in {"attributes", "resource_attributes"}) ::
          out.columns[i] == b.columns[i])
    && (forall key | key != STATUS_KEY :: (key in out.metadata <==> key in b.metadata)
                                          && (key in b.metadata ==> out.metadata[key] == b.metadata[key]))
  }

  method AssessAndRemap(mode: ComplianceMode, b: Batch, order: seq<Rule>) returns (r: Result<Output, Error>)
    ensures r == Assessed(mode, b, order) && IsAssessment(mode, b, order, r)
    ensures b.Valid() && mode != Off && !IsSchemaCompliant(b) && r.Ok? && !r.value.Quarantined? ==> IsTaggedForm(mode, b, r.value.batch)
  {
    AssessedIs(mode, b, order);
    hide IsAssessment;
    if mode == Off {
      return Ok(Compliant(b));
    }
    if IsSchemaCompliant(b) {
      return Ok(Compliant(b));
    }
    var subject := b;
    if mode == Remap {
      var remapped := ExecuteRemapRules(b, order);
      if remapped.Err? {
        return Err(if b.columns == [] then NoColumns else NotUtf8);
      }
      subject := remapped.value;
      RemappedColumnStaysFound(b, order);
    }
    var compliant := CheckBatchCompliance(subject);
    if compliant.Err? {
      return Err(compliant.error);
    }
    if compliant.value {
      return Ok(if mode == Remap then Remapped(Tagged(subject)) else Compliant(Tagged(subject)));
    }
    if mode == Strict {
      return Err(MissingServiceName);
    }
    return Ok(Quarantined(subject));
  }

  lemma RemappedColumnStaysFound(b: Batch, order: seq<Rule>)
    requires CanRemap(b)
    ensures FindColumn(RemapBatch(b, order).columns, "resource_attributes") == FindColumn(b.columns, "resource_attributes")
    ensures ResourceColumnIsUtf8(RemapBatch(b, order))
  {
    assert Names(RemapBatch(b, order).columns) == Names(b.columns);
  }

  // ---------------------------------------------------------------- what the engine promises

  /** A batch the engine tags names its service in every row; it has the rows and columns of the
      input, and only attribute columns can differ. */
  lemma TaggedBatchesAreCompliant(mode: ComplianceMode, b: Batch, order: seq<Rule>)
    requires b.Valid() && mode != Off && !IsSchemaCompliant(b)
    requires Assessed(mode, b, order).Ok? && !Assessed(mode, b, order).value.Quarantined?
    ensures IsTaggedForm(mode, b, Assessed(mode, b, order).value.batch)
  {
  }

  /** An unsuccessful assessment keeps the batch untagged for the dead-letter store, and strict mode
      fails exactly on the batches quarantine mode sets aside. */
  lemma StrictFailsWhereQuarantineDiverts(b: Batch, order: seq<Rule>)
    ensures Assessed(Strict, b, order) == Err(MissingServiceName) <==> Assessed(Quarantine, b, order) == Ok(Quarantined(b))
    ensures Assessed(Strict, b, order).Ok? <==> Assessed(Quarantine, b, order).Ok? && Assessed(Quarantine, b, order).value.Compliant?
  {
  }

  /** Assessing an accepted batch again, in any mode and under any rules, returns it unchanged. */
  lemma ReassessmentIsUnchanged(mode: ComplianceMode, b: Batch, order: seq<Rule>, mode': ComplianceMode, order': seq<Rule>)
    requires mode != Off || IsSchemaCompliant(b)
    requires Assessed(mode, b, order).Ok? && !Assessed(mode, b, order).value.Quarantined?
    ensures var out := Assessed(mode, b, order).value.batch;
            Assessed(mode', out, order') == Ok(Compliant(out))
  {
  }

  /** Independent rules make the assessment a function of the rules, not of their iteration order. */
  lemma AssessmentIgnoresOrder(mode: ComplianceMode, b: Batch, rules: seq<Rule>, order: seq<Rule>)
    requires DistinctSources(rules) && Independent(rules) && IsOrder(order, rules)
    ensures Assessed(mode, b, order) == Assessed(mode, b, rules)
  {
    if CanRemap(b) {
      forall i | 0 <= i < |b.columns|
        ensures RemapColumn(b.columns[i], order) == RemapColumn(b.columns[i], rules)
      {
        if HoldsAttributes(b.columns[i].name) {
          CellsIgnoreOrder(b.columns[i], rules, order);
        }
      }
      assert RemapBatch(b, order).columns == RemapBatch(b, rules).columns;
    }
  }

  lemma CellsIgnoreOrder(c: Column, rules: seq<Rule>, order: seq<Rule>)
    requires DistinctSources(rules) && Independent(rules) && IsOrder(order, rules)
    requires HoldsAttributes(c.name) && c.data.Utf8?
    ensures RemapColumn(c, order) == RemapColumn(c, rules)
  {
    var cells := c.data.cells;
    forall k | 0 <= k < |cells| ensures RemapCell(cells[k], order) == RemapCell(cells[k], rules) {
      if cells[k].Some? {
        IndependentTextIsSame(cells[k].value, rules, order);
        assert SameText(cells[k].value, rules, order);
      }
    }
    assert RemapColumn(c, order).data.cells == RemapColumn(c, rules).data.cells;
  }

  /** Under independent rules, a remapped row names its service exactly when a rule brings it in, or
      the row already had it and no rule takes it away. */
  lemma RemappedNamesServiceIff(text: string, rules: seq<Rule>)
    requires DistinctSources(rules) && Independent(rules)
    requires Read(text).Some? && Read(text).value.JObject?
    ensures var m := View(Read(text).value.members);
            NamesService(Some(RemapText(text, rules))) <==>
            (exists i: nat :: Feeds(rules, i, m, SERVICE_NAME)) || (SERVICE_NAME in m && !Drained(rules, SERVICE_NAME))
  {
    var ms := Read(text).value.members;
    var m := View(ms);
    ReadIsCanonical(text);
    ReadOfRemapped(text, rules);
    RemapMembersView(ms, rules);
    AppliedIsMoved(m, rules);
    var after := ApplyAll(m, rules);
    assert SERVICE_NAME in after <==> Lookup(after, SERVICE_NAME).Some?;
    if exists i: nat :: Feeds(rules, i, m, SERVICE_NAME) {
      var i: nat :| Feeds(rules, i, m, SERVICE_NAME);
      assert Lookup(after, SERVICE_NAME) == Some(m[rules[i].source]);
    } else {
      assert Lookup(after, SERVICE_NAME) == if Drained(rules, SERVICE_NAME) then None else Lookup(m, SERVICE_NAME);
    }
  }

  // ---------------------------------------------------------------- decoded batches

  lemma ParsedTextIsWellFormed(text: string)
    requires Parse(text).IsJson?
    ensures WellFormed(Parse(text).value)
  {
    ParsedIsWellFormed(text);
  }

  /** A cell names its service exactly when it is a JSON object with a member `service.name`. */
  lemma NamesServiceIff(cell: Option<string>)
    ensures NamesService(cell) <==>
              cell.Some? && Parse(cell.value).IsJson? && Parse(cell.value).value.JObject?
              && exists m :: m in Parse(cell.value).value.members && m.key == "service.name"
  {
    hide Parse;
    if cell.Some? && Parse(cell.value).IsJson? && Parse(cell.value).value.JObject? {
      ParsedTextIsWellFormed(cell.value);
      var ms := Parse(cell.value).value.members;
      assert WellFormed(Parse(cell.value).value);
      FromMembersView(ms);
      ViewKeys(ms, SERVICE_NAME);
      if exists m :: m in ms && m.key == SERVICE_NAME {
        var m :| m in ms && m.key == SERVICE_NAME;
        var i :| 0 <= i < |ms| && ms[i] == m;
      }
    }
  }

  /** A printed resource passes the check exactly when its attributes end up with a value for
      `service.name`. */
  lemma DecodedNamesServiceIff(attrs: seq<KeyValue>)
    ensures NamesService(Some(Print(AttributesJson(attrs)))) <==> Final(attrs, SERVICE_NAME).Some?
  {
    var ms := Members(attrs);
    AttributesRoundTrip(attrs);
    JsonOfIsWellFormed(KvlistValue(attrs));
    assert Read(Print(AttributesJson(attrs))) == Some(JObject(FromMembers(ms)));
    FromMembersView(ms);
    FinalIsLastWins(attrs, SERVICE_NAME);
  }
}
