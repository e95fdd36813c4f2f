/** Decoding OTLP logs: nested records appended to thirteen column builders, with one reused
    buffer for the resource and one for everything formatted per record. */
module Logs {
  import opened Wrappers
  import opened Widths
  import opened Concats
  import opened TextBuffers
  import opened Json
  import opened Attributes
  import opened AttributeWriter
  import opened Otlp
  import opened DecodedResources
  import opened FlatRecords
  import Compliance

  datatype LogRecord = LogRecord(
    time: nat, observed: nat, severityNumber: int, severityText: string, body: Option<AnyValue>,
    traceId: seq<byte>, spanId: seq<byte>, flags: nat, attrs: seq<KeyValue>)

  type ResourceLogs = ResourceRecords<LogRecord>

  // ---------------------------------------------------------------- the flat map

  datatype LogRow = LogRow(
    time: nat, observed: nat, severityNumber: int, severityText: string, body: string, traceId: string, spanId: string,
    flags: nat, attributes: string, context: Context)

  function BodyText(body: Option<AnyValue>): string {
    match body case None => "" case Some(v) => Rendered(v)
  }

  function RowOf(log: LogRecord, ctx: Context): LogRow {
    LogRow(log.time, log.observed, log.severityNumber, log.severityText, BodyText(log.body), Hex(log.traceId), Hex(log.spanId),
           log.flags, Print(AttributesJson(log.attrs)), ctx)
  }

  /** Both timestamps are representable. */
  predicate TimeFits(row: LogRow) {
    row.time <= I64_MAX && row.observed <= I64_MAX
  }

  predicate TimesFit(rows: seq<LogRow>) {
    All(TimeFits, rows)
  }

  // ---------------------------------------------------------------- the builders

  datatype LogsBatch = LogsBatch(
    timestamp: seq<int>, observed: seq<int>, severityNumber: seq<int>, severityText: seq<string>, body: seq<string>,
    traceId: seq<string>, spanId: seq<string>, flags: seq<nat>, attributes: seq<string>,
    serviceName: seq<string>, resourceAttributes: seq<string>, scopeName: seq<string>, scopeVersion: seq<string>)

  predicate SameLengths(b: LogsBatch) {
    && |b.timestamp| == |b.observed| == |b.severityNumber| == |b.severityText| == |b.body| == |b.traceId| == |b.spanId|
    && |b.timestamp| == |b.flags| == |b.attributes| == |b.serviceName| == |b.resourceAttributes| == |b.scopeName| == |b.scopeVersion|
  }

  function ContextAt(b: LogsBatch, i: nat): Context
    requires SameLengths(b) && i < |b.timestamp|
  {
    Context(b.serviceName[i], b.resourceAttributes[i], b.scopeName[i], b.scopeVersion[i])
  }

  /** Every column has one entry per row, and row by row they are `rows`. */
  ghost predicate Aligned(b: LogsBatch, rows: seq<LogRow>) {
    && SameLengths(b) && |b.timestamp| == |rows|
    && (forall i | 0 <= i < |rows| :: b.timestamp[i] == rows[i].time && b.observed[i] == rows[i].observed)
    && (forall i | 0 <= i < |rows| ::
          rows[i] == LogRow(rows[i].time, rows[i].observed, b.severityNumber[i], b.severityText[i], b.body[i],
                            b.traceId[i], b.spanId[i], b.flags[i], b.attributes[i], ContextAt(b, i)))
  }

  /** The columns with one more row. */
  ghost function Extended(b: LogsBatch, row: LogRow): LogsBatch {
    LogsBatch(b.timestamp + [row.time], b.observed + [row.observed], b.severityNumber + [row.severityNumber],
              b.severityText + [row.severityText], b.body + [row.body], b.traceId + [row.traceId], b.spanId + [row.spanId],
              b.flags + [row.flags], b.attributes + [row.attributes], b.serviceName + [row.context.service],
              b.resourceAttributes + [row.context.resource], b.scopeName + [row.context.scopeName],
              b.scopeVersion + [row.context.scopeVersion])
  }

  lemma ExtendedIsAligned(b: LogsBatch, rows: seq<LogRow>, row: LogRow)
    requires Aligned(b, rows)
    ensures Aligned(Extended(b, row), rows + [row])
  {
    var e, all := Extended(b, row), rows + [row];
    forall i | 0 <= i < |all|
      ensures e.timestamp[i] == all[i].time && e.observed[i] == all[i].observed
      ensures all[i] == LogRow(all[i].time, all[i].observed, e.severityNumber[i], e.severityText[i], e.body[i],
                               e.traceId[i], e.spanId[i], e.flags[i], e.attributes[i], ContextAt(e, i))
    {
      if i < |rows| {
        assert rows[i].context == ContextAt(b, i);
      }
    }
  }

  class LogsBuilders {
    var timestamp: seq<int>
    var observed: seq<int>
    var severityNumber: seq<int>
    var severityText: seq<string>
    var body: seq<string>
    var traceId: seq<string>
    var spanId: seq<string>
    var flags: seq<nat>
    var attributes: seq<string>
    var serviceName: seq<string>
    var resourceAttributes: seq<string>
    var scopeName: seq<string>
    var scopeVersion: seq<string>

    constructor ()
      ensures Columns() == LogsBatch([], [], [], [], [], [], [], [], [], [], [], [], [])
    {
      timestamp, observed, severityNumber, severityText, body, traceId, spanId := [], [], [], [], [], [], [];
      flags, attributes, serviceName, resourceAttributes, scopeName, scopeVersion := [], [], [], [], [], [];
    }

    function Columns(): LogsBatch
      reads this
    {
      LogsBatch(timestamp, observed, severityNumber, severityText, body, traceId, spanId,
                flags, attributes, serviceName, resourceAttributes, scopeName, scopeVersion)
    }

    method AppendTimes(log: LogRecord) returns (ok: bool)
      modifies this
      ensures ok <==> log.time <= I64_MAX && log.observed <= I64_MAX
      ensures ok ==> Columns() == old(Columns()).(timestamp := old(timestamp) + [log.time], observed := old(observed) + [log.observed])
      ensures !ok ==> Columns() == if log.time <= I64_MAX then old(Columns()).(timestamp := old(timestamp) + [log.time]) else old(Columns())
    {
      var nanos := TimestampToI64(log.time);
      if nanos.None? {
        return false;
      }
      timestamp := timestamp + [nanos.value];
      var observedNanos := TimestampToI64(log.observed);
      if observedNanos.None? {
        return false;
      }
      observed := observed + [observedNanos.value];
      return true;
    }

    method AppendContent(log: LogRecord, scratch: TextBuffer)
      modifies this, scratch
      ensures Columns() == old(Columns()).(
                severityNumber := old(severityNumber) + [log.severityNumber], severityText := old(severityText) + [log.severityText],
                body := old(body) + [BodyText(log.body)])
    {
      hide BodyText;
      severityNumber := severityNumber + [log.severityNumber];
      severityText := severityText + [log.severityText];
      var bodyText := FormatBody(scratch, log.body);
      body := body + [bodyText];
    }

    method AppendIds(log: LogRecord)
      modifies this
      ensures Columns() == old(Columns()).(
                traceId := old(traceId) + [Hex(log.traceId)], spanId := old(spanId) + [Hex(log.spanId)], flags := old(flags) + [log.flags])
    {
      hide Hex;
      traceId := traceId + [Hex(log.traceId)];
      spanId := spanId + [Hex(log.spanId)];
      flags := flags + [log.flags];
    }

    method AppendContext(attrs: seq<KeyValue>, ctx: Context, scratch: TextBuffer)
      modifies this, scratch
      ensures Columns() == old(Columns()).(
                attributes := old(attributes) + [Print(AttributesJson(attrs))], serviceName := old(serviceName) + [ctx.service],
                resourceAttributes := old(resourceAttributes) + [ctx.resource], scopeName := old(scopeName) + [ctx.scopeName],
                scopeVersion := old(scopeVersion) + [ctx.scopeVersion])
    {
      WriteAttributesJson(scratch, attrs);
      attributes := attributes + [scratch.text];
      serviceName := serviceName + [ctx.service];
      resourceAttributes := resourceAttributes + [ctx.resource];
      scopeName := scopeName + [ctx.scopeName];
      scopeVersion := scopeVersion + [ctx.scopeVersion];
    }

    /** Appends one record column by column. A timestamp out of range stops it half way, with ragged
        columns; `scratch` is overwritten twice, first by the body and then by the attributes. */
    method AppendLog(log: LogRecord, ctx: Context, scratch: TextBuffer, ghost rows: seq<LogRow>) returns (ok: bool)
      requires Aligned(Columns(), rows)
      modifies this, scratch
      ensures ok <==> log.time <= I64_MAX && log.observed <= I64_MAX
      ensures ok ==> Aligned(Columns(), rows + [RowOf(log, ctx)])
      ensures !ok ==> |severityNumber| == |scopeVersion| == |rows| && |timestamp| == |rows| + if log.time <= I64_MAX then 1 else 0
    {
      ghost var before := Columns();
      ok := AppendTimes(log);
      if !ok {
        return;
      }
      AppendContent(log, scratch);
      AppendIds(log);
      AppendContext(log.attrs, ctx, scratch);
      assert Columns() == Extended(before, RowOf(log, ctx));
      ExtendedIsAligned(before, rows, RowOf(log, ctx));
    }
  }

  /** The text appended for a body; only compound values and numbers go through `scratch`. */
  method FormatBody(scratch: TextBuffer, body: Option<AnyValue>) returns (text: string)
    modifies scratch
    ensures text == BodyText(body)
  {
    match body {
      case None => text := "";
      case Some(Unset) => text := "";
      case Some(StringValue(s)) => text := s;
      case Some(BoolValue(b)) => text := if b then "true" else "false";
      case Some(BytesValue(bytes)) => text := Hex(bytes);
      case Some(v) =>
        scratch.Clear();
        WriteAnyValueString(scratch, v);
        text := scratch.text;
    }
  }

  // ---------------------------------------------------------------- decode_logs

  method DecodeScope(builders: LogsBuilders, records: seq<LogRecord>, ctx: Context, scratch: TextBuffer, ghost before: seq<LogRow>)
    returns (ok: bool)
    requires Aligned(builders.Columns(), before)
    modifies builders, scratch
    ensures ok <==> TimesFit(ScopeRows(RowOf, records, ctx))
    ensures ok ==> Aligned(builders.Columns(), before + ScopeRows(RowOf, records, ctx))
  {
    hide Aligned;
    ghost var rows := ScopeRows(RowOf, records, ctx);
    assert before + rows[..0] == before;
    for k := 0 to |records|
      invariant Aligned(builders.Columns(), before + rows[..k])
      invariant TimesFit(rows[..k])
    {
      assert rows[k] == RowOf(records[k], ctx);
      var appended := builders.AppendLog(records[k], ctx, scratch, before + rows[..k]);
      if !appended {
        return false;
      }
      assert before + rows[..k] + [rows[k]] == before + rows[..k + 1];
    }
    assert rows[..|records|] == rows;
    return true;
  }

  method DecodeResource(builders: LogsBuilders, r: ResourceLogs, resourceAttrsJson: TextBuffer, scratch: TextBuffer,
                        ghost before: seq<LogRow>)
    returns (ok: bool)
    requires Aligned(builders.Columns(), before) && resourceAttrsJson != scratch
    modifies builders, scratch, resourceAttrsJson
    ensures ok <==> TimesFit(ResourceRows(RowOf, r))
    ensures ok ==> Aligned(builders.Columns(), before + ResourceRows(RowOf, r))
  {
    hide Aligned, All, AttributesJson, Print, ServiceName;
    var serviceName := FormatResource(r.resource, resourceAttrsJson);
    NothingIsAligned();
    ghost var parts := ResourceParts(RowOf, r);
    assert before + [] == before;
    for k := 0 to |r.scopes|
      invariant resourceAttrsJson.text == Print(AttributesJson(ResourceAttrs(r.resource)))
      invariant Aligned(builders.Columns(), before + ConcatUpto(parts, k))
      invariant TimesFit(ConcatUpto(parts, k))
    {
      ConcatStep(TimeFits, parts, k, before);
      var scope := r.scopes[k].scope;
      var ctx := Context(serviceName, resourceAttrsJson.text,
                         if scope.None? then "" else scope.value.name, if scope.None? then "" else scope.value.version);
      assert ctx == ContextOf(r.resource, scope);
      ok := DecodeScope(builders, r.scopes[k].records, ctx, scratch, before + ConcatUpto(parts, k));
      if !ok {
        return false;
      }
    }
    return true;
  }

  lemma NothingIsAligned()
    ensures Aligned(LogsBatch([], [], [], [], [], [], [], [], [], [], [], [], []), []) && TimesFit([])
  {
  }

  lemma AlignedIsRegular(b: LogsBatch, rows: seq<LogRow>)
    requires Aligned(b, rows)
    ensures SameLengths(b)
  {
  }

  /** Assembling a batch refuses columns of different lengths. */
  method TryNew(columns: LogsBatch) returns (batch: Option<LogsBatch>)
    ensures batch == if SameLengths(columns) then Some(columns) else None
  {
    return if SameLengths(columns) then Some(columns) else None;
  }

  /** Succeeds exactly when both timestamps of every record fit, and then every column holds one entry
      per record, in nested order; nothing of an earlier record or resource shows in a later one. */
  method DecodeLogs(req: seq<ResourceLogs>) returns (batch: Option<LogsBatch>, capacity: nat)
    ensures capacity == Saturated(|Rows(RowOf, req)|)
    ensures batch.Some? <==> TimesFit(Rows(RowOf, req))
    ensures batch.Some? ==> Aligned(batch.value, Rows(RowOf, req))
  {
    hide Aligned, All, ResourceRows, SameLengths;
    capacity := CountRecords(req, RowOf);
    var builders := new LogsBuilders();
    var resourceAttrsJson := new TextBuffer();
    var scratch := new TextBuffer();
    ghost var parts := RequestParts(RowOf, req);
    NothingIsAligned();
    for k := 0 to |req|
      invariant fresh(builders) && fresh(scratch) && fresh(resourceAttrsJson)
      invariant Aligned(builders.Columns(), ConcatUpto(parts, k))
      invariant TimesFit(ConcatUpto(parts, k))
    {
      ConcatStep(TimeFits, parts, k, []);
      var ok := DecodeResource(builders, req[k], resourceAttrsJson, scratch, ConcatUpto(parts, k));
      if !ok {
        return None, capacity;
      }
    }
    AlignedIsRegular(builders.Columns(), Rows(RowOf, req));
    batch := TryNew(builders.Columns());
  }

  // ---------------------------------------------------------------- decoded batches and compliance

  function AsBatch(b: LogsBatch): Compliance.Batch {
    Compliance.Batch([
      Compliance.Column("timestamp", Compliance.OtherData(0)),
      Compliance.Column("observed_timestamp", Compliance.OtherData(1)),
      Compliance.Column("severity_number", Compliance.OtherData(2)),
      Compliance.Column("severity_text", TextColumn(b.severityText)),
      Compliance.Column("body", TextColumn(b.body)),
      Compliance.Column("trace_id", TextColumn(b.traceId)),
      Compliance.Column("span_id", TextColumn(b.spanId)),
      Compliance.Column("flags", Compliance.OtherData(3)),
      Compliance.Column("attributes", TextColumn(b.attributes)),
      Compliance.Column("service_name", TextColumn(b.serviceName)),
      Compliance.Column("resource_attributes", TextColumn(b.resourceAttributes)),
      Compliance.Column("scope_name", TextColumn(b.scopeName)),
      Compliance.Column("scope_version", TextColumn(b.scopeVersion))
    ], map[], |b.scopeName|)
  }

  function ResourceText(row: LogRow): string {
    row.context.resource
  }

  lemma RowsKeepResource()
    ensures KeepsResource(RowOf, ResourceText)
  {
  }

  lemma FindResourceAttributes(b: LogsBatch)
    ensures Compliance.FindColumn(AsBatch(b).columns, RESOURCE_COLUMN) == 10
  {
    var names := Compliance.Names(AsBatch(b).columns);
    assert names[10] == RESOURCE_COLUMN;
    assert forall j | 0 <= j < 10 :: names[j][0] != 'r';
    assert RESOURCE_COLUMN[0] == 'r';
  }

  lemma AlignedResources(b: LogsBatch, rows: seq<LogRow>)
    requires Aligned(b, rows)
    ensures |b.resourceAttributes| == |rows|
    ensures forall i | 0 <= i < |rows| :: b.resourceAttributes[i] == ResourceText(rows[i])
  {
  }

  /** A decoded batch passes the compliance check exactly when the resource of every record ends up
      with a value for `service.name`. */
  lemma DecodedIsCompliantIff(req: seq<ResourceLogs>, b: LogsBatch)
    requires Aligned(b, Rows(RowOf, req))
    ensures Compliance.EveryRowNamesService(AsBatch(b)) <==> ResourcesNameService(RowOf, req)
  {
    hide Aligned, Compliance.EveryRowNamesService, KeepsResource, Rows, ResourcesNameService;
    RowsKeepResource();
    FindResourceAttributes(b);
    AlignedResources(b, Rows(RowOf, req));
    CompliantIff(RowOf, ResourceText, req, AsBatch(b), 10, b.resourceAttributes);
  }
}
