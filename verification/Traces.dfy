/** Decoding OTLP traces: nested spans appended to fifteen column builders, with one reused buffer for
    the resource and one for the attributes of each span. */
module Traces {
  import opened Wrappers
  import opened Widths
  import opened Concats
  import opened TextBuffers
  import opened Json
  import opened Attributes
  import opened AttributeWriter
  import opened Otlp
  import opened DecodedResources
  import opened FlatRecords
  import Compliance

  datatype SpanStatus = SpanStatus(code: int, message: string)

  datatype Span = Span(
    traceId: seq<byte>, spanId: seq<byte>, traceState: string, parentSpanId: seq<byte>, name: string, kind: int,
    start: nat, end: nat, attrs: seq<KeyValue>, status: Option<SpanStatus>)

  type ResourceSpans = ResourceRecords<Span>

  // ---------------------------------------------------------------- the flat map

  datatype SpanRow = SpanRow(
    traceId: string, spanId: string, traceState: string, parentSpanId: string, name: string, kind: int,
    start: nat, end: nat, attributes: string, context: Context, status: SpanStatus)

  /** A span without a status gets code 0 and no message. */
  function StatusOf(status: Option<SpanStatus>): SpanStatus {
    if status.Some? then status.value else SpanStatus(0, "")
  }

  function RowOf(span: Span, ctx: Context): SpanRow {
    SpanRow(Hex(span.traceId), Hex(span.spanId), span.traceState, Hex(span.parentSpanId), span.name, span.kind,
            span.start, span.end, Print(AttributesJson(span.attrs)), ctx, StatusOf(span.status))
  }

  /** Both timestamps are representable. */
  predicate TimeFits(row: SpanRow) {
    row.start <= I64_MAX && row.end <= I64_MAX
  }

  predicate TimesFit(rows: seq<SpanRow>) {
    All(TimeFits, rows)
  }

  // ---------------------------------------------------------------- the builders

  datatype TracesBatch = TracesBatch(
    traceId: seq<string>, spanId: seq<string>, traceState: seq<string>, parentSpanId: seq<string>, name: seq<string>,
    kind: seq<int>, timestamp: seq<int>, endTime: seq<int>, attributes: seq<string>, serviceName: seq<string>,
    resourceAttributes: seq<string>, scopeName: seq<string>, scopeVersion: seq<string>,
    statusCode: seq<int>, statusMessage: seq<string>)

  predicate SameLengths(b: TracesBatch) {
    && |b.traceId| == |b.spanId| == |b.traceState| == |b.parentSpanId| == |b.name| == |b.kind| == |b.timestamp| == |b.endTime|
    && |b.traceId| == |b.attributes| == |b.serviceName| == |b.resourceAttributes| == |b.scopeName| == |b.scopeVersion|
    && |b.traceId| == |b.statusCode| == |b.statusMessage|
  }

  function ContextAt(b: TracesBatch, i: nat): Context
    requires SameLengths(b) && i < |b.traceId|
  {
    Context(b.serviceName[i], b.resourceAttributes[i], b.scopeName[i], b.scopeVersion[i])
  }

  /** Every column has one entry per row, and row by row they are `rows`. */
  ghost predicate Aligned(b: TracesBatch, rows: seq<SpanRow>) {
    && SameLengths(b) && |b.traceId| == |rows|
    && (forall i | 0 <= i < |rows| :: b.timestamp[i] == rows[i].start && b.endTime[i] == rows[i].end)
    && (forall i | 0 <= i < |rows| ::
          rows[i] == SpanRow(b.traceId[i], b.spanId[i], b.traceState[i], b.parentSpanId[i], b.name[i], b.kind[i],
                             rows[i].start, rows[i].end, b.attributes[i], ContextAt(b, i),
                             SpanStatus(b.statusCode[i], b.statusMessage[i])))
  }

  /** The columns with one more row. */
  ghost function Extended(b: TracesBatch, row: SpanRow): TracesBatch {
    TracesBatch(b.traceId + [row.traceId], b.spanId + [row.spanId], b.traceState + [row.traceState],
                b.parentSpanId + [row.parentSpanId], b.name + [row.name], b.kind + [row.kind], b.timestamp + [row.start],
                b.endTime + [row.end], b.attributes + [row.attributes], b.serviceName + [row.context.service],
                b.resourceAttributes + [row.context.resource], b.scopeName + [row.context.scopeName],
                b.scopeVersion + [row.context.scopeVersion], b.statusCode + [row.status.code],
                b.statusMessage + [row.status.message])
  }

  lemma ExtendedIsAligned(b: TracesBatch, rows: seq<SpanRow>, row: SpanRow)
    requires Aligned(b, rows)
    ensures Aligned(Extended(b, row), rows + [row])
  {
    var e, all := Extended(b, row), rows + [row];
    forall i | 0 <= i < |all|
      ensures e.timestamp[i] == all[i].start && e.endTime[i] == all[i].end
      ensures all[i] == SpanRow(e.traceId[i], e.spanId[i], e.traceState[i], e.parentSpanId[i], e.name[i], e.kind[i],
                                all[i].start, all[i].end, e.attributes[i], ContextAt(e, i),
                                SpanStatus(e.statusCode[i], e.statusMessage[i]))
    {
      if i < |rows| {
        assert rows[i].context == ContextAt(b, i);
      }
    }
  }

  class TracesBuilders {
    var traceId: seq<string>
    var spanId: seq<string>
    var traceState: seq<string>
    var parentSpanId: seq<string>
    var name: seq<string>
    var kind: seq<int>
    var timestamp: seq<int>
    var endTime: seq<int>
    var attributes: seq<string>
    var serviceName: seq<string>
    var resourceAttributes: seq<string>
    var scopeName: seq<string>
    var scopeVersion: seq<string>
    var statusCode: seq<int>
    var statusMessage: seq<string>

    constructor ()
      ensures Columns() == TracesBatch([], [], [], [], [], [], [], [], [], [], [], [], [], [], [])
    {
      traceId, spanId, traceState, parentSpanId, name, kind, timestamp, endTime := [], [], [], [], [], [], [], [];
      attributes, serviceName, resourceAttributes, scopeName, scopeVersion := [], [], [], [], [];
      statusCode, statusMessage := [], [];
    }

    function Columns(): TracesBatch
      reads this
    {
      TracesBatch(traceId, spanId, traceState, parentSpanId, name, kind, timestamp, endTime, attributes, serviceName,
                  resourceAttributes, scopeName, scopeVersion, statusCode, statusMessage)
    }

    method AppendIdentity(span: Span)
      modifies this
      ensures Columns() == old(Columns()).(
                traceId := old(traceId) + [Hex(span.traceId)], spanId := old(spanId) + [Hex(span.spanId)],
                traceState := old(traceState) + [span.traceState], parentSpanId := old(parentSpanId) + [Hex(span.parentSpanId)])
    {
      hide Hex;
      traceId := traceId + [Hex(span.traceId)];
      spanId := spanId + [Hex(span.spanId)];
      traceState := traceState + [span.traceState];
      parentSpanId := parentSpanId + [Hex(span.parentSpanId)];
    }

    method AppendName(span: Span)
      modifies this
      ensures Columns() == old(Columns()).(name := old(name) + [span.name], kind := old(kind) + [span.kind])
    {
      name := name + [span.name];
      kind := kind + [span.kind];
    }

    method AppendTimes(span: Span) returns (ok: bool)
      modifies this
      ensures ok <==> span.start <= I64_MAX && span.end <= I64_MAX
      ensures ok ==> Columns() == old(Columns()).(timestamp := old(timestamp) + [span.start], endTime := old(endTime) + [span.end])
      ensures !ok ==> Columns() == if span.start <= I64_MAX then old(Columns()).(timestamp := old(timestamp) + [span.start]) else old(Columns())
    {
      var nanos := TimestampToI64(span.start);
      if nanos.None? {
        return false;
      }
      timestamp := timestamp + [nanos.value];
      var endNanos := TimestampToI64(span.end);
      if endNanos.None? {
        return false;
      }
      endTime := endTime + [endNanos.value];
      return true;
    }

    method AppendContext(attrs: seq<KeyValue>, ctx: Context, scratch: TextBuffer)
      modifies this, scratch
      ensures Columns() == old(Columns()).(
                attributes := old(attributes) + [Print(AttributesJson(attrs))], serviceName := old(serviceName) + [ctx.service],
                resourceAttributes := old(resourceAttributes) + [ctx.resource], scopeName := old(scopeName) + [ctx.scopeName],
                scopeVersion := old(scopeVersion) + [ctx.scopeVersion])
    {
      WriteAttributesJson(scratch, attrs);
      attributes := attributes + [scratch.text];
      serviceName := serviceName + [ctx.service];
      resourceAttributes := resourceAttributes + [ctx.resource];
      scopeName := scopeName + [ctx.scopeName];
      scopeVersion := scopeVersion + [ctx.scopeVersion];
    }

    method AppendStatus(status: Option<SpanStatus>)
      modifies this
      ensures Columns() == old(Columns()).(
                statusCode := old(statusCode) + [StatusOf(status).code], statusMessage := old(statusMessage) + [StatusOf(status).message])
    {
      if status.Some? {
        statusCode := statusCode + [status.value.code];
        statusMessage := statusMessage + [status.value.message];
      } else {
        statusCode := statusCode + [0];
        statusMessage := statusMessage + [""];
      }
    }

    /** Appends one span column by column. A timestamp out of range stops it when six or seven columns
        are already one entry longer. */
    method AppendSpan(span: Span, ctx: Context, scratch: TextBuffer, ghost rows: seq<SpanRow>) returns (ok: bool)
      requires Aligned(Columns(), rows)
      modifies this, scratch
      ensures ok <==> span.start <= I64_MAX && span.end <= I64_MAX
      ensures ok ==> Aligned(Columns(), rows + [RowOf(span, ctx)])
      ensures !ok ==> |traceId| == |kind| == |rows| + 1 && |endTime| == |statusMessage| == |rows|
                      && |timestamp| == |rows| + if span.start <= I64_MAX then 1 else 0
    {
      ghost var before := Columns();
      AppendIdentity(span);
      AppendName(span);
      ok := AppendTimes(span);
      if !ok {
        return;
      }
      AppendContext(span.attrs, ctx, scratch);
      AppendStatus(span.status);
      assert Columns() == Extended(before, RowOf(span, ctx));
      ExtendedIsAligned(before, rows, RowOf(span, ctx));
    }
  }

  // ---------------------------------------------------------------- decode_traces

  method DecodeScope(builders: TracesBuilders, records: seq<Span>, ctx: Context, scratch: TextBuffer, ghost before: seq<SpanRow>)
    returns (ok: bool)
    requires Aligned(builders.Columns(), before)
    modifies builders, scratch
    ensures ok <==> TimesFit(ScopeRows(RowOf, records, ctx))
    ensures ok ==> Aligned(builders.Columns(), before + ScopeRows(RowOf, records, ctx))
  {
    hide Aligned;
    ghost var rows := ScopeRows(RowOf, records, ctx);
    assert before + rows[..0] == before;
    for k := 0 to |records|
      invariant Aligned(builders.Columns(), before + rows[..k])
      invariant TimesFit(rows[..k])
    {
      assert rows[k] == RowOf(records[k], ctx);
      var appended := builders.AppendSpan(records[k], ctx, scratch, before + rows[..k]);
      if !appended {
        return false;
      }
      assert before + rows[..k] + [rows[k]] == before + rows[..k + 1];
    }
    assert rows[..|records|] == rows;
    return true;
  }

  method DecodeResource(builders: TracesBuilders, r: ResourceSpans, resourceAttrsJson: TextBuffer, scratch: TextBuffer,
                        ghost before: seq<SpanRow>)
    returns (ok: bool)
    requires Aligned(builders.Columns(), before) && resourceAttrsJson != scratch
    modifies builders, scratch, resourceAttrsJson
    ensures ok <==> TimesFit(ResourceRows(RowOf, r))
    ensures ok ==> Aligned(builders.Columns(), before + ResourceRows(RowOf, r))
  {
    hide Aligned, All, AttributesJson, Print, ServiceName;
    var serviceName := FormatResource(r.resource, resourceAttrsJson);
    NothingIsAligned();
    ghost var parts := ResourceParts(RowOf, r);
    assert before + [] == before;
    for k := 0 to |r.scopes|
      invariant resourceAttrsJson.text == Print(AttributesJson(ResourceAttrs(r.resource)))
      invariant Aligned(builders.Columns(), before + ConcatUpto(parts, k))
      invariant TimesFit(ConcatUpto(parts, k))
    {
      ConcatStep(TimeFits, parts, k, before);
      var scope := r.scopes[k].scope;
      var ctx := Context(serviceName, resourceAttrsJson.text,
                         if scope.None? then "" else scope.value.name, if scope.None? then "" else scope.value.version);
      assert ctx == ContextOf(r.resource, scope);
      ok := DecodeScope(builders, r.scopes[k].records, ctx, scratch, before + ConcatUpto(parts, k));
      if !ok {
        return false;
      }
    }
    return true;
  }

  lemma NothingIsAligned()
    ensures Aligned(TracesBatch([], [], [], [], [], [], [], [], [], [], [], [], [], [], []), []) && TimesFit([])
  {
  }

  lemma AlignedIsRegular(b: TracesBatch, rows: seq<SpanRow>)
    requires Aligned(b, rows)
    ensures SameLengths(b)
  {
  }

  /** Assembling a batch refuses columns of different lengths. */
  method TryNew(columns: TracesBatch) returns (batch: Option<TracesBatch>)
    ensures batch == if SameLengths(columns) then Some(columns) else None
  {
    return if SameLengths(columns) then Some(columns) else None;
  }

  /** Succeeds exactly when both timestamps of every span fit, and then every column holds one entry
      per record, in nested order; nothing of an earlier record or resource shows in a later one. */
  method DecodeTraces(req: seq<ResourceSpans>) returns (batch: Option<TracesBatch>, capacity: nat)
    ensures capacity == Saturated(|Rows(RowOf, req)|)
    ensures batch.Some? <==> TimesFit(Rows(RowOf, req))
    ensures batch.Some? ==> Aligned(batch.value, Rows(RowOf, req))
  {
    hide Aligned, All, ResourceRows, SameLengths;
    capacity := CountRecords(req, RowOf);
    var builders := new TracesBuilders();
    var resourceAttrsJson := new TextBuffer();
    var scratch := new TextBuffer();
    ghost var parts := RequestParts(RowOf, req);
    NothingIsAligned();
    for k := 0 to |req|
      invariant fresh(builders) && fresh(scratch) && fresh(resourceAttrsJson)
      invariant Aligned(builders.Columns(), ConcatUpto(parts, k))
      invariant TimesFit(ConcatUpto(parts, k))
    {
      ConcatStep(TimeFits, parts, k, []);
      var ok := DecodeResource(builders, req[k], resourceAttrsJson, scratch, ConcatUpto(parts, k));
      if !ok {
        return None, capacity;
      }
    }
    AlignedIsRegular(builders.Columns(), Rows(RowOf, req));
    batch := TryNew(builders.Columns());
  }

  // ---------------------------------------------------------------- decoded batches and compliance

  function AsBatch(b: TracesBatch): Compliance.Batch {
    Compliance.Batch([
      Compliance.Column("trace_id", TextColumn(b.traceId)),
      Compliance.Column("span_id", TextColumn(b.spanId)),
      Compliance.Column("trace_state", TextColumn(b.traceState)),
      Compliance.Column("parent_span_id", TextColumn(b.parentSpanId)),
      Compliance.Column("name", TextColumn(b.name)),
      Compliance.Column("kind", Compliance.OtherData(0)),
      Compliance.Column("timestamp", Compliance.OtherData(1)),
      Compliance.Column("end_time", Compliance.OtherData(2)),
      Compliance.Column("attributes", TextColumn(b.attributes)),
      Compliance.Column("service_name", TextColumn(b.serviceName)),
      Compliance.Column("resource_attributes", TextColumn(b.resourceAttributes)),
      Compliance.Column("scope_name", TextColumn(b.scopeName)),
      Compliance.Column("scope_version", TextColumn(b.scopeVersion)),
      Compliance.Column("status_code", Compliance.OtherData(3)),
      Compliance.Column("status_message", TextColumn(b.statusMessage))
    ], map[], |b.scopeName|)
  }

  function ResourceText(row: SpanRow): string {
    row.context.resource
  }

  lemma RowsKeepResource()
    ensures KeepsResource(RowOf, ResourceText)
  {
  }

  lemma FindResourceAttributes(b: TracesBatch)
    ensures Compliance.FindColumn(AsBatch(b).columns, RESOURCE_COLUMN) == 10
  {
    var names := Compliance.Names(AsBatch(b).columns);
    assert names[10] == RESOURCE_COLUMN;
    assert forall j | 0 <= j < 10 :: names[j][0] != 'r';
    assert RESOURCE_COLUMN[0] == 'r';
  }

  lemma AlignedResources(b: TracesBatch, rows: seq<SpanRow>)
    requires Aligned(b, rows)
    ensures |b.resourceAttributes| == |rows|
    ensures forall i | 0 <= i < |rows| :: b.resourceAttributes[i] == ResourceText(rows[i])
  {
  }

  /** A decoded batch passes the compliance check exactly when the resource of every record ends up
      with a value for `service.name`. */
  lemma DecodedIsCompliantIff(req: seq<ResourceSpans>, b: TracesBatch)
    requires Aligned(b, Rows(RowOf, req))
    ensures Compliance.EveryRowNamesService(AsBatch(b)) <==> ResourcesNameService(RowOf, req)
  {
    hide Aligned, Compliance.EveryRowNamesService, KeepsResource, Rows, ResourcesNameService;
    RowsKeepResource();
    FindResourceAttributes(b);
    AlignedResources(b, Rows(RowOf, req));
    CompliantIff(RowOf, ResourceText, req, AsBatch(b), 10, b.resourceAttributes);
  }
}
