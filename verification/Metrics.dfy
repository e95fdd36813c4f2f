/** Decoding OTLP metrics: nested data points appended to ten column builders through two reused
    text buffers. */
module Metrics {
  import opened Wrappers
  import opened Widths
  import opened Concats
  import opened TextBuffers
  import opened Json
  import opened Attributes
  import opened AttributeWriter
  import opened Otlp
  import opened DecodedResources
  import Compliance

  // ---------------------------------------------------------------- the request

  datatype NumberValue = AsDouble(d: F64) | AsInt(i: int)

  datatype NumberPoint = NumberPoint(time: nat, value: Option<NumberValue>, attrs: seq<KeyValue>)

  datatype HistogramPoint = HistogramPoint(time: nat, sum: Option<F64>, count: nat, attrs: seq<KeyValue>)

  datatype MetricData =
    | Gauge(points: seq<NumberPoint>)
    | Sum(points: seq<NumberPoint>)
    | Histogram(histograms: seq<HistogramPoint>)
    | OtherData

  datatype Metric = Metric(name: string, desc: string, unit_: string, data: Option<MetricData>)

  datatype ScopeMetrics = ScopeMetrics(scope: Option<Scope>, metrics: seq<Metric>)

  datatype ResourceMetrics = ResourceMetrics(resource: Option<seq<KeyValue>>, scopes: seq<ScopeMetrics>)

  // ---------------------------------------------------------------- the flat map

  datatype MetricRow = MetricRow(
    name: string, desc: string, unit_: string, time: nat, value: F64, attributes: string, context: Context)

  function NumberOf(conv: int -> F64, v: Option<NumberValue>): F64 {
    match v
    case Some(AsDouble(d)) => d
    case Some(AsInt(i)) => conv(i)
    case None => ZERO
  }

  function RowOf(m: Metric, ctx: Context, time: nat, value: F64, attrs: seq<KeyValue>): MetricRow {
    MetricRow(m.name, m.desc, m.unit_, time, value, Print(AttributesJson(attrs)), ctx)
  }

  function NumberRows(conv: int -> F64, m: Metric, ctx: Context, points: seq<NumberPoint>): (r: seq<MetricRow>)
    ensures |r| == |points|
    ensures forall i | 0 <= i < |r| :: r[i] == RowOf(m, ctx, points[i].time, NumberOf(conv, points[i].value), points[i].attrs)
  {
    seq(|points|, i requires 0 <= i < |points| =>
      RowOf(m, ctx, points[i].time, NumberOf(conv, points[i].value), points[i].attrs))
  }

  function HistogramValue(conv: int -> F64, p: HistogramPoint): F64 {
    if p.sum.Some? then p.sum.value else conv(p.count)
  }

  function HistogramRows(conv: int -> F64, m: Metric, ctx: Context, points: seq<HistogramPoint>): (r: seq<MetricRow>)
    ensures |r| == |points|
    ensures forall i | 0 <= i < |r| :: r[i] == RowOf(m, ctx, points[i].time, HistogramValue(conv, points[i]), points[i].attrs)
  {
    seq(|points|, i requires 0 <= i < |points| =>
      RowOf(m, ctx, points[i].time, HistogramValue(conv, points[i]), points[i].attrs))
  }

  function MetricRows(conv: int -> F64, m: Metric, ctx: Context): seq<MetricRow> {
    match m.data
    case Some(Gauge(points)) => NumberRows(conv, m, ctx, points)
    case Some(Sum(points)) => NumberRows(conv, m, ctx, points)
    case Some(Histogram(points)) => HistogramRows(conv, m, ctx, points)
    case Some(OtherData) => []
    case None => []
  }

  function ScopeParts(conv: int -> F64, metrics: seq<Metric>, ctx: Context): (parts: seq<seq<MetricRow>>)
    ensures |parts| == |metrics|
    ensures forall k | 0 <= k < |metrics| :: parts[k] == MetricRows(conv, metrics[k], ctx)
  {
    seq(|metrics|, k requires 0 <= k < |metrics| => MetricRows(conv, metrics[k], ctx))
  }

  function ResourceParts(conv: int -> F64, r: ResourceMetrics): (parts: seq<seq<MetricRow>>)
    ensures |parts| == |r.scopes|
    ensures forall k | 0 <= k < |parts| :: parts[k] == Concat(ScopeParts(conv, r.scopes[k].metrics, ContextOf(r.resource, r.scopes[k].scope)))
  {
    seq(|r.scopes|, k requires 0 <= k < |r.scopes| => Concat(ScopeParts(conv, r.scopes[k].metrics, ContextOf(r.resource, r.scopes[k].scope))))
  }

  function ResourceRows(conv: int -> F64, r: ResourceMetrics): seq<MetricRow> {
    Concat(ResourceParts(conv, r))
  }

  function RequestParts(conv: int -> F64, req: seq<ResourceMetrics>): (parts: seq<seq<MetricRow>>)
    ensures |parts| == |req|
    ensures forall k | 0 <= k < |parts| :: parts[k] == ResourceRows(conv, req[k])
  {
    seq(|req|, k requires 0 <= k < |req| => ResourceRows(conv, req[k]))
  }

  /** The records of a request in nested order, each with the context of its own resource and scope. */
  function Rows(conv: int -> F64, req: seq<ResourceMetrics>): seq<MetricRow> {
    Concat(RequestParts(conv, req))
  }

  predicate TimeFits(row: MetricRow) {
    row.time <= I64_MAX
  }

  predicate TimesFit(rows: seq<MetricRow>) {
    All(TimeFits, rows)
  }

  // ---------------------------------------------------------------- the builder

  datatype MetricsBatch = MetricsBatch(
    name: seq<string>, desc: seq<string>, unit_: seq<string>, timestamp: seq<int>, value: seq<F64>,
    attributes: seq<string>, serviceName: seq<string>, resourceAttributes: seq<string>,
    scopeName: seq<string>, scopeVersion: seq<string>)

  /** Every column has one entry per row, and row by row they are `rows`. */
  ghost predicate Aligned(b: MetricsBatch, rows: seq<MetricRow>) {
    && |b.name| == |b.desc| == |b.unit_| == |b.timestamp| == |b.value| == |b.attributes| == |rows|
    && |b.serviceName| == |b.resourceAttributes| == |b.scopeName| == |b.scopeVersion| == |rows|
    && forall i | 0 <= i < |rows| ::
         rows[i] == MetricRow(b.name[i], b.desc[i], b.unit_[i], rows[i].time, b.value[i], b.attributes[i],
                              Context(b.serviceName[i], b.resourceAttributes[i], b.scopeName[i], b.scopeVersion[i]))
         && b.timestamp[i] == rows[i].time
  }

  class MetricsRecordBuilder {
    var name: seq<string>
    var desc: seq<string>
    var unit_: seq<string>
    var timestamp: seq<int>
    var value: seq<F64>
    var attributes: seq<string>
    var serviceName: seq<string>
    var resourceAttributes: seq<string>
    var scopeName: seq<string>
    var scopeVersion: seq<string>

    constructor ()
      ensures Columns() == MetricsBatch([], [], [], [], [], [], [], [], [], [])
    {
      name, desc, unit_, timestamp, value := [], [], [], [], [];
      attributes, serviceName, resourceAttributes, scopeName, scopeVersion := [], [], [], [], [];
    }

    function Columns(): MetricsBatch
      reads this
    {
      MetricsBatch(name, desc, unit_, timestamp, value, attributes, serviceName, resourceAttributes, scopeName, scopeVersion)
    }

    /** Fails on a timestamp out of range, and then three columns are already one entry longer. */
    method AppendRecord(row: MetricRow, ghost rows: seq<MetricRow>) returns (ok: bool)
      requires Aligned(Columns(), rows)
      modifies this
      ensures ok <==> row.time <= I64_MAX
      ensures ok ==> Aligned(Columns(), rows + [row])
      ensures !ok ==> |name| == |desc| == |unit_| == |rows| + 1 && |timestamp| == |value| == |scopeVersion| == |rows|
    {
      name := name + [row.name];
      desc := desc + [row.desc];
      unit_ := unit_ + [row.unit_];
      var nanos := TimestampToI64(row.time);
      if nanos.None? {
        return false;
      }
      timestamp := timestamp + [nanos.value];
      value := value + [row.value];
      attributes := attributes + [row.attributes];
      serviceName := serviceName + [row.context.service];
      resourceAttributes := resourceAttributes + [row.context.resource];
      scopeName := scopeName + [row.context.scopeName];
      scopeVersion := scopeVersion + [row.context.scopeVersion];
      return true;
    }
  }

  // ---------------------------------------------------------------- the counting pass

  function PointCount(m: Metric): nat {
    match m.data
    case Some(Gauge(points)) => |points|
    case Some(Sum(points)) => |points|
    case Some(Histogram(points)) => |points|
    case _ => 0
  }

  lemma RowsOfMetricCount(conv: int -> F64, m: Metric, ctx: Context)
    ensures |MetricRows(conv, m, ctx)| == PointCount(m)
  {
  }

  method CountScope(conv: int -> F64, metrics: seq<Metric>, start: nat, ghost ctx: Context) returns (total: nat)
    requires start <= USIZE_MAX
    ensures total == Saturated(start + |Concat(ScopeParts(conv, metrics, ctx))|)
  {
    hide MetricRows, PointCount;
    total := start;
    ghost var parts := ScopeParts(conv, metrics, ctx);
    for k := 0 to |metrics|
      invariant total == Saturated(start + |ConcatUpto(parts, k)|)
    {
      RowsOfMetricCount(conv, metrics[k], ctx);
      total := Saturated(total + PointCount(metrics[k]));
    }
  }

  method CountResource(conv: int -> F64, r: ResourceMetrics, start: nat) returns (total: nat)
    requires start <= USIZE_MAX
    ensures total == Saturated(start + |ResourceRows(conv, r)|)
  {
    hide ContextOf, ScopeParts, Concat;
    total := start;
    ghost var parts := ResourceParts(conv, r);
    for k := 0 to |r.scopes|
      invariant total == Saturated(start + |ConcatUpto(parts, k)|)
    {
      ghost var more := |parts[k]|;
      total := CountScope(conv, r.scopes[k].metrics, total, ContextOf(r.resource, r.scopes[k].scope));
      assert |ConcatUpto(parts, k + 1)| == |ConcatUpto(parts, k)| + more;
    }
    ConcatIsAll(parts);
  }

  /** The pass that sizes the builders counts exactly the records that are then decoded. */
  method CountRecords(conv: int -> F64, req: seq<ResourceMetrics>) returns (total: nat)
    ensures total == Saturated(|Rows(conv, req)|)
    ensures total == if |Rows(conv, req)| < 0xFFFF_FFFF_FFFF_FFFF then |Rows(conv, req)| else 0xFFFF_FFFF_FFFF_FFFF
  {
    hide ResourceRows;
    total := 0;
    ghost var parts := RequestParts(conv, req);
    for k := 0 to |req|
      invariant total == Saturated(|ConcatUpto(parts, k)|)
    {
      ghost var more := |parts[k]|;
      total := CountResource(conv, req[k], total);
      assert |ConcatUpto(parts, k + 1)| == |ConcatUpto(parts, k)| + more;
    }
  }

  // ---------------------------------------------------------------- process_gauge, process_sum, process_histogram

  /** The shared body of gauges and sums. */
  method ProcessNumberPoints(conv: int -> F64, builder: MetricsRecordBuilder, points: seq<NumberPoint>, m: Metric, ctx: Context, scratch: TextBuffer,
                             ghost before: seq<MetricRow>)
    returns (ok: bool)
    requires Aligned(builder.Columns(), before)
    modifies builder, scratch
    ensures ok <==> TimesFit(NumberRows(conv, m, ctx, points))
    ensures ok ==> Aligned(builder.Columns(), before + NumberRows(conv, m, ctx, points))
  {
    ghost var rows := NumberRows(conv, m, ctx, points);
    assert before + rows[..0] == before;
    for k := 0 to |points|
      invariant Aligned(builder.Columns(), before + rows[..k])
      invariant TimesFit(rows[..k])
    {
      var dp := points[k];
      var val := NumberOf(conv, dp.value);
      WriteAttributesJson(scratch, dp.attrs);
      var row := MetricRow(m.name, m.desc, m.unit_, dp.time, val, scratch.text, ctx);
      assert row == rows[k];
      var appended := builder.AppendRecord(row, before + rows[..k]);
      if !appended {
        return false;
      }
      assert before + rows[..k] + [row] == before + rows[..k + 1];
    }
    assert rows[..|points|] == rows;
    return true;
  }

  method ProcessHistogram(conv: int -> F64, builder: MetricsRecordBuilder, points: seq<HistogramPoint>, m: Metric, ctx: Context, scratch: TextBuffer,
                          ghost before: seq<MetricRow>)
    returns (ok: bool)
    requires Aligned(builder.Columns(), before)
    modifies builder, scratch
    ensures ok <==> TimesFit(HistogramRows(conv, m, ctx, points))
    ensures ok ==> Aligned(builder.Columns(), before + HistogramRows(conv, m, ctx, points))
  {
    ghost var rows := HistogramRows(conv, m, ctx, points);
    assert before + rows[..0] == before;
    for k := 0 to |points|
      invariant Aligned(builder.Columns(), before + rows[..k])
      invariant TimesFit(rows[..k])
    {
      var dp := points[k];
      var val := HistogramValue(conv, dp);
      WriteAttributesJson(scratch, dp.attrs);
      var row := MetricRow(m.name, m.desc, m.unit_, dp.time, val, scratch.text, ctx);
      assert row == rows[k];
      var appended := builder.AppendRecord(row, before + rows[..k]);
      if !appended {
        return false;
      }
      assert before + rows[..k] + [row] == before + rows[..k + 1];
    }
    assert rows[..|points|] == rows;
    return true;
  }

  method ProcessMetric(conv: int -> F64, builder: MetricsRecordBuilder, m: Metric, ctx: Context, scratch: TextBuffer, ghost before: seq<MetricRow>)
    returns (ok: bool)
    requires Aligned(builder.Columns(), before)
    modifies builder, scratch
    ensures ok <==> TimesFit(MetricRows(conv, m, ctx))
    ensures ok ==> Aligned(builder.Columns(), before + MetricRows(conv, m, ctx))
  {
    match m.data {
      case Some(Gauge(points)) => ok := ProcessNumberPoints(conv, builder, points, m, ctx, scratch, before);
      case Some(Sum(points)) => ok := ProcessNumberPoints(conv, builder, points, m, ctx, scratch, before);
      case Some(Histogram(points)) => ok := ProcessHistogram(conv, builder, points, m, ctx, scratch, before);
      case _ =>
        assert before + [] == before;
        ok := true;
    }
  }

  method ProcessScope(conv: int -> F64, builder: MetricsRecordBuilder, metrics: seq<Metric>, ctx: Context, scratch: TextBuffer, ghost before: seq<MetricRow>)
    returns (ok: bool)
    requires Aligned(builder.Columns(), before)
    modifies builder, scratch
    ensures ok <==> TimesFit(Concat(ScopeParts(conv, metrics, ctx)))
    ensures ok ==> Aligned(builder.Columns(), before + Concat(ScopeParts(conv, metrics, ctx)))
  {
    hide Aligned, All, MetricRows;
    ghost var parts := ScopeParts(conv, metrics, ctx);
    NothingIsAligned();
    assert before + [] == before;
    for k := 0 to |metrics|
      invariant Aligned(builder.Columns(), before + ConcatUpto(parts, k))
      invariant TimesFit(ConcatUpto(parts, k))
    {
      ConcatStep(TimeFits, parts, k, before);
      ok := ProcessMetric(conv, builder, metrics[k], ctx, scratch, before + ConcatUpto(parts, k));
      if !ok {
        return false;
      }
    }
    return true;
  }

  method ProcessResource(conv: int -> F64, builder: MetricsRecordBuilder, r: ResourceMetrics, resourceAttrsJson: TextBuffer, scratch: TextBuffer,
                         ghost before: seq<MetricRow>)
    returns (ok: bool)
    requires Aligned(builder.Columns(), before) && resourceAttrsJson != scratch
    modifies builder, scratch, resourceAttrsJson
    ensures ok <==> TimesFit(ResourceRows(conv, r))
    ensures ok ==> Aligned(builder.Columns(), before + ResourceRows(conv, r))
  {
    hide Aligned, All, AttributesJson, Print, ServiceName, ScopeParts, Concat;
    var serviceName := FormatResource(r.resource, resourceAttrsJson);
    NothingIsAligned();
    ghost var parts := ResourceParts(conv, r);
    assert before + [] == before;
    for k := 0 to |r.scopes|
      invariant resourceAttrsJson.text == Print(AttributesJson(ResourceAttrs(r.resource)))
      invariant Aligned(builder.Columns(), before + ConcatUpto(parts, k))
      invariant TimesFit(ConcatUpto(parts, k))
    {
      ConcatStep(TimeFits, parts, k, before);
      var scope := r.scopes[k].scope;
      var ctx := Context(serviceName, resourceAttrsJson.text,
                         if scope.None? then "" else scope.value.name, if scope.None? then "" else scope.value.version);
      assert ctx == ContextOf(r.resource, scope);
      ok := ProcessScope(conv, builder, r.scopes[k].metrics, ctx, scratch, before + ConcatUpto(parts, k));
      if !ok {
        return false;
      }
    }
    ConcatIsAll(parts);
    return true;
  }

  predicate SameLengths(b: MetricsBatch) {
    && |b.name| == |b.desc| == |b.unit_| == |b.timestamp| == |b.value| == |b.attributes|
    && |b.name| == |b.serviceName| == |b.resourceAttributes| == |b.scopeName| == |b.scopeVersion|
  }

  lemma NothingIsAligned()
    ensures Aligned(MetricsBatch([], [], [], [], [], [], [], [], [], []), []) && TimesFit([])
  {
  }

  lemma AlignedIsRegular(b: MetricsBatch, rows: seq<MetricRow>)
    requires Aligned(b, rows)
    ensures SameLengths(b)
  {
  }

  /** Assembling a batch refuses columns of different lengths. */
  method TryNew(columns: MetricsBatch) returns (batch: Option<MetricsBatch>)
    ensures batch == if SameLengths(columns) then Some(columns) else None
  {
    return if SameLengths(columns) then Some(columns) else None;
  }

  /** Succeeds exactly when every consumed timestamp fits, and then every column holds one entry per
      record, in nested order. Ragged columns never get out. */
  method DecodeMetrics(conv: int -> F64, req: seq<ResourceMetrics>) returns (batch: Option<MetricsBatch>, capacity: nat)
    ensures capacity == Saturated(|Rows(conv, req)|)
    ensures batch.Some? <==> TimesFit(Rows(conv, req))
    ensures batch.Some? ==> Aligned(batch.value, Rows(conv, req))
  {
    hide Aligned, All, ResourceRows, SameLengths;
    capacity := CountRecords(conv, req);
    var builder := new MetricsRecordBuilder();
    var resourceAttrsJson := new TextBuffer();
    var scratch := new TextBuffer();
    ghost var parts := RequestParts(conv, req);
    NothingIsAligned();
    for k := 0 to |req|
      invariant fresh(builder) && fresh(scratch) && fresh(resourceAttrsJson)
      invariant Aligned(builder.Columns(), ConcatUpto(parts, k))
      invariant TimesFit(ConcatUpto(parts, k))
    {
      ConcatStep(TimeFits, parts, k, []);
      var ok := ProcessResource(conv, builder, req[k], resourceAttrsJson, scratch, ConcatUpto(parts, k));
      if !ok {
        return None, capacity;
      }
    }
    AlignedIsRegular(builder.Columns(), Rows(conv, req));
    batch := TryNew(builder.Columns());
  }

  // ---------------------------------------------------------------- decoded batches and compliance

  function AsBatch(b: MetricsBatch): Compliance.Batch {
    Compliance.Batch([
      Compliance.Column("name", TextColumn(b.name)),
      Compliance.Column("description", TextColumn(b.desc)),
      Compliance.Column("unit", TextColumn(b.unit_)),
      Compliance.Column("timestamp", Compliance.OtherData(0)),
      Compliance.Column("value", Compliance.OtherData(1)),
      Compliance.Column("attributes", TextColumn(b.attributes)),
      Compliance.Column("service_name", TextColumn(b.serviceName)),
      Compliance.Column("resource_attributes", TextColumn(b.resourceAttributes)),
      Compliance.Column("scope_name", TextColumn(b.scopeName)),
      Compliance.Column("scope_version", TextColumn(b.scopeVersion))
    ], map[], |b.scopeName|)
  }

  function ResourceText(row: MetricRow): string {
    row.context.resource
  }

  function AttrsOf(req: seq<ResourceMetrics>): (attrs: seq<seq<KeyValue>>)
    ensures |attrs| == |req|
    ensures forall k | 0 <= k < |req| :: attrs[k] == ResourceAttrs(req[k].resource)
  {
    seq(|req|, k requires 0 <= k < |req| => ResourceAttrs(req[k].resource))
  }

  /** Every resource that has records ends up with a value for `service.name`. */
  predicate ResourcesNameService(conv: int -> F64, req: seq<ResourceMetrics>) {
    forall k | 0 <= k < |req| :: ResourceRows(conv, req[k]) == [] || Final(ResourceAttrs(req[k].resource), SERVICE_NAME).Some?
  }

  lemma MetricRowsShareResource(conv: int -> F64, m: Metric, ctx: Context, attrs: seq<KeyValue>)
    requires ctx.resource == Print(AttributesJson(attrs))
    ensures All(Carries(ResourceText, attrs), MetricRows(conv, m, ctx))
  {
    var rows := MetricRows(conv, m, ctx);
    forall i | 0 <= i < |rows| ensures Carries(ResourceText, attrs)(rows[i]) {
      assert rows[i].context == ctx;
      assert ResourceText(rows[i]) == ctx.resource;
    }
  }

  lemma ScopeRowsShareResource(conv: int -> F64, metrics: seq<Metric>, ctx: Context, attrs: seq<KeyValue>)
    requires ctx.resource == Print(AttributesJson(attrs))
    ensures All(Carries(ResourceText, attrs), Concat(ScopeParts(conv, metrics, ctx)))
  {
    hide MetricRows, All, Carries;
    var parts := ScopeParts(conv, metrics, ctx);
    forall k | 0 <= k < |parts| ensures All(Carries(ResourceText, attrs), parts[k]) {
      MetricRowsShareResource(conv, metrics[k], ctx, attrs);
    }
    AllUpto(Carries(ResourceText, attrs), parts, |metrics|);
  }

  /** All rows of a resource carry its own attributes. */
  lemma ResourceRowsShareResource(conv: int -> F64, r: ResourceMetrics)
    ensures All(Carries(ResourceText, ResourceAttrs(r.resource)), ResourceRows(conv, r))
  {
    hide All, Carries, Print, AttributesJson;
    var p := Carries(ResourceText, ResourceAttrs(r.resource));
    var parts := ResourceParts(conv, r);
    forall k | 0 <= k < |parts| ensures All(p, parts[k]) {
      ScopeRowsShareResource(conv, r.scopes[k].metrics, ContextOf(r.resource, r.scopes[k].scope), ResourceAttrs(r.resource));
    }
    AllUpto(p, parts, |parts|);
  }

  lemma FindResourceAttributes(b: MetricsBatch)
    ensures Compliance.FindColumn(AsBatch(b).columns, RESOURCE_COLUMN) == 7
  {
    var names := Compliance.Names(AsBatch(b).columns);
    assert names[7] == RESOURCE_COLUMN;
    assert forall j | 0 <= j < 7 :: names[j][0] != 'r';
    assert RESOURCE_COLUMN[0] == 'r';
  }

  lemma AlignedResources(b: MetricsBatch, rows: seq<MetricRow>)
    requires Aligned(b, rows)
    ensures |b.resourceAttributes| == |rows|
    ensures forall i | 0 <= i < |rows| :: b.resourceAttributes[i] == ResourceText(rows[i])
  {
  }

  /** A decoded batch passes the compliance check exactly when the resource of every record ends up
      with a value for `service.name`. */
  lemma DecodedIsCompliantIff(conv: int -> F64, req: seq<ResourceMetrics>, b: MetricsBatch)
    requires Aligned(b, Rows(conv, req))
    ensures Compliance.EveryRowNamesService(AsBatch(b)) <==> ResourcesNameService(conv, req)
  {
    hide Aligned, Compliance.EveryRowNamesService, All, Carries;
    FindResourceAttributes(b);
    ColumnDecides(AsBatch(b), 7, b.resourceAttributes);
    AlignedResources(b, Rows(conv, req));
    TextsOfRows(ResourceText, Rows(conv, req), b.resourceAttributes);
    forall k | 0 <= k < |req| ensures All(Carries(ResourceText, AttrsOf(req)[k]), RequestParts(conv, req)[k]) {
      ResourceRowsShareResource(conv, req[k]);
    }
    PartsNameServiceIff(ResourceText, RequestParts(conv, req), AttrsOf(req));
  }
}
