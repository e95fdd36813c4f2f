/** The columns of a decoded batch, told from the request: which record stands at which position, and what
    each column says about it to a reader. */
module DecodedColumns {
  import opened Wrappers
  import opened Json
  import opened Concats
  import opened Attributes
  import opened AttributeReading
  import opened Otlp
  import opened FlatRecords
  import Logs
  import Traces
  import Metrics

  // ---------------------------------------------------------------- records in nested order

  /** A record with the resource and the scope it came in. */
  datatype Located<R> = Located(record: R, resource: Option<seq<KeyValue>>, scope: Option<Scope>)

  function FlatScope<R>(records: seq<R>, resource: Option<seq<KeyValue>>, scope: Option<Scope>): seq<Located<R>> {
    if records == [] then [] else [Located(records[0], resource, scope)] + FlatScope(records[1..], resource, scope)
  }

  function FlatScopes<R>(scopes: seq<ScopeRecords<R>>, resource: Option<seq<KeyValue>>): seq<Located<R>> {
    if scopes == [] then [] else FlatScope(scopes[0].records, resource, scopes[0].scope) + FlatScopes(scopes[1..], resource)
  }

  /** All records of a request, resource by resource and scope by scope. */
  function Flat<R>(req: seq<ResourceRecords<R>>): seq<Located<R>> {
    if req == [] then [] else FlatScopes(req[0].scopes, req[0].resource) + Flat(req[1..])
  }

  ghost predicate Pairwise<A, B>(p: (A, B) -> bool, xs: seq<A>, ys: seq<B>) {
    |xs| == |ys| && forall i | 0 <= i < |xs| :: p(xs[i], ys[i])
  }

  lemma PairwiseAppend<A, B>(p: (A, B) -> bool, a: seq<A>, b: seq<A>, x: seq<B>, y: seq<B>)
    requires Pairwise(p, a, x) && Pairwise(p, b, y)
    ensures Pairwise(p, a + b, x + y)
  {
  }

  lemma {:induction false} ConcatUptoCons<T>(parts: seq<seq<T>>, k: nat)
    requires 0 < k <= |parts|
    ensures ConcatUpto(parts, k) == parts[0] + ConcatUpto(parts[1..], k - 1)
  {
    if k > 1 {
      ConcatUptoCons(parts, k - 1);
      assert parts[1..][k - 2] == parts[k - 1];
      assert ConcatUpto(parts, k) == parts[0] + ConcatUpto(parts[1..], k - 2) + parts[1..][k - 2];
    } else {
      assert ConcatUpto(parts, 1) == ConcatUpto(parts, 0) + parts[0];
    }
  }

  /** What holds of the row of every record holds of all rows and records, in order. */
  ghost predicate Suits<R(!new), W>(rowOf: (R, Context) -> W, p: (W, Located<R>) -> bool) {
    forall record: R, resource: Option<seq<KeyValue>>, scope: Option<Scope> ::
      p(rowOf(record, ContextOf(resource, scope)), Located(record, resource, scope))
  }

  lemma {:induction false} ScopeIsFlat<R(!new), W>(rowOf: (R, Context) -> W, p: (W, Located<R>) -> bool, records: seq<R>,
                                                   resource: Option<seq<KeyValue>>, scope: Option<Scope>)
    requires Suits(rowOf, p)
    ensures Pairwise(p, ScopeRows(rowOf, records, ContextOf(resource, scope)), FlatScope(records, resource, scope))
  {
    hide ContextOf;
    if records != [] {
      var ctx := ContextOf(resource, scope);
      ScopeIsFlat(rowOf, p, records[1..], resource, scope);
      assert ScopeRows(rowOf, records, ctx) == [rowOf(records[0], ctx)] + ScopeRows(rowOf, records[1..], ctx);
      PairwiseAppend(p, [rowOf(records[0], ctx)], ScopeRows(rowOf, records[1..], ctx),
                     [Located(records[0], resource, scope)], FlatScope(records[1..], resource, scope));
    }
  }

  lemma {:induction false} ScopesAreFlat<R(!new), W>(rowOf: (R, Context) -> W, p: (W, Located<R>) -> bool,
                                                     resource: Option<seq<KeyValue>>, scopes: seq<ScopeRecords<R>>)
    requires Suits(rowOf, p)
    ensures Pairwise(p, ResourceRows(rowOf, ResourceRecords(resource, scopes)), FlatScopes(scopes, resource))
    decreases |scopes|
  {
    hide ContextOf, Suits, Pairwise, ScopeRows, FlatScope;
    var r := ResourceRecords(resource, scopes);
    if scopes == [] {
      NothingPairs(p);
    } else {
      var tail := ResourceRecords(resource, scopes[1..]);
      ScopesAreFlat(rowOf, p, resource, scopes[1..]);
      ScopeIsFlat(rowOf, p, scopes[0].records, resource, scopes[0].scope);
      ConcatUptoCons(ResourceParts(rowOf, r), |scopes|);
      assert ResourceParts(rowOf, r)[1..] == ResourceParts(rowOf, tail);
      PairwiseAppend(p, ResourceParts(rowOf, r)[0], ResourceRows(rowOf, tail),
                     FlatScope(scopes[0].records, resource, scopes[0].scope), FlatScopes(scopes[1..], resource));
    }
  }

  lemma NothingPairs<A, B>(p: (A, B) -> bool)
    ensures Pairwise(p, [], [])
  {
  }

  /** The rows of a request are those of its records, one for one and in nested order. */
  lemma {:induction false} RowsAreFlat<R(!new), W>(rowOf: (R, Context) -> W, p: (W, Located<R>) -> bool, req: seq<ResourceRecords<R>>)
    requires Suits(rowOf, p)
    ensures Pairwise(p, Rows(rowOf, req), Flat(req))
  {
    hide Suits, Pairwise, ResourceRows, FlatScopes;
    if req == [] {
      NothingPairs(p);
    } else {
      RowsAreFlat(rowOf, p, req[1..]);
      ScopesAreFlat(rowOf, p, req[0].resource, req[0].scopes);
      assert req[0] == ResourceRecords(req[0].resource, req[0].scopes);
      ConcatUptoCons(RequestParts(rowOf, req), |req|);
      assert RequestParts(rowOf, req)[1..] == RequestParts(rowOf, req[1..]);
      PairwiseAppend(p, ResourceRows(rowOf, req[0]), Rows(rowOf, req[1..]), FlatScopes(req[0].scopes, req[0].resource), Flat(req[1..]));
    }
  }

  // ---------------------------------------------------------------- texts

  /** The text is JSON for these attributes. */
  ghost predicate IsAttributesText(text: string, attrs: seq<KeyValue>) {
    Parse(text).IsJson? && Stands(Parse(text).value, KvlistValue(attrs))
  }

  lemma AttributesTextIs(attrs: seq<KeyValue>)
    ensures IsAttributesText(Print(AttributesJson(attrs)), attrs)
  {
    PrintStands(KvlistValue(attrs));
  }

  ghost predicate IsServiceText(text: string, attrs: seq<KeyValue>) {
    && (forall i | 0 <= i < |attrs| && attrs[i].key == "service.name" && IsFinal(attrs, i) :: Shows(text, attrs[i].value.value))
    && ((forall i | 0 <= i < |attrs| && attrs[i].key == "service.name" :: !IsFinal(attrs, i)) ==> text == "unknown")
  }

  /** The four texts of a record's resource and scope; what is missing counts as empty. */
  ghost predicate IsContext(service: string, resourceText: string, scopeName: string, scopeVersion: string,
                            resource: Option<seq<KeyValue>>, scope: Option<Scope>) {
    var attrs := match resource case None => [] case Some(a) => a;
    && IsServiceText(service, attrs) && IsAttributesText(resourceText, attrs)
    && scopeName == (match scope case None => "" case Some(s) => s.name)
    && scopeVersion == (match scope case None => "" case Some(s) => s.version)
  }

  lemma ContextIs(resource: Option<seq<KeyValue>>, scope: Option<Scope>)
    ensures var c := ContextOf(resource, scope);
            IsContext(c.service, c.resource, c.scopeName, c.scopeVersion, resource, scope)
  {
    hide IsAttributesText, Shows, ServiceName, IsFinal;
    ServiceNameShows(ResourceAttrs(resource));
    AttributesTextIs(ResourceAttrs(resource));
  }

  // ---------------------------------------------------------------- traces

  ghost predicate IsSpanRow(row: Traces.SpanRow, l: Located<Traces.Span>) {
    && BytesOf(row.traceId) == Some(l.record.traceId) && BytesOf(row.spanId) == Some(l.record.spanId)
    && BytesOf(row.parentSpanId) == Some(l.record.parentSpanId)
    && row.traceState == l.record.traceState && row.name == l.record.name && row.kind == l.record.kind
    && row.start == l.record.start && row.end == l.record.end
    && IsAttributesText(row.attributes, l.record.attrs)
    && IsContext(row.context.service, row.context.resource, row.context.scopeName, row.context.scopeVersion, l.resource, l.scope)
    && row.status.code == (match l.record.status case None => 0 case Some(s) => s.code)
    && row.status.message == (match l.record.status case None => "" case Some(s) => s.message)
  }

  lemma SpanRowsSuit()
    ensures Suits(Traces.RowOf, IsSpanRow)
  {
    hide BytesOf, IsAttributesText, IsContext, ContextOf, Hex, Print, AttributesJson;
    forall span: Traces.Span, resource: Option<seq<KeyValue>>, scope: Option<Scope>
      ensures IsSpanRow(Traces.RowOf(span, ContextOf(resource, scope)), Located(span, resource, scope))
    {
      HexReadsBack(span.traceId);
      HexReadsBack(span.spanId);
      HexReadsBack(span.parentSpanId);
      AttributesTextIs(span.attrs);
      ContextIs(resource, scope);
    }
  }

  /** Position `n` of every column of a batch of spans is about this span. */
  ghost predicate HoldsSpan(b: Traces.TracesBatch, n: nat, l: Located<Traces.Span>)
    requires Traces.SameLengths(b) && n < |b.traceId|
  {
    && BytesOf(b.traceId[n]) == Some(l.record.traceId) && BytesOf(b.spanId[n]) == Some(l.record.spanId)
    && BytesOf(b.parentSpanId[n]) == Some(l.record.parentSpanId)
    && b.traceState[n] == l.record.traceState && b.name[n] == l.record.name && b.kind[n] == l.record.kind
    && b.timestamp[n] == l.record.start && b.endTime[n] == l.record.end
    && IsAttributesText(b.attributes[n], l.record.attrs)
    && IsContext(b.serviceName[n], b.resourceAttributes[n], b.scopeName[n], b.scopeVersion[n], l.resource, l.scope)
    && b.statusCode[n] == (match l.record.status case None => 0 case Some(s) => s.code)
    && b.statusMessage[n] == (match l.record.status case None => "" case Some(s) => s.message)
  }

  /** A decoded batch holds the spans of its request, each in its place in every column. */
  lemma SpanColumns(req: seq<Traces.ResourceSpans>, b: Traces.TracesBatch)
    requires Traces.Aligned(b, Rows(Traces.RowOf, req))
    ensures |b.traceId| == |Flat(req)| && forall n | 0 <= n < |Flat(req)| :: HoldsSpan(b, n, Flat(req)[n])
  {
    hide Suits, Rows, Flat, BytesOf, IsAttributesText, IsContext;
    SpanRowsSuit();
    RowsAreFlat(Traces.RowOf, IsSpanRow, req);
    var rows := Rows(Traces.RowOf, req);
    forall n | 0 <= n < |rows| ensures HoldsSpan(b, n, Flat(req)[n]) {
      assert IsSpanRow(rows[n], Flat(req)[n]);
      assert rows[n].context == Traces.ContextAt(b, n);
    }
  }

  /** A request can be decoded exactly when all its times fit into 63 bits. */
  lemma SpansFitIff(req: seq<Traces.ResourceSpans>)
    ensures Traces.TimesFit(Rows(Traces.RowOf, req)) <==>
              forall n | 0 <= n < |Flat(req)| ::
                Flat(req)[n].record.start < 0x8000_0000_0000_0000 && Flat(req)[n].record.end < 0x8000_0000_0000_0000
  {
    hide Suits, Rows, Flat, BytesOf, IsAttributesText, IsContext;
    SpanRowsSuit();
    RowsAreFlat(Traces.RowOf, IsSpanRow, req);
    var rows := Rows(Traces.RowOf, req);
    forall n | 0 <= n < |rows| ensures Traces.TimeFits(rows[n]) <==>
      Flat(req)[n].record.start < 0x8000_0000_0000_0000 && Flat(req)[n].record.end < 0x8000_0000_0000_0000
    {
      assert IsSpanRow(rows[n], Flat(req)[n]);
    }
  }

  // ---------------------------------------------------------------- logs

  ghost predicate IsLogRow(row: Logs.LogRow, l: Located<Logs.LogRecord>) {
    && row.time == l.record.time && row.observed == l.record.observed
    && row.severityNumber == l.record.severityNumber && row.severityText == l.record.severityText
    && (match l.record.body case None => row.body == "" case Some(v) => Shows(row.body, v))
    && BytesOf(row.traceId) == Some(l.record.traceId) && BytesOf(row.spanId) == Some(l.record.spanId) && row.flags == l.record.flags
    && IsAttributesText(row.attributes, l.record.attrs)
    && IsContext(row.context.service, row.context.resource, row.context.scopeName, row.context.scopeVersion, l.resource, l.scope)
  }

  lemma LogRowsSuit()
    ensures Suits(Logs.RowOf, IsLogRow)
  {
    hide BytesOf, IsAttributesText, IsContext, ContextOf, Hex, Print, AttributesJson, Shows, Rendered;
    forall log: Logs.LogRecord, resource: Option<seq<KeyValue>>, scope: Option<Scope>
      ensures IsLogRow(Logs.RowOf(log, ContextOf(resource, scope)), Located(log, resource, scope))
    {
      HexReadsBack(log.traceId);
      HexReadsBack(log.spanId);
      AttributesTextIs(log.attrs);
      ContextIs(resource, scope);
      if log.body.Some? {
        RenderedShows(log.body.value);
      }
    }
  }

  /** Position `n` of every column of a batch of logs is about this record. */
  ghost predicate HoldsLog(b: Logs.LogsBatch, n: nat, l: Located<Logs.LogRecord>)
    requires Logs.SameLengths(b) && n < |b.timestamp|
  {
    && b.timestamp[n] == l.record.time && b.observed[n] == l.record.observed
    && b.severityNumber[n] == l.record.severityNumber && b.severityText[n] == l.record.severityText
    && (match l.record.body case None => b.body[n] == "" case Some(v) => Shows(b.body[n], v))
    && BytesOf(b.traceId[n]) == Some(l.record.traceId) && BytesOf(b.spanId[n]) == Some(l.record.spanId) && b.flags[n] == l.record.flags
    && IsAttributesText(b.attributes[n], l.record.attrs)
    && IsContext(b.serviceName[n], b.resourceAttributes[n], b.scopeName[n], b.scopeVersion[n], l.resource, l.scope)
  }

  /** A decoded batch holds the log records of its request, each in its place in every column. */
  lemma LogColumns(req: seq<Logs.ResourceLogs>, b: Logs.LogsBatch)
    requires Logs.Aligned(b, Rows(Logs.RowOf, req))
    ensures |b.timestamp| == |Flat(req)| && forall n | 0 <= n < |Flat(req)| :: HoldsLog(b, n, Flat(req)[n])
  {
    hide Suits, Rows, Flat, BytesOf, IsAttributesText, IsContext, Shows;
    LogRowsSuit();
    RowsAreFlat(Logs.RowOf, IsLogRow, req);
    var rows := Rows(Logs.RowOf, req);
    forall n | 0 <= n < |rows| ensures HoldsLog(b, n, Flat(req)[n]) {
      assert IsLogRow(rows[n], Flat(req)[n]);
      assert rows[n].context == Logs.ContextAt(b, n);
    }
  }

  lemma LogsFitIff(req: seq<Logs.ResourceLogs>)
    ensures Logs.TimesFit(Rows(Logs.RowOf, req)) <==>
              forall n | 0 <= n < |Flat(req)| ::
                Flat(req)[n].record.time < 0x8000_0000_0000_0000 && Flat(req)[n].record.observed < 0x8000_0000_0000_0000
  {
    hide Suits, Rows, Flat, BytesOf, IsAttributesText, IsContext, Shows;
    LogRowsSuit();
    RowsAreFlat(Logs.RowOf, IsLogRow, req);
    var rows := Rows(Logs.RowOf, req);
    forall n | 0 <= n < |rows| ensures Logs.TimeFits(rows[n]) <==>
      Flat(req)[n].record.time < 0x8000_0000_0000_0000 && Flat(req)[n].record.observed < 0x8000_0000_0000_0000
    {
      assert IsLogRow(rows[n], Flat(req)[n]);
    }
  }

  // ---------------------------------------------------------------- metrics

  /** A data point with its metric. */
  datatype Point = Number(metric: Metrics.Metric, number: Metrics.NumberPoint) | Histogram(metric: Metrics.Metric, histogram: Metrics.HistogramPoint)

  function NumbersOf(m: Metrics.Metric, points: seq<Metrics.NumberPoint>): (r: seq<Point>)
    ensures |r| == |points| && forall i | 0 <= i < |points| :: r[i] == Number(m, points[i])
  {
    seq(|points|, i requires 0 <= i < |points| => Number(m, points[i]))
  }

  function HistogramsOf(m: Metrics.Metric, points: seq<Metrics.HistogramPoint>): (r: seq<Point>)
    ensures |r| == |points| && forall i | 0 <= i < |points| :: r[i] == Histogram(m, points[i])
  {
    seq(|points|, i requires 0 <= i < |points| => Histogram(m, points[i]))
  }

  /** The points of gauges, sums and histograms; other metrics have none here. */
  function PointsOf(m: Metrics.Metric): seq<Point> {
    if m.data.None? then []
    else if m.data.value.Gauge? || m.data.value.Sum? then NumbersOf(m, m.data.value.points)
    else if m.data.value.Histogram? then HistogramsOf(m, m.data.value.histograms)
    else []
  }

  function FlatMetrics(metrics: seq<Metrics.Metric>): seq<Point> {
    if metrics == [] then [] else PointsOf(metrics[0]) + FlatMetrics(metrics[1..])
  }

  /** The same request with its points as records. */
  function PointScopes(scopes: seq<Metrics.ScopeMetrics>): (r: seq<ScopeRecords<Point>>)
    ensures |r| == |scopes|
    ensures forall i | 0 <= i < |r| :: r[i] == ScopeRecords(scopes[i].scope, FlatMetrics(scopes[i].metrics))
  {
    seq(|scopes|, i requires 0 <= i < |scopes| => ScopeRecords(scopes[i].scope, FlatMetrics(scopes[i].metrics)))
  }

  function PointRequest(req: seq<Metrics.ResourceMetrics>): (r: seq<ResourceRecords<Point>>)
    ensures |r| == |req|
    ensures forall i | 0 <= i < |r| :: r[i] == ResourceRecords(req[i].resource, PointScopes(req[i].scopes))
  {
    seq(|req|, i requires 0 <= i < |req| => ResourceRecords(req[i].resource, PointScopes(req[i].scopes)))
  }

  ghost function PointRow(conv: int -> F64): (Point, Context) -> Metrics.MetricRow {
    (p: Point, ctx: Context) =>
      match p
      case Number(m, number) => Metrics.RowOf(m, ctx, number.time, Metrics.NumberOf(conv, number.value), number.attrs)
      case Histogram(m, h) => Metrics.RowOf(m, ctx, h.time, Metrics.HistogramValue(conv, h), h.attrs)
  }

  lemma MetricIsPoints(conv: int -> F64, m: Metrics.Metric, ctx: Context)
    ensures Metrics.MetricRows(conv, m, ctx) == ScopeRows(PointRow(conv), PointsOf(m), ctx)
  {
    hide Metrics.RowOf;
  }

  lemma {:induction false} MetricsArePoints(conv: int -> F64, metrics: seq<Metrics.Metric>, ctx: Context)
    ensures Concat(Metrics.ScopeParts(conv, metrics, ctx)) == ScopeRows(PointRow(conv), FlatMetrics(metrics), ctx)
  {
    hide Metrics.MetricRows, PointsOf, PointRow;
    if metrics != [] {
      var parts := Metrics.ScopeParts(conv, metrics, ctx);
      MetricsArePoints(conv, metrics[1..], ctx);
      ConcatUptoCons(parts, |parts|);
      assert parts[1..] == Metrics.ScopeParts(conv, metrics[1..], ctx);
      MetricIsPoints(conv, metrics[0], ctx);
      var a, b := PointsOf(metrics[0]), FlatMetrics(metrics[1..]);
      assert ScopeRows(PointRow(conv), a + b, ctx) == ScopeRows(PointRow(conv), a, ctx) + ScopeRows(PointRow(conv), b, ctx);
    }
  }

  lemma RequestIsPoints(conv: int -> F64, req: seq<Metrics.ResourceMetrics>)
    ensures Metrics.Rows(conv, req) == Rows(PointRow(conv), PointRequest(req))
  {
    hide Metrics.MetricRows, PointsOf, PointRow, FlatMetrics, ContextOf, ConcatUpto;
    forall k | 0 <= k < |req| ensures Metrics.ResourceRows(conv, req[k]) == ResourceRows(PointRow(conv), PointRequest(req)[k]) {
      var r, p := req[k], PointRequest(req)[k];
      forall j | 0 <= j < |r.scopes| ensures Metrics.ResourceParts(conv, r)[j] == ResourceParts(PointRow(conv), p)[j] {
        MetricsArePoints(conv, r.scopes[j].metrics, ContextOf(r.resource, r.scopes[j].scope));
      }
      assert Metrics.ResourceParts(conv, r) == ResourceParts(PointRow(conv), p);
    }
    assert Metrics.RequestParts(conv, req) == RequestParts(PointRow(conv), PointRequest(req));
  }

  ghost predicate IsValue(conv: int -> F64, value: F64, p: Point) {
    match p
    case Number(_, number) =>
      if number.value.None? then value == 0
      else if number.value.value.AsDouble? then value == number.value.value.d else value == conv(number.value.value.i)
    case Histogram(_, h) => if h.sum.Some? then value == h.sum.value else value == conv(h.count)
  }

  ghost function IsPointRow(conv: int -> F64): (Metrics.MetricRow, Located<Point>) -> bool {
    (row: Metrics.MetricRow, l: Located<Point>) =>
      && row.name == l.record.metric.name && row.desc == l.record.metric.desc && row.unit_ == l.record.metric.unit_
      && row.time == (if l.record.Number? then l.record.number.time else l.record.histogram.time)
      && IsValue(conv, row.value, l.record)
      && IsAttributesText(row.attributes, if l.record.Number? then l.record.number.attrs else l.record.histogram.attrs)
      && IsContext(row.context.service, row.context.resource, row.context.scopeName, row.context.scopeVersion, l.resource, l.scope)
  }

  lemma PointRowsSuit(conv: int -> F64)
    ensures Suits(PointRow(conv), IsPointRow(conv))
  {
    hide IsAttributesText, IsContext, ContextOf, Print, AttributesJson;
    forall p: Point, resource: Option<seq<KeyValue>>, scope: Option<Scope>
      ensures IsPointRow(conv)(PointRow(conv)(p, ContextOf(resource, scope)), Located(p, resource, scope))
    {
      AttributesTextIs(if p.Number? then p.number.attrs else p.histogram.attrs);
      ContextIs(resource, scope);
    }
  }

  /** Position `n` of every column of a batch of metrics is about this point. */
  ghost predicate HoldsPoint(conv: int -> F64, b: Metrics.MetricsBatch, n: nat, l: Located<Point>)
    requires n < |b.name| == |b.desc| == |b.unit_| == |b.timestamp| == |b.value| == |b.attributes|
    requires |b.name| == |b.serviceName| == |b.resourceAttributes| == |b.scopeName| == |b.scopeVersion|
  {
    && b.name[n] == l.record.metric.name && b.desc[n] == l.record.metric.desc && b.unit_[n] == l.record.metric.unit_
    && b.timestamp[n] == (if l.record.Number? then l.record.number.time else l.record.histogram.time)
    && IsValue(conv, b.value[n], l.record)
    && IsAttributesText(b.attributes[n], if l.record.Number? then l.record.number.attrs else l.record.histogram.attrs)
    && IsContext(b.serviceName[n], b.resourceAttributes[n], b.scopeName[n], b.scopeVersion[n], l.resource, l.scope)
  }

  /** A decoded batch holds the data points of its request, each in its place in every column: a histogram
      point with its sum when it has one, and with its count otherwise. */
  lemma PointColumns(conv: int -> F64, req: seq<Metrics.ResourceMetrics>, b: Metrics.MetricsBatch)
    requires Metrics.Aligned(b, Metrics.Rows(conv, req))
    ensures var points := Flat(PointRequest(req));
            |b.name| == |points| && forall n | 0 <= n < |points| :: HoldsPoint(conv, b, n, points[n])
  {
    hide Suits, Rows, Flat, IsAttributesText, IsContext, IsValue, Metrics.Rows, PointRow;
    PointRowsSuit(conv);
    RowsAreFlat(PointRow(conv), IsPointRow(conv), PointRequest(req));
    RequestIsPoints(conv, req);
    var rows, points := Metrics.Rows(conv, req), Flat(PointRequest(req));
    forall n | 0 <= n < |rows| ensures HoldsPoint(conv, b, n, points[n]) {
      assert IsPointRow(conv)(rows[n], points[n]);
      assert rows[n].context == Context(b.serviceName[n], b.resourceAttributes[n], b.scopeName[n], b.scopeVersion[n]);
    }
  }

  lemma PointsFitIff(conv: int -> F64, req: seq<Metrics.ResourceMetrics>)
    ensures Metrics.TimesFit(Metrics.Rows(conv, req)) <==>
              forall n | 0 <= n < |Flat(PointRequest(req))| :: TimeOf(Flat(PointRequest(req))[n].record) < 0x8000_0000_0000_0000
  {
    hide Suits, Rows, Flat, IsAttributesText, IsContext, IsValue, Metrics.Rows, PointRow;
    PointRowsSuit(conv);
    RowsAreFlat(PointRow(conv), IsPointRow(conv), PointRequest(req));
    RequestIsPoints(conv, req);
    var rows, points := Metrics.Rows(conv, req), Flat(PointRequest(req));
    forall n | 0 <= n < |rows| ensures Metrics.TimeFits(rows[n]) <==> TimeOf(points[n].record) < 0x8000_0000_0000_0000 {
      assert IsPointRow(conv)(rows[n], points[n]);
    }
  }

  function TimeOf(p: Point): nat {
    if p.Number? then p.number.time else p.histogram.time
  }
}
