/** Records nested in scopes and resources, and the flat rows they are decoded to: what the decoders of
    logs and of traces have in common. `rowOf` is the row of one record in its context. */
module FlatRecords {
  import opened Wrappers
  import opened Widths
  import opened Concats
  import opened Attributes
  import opened Otlp
  import opened DecodedResources
  import Compliance

  datatype ScopeRecords<R> = ScopeRecords(scope: Option<Scope>, records: seq<R>)

  datatype ResourceRecords<R> = ResourceRecords(resource: Option<seq<KeyValue>>, scopes: seq<ScopeRecords<R>>)

  // ---------------------------------------------------------------- the flat map

  function ScopeRows<R, W>(rowOf: (R, Context) -> W, records: seq<R>, ctx: Context): (rows: seq<W>)
    ensures |rows| == |records|
    ensures forall i | 0 <= i < |rows| :: rows[i] == rowOf(records[i], ctx)
  {
    seq(|records|, i requires 0 <= i < |records| => rowOf(records[i], ctx))
  }

  function ResourceParts<R, W>(rowOf: (R, Context) -> W, r: ResourceRecords<R>): (parts: seq<seq<W>>)
    ensures |parts| == |r.scopes|
    ensures forall k | 0 <= k < |parts| :: parts[k] == ScopeRows(rowOf, r.scopes[k].records, ContextOf(r.resource, r.scopes[k].scope))
  {
    seq(|r.scopes|, k requires 0 <= k < |r.scopes| => ScopeRows(rowOf, r.scopes[k].records, ContextOf(r.resource, r.scopes[k].scope)))
  }

  function ResourceRows<R, W>(rowOf: (R, Context) -> W, r: ResourceRecords<R>): seq<W> {
    Concat(ResourceParts(rowOf, r))
  }

  function RequestParts<R, W>(rowOf: (R, Context) -> W, req: seq<ResourceRecords<R>>): (parts: seq<seq<W>>)
    ensures |parts| == |req|
    ensures forall k | 0 <= k < |parts| :: parts[k] == ResourceRows(rowOf, req[k])
  {
    seq(|req|, k requires 0 <= k < |req| => ResourceRows(rowOf, req[k]))
  }

  /** The records of a request in nested order, each with the context of its own resource and scope. */
  function Rows<R, W>(rowOf: (R, Context) -> W, req: seq<ResourceRecords<R>>): seq<W> {
    Concat(RequestParts(rowOf, req))
  }

  // ---------------------------------------------------------------- the counting pass

  /** The pass that sizes the builders counts exactly the records that are then decoded. */
  method CountRecords<R, W>(req: seq<ResourceRecords<R>>, ghost rowOf: (R, Context) -> W) returns (total: nat)
    ensures total == Saturated(|Rows(rowOf, req)|)
    ensures total == if |Rows(rowOf, req)| < 0xFFFF_FFFF_FFFF_FFFF then |Rows(rowOf, req)| else 0xFFFF_FFFF_FFFF_FFFF
  {
    hide ResourceRows;
    total := 0;
    ghost var parts := RequestParts(rowOf, req);
    for k := 0 to |req|
      invariant total == Saturated(|ConcatUpto(parts, k)|)
    {
      ghost var more := |parts[k]|;
      total := CountResource(req[k], total, rowOf);
      assert |ConcatUpto(parts, k + 1)| == |ConcatUpto(parts, k)| + more;
    }
  }

  method CountResource<R, W>(r: ResourceRecords<R>, start: nat, ghost rowOf: (R, Context) -> W) returns (total: nat)
    requires start <= USIZE_MAX
    ensures total == Saturated(start + |ResourceRows(rowOf, r)|)
  {
    hide ContextOf;
    total := start;
    ghost var parts := ResourceParts(rowOf, r);
    for k := 0 to |r.scopes|
      invariant total == Saturated(start + |ConcatUpto(parts, k)|)
    {
      assert |parts[k]| == |r.scopes[k].records|;
      total := Saturated(total + |r.scopes[k].records|);
      assert |ConcatUpto(parts, k + 1)| == |ConcatUpto(parts, k)| + |parts[k]|;
    }
  }

  // ---------------------------------------------------------------- rows and their resources

  /** The resource text of a row is that of its context. */
  ghost predicate KeepsResource<R(!new), W>(rowOf: (R, Context) -> W, textOf: W -> string) {
    forall record: R, ctx: Context :: textOf(rowOf(record, ctx)) == ctx.resource
  }

  function AttrsOf<R>(req: seq<ResourceRecords<R>>): (attrs: seq<seq<KeyValue>>)
    ensures |attrs| == |req|
    ensures forall k | 0 <= k < |req| :: attrs[k] == ResourceAttrs(req[k].resource)
  {
    seq(|req|, k requires 0 <= k < |req| => ResourceAttrs(req[k].resource))
  }

  /** Every resource that has records ends up with a value for `service.name`. */
  ghost predicate ResourcesNameService<R, W>(rowOf: (R, Context) -> W, req: seq<ResourceRecords<R>>) {
    forall k | 0 <= k < |req| :: ResourceRows(rowOf, req[k]) == [] || Final(ResourceAttrs(req[k].resource), SERVICE_NAME).Some?
  }

  /** All rows of a resource carry its own attributes. */
  lemma ResourceRowsShareResource<R(!new), W>(rowOf: (R, Context) -> W, textOf: W -> string, r: ResourceRecords<R>)
    requires KeepsResource(rowOf, textOf)
    ensures All(Carries(textOf, ResourceAttrs(r.resource)), ResourceRows(rowOf, r))
  {
    var p := Carries(textOf, ResourceAttrs(r.resource));
    AllUpto(p, ResourceParts(rowOf, r), |r.scopes|);
  }

  /** A batch whose resource column holds the texts of the rows passes the compliance check exactly when
      the resource of every record ends up with a value for `service.name`. */
  lemma CompliantIff<R(!new), W>(rowOf: (R, Context) -> W, textOf: W -> string, req: seq<ResourceRecords<R>>,
                                 b: Compliance.Batch, col: nat, texts: seq<string>)
    requires KeepsResource(rowOf, textOf)
    requires Compliance.FindColumn(b.columns, RESOURCE_COLUMN) == col < |b.columns| && b.columns[col].data == TextColumn(texts)
    requires |texts| == |Rows(rowOf, req)| && forall i | 0 <= i < |texts| :: texts[i] == textOf(Rows(rowOf, req)[i])
    ensures Compliance.EveryRowNamesService(b) <==> ResourcesNameService(rowOf, req)
  {
    hide Compliance.EveryRowNamesService, All, Carries, KeepsResource;
    ColumnDecides(b, col, texts);
    TextsOfRows(textOf, Rows(rowOf, req), texts);
    forall k | 0 <= k < |req| ensures All(Carries(textOf, AttrsOf(req)[k]), RequestParts(rowOf, req)[k]) {
      ResourceRowsShareResource(rowOf, textOf, req[k]);
    }
    PartsNameServiceIff(textOf, RequestParts(rowOf, req), AttrsOf(req));
  }
}
