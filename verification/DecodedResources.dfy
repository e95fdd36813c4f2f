/** When a decoded batch passes the compliance check: what the three decoders have in common. */
module DecodedResources {
  import opened Wrappers
  import opened Json
  import opened Attributes
  import opened Concats
  import Compliance

  const RESOURCE_COLUMN := "resource_attributes"

  function TextColumn(texts: seq<string>): Compliance.Data {
    Compliance.Utf8(seq(|texts|, i requires 0 <= i < |texts| => Some(texts[i])))
  }

  predicate TextsNameService(texts: seq<string>) {
    forall i | 0 <= i < |texts| :: Compliance.NamesService(Some(texts[i]))
  }

  /** The row's resource text names a service. */
  function RowNamesService<R>(textOf: R -> string): R -> bool {
    (row: R) => Compliance.NamesService(Some(textOf(row)))
  }

  /** Every row carries the printed form of these attributes. */
  function Carries<R>(textOf: R -> string, attrs: seq<KeyValue>): R -> bool {
    (row: R) => textOf(row) == Print(AttributesJson(attrs))
  }

  lemma ColumnDecides(b: Compliance.Batch, col: nat, texts: seq<string>)
    requires Compliance.FindColumn(b.columns, RESOURCE_COLUMN) == col < |b.columns|
    requires b.columns[col].data == TextColumn(texts)
    ensures Compliance.EveryRowNamesService(b) <==> TextsNameService(texts)
  {
    hide Compliance.NamesService;
    var cells := TextColumn(texts).cells;
    assert forall i | 0 <= i < |texts| :: cells[i] == Some(texts[i]);
  }

  lemma TextsOfRows<R>(textOf: R -> string, rows: seq<R>, texts: seq<string>)
    requires |texts| == |rows| && forall i | 0 <= i < |rows| :: texts[i] == textOf(rows[i])
    ensures TextsNameService(texts) <==> All(RowNamesService(textOf), rows)
  {
    hide Compliance.NamesService;
  }

  lemma RowsOfOneResource<R>(textOf: R -> string, rows: seq<R>, attrs: seq<KeyValue>)
    requires All(Carries(textOf, attrs), rows)
    ensures All(RowNamesService(textOf), rows) <==> rows == [] || Final(attrs, SERVICE_NAME).Some?
  {
    Compliance.DecodedNamesServiceIff(attrs);
    hide Compliance.NamesService, Print, AttributesJson, Final;
    if rows != [] {
      assert textOf(rows[0]) == Print(AttributesJson(attrs));
    }
  }

  /** The rows of all resources name their services exactly when every resource that has rows ends up
      with a value for `service.name`. */
  lemma PartsNameServiceIff<R>(textOf: R -> string, parts: seq<seq<R>>, attrs: seq<seq<KeyValue>>)
    requires |parts| == |attrs| && forall k | 0 <= k < |parts| :: All(Carries(textOf, attrs[k]), parts[k])
    ensures All(RowNamesService(textOf), Concat(parts)) <==>
            forall k | 0 <= k < |parts| :: parts[k] == [] || Final(attrs[k], SERVICE_NAME).Some?
  {
    hide All, Carries, RowNamesService, Final;
    AllUpto(RowNamesService(textOf), parts, |parts|);
    forall k | 0 <= k < |parts|
      ensures All(RowNamesService(textOf), parts[k]) <==> parts[k] == [] || Final(attrs[k], SERVICE_NAME).Some?
    {
      RowsOfOneResource(textOf, parts[k], attrs[k]);
    }
  }
}
