/** The read-only laptop catalog and the lists of known brand, processor and
    operating-system names derived from it when the service starts. */
module Catalog {
  import opened Wrappers

  /** One row of the catalog. The three columns the handler matches against
      may be missing (a NaN cell), which `None` stands for. */
  datatype Record = Record(
    modelName: string,
    brand: Option<string>,
    processorName: Option<string>,
    operatingSystem: Option<string>,
    price: int,
    ramGb: int,
    ssdGb: int,
    specScore: int)

  function BrandColumn(rs: seq<Record>): (col: seq<Option<string>>)
    ensures |col| == |rs| && forall i :: 0 <= i < |rs| ==> col[i] == rs[i].brand
  {
    seq(|rs|, i requires 0 <= i < |rs| => rs[i].brand)
  }

  function ProcessorColumn(rs: seq<Record>): (col: seq<Option<string>>)
    ensures |col| == |rs| && forall i :: 0 <= i < |rs| ==> col[i] == rs[i].processorName
  {
    seq(|rs|, i requires 0 <= i < |rs| => rs[i].processorName)
  }

  function OsColumn(rs: seq<Record>): (col: seq<Option<string>>)
    ensures |col| == |rs| && forall i :: 0 <= i < |rs| ==> col[i] == rs[i].operatingSystem
  {
    seq(|rs|, i requires 0 <= i < |rs| => rs[i].operatingSystem)
  }

  predicate Distinct(s: seq<string>)
  {
    forall i, j :: 0 <= i < j < |s| ==> s[i] != s[j]
  }

  /** `column.dropna().unique().tolist()`: the distinct present values of a
      column, each listed once, in the order of its first occurrence. */
  function KnownValues(col: seq<Option<string>>): (known: seq<string>)
    ensures forall v :: v in known <==> Some(v) in col
    ensures Distinct(known)
  {
    if col == [] then []
    else
      var earlier := KnownValues(col[..|col| - 1]);
      assert col == col[..|col| - 1] + [col[|col| - 1]];
      match col[|col| - 1]
      case None => earlier
      case Some(v) => if v in earlier then earlier else earlier + [v]
  }

  /** The first occurrence of `a` in `col` comes before any occurrence of `b`. */
  ghost predicate FirstSeenBefore(col: seq<Option<string>>, a: string, b: string)
  {
    exists k :: 0 <= k < |col| && col[k] == Some(a) && forall m :: 0 <= m <= k ==> col[m] != Some(b)
  }

  /** Two values cannot each be seen before the other. */
  lemma FirstSeenBeforeAsymmetric(col: seq<Option<string>>, a: string, b: string)
    requires FirstSeenBefore(col, a, b)
    ensures !FirstSeenBefore(col, b, a)
  {
  }

  /** The known values are listed in the order in which the catalog first
      mentions them: this order decides which name wins when a message
      mentions several. */
  lemma {:induction false} KnownValuesInFirstSeenOrder(col: seq<Option<string>>, i: nat, j: nat)
    requires i < j < |KnownValues(col)|
    ensures FirstSeenBefore(col, KnownValues(col)[i], KnownValues(col)[j])
  {
    var n := |col|;
    var init := col[..n - 1];
    var earlier := KnownValues(init);
    var known := KnownValues(col);
    assert known == earlier || (col[n - 1].Some? && known == earlier + [col[n - 1].value]);
    var a, b := known[i], known[j];
    if j < |earlier| {
      KnownValuesInFirstSeenOrder(init, i, j);
      var k :| 0 <= k < |init| && init[k] == Some(a) && forall m :: 0 <= m <= k ==> init[m] != Some(b);
      assert forall m :: 0 <= m <= k ==> col[m] == init[m];
    } else {
      assert b !in earlier && a in earlier;
      assert Some(a) in init && Some(b) !in init;
      var k :| 0 <= k < |init| && init[k] == Some(a);
      assert forall m :: 0 <= m <= k ==> col[m] == init[m];
    }
  }

  /** The catalog as the handler sees it: the records in file order and the
      three known-value lists computed from them once, at start-up. */
  datatype Catalog = Catalog(
    records: seq<Record>,
    brands: seq<string>,
    processors: seq<string>,
    oses: seq<string>)
  {
    ghost predicate Valid()
    {
      && brands == KnownValues(BrandColumn(records))
      && processors == KnownValues(ProcessorColumn(records))
      && oses == KnownValues(OsColumn(records))
    }
  }

  /** Builds the catalog context from the loaded records: every known name
      occurs verbatim in some record, every present name is known, and none
      is listed twice. */
  function Load(records: seq<Record>): (c: Catalog)
    ensures c.Valid() && c.records == records
    ensures forall b :: b in c.brands <==> exists i :: 0 <= i < |records| && records[i].brand == Some(b)
    ensures forall p :: p in c.processors <==> exists i :: 0 <= i < |records| && records[i].processorName == Some(p)
    ensures forall o :: o in c.oses <==> exists i :: 0 <= i < |records| && records[i].operatingSystem == Some(o)
    ensures Distinct(c.brands) && Distinct(c.processors) && Distinct(c.oses)
  {
    Catalog(records, KnownValues(BrandColumn(records)), KnownValues(ProcessorColumn(records)),
            KnownValues(OsColumn(records)))
  }
}
