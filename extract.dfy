/** Reading the constraints out of a normalised message: one brand, one
    processor and one operating system chosen by first-match-wins scans of
    the known-value lists, and a price ceiling found by the pattern
    `under\s*₹?\s*(\d+)`. */
module Extract {
  import opened Wrappers
  import opened Text
  import opened Catalog
  import opened Filter

  /** `value.lower() in user_input`. */
  predicate Mentions(u: string, value: string)
  {
    Contains(u, Lower(value))
  }

  /** The first value of the list that the message mentions, if any. */
  function FirstMention(values: seq<string>, u: string): (choice: Option<string>)
    ensures choice.None? <==> forall k :: 0 <= k < |values| ==> !Mentions(u, values[k])
    ensures choice.Some? ==>
              exists k :: 0 <= k < |values| && values[k] == choice.value && Mentions(u, values[k])
                          && forall j :: 0 <= j < k ==> !Mentions(u, values[j])
  {
    if values == [] then None
    else if Mentions(u, values[0]) then Some(values[0])
    else FirstMention(values[1..], u)
  }

  /** The `for value in values: if value.lower() in user_input: ...; break`
      scan of the handler. */
  method ScanFirst(values: seq<string>, u: string) returns (choice: Option<string>)
    ensures choice == FirstMention(values, u)
  {
    choice := None;
    for i := 0 to |values|
      invariant choice == None
      invariant FirstMention(values[i..], u) == FirstMention(values, u)
    {
      if Mentions(u, values[i]) {
        choice := Some(values[i]);
        break;
      }
      assert values[i..][1..] == values[i + 1..];
    }
  }

  /** Two mentioned values: the one listed earlier is never passed over for the later one. */
  lemma EarlierMentionWins(values: seq<string>, u: string, i: nat, j: nat)
    requires Distinct(values)
    requires i < j < |values| && Mentions(u, values[i])
    ensures FirstMention(values, u) != Some(values[j])
  {
  }

  /** For a list of known values read from a catalog column: when the
      message mentions two of them, the one the catalog mentions first is
      never passed over for the other. */
  lemma FirstSeenValueWins(col: seq<Option<string>>, u: string, a: string, b: string)
    requires a in KnownValues(col) && b in KnownValues(col) && a != b
    requires Mentions(u, a) && FirstSeenBefore(col, a, b)
    ensures FirstMention(KnownValues(col), u) != Some(b)
  {
    var known := KnownValues(col);
    var i :| 0 <= i < |known| && known[i] == a;
    var j :| 0 <= j < |known| && known[j] == b;
    if j < i {
      KnownValuesInFirstSeenOrder(col, j, i);
      FirstSeenBeforeAsymmetric(col, a, b);
    } else {
      EarlierMentionWins(known, u, i, j);
    }
  }

  /** The rupee sign that may precede the amount. */
  const Rupee: char := '\U{20B9}'

  /** The end of the run of whitespace starting at `i` (`\s*`). */
  function SpacesEnd(u: string, i: nat): (j: nat)
    requires i <= |u|
    ensures i <= j <= |u|
    ensures forall k :: i <= k < j ==> IsSpace(u[k])
    ensures j == |u| || !IsSpace(u[j])
    decreases |u| - i
  {
    if i < |u| && IsSpace(u[i]) then SpacesEnd(u, i + 1) else i
  }

  /** The end of the run of digits starting at `i` (`\d*`, greedy). */
  function DigitsEnd(u: string, i: nat): (j: nat)
    requires i <= |u|
    ensures i <= j <= |u|
    ensures forall k :: i <= k < j ==> IsDigit(u[k])
    ensures j == |u| || !IsDigit(u[j])
    decreases |u| - i
  {
    if i < |u| && IsDigit(u[i]) then DigitsEnd(u, i + 1) else i
  }

  /** The pattern tried at position `i`: the integer value of its digit
      group when it matches there. Whitespace, the rupee sign and digits are
      disjoint classes, so the greedy scan finds a match whenever
      backtracking would. */
  function PriceAt(u: string, i: nat): Option<nat>
    requires i <= |u|
  {
    if !OccursAt(u, "under", i) then None
    else
      var a := SpacesEnd(u, i + 5);
      var b := if a < |u| && u[a] == Rupee then a + 1 else a;
      var c := SpacesEnd(u, b);
      var d := DigitsEnd(u, c);
      if c == d then None else Some(DigitsValue(u[c..d]))
  }

  /** `re.search`: the match that starts leftmost at or after `from`. */
  function FindPrice(u: string, from: nat): (r: Option<nat>)
    requires from <= |u|
    ensures r.None? <==> forall k :: from <= k <= |u| ==> PriceAt(u, k).None?
    ensures r.Some? ==>
              exists k :: from <= k <= |u| && PriceAt(u, k) == r && forall j :: from <= j < k ==> PriceAt(u, j).None?
    decreases |u| - from
  {
    var here := PriceAt(u, from);
    if here.Some? then here
    else if from == |u| then None
    else FindPrice(u, from + 1)
  }

  /** The price ceiling of the message, if it has one. */
  function PriceCeiling(u: string): Option<nat>
  {
    FindPrice(u, 0)
  }

  /** The regular expression as positions in the text: "under" at `i`,
      whitespace up to `p1`, an optional rupee sign up to `p2`, whitespace up
      to `p3`, and a run of at least one digit from `p3` to `end` that the
      next character does not extend. */
  ghost predicate PricePattern(u: string, i: nat, p1: nat, p2: nat, p3: nat, end: nat)
  {
    && i + 5 <= p1 <= p2 <= p3 < end <= |u|
    && OccursAt(u, "under", i)
    && (forall k :: i + 5 <= k < p1 ==> IsSpace(u[k]))
    && (p2 == p1 || (p2 == p1 + 1 && u[p1] == Rupee))
    && (forall k :: p2 <= k < p3 ==> IsSpace(u[k]))
    && (forall k :: p3 <= k < end ==> IsDigit(u[k]))
    && (end == |u| || !IsDigit(u[end]))
  }

  lemma SpacesEndAt(u: string, i: nat, j: nat)
    requires i <= j <= |u|
    requires forall k :: i <= k < j ==> IsSpace(u[k])
    requires j == |u| || !IsSpace(u[j])
    ensures SpacesEnd(u, i) == j
  {
  }

  lemma DigitsEndAt(u: string, i: nat, j: nat)
    requires i <= j <= |u|
    requires forall k :: i <= k < j ==> IsDigit(u[k])
    requires j == |u| || !IsDigit(u[j])
    ensures DigitsEnd(u, i) == j
  {
  }

  /** Every occurrence of the pattern is recognised, with the value of its digit run. */
  lemma PriceAtRecognises(u: string, i: nat, p1: nat, p2: nat, p3: nat, end: nat)
    requires PricePattern(u, i, p1, p2, p3, end)
    ensures PriceAt(u, i) == Some(DigitsValue(u[p3..end]))
  {
    assert !IsSpace(Rupee) && !IsSpace(u[p3]) && u[p3] != Rupee;
    if p2 == p1 {
      SpacesEndAt(u, i + 5, p3);
    } else {
      SpacesEndAt(u, i + 5, p1);
      SpacesEndAt(u, p2, p3);
    }
    DigitsEndAt(u, p3, end);
  }

  /** Conversely, whatever is recognised is an occurrence of the pattern. */
  lemma PriceAtSound(u: string, i: nat)
    requires i <= |u| && PriceAt(u, i).Some?
    ensures exists p1: nat, p2: nat, p3: nat, end: nat ::
              PricePattern(u, i, p1, p2, p3, end) && PriceAt(u, i) == Some(DigitsValue(u[p3..end]))
  {
    var a := SpacesEnd(u, i + 5);
    var b := if a < |u| && u[a] == Rupee then a + 1 else a;
    var c := SpacesEnd(u, b);
    var d := DigitsEnd(u, c);
    assert PricePattern(u, i, a, b, c, d);
  }

  /** "under60000" and "under ₹ 60000" both give the ceiling 60000. */
  lemma PriceExamples(plain: string, spaced: string)
    requires plain == "under60000" && spaced == "under \U{20B9} 60000"
    ensures PriceCeiling(plain) == Some(60000) && PriceCeiling(spaced) == Some(60000)
  {
    var digits := "60000";
    assert DigitsValue(digits) == 60000 by {
      assert digits[..4] == "6000" && "6000"[..3] == "600" && "600"[..2] == "60" && "60"[..1] == "6";
    }
    assert OccursAt(plain, "under", 0) by { assert plain[0..5] == "under"; }
    assert plain[5..10] == digits;
    PriceAtRecognises(plain, 0, 5, 5, 5, 10);
    assert OccursAt(spaced, "under", 0) by { assert spaced[0..5] == "under"; }
    assert spaced[8..13] == digits;
    PriceAtRecognises(spaced, 0, 6, 7, 8, 13);
  }

  /** The constraints read from one message (the QueryIntent of a search). */
  datatype Query = Query(
    brand: Option<string>,
    processor: Option<string>,
    os: Option<string>,
    ceiling: Option<nat>)

  /** The three scans and the price search, each independent of the others. */
  function ExtractQuery(c: Catalog, u: string): Query
  {
    Query(FirstMention(c.brands, u), FirstMention(c.processors, u), FirstMention(c.oses, u), PriceCeiling(u))
  }

  /** The narrowing steps a query calls for, in the handler's order. */
  function ActiveConstraints(q: Query): seq<Constraint>
  {
    (if q.brand.Some? then [BrandIs(q.brand.value)] else [])
    + (if q.processor.Some? then [ProcessorHas(q.processor.value)] else [])
    + (if q.os.Some? then [OsHas(q.os.value)] else [])
    + (if q.ceiling.Some? then [PriceAtMost(q.ceiling.value)] else [])
  }

  /** Passing the query's constraints is passing each one it names. */
  lemma SatisfiesQuery(r: Record, q: Query)
    ensures SatisfiesAll(r, ActiveConstraints(q)) <==>
              && (q.brand.Some? ==> Satisfies(r, BrandIs(q.brand.value)))
              && (q.processor.Some? ==> Satisfies(r, ProcessorHas(q.processor.value)))
              && (q.os.Some? ==> Satisfies(r, OsHas(q.os.value)))
              && (q.ceiling.Some? ==> Satisfies(r, PriceAtMost(q.ceiling.value)))
  {
    var b := if q.brand.Some? then [BrandIs(q.brand.value)] else [];
    var p := if q.processor.Some? then [ProcessorHas(q.processor.value)] else [];
    var o := if q.os.Some? then [OsHas(q.os.value)] else [];
    var m := if q.ceiling.Some? then [PriceAtMost(q.ceiling.value)] else [];
    SatisfiesAllConcat(r, b + p + o, m);
    SatisfiesAllConcat(r, b + p, o);
    SatisfiesAllConcat(r, b, p);
  }

  /** A record survives the query's constraints exactly when it is one of
      the records and meets each constraint the query names. */
  lemma QueryCandidates(rs: seq<Record>, q: Query, r: Record)
    ensures r in Where(rs, ActiveConstraints(q)) <==>
              && r in rs
              && (q.brand.Some? ==> r.brand.Some? && Lower(r.brand.value) == Lower(q.brand.value))
              && (q.processor.Some? ==> r.processorName.Some? && Contains(Lower(r.processorName.value), Lower(q.processor.value)))
              && (q.os.Some? ==> r.operatingSystem.Some? && Contains(Lower(r.operatingSystem.value), Lower(q.os.value)))
              && (q.ceiling.Some? ==> r.price <= q.ceiling.value)
  {
    WhereMembers(rs, ActiveConstraints(q), r);
    SatisfiesQuery(r, q);
  }

  /** Each constraint the query names is applied once, and nothing else is. */
  lemma ActiveConstraintsMembers(q: Query)
    ensures |ActiveConstraints(q)| <= 4
    ensures forall c :: c in ActiveConstraints(q) <==>
              || (q.brand.Some? && c == BrandIs(q.brand.value))
              || (q.processor.Some? && c == ProcessorHas(q.processor.value))
              || (q.os.Some? && c == OsHas(q.os.value))
              || (q.ceiling.Some? && c == PriceAtMost(q.ceiling.value))
  {
  }
}
