/** The `/chat` handler: classify the message, narrow the catalog by the
    constraints it names, rank the survivors and render the reply. */
module Chat {
  import opened Wrappers
  import opened Text
  import opened Catalog
  import opened Intent
  import opened Extract
  import opened Filter
  import opened Rank
  import opened Formatter

  /** The candidate set of a search: the catalog records that satisfy every
      constraint the normalised message names, in catalog order. */
  function CandidateSet(c: Catalog, u: string): seq<Record>
  {
    Where(c.records, ActiveConstraints(ExtractQuery(c, u)))
  }

  /** The narrowing part of the handler: start from a copy of the catalog,
      run the brand, processor and OS scans, then the price search, and
      narrow the running set after each one that finds something. */
  method Candidates(c: Catalog, u: string) returns (filtered: seq<Record>)
    ensures filtered == CandidateSet(c, u)
  {
    filtered := c.records;
    ghost var applied: seq<Constraint> := [];
    WhereNothing(c.records);

    var brand := ScanFirst(c.brands, u);
    ghost var brandStep := if brand.Some? then [BrandIs(brand.value)] else [];
    if brand.Some? {
      WhereThenWhere(c.records, applied, BrandIs(brand.value));
      filtered := Where(filtered, [BrandIs(brand.value)]);
    } else {
      assert applied + brandStep == applied;
    }
    applied := applied + brandStep;

    var processor := ScanFirst(c.processors, u);
    ghost var processorStep := if processor.Some? then [ProcessorHas(processor.value)] else [];
    if processor.Some? {
      WhereThenWhere(c.records, applied, ProcessorHas(processor.value));
      filtered := Where(filtered, [ProcessorHas(processor.value)]);
    } else {
      assert applied + processorStep == applied;
    }
    applied := applied + processorStep;

    var os := ScanFirst(c.oses, u);
    ghost var osStep := if os.Some? then [OsHas(os.value)] else [];
    if os.Some? {
      WhereThenWhere(c.records, applied, OsHas(os.value));
      filtered := Where(filtered, [OsHas(os.value)]);
    } else {
      assert applied + osStep == applied;
    }
    applied := applied + osStep;

    var ceiling := PriceCeiling(u);
    ghost var ceilingStep := if ceiling.Some? then [PriceAtMost(ceiling.value)] else [];
    if ceiling.Some? {
      WhereThenWhere(c.records, applied, PriceAtMost(ceiling.value));
      filtered := Where(filtered, [PriceAtMost(ceiling.value)]);
    } else {
      assert applied + ceilingStep == applied;
    }
    applied := applied + ceilingStep;

    assert [] + brandStep == brandStep;
    assert applied == ActiveConstraints(Query(brand, processor, os, ceiling));
  }

  /** A record is a candidate exactly when it is in the catalog and meets
      each constraint the message names: the chosen brand equals its brand
      up to case, the chosen processor and OS names occur in its fields up
      to case (a missing field never matches), and its price is at most the
      ceiling. A constraint the message does not name does not narrow. */
  lemma CandidateSetCharacterised(c: Catalog, u: string, r: Record)
    ensures r in CandidateSet(c, u) <==>
      var q := ExtractQuery(c, u);
      && r in c.records
      && (q.brand.Some? ==> r.brand.Some? && Lower(r.brand.value) == Lower(q.brand.value))
      && (q.processor.Some? ==> r.processorName.Some? && Contains(Lower(r.processorName.value), Lower(q.processor.value)))
      && (q.os.Some? ==> r.operatingSystem.Some? && Contains(Lower(r.operatingSystem.value), Lower(q.os.value)))
      && (q.ceiling.Some? ==> r.price <= q.ceiling.value)
  {
    QueryCandidates(c.records, ExtractQuery(c, u), r);
  }

  /** When the catalog's known-value lists were built by `Load` and a message
      mentions two brands, the one the catalog has later is never chosen. */
  lemma BrandChoiceFollowsCatalogOrder(c: Catalog, u: string, a: string, b: string)
    requires c.Valid()
    requires a in c.brands && b in c.brands && a != b
    requires Mentions(u, a) && Mentions(u, b)
    requires FirstSeenBefore(BrandColumn(c.records), a, b)
    ensures ExtractQuery(c, u).brand.Some?
    ensures ExtractQuery(c, u).brand != Some(b)
  {
    FirstSeenValueWins(BrandColumn(c.records), u, a, b);
  }

  /** When a message mentions exactly two known brands, the one the
      catalog has first is the one chosen. */
  lemma BrandChoiceBetweenTwo(c: Catalog, u: string, a: string, b: string)
    requires c.Valid()
    requires a in c.brands && b in c.brands && a != b
    requires Mentions(u, a) && Mentions(u, b)
    requires forall v :: v in c.brands && Mentions(u, v) ==> v == a || v == b
    requires FirstSeenBefore(BrandColumn(c.records), a, b)
    ensures ExtractQuery(c, u).brand == Some(a)
  {
    BrandChoiceFollowsCatalogOrder(c, u, a, b);
  }

  /** What the handler promises for one message: the welcome text for a
      greeting, the farewell text for a farewell, the no-match text for a
      search without candidates, and otherwise the stripped header and
      numbered listing of some best-ten of the candidates (ties among equal
      scores may be listed in either order). */
  ghost predicate IsReplyTo(c: Catalog, message: string, reply: string)
  {
    match Classify(message)
    case Greeting => reply == GreetingText
    case Farewell => reply == FarewellText
    case Search =>
      var candidates := CandidateSet(c, Normalize(message));
      if candidates == [] then reply == NoMatchText
      else exists top :: IsTopTen(candidates, top) && reply == Strip(Header + Listing(top))
  }

  /** The body of the `/chat` handler, on the raw message string. */
  method Chat(c: Catalog, message: string) returns (reply: string)
    ensures IsReplyTo(c, message, reply)
    ensures reply == GreetingText <==> Classify(message) == Greeting
    ensures reply == FarewellText <==> Classify(message) == Farewell
    ensures reply == NoMatchText <==> Classify(message) == Search && CandidateSet(c, Normalize(message)) == []
  {
    RepliesOpenApart();
    var u := Normalize(message);
    if u in Greetings {
      assert Classify(message) == Greeting;
      return GreetingText;
    }
    if IsFarewell(u) {
      assert Classify(message) == Farewell;
      return FarewellText;
    }
    assert Classify(message) == Search;
    var filtered := Candidates(c, u);
    if filtered == [] {
      return NoMatchText;
    }
    var top := TopTen(filtered);
    reply := Render(top);
    ListingReplyShape(top);
    assert IsTopTen(CandidateSet(c, u), top) && reply == Strip(Header + Listing(top));
  }
}
