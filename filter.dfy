/** Narrowing the catalog by the constraints a message names: each pandas
    boolean mask `df[mask]` keeps the rows that pass, in their order. */
module Filter {
  import opened Text
  import opened Catalog

  /** One narrowing step of the handler. The names are the known values as
      listed; matching lower-cases both sides. */
  datatype Constraint =
    | BrandIs(brand: string)
    | ProcessorHas(processor: string)
    | OsHas(os: string)
    | PriceAtMost(ceiling: nat)

  /** The mask of each step: brand is an equality test, processor and OS are
      substring tests, and a missing cell never passes (`na=False`, and a NaN
      brand is never equal to a string). */
  predicate Satisfies(r: Record, c: Constraint)
  {
    match c
    case BrandIs(b) => r.brand.Some? && Lower(r.brand.value) == Lower(b)
    case ProcessorHas(p) => r.processorName.Some? && Contains(Lower(r.processorName.value), Lower(p))
    case OsHas(o) => r.operatingSystem.Some? && Contains(Lower(r.operatingSystem.value), Lower(o))
    case PriceAtMost(n) => r.price <= n
  }

  predicate SatisfiesAll(r: Record, cs: seq<Constraint>)
  {
    forall c :: c in cs ==> Satisfies(r, c)
  }

  /** The records of `rs` that pass every constraint of `cs`, in their order. */
  function Where(rs: seq<Record>, cs: seq<Constraint>): seq<Record>
  {
    if rs == [] then []
    else (if SatisfiesAll(rs[0], cs) then [rs[0]] else []) + Where(rs[1..], cs)
  }

  /** A record survives exactly when it is one of `rs` and passes every constraint. */
  lemma {:induction false} WhereMembers(rs: seq<Record>, cs: seq<Constraint>, r: Record)
    ensures r in Where(rs, cs) <==> r in rs && SatisfiesAll(r, cs)
  {
    if rs != [] {
      WhereMembers(rs[1..], cs, r);
      assert rs == [rs[0]] + rs[1..];
    }
  }

  /** `t` is `s` with some elements left out and none reordered. */
  ghost predicate IsSubsequence(t: seq<Record>, s: seq<Record>)
    decreases |s|
  {
    if t == [] then true
    else if s == [] then false
    else (t[0] == s[0] && IsSubsequence(t[1..], s[1..])) || IsSubsequence(t, s[1..])
  }

  /** Narrowing never invents or reorders records. */
  lemma {:induction false} WhereIsSubsequence(rs: seq<Record>, cs: seq<Constraint>)
    ensures IsSubsequence(Where(rs, cs), rs)
  {
    if rs != [] {
      WhereIsSubsequence(rs[1..], cs);
      var t := Where(rs, cs);
      if SatisfiesAll(rs[0], cs) {
        assert t[0] == rs[0] && t[1..] == Where(rs[1..], cs);
      } else {
        assert t == Where(rs[1..], cs);
      }
    }
  }

  /** Every record that passes is kept as often as it occurs; every other one is dropped. */
  lemma {:induction false} WhereCounts(rs: seq<Record>, cs: seq<Constraint>, r: Record)
    ensures multiset(Where(rs, cs))[r] == if SatisfiesAll(r, cs) then multiset(rs)[r] else 0
  {
    if rs != [] {
      WhereCounts(rs[1..], cs, r);
      assert rs == [rs[0]] + rs[1..];
    }
  }

  /** With no constraint the candidate set is the whole catalog (`df.copy()`). */
  lemma {:induction false} WhereNothing(rs: seq<Record>)
    ensures Where(rs, []) == rs
  {
    if rs != [] {
      WhereNothing(rs[1..]);
    }
  }

  /** Narrowing the running set by one more constraint is the same as
      filtering the original records by the conjunction. */
  lemma {:induction false} WhereThenWhere(rs: seq<Record>, cs: seq<Constraint>, c: Constraint)
    ensures Where(Where(rs, cs), [c]) == Where(rs, cs + [c])
  {
    if rs != [] {
      WhereThenWhere(rs[1..], cs, c);
      var r := rs[0];
      var rest := Where(rs[1..], cs);
      SatisfiesAllAppend(r, cs, c);
      if SatisfiesAll(r, cs) {
        var w := [r] + rest;
        assert Where(rs, cs) == w;
        assert w[0] == r && w[1..] == rest;
        assert SatisfiesAll(r, [c]) == Satisfies(r, c);
        assert Where(w, [c]) == (if Satisfies(r, c) then [r] else []) + Where(rest, [c]);
      } else {
        assert Where(rs, cs) == rest;
      }
    }
  }

  lemma SatisfiesAllAppend(r: Record, cs: seq<Constraint>, c: Constraint)
    ensures SatisfiesAll(r, cs + [c]) <==> SatisfiesAll(r, cs) && Satisfies(r, c)
  {
    assert forall d :: d in cs + [c] <==> d in cs || d == c;
  }

  lemma SatisfiesAllConcat(r: Record, xs: seq<Constraint>, ys: seq<Constraint>)
    ensures SatisfiesAll(r, xs + ys) <==> SatisfiesAll(r, xs) && SatisfiesAll(r, ys)
  {
    assert forall d :: d in xs + ys <==> d in xs || d in ys;
  }

  /** Only the set of constraints matters, not the order in which they are applied. */
  lemma {:induction false} WhereIgnoresOrder(rs: seq<Record>, cs: seq<Constraint>, ds: seq<Constraint>)
    requires forall c :: c in cs <==> c in ds
    ensures Where(rs, cs) == Where(rs, ds)
  {
    if rs != [] {
      WhereIgnoresOrder(rs[1..], cs, ds);
    }
  }
}
