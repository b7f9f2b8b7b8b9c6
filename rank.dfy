/** `sort_values(by="spec_score", ascending=False).head(10)`: the candidates
    with the highest scores, best first. The sort pandas uses is not stable,
    so the order among equal scores is not specified; the sort below is one
    admissible order, and the properties are stated for any. */
module Rank {
  import opened Catalog

  /** How many records a reply lists at most. */
  const ListLimit: nat := 10

  predicate ScoreDescending(s: seq<Record>)
  {
    forall i, j :: 0 <= i < j < |s| ==> s[i].specScore >= s[j].specScore
  }

  /** A record that scores at least as high as the head of a descending
      sequence can be put in front of it. */
  lemma ConsDescending(x: Record, t: seq<Record>)
    requires ScoreDescending(t)
    requires t == [] || x.specScore >= t[0].specScore
    ensures ScoreDescending([x] + t)
  {
    var xt := [x] + t;
    forall i, j | 0 <= i < j < |xt|
      ensures xt[i].specScore >= xt[j].specScore
    {
      if i == 0 {
        assert xt[j] == t[j - 1];
      } else {
        assert xt[i] == t[i - 1] && xt[j] == t[j - 1];
      }
    }
  }

  /** Puts `r` into a descending sequence, after every record that scores
      strictly higher. */
  function InsertByScore(r: Record, s: seq<Record>): (t: seq<Record>)
    requires ScoreDescending(s)
    ensures ScoreDescending(t)
    ensures multiset(t) == multiset(s) + multiset{r}
    ensures t != [] && (t[0] == r || (s != [] && t[0] == s[0]))
  {
    if s == [] || s[0].specScore <= r.specScore then
      ConsDescending(r, s);
      [r] + s
    else
      var rest := InsertByScore(r, s[1..]);
      assert s == [s[0]] + s[1..];
      ConsDescending(s[0], rest);
      [s[0]] + rest
  }

  /** The candidates rearranged by non-increasing score. */
  function SortByScore(s: seq<Record>): (t: seq<Record>)
    ensures ScoreDescending(t)
    ensures multiset(t) == multiset(s)
  {
    if s == [] then []
    else
      assert s == [s[0]] + s[1..];
      InsertByScore(s[0], SortByScore(s[1..]))
  }

  /** What the listed records owe the candidate set: at most ten of them,
      exactly ten when there are more candidates, drawn from the candidates,
      best first, and no candidate left out scores higher than one listed. */
  ghost predicate IsTopTen(candidates: seq<Record>, top: seq<Record>)
  {
    && |top| == (if |candidates| < ListLimit then |candidates| else ListLimit)
    && ScoreDescending(top)
    && multiset(top) <= multiset(candidates)
    && forall x, y :: x in multiset(candidates) - multiset(top) && y in top ==> x.specScore <= y.specScore
  }

  /** Cutting a sorted sequence leaves nothing after the cut that scores
      higher than anything before it. */
  lemma SortedCut(sorted: seq<Record>, n: nat)
    requires ScoreDescending(sorted) && n <= |sorted|
    ensures forall x, y :: x in multiset(sorted) - multiset(sorted[..n]) && y in sorted[..n] ==> x.specScore <= y.specScore
  {
    var top, rest := sorted[..n], sorted[n..];
    assert sorted == top + rest;
    assert multiset(sorted) == multiset(top) + multiset(rest);
    assert multiset(sorted) - multiset(top) == multiset(rest);
    forall x: Record, y: Record | x in multiset(rest) && y in top
      ensures x.specScore <= y.specScore
    {
      assert x in rest;
      var j :| 0 <= j < |rest| && rest[j] == x;
      var i :| 0 <= i < |top| && top[i] == y;
      assert sorted[n + j] == x && sorted[i] == y;
    }
  }

  /** The first ten of any descending rearrangement of the candidates are
      a best ten of them. */
  lemma SortedPrefixIsTopTen(candidates: seq<Record>, sorted: seq<Record>)
    requires ScoreDescending(sorted) && multiset(sorted) == multiset(candidates)
    ensures |sorted| == |candidates|
    ensures IsTopTen(candidates, sorted[..if |sorted| < ListLimit then |sorted| else ListLimit])
  {
    assert |sorted| == |multiset(sorted)| == |multiset(candidates)| == |candidates|;
    var n := if |sorted| < ListLimit then |sorted| else ListLimit;
    SortedCut(sorted, n);
    assert sorted == sorted[..n] + sorted[n..];
    assert multiset(sorted) == multiset(sorted[..n]) + multiset(sorted[n..]);
    assert ScoreDescending(sorted[..n]);
  }

  /** The listed records: the first ten of the sorted candidates. */
  function TopTen(candidates: seq<Record>): (top: seq<Record>)
    ensures IsTopTen(candidates, top)
  {
    var sorted := SortByScore(candidates);
    SortedPrefixIsTopTen(candidates, sorted);
    sorted[..if |sorted| < ListLimit then |sorted| else ListLimit]
  }
}
