/**
 * Ranking: `sort_values(density, ascending=False).head(n)`. The library sort is
 * not stable, so the contract says nothing about the order of equal densities.
 */
module Ranking {
  import opened Geometry

  /** Densities never rise along the sequence. */
  predicate NonIncreasing(s: seq<Sample>) {
    forall i, j :: 0 <= i < j < |s| ==> s[i].density >= s[j].density
  }

  function Min(a: int, b: int): int {
    if a <= b then a else b
  }

  /**
   * `top` is an admissible answer for the n densest samples of `grid`: as many
   * samples as asked for (or all of them), each a sample of the grid carrying its
   * own density, in non-increasing density, and no sample left out is denser than
   * any sample kept.
   */
  predicate IsTopN(grid: seq<Sample>, n: nat, top: seq<Sample>) {
    && |top| == Min(n, |grid|)
    && multiset(top) <= multiset(grid)
    && NonIncreasing(top)
    && forall s, t :: s in multiset(grid) - multiset(top) && t in top ==> s.density <= t.density
  }

  /** Places `x` before the first sample it is at least as dense as. */
  function Insert(x: Sample, s: seq<Sample>): (r: seq<Sample>)
    requires NonIncreasing(s)
    ensures |r| == |s| + 1
    ensures forall y :: y in r ==> y == x || y in s
    ensures NonIncreasing(r)
    ensures multiset(r) == multiset(s) + multiset{x}
    decreases |s|
  {
    if |s| == 0 || x.density >= s[0].density then [x] + s
    else
      var rest := Insert(x, s[1..]);
      assert s == [s[0]] + s[1..];
      InsertBelowHead(s[0], rest);
      [s[0]] + rest
  }

  lemma InsertBelowHead(h: Sample, rest: seq<Sample>)
    requires NonIncreasing(rest)
    requires forall y :: y in rest ==> y.density <= h.density
    ensures NonIncreasing([h] + rest)
  {
    var r := [h] + rest;
    forall i, j | 0 <= i < j < |r|
      ensures r[i].density >= r[j].density
    {
      assert r[j] == rest[j - 1] && rest[j - 1] in rest;
      if i > 0 {
        assert r[i] == rest[i - 1];
      }
    }
  }

  /** Sorting by density, densest first. */
  function SortDesc(s: seq<Sample>): (r: seq<Sample>)
    ensures NonIncreasing(r)
    ensures multiset(r) == multiset(s)
    decreases |s|
  {
    if |s| == 0 then []
    else
      assert s == [s[0]] + s[1..];
      Insert(s[0], SortDesc(s[1..]))
  }

  /** `sort_values(..., ascending=False).head(n)`. */
  function TopN(grid: seq<Sample>, n: nat): (top: seq<Sample>)
    ensures IsTopN(grid, n, top)
  {
    var sorted := SortDesc(grid);
    var k := Min(n, |sorted|);
    PrefixIsTop(grid, n, sorted, k);
    sorted[..k]
  }

  /** In a sorted sequence, nothing after position k is denser than anything before it. */
  lemma SuffixDominated(sorted: seq<Sample>, k: nat)
    requires NonIncreasing(sorted) && k <= |sorted|
    ensures forall s, t :: s in sorted[k..] && t in sorted[..k] ==> s.density <= t.density
  {
    forall s, t | s in sorted[k..] && t in sorted[..k]
      ensures s.density <= t.density
    {
      var a :| 0 <= a < k && sorted[..k][a] == t;
      var b :| 0 <= b < |sorted| - k && sorted[k..][b] == s;
      assert sorted[a] == t && sorted[k + b] == s;
    }
  }

  /** Splitting a sequence splits its multiset. */
  lemma SplitMultiset(sorted: seq<Sample>, k: nat)
    requires k <= |sorted|
    ensures multiset(sorted) == multiset(sorted[..k]) + multiset(sorted[k..])
    ensures multiset(sorted[..k]) <= multiset(sorted)
    ensures multiset(sorted) - multiset(sorted[..k]) == multiset(sorted[k..])
  {
    assert sorted == sorted[..k] + sorted[k..];
  }

  /** The first k samples of a sorted copy of the grid are an admissible top-n answer. */
  lemma PrefixIsTop(grid: seq<Sample>, n: nat, sorted: seq<Sample>, k: nat)
    requires NonIncreasing(sorted) && multiset(sorted) == multiset(grid)
    requires k == Min(n, |sorted|)
    ensures IsTopN(grid, n, sorted[..k])
  {
    var top := sorted[..k];
    assert |sorted| == |grid| by {
      assert |multiset(sorted)| == |multiset(grid)|;
    }
    SplitMultiset(sorted, k);
    SuffixDominated(sorted, k);
    forall s, t | s in multiset(grid) - multiset(top) && t in top
      ensures s.density <= t.density
    {
      assert s in sorted[k..];
    }
  }
}
