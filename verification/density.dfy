/**
 * Density evaluation: for every grid point, the total length of the roads
 * meeting the buffer of the search radius around it, in kilometres.
 */
module Density {
  import opened Geometry
  import opened Seqs

  /** The mask `roads.intersects(point.buffer(radius))`. */
  function Near<G>(geo: Geo<G>, p: Point, radius: real): G -> bool {
    g => geo.intersects(g, p, radius)
  }

  /** `.length.sum()` over a selection of roads. */
  function TotalLength<G>(roads: seq<G>, length: G -> NonNegReal): (total: real)
    ensures total >= 0.0
    ensures total > 0.0 ==> exists g :: g in roads && length(g) > 0.0
    decreases |roads|
  {
    if |roads| == 0 then 0.0
    else
      assert forall g :: g in roads[1..] ==> g in roads;
      length(roads[0]) + TotalLength(roads[1..], length)
  }

  /**
   * The density at one point: the summed length of every road meeting the buffer,
   * divided by 1000. It is never negative, and it is positive only when some road
   * of positive length meets the buffer; in particular it is zero when none does.
   */
  function DensityAt<G(==,!new)>(roads: seq<G>, geo: Geo<G>, p: Point, radius: real): (km: real)
    ensures km >= 0.0
    ensures km > 0.0 ==> exists g :: g in roads && geo.intersects(g, p, radius) && geo.length(g) > 0.0
    ensures (forall g :: g in roads ==> !geo.intersects(g, p, radius)) ==> km == 0.0
  {
    TotalLength(Filter(roads, Near(geo, p, radius)), geo.length) / 1000.0
  }

  /** Reference reading of the density: every road contributes its length exactly when it meets the buffer. */
  function IndicatorSum<G>(roads: seq<G>, geo: Geo<G>, p: Point, radius: real): real
    decreases |roads|
  {
    if |roads| == 0 then 0.0
    else (if geo.intersects(roads[0], p, radius) then geo.length(roads[0]) else 0.0)
         + IndicatorSum(roads[1..], geo, p, radius)
  }

  lemma {:induction false} FilterLengthIsIndicatorSum<G(!new)>(roads: seq<G>, geo: Geo<G>, p: Point, radius: real)
    ensures TotalLength(Filter(roads, Near(geo, p, radius)), geo.length) == IndicatorSum(roads, geo, p, radius)
    decreases |roads|
  {
    if |roads| > 0 {
      FilterLengthIsIndicatorSum(roads[1..], geo, p, radius);
    }
  }

  /** The filter-then-sum of the scripts equals the per-road indicator sum, over 1000. */
  lemma DensityIsIndicatorSum<G(!new)>(roads: seq<G>, geo: Geo<G>, p: Point, radius: real)
    ensures DensityAt(roads, geo, p, radius) == IndicatorSum(roads, geo, p, radius) / 1000.0
  {
    FilterLengthIsIndicatorSum(roads, geo, p, radius);
  }

  lemma {:induction false} TotalLengthAppend<G>(a: seq<G>, b: seq<G>, length: G -> NonNegReal)
    ensures TotalLength(a + b, length) == TotalLength(a, length) + TotalLength(b, length)
    decreases |a|
  {
    if |a| == 0 {
      assert a + b == b;
    } else {
      assert (a + b)[1..] == a[1..] + b;
      assert (a + b)[0] == a[0];
      TotalLengthAppend(a[1..], b, length);
    }
  }

  lemma {:induction false} FilterAppend<G(!new)>(a: seq<G>, b: seq<G>, keep: G -> bool)
    ensures Filter(a + b, keep) == Filter(a, keep) + Filter(b, keep)
    decreases |a|
  {
    if |a| == 0 {
      assert a + b == b;
    } else {
      var ab := a + b;
      assert ab[0] == a[0] && ab[1..] == a[1..] + b;
      FilterAppend(a[1..], b, keep);
      var head: seq<G> := if keep(a[0]) then [a[0]] else [];
      assert Filter(ab, keep) == head + Filter(a[1..] + b, keep);
      assert Filter(a, keep) == head + Filter(a[1..], keep);
    }
  }

  /**
   * Without deduplication every row counts: one more road row raises the density
   * by that road's length (in kilometres) when it meets the buffer, and leaves it
   * alone otherwise, whether or not the same geometry is already present.
   */
  lemma DensityOfExtraRow<G(!new)>(roads: seq<G>, g: G, geo: Geo<G>, p: Point, radius: real)
    ensures DensityAt(roads + [g], geo, p, radius)
         == DensityAt(roads, geo, p, radius) + (if geo.intersects(g, p, radius) then geo.length(g) / 1000.0 else 0.0)
  {
    var keep := Near(geo, p, radius);
    FilterAppend(roads, [g], keep);
    TotalLengthAppend(Filter(roads, keep), Filter([g], keep), geo.length);
    assert Filter([g], keep) == if keep(g) then [g] else [];
  }

  lemma {:induction false} SubsequenceShorter<G(!new)>(a: seq<G>, b: seq<G>, geo: Geo<G>, p: Point, radius: real)
    requires IsSubsequence(a, b)
    ensures TotalLength(Filter(a, Near(geo, p, radius)), geo.length)
         <= TotalLength(Filter(b, Near(geo, p, radius)), geo.length)
    decreases |b|
  {
    var keep := Near(geo, p, radius);
    if |a| > 0 {
      if a[0] == b[0] && IsSubsequence(a[1..], b[1..]) {
        SubsequenceShorter(a[1..], b[1..], geo, p, radius);
      } else {
        SubsequenceShorter(a, b[1..], geo, p, radius);
      }
    }
  }

  /** Dropping rows never raises a density. */
  lemma DensityMonotone<G(!new)>(a: seq<G>, b: seq<G>, geo: Geo<G>, p: Point, radius: real)
    requires IsSubsequence(a, b)
    ensures DensityAt(a, geo, p, radius) <= DensityAt(b, geo, p, radius)
  {
    SubsequenceShorter(a, b, geo, p, radius);
  }

  /**
   * After `drop_duplicates`, each distinct geometry is selected at most once at
   * any point, and the density is no larger than over the raw rows.
   */
  lemma DedupCountsOnce<G(!new)>(roads: seq<G>, geo: Geo<G>, p: Point, radius: real, g: G)
    ensures multiset(Filter(Dedup(roads), Near(geo, p, radius)))[g] <= 1
    ensures DensityAt(Dedup(roads), geo, p, radius) <= DensityAt(roads, geo, p, radius)
  {
    FilterKeepsNoDuplicates(Dedup(roads), Near(geo, p, radius), g);
    DensityMonotone(Dedup(roads), roads, geo, p, radius);
  }

  /**
   * Lines 42-47: the evaluation loop, appending one density per grid point. The
   * i-th density is measured at the i-th probe point.
   */
  method DensityLoop<G(==,!new)>(probes: seq<Point>, roads: seq<G>, geo: Geo<G>, radius: real) returns (ds: seq<real>)
    ensures |ds| == |probes|
    ensures forall i :: 0 <= i < |probes| ==> ds[i] == DensityAt(roads, geo, probes[i], radius)
  {
    ds := [];
    for i := 0 to |probes|
      invariant |ds| == i
      invariant forall k :: 0 <= k < i ==> ds[k] == DensityAt(roads, geo, probes[k], radius)
    {
      var total := TotalLength(Filter(roads, Near(geo, probes[i], radius)), geo.length) / 1000.0;
      ds := ds + [total];
    }
  }

  /** Line 50: the densities become a column of the grid frame, by position. */
  function Attach(points: seq<Point>, ds: seq<real>): (samples: seq<Sample>)
    requires |points| == |ds|
    ensures |samples| == |points|
    ensures forall i :: 0 <= i < |samples| ==> samples[i] == Sample(points[i], ds[i])
  {
    seq(|points|, i requires 0 <= i < |points| => Sample(points[i], ds[i]))
  }
}
