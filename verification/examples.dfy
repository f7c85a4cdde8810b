/**
 * A worked example: extent (0, 0, 10, 10), spacing 5, and one road of length 10
 * that meets only the buffer around the origin.
 */
module Examples {
  import opened Geometry
  import opened Grid
  import opened Density
  import opened Ranking
  import opened Seqs

  /** One road (identified by 0) of length 10 that meets only the buffer around (0, 0). */
  function OneRoad(): Geo<int> {
    Geo(_ => 10.0, (g, p, r) => p == Point(0.0, 0.0), _ => Box(0.0, 0.0, 10.0, 10.0))
  }

  /** The origin carries the road's whole length (0.01 km of a 10 m road); every other point nothing. */
  lemma OneRoadDensity(p: Point)
    ensures DensityAt([0], OneRoad(), p, 5.0) == if p == Point(0.0, 0.0) then 0.01 else 0.0
  {
    if p == Point(0.0, 0.0) {
      assert Filter([0], Near(OneRoad(), p, 5.0)) == [0];
    } else {
      assert Filter([0], Near(OneRoad(), p, 5.0)) == [];
    }
  }

  /** Ranking the example's four samples (x outer), the single top location is the origin. */
  lemma OneRoadTop()
    ensures TopN([Sample(Point(0.0, 0.0), 0.01), Sample(Point(0.0, 5.0), 0.0),
                  Sample(Point(5.0, 0.0), 0.0), Sample(Point(5.0, 5.0), 0.0)], 1)
         == [Sample(Point(0.0, 0.0), 0.01)]
  {
    var samples := [Sample(Point(0.0, 0.0), 0.01), Sample(Point(0.0, 5.0), 0.0),
                    Sample(Point(5.0, 0.0), 0.0), Sample(Point(5.0, 5.0), 0.0)];
    var top := TopN(samples, 1);
    assert |top| == 1;
    assert top[0] in multiset(samples);
  }
}
