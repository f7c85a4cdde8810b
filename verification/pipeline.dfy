/**
 * What the two front ends share around the density core: their error outcomes,
 * the shape of a run, reprojection of a feature set and the grid over its extent.
 */
module Pipeline {
  import opened Results
  import opened Geometry
  import opened Grid

  datatype Error =
    | EmptyInput            // no roads: the extent is undefined and the range construction fails
    | DefaultOutsideBounds  // a numeric widget whose default value lies outside [min, max]

  /** The full grid with its densities, and the highlighted top locations. */
  datatype Run = Run(grid: seq<Sample>, top: seq<Sample>)

  /** The geometries reprojected one by one, in order (`to_crs`). */
  function Reproject<G>(roads: seq<G>, toMetric: G -> G): (projected: seq<G>)
    ensures |projected| == |roads|
    ensures forall i :: 0 <= i < |roads| ==> projected[i] == toMetric(roads[i])
  {
    seq(|roads|, i requires 0 <= i < |roads| => toMetric(roads[i]))
  }

  /** The grid over the extent of `roads`, or no points when there is no extent. */
  function SamplePoints<G>(roads: seq<G>, geo: Geo<G>, step: real): (points: seq<Point>)
    requires step > 0.0
    ensures |roads| == 0 ==> points == []
    ensures TotalBounds(roads, geo.bounds).Some? ==>
              var ext := TotalBounds(roads, geo.bounds).value;
              forall q :: q in points ==> ext.minX <= q.x < ext.maxX && ext.minY <= q.y < ext.maxY
  {
    match TotalBounds(roads, geo.bounds)
    case None => []
    case Some(ext) =>
      GridWithin(ext, step);
      GridOver(ext, step)
  }

}
