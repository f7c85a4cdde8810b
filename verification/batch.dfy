/**
 * The batch report (analyze_asphalt_density.py): grid the native extent every
 * 0.2 degrees, reproject grid and roads, measure every point at a fixed radius,
 * store each density on the unprojected point, and keep the five densest.
 */
module Batch {
  import opened Results
  import opened Geometry
  import opened Grid
  import opened Density
  import opened Ranking
  import opened Units
  import opened Pipeline

  /**
   * Lines 10-38: one run of the report. It fails exactly when there are no
   * roads. Otherwise the grid steps by 0.2 over the native extent (x outer,
   * y inner); the i-th density is measured at the reprojection of the i-th grid
   * point, with the fixed radius 16093 over every reprojected road row
   * (duplicates included), and is stored on the i-th native grid point; and the
   * top list is an admissible top-5 selection of that grid.
   */
  method Report<G(==,!new)>(roads: seq<G>, geo: Geo<G>, toMetric: G -> G, pointToMetric: Point -> Point)
    returns (out: Result<Run, Error>)
    ensures out.Failure? <==> |roads| == 0
    ensures out.Failure? ==> out.error == EmptyInput
    ensures out.Success? ==>
              var points := SamplePoints(roads, geo, BatchStep);
              var metricRoads := Reproject(roads, toMetric);
              && |out.value.grid| == |points|
              && (forall i :: 0 <= i < |points| ==>
                    out.value.grid[i] == Sample(points[i], DensityAt(metricRoads, geo, pointToMetric(points[i]), 16093.0)))
              && IsTopN(out.value.grid, 5, out.value.top)
              && |out.value.top| <= 5
  {
    var ext := TotalBounds(roads, geo.bounds);
    if ext.None? {
      return Failure(EmptyInput);
    }
    var points := GridOver(ext.value, BatchStep);
    var metricPoints := Reproject(points, pointToMetric);
    var metricRoads := Reproject(roads, toMetric);
    var ds := DensityLoop(metricPoints, metricRoads, geo, BatchRadius);
    var grid := Attach(points, ds);
    var top := TopN(grid, 5);
    return Success(Run(grid, top));
  }
}
