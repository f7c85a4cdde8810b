/**
 * The interactive explorer (asphalt_streamlit.py): reproject, drop duplicate
 * geometries, grid the extent at the chosen spacing, measure every grid point
 * at the chosen radius, and rank the points.
 */
module Interactive {
  import opened Results
  import opened Geometry
  import opened Seqs
  import opened Grid
  import opened Density
  import opened Ranking
  import opened Units
  import opened Pipeline

  /**
   * A numeric input widget with bounds [lo, hi] and a default. The widget library
   * rejects a default outside the bounds before the user can enter anything; an
   * entry outside the bounds is refused by the front end, modelled as clamping.
   */
  function NumberInput(lo: int, hi: int, default: int, entry: Option<int>): (r: Result<int, Error>)
    ensures r.Failure? <==> !(lo <= default <= hi)
    ensures r.Success? ==> lo <= r.value <= hi
    ensures r.Success? && entry.None? ==> r.value == default
    ensures r.Success? && entry.Some? && lo <= entry.value <= hi ==> r.value == entry.value
  {
    if !(lo <= default <= hi) then Failure(DefaultOutsideBounds)
    else match entry
      case None => Success(default)
      case Some(v) => Success(if v < lo then lo else if v > hi then hi else v)
  }

  /** Line 53 as written: bounds 1 to len(grid), default 5. */
  function TopCountAsWritten(gridSize: nat, entry: Option<int>): (r: Result<int, Error>)
    ensures r.Failure? <==> gridSize < 5
    ensures r.Success? ==> 1 <= r.value <= gridSize
  {
    NumberInput(1, gridSize, 5, entry)
  }

  /**
   * As written, the widget rejects every grid of fewer than five points; in
   * particular an empty grid never reaches the empty-grid branch of lines 56-59.
   */
  lemma TopCountAsWrittenRejectsSmallGrids(gridSize: nat, entry: Option<int>)
    ensures TopCountAsWritten(gridSize, entry).Failure? <==> gridSize < 5
    ensures TopCountAsWritten(0, entry) == Failure(DefaultOutsideBounds)
    ensures TopCountAsWritten(3, Some(2)) == Failure(DefaultOutsideBounds)
  {
  }

  /**
   * Line 53 corrected: ask only when there are points, with the default capped at
   * the grid size. The count is always within 1..|grid| for a non-empty grid and 0
   * for an empty one, and an entry within bounds is taken as given.
   */
  function TopCount(gridSize: nat, entry: Option<int>): (n: nat)
    ensures gridSize == 0 <==> n == 0
    ensures n <= gridSize
    ensures gridSize > 0 && entry.None? ==> n == Min(5, gridSize)
    ensures entry.Some? && 1 <= entry.value <= gridSize ==> n == entry.value
  {
    if gridSize == 0 then 0
    else NumberInput(1, gridSize, Min(5, gridSize), entry).value
  }

  /** On a grid of five or more points the widget as written and the corrected count agree. */
  lemma TopCountAgreesOnLargeGrids(gridSize: nat, entry: Option<int>)
    requires gridSize >= 5
    ensures TopCountAsWritten(gridSize, entry).Success?
    ensures TopCountAsWritten(gridSize, entry).value == TopCount(gridSize, entry)
  {
  }

  /** Lines 56-59: the top n locations, or a copy of the (empty) grid. */
  function TopLocations(grid: seq<Sample>, n: nat): (top: seq<Sample>)
    ensures IsTopN(grid, n, top)
    ensures grid == [] ==> top == []
  {
    if |grid| > 0 then TopN(grid, n) else grid
  }

  /** The distinct reprojected geometries the explorer works on (lines 25-26). */
  function Distinct<G(==,!new)>(roads: seq<G>, toMetric: G -> G): (distinct: seq<G>)
    ensures NoDuplicates(distinct)
    ensures forall g :: g in distinct <==> exists i :: 0 <= i < |roads| && toMetric(roads[i]) == g
  {
    var projected := Reproject(roads, toMetric);
    assert forall g :: g in projected <==> exists i :: 0 <= i < |roads| && projected[i] == g;
    Dedup(projected)
  }

  /** The grid points over the extent of the distinct geometries at the chosen spacing (lines 27-36). */
  function Points<G(==,!new)>(roads: seq<G>, geo: Geo<G>, toMetric: G -> G, spacingMiles: int): seq<Point>
    requires 5 <= spacingMiles <= 50 && spacingMiles % 5 == 0
  {
    SamplePoints(Distinct(roads, toMetric), geo, GridSpacing(spacingMiles))
  }

  /**
   * `grid` is the explorer's measured grid: one sample per grid point, in grid
   * order, each carrying the density at the chosen radius over the distinct geometries.
   */
  predicate Measured<G(==,!new)>(roads: seq<G>, geo: Geo<G>, toMetric: G -> G,
                                 radiusMiles: int, spacingMiles: int, grid: seq<Sample>)
    requires 1 <= radiusMiles <= 50
    requires 5 <= spacingMiles <= 50 && spacingMiles % 5 == 0
  {
    var points := Points(roads, geo, toMetric, spacingMiles);
    && |grid| == |points|
    && forall i :: 0 <= i < |points| ==>
         grid[i] == Sample(points[i], DensityAt(Distinct(roads, toMetric), geo, points[i], SearchRadius(radiusMiles)))
  }

  /**
   * Lines 21-50: reproject, drop duplicate geometries, grid the extent and
   * measure every point. It fails exactly when there are no roads, whose extent
   * is undefined.
   */
  method Survey<G(==,!new)>(roads: seq<G>, geo: Geo<G>, toMetric: G -> G, radiusMiles: int, spacingMiles: int)
    returns (out: Result<seq<Sample>, Error>)
    requires 1 <= radiusMiles <= 50
    requires 5 <= spacingMiles <= 50 && spacingMiles % 5 == 0
    ensures out.Failure? <==> |roads| == 0
    ensures out.Failure? ==> out.error == EmptyInput
    ensures out.Success? ==> Measured(roads, geo, toMetric, radiusMiles, spacingMiles, out.value)
  {
    var radius := SearchRadius(radiusMiles);
    var projected := Reproject(roads, toMetric);
    var distinct := Dedup(projected);
    if |roads| > 0 {
      assert projected[0] in distinct;
    }
    var ext := TotalBounds(distinct, geo.bounds);
    if ext.None? {
      return Failure(EmptyInput);
    }
    var points := GridOver(ext.value, GridSpacing(spacingMiles));
    var ds := DensityLoop(points, distinct, geo, radius);
    return Success(Attach(points, ds));
  }

  /**
   * Lines 21-59 as written: one run of the explorer. It fails when there are no
   * roads, and also whenever the grid has fewer than five points, because the
   * count widget of line 53 then has its default 5 above its maximum. Otherwise
   * the grid is the measured grid and the top locations are an admissible top-n
   * selection for the count the widget returns.
   */
  method Explore<G(==,!new)>(roads: seq<G>, geo: Geo<G>, toMetric: G -> G,
                              radiusMiles: int, spacingMiles: int, entry: Option<int>)
    returns (out: Result<Run, Error>)
    requires 1 <= radiusMiles <= 50
    requires 5 <= spacingMiles <= 50 && spacingMiles % 5 == 0
    ensures var points := Points(roads, geo, toMetric, spacingMiles);
            out.Failure? <==> |roads| == 0 || |points| < 5
    ensures out.Failure? ==> out.error == if |roads| == 0 then EmptyInput else DefaultOutsideBounds
    ensures out.Success? ==>
              && Measured(roads, geo, toMetric, radiusMiles, spacingMiles, out.value.grid)
              && |out.value.grid| >= 5
              && IsTopN(out.value.grid, TopCountAsWritten(|out.value.grid|, entry).value, out.value.top)
  {
    var surveyed := Survey(roads, geo, toMetric, radiusMiles, spacingMiles);
    if surveyed.Failure? {
      return Failure(surveyed.error);
    }
    var grid := surveyed.value;
    var count := TopCountAsWritten(|grid|, entry);
    if count.Failure? {
      return Failure(count.error);
    }
    var top := TopLocations(grid, count.value);
    return Success(Run(grid, top));
  }

  /**
   * Lines 21-59 with line 53 corrected (see `TopCount`): the run fails exactly
   * when there are no roads, and otherwise ranks with the corrected count.
   */
  method ExploreCorrected<G(==,!new)>(roads: seq<G>, geo: Geo<G>, toMetric: G -> G,
                                       radiusMiles: int, spacingMiles: int, entry: Option<int>)
    returns (out: Result<Run, Error>)
    requires 1 <= radiusMiles <= 50
    requires 5 <= spacingMiles <= 50 && spacingMiles % 5 == 0
    ensures out.Failure? <==> |roads| == 0
    ensures out.Failure? ==> out.error == EmptyInput
    ensures out.Success? ==>
              && Measured(roads, geo, toMetric, radiusMiles, spacingMiles, out.value.grid)
              && IsTopN(out.value.grid, TopCount(|out.value.grid|, entry), out.value.top)
  {
    var surveyed := Survey(roads, geo, toMetric, radiusMiles, spacingMiles);
    if surveyed.Failure? {
      return Failure(surveyed.error);
    }
    var grid := surveyed.value;
    var top := TopLocations(grid, TopCount(|grid|, entry));
    return Success(Run(grid, top));
  }
}
