# Asphalt density: a Dafny model of the grid, density and ranking pipeline

The repository ranks candidate asphalt-plant sites. It lays a regular grid over
the extent of a road network. For every grid point it sums the length of the
roads that meet a buffer of fixed radius around the point, in kilometres. Then it
sorts the points by that density and highlights the densest ones. The pipeline
exists twice: as an interactive explorer (`asphalt_streamlit.py`) and as a batch
report (`analyze_asphalt_density.py`). Two small attribute rules feed it:

- the government-over-OSM precedence merge (`combine_datasets.py`);
- the "asphalt edges, or every edge as a fallback" filter (`download_osm_pa.py`).

The model works over exact reals and immutable sequences. Road geometry is a
type parameter `G`. The geometry library is a record `Geo<G>` of three functions:

- a non-negative `length`;
- an `intersects(road, point, radius)` predicate standing for "meets the buffer";
- the road's own bounding box.

Nothing is assumed about `intersects`, because the buffer is only a polygonal
approximation of a disk.

Modules, one per component:

- `Seqs`: pandas mask selection (`Filter`) and `drop_duplicates` (`Dedup`).
- `Grid`: `total_bounds` (`TotalBounds`), `np.arange` (`Arange`), the x-outer /
  y-inner product (`Cartesian`), and the grid over an extent (`GridOver`).
- `Density`: the per-point filtered length sum (`DensityAt`) and the evaluation
  loop (`DensityLoop`).
- `Ranking`: `sort_values(ascending=False).head(n)` (`TopN`) and its
  specification `IsTopN`.
- `Units`: the miles-to-metres conversion and the fixed constants.
- `Pipeline`, `Interactive`, `Batch`: the two front ends end to end.
- `Enrich`: gov column selection, the left spatial join, the precedence merge.
- `Download`: the asphalt edge filter and the download radius.
- `Examples`: a worked example (extent (0,0,10,10), spacing 5, one road).

Facts about the code that the model keeps:

- An axis with `max <= min` has no values, so a flat extent gives an empty grid.
  There is no minimum of one point.
- The ranking sort is not stable, so no tie order is promised.
- Densities come from a plain scan of every road at every grid point.
- An empty road set is not checked explicitly. Its bounds are NaN and the range
  construction fails on them. The model reports this as `EmptyInput`.
- The explorer's count widget (asphalt_streamlit.py:53) has default 5 and
  maximum len(grid), so a run on a grid of fewer than five points fails there.
  `Interactive.Explore` models the script as written, including this failure
  (`DefaultOutsideBounds`). `Interactive.ExploreCorrected` is the same run with
  the corrected count; see "## Findings".

## Model

| member | source | states |
|---|---|---|
| Units.MilesToMetres | asphalt_streamlit.py:22 | converting back by 1609.34 recovers the miles; the result is positive exactly when the miles are |
| Units.SearchRadius | asphalt_streamlit.py:21-22 | the radius from the 1..50 mile slider is that many miles in metres, between 1609.34 and 80467 |
| Units.GridSpacing | asphalt_streamlit.py:30-31 | the spacing from the 5..50 mile slider is that many miles in metres, strictly positive (at least 8046.7) |
| Pipeline.Reproject | analyze_asphalt_density.py:24-25 | reprojection keeps the count and the order: item i of the result is the reprojection of item i |
| Pipeline.SamplePoints | asphalt_streamlit.py:27-36 | no roads give no points; otherwise every point lies in the half-open extent [minX, maxX) x [minY, maxY) of the roads' total bounds |
| Seqs.Filter | asphalt_streamlit.py:45 | an element is in the selection exactly when it is in the input and passes the mask |
| Seqs.FilterCounts | asphalt_streamlit.py:45 | every passing row is kept as often as it occurs in the input, and no failing row is kept |
| Seqs.FilterLength | asphalt_streamlit.py:45 | the selection has exactly as many rows as pass the mask, counted with multiplicity |
| Seqs.FilterIsSubsequence | asphalt_streamlit.py:45 | the selection keeps the input's order (it is a subsequence of the input) |
| Seqs.IndexOf | asphalt_streamlit.py:26 | the index returned holds the element and no earlier position does (first occurrence) |
| Seqs.Dedup | asphalt_streamlit.py:26 | the result has no duplicates, holds exactly the input's distinct elements, and is a subsequence of the input |
| Seqs.DedupKeepsFirstOccurrences | asphalt_streamlit.py:26 | the kept elements appear in the order of their first occurrences in the input |
| Grid.TotalBounds | asphalt_streamlit.py:27 | no extent iff there are no features; otherwise the box encloses every feature's bounds, each side is attained by some feature (the tightest such box), and it is valid when every feature's bounds are |
| Grid.Ceil | asphalt_streamlit.py:34-35 | the integer returned is the least one not below its argument |
| Grid.Arange | asphalt_streamlit.py:34-35 | value i is min + i*step, every value is strictly below max, and one more step would not be: the axis is exactly the half-open range |
| Grid.ArangeShape | asphalt_streamlit.py:34-35 | max <= min gives an empty axis; otherwise the axis has ceil((max-min)/step) >= 1 values and starts exactly at min |
| Grid.ArangeIncreasing | asphalt_streamlit.py:34-35 | axis values are strictly increasing and never below min |
| Grid.Row | asphalt_streamlit.py:36 | one row of the comprehension pairs the fixed x with every y, in order |
| Grid.Cartesian | asphalt_streamlit.py:36 | the x-outer / y-inner comprehension; its size and layout are stated by Grid.CartesianSize, Grid.CartesianPoint and Grid.CartesianAt |
| Grid.CartesianSize | asphalt_streamlit.py:36 | the grid has len(xs) * len(ys) points |
| Grid.CartesianPoint | asphalt_streamlit.py:36 | x outer, y inner: position i*len(ys) + j exists and holds (xs[i], ys[j]) |
| Grid.CartesianAt | asphalt_streamlit.py:36 | conversely, every grid position k is some (xs[i], ys[j]) with k = i*len(ys) + j |
| Grid.GridOver | asphalt_streamlit.py:34-36 | the grid over an extent at a spacing; its size, emptiness and containment are stated by Grid.GridSize, Grid.GridEmpty and Grid.GridWithin |
| Grid.GridSize | asphalt_streamlit.py:34-36 | over a box of positive width and height the grid has ceil(w/step) * ceil(h/step) points and the first is the lower corner |
| Grid.GridEmpty | asphalt_streamlit.py:34-36 | the grid is empty exactly when the box is flat or inverted in either direction |
| Grid.GridWithin | asphalt_streamlit.py:34-36 | every grid point lies in the half-open box [minX, maxX) x [minY, maxY) |
| Grid.GridExample | asphalt_streamlit.py:34-36 | extent (0,0,10,10) at step 5 gives exactly (0,0), (0,5), (5,0), (5,5), x outer |
| Density.TotalLength | asphalt_streamlit.py:46 | a length sum is never negative, and positive only if some summed road has positive length |
| Density.Near | asphalt_streamlit.py:44-45 | the intersects-the-buffer mask applied to the roads; what it selects is stated through Density.DensityAt and Density.DensityIsIndicatorSum |
| Density.DensityAt | asphalt_streamlit.py:44-46 | a density is non-negative, zero when no road meets the buffer, and positive only if a road of positive length meets it |
| Density.DensityIsIndicatorSum | asphalt_streamlit.py:44-46 | filter-then-sum equals the sum over all roads of (length if it meets the buffer, else 0), divided by 1000 |
| Density.DensityOfExtraRow | analyze_asphalt_density.py:31-32 | with no dedup every row counts: one more row raises the density by its length/1000 if it meets the buffer, else leaves it unchanged |
| Density.DensityMonotone | asphalt_streamlit.py:45-46 | removing rows (any subsequence) never raises a density |
| Density.DedupCountsOnce | asphalt_streamlit.py:26 | after dedup each distinct geometry is selected at most once per point, and the density is at most the raw-row density |
| Density.DensityLoop | asphalt_streamlit.py:42-47 | the loop yields one density per grid point, in grid order, the i-th measured at the i-th point |
| Density.Attach | asphalt_streamlit.py:50 | the density column is attached positionally: sample i is grid point i with density i |
| Ranking.Insert | asphalt_streamlit.py:57 | inserting into a density-sorted sequence keeps it sorted and adds exactly the one sample |
| Ranking.SortDesc | asphalt_streamlit.py:57 | the sort is a permutation of the grid with non-increasing densities |
| Ranking.SuffixDominated | asphalt_streamlit.py:57 | in a sorted sequence nothing after position k is denser than anything before it |
| Ranking.SplitMultiset | asphalt_streamlit.py:57 | the samples left out of a prefix are exactly the suffix, as a multiset |
| Ranking.PrefixIsTop | asphalt_streamlit.py:57 | the first min(n, size) samples of any sorted permutation are an admissible top-n answer |
| Ranking.TopN | asphalt_streamlit.py:57 | head(n) of the descending sort has min(n, size) samples, all drawn from the grid with their own densities, non-increasing, and no omitted sample is denser than any selected one |
| Interactive.NumberInput | asphalt_streamlit.py:53 | the widget fails iff its default lies outside [min, max]; otherwise the value is within [min, max], the default when nothing is entered, and an in-range entry as given |
| Interactive.TopCountAsWritten | asphalt_streamlit.py:53 | as written, the count widget fails exactly when the grid has fewer than 5 points; otherwise its value is within 1..len(grid) |
| Interactive.TopCountAsWrittenRejectsSmallGrids | asphalt_streamlit.py:53 | as written, the count widget fails exactly for grids of fewer than 5 points, the empty grid included |
| Interactive.TopCount | asphalt_streamlit.py:53 | corrected count: 0 iff the grid is empty, otherwise within 1..size, default min(5, size), an in-range entry as given |
| Interactive.TopLocations | asphalt_streamlit.py:56-59 | the selection is an admissible top-n answer, and an empty grid gives an empty selection |
| Interactive.TopCountAgreesOnLargeGrids | asphalt_streamlit.py:53 | on a grid of at least 5 points the widget as written succeeds and returns the corrected count |
| Interactive.Distinct | asphalt_streamlit.py:25-26 | the working geometries have no duplicates and are exactly the reprojections of the input roads |
| Interactive.Points | asphalt_streamlit.py:27-36 | the grid over the extent of the distinct reprojected roads at the chosen spacing; its properties are stated by Pipeline.SamplePoints and the Grid lemmas |
| Interactive.Survey | asphalt_streamlit.py:21-50 | fails (EmptyInput) iff there are no roads; otherwise one sample per grid point over the extent of the distinct reprojected roads at the chosen spacing, in grid order, each with its own density at the chosen radius |
| Interactive.Explore | asphalt_streamlit.py:21-59 | as written: fails iff there are no roads (EmptyInput) or the grid has fewer than 5 points (DefaultOutsideBounds, the count widget's default above its maximum); otherwise the measured grid, of at least 5 points, and an admissible top-n selection for the widget's count |
| Interactive.ExploreCorrected | asphalt_streamlit.py:21-59 | with the corrected count: fails (EmptyInput) iff there are no roads; otherwise the measured grid and an admissible top-n selection for the corrected count |
| Batch.Report | analyze_asphalt_density.py:10-38 | fails iff there are no roads; otherwise the grid steps by 0.2 over the native extent; density i is measured at the reprojection of point i with radius 16093 over every reprojected row and stored on native point i; the top list is an admissible top-5 selection of at most 5 |
| Enrich.GovColumns | combine_datasets.py:20-26 | the selection starts with geometry, holds surface iff present and lanes iff present, has no repeats, and puts surface before lanes |
| Enrich.Matches | combine_datasets.py:29 | one OSM row yields exactly one row per intersecting government row, with its multiplicity (attached in the government frame's order, a choice of the model), or a single row with no government attributes exactly when none intersects |
| Enrich.Lefts | combine_datasets.py:29 | the OSM side of the joined rows, by position |
| Enrich.LeftJoin | combine_datasets.py:29 | the join has one row per intersecting (OSM, government) pair plus one bare row per OSM row that intersects nothing; every OSM row is kept, in order; every intersecting pair appears; attached government rows do intersect; bare rows occur exactly for OSM rows that intersect nothing |
| Enrich.LeftJoinIsFlatten | combine_datasets.py:29 | the join is the per-OSM-row blocks of matches laid end to end, in the OSM frame's order |
| Enrich.LeftJoinBlock | combine_datasets.py:29 | each OSM row's block is contiguous: the join is the join of the rows before it, then that row's matches, then the join of the rows after it |
| Enrich.JoinStepOrder | combine_datasets.py:29 | placing one OSM row's block before the rest of the join keeps the OSM rows in order |
| Enrich.JoinStepRows | combine_datasets.py:29 | placing one OSM row's block before the rest of the join keeps every row genuine and every intersecting pair present |
| Enrich.Final | combine_datasets.py:32-37 | the government value wins when present and non-null, else the OSM value; with no government column the plain column is copied; with neither, null; no value is invented |
| Enrich.Merge | combine_datasets.py:32-44 | fails iff a government column exists without its OSM partner; otherwise every row is kept, unchanged and in order, and surface_final and lanes_final follow the same precedence rule |
| Download.AsphaltEdges | download_osm_pa.py:25-29 | with a surface column, exactly the asphalt edges are kept, each with its multiplicity, in order; without one the edges are returned unchanged; the result is always a subsequence |
| Download.DownloadRadiusValue | download_osm_pa.py:9 | the download radius is 100 * 1609.34 = 160934 metres |
| Examples.OneRoadDensity | asphalt_streamlit.py:44-46 | with one 10 m road meeting only the origin's buffer, the origin has density 0.01 km and every other point 0 |
| Examples.OneRoadTop | asphalt_streamlit.py:57 | for that example, the single top location is the origin |

## Left out

- All file and network I/O: reading and writing GeoPackage and shapefile data, the osmnx graph download (download_osm_pa.py:18-22), and check_enriched.py. None of it has logic of its own.
- The interactive widgets beyond the count input. The two sliders become preconditions on their ranges. The caching of the loaded roads is left out.
- Map building, marker rendering, the HTML save and the map-centre logic (asphalt_streamlit.py:61-112, analyze_asphalt_density.py:40-57). These are presentation only.
- CRS reprojection. It is a floating-point library transform and becomes a caller-supplied function. Only its count and order preservation is modelled.
- Buffer construction, intersection and length in the geometry library. They are abstract, and no disk property such as monotonicity in the radius is claimed, because the buffer is a polygonal approximation.
- Float rounding in `np.arange`. The model uses exact reals; with floats the axis length can differ by one.
- Tie order in `sort_values`. The default quicksort is not stable, so `IsTopN` admits any order among equal densities. `TopN` happens to pick one of them.
- Enrich.Matches: the library gives no order among the government rows joined to one OSM row; its spatial index decides it. The model attaches them in the government frame's order, and `Enrich.LeftJoinIsFlatten` and `Enrich.LeftJoinBlock` inherit that order within each block. Which of several joined rows a later `drop_duplicates` keeps can therefore differ from the library. Row counts, block contiguity and densities do not depend on it.
- The spatial index inside `gpd.sjoin`, and the names it gives clashing columns. The suffixes `'_osm'`/`'_gov'` are appended after an underscore of their own. The column-presence tests become boolean inputs (`Presence`).
- Interactive.NumberInput: an entry outside the bounds is modelled as clamped. The front end actually refuses such an entry.
- Enrich.Final: `combine_first(None)` is modelled as a failure (`MissingOsmColumn`) rather than the library's exception.

## Findings

| source | as written | input that shows it | evidently intended | confidence | as-written member | corrected member |
|---|---|---|---|---|---|---|
| asphalt_streamlit.py:53 | the count widget has min 1, max len(grid) and default 5; the widget library rejects a default outside [min, max] | a road extent less than two spacings wide in both directions, so each axis has at most 2 values and the grid at most 4 points: the widget raises before anything is shown; an empty grid raises too, so the branch at lines 58-59 is unreachable | ask only when the grid is non-empty, with default min(5, len(grid)) | medium: relies on the widget library's documented default-value check; not executed | Interactive.TopCountAsWrittenRejectsSmallGrids | Interactive.TopCount |
