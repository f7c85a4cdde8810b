/**
 * The road download (download_osm_pa.py): the size of the download area and the
 * choice of asphalt edges, falling back to every edge when no surface data exists.
 */
module Download {
  import opened Seqs
  import opened Units

  /**
   * The value of an edge's `surface` attribute: absent (NaN), one tag, or the
   * list of tags an edge gets when the graph simplification merges segments.
   */
  datatype SurfaceTag = NoTag | Single(tag: string) | Merged(tags: seq<string>)

  /** `surface == 'asphalt'`: only a single tag equal to the string qualifies. */
  predicate IsAsphalt(t: SurfaceTag) {
    t == Single("asphalt")
  }

  /**
   * Lines 25-29. With a surface column: exactly the asphalt edges, every one of
   * them with its multiplicity, in their original order. Without one: every
   * edge, unchanged. Either way the result is a subsequence of the input.
   */
  function AsphaltEdges<E(==,!new)>(edges: seq<E>, hasSurfaceColumn: bool, surface: E -> SurfaceTag): (kept: seq<E>)
    ensures IsSubsequence(kept, edges)
    ensures hasSurfaceColumn ==> forall e :: e in kept ==> surface(e) == Single("asphalt")
    ensures hasSurfaceColumn ==> forall e :: surface(e) == Single("asphalt") ==> multiset(kept)[e] == multiset(edges)[e]
    ensures hasSurfaceColumn ==> forall e :: surface(e) != Single("asphalt") ==> e !in kept
    ensures !hasSurfaceColumn ==> kept == edges
  {
    if hasSurfaceColumn then
      var keep := e => IsAsphalt(surface(e));
      FilterIsSubsequence(edges, keep);
      FilterCounts(edges, keep);
      Filter(edges, keep)
    else
      SubsequenceOfItself(edges);
      edges
  }

  /** Line 9: the download area reaches 100 miles, 160 934 metres, from the centre. */
  lemma DownloadRadiusValue()
    ensures DownloadRadius == 100.0 * 1609.34 == 160934.0
  {
  }
}
