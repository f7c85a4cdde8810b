/**
 * Enrichment (combine_datasets.py): keep the useful government columns, attach
 * government rows to every OSM road they intersect with a left join, and derive
 * `surface_final` / `lanes_final` preferring the government value.
 */
module Enrich {
  import opened Results
  import opened Seqs

  /** Lines 20-26: `geometry`, then `surface` if present, then `lanes` if present. */
  function GovColumns(hasSurface: bool, hasLanes: bool): (cols: seq<string>)
    ensures |cols| >= 1 && cols[0] == "geometry"
    ensures "surface" in cols <==> hasSurface
    ensures "lanes" in cols <==> hasLanes
    ensures NoDuplicates(cols)
    ensures forall i, j :: 0 <= i < |cols| && 0 <= j < |cols| && cols[i] == "surface" && cols[j] == "lanes" ==> i < j
  {
    ["geometry"] + (if hasSurface then ["surface"] else []) + (if hasLanes then ["lanes"] else [])
  }

  /** One row of the joined frame: an OSM row and the government row attached to it, if any. */
  datatype Joined<L, R> = Joined(left: L, right: Option<R>)

  /** The mask "this government row intersects the OSM row `l`". */
  function Meeting<L, R>(l: L, meets: (L, R) -> bool): R -> bool {
    g => meets(l, g)
  }

  /** The number of rows one OSM row contributes: one per intersecting government row, at least one. */
  function BlockSize<L, R>(l: L, gov: seq<R>, meets: (L, R) -> bool): nat {
    var c := Count(gov, Meeting(l, meets));
    if c == 0 then 1 else c
  }

  /** The number of rows of the whole join: the block sizes of the OSM rows, added up. */
  function JoinSize<L, R>(osm: seq<L>, gov: seq<R>, meets: (L, R) -> bool): nat
    decreases |osm|
  {
    if |osm| == 0 then 0 else BlockSize(osm[0], gov, meets) + JoinSize(osm[1..], gov, meets)
  }

  /**
   * The rows one OSM row contributes: one per intersecting government row, in
   * the government frame's order and with its multiplicity, or one bare row
   * exactly when none intersects.
   */
  function Matches<L, R(==,!new)>(l: L, gov: seq<R>, meets: (L, R) -> bool): (rows: seq<Joined<L, R>>)
    ensures |rows| == BlockSize(l, gov, meets)
    ensures Count(gov, Meeting(l, meets)) == 0 ==> rows == [Joined(l, None)]
    ensures Count(gov, Meeting(l, meets)) > 0 ==>
              var hits := Filter(gov, Meeting(l, meets));
              |rows| == |hits| && forall i :: 0 <= i < |hits| ==> rows[i] == Joined(l, Some(hits[i]))
    ensures forall j :: j in rows ==> j.left == l
    ensures forall j :: j in rows && j.right.Some? ==> j.right.value in gov && meets(l, j.right.value)
    ensures forall j :: j in rows && j.right.None? ==> forall g :: g in gov ==> !meets(l, g)
    ensures forall g :: g in gov && meets(l, g) ==> Joined(l, Some(g)) in rows
  {
    var hits := Filter(gov, Meeting(l, meets));
    FilterLength(gov, Meeting(l, meets));
    if |hits| == 0 then
      [Joined(l, None)]
    else
      var rows := seq(|hits|, i requires 0 <= i < |hits| => Joined(l, Some(hits[i])));
      EveryHitJoined(l, hits, rows);
      rows
  }

  lemma EveryHitJoined<L, R>(l: L, hits: seq<R>, rows: seq<Joined<L, R>>)
    requires |rows| == |hits|
    requires forall i :: 0 <= i < |hits| ==> rows[i] == Joined(l, Some(hits[i]))
    ensures forall g :: g in hits ==> Joined(l, Some(g)) in rows
  {
    forall g | g in hits
      ensures Joined(l, Some(g)) in rows
    {
      var i :| 0 <= i < |hits| && hits[i] == g;
      assert rows[i] == Joined(l, Some(g));
    }
  }

  /** The OSM side of every joined row, in order. */
  function Lefts<L, R>(rows: seq<Joined<L, R>>): (ls: seq<L>)
    ensures |ls| == |rows|
    ensures forall i :: 0 <= i < |rows| ==> ls[i] == rows[i].left
  {
    seq(|rows|, i requires 0 <= i < |rows| => rows[i].left)
  }

  /**
   * Line 29: `sjoin(how='left', predicate='intersects')`. Every OSM row is kept,
   * in order; every intersecting (OSM, government) pair appears; every attached
   * government row does intersect; and a row without government attributes
   * occurs exactly for OSM rows that intersect nothing.
   */
  function LeftJoin<L(==,!new), R(==,!new)>(osm: seq<L>, gov: seq<R>, meets: (L, R) -> bool): (rows: seq<Joined<L, R>>)
    ensures |rows| == JoinSize(osm, gov, meets) >= |osm|
    ensures IsSubsequence(osm, Lefts(rows))
    ensures forall j :: j in rows ==> j.left in osm
    ensures forall j :: j in rows && j.right.Some? ==> j.right.value in gov && meets(j.left, j.right.value)
    ensures forall j :: j in rows && j.right.None? ==> forall g :: g in gov ==> !meets(j.left, g)
    ensures forall l, g :: l in osm && g in gov && meets(l, g) ==> Joined(l, Some(g)) in rows
    decreases |osm|
  {
    if |osm| == 0 then []
    else
      var head := Matches(osm[0], gov, meets);
      var rest := LeftJoin(osm[1..], gov, meets);
      JoinStepOrder(osm, head, rest);
      JoinStepRows(osm, gov, meets, head, rest);
      head + rest
  }

  /** The block of rows one OSM row contributes, as a function of the OSM row. */
  function MatchesOf<L, R(==,!new)>(gov: seq<R>, meets: (L, R) -> bool): L -> seq<Joined<L, R>> {
    l => Matches(l, gov, meets)
  }

  /** The join is the OSM rows' blocks laid end to end, in the OSM frame's order. */
  lemma {:induction false} LeftJoinIsFlatten<L(!new), R(!new)>(osm: seq<L>, gov: seq<R>, meets: (L, R) -> bool)
    ensures LeftJoin(osm, gov, meets) == Flatten(osm, MatchesOf(gov, meets))
    decreases |osm|
  {
    if |osm| > 0 {
      LeftJoinIsFlatten(osm[1..], gov, meets);
    }
  }

  /**
   * The block of OSM row k is contiguous: the join is the join of the rows
   * before it, then its matches, then the join of the rows after it.
   */
  lemma LeftJoinBlock<L(!new), R(!new)>(osm: seq<L>, gov: seq<R>, meets: (L, R) -> bool, k: nat)
    requires k < |osm|
    ensures LeftJoin(osm, gov, meets)
         == LeftJoin(osm[..k], gov, meets) + Matches(osm[k], gov, meets) + LeftJoin(osm[k + 1..], gov, meets)
  {
    var f := MatchesOf(gov, meets);
    LeftJoinIsFlatten(osm, gov, meets);
    LeftJoinIsFlatten(osm[..k], gov, meets);
    LeftJoinIsFlatten(osm[k + 1..], gov, meets);
    FlattenSplit(osm, f, k);
  }

  /** One step of the join keeps the OSM rows in order. */
  lemma JoinStepOrder<L(!new), R>(osm: seq<L>, head: seq<Joined<L, R>>, rest: seq<Joined<L, R>>)
    requires |osm| > 0 && |head| >= 1 && head[0].left == osm[0]
    requires IsSubsequence(osm[1..], Lefts(rest))
    ensures IsSubsequence(osm, Lefts(head + rest))
  {
    var hl, rl := Lefts(head), Lefts(rest);
    assert Lefts(head + rest) == hl + rl;
    SubsequenceUnderPrefix(osm[1..], rl, hl[1..]);
    assert (hl + rl)[0] == osm[0];
    assert (hl + rl)[1..] == hl[1..] + rl;
  }

  /** One step of the join keeps every row genuine and every intersecting pair present. */
  lemma JoinStepRows<L(!new), R(!new)>(osm: seq<L>, gov: seq<R>, meets: (L, R) -> bool,
                                       head: seq<Joined<L, R>>, rest: seq<Joined<L, R>>)
    requires |osm| > 0 && head == Matches(osm[0], gov, meets)
    requires forall j :: j in rest ==> j.left in osm[1..]
    requires forall j :: j in rest && j.right.Some? ==> j.right.value in gov && meets(j.left, j.right.value)
    requires forall j :: j in rest && j.right.None? ==> forall g :: g in gov ==> !meets(j.left, g)
    requires forall l, g :: l in osm[1..] && g in gov && meets(l, g) ==> Joined(l, Some(g)) in rest
    ensures forall j :: j in head + rest ==> j.left in osm
    ensures forall j :: j in head + rest && j.right.Some? ==> j.right.value in gov && meets(j.left, j.right.value)
    ensures forall j :: j in head + rest && j.right.None? ==> forall g :: g in gov ==> !meets(j.left, g)
    ensures forall l, g :: l in osm && g in gov && meets(l, g) ==> Joined(l, Some(g)) in head + rest
  {
    assert osm == [osm[0]] + osm[1..];
    forall l, g | l in osm && g in gov && meets(l, g)
      ensures Joined(l, Some(g)) in head + rest
    {
      if l == osm[0] {
        assert Joined(l, Some(g)) in head;
      } else {
        assert l in osm[1..];
      }
    }
  }

  /** Why a merge cannot complete. */
  datatype MergeError =
    | MissingOsmColumn  // the government column exists but the OSM one does not: `combine_first(None)` fails

  /** Which of the three candidate columns of one attribute exist after the join. */
  datatype Presence = Presence(govSuffixed: bool, osmSuffixed: bool, plain: bool)

  /** The three candidate values of one attribute in one row (None: null or column absent). */
  datatype Cells<V> = Cells(gov: Option<V>, osm: Option<V>, plain: Option<V>)

  /** The layouts on which the source fails. */
  predicate Broken(p: Presence) {
    p.govSuffixed && !p.osmSuffixed
  }

  /**
   * Lines 32-37 for one row: the government value when its column exists and the
   * value is not null, otherwise the OSM value; with no government column the
   * plain column is copied; with neither, null. No value is ever invented.
   */
  function Final<V>(p: Presence, c: Cells<V>): (v: Option<V>)
    requires !Broken(p)
    ensures p.govSuffixed && c.gov.Some? ==> v == c.gov
    ensures p.govSuffixed && c.gov.None? ==> v == c.osm
    ensures !p.govSuffixed && p.plain ==> v == c.plain
    ensures !p.govSuffixed && !p.plain ==> v.None?
    ensures v.Some? ==> v == c.gov || v == c.osm || v == c.plain
  {
    if p.govSuffixed then (if c.gov.Some? then c.gov else c.osm)
    else if p.plain then c.plain
    else None
  }

  /** A joined row with the two derived columns added. */
  datatype Enriched<T, V> = Enriched(row: T, surfaceFinal: Option<V>, lanesFinal: Option<V>)

  /**
   * Lines 32-44: derive `surface_final` and then `lanes_final` with the same rule.
   * The merge fails exactly when either attribute has the government column
   * without the OSM one. Otherwise it keeps every row, in order and unchanged,
   * and adds only the two derived values.
   */
  function Merge<T, V>(rows: seq<T>, surfaceCols: Presence, lanesCols: Presence,
                       surface: T -> Cells<V>, lanes: T -> Cells<V>): (r: Result<seq<Enriched<T, V>>, MergeError>)
    ensures r.Failure? <==> Broken(surfaceCols) || Broken(lanesCols)
    ensures r.Success? ==> |r.value| == |rows|
    ensures r.Success? ==> forall i :: 0 <= i < |rows| ==> r.value[i].row == rows[i]
    ensures r.Success? ==> forall i :: 0 <= i < |rows| ==>
              r.value[i].surfaceFinal == Final(surfaceCols, surface(rows[i]))
              && r.value[i].lanesFinal == Final(lanesCols, lanes(rows[i]))
  {
    if Broken(surfaceCols) || Broken(lanesCols) then Failure(MissingOsmColumn)
    else Success(seq(|rows|, i requires 0 <= i < |rows| =>
                   Enriched(rows[i], Final(surfaceCols, surface(rows[i])), Final(lanesCols, lanes(rows[i])))))
  }
}
