/**
 * Extent and sample grid: `total_bounds` of the feature set, the two half-open
 * axes built with `np.arange(min, max, step)`, and their Cartesian product with
 * x outer and y inner.
 */
module Grid {
  import opened Results
  import opened Geometry

  /** The smallest box enclosing both `a` and `b`. */
  function Hull(a: Box, b: Box): Box {
    Box(if a.minX <= b.minX then a.minX else b.minX,
        if a.minY <= b.minY then a.minY else b.minY,
        if a.maxX >= b.maxX then a.maxX else b.maxX,
        if a.maxY >= b.maxY then a.maxY else b.maxY)
  }

  /**
   * `total_bounds`: the tightest box around every feature's own bounds. An empty
   * feature set has no extent (the library reports NaN bounds, on which the
   * range construction fails).
   */
  function TotalBounds<G>(feats: seq<G>, bounds: G -> Box): (ext: Option<Box>)
    ensures ext.None? <==> |feats| == 0
    ensures ext.Some? ==> forall g :: g in feats ==> ext.value.Encloses(bounds(g))
    ensures ext.Some? ==> exists g :: g in feats && bounds(g).minX == ext.value.minX
    ensures ext.Some? ==> exists g :: g in feats && bounds(g).minY == ext.value.minY
    ensures ext.Some? ==> exists g :: g in feats && bounds(g).maxX == ext.value.maxX
    ensures ext.Some? ==> exists g :: g in feats && bounds(g).maxY == ext.value.maxY
    ensures ext.Some? && (forall g :: g in feats ==> bounds(g).Valid()) ==> ext.value.Valid()
    decreases |feats|
  {
    if |feats| == 0 then None
    else
      assert feats == [feats[0]] + feats[1..];
      assert forall g :: g in feats[1..] ==> g in feats;
      match TotalBounds(feats[1..], bounds)
      case None => Some(bounds(feats[0]))
      case Some(rest) => Some(Hull(bounds(feats[0]), rest))
  }

  /** The least integer not below `r`. */
  function Ceil(r: real): (c: int)
    ensures r <= c as real < r + 1.0
  {
    -((-r).Floor)
  }

  /** Number of values `np.arange(lo, hi, step)` produces: ceil((hi - lo) / step), or none. */
  function AxisLength(lo: real, hi: real, step: real): nat
    requires step > 0.0
  {
    if hi <= lo then 0
    else
      QuotientPositive(hi - lo, step);
      Ceil((hi - lo) / step)
  }

  lemma QuotientPositive(d: real, step: real)
    requires d > 0.0 && step > 0.0
    ensures d / step > 0.0
  {
  }

  /** Multiplying a quotient back by its positive divisor preserves the comparison. */
  lemma ScaleBack(i: real, d: real, step: real)
    requires step > 0.0
    ensures i < d / step ==> i * step < d
    ensures i >= d / step ==> i * step >= d
  {
    assert (d / step) * step == d;
    if i < d / step {
      assert i * step < (d / step) * step;
    } else {
      assert i * step >= (d / step) * step;
    }
  }

  /** Every value the axis produces lies below `hi`, and the next one would not. */
  lemma AxisBounds(lo: real, hi: real, step: real, xs: seq<real>)
    requires step > 0.0
    requires |xs| == AxisLength(lo, hi, step)
    requires forall i :: 0 <= i < |xs| ==> xs[i] == lo + i as real * step
    ensures forall i :: 0 <= i < |xs| ==> xs[i] < hi
    ensures hi <= lo + |xs| as real * step
  {
    var n := |xs|;
    if hi > lo {
      forall i | 0 <= i < n
        ensures xs[i] < hi
      {
        assert (i as real) < (hi - lo) / step;
        ScaleBack(i as real, hi - lo, step);
      }
      ScaleBack(n as real, hi - lo, step);
    }
  }

  /**
   * `np.arange(lo, hi, step)` over exact reals: the values lo + i*step for
   * i = 0, 1, ..., up to the first one that is not below `hi`.
   */
  function Arange(lo: real, hi: real, step: real): (xs: seq<real>)
    requires step > 0.0
    ensures forall i :: 0 <= i < |xs| ==> xs[i] == lo + i as real * step
    ensures forall i :: 0 <= i < |xs| ==> xs[i] < hi
    ensures hi <= lo + |xs| as real * step
  {
    var xs := seq(AxisLength(lo, hi, step), i requires 0 <= i => lo + i as real * step);
    AxisBounds(lo, hi, step, xs);
    xs
  }

  /** Size and first value of an axis, as numpy computes them. */
  lemma ArangeShape(lo: real, hi: real, step: real)
    requires step > 0.0
    ensures hi <= lo ==> Arange(lo, hi, step) == []
    ensures lo < hi ==> |Arange(lo, hi, step)| == Ceil((hi - lo) / step) >= 1
    ensures lo < hi ==> Arange(lo, hi, step)[0] == lo
  {
  }

  /** The axis is strictly increasing and never below its start. */
  lemma ArangeIncreasing(lo: real, hi: real, step: real)
    requires step > 0.0
    ensures var xs := Arange(lo, hi, step);
            forall i, j :: 0 <= i < j < |xs| ==> lo <= xs[i] < xs[j]
  {
    var xs := Arange(lo, hi, step);
    forall i, j | 0 <= i < j < |xs|
      ensures lo <= xs[i] < xs[j]
    {
      assert xs[j] - xs[i] == (j - i) as real * step;
      assert (j - i) as real * step > 0.0;
      assert 0.0 <= i as real * step;
    }
  }

  /** One row of the comprehension: the fixed x paired with every y, in order. */
  function Row(x: real, ys: seq<real>): (row: seq<Point>)
    ensures |row| == |ys|
    ensures forall j :: 0 <= j < |ys| ==> row[j] == Point(x, ys[j])
  {
    seq(|ys|, j requires 0 <= j < |ys| => Point(x, ys[j]))
  }

  /** `[Point(x, y) for x in xs for y in ys]`. */
  function Cartesian(xs: seq<real>, ys: seq<real>): seq<Point>
    decreases |xs|
  {
    if |xs| == 0 then [] else Row(xs[0], ys) + Cartesian(xs[1..], ys)
  }

  /** The product has one point per pair: |xs| * |ys| of them. */
  lemma {:induction false} CartesianSize(xs: seq<real>, ys: seq<real>)
    ensures |Cartesian(xs, ys)| == |xs| * |ys|
    decreases |xs|
  {
    if |xs| > 0 {
      CartesianSize(xs[1..], ys);
      assert |Cartesian(xs, ys)| == |ys| + (|xs| - 1) * |ys|;
    }
  }

  /** With x outer and y inner, position i * |ys| + j holds (xs[i], ys[j]). */
  lemma {:induction false} CartesianPoint(xs: seq<real>, ys: seq<real>, i: nat, j: nat)
    requires i < |xs| && j < |ys|
    ensures i * |ys| + j < |Cartesian(xs, ys)|
    ensures Cartesian(xs, ys)[i * |ys| + j] == Point(xs[i], ys[j])
    decreases i
  {
    var m := |ys|;
    var g := Cartesian(xs, ys);
    var rest := Cartesian(xs[1..], ys);
    assert g == Row(xs[0], ys) + rest;
    if i == 0 {
      assert g[j] == Row(xs[0], ys)[j];
    } else {
      CartesianPoint(xs[1..], ys, i - 1, j);
      var k := (i - 1) * m + j;
      assert i * m + j == m + k;
      assert g[m + k] == rest[k];
    }
  }

  /** Reading the product by position: every point k is some (xs[i], ys[j]) with k = i * |ys| + j. */
  lemma {:induction false} CartesianAt(xs: seq<real>, ys: seq<real>, k: nat) returns (i: nat, j: nat)
    requires k < |Cartesian(xs, ys)|
    ensures i < |xs| && j < |ys| && k == i * |ys| + j
    ensures Cartesian(xs, ys)[k] == Point(xs[i], ys[j])
    decreases |xs|
  {
    var m := |ys|;
    var rest := Cartesian(xs[1..], ys);
    assert Cartesian(xs, ys) == Row(xs[0], ys) + rest;
    if k < m {
      i, j := 0, k;
    } else {
      var i', j' := CartesianAt(xs[1..], ys, k - m);
      i, j := i' + 1, j';
      assert (i' + 1) * m == i' * m + m;
    }
  }

  /** Lines 34-36: the sample points for an extent at a given spacing. */
  function GridOver(ext: Box, step: real): seq<Point>
    requires step > 0.0
  {
    Cartesian(Arange(ext.minX, ext.maxX, step), Arange(ext.minY, ext.maxY, step))
  }

  /**
   * Over a box of positive width and height the grid has
   * ceil(width / step) * ceil(height / step) points and starts at the lower corner.
   */
  lemma GridSize(ext: Box, step: real)
    requires step > 0.0
    requires ext.minX < ext.maxX && ext.minY < ext.maxY
    ensures |GridOver(ext, step)| == Ceil((ext.maxX - ext.minX) / step) * Ceil((ext.maxY - ext.minY) / step)
    ensures GridOver(ext, step)[0] == Point(ext.minX, ext.minY)
  {
    var xs, ys := Arange(ext.minX, ext.maxX, step), Arange(ext.minY, ext.maxY, step);
    CartesianSize(xs, ys);
    ArangeShape(ext.minX, ext.maxX, step);
    ArangeShape(ext.minY, ext.maxY, step);
    CartesianPoint(xs, ys, 0, 0);
  }

  /** A box that is flat (or inverted) in either direction yields no points at all. */
  lemma GridEmpty(ext: Box, step: real)
    requires step > 0.0
    ensures GridOver(ext, step) == [] <==> ext.maxX <= ext.minX || ext.maxY <= ext.minY
  {
    var xs, ys := Arange(ext.minX, ext.maxX, step), Arange(ext.minY, ext.maxY, step);
    CartesianSize(xs, ys);
    ArangeShape(ext.minX, ext.maxX, step);
    ArangeShape(ext.minY, ext.maxY, step);
    if |xs| == 0 || |ys| == 0 {
      assert |xs| * |ys| == 0;
    } else {
      assert |xs| * |ys| > 0;
    }
  }

  /** Every grid point lies in the half-open box [minX, maxX) x [minY, maxY). */
  lemma GridWithin(ext: Box, step: real)
    requires step > 0.0
    ensures forall p :: p in GridOver(ext, step) ==>
              ext.minX <= p.x < ext.maxX && ext.minY <= p.y < ext.maxY
  {
    var xs, ys := Arange(ext.minX, ext.maxX, step), Arange(ext.minY, ext.maxY, step);
    var g := GridOver(ext, step);
    forall p | p in g
      ensures ext.minX <= p.x < ext.maxX && ext.minY <= p.y < ext.maxY
    {
      var k :| 0 <= k < |g| && g[k] == p;
      var i, j := CartesianAt(xs, ys, k);
      assert 0.0 <= i as real * step;
      assert 0.0 <= j as real * step;
      assert p == Point(xs[i], ys[j]);
    }
  }

  /** The worked example: extent (0, 0, 10, 10) at spacing 5 gives four points, x outer. */
  lemma GridExample()
    ensures GridOver(Box(0.0, 0.0, 10.0, 10.0), 5.0)
         == [Point(0.0, 0.0), Point(0.0, 5.0), Point(5.0, 0.0), Point(5.0, 5.0)]
  {
    assert Ceil(10.0 / 5.0) == 2;
    var xs := Arange(0.0, 10.0, 5.0);
    assert xs == [0.0, 5.0];
    assert Row(0.0, xs) == [Point(0.0, 0.0), Point(0.0, 5.0)];
    assert Row(5.0, xs) == [Point(5.0, 0.0), Point(5.0, 5.0)];
    assert xs[1..][1..] == [];
  }
}
