/**
 The coordinate normaliser: every point of a list of integer pairs is mapped,
 axis by axis, from the bounding range of its column onto the fixed range
 10..990.

 `norm.py` computes `int((v - min) / (max - min) * 980 + 10)` in floating
 point. For the non-negative quotient involved, `int()` truncation equals the
 floor, so this model uses exact integer arithmetic:
 `(v - min) * 980 / (max - min) + 10`. Floating-point rounding may make the
 script differ from the exact floor at rare boundary values.
 */
module Normalize {

  import opened Arith

  /** An input or output point: an ordered pair of integers. */
  datatype Pair = Pair(x: int, y: int)

  /** Why normalisation fails. */
  datatype NormError =
    | EmptyInput     // `min()` of an empty sequence raises
    | FlatXRange     // every x is equal: division by zero on the x axis
    | FlatYRange     // every y is equal: division by zero on the y axis

  /** The outcome of normalising a whole list. */
  datatype Outcome = Normalized(points: seq<Pair>) | Failed(reason: NormError)

  /** The four extrema of a non-empty list, one pair per axis. */
  datatype Extent = Extent(minX: int, maxX: int, minY: int, maxY: int)

  const TargetMin: int := 10
  const TargetMax: int := 990
  const Span: int := TargetMax - TargetMin

  /** The x column of a list of points. */
  function Xs(pts: seq<Pair>): (xs: seq<int>)
    ensures |xs| == |pts|
    ensures forall i :: 0 <= i < |pts| ==> xs[i] == pts[i].x
  {
    seq(|pts|, i requires 0 <= i < |pts| => pts[i].x)
  }

  /** The y column of a list of points. */
  function Ys(pts: seq<Pair>): (ys: seq<int>)
    ensures |ys| == |pts|
    ensures forall i :: 0 <= i < |pts| ==> ys[i] == pts[i].y
  {
    seq(|pts|, i requires 0 <= i < |pts| => pts[i].y)
  }

  /** The least element of a non-empty sequence, scanned left to right. */
  function Min(xs: seq<int>): (m: int)
    requires |xs| > 0
    ensures m in xs
    ensures forall i :: 0 <= i < |xs| ==> m <= xs[i]
  {
    if |xs| == 1 then xs[0]
    else
      var m := Min(xs[..|xs| - 1]);
      if xs[|xs| - 1] < m then xs[|xs| - 1] else m
  }

  /** The greatest element of a non-empty sequence, scanned left to right. */
  function Max(xs: seq<int>): (m: int)
    requires |xs| > 0
    ensures m in xs
    ensures forall i :: 0 <= i < |xs| ==> xs[i] <= m
  {
    if |xs| == 1 then xs[0]
    else
      var m := Max(xs[..|xs| - 1]);
      if xs[|xs| - 1] > m then xs[|xs| - 1] else m
  }

  /** The per-axis extrema of a non-empty list. Each is attained by some
      point and bounds every point on its axis. */
  function Extrema(pts: seq<Pair>): (e: Extent)
    requires |pts| > 0
    ensures exists i :: 0 <= i < |pts| && pts[i].x == e.minX
    ensures exists i :: 0 <= i < |pts| && pts[i].x == e.maxX
    ensures exists i :: 0 <= i < |pts| && pts[i].y == e.minY
    ensures exists i :: 0 <= i < |pts| && pts[i].y == e.maxY
    ensures forall i :: 0 <= i < |pts| ==> e.minX <= pts[i].x <= e.maxX
    ensures forall i :: 0 <= i < |pts| ==> e.minY <= pts[i].y <= e.maxY
  {
    var xs := Xs(pts);
    var ys := Ys(pts);
    Extent(Min(xs), Max(xs), Min(ys), Max(ys))
  }

  /** `r` is the floor of the exact linear map of `v` from `lo..hi` onto
      `TargetMin..TargetMax`: `r - TargetMin` times the source width is at
      most `v - lo` times the target width, and one more is above it. */
  predicate FloorOfMap(r: int, v: int, lo: int, hi: int)
  {
    (r - TargetMin) * (hi - lo) <= (v - lo) * Span < (r - TargetMin + 1) * (hi - lo)
  }

  /** One coordinate mapped from `lo..hi` onto `TargetMin..TargetMax`:
      the floor of the exact value of the linear map. */
  function Rescale(v: int, lo: int, hi: int): (r: int)
    requires lo <= v <= hi && lo < hi
    ensures TargetMin <= r <= TargetMax
    ensures FloorOfMap(r, v, lo, hi)
  {
    RescaleBounds(v, lo, hi);
    (v - lo) * Span / (hi - lo) + TargetMin
  }

  lemma RescaleBounds(v: int, lo: int, hi: int)
    requires lo <= v <= hi && lo < hi
    ensures 0 <= (v - lo) * Span / (hi - lo) <= Span
    ensures var q := (v - lo) * Span / (hi - lo);
            q * (hi - lo) <= (v - lo) * Span < (q + 1) * (hi - lo)
  {
    var d := hi - lo;
    var a := (v - lo) * Span;
    var q := a / d;
    assert a == q * d + a % d;
    MulLe(v - lo, d, Span);
    assert a <= Span * d;
    if q < 0 {
      MulLe(q, -1, d);
    } else if q > Span {
      MulLe(Span + 1, q, d);
    }
  }

  /** The rescaling is monotone. */
  lemma RescaleMonotone(v: int, w: int, lo: int, hi: int)
    requires lo <= v <= w <= hi && lo < hi
    ensures Rescale(v, lo, hi) <= Rescale(w, lo, hi)
  {
    var d := hi - lo;
    var rv := Rescale(v, lo, hi) - TargetMin;
    var rw := Rescale(w, lo, hi) - TargetMin;
    if rv > rw {
      MulLe(rw + 1, rv, d);
      MulLe(v - lo, w - lo, Span);
    }
  }

  /** The endpoints of the source range map to the endpoints of the target. */
  lemma RescaleEndpoints(lo: int, hi: int)
    requires lo < hi
    ensures Rescale(lo, lo, hi) == TargetMin
    ensures Rescale(hi, lo, hi) == TargetMax
  {
    var d := hi - lo;
    DivModUnique(0, d, 0, 0);
    DivModUnique(d * Span, d, Span, 0);
  }

  /** Rescaling from the target range onto itself changes nothing. */
  lemma RescaleFixed(v: int)
    requires TargetMin <= v <= TargetMax
    ensures Rescale(v, TargetMin, TargetMax) == v
  {
  }

  /** Normalises a list of points, with the two failure modes of
      `norm.py`: an empty list, and an axis on which every value is equal
      (x is checked first, as the first point computes its x first). */
  function Normalize(pts: seq<Pair>): (r: Outcome)
    ensures r == Failed(EmptyInput) <==> |pts| == 0
    ensures r == Failed(FlatXRange) <==>
              |pts| > 0 && forall i :: 0 <= i < |pts| ==> pts[i].x == pts[0].x
    ensures r == Failed(FlatYRange) <==>
              && |pts| > 0
              && (exists i :: 0 <= i < |pts| && pts[i].x != pts[0].x)
              && (forall i :: 0 <= i < |pts| ==> pts[i].y == pts[0].y)
    ensures r.Normalized? ==>
              && |r.points| == |pts|
              && forall i :: 0 <= i < |pts| ==>
                   && TargetMin <= r.points[i].x <= TargetMax
                   && TargetMin <= r.points[i].y <= TargetMax
  {
    if |pts| == 0 then Failed(EmptyInput)
    else
      var e := Extrema(pts);
      if e.maxX == e.minX then Failed(FlatXRange)
      else if e.maxY == e.minY then Failed(FlatYRange)
      else Normalized(seq(|pts|, i requires 0 <= i < |pts| =>
                        Pair(Rescale(pts[i].x, e.minX, e.maxX), Rescale(pts[i].y, e.minY, e.maxY))))
  }

  /** Point `i` of a successful normalisation is the exact floor of the
      linear map of point `i` of the input, on each axis from that axis's
      extrema: the output keeps length and order, and each output column
      depends only on the matching input column. */
  lemma NormalizeAt(pts: seq<Pair>, i: int)
    requires Normalize(pts).Normalized? && 0 <= i < |pts|
    ensures var out := Normalize(pts).points;
            var e := Extrema(pts);
            && e.minX < e.maxX && e.minY < e.maxY
            && FloorOfMap(out[i].x, pts[i].x, e.minX, e.maxX)
            && FloorOfMap(out[i].y, pts[i].y, e.minY, e.maxY)
  {
    NormalizePoint(pts, i);
  }

  /** Point `i` of a successful normalisation, rescaled axis by axis. */
  lemma NormalizePoint(pts: seq<Pair>, i: int)
    requires Normalize(pts).Normalized? && 0 <= i < |pts|
    ensures var e := Extrema(pts);
            && e.minX < e.maxX && e.minY < e.maxY
            && Normalize(pts).points[i]
               == Pair(Rescale(pts[i].x, e.minX, e.maxX), Rescale(pts[i].y, e.minY, e.maxY))
  {
  }

  /** A point whose coordinate is least on its axis lands on 10, and one
      whose coordinate is greatest lands on 990. */
  lemma {:induction false} NormalizeEndpoints(pts: seq<Pair>, i: int)
    requires Normalize(pts).Normalized? && 0 <= i < |pts|
    ensures (forall j :: 0 <= j < |pts| ==> pts[i].x <= pts[j].x) ==> Normalize(pts).points[i].x == TargetMin
    ensures (forall j :: 0 <= j < |pts| ==> pts[j].x <= pts[i].x) ==> Normalize(pts).points[i].x == TargetMax
    ensures (forall j :: 0 <= j < |pts| ==> pts[i].y <= pts[j].y) ==> Normalize(pts).points[i].y == TargetMin
    ensures (forall j :: 0 <= j < |pts| ==> pts[j].y <= pts[i].y) ==> Normalize(pts).points[i].y == TargetMax
  {
    var e := Extrema(pts);
    NormalizePoint(pts, i);
    RescaleEndpoints(e.minX, e.maxX);
    RescaleEndpoints(e.minY, e.maxY);
    if forall j :: 0 <= j < |pts| ==> pts[i].x <= pts[j].x {
      var k :| 0 <= k < |pts| && pts[k].x == e.minX;
      assert pts[i].x == e.minX;
    }
    if forall j :: 0 <= j < |pts| ==> pts[j].x <= pts[i].x {
      var k :| 0 <= k < |pts| && pts[k].x == e.maxX;
      assert pts[i].x == e.maxX;
    }
    if forall j :: 0 <= j < |pts| ==> pts[i].y <= pts[j].y {
      var k :| 0 <= k < |pts| && pts[k].y == e.minY;
      assert pts[i].y == e.minY;
    }
    if forall j :: 0 <= j < |pts| ==> pts[j].y <= pts[i].y {
      var k :| 0 <= k < |pts| && pts[k].y == e.maxY;
      assert pts[i].y == e.maxY;
    }
  }

  /** Normalisation is monotone on each axis. */
  lemma NormalizeMonotone(pts: seq<Pair>, i: int, j: int)
    ensures Normalize(pts).Normalized? && 0 <= i < |pts| && 0 <= j < |pts| && pts[i].x <= pts[j].x ==>
              Normalize(pts).points[i].x <= Normalize(pts).points[j].x
    ensures Normalize(pts).Normalized? && 0 <= i < |pts| && 0 <= j < |pts| && pts[i].y <= pts[j].y ==>
              Normalize(pts).points[i].y <= Normalize(pts).points[j].y
  {
    if Normalize(pts).Normalized? && 0 <= i < |pts| && 0 <= j < |pts| {
      var e := Extrema(pts);
      NormalizePoint(pts, i);
      NormalizePoint(pts, j);
      if pts[i].x <= pts[j].x {
        RescaleMonotone(pts[i].x, pts[j].x, e.minX, e.maxX);
      }
      if pts[i].y <= pts[j].y {
        RescaleMonotone(pts[i].y, pts[j].y, e.minY, e.maxY);
      }
    }
  }

  /** The x column of the output depends only on the x column of the input,
      and likewise for y. */
  lemma NormalizeColumnwise(pts: seq<Pair>, qts: seq<Pair>)
    ensures Normalize(pts).Normalized? && Normalize(qts).Normalized? && Xs(pts) == Xs(qts) ==>
              Xs(Normalize(pts).points) == Xs(Normalize(qts).points)
    ensures Normalize(pts).Normalized? && Normalize(qts).Normalized? && Ys(pts) == Ys(qts) ==>
              Ys(Normalize(pts).points) == Ys(Normalize(qts).points)
  {
  }

  /** A list inside the target square that touches all four of its sides
      has the target range as its extent. */
  lemma TargetExtent(out: seq<Pair>, ix: int, jx: int, iy: int, jy: int)
    requires forall k :: 0 <= k < |out| ==>
               TargetMin <= out[k].x <= TargetMax && TargetMin <= out[k].y <= TargetMax
    requires 0 <= ix < |out| && out[ix].x == TargetMin
    requires 0 <= jx < |out| && out[jx].x == TargetMax
    requires 0 <= iy < |out| && out[iy].y == TargetMin
    requires 0 <= jy < |out| && out[jy].y == TargetMax
    ensures Extrema(out) == Extent(TargetMin, TargetMax, TargetMin, TargetMax)
  {
    var f := Extrema(out);
    assert f.minX <= out[ix].x && f.maxX >= out[jx].x;
    assert f.minY <= out[iy].y && f.maxY >= out[jy].y;
  }

  /** A successful normalisation attains 10 and 990 on both axes. */
  lemma NormalizedExtent(pts: seq<Pair>)
    requires Normalize(pts).Normalized?
    ensures Extrema(Normalize(pts).points) == Extent(TargetMin, TargetMax, TargetMin, TargetMax)
  {
    var e := Extrema(pts);
    var ix :| 0 <= ix < |pts| && pts[ix].x == e.minX;
    var jx :| 0 <= jx < |pts| && pts[jx].x == e.maxX;
    var iy :| 0 <= iy < |pts| && pts[iy].y == e.minY;
    var jy :| 0 <= jy < |pts| && pts[jy].y == e.maxY;
    RescaleEndpoints(e.minX, e.maxX);
    RescaleEndpoints(e.minY, e.maxY);
    NormalizePoint(pts, ix);
    NormalizePoint(pts, jx);
    NormalizePoint(pts, iy);
    NormalizePoint(pts, jy);
    TargetExtent(Normalize(pts).points, ix, jx, iy, jy);
  }

  /** Normalising a normalised list gives it back unchanged: its extrema are
      exactly 10 and 990 on both axes, where the map is the identity. */
  lemma NormalizeIdempotent(pts: seq<Pair>)
    requires Normalize(pts).Normalized?
    ensures Normalize(Normalize(pts).points) == Normalize(pts)
  {
    var out := Normalize(pts).points;
    NormalizedExtent(pts);
    var again := Normalize(out);
    assert again.Normalized?;
    forall k | 0 <= k < |out|
      ensures again.points[k] == out[k]
    {
      RescaleFixed(out[k].x);
      RescaleFixed(out[k].y);
    }
  }

  /** An example: (0,0), (10,10), (5,5) normalise to
      (10,10), (990,990), (500,500). */
  lemma NormalizeExample()
    ensures Normalize([Pair(0, 0), Pair(10, 10), Pair(5, 5)])
         == Normalized([Pair(10, 10), Pair(990, 990), Pair(500, 500)])
  {
    var pts := [Pair(0, 0), Pair(10, 10), Pair(5, 5)];
    var e := Extrema(pts);
    assert e == Extent(0, 10, 0, 10);
  }
}
