/**
 The letterbox transform from the logical 1000 x 1000 plane onto a window
 of any size: one uniform scale (the smaller of the two axis ratios), the
 scaled square centred by an offset on each axis, and the result truncated
 to whole pixels as Python's `int()` does (towards zero).
 */
module Viewport {

  import opened Geometry
  import opened Arith

  /** The logical plane is 1000 units wide and 1000 units high. */
  const LogicalW: real := 1000.0
  const LogicalH: real := 1000.0

  /** The uniform scale and the two centring offsets for one window size. */
  datatype Letterbox = Letterbox(scale: real, offsetX: real, offsetY: real)

  /** A window position in whole pixels. */
  datatype Pixel = Pixel(x: int, y: int)

  /** Python's `int()` on a float: truncation towards zero. */
  function Trunc(v: real): (t: int)
    ensures v >= 0.0 ==> 0 <= t && t as real <= v < t as real + 1.0
    ensures v < 0.0 ==> t <= 0 && t as real - 1.0 < v <= t as real
  {
    if v >= 0.0 then v.Floor else -((-v).Floor)
  }

  /** Truncation keeps order. */
  lemma TruncMonotone(u: real, v: real)
    requires u <= v
    ensures Trunc(u) <= Trunc(v)
  {
    if u < 0.0 && v >= 0.0 {
    } else if u >= 0.0 {
      assert u.Floor <= v.Floor;
    } else {
      assert (-v).Floor <= (-u).Floor;
    }
  }

  /** The letterbox for a `surfW` x `surfH` window. */
  function Fit(surfW: nat, surfH: nat): (b: Letterbox)
    ensures b.scale >= 0.0
    ensures LogicalW * b.scale <= surfW as real && LogicalH * b.scale <= surfH as real
    ensures LogicalW * b.scale == surfW as real || LogicalH * b.scale == surfH as real
    ensures b.offsetX >= 0.0 && b.offsetY >= 0.0
    ensures LogicalW * b.scale == surfW as real ==> b.offsetX == 0.0
    ensures LogicalH * b.scale == surfH as real ==> b.offsetY == 0.0
    ensures b.offsetX == surfW as real - (b.offsetX + LogicalW * b.scale)
    ensures b.offsetY == surfH as real - (b.offsetY + LogicalH * b.scale)
  {
    var rw := surfW as real / LogicalW;
    var rh := surfH as real / LogicalH;
    var scale := if rh < rw then rh else rw;
    Letterbox(scale, (surfW as real - LogicalW * scale) / 2.0, (surfH as real - LogicalH * scale) / 2.0)
  }

  /** The scale is the largest uniform scale at which the logical plane
      fits in the window. */
  lemma FitIsLargest(surfW: nat, surfH: nat, s: real)
    requires LogicalW * s <= surfW as real && LogicalH * s <= surfH as real
    ensures s <= Fit(surfW, surfH).scale
  {
  }

  /** One logical coordinate scaled and shifted onto its window axis. */
  function Axis(v: real, scale: real, offset: real): real
  {
    v * scale + offset
  }

  /** The exact window position of a logical point, before truncation. */
  function Place(p: Point, b: Letterbox): Point
  {
    Point(Axis(p.x, b.scale, b.offsetX), Axis(p.y, b.scale, b.offsetY))
  }

  /** Undoing the letterbox on a window position. */
  function Unplace(q: Point, b: Letterbox): Point
    requires b.scale != 0.0
  {
    Point((q.x - b.offsetX) / b.scale, (q.y - b.offsetY) / b.scale)
  }

  /** When the window is not empty, the exact placement is invertible. */
  lemma PlaceInvertible(p: Point, surfW: nat, surfH: nat)
    requires surfW > 0 && surfH > 0
    ensures Fit(surfW, surfH).scale > 0.0
    ensures Unplace(Place(p, Fit(surfW, surfH)), Fit(surfW, surfH)) == p
  {
    var b := Fit(surfW, surfH);
    assert (p.x * b.scale) / b.scale == p.x;
    assert (p.y * b.scale) / b.scale == p.y;
  }

  /** The letterbox facts the drawing lemmas rely on. */
  predicate Centred(b: Letterbox, surfW: nat, surfH: nat)
  {
    && b.scale >= 0.0 && b.offsetX >= 0.0 && b.offsetY >= 0.0
    && b.offsetX == surfW as real - (b.offsetX + LogicalW * b.scale)
    && b.offsetY == surfH as real - (b.offsetY + LogicalH * b.scale)
  }

  /** A logical point drawn with a given letterbox. */
  function Draw(p: Point, b: Letterbox): Pixel
  {
    var e := Place(p, b);
    Pixel(Trunc(e.x), Trunc(e.y))
  }

  /** A logical point drawn in a `surfW` x `surfH` window. */
  function ScalePoint(p: Point, surfW: nat, surfH: nat): (q: Pixel)
    ensures 0.0 <= p.x <= LogicalW && 0.0 <= p.y <= LogicalH ==>
              0 <= q.x <= surfW && 0 <= q.y <= surfH
    ensures surfW == 1000 && surfH == 1000 ==> q == Pixel(Trunc(p.x), Trunc(p.y))
  {
    DrawInside(p, Fit(surfW, surfH), surfW, surfH);
    FitSquare();
    Draw(p, Fit(surfW, surfH))
  }

  /** A window the size of the logical plane needs no scaling and no
      offset. */
  lemma FitSquare()
    ensures Fit(1000, 1000) == Letterbox(1.0, 0.0, 0.0)
  {
  }

  /** A point inside the logical plane is drawn inside the window. */
  lemma DrawInside(p: Point, b: Letterbox, surfW: nat, surfH: nat)
    requires Centred(b, surfW, surfH)
    ensures 0.0 <= p.x <= LogicalW && 0.0 <= p.y <= LogicalH ==>
              0 <= Draw(p, b).x <= surfW && 0 <= Draw(p, b).y <= surfH
  {
    if 0.0 <= p.x <= LogicalW && 0.0 <= p.y <= LogicalH {
      InsideWindow(p.x, b.scale, b.offsetX, LogicalW, surfW);
      InsideWindow(p.y, b.scale, b.offsetY, LogicalH, surfH);
    }
  }

  /** A coordinate inside the logical range lands inside the window. */
  lemma InsideWindow(v: real, scale: real, offset: real, logical: real, surf: nat)
    requires 0.0 <= v <= logical && 0.0 <= scale && 0.0 <= offset
    requires offset == surf as real - (offset + logical * scale)
    ensures 0 <= Trunc(Axis(v, scale, offset)) <= surf
  {
    AxisWithin(v, scale, offset, logical, surf as real);
    TruncWithin(Axis(v, scale, offset), surf);
  }

  /** Before truncation, a coordinate inside the logical range lies
      between 0 and the window extent `room`. */
  lemma AxisWithin(v: real, scale: real, offset: real, logical: real, room: real)
    requires 0.0 <= v <= logical && 0.0 <= scale && 0.0 <= offset
    requires offset == room - (offset + logical * scale)
    ensures 0.0 <= Axis(v, scale, offset) <= room
  {
    MulLeReal(0.0, v, scale);
    MulLeReal(v, logical, scale);
  }

  /** A value in [0, surf] truncates to a whole number in 0..surf. */
  lemma TruncWithin(a: real, surf: nat)
    requires 0.0 <= a <= surf as real
    ensures 0 <= Trunc(a) <= surf
  {
  }

  /** Drawing keeps order on each axis. */
  lemma DrawMonotone(p: Point, p': Point, b: Letterbox)
    requires b.scale >= 0.0
    ensures p.x <= p'.x ==> Draw(p, b).x <= Draw(p', b).x
    ensures p.y <= p'.y ==> Draw(p, b).y <= Draw(p', b).y
  {
    if p.x <= p'.x {
      AxisMonotone(p.x, p'.x, b.scale, b.offsetX);
    }
    if p.y <= p'.y {
      AxisMonotone(p.y, p'.y, b.scale, b.offsetY);
    }
  }

  /** Scaling by a non-negative factor, shifting and truncating keeps
      order. */
  lemma AxisMonotone(u: real, v: real, scale: real, offset: real)
    requires u <= v && scale >= 0.0
    ensures Trunc(Axis(u, scale, offset)) <= Trunc(Axis(v, scale, offset))
  {
    MulLeReal(u, v, scale);
    TruncMonotone(Axis(u, scale, offset), Axis(v, scale, offset));
  }

  /** Drawing in a window keeps order on each axis. */
  lemma ScalePointMonotone(p: Point, p': Point, surfW: nat, surfH: nat)
    ensures p.x <= p'.x ==> ScalePoint(p, surfW, surfH).x <= ScalePoint(p', surfW, surfH).x
    ensures p.y <= p'.y ==> ScalePoint(p, surfW, surfH).y <= ScalePoint(p', surfW, surfH).y
  {
    FitSquare();
    DrawMonotone(p, p', Fit(surfW, surfH));
  }
}
