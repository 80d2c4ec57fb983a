/**
 The length of the closed path the marker travels: one edge per vertex,
 from each vertex to the next, including the closing edge from the last
 vertex back to the first.

 The Euclidean distance of `f1.py` (a square root over floats) is an
 abstract edge-length function here; only the cyclic structure of the sum
 is modelled.
 */
module PathLength {

  import opened Geometry

  /** The sum of a sequence of reals, added left to right. */
  function Sum(s: seq<real>): real
  {
    if |s| == 0 then 0.0 else Sum(s[..|s| - 1]) + s[|s| - 1]
  }

  /** The index after `i` on a cycle of `n` vertices. */
  function Succ(i: int, n: int): (j: int)
    requires 0 <= i < n
    ensures 0 <= j < n
  {
    if i + 1 < n then i + 1 else 0
  }

  /** `Succ` is `f1.py`'s `(i + 1) % len(coords)`. */
  lemma SuccIsModulo(i: int, n: int)
    requires 0 <= i < n
    ensures Succ(i, n) == (i + 1) % n
  {
  }

  /** The lengths of the edges of the closed path through `coords`, in
      order: edge `i` joins vertex `i` to vertex `i + 1`, and the last edge
      joins the last vertex to the first. */
  function EdgeLengths(coords: seq<Point>, edge: (Point, Point) -> real): (ls: seq<real>)
    ensures |ls| == |coords|
    ensures forall i :: 0 <= i < |coords| - 1 ==> ls[i] == edge(coords[i], coords[i + 1])
    ensures |coords| > 0 ==> ls[|coords| - 1] == edge(coords[|coords| - 1], coords[0])
  {
    var n := |coords|;
    var ls := seq(n, i requires 0 <= i < n => edge(coords[i], coords[Succ(i, n)]));
    assert forall i :: 0 <= i < n ==> ls[i] == edge(coords[i], coords[Succ(i, n)]);
    ls
  }

  /** The lengths of the edges of the open polyline through `coords`, with
      no closing edge. */
  function OpenEdgeLengths(coords: seq<Point>, edge: (Point, Point) -> real): (ls: seq<real>)
    requires |coords| > 0
    ensures |ls| == |coords| - 1
  {
    seq(|coords| - 1, i requires 0 <= i < |coords| - 1 => edge(coords[i], coords[i + 1]))
  }

  /** The path length as the loop in `f1.py` accumulates it, vertex by
      vertex. */
  method CalculatePathLength(coords: seq<Point>, edge: (Point, Point) -> real) returns (total: real)
    ensures total == Sum(EdgeLengths(coords, edge))
    ensures |coords| == 0 ==> total == 0.0
    ensures |coords| > 0 ==>
              total == Sum(OpenEdgeLengths(coords, edge)) + edge(coords[|coords| - 1], coords[0])
    ensures (forall p, q :: edge(p, q) >= 0.0) ==> total >= 0.0
  {
    var ls := EdgeLengths(coords, edge);
    total := 0.0;
    var i := 0;
    while i < |coords|
      invariant 0 <= i <= |coords|
      invariant total == Sum(ls[..i])
    {
      assert ls[..i + 1][..i] == ls[..i];
      SuccIsModulo(i, |coords|);
      total := total + edge(coords[i], coords[(i + 1) % |coords|]);
      i := i + 1;
    }
    assert ls[..|coords|] == ls;
    if |coords| > 0 {
      ClosedIsOpenPlusClosing(coords, edge);
    }
    SumNonNegative(ls, edge, coords);
  }

  /** The closed length is the open polyline's length plus the closing
      edge. */
  lemma ClosedIsOpenPlusClosing(coords: seq<Point>, edge: (Point, Point) -> real)
    requires |coords| > 0
    ensures Sum(EdgeLengths(coords, edge))
         == Sum(OpenEdgeLengths(coords, edge)) + edge(coords[|coords| - 1], coords[0])
  {
    var ls := EdgeLengths(coords, edge);
    assert ls[..|ls| - 1] == OpenEdgeLengths(coords, edge);
  }

  lemma {:induction false} SumNonNegative(ls: seq<real>, edge: (Point, Point) -> real, coords: seq<Point>)
    requires ls == EdgeLengths(coords, edge)
    ensures (forall p, q :: edge(p, q) >= 0.0) ==> Sum(ls) >= 0.0
  {
    if forall p, q :: edge(p, q) >= 0.0 {
      forall i | 0 <= i < |ls|
        ensures ls[i] >= 0.0
      {
        if i < |ls| - 1 {
          assert ls[i] == edge(coords[i], coords[i + 1]);
        } else {
          assert ls[i] == edge(coords[|coords| - 1], coords[0]);
        }
      }
      NonNegativeSum(ls);
    }
  }

  /** A sum of non-negative terms is non-negative. */
  lemma {:induction false} NonNegativeSum(s: seq<real>)
    requires forall i :: 0 <= i < |s| ==> s[i] >= 0.0
    ensures Sum(s) >= 0.0
  {
    if |s| > 0 {
      NonNegativeSum(s[..|s| - 1]);
    }
  }

  /** Sum distributes over concatenation. */
  lemma {:induction false} SumAppend(a: seq<real>, b: seq<real>)
    ensures Sum(a + b) == Sum(a) + Sum(b)
    decreases |b|
  {
    if |b| > 0 {
      assert (a + b)[..|a + b| - 1] == a + b[..|b| - 1];
      SumAppend(a, b[..|b| - 1]);
    } else {
      assert a + b == a;
    }
  }

  /** The path read from vertex `k` onwards, wrapping round. */
  function Rotate<T>(s: seq<T>, k: int): (r: seq<T>)
    requires 0 <= k <= |s|
    ensures |r| == |s|
    ensures forall i :: 0 <= i < |s| - k ==> r[i] == s[i + k]
    ensures forall i :: |s| - k <= i < |s| ==> r[i] == s[i + k - |s|]
  {
    s[k..] + s[..k]
  }

  /** The edges of a rotated path are the rotated edges of the path. */
  lemma RotateEdgeLengths(coords: seq<Point>, edge: (Point, Point) -> real, k: int)
    requires 0 <= k < |coords|
    ensures EdgeLengths(Rotate(coords, k), edge) == Rotate(EdgeLengths(coords, edge), k)
  {
    var n := |coords|;
    var rc := Rotate(coords, k);
    var lhs := EdgeLengths(rc, edge);
    var rhs := Rotate(EdgeLengths(coords, edge), k);
    forall i | 0 <= i < n
      ensures lhs[i] == rhs[i]
    {
      var j := if i < n - k then i + k else i + k - n;
      assert rc[i] == coords[j];
      assert rc[Succ(i, n)] == coords[Succ(j, n)];
    }
  }

  /** The path length does not depend on which vertex the list starts
      from. */
  lemma RotationInvariant(coords: seq<Point>, edge: (Point, Point) -> real, k: int)
    requires 0 <= k < |coords|
    ensures Sum(EdgeLengths(Rotate(coords, k), edge)) == Sum(EdgeLengths(coords, edge))
  {
    var ls := EdgeLengths(coords, edge);
    RotateEdgeLengths(coords, edge, k);
    SumAppend(ls[k..], ls[..k]);
    SumAppend(ls[..k], ls[k..]);
    assert ls[..k] + ls[k..] == ls;
  }
}
