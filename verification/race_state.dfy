/**
 The vertex and lap bookkeeping of the animation loop, as a pure step
 function over the state (position, current vertex, next vertex, lap).

 Each frame either reaches the next vertex or does not; whether it does is
 the comparison of a floating-point distance with the per-frame speed,
 which is an input here (`arrived`). When it does not, the marker moves a
 float step towards the next vertex; that position is an input too
 (`glide`).
 */
module RaceState {

  import opened Geometry
  import opened Arith

  /** The animation state: where the marker is, the vertex it last reached,
      the vertex it is heading for, and the index of the lap in progress. */
  datatype Race = Race(pos: Point, current: int, next: int, lap: int)

  /** What a single frame decides, from geometry outside this model. */
  datatype Frame = Frame(arrived: bool, glide: Point)

  /** The startup guard: at least two path vertices and one lap time. */
  predicate Runnable(coords: seq<Point>, lapCount: int)
  {
    |coords| >= 2 && lapCount >= 1
  }

  /** The invariant of the animation loop. */
  predicate Valid(r: Race, n: int, lapCount: int)
    requires n > 0
  {
    && 0 <= r.current < n
    && r.next == (r.current + 1) % n
    && 0 <= r.lap < lapCount
  }

  /** The state before the first frame: at vertex 0, heading for vertex 1,
      in lap 0. */
  function Start(coords: seq<Point>, lapCount: int): (r: Race)
    requires Runnable(coords, lapCount)
    ensures Valid(r, |coords|, lapCount)
    ensures r.pos == coords[r.current] && r.current == 0 && r.lap == 0
  {
    Race(coords[0], 0, 1, 0)
  }

  /** One frame of bookkeeping. On arrival the marker snaps onto the vertex
      it was heading for, both indices move one vertex on, and the lap
      counter moves on (wrapping round the lap times) when the next vertex
      becomes 1 again. Otherwise only the position changes. */
  function Step(coords: seq<Point>, lapCount: int, r: Race, f: Frame): (s: Race)
    requires Runnable(coords, lapCount) && Valid(r, |coords|, lapCount)
    ensures Valid(s, |coords|, lapCount)
    ensures f.arrived ==> s.pos == coords[r.next] && s.current == r.next
    ensures !f.arrived ==> s == r.(pos := f.glide)
    ensures s.lap == if f.arrived && r.next == 0 then (r.lap + 1) % lapCount else r.lap
  {
    if f.arrived then
      var n := |coords|;
      var next := (r.next + 1) % n;
      var lap := if next == 1 then (r.lap + 1) % lapCount else r.lap;
      NextIsOneAfterZero(r.next, n);
      Race(coords[r.next], r.next, next, lap)
    else
      r.(pos := f.glide)
  }

  /** On a cycle of at least two vertices, the vertex after `v` is 1 exactly
      when `v` is 0: the test `next_point == 1` in `f1.py` detects a
      return to the start vertex. */
  lemma NextIsOneAfterZero(v: int, n: int)
    requires n >= 2 && 0 <= v < n
    ensures (v + 1) % n == 1 <==> v == 0
  {
    if v + 1 < n {
      DivModUnique(v + 1, n, 0, v + 1);
    } else {
      DivModUnique(v + 1, n, 1, 0);
    }
  }

  /** The state after a sequence of frames. */
  function Run(coords: seq<Point>, lapCount: int, r: Race, frames: seq<Frame>): (s: Race)
    requires Runnable(coords, lapCount) && Valid(r, |coords|, lapCount)
    ensures Valid(s, |coords|, lapCount)
  {
    if |frames| == 0 then r
    else Step(coords, lapCount, Run(coords, lapCount, r, frames[..|frames| - 1]), frames[|frames| - 1])
  }

  /** The number of frames in which the marker reached a vertex. */
  function Arrivals(frames: seq<Frame>): (k: nat)
    ensures k <= |frames|
  {
    if |frames| == 0 then 0
    else Arrivals(frames[..|frames| - 1]) + (if frames[|frames| - 1].arrived then 1 else 0)
  }

  /** The state reached from the start after `k` arrivals. */
  predicate AfterArrivals(r: Race, n: int, lapCount: int, k: int)
    requires n > 0 && lapCount > 0 && k >= 0
  {
    && r.current == k % n
    && r.next == (k + 1) % n
    && r.lap == (k / n) % lapCount
  }

  /** One more arrival moves the counts on by one. */
  lemma ArrivalAdvances(coords: seq<Point>, lapCount: int, r: Race, f: Frame, k: int)
    requires Runnable(coords, lapCount) && Valid(r, |coords|, lapCount) && k >= 0
    requires AfterArrivals(r, |coords|, lapCount, k)
    ensures f.arrived ==> AfterArrivals(Step(coords, lapCount, r, f), |coords|, lapCount, k + 1)
    ensures !f.arrived ==> AfterArrivals(Step(coords, lapCount, r, f), |coords|, lapCount, k)
  {
    var n := |coords|;
    if f.arrived {
      SuccMod(k + 1, n);
      SuccMod(k, n);
      DivModSucc(k, n);
      if r.next == 0 {
        SuccMod(k / n, lapCount);
      }
    }
  }

  /** After any sequence of frames from the start, the indices and the lap
      are determined by the number of arrivals `k` alone: the marker is at
      vertex `k mod n`, heads for `(k + 1) mod n`, and is in lap
      `(k div n) mod L`. */
  lemma {:induction false} RunFromStart(coords: seq<Point>, lapCount: int, frames: seq<Frame>)
    requires Runnable(coords, lapCount)
    ensures AfterArrivals(Run(coords, lapCount, Start(coords, lapCount), frames),
                          |coords|, lapCount, Arrivals(frames))
  {
    var n := |coords|;
    if |frames| > 0 {
      var before := frames[..|frames| - 1];
      RunFromStart(coords, lapCount, before);
      ArrivalAdvances(coords, lapCount, Run(coords, lapCount, Start(coords, lapCount), before),
                      frames[|frames| - 1], Arrivals(before));
    } else {
      DivModUnique(0, n, 0, 0);
      DivModUnique(1, n, 0, 1);
      DivModUnique(0, lapCount, 0, 0);
    }
  }

  /** A frame that does not arrive changes nothing but the position. */
  lemma {:induction false} RunWithoutArrival(coords: seq<Point>, lapCount: int, r: Race, frames: seq<Frame>)
    requires Runnable(coords, lapCount) && Valid(r, |coords|, lapCount)
    requires forall i :: 0 <= i < |frames| ==> !frames[i].arrived
    ensures var s := Run(coords, lapCount, r, frames);
            s.current == r.current && s.next == r.next && s.lap == r.lap
  {
    if |frames| > 0 {
      RunWithoutArrival(coords, lapCount, r, frames[..|frames| - 1]);
    }
  }
}
