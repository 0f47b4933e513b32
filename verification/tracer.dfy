/** `traceEdge`: a greedy walk through strong edge pixels. From the current
    pixel it marks the pixel visited, then moves to the first of eight
    neighbours, in a fixed order, that is inside the image, unvisited and
    stronger than the threshold; it stops when there is none or when the
    trace has grown past 1000 points. */
module Tracer {
  import opened Wrappers
  import opened Raster
  import opened PathSyntax

  /** The trace stops as soon as it holds more than this many points. */
  const MaxPoints: nat := 1000

  /** E, SE, S, SW, W, NW, N, NE (y grows downwards). */
  const Directions: seq<Point> :=
    [Point(1, 0), Point(1, 1), Point(0, 1), Point(-1, 1), Point(-1, 0), Point(-1, -1), Point(0, -1), Point(1, -1)]

  function Neighbour(p: Point, k: int): Point
    requires 0 <= k < 8
  {
    Point(p.x + Directions[k].x, p.y + Directions[k].y)
  }

  /** 8-adjacency: distinct pixels at most one step apart on each axis. */
  predicate Adjacent(p: Point, q: Point) {
    p != q && -1 <= q.x - p.x <= 1 && -1 <= q.y - p.y <= 1
  }

  lemma NeighbourAdjacent(p: Point, k: int)
    requires 0 <= k < 8
    ensures Adjacent(p, Neighbour(p, k))
  {
  }

  /** Edge strength of a pixel: channel 0 of the edge buffer. */
  function Strength(e: Raster, p: Point): Byte
    requires WellFormed(e) && InBounds(e.width, e.height, p)
  {
    Sample(e.data, e.width, e.height, p.x, p.y, 0)
  }

  /** Inside the image and strictly stronger than the threshold. */
  predicate Strong(e: Raster, t: real, p: Point)
    requires WellFormed(e)
  {
    InBounds(e.width, e.height, p) && Strength(e, p) as real > t
  }

  /** A pixel the walk may move to, and the scan may start a walk at. */
  predicate Qualifies(e: Raster, t: real, visited: set<Point>, p: Point)
    requires WellFormed(e)
  {
    Strong(e, t, p) && p !in visited
  }

  /** The first direction from `k` on whose neighbour qualifies. */
  function FirstFrom(e: Raster, t: real, visited: set<Point>, cur: Point, k: nat): (r: Option<nat>)
    requires WellFormed(e) && k <= 8
    ensures r.Some? ==> k <= r.value < 8
    decreases 8 - k
  {
    if k == 8 then None
    else if Qualifies(e, t, visited, Neighbour(cur, k)) then Some(k)
    else FirstFrom(e, t, visited, cur, k + 1)
  }

  /** `FirstFrom` finds the least qualifying direction from `k` on, and
      finds none exactly when no direction from `k` on qualifies. */
  lemma {:induction false} FirstFromSpec(e: Raster, t: real, visited: set<Point>, cur: Point, k: nat)
    requires WellFormed(e) && k <= 8
    ensures var r := FirstFrom(e, t, visited, cur, k);
      && (r.Some? ==>
            && Qualifies(e, t, visited, Neighbour(cur, r.value))
            && forall j :: k <= j < r.value ==> !Qualifies(e, t, visited, Neighbour(cur, j)))
      && (r.None? ==> forall j :: k <= j < 8 ==> !Qualifies(e, t, visited, Neighbour(cur, j)))
    decreases 8 - k
  {
    if k < 8 && !Qualifies(e, t, visited, Neighbour(cur, k)) {
      FirstFromSpec(e, t, visited, cur, k + 1);
    }
  }

  /** The successor the walk picks from `cur`: the neighbour in the first
      qualifying direction, or None when no direction qualifies. */
  function NextStep(e: Raster, t: real, visited: set<Point>, cur: Point): Option<Point>
    requires WellFormed(e)
  {
    match FirstFrom(e, t, visited, cur, 0)
    case None => None
    case Some(k) => Some(Neighbour(cur, k))
  }

  /** The successor is exactly the first of E, SE, S, SW, W, NW, N, NE whose
      neighbour is in bounds, unvisited and strong; there is none exactly
      when no direction qualifies. */
  lemma NextStepIsFirstQualifying(e: Raster, t: real, visited: set<Point>, cur: Point)
    requires WellFormed(e)
    ensures NextStep(e, t, visited, cur).None? <==>
      forall k :: 0 <= k < 8 ==> !Qualifies(e, t, visited, Neighbour(cur, k))
    ensures NextStep(e, t, visited, cur).Some? ==>
      exists k :: 0 <= k < 8 && NextStep(e, t, visited, cur).value == Neighbour(cur, k)
        && Qualifies(e, t, visited, Neighbour(cur, k))
        && forall j :: 0 <= j < k ==> !Qualifies(e, t, visited, Neighbour(cur, j))
  {
    var r := FirstFrom(e, t, visited, cur, 0);
    FirstFromSpec(e, t, visited, cur, 0);
    if r.Some? {
      assert NextStep(e, t, visited, cur).value == Neighbour(cur, r.value);
    }
  }

  lemma NextStepFacts(e: Raster, t: real, visited: set<Point>, cur: Point)
    requires WellFormed(e)
    requires NextStep(e, t, visited, cur).Some?
    ensures var p := NextStep(e, t, visited, cur).value;
      Qualifies(e, t, visited, p) && Adjacent(cur, p)
  {
    var k := FirstFrom(e, t, visited, cur, 0).value;
    FirstFromSpec(e, t, visited, cur, 0);
    NeighbourAdjacent(cur, k);
  }

  // ---------------------------------------------------------------------
  // Reference definition of one walk

  datatype WalkResult = WalkResult(points: seq<Point>, visited: set<Point>)

  function Elems(s: seq<Point>): set<Point> {
    set p | p in s
  }

  /** The points a walk marks visited: all of them, except a final point
      appended when the cap fired (the marking happens at the top of the
      loop, which that point never reaches). */
  function Marked(points: seq<Point>): seq<Point> {
    if |points| > MaxPoints then points[..MaxPoints] else points
  }

  /** The walk continued from `points` (whose last element is the current
      pixel), with `visited` the set before the current pixel is marked. */
  function Walk(e: Raster, t: real, visited: set<Point>, points: seq<Point>): (r: WalkResult)
    requires WellFormed(e) && 1 <= |points| <= MaxPoints
    decreases MaxPoints + 1 - |points|
  {
    var cur := points[|points| - 1];
    var marked := visited + {cur};
    match NextStep(e, t, marked, cur)
    case None => WalkResult(points, marked)
    case Some(p) =>
      var extended := points + [p];
      if |extended| > MaxPoints then WalkResult(extended, marked)
      else Walk(e, t, marked, extended)
  }

  /** The set visited when the step after `pts[i]` was chosen: the start
      set plus every point up to and including `pts[i]`. */
  function SeenAt(visited0: set<Point>, pts: seq<Point>, i: nat): set<Point>
    requires i < |pts|
  {
    visited0 + Elems(pts[..i + 1])
  }

  /** Step `i` of `pts` is the greedy choice against the set visited when
      it was taken. */
  ghost predicate GreedyStep(e: Raster, t: real, visited0: set<Point>, pts: seq<Point>, i: nat)
    requires WellFormed(e) && i + 1 < |pts|
  {
    NextStep(e, t, SeenAt(visited0, pts, i), pts[i]) == Some(pts[i + 1])
  }

  ghost predicate Greedy(e: Raster, t: real, visited0: set<Point>, pts: seq<Point>)
    requires WellFormed(e)
  {
    forall i: nat :: i + 1 < |pts| ==> GreedyStep(e, t, visited0, pts, i)
  }

  lemma ElemsSnoc(s: seq<Point>, p: Point)
    ensures Elems(s + [p]) == Elems(s) + {p}
  {
  }

  lemma GreedySnoc(e: Raster, t: real, visited0: set<Point>, pts: seq<Point>, p: Point)
    requires WellFormed(e) && |pts| >= 1 && Greedy(e, t, visited0, pts)
    requires NextStep(e, t, SeenAt(visited0, pts, |pts| - 1), pts[|pts| - 1]) == Some(p)
    ensures Greedy(e, t, visited0, pts + [p])
  {
    var ext := pts + [p];
    forall i: nat | i + 1 < |ext|
      ensures GreedyStep(e, t, visited0, ext, i)
    {
      assert ext[..i + 1] == pts[..i + 1];
      if i + 1 < |pts| {
        assert GreedyStep(e, t, visited0, pts, i);
      }
    }
  }

  /** The walk from `pts` when the current pixel has no qualifying successor. */
  lemma WalkStopsHere(e: Raster, t: real, before: set<Point>, pts: seq<Point>)
    requires WellFormed(e) && 1 <= |pts| <= MaxPoints
    requires NextStep(e, t, before + {pts[|pts| - 1]}, pts[|pts| - 1]).None?
    ensures Walk(e, t, before, pts) == WalkResult(pts, before + {pts[|pts| - 1]})
  {
  }

  lemma WalkSteps(e: Raster, t: real, before: set<Point>, pts: seq<Point>, p: Point)
    requires WellFormed(e) && 1 <= |pts| <= MaxPoints
    requires NextStep(e, t, before + {pts[|pts| - 1]}, pts[|pts| - 1]) == Some(p)
    ensures |pts| < MaxPoints ==> Walk(e, t, before, pts) == Walk(e, t, before + {pts[|pts| - 1]}, pts + [p])
    ensures |pts| == MaxPoints ==> Walk(e, t, before, pts) == WalkResult(pts + [p], before + {pts[|pts| - 1]})
  {
  }

  /** The walk extends its argument greedily, and ends either at the cap or
      where no direction qualifies; it has then marked exactly the start set
      plus its marked points. */
  lemma {:induction false} WalkInvariant(e: Raster, t: real, visited0: set<Point>, pts: seq<Point>)
    requires WellFormed(e) && 1 <= |pts| <= MaxPoints
    requires Greedy(e, t, visited0, pts)
    ensures var r := Walk(e, t, visited0 + Elems(pts[..|pts| - 1]), pts);
      && pts <= r.points && |r.points| <= MaxPoints + 1
      && Greedy(e, t, visited0, r.points)
      && r.visited == visited0 + Elems(Marked(r.points))
      && (|r.points| <= MaxPoints ==> NextStep(e, t, r.visited, r.points[|r.points| - 1]).None?)
    decreases MaxPoints + 1 - |pts|
  {
    var n := |pts|;
    var cur := pts[n - 1];
    var before := visited0 + Elems(pts[..n - 1]);
    assert pts[..n - 1] + [cur] == pts;
    ElemsSnoc(pts[..n - 1], cur);
    assert pts[..n] == pts;
    assert before + {cur} == SeenAt(visited0, pts, n - 1) == visited0 + Elems(pts);
    match NextStep(e, t, before + {cur}, cur)
    case None =>
      WalkStopsHere(e, t, before, pts);
      assert Marked(pts) == pts;
    case Some(p) =>
      var ext := pts + [p];
      WalkSteps(e, t, before, pts, p);
      GreedySnoc(e, t, visited0, pts, p);
      assert ext[..n] == pts;
      if n < MaxPoints {
        assert ext[..|ext| - 1] == pts;
        assert visited0 + Elems(ext[..|ext| - 1]) == before + {cur};
        WalkInvariant(e, t, visited0, ext);
        var r := Walk(e, t, before + {cur}, ext);
        assert Walk(e, t, before, pts) == r;
        assert pts <= ext <= r.points;
        assert |r.points| <= MaxPoints + 1;
        assert Greedy(e, t, visited0, r.points);
        assert r.visited == visited0 + Elems(Marked(r.points));
        assert |r.points| <= MaxPoints ==> NextStep(e, t, r.visited, r.points[|r.points| - 1]).None?;
      } else {
        assert Marked(ext) == pts;
      }
  }

  /** What `traceEdge` returns about the walk from `start`. */
  lemma WalkFromStart(e: Raster, t: real, visited0: set<Point>, start: Point)
    requires WellFormed(e)
    ensures var r := Walk(e, t, visited0, [start]);
      && 1 <= |r.points| <= MaxPoints + 1 && r.points[0] == start
      && Greedy(e, t, visited0, r.points)
      && r.visited == visited0 + Elems(Marked(r.points))
      && (|r.points| <= MaxPoints ==> NextStep(e, t, r.visited, r.points[|r.points| - 1]).None?)
  {
    assert [start][..0] == [];
    assert visited0 + Elems([start][..0]) == visited0;
    WalkInvariant(e, t, visited0, [start]);
  }

  /** Every step of a greedy sequence moves to an adjacent strong pixel that
      was not visited before, so the points are pairwise distinct. */
  lemma GreedySteps(e: Raster, t: real, visited0: set<Point>, pts: seq<Point>)
    requires WellFormed(e) && Greedy(e, t, visited0, pts)
    ensures forall i :: 1 <= i < |pts| ==>
      && Qualifies(e, t, SeenAt(visited0, pts, i - 1), pts[i])
      && Adjacent(pts[i - 1], pts[i])
      && pts[i] !in visited0
    ensures forall i, j :: 0 <= i < j < |pts| ==> pts[i] != pts[j]
  {
    forall i | 1 <= i < |pts|
      ensures Qualifies(e, t, SeenAt(visited0, pts, i - 1), pts[i]) && Adjacent(pts[i - 1], pts[i])
    {
      assert GreedyStep(e, t, visited0, pts, i - 1);
      NextStepFacts(e, t, SeenAt(visited0, pts, i - 1), pts[i - 1]);
    }
    forall i, j | 0 <= i < j < |pts|
      ensures pts[i] != pts[j]
    {
      assert pts[i] in SeenAt(visited0, pts, j - 1) by {
        assert pts[..j][i] == pts[i];
      }
    }
  }

  /** The properties of one trace, for any start pixel and visited set:
      it begins at `start`; every later point is an in-bounds strong pixel,
      8-adjacent to its predecessor, not in the set visited before; points
      are pairwise distinct; there are at most 1001 of them; and all are
      marked visited except a 1001st point. */
  lemma TraceProperties(e: Raster, t: real, visited0: set<Point>, start: Point)
    requires WellFormed(e)
    ensures var r := Walk(e, t, visited0, [start]);
      && 1 <= |r.points| <= MaxPoints + 1
      && r.points[0] == start
      && (forall i :: 1 <= i < |r.points| ==>
            Strong(e, t, r.points[i]) && Adjacent(r.points[i - 1], r.points[i]) && r.points[i] !in visited0)
      && (forall i, j :: 0 <= i < j < |r.points| ==> r.points[i] != r.points[j])
      && visited0 <= r.visited
      && (forall i :: 0 <= i < |r.points| ==> (r.points[i] in r.visited <==> i < MaxPoints || r.points[i] in visited0))
  {
    var r := Walk(e, t, visited0, [start]);
    WalkFromStart(e, t, visited0, start);
    GreedySteps(e, t, visited0, r.points);
    forall i | 0 <= i < |r.points|
      ensures r.points[i] in r.visited <==> i < MaxPoints || r.points[i] in visited0
    {
      if i < MaxPoints {
        assert Marked(r.points)[i] == r.points[i];
      } else if r.points[i] !in visited0 {
        assert forall k :: 0 <= k < |Marked(r.points)| ==> Marked(r.points)[k] == r.points[k];
      }
    }
  }

  /** The walk stops exactly when the cap fires or no direction qualifies
      from the last point; every earlier point had a qualifying successor,
      namely the next point. */
  lemma TraceStops(e: Raster, t: real, visited0: set<Point>, start: Point)
    requires WellFormed(e)
    ensures var r := Walk(e, t, visited0, [start]);
      && 1 <= |r.points|
      && (|r.points| == MaxPoints + 1 || NextStep(e, t, r.visited, r.points[|r.points| - 1]).None?)
      && (forall i :: 0 <= i < |r.points| - 1 ==>
            NextStep(e, t, SeenAt(visited0, r.points, i), r.points[i]) == Some(r.points[i + 1]))
  {
    WalkFromStart(e, t, visited0, start);
    var r := Walk(e, t, visited0, [start]);
    forall i | 0 <= i < |r.points| - 1
      ensures NextStep(e, t, SeenAt(visited0, r.points, i), r.points[i]) == Some(r.points[i + 1])
    {
      assert GreedyStep(e, t, visited0, r.points, i);
    }
  }

  // ---------------------------------------------------------------------
  // The imperative walk

  datatype Trace = Trace(path: string, points: seq<Point>)

  /** `traceEdge`: extends the `M x y` path text and the point list step by
      step, marking each current pixel visited at the top of the loop.
      Returns the trace when it has at least 3 points and null otherwise;
      the visited set comes back updated either way. */
  method TraceEdge(start: Point, e: Raster, visited0: set<Point>, t: real)
    returns (result: Option<Trace>, visited: set<Point>)
    requires WellFormed(e)
    ensures var r := Walk(e, t, visited0, [start]);
      && visited == r.visited
      && (result.Some? <==> |r.points| >= 3)
      && (result.Some? ==> result.value.points == r.points)
    ensures result.Some? ==> result.value.path == PathData(result.value.points)
    ensures result.Some? ==> ParsePath(result.value.path) == Some(result.value.points)
  {
    var path := MoveTo(start);
    var x := start;
    var points := [start];
    visited := visited0;
    assert points[1..] == [];
    while true
      invariant 1 <= |points| <= MaxPoints
      invariant x == points[|points| - 1]
      invariant path == PathData(points)
      invariant Walk(e, t, visited, points) == Walk(e, t, visited0, [start])
      decreases MaxPoints + 1 - |points|
    {
      ghost var before := visited;
      ghost var prev := points;
      visited := visited + {x};
      var next := NextStep(e, t, visited, x);
      if next.None? {
        WalkStopsHere(e, t, before, prev);
        break;
      }
      var p := next.value;
      WalkSteps(e, t, before, prev, p);
      PathDataSnoc(prev, p);
      path := path + LineTo(p);
      points := points + [p];
      x := p;
      if |points| > MaxPoints {
        break;
      }
    }
    PathDataRoundTrip(points);
    result := if |points| >= 3 then Some(Trace(path, points)) else None;
  }
}
