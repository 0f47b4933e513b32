/** `generateSvgPath`: a raster scan of the edge image that starts a walk at
    every strong pixel not yet visited, keeps the walks that `traceEdge`
    returns with a path text longer than 10 characters, and colours each
    kept path with the dominant colour under its points. */
module Scan {
  import opened Wrappers
  import opened Raster
  import opened PathSyntax
  import opened Tracer
  import opened DominantColor

  /** A walk the scan started: the pixel number of its start and the points
      the walk produced. */
  datatype Start = Start(pixel: nat, points: seq<Point>)

  /** The shared visited set and the walks started so far. */
  datatype ScanState = ScanState(visited: set<Point>, starts: seq<Start>)

  /** One element of the returned array: `{ path, color }`. */
  datatype PathEntry = PathEntry(path: string, color: string)

  lemma PositiveWidth(w: nat, h: nat)
    requires w * h > 0
    ensures w > 0 && h > 0
  {
  }

  // ---------------------------------------------------------------------
  // Reference definition of the scan

  /** Examines pixel number `n`: a walk starts there when the pixel is
      strong and not yet visited. */
  function ScanNext(e: Raster, t: real, s: ScanState, n: nat): ScanState
    requires WellFormed(e) && n < e.width * e.height
  {
    PositiveWidth(e.width, e.height);
    var p := PixelAt(e.width, n);
    if Qualifies(e, t, s.visited, p) then
      var r := Walk(e, t, s.visited, [p]);
      ScanState(r.visited, s.starts + [Start(n, r.points)])
    else s
  }

  /** The state after the pixels numbered 0 .. n-1 have been examined in
      row-major order. */
  function ScanUpTo(e: Raster, t: real, n: nat): ScanState
    requires WellFormed(e) && n <= e.width * e.height
  {
    if n == 0 then ScanState({}, []) else ScanNext(e, t, ScanUpTo(e, t, n - 1), n - 1)
  }

  function Scanned(e: Raster, t: real): ScanState
    requires WellFormed(e)
  {
    ScanUpTo(e, t, e.width * e.height)
  }

  /** The points each walk marked visited, collected. */
  function Covered(starts: seq<Start>): set<Point> {
    if |starts| == 0 then {}
    else Covered(starts[..|starts| - 1]) + Elems(Marked(starts[|starts| - 1].points))
  }

  predicate ValidStarts(w: nat, h: nat, starts: seq<Start>) {
    forall i :: 0 <= i < |starts| ==> |starts[i].points| >= 1 && AllInBounds(w, h, starts[i].points)
  }

  /** What one walk contributes to the result. */
  function KeepOne(d: ImageData, points: seq<Point>): seq<PathEntry>
    requires WellFormedData(d) && |points| >= 1 && AllInBounds(d.image.width, d.image.height, points)
  {
    if |points| >= 3 && |PathData(points)| > 10 then
      [PathEntry(PathData(points), GetDominantColor(points, d.colorData, d.image.width, d.image.height))]
    else []
  }

  function Kept(d: ImageData, starts: seq<Start>): seq<PathEntry>
    requires WellFormedData(d) && ValidStarts(d.image.width, d.image.height, starts)
  {
    if |starts| == 0 then []
    else Kept(d, starts[..|starts| - 1]) + KeepOne(d, starts[|starts| - 1].points)
  }

  /** The array `generateSvgPath` returns. */
  function Paths(d: ImageData, t: real): seq<PathEntry>
    requires WellFormedData(d)
  {
    ScanValid(d.image, t, d.image.width * d.image.height);
    Kept(d, Scanned(d.image, t).starts)
  }

  // ---------------------------------------------------------------------
  // What the scan does

  /** Every walk starts at a pixel and stays on strong pixels inside the
      image. */
  lemma {:induction false} ScanValid(e: Raster, t: real, n: nat)
    requires WellFormed(e) && n <= e.width * e.height
    ensures var st := ScanUpTo(e, t, n).starts;
      && ValidStarts(e.width, e.height, st)
      && (forall i, k :: 0 <= i < |st| && 0 <= k < |st[i].points| ==> Strong(e, t, st[i].points[k]))
  {
    if n > 0 {
      ScanValid(e, t, n - 1);
      var s := ScanUpTo(e, t, n - 1);
      PositiveWidth(e.width, e.height);
      var p := PixelAt(e.width, n - 1);
      if Qualifies(e, t, s.visited, p) {
        TraceProperties(e, t, s.visited, p);
        var r := Walk(e, t, s.visited, [p]);
        var st := s.starts + [Start(n - 1, r.points)];
        assert forall k :: 0 <= k < |r.points| ==> Strong(e, t, r.points[k]);
        assert forall i :: 0 <= i < |s.starts| ==> st[i] == s.starts[i];
      }
    }
  }

  /** Each step keeps the earlier walks and only adds to the visited set. */
  lemma ScanGrows(e: Raster, t: real, n: nat)
    requires WellFormed(e) && 0 < n <= e.width * e.height
    ensures ScanUpTo(e, t, n - 1).visited <= ScanUpTo(e, t, n).visited
    ensures ScanUpTo(e, t, n - 1).starts <= ScanUpTo(e, t, n).starts
  {
    var s := ScanUpTo(e, t, n - 1);
    PositiveWidth(e.width, e.height);
    var p := PixelAt(e.width, n - 1);
    if Qualifies(e, t, s.visited, p) {
      TraceProperties(e, t, s.visited, p);
    }
  }

  /** The visited set is exactly what the walks marked. */
  lemma {:induction false} ScanCovered(e: Raster, t: real, n: nat)
    requires WellFormed(e) && n <= e.width * e.height
    ensures ScanUpTo(e, t, n).visited == Covered(ScanUpTo(e, t, n).starts)
  {
    if n > 0 {
      ScanCovered(e, t, n - 1);
      var s := ScanUpTo(e, t, n - 1);
      PositiveWidth(e.width, e.height);
      var p := PixelAt(e.width, n - 1);
      if Qualifies(e, t, s.visited, p) {
        WalkFromStart(e, t, s.visited, p);
        var st := s.starts + [Start(n - 1, Walk(e, t, s.visited, [p]).points)];
        assert st[..|st| - 1] == s.starts;
      }
    }
  }

  /** Walks sit at their start pixels, all below pixel number `n`. */
  predicate StartsAt(w: nat, starts: seq<Start>, n: nat) {
    forall i :: 0 <= i < |starts| ==>
      && starts[i].pixel < n && w > 0 && |starts[i].points| >= 1
      && starts[i].points[0] == PixelAt(w, starts[i].pixel)
  }

  /** Walks are listed in increasing order of their start pixels. */
  predicate Increasing(starts: seq<Start>) {
    forall i, j :: 0 <= i < j < |starts| ==> starts[i].pixel < starts[j].pixel
  }

  lemma ScanNextStartsAt(e: Raster, t: real, s: ScanState, n: nat)
    requires WellFormed(e) && n < e.width * e.height && StartsAt(e.width, s.starts, n)
    ensures StartsAt(e.width, ScanNext(e, t, s, n).starts, n + 1)
  {
    PositiveWidth(e.width, e.height);
    var p := PixelAt(e.width, n);
    if Qualifies(e, t, s.visited, p) {
      WalkFromStart(e, t, s.visited, p);
      var st := s.starts + [Start(n, Walk(e, t, s.visited, [p]).points)];
      assert forall i :: 0 <= i < |s.starts| ==> st[i] == s.starts[i];
    }
  }

  lemma ScanNextIncreasing(e: Raster, t: real, s: ScanState, n: nat)
    requires WellFormed(e) && n < e.width * e.height
    requires StartsAt(e.width, s.starts, n) && Increasing(s.starts)
    ensures Increasing(ScanNext(e, t, s, n).starts)
  {
    PositiveWidth(e.width, e.height);
    var p := PixelAt(e.width, n);
    if Qualifies(e, t, s.visited, p) {
      var st := s.starts + [Start(n, Walk(e, t, s.visited, [p]).points)];
      assert forall i :: 0 <= i < |s.starts| ==> st[i] == s.starts[i];
    }
  }

  /** Each walk starts at its own start pixel, one the scan has passed. */
  lemma {:induction false} ScanStartsAt(e: Raster, t: real, n: nat)
    requires WellFormed(e) && n <= e.width * e.height
    ensures StartsAt(e.width, ScanUpTo(e, t, n).starts, n)
  {
    if n > 0 {
      ScanStartsAt(e, t, n - 1);
      ScanNextStartsAt(e, t, ScanUpTo(e, t, n - 1), n - 1);
    }
  }

  /** Walks are started in increasing pixel order. */
  lemma {:induction false} ScanStartsIncreasing(e: Raster, t: real, n: nat)
    requires WellFormed(e) && n <= e.width * e.height
    ensures Increasing(ScanUpTo(e, t, n).starts)
  {
    if n > 0 {
      ScanStartsIncreasing(e, t, n - 1);
      ScanStartsAt(e, t, n - 1);
      ScanNextIncreasing(e, t, ScanUpTo(e, t, n - 1), n - 1);
    }
  }

  /** Only strong pixels are ever marked visited. */
  lemma {:induction false} ScanVisitedStrong(e: Raster, t: real, n: nat)
    requires WellFormed(e) && n <= e.width * e.height
    ensures forall q :: q in ScanUpTo(e, t, n).visited ==> Strong(e, t, q)
  {
    if n > 0 {
      ScanVisitedStrong(e, t, n - 1);
      var s := ScanUpTo(e, t, n - 1);
      PositiveWidth(e.width, e.height);
      var p := PixelAt(e.width, n - 1);
      if Qualifies(e, t, s.visited, p) {
        TraceProperties(e, t, s.visited, p);
        WalkFromStart(e, t, s.visited, p);
        var r := Walk(e, t, s.visited, [p]);
        forall q | q in Marked(r.points)
          ensures Strong(e, t, q)
        {
          var k :| 0 <= k < |Marked(r.points)| && Marked(r.points)[k] == q;
          assert r.points[k] == q;
        }
      }
    }
  }

  /** Every strong pixel the scan has passed is visited. */
  lemma {:induction false} ScanCoverage(e: Raster, t: real, n: nat)
    requires WellFormed(e) && n <= e.width * e.height
    ensures forall m :: 0 <= m < n ==> e.width > 0 && (Strong(e, t, PixelAt(e.width, m)) ==> PixelAt(e.width, m) in ScanUpTo(e, t, n).visited)
  {
    if n > 0 {
      ScanCoverage(e, t, n - 1);
      ScanGrows(e, t, n);
      var s := ScanUpTo(e, t, n - 1);
      PositiveWidth(e.width, e.height);
      var p := PixelAt(e.width, n - 1);
      if Qualifies(e, t, s.visited, p) {
        TraceProperties(e, t, s.visited, p);
      }
    }
  }

  /** After the whole scan the visited set is exactly the set of strong
      pixels. */
  lemma ScanMarksStrongPixels(e: Raster, t: real)
    requires WellFormed(e)
    ensures forall q :: q in Scanned(e, t).visited <==> Strong(e, t, q)
  {
    var n := e.width * e.height;
    ScanVisitedStrong(e, t, n);
    ScanCoverage(e, t, n);
    forall q | Strong(e, t, q)
      ensures q in Scanned(e, t).visited
    {
      PixelNumber(e.width, e.height, q);
      var m := q.y * e.width + q.x;
      assert PixelAt(e.width, m) == q;
    }
  }

  lemma {:induction false} CoveredIncludes(starts: seq<Start>, i: nat)
    requires i < |starts|
    ensures forall q :: q in Marked(starts[i].points) ==> q in Covered(starts)
  {
    if i < |starts| - 1 {
      assert starts[..|starts| - 1][i] == starts[i];
      CoveredIncludes(starts[..|starts| - 1], i);
    }
  }

  /** A later walk never passes a pixel an earlier walk marked. */
  lemma {:induction false} ScanDisjoint(e: Raster, t: real, n: nat)
    requires WellFormed(e) && n <= e.width * e.height
    ensures var st := ScanUpTo(e, t, n).starts;
      forall i, j, k :: 0 <= i < j < |st| && 0 <= k < |st[j].points| ==> st[j].points[k] !in Marked(st[i].points)
  {
    if n > 0 {
      ScanDisjoint(e, t, n - 1);
      ScanCovered(e, t, n - 1);
      var s := ScanUpTo(e, t, n - 1);
      PositiveWidth(e.width, e.height);
      var p := PixelAt(e.width, n - 1);
      if Qualifies(e, t, s.visited, p) {
        TraceProperties(e, t, s.visited, p);
        var r := Walk(e, t, s.visited, [p]);
        var st := s.starts + [Start(n - 1, r.points)];
        forall i, j, k | 0 <= i < j < |st| && 0 <= k < |st[j].points|
          ensures st[j].points[k] !in Marked(st[i].points)
        {
          assert st[i] == s.starts[i];
          if j == |s.starts| {
            CoveredIncludes(s.starts, i);
            assert st[j].points[k] !in s.visited;
          } else {
            assert st[j] == s.starts[j];
          }
        }
      }
    }
  }

  /** The scan starts a walk if and only if the image has a strong pixel. */
  lemma ScanStartsIffStrong(e: Raster, t: real)
    requires WellFormed(e)
    ensures |Scanned(e, t).starts| > 0 <==> exists q :: Strong(e, t, q)
  {
    var n := e.width * e.height;
    var st := Scanned(e, t).starts;
    ScanValid(e, t, n);
    ScanCovered(e, t, n);
    ScanMarksStrongPixels(e, t);
    if |st| > 0 {
      assert Strong(e, t, st[0].points[0]);
    }
    if exists q :: Strong(e, t, q) {
      var q :| Strong(e, t, q);
      assert q in Covered(st);
    }
  }

  // ---------------------------------------------------------------------
  // What is returned

  /** The entry made for a walk: its path text and its dominant colour. */
  function EntryOf(d: ImageData, points: seq<Point>): PathEntry
    requires WellFormedData(d) && |points| >= 1 && AllInBounds(d.image.width, d.image.height, points)
  {
    PathEntry(PathData(points), GetDominantColor(points, d.colorData, d.image.width, d.image.height))
  }

  /** An entry's path text reads back as the walk's points. */
  lemma EntryOfParses(d: ImageData, points: seq<Point>)
    requires WellFormedData(d) && |points| >= 1 && AllInBounds(d.image.width, d.image.height, points)
    ensures ParsePath(EntryOf(d, points).path) == Some(points)
  {
    PathDataRoundTrip(points);
  }

  /** The walks of three or more points, in start order. */
  function LongWalks(starts: seq<Start>): seq<Start> {
    if |starts| == 0 then []
    else
      var last := starts[|starts| - 1];
      LongWalks(starts[..|starts| - 1]) + if |last.points| >= 3 then [last] else []
  }

  lemma {:induction false} LongWalksMembers(starts: seq<Start>)
    ensures forall s :: s in LongWalks(starts) <==> s in starts && |s.points| >= 3
  {
    if |starts| > 0 {
      var init, last := starts[..|starts| - 1], starts[|starts| - 1];
      assert starts == init + [last];
      LongWalksMembers(init);
    }
  }

  /** Walks of a valid scan stay valid when the short ones are dropped. */
  lemma LongWalksValid(w: nat, h: nat, starts: seq<Start>)
    requires ValidStarts(w, h, starts)
    ensures ValidStarts(w, h, LongWalks(starts))
  {
    LongWalksMembers(starts);
    var ls := LongWalks(starts);
    forall m | 0 <= m < |ls|
      ensures |ls[m].points| >= 1 && AllInBounds(w, h, ls[m].points)
    {
      assert ls[m] in starts;
      var i :| 0 <= i < |starts| && starts[i] == ls[m];
    }
  }

  /** Reference for the result: the entry of every walk with three or more
      points, in start order, with no condition on the path text. */
  function Retained(d: ImageData, starts: seq<Start>): seq<PathEntry>
    requires WellFormedData(d) && ValidStarts(d.image.width, d.image.height, starts)
  {
    var ls := LongWalks(starts);
    LongWalksValid(d.image.width, d.image.height, starts);
    seq(|ls|, m requires 0 <= m < |ls| => EntryOf(d, ls[m].points))
  }

  lemma RetainedSnoc(d: ImageData, starts: seq<Start>)
    requires WellFormedData(d) && ValidStarts(d.image.width, d.image.height, starts) && |starts| > 0
    ensures ValidStarts(d.image.width, d.image.height, starts[..|starts| - 1])
    ensures var last := starts[|starts| - 1];
      Retained(d, starts) ==
        Retained(d, starts[..|starts| - 1]) + if |last.points| >= 3 then [EntryOf(d, last.points)] else []
  {
    var init, last := starts[..|starts| - 1], starts[|starts| - 1];
    assert forall i :: 0 <= i < |init| ==> init[i] == starts[i];
    LongWalksSnoc(starts);
    var lhs, rhs := Retained(d, starts), Retained(d, init);
    var tail := if |last.points| >= 3 then [EntryOf(d, last.points)] else [];
    RetainedLength(d, starts);
    RetainedLength(d, init);
    forall m | 0 <= m < |lhs|
      ensures lhs[m] == (rhs + tail)[m]
    {
      RetainedAt(d, starts, m);
      if m < |rhs| {
        RetainedAt(d, init, m);
        assert LongWalks(starts)[m] == LongWalks(init)[m];
      } else {
        assert |last.points| >= 3 && m == |rhs|;
        assert LongWalks(starts)[m] == last;
        assert (rhs + tail)[m] == EntryOf(d, last.points);
      }
    }
    assert lhs == rhs + tail;
  }

  lemma LongWalksSnoc(starts: seq<Start>)
    requires |starts| > 0
    ensures var last := starts[|starts| - 1];
      LongWalks(starts) == LongWalks(starts[..|starts| - 1]) + if |last.points| >= 3 then [last] else []
  {
  }

  lemma RetainedLength(d: ImageData, starts: seq<Start>)
    requires WellFormedData(d) && ValidStarts(d.image.width, d.image.height, starts)
    ensures |Retained(d, starts)| == |LongWalks(starts)|
  {
  }

  lemma RetainedAt(d: ImageData, starts: seq<Start>, m: nat)
    requires WellFormedData(d) && ValidStarts(d.image.width, d.image.height, starts)
    requires m < |LongWalks(starts)|
    ensures ValidStarts(d.image.width, d.image.height, LongWalks(starts))
    ensures Retained(d, starts)[m] == EntryOf(d, LongWalks(starts)[m].points)
  {
    LongWalksValid(d.image.width, d.image.height, starts);
  }

  /** The `path.length > 10` test never rejects a trace: a path of three or
      more points is at least 17 characters long. */
  lemma {:induction false} LengthFilterRedundant(d: ImageData, starts: seq<Start>)
    requires WellFormedData(d) && ValidStarts(d.image.width, d.image.height, starts)
    ensures Kept(d, starts) == Retained(d, starts)
  {
    if |starts| > 0 {
      RetainedSnoc(d, starts);
      LengthFilterRedundant(d, starts[..|starts| - 1]);
      PathDataLength(starts[|starts| - 1].points);
    }
  }

  /** An image with no pixel above the cut-off yields no paths. */
  lemma NoStrongPixelsNoPaths(d: ImageData, t: real)
    requires WellFormedData(d)
    requires forall q :: !Strong(d.image, t, q)
    ensures Paths(d, t) == []
  {
    ScanStartsIffStrong(d.image, t);
  }

  // ---------------------------------------------------------------------
  // The imperative scan

  lemma ValidSnoc(w: nat, h: nat, starts: seq<Start>, st: Start)
    requires ValidStarts(w, h, starts) && |st.points| >= 1 && AllInBounds(w, h, st.points)
    ensures ValidStarts(w, h, starts + [st])
  {
    assert forall i :: 0 <= i < |starts| ==> (starts + [st])[i] == starts[i];
  }

  /** A step adds at most one walk, and that walk stays inside the image. */
  lemma ScanNextValid(e: Raster, t: real, s: ScanState, n: nat)
    requires WellFormed(e) && n < e.width * e.height && ValidStarts(e.width, e.height, s.starts)
    ensures ValidStarts(e.width, e.height, ScanNext(e, t, s, n).starts)
  {
    PositiveWidth(e.width, e.height);
    var p := PixelAt(e.width, n);
    if Qualifies(e, t, s.visited, p) {
      TraceProperties(e, t, s.visited, p);
      var r := Walk(e, t, s.visited, [p]);
      var st := s.starts + [Start(n, r.points)];
      assert AllInBounds(e.width, e.height, r.points);
      assert forall i :: 0 <= i < |s.starts| ==> st[i] == s.starts[i];
    }
  }

  /** A qualifying pixel starts a walk from the current visited set. */
  lemma ScanNextStarts(e: Raster, t: real, s: ScanState, n: nat, p: Point)
    requires WellFormed(e) && n < e.width * e.height && e.width > 0 && PixelAt(e.width, n) == p
    requires Qualifies(e, t, s.visited, p)
    ensures var r := Walk(e, t, s.visited, [p]);
      ScanNext(e, t, s, n) == ScanState(r.visited, s.starts + [Start(n, r.points)])
  {
  }

  /** Starts the walk at qualifying pixel `p` and keeps its entry if
      `traceEdge` returns one with a path text over 10 characters. */
  method StartWalk(d: ImageData, t: real, p: Point, ghost n: nat,
                   visited: set<Point>, ghost starts: seq<Start>, paths: seq<PathEntry>)
    returns (visited': set<Point>, ghost starts': seq<Start>, paths': seq<PathEntry>)
    requires WellFormedData(d) && Qualifies(d.image, t, visited, p)
    requires ValidStarts(d.image.width, d.image.height, starts) && paths == Retained(d, starts)
    ensures visited' == Walk(d.image, t, visited, [p]).visited
    ensures starts' == starts + [Start(n, Walk(d.image, t, visited, [p]).points)]
    ensures ValidStarts(d.image.width, d.image.height, starts') && paths' == Retained(d, starts')
  {
    ghost var r := Walk(d.image, t, visited, [p]);
    TraceProperties(d.image, t, visited, p);
    assert AllInBounds(d.image.width, d.image.height, r.points);
    var result;
    result, visited' := TraceEdge(p, d.image, visited, t);
    ghost var st := Start(n, r.points);
    starts' := starts + [st];
    ValidSnoc(d.image.width, d.image.height, starts, st);
    RetainedSnoc(d, starts');
    assert starts'[..|starts'| - 1] == starts;
    PathDataLength(r.points);
    paths' := paths;
    if result.Some? && |result.value.path| > 10 {
      var color := GetDominantColor(result.value.points, d.colorData, d.image.width, d.image.height);
      paths' := paths + [PathEntry(result.value.path, color)];
    }
  }

  lemma ScanNextSkips(e: Raster, t: real, s: ScanState, n: nat, p: Point)
    requires WellFormed(e) && n < e.width * e.height && e.width > 0 && PixelAt(e.width, n) == p
    requires !Qualifies(e, t, s.visited, p)
    ensures ScanNext(e, t, s, n) == s
  {
  }

  /** The loop state of `generateSvgPath` after pixel `n - 1`: the visited
      set and the walks so far are those of the reference scan, and `paths`
      holds what those walks contributed. */
  ghost predicate ScanInv(d: ImageData, t: real, n: nat, visited: set<Point>, starts: seq<Start>, paths: seq<PathEntry>)
    requires WellFormedData(d)
  {
    && n <= d.image.width * d.image.height
    && ScanUpTo(d.image, t, n) == ScanState(visited, starts)
    && ValidStarts(d.image.width, d.image.height, starts)
    && paths == Retained(d, starts)
  }

  /** The body of the inner loop: examines pixel (x, y), which is pixel
      number `n`, and starts a walk there when it qualifies. The test
      reads channel 0 of the edge image, as `data[idx] > threshold` does. */
  method VisitPixel(d: ImageData, t: real, x: nat, y: nat, ghost n: nat,
                    visited: set<Point>, ghost starts: seq<Start>, paths: seq<PathEntry>)
    returns (visited': set<Point>, ghost starts': seq<Start>, paths': seq<PathEntry>)
    requires WellFormedData(d) && x < d.image.width && y < d.image.height
    requires n < d.image.width * d.image.height && PixelAt(d.image.width, n) == Point(x, y)
    requires ScanInv(d, t, n, visited, starts, paths)
    ensures ScanInv(d, t, n + 1, visited', starts', paths')
    ensures visited' == ScanUpTo(d.image, t, n + 1).visited
    ensures paths' == Retained(d, ScanUpTo(d.image, t, n + 1).starts)
  {
    var p := Point(x, y);
    ScanUpToNext(d.image, t, n);
    if Strength(d.image, p) as real > t && p !in visited {
      ScanNextStarts(d.image, t, ScanState(visited, starts), n, p);
      visited', starts', paths' := StartWalk(d, t, p, n, visited, starts, paths);
    } else {
      ScanNextSkips(d.image, t, ScanState(visited, starts), n, p);
      visited', starts', paths' := visited, starts, paths;
    }
  }

  lemma ScanUpToNext(e: Raster, t: real, n: nat)
    requires WellFormed(e) && n < e.width * e.height
    ensures ScanUpTo(e, t, n + 1) == ScanNext(e, t, ScanUpTo(e, t, n), n)
  {
  }

  lemma PixelOfRowColumn(w: nat, h: nat, x: nat, y: nat, n: nat)
    requires x < w && y < h && n == y * w + x
    ensures n < w * h && PixelAt(w, n) == Point(x, y)
  {
    PixelNumber(w, h, Point(x, y));
  }

  lemma RowStart(w: nat, h: nat, y: nat)
    requires y < h
    ensures (y + 1) * w == y * w + w && (y + 1) * w <= w * h
  {
    MulLe(y + 1, h, w);
  }

  /** The inner loop of `generateSvgPath`: the pixels of row `y`, whose
      first pixel has number `rowStart`, left to right. */
  method ScanRow(d: ImageData, t: real, y: nat, ghost rowStart: nat,
                 visited: set<Point>, ghost starts: seq<Start>, paths: seq<PathEntry>)
    returns (visited': set<Point>, ghost starts': seq<Start>, paths': seq<PathEntry>)
    requires WellFormedData(d) && y < d.image.height && rowStart == y * d.image.width
    requires ScanInv(d, t, rowStart, visited, starts, paths)
    ensures ScanInv(d, t, rowStart + d.image.width, visited', starts', paths')
    ensures visited' == ScanUpTo(d.image, t, rowStart + d.image.width).visited
    ensures paths' == Retained(d, ScanUpTo(d.image, t, rowStart + d.image.width).starts)
  {
    var w, h := d.image.width, d.image.height;
    visited', starts', paths' := visited, starts, paths;
    ghost var n: nat := rowStart;
    var x := 0;
    while x < w
      invariant 0 <= x <= w && n == rowStart + x
      invariant ScanInv(d, t, n, visited', starts', paths')
    {
      PixelOfRowColumn(w, h, x, y, n);
      visited', starts', paths' := VisitPixel(d, t, x, y, n, visited', starts', paths');
      x := x + 1;
      n := n + 1;
    }
  }

  /** `generateSvgPath`: the rows top to bottom, sharing one visited set
      across all walks. */
  method GenerateSvgPath(d: ImageData, t: real) returns (paths: seq<PathEntry>)
    requires WellFormedData(d)
    ensures paths == Paths(d, t)
  {
    var w, h := d.image.width, d.image.height;
    paths := [];
    var visited: set<Point> := {};
    ghost var starts: seq<Start> := [];
    ghost var rowStart: nat := 0;
    var y := 0;
    while y < h
      invariant 0 <= y <= h && rowStart == y * w
      invariant ScanInv(d, t, rowStart, visited, starts, paths)
    {
      RowStart(w, h, y);
      visited, starts, paths := ScanRow(d, t, y, rowStart, visited, starts, paths);
      y := y + 1;
      rowStart := rowStart + w;
    }
    ScanComplete(d, t, rowStart, visited, starts, paths);
  }

  /** Once every pixel has been examined the loop state is the result. */
  lemma ScanComplete(d: ImageData, t: real, n: nat, visited: set<Point>, starts: seq<Start>, paths: seq<PathEntry>)
    requires WellFormedData(d) && n == d.image.width * d.image.height
    requires ScanInv(d, t, n, visited, starts, paths)
    ensures paths == Paths(d, t)
  {
    LengthFilterRedundant(d, starts);
  }
}
