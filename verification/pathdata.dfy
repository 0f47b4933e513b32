/** The `d` attribute built by the edge tracer: an absolute "moveto" to the
    first point followed by one absolute "lineto" per further point
    (sections 8.3.2 and 8.3.4 of SVG 1.1), and a reader for that text. */
module PathSyntax {
  import opened Wrappers
  import opened Raster
  import opened Digits

  /** `M x y`, the text the trace starts with. */
  function MoveTo(p: Point): string {
    "M " + IntToString(p.x) + " " + IntToString(p.y)
  }

  /** ` L x y`, the text appended for each step of the trace. */
  function LineTo(p: Point): string {
    " L " + IntToString(p.x) + " " + IntToString(p.y)
  }

  /** The linetos of `ps`, in order (built at the end, as the trace appends). */
  function LineTos(ps: seq<Point>): string {
    if |ps| == 0 then "" else LineTos(ps[..|ps| - 1]) + LineTo(ps[|ps| - 1])
  }

  function PathData(pts: seq<Point>): string
    requires |pts| >= 1
  {
    MoveTo(pts[0]) + LineTos(pts[1..])
  }

  /** Appending a point appends its lineto, as the trace does. */
  lemma PathDataSnoc(pts: seq<Point>, p: Point)
    requires |pts| >= 1
    ensures PathData(pts + [p]) == PathData(pts) + LineTo(p)
  {
    var ext := pts + [p];
    assert ext[1..] == pts[1..] + [p];
    assert ext[1..][..|ext[1..]| - 1] == pts[1..];
  }

  /** Characters path data is made of; in particular never a double quote. */
  predicate PathChar(ch: char) {
    ch == 'M' || ch == 'L' || ch == ' ' || ch == '-' || IsDigit(ch, 10)
  }

  predicate AllPathChars(s: string) {
    forall i :: 0 <= i < |s| ==> PathChar(s[i])
  }

  lemma {:induction false} LineTosFront(ps: seq<Point>)
    requires |ps| >= 1
    ensures LineTos(ps) == LineTo(ps[0]) + LineTos(ps[1..])
    decreases |ps|
  {
    if |ps| > 1 {
      var init := ps[..|ps| - 1];
      LineTosFront(init);
      assert init[1..] == ps[1..][..|ps[1..]| - 1];
      assert init[0] == ps[0];
    } else {
      assert ps[..0] == [];
      assert ps[1..] == [];
    }
  }

  /** Path data is at least 5 characters for the moveto plus 6 per lineto. */
  lemma {:induction false} PathDataLength(pts: seq<Point>)
    requires |pts| >= 1
    ensures |PathData(pts)| >= 6 * |pts| - 1
  {
    LineTosLength(pts[1..]);
  }

  lemma {:induction false} LineTosLength(ps: seq<Point>)
    ensures |LineTos(ps)| >= 6 * |ps|
  {
    if |ps| > 0 {
      LineTosLength(ps[..|ps| - 1]);
    }
  }

  lemma {:induction false} PathDataChars(pts: seq<Point>)
    requires |pts| >= 1
    ensures AllPathChars(PathData(pts))
  {
    LineTosChars(pts[1..]);
  }

  lemma {:induction false} LineTosChars(ps: seq<Point>)
    ensures AllPathChars(LineTos(ps))
  {
    if |ps| > 0 {
      LineTosChars(ps[..|ps| - 1]);
    }
  }

  // ---------------------------------------------------------------------
  // Reading path data back

  /** Reads `x y` at the front of `s`. */
  function ParseCoords(s: string): (r: Option<(Point, string)>)
    ensures r.Some? ==> |r.value.1| < |s|
  {
    match ParseInt(s)
    case None => None
    case Some(rx) =>
      if |rx.1| > 0 && rx.1[0] == ' ' then
        match ParseInt(rx.1[1..])
        case None => None
        case Some(ry) => Some((Point(rx.0, ry.0), ry.1))
      else None
  }

  /** Reads a (possibly empty) run of ` L x y` commands filling all of `s`. */
  function ParseLineTos(s: string): Option<seq<Point>>
    decreases |s|
  {
    if |s| == 0 then Some([])
    else if |s| >= 3 && s[..3] == " L " then
      match ParseCoords(s[3..])
      case None => None
      case Some(r) =>
        match ParseLineTos(r.1)
        case None => None
        case Some(ps) => Some([r.0] + ps)
    else None
  }

  /** Reads `M x y` followed by linetos; the inverse of `PathData`. */
  function ParsePath(s: string): Option<seq<Point>> {
    if |s| >= 2 && s[..2] == "M " then
      match ParseCoords(s[2..])
      case None => None
      case Some(r) =>
        match ParseLineTos(r.1)
        case None => None
        case Some(ps) => Some([r.0] + ps)
    else None
  }

  lemma CoordsRoundTrip(p: Point, rest: string)
    requires Delimits(rest)
    ensures ParseCoords(IntToString(p.x) + " " + IntToString(p.y) + rest) == Some((p, rest))
  {
    var sy := IntToString(p.y) + rest;
    var tail := " " + sy;
    var s := IntToString(p.x) + " " + IntToString(p.y) + rest;
    assert s == IntToString(p.x) + tail;
    IntToStringRoundTrip(p.x, tail);
    assert ParseInt(s) == Some((p.x, tail));
    assert tail[1..] == sy;
    IntToStringRoundTrip(p.y, rest);
    assert ParseInt(tail[1..]) == Some((p.y, rest));
  }

  /** One lineto followed by text that cannot continue its last number. */
  lemma ParseLineTosStep(p: Point, tail: string)
    requires Delimits(tail)
    ensures ParseLineTos(LineTo(p) + tail) ==
      match ParseLineTos(tail)
      case None => None
      case Some(ps) => Some([p] + ps)
  {
    var s := LineTo(p) + tail;
    var body := IntToString(p.x) + " " + IntToString(p.y) + tail;
    assert s == " L " + body;
    assert s[..3] == " L ";
    assert s[3..] == body;
    CoordsRoundTrip(p, tail);
  }

  lemma LineTosDelimits(ps: seq<Point>)
    ensures Delimits(LineTos(ps))
  {
    if |ps| > 0 {
      LineTosFront(ps);
    }
  }

  lemma {:induction false} LineTosRoundTrip(ps: seq<Point>)
    ensures ParseLineTos(LineTos(ps)) == Some(ps)
    decreases |ps|
  {
    if |ps| > 0 {
      LineTosFront(ps);
      LineTosDelimits(ps[1..]);
      ParseLineTosStep(ps[0], LineTos(ps[1..]));
      LineTosRoundTrip(ps[1..]);
      assert [ps[0]] + ps[1..] == ps;
    }
  }

  /** `M ` followed by coordinates and linetos, read one part at a time. */
  lemma ParsePathStep(body: string)
    ensures ParsePath("M " + body) ==
      match ParseCoords(body)
      case None => None
      case Some(r) =>
        match ParseLineTos(r.1)
        case None => None
        case Some(ps) => Some([r.0] + ps)
  {
    var s := "M " + body;
    assert s[..2] == "M ";
    assert s[2..] == body;
  }

  /** Parsing the path data of a trace recovers its points exactly. */
  lemma PathDataRoundTrip(pts: seq<Point>)
    requires |pts| >= 1
    ensures ParsePath(PathData(pts)) == Some(pts)
  {
    var p := pts[0];
    var tail := LineTos(pts[1..]);
    var body := IntToString(p.x) + " " + IntToString(p.y) + tail;
    assert PathData(pts) == "M " + body;
    ParsePathStep(body);
    LineTosDelimits(pts[1..]);
    CoordsRoundTrip(p, tail);
    LineTosRoundTrip(pts[1..]);
    assert [p] + pts[1..] == pts;
  }
}
