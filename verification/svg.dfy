/** `createSvgFromImageData`: edge detection, the scan at `threshold * 0.3`,
    and the SVG document that wraps one `<path>` element per traced path in
    an `<svg>` element whose `viewBox` is the image size. With no paths it
    fails with a message that says so. A reader for the document recovers
    the size and the paths. */
module Svg {
  import opened Wrappers
  import opened Raster
  import opened Digits
  import opened PathSyntax
  import opened DominantColor
  import opened EdgeDetection
  import opened Tracer
  import opened Scan

  // ---------------------------------------------------------------------
  // Options and the error

  /** The options object; `None` is an absent property. `color` is part of
      the object the caller passes but is never read. */
  datatype Options = Options(threshold: Option<int>, color: Option<string>)

  const DefaultThreshold: int := 128

  /** The message of the error thrown when the scan finds no path. */
  const NoEdgesMessage: string := "No significant edges found in the image. Try adjusting the sensitivity."

  /** Every error is rethrown with this prefix. */
  const FailurePrefix: string := "Failed to generate SVG: "

  /** `const { threshold = 128 } = options`. */
  function ThresholdOf(o: Options): int {
    o.threshold.GetOr(DefaultThreshold)
  }

  /** The cut-off handed to the scan, `threshold * 0.3`, in exact arithmetic. */
  function CutOff(o: Options): real {
    ThresholdOf(o) as real * 0.3
  }

  // ---------------------------------------------------------------------
  // The document

  const SvgOpen: string := "<svg xmlns=\"http://www.w3.org/2000/svg\" viewBox=\"0 0 "
  const SvgHeadEnd: string := "\">\n      "
  const Separator: string := "\n      "
  const SvgClose: string := "\n    </svg>"
  const PathOpen: string := "<path d=\""
  const PathMid: string := "\" fill=\"none\" stroke=\""
  const PathClose: string := "\" stroke-width=\"1\" />"

  /** `<path d="${path}" fill="none" stroke="${color}" stroke-width="1" />`. */
  function PathElement(e: PathEntry): string {
    PathOpen + e.path + PathMid + e.color + PathClose
  }

  /** `Array.prototype.join`: the parts with `sep` between neighbours. */
  function Join(parts: seq<string>, sep: string): string {
    if |parts| == 0 then ""
    else if |parts| == 1 then parts[0]
    else parts[0] + sep + Join(parts[1..], sep)
  }

  /** The path elements, one per entry, joined by a newline and six spaces. */
  function Elements(paths: seq<PathEntry>): string {
    Join(seq(|paths|, i requires 0 <= i < |paths| => PathElement(paths[i])), Separator)
  }

  /** The template the document is written from. */
  function Document(w: nat, h: nat, paths: seq<PathEntry>): string {
    SvgOpen + IntToString(w) + " " + IntToString(h) + SvgHeadEnd + Elements(paths) + SvgClose
  }

  /** `createSvgFromImageData` for an image with its colour buffer. The edge
      strength formula is the parameter `mag`. The result is the document, or
      the rethrown message when no path survives. The document reads back as
      the image size and exactly the scan's paths, in order. */
  function CreateSvgFromImageData(img: ImageData, options: Options, mag: Magnitude): (r: Result<string, string>)
    requires WellFormedData(img)
    ensures var paths := Paths(DetectEdges(img, mag), CutOff(options));
      && (r.Failure? <==> |paths| == 0)
      && (r.Failure? ==> r.error == FailurePrefix + NoEdgesMessage)
      && (r.Success? ==> ParseDocument(r.value) == Some(SvgDoc(img.image.width, img.image.height, paths)))
  {
    var e := DetectEdges(img, mag);
    var paths := Paths(e, CutOff(options));
    if |paths| == 0 then Failure(FailurePrefix + NoEdgesMessage)
    else
      PathsQuoteFree(e, CutOff(options));
      DocumentRoundTrip(img.image.width, img.image.height, paths);
      Success(Document(img.image.width, img.image.height, paths))
  }

  // ---------------------------------------------------------------------
  // Reading a document back

  /** What a document states: the `viewBox` size and the path entries. */
  datatype SvgDoc = SvgDoc(width: nat, height: nat, paths: seq<PathEntry>)

  predicate QuoteFree(s: string) {
    forall i :: 0 <= i < |s| ==> s[i] != '"'
  }

  /** Entries whose texts can sit inside a double-quoted attribute. */
  predicate EntriesQuoteFree(paths: seq<PathEntry>) {
    forall i :: 0 <= i < |paths| ==> QuoteFree(paths[i].path) && QuoteFree(paths[i].color)
  }

  /** The text up to the first double quote, and the rest from that quote on. */
  function UntilQuote(s: string): (r: (string, string))
    ensures r.0 + r.1 == s
    ensures QuoteFree(r.0)
    ensures |r.1| > 0 ==> r.1[0] == '"'
  {
    if |s| == 0 || s[0] == '"' then ("", s)
    else
      var u := UntilQuote(s[1..]);
      Assoc([s[0]], u.0, u.1);
      HeadTail(s);
      ([s[0]] + u.0, u.1)
  }

  /** Reads one path element; the text after it follows. */
  function ParseElement(s: string): (r: Option<(PathEntry, string)>)
    ensures r.Some? ==> |r.value.1| < |s|
  {
    if !(PathOpen <= s) then None
    else
      var u := UntilQuote(s[|PathOpen|..]);
      if !(PathMid <= u.1) then None
      else
        var v := UntilQuote(u.1[|PathMid|..]);
        if !(PathClose <= v.1) then None
        else Some((PathEntry(u.0, v.0), v.1[|PathClose|..]))
  }

  /** Reads separated path elements up to the closing tag. */
  function ParseElements(s: string): Option<seq<PathEntry>>
    decreases |s|
  {
    match ParseElement(s)
    case None => None
    case Some((e, rest)) =>
      if rest == SvgClose then Some([e])
      else if Separator <= rest then
        match ParseElements(rest[|Separator|..])
        case None => None
        case Some(es) => Some([e] + es)
      else None
  }

  /** Reads `w h` and the end of the opening tag; the elements follow. */
  function ParseSize(s: string): Option<(nat, nat, string)> {
    match ParseNat(s)
    case None => None
    case Some((w, r1)) =>
      if !(" " <= r1) then None
      else
        match ParseNat(r1[1..])
        case None => None
        case Some((h, r2)) =>
          if !(SvgHeadEnd <= r2) then None
          else Some((w, h, r2[|SvgHeadEnd|..]))
  }

  function ParseDocument(s: string): Option<SvgDoc> {
    if !(SvgOpen <= s) then None
    else
      match ParseSize(s[|SvgOpen|..])
      case None => None
      case Some((w, h, body)) =>
        match ParseElements(body)
        case None => None
        case Some(ps) => Some(SvgDoc(w, h, ps))
  }

  lemma PrefixRest(a: string, b: string)
    ensures a <= a + b && (a + b)[|a|..] == b
  {
  }

  lemma HeadTail(s: string)
    requires |s| > 0
    ensures [s[0]] + s[1..] == s
  {
  }

  lemma Assoc(a: string, b: string, c: string)
    ensures a + b + c == a + (b + c)
  {
  }

  /** The quote-free text before a quote is exactly what `UntilQuote` takes. */
  lemma {:induction false} UntilQuoteSplit(a: string, b: string)
    requires QuoteFree(a) && |b| > 0 && b[0] == '"'
    ensures UntilQuote(a + b) == (a, b)
    decreases |a|
  {
    if |a| > 0 {
      assert (a + b)[0] == a[0] && (a + b)[1..] == a[1..] + b;
      UntilQuoteSplit(a[1..], b);
      assert [a[0]] + a[1..] == a;
    } else {
      assert a + b == b;
    }
  }

  lemma QuoteFreeConcat(a: string, b: string)
    requires QuoteFree(a) && QuoteFree(b)
    ensures QuoteFree(a + b)
  {
    forall i | 0 <= i < |a + b|
      ensures (a + b)[i] != '"'
    {
      if i >= |a| {
        assert (a + b)[i] == b[i - |a|];
      }
    }
  }

  lemma ParseElementRoundTrip(e: PathEntry, rest: string)
    requires QuoteFree(e.path) && QuoteFree(e.color)
    ensures ParseElement(PathElement(e) + rest) == Some((e, rest))
  {
    var t2 := PathClose + rest;
    var t1 := PathMid + (e.color + t2);
    Assoc(PathOpen + e.path + PathMid + e.color, PathClose, rest);
    Assoc(PathOpen + e.path + PathMid, e.color, t2);
    Assoc(PathOpen + e.path, PathMid, e.color + t2);
    Assoc(PathOpen, e.path, t1);
    PrefixRest(PathOpen, e.path + t1);
    UntilQuoteSplit(e.path, t1);
    PrefixRest(PathMid, e.color + t2);
    UntilQuoteSplit(e.color, t2);
    PrefixRest(PathClose, rest);
  }

  lemma ElementsCons(paths: seq<PathEntry>)
    requires |paths| >= 2
    ensures Elements(paths) + SvgClose == PathElement(paths[0]) + (Separator + (Elements(paths[1..]) + SvgClose))
  {
    var parts := seq(|paths|, i requires 0 <= i < |paths| => PathElement(paths[i]));
    assert parts[1..] == seq(|paths[1..]|, i requires 0 <= i < |paths[1..]| => PathElement(paths[1..][i]));
    var e, more := PathElement(paths[0]), Elements(paths[1..]);
    Assoc(e + Separator, more, SvgClose);
    Assoc(e, Separator, more + SvgClose);
  }

  lemma ParseElementsLast(e: PathEntry)
    requires QuoteFree(e.path) && QuoteFree(e.color)
    ensures ParseElements(PathElement(e) + SvgClose) == Some([e])
  {
    ParseElementRoundTrip(e, SvgClose);
  }

  lemma ParseElementsCons(e: PathEntry, more: string)
    requires QuoteFree(e.path) && QuoteFree(e.color)
    requires ParseElements(more).Some?
    ensures ParseElements(PathElement(e) + (Separator + more)) == Some([e] + ParseElements(more).value)
  {
    ParseElementRoundTrip(e, Separator + more);
    PrefixRest(Separator, more);
    CloseNotSeparator();
  }

  /** The closing tag cannot be mistaken for a separator. */
  lemma CloseNotSeparator()
    ensures !(Separator <= SvgClose)
  {
    assert Separator[5] == ' ' && SvgClose[5] == '<';
  }

  /** The joined elements and the closing tag read back as the entries. */
  lemma {:induction false} ElementsRoundTrip(paths: seq<PathEntry>)
    requires |paths| >= 1 && EntriesQuoteFree(paths)
    ensures ParseElements(Elements(paths) + SvgClose) == Some(paths)
    decreases |paths|
  {
    var e := paths[0];
    EntriesQuoteFreeParts(paths);
    if |paths| == 1 {
      ElementsSingle(paths);
      ParseElementsLast(e);
    } else {
      var tail := paths[1..];
      ElementsCons(paths);
      ElementsRoundTrip(tail);
      ParseElementsCons(e, Elements(tail) + SvgClose);
    }
  }

  lemma EntriesQuoteFreeParts(paths: seq<PathEntry>)
    requires |paths| >= 1 && EntriesQuoteFree(paths)
    ensures QuoteFree(paths[0].path) && QuoteFree(paths[0].color)
    ensures EntriesQuoteFree(paths[1..])
    ensures paths == [paths[0]] + paths[1..]
  {
    assert forall i :: 0 <= i < |paths[1..]| ==> paths[1..][i] == paths[i + 1];
  }

  lemma ElementsSingle(paths: seq<PathEntry>)
    requires |paths| == 1
    ensures Elements(paths) == PathElement(paths[0]) && paths == [paths[0]]
  {
  }

  lemma SizeRoundTrip(w: nat, h: nat, body: string)
    ensures ParseSize(ToRadix(w, 10) + (" " + (ToRadix(h, 10) + (SvgHeadEnd + body)))) == Some((w, h, body))
  {
    var r2 := SvgHeadEnd + body;
    var r1 := " " + (ToRadix(h, 10) + r2);
    NatRoundTrip(w, r1);
    PrefixRest(" ", ToRadix(h, 10) + r2);
    NatRoundTrip(h, r2);
    PrefixRest(SvgHeadEnd, body);
  }

  lemma DocumentRegroup(w: nat, h: nat, body: string)
    ensures SvgOpen + IntToString(w) + " " + IntToString(h) + SvgHeadEnd + body ==
      SvgOpen + (ToRadix(w, 10) + (" " + (ToRadix(h, 10) + (SvgHeadEnd + body))))
  {
    var a, b := IntToString(w), IntToString(h);
    Assoc(SvgOpen + a + " " + b, SvgHeadEnd, body);
    Assoc(SvgOpen + a + " ", b, SvgHeadEnd + body);
    Assoc(SvgOpen + a, " ", b + (SvgHeadEnd + body));
    Assoc(SvgOpen, a, " " + (b + (SvgHeadEnd + body)));
  }

  /** Reading a document back gives its size and its entries. */
  lemma DocumentRoundTrip(w: nat, h: nat, paths: seq<PathEntry>)
    requires |paths| >= 1 && EntriesQuoteFree(paths)
    ensures ParseDocument(Document(w, h, paths)) == Some(SvgDoc(w, h, paths))
  {
    var body := Elements(paths) + SvgClose;
    var tail := ToRadix(w, 10) + (" " + (ToRadix(h, 10) + (SvgHeadEnd + body)));
    DocumentRegroup(w, h, body);
    Assoc(SvgOpen + IntToString(w) + " " + IntToString(h) + SvgHeadEnd, Elements(paths), SvgClose);
    PrefixRest(SvgOpen, tail);
    SizeRoundTrip(w, h, body);
    ElementsRoundTrip(paths);
  }

  // ---------------------------------------------------------------------
  // The entries the scan returns fit inside attributes

  lemma PathDataQuoteFree(pts: seq<Point>)
    requires |pts| >= 1
    ensures QuoteFree(PathData(pts))
  {
    PathDataChars(pts);
  }

  lemma DigitCharNotQuote(d: int)
    requires 0 <= d < 16
    ensures DigitChar(d) != '"'
  {
    DigitCharValue(d);
    assert DigitValue('"') == -1;
  }

  lemma PairQuoteFree(x: char, y: char)
    requires x != '"' && y != '"'
    ensures QuoteFree([x, y])
  {
  }

  lemma ByteHexQuoteFree(b: Byte)
    ensures QuoteFree(ByteHex(b))
  {
    ByteHexForm(b);
    DigitCharNotQuote(b / 16);
    DigitCharNotQuote(b % 16);
    PairQuoteFree(DigitChar(b / 16), DigitChar(b % 16));
  }

  lemma HashJoinQuoteFree(a: string, b: string, c: string)
    requires QuoteFree(a) && QuoteFree(b) && QuoteFree(c)
    ensures QuoteFree("#" + a + b + c)
  {
    QuoteFreeConcat("#", a);
    QuoteFreeConcat("#" + a, b);
    QuoteFreeConcat("#" + a + b, c);
  }

  lemma ColorHexQuoteFree(r: Byte, g: Byte, b: Byte)
    ensures QuoteFree(ColorHex(r, g, b))
  {
    ByteHexQuoteFree(r);
    ByteHexQuoteFree(g);
    ByteHexQuoteFree(b);
    HashJoinQuoteFree(ByteHex(r), ByteHex(g), ByteHex(b));
  }

  lemma EntryQuoteFree(d: ImageData, points: seq<Point>)
    requires WellFormedData(d) && |points| >= 1 && AllInBounds(d.image.width, d.image.height, points)
    ensures QuoteFree(EntryOf(d, points).path) && QuoteFree(EntryOf(d, points).color)
  {
    var w, h := d.image.width, d.image.height;
    PathDataQuoteFree(points);
    DominantIsOnPath(points, d.colorData, w, h);
    var i :| 0 <= i < |points| && GetDominantColor(points, d.colorData, w, h) == ColorKey(d.colorData, w, h, points[i]);
    var p := points[i];
    ColorHexQuoteFree(Sample(d.colorData, w, h, p.x, p.y, 0), Sample(d.colorData, w, h, p.x, p.y, 1), Sample(d.colorData, w, h, p.x, p.y, 2));
  }

  lemma PathsQuoteFree(d: ImageData, t: real)
    requires WellFormedData(d)
    ensures EntriesQuoteFree(Paths(d, t))
  {
    var n := d.image.width * d.image.height;
    ScanValid(d.image, t, n);
    var starts := Scanned(d.image, t).starts;
    LengthFilterRedundant(d, starts);
    RetainedLength(d, starts);
    forall m | 0 <= m < |Paths(d, t)|
      ensures QuoteFree(Paths(d, t)[m].path) && QuoteFree(Paths(d, t)[m].color)
    {
      RetainedAt(d, starts, m);
      EntryQuoteFree(d, LongWalks(starts)[m].points);
    }
  }

  // ---------------------------------------------------------------------
  // Options

  /** `options.color` makes no difference to the result. */
  lemma ColorOptionIgnored(img: ImageData, o: Options, color: Option<string>, mag: Magnitude)
    requires WellFormedData(img)
    ensures CreateSvgFromImageData(img, o.(color := color), mag) == CreateSvgFromImageData(img, o, mag)
  {
    assert CutOff(o.(color := color)) == CutOff(o);
  }

  /** Without a threshold the cut-off is 128 * 0.3; with one it is three
      tenths of it. */
  lemma CutOffValues(o: Options)
    ensures o.threshold.None? ==> CutOff(o) == 38.4
    ensures o.threshold.Some? ==> CutOff(o) * 10.0 == o.threshold.value as real * 3.0
  {
  }

  /** A uniform image has no edges at a non-negative threshold, so the
      conversion fails with the no-edges message. */
  lemma UniformImageFails(img: ImageData, o: Options, mag: Magnitude)
    requires WellFormedData(img) && Uniform(img.image.data) && Uniform(img.colorData)
    requires ZeroAtRest(mag) && ThresholdOf(o) >= 0
    ensures CreateSvgFromImageData(img, o, mag) == Failure(FailurePrefix + NoEdgesMessage)
  {
    var e := DetectEdges(img, mag);
    var t := CutOff(o);
    UniformImageHasNoEdges(img, mag);
    forall q
      ensures !Strong(e.image, t, q)
    {
      if InBounds(e.image.width, e.image.height, q) {
        assert Strength(e.image, q) == 0;
      }
    }
    NoStrongPixelsNoPaths(e, t);
  }
}
