/** `getDominantColor`: the colours under a trace's points are written as
    `#rrggbb` keys and tallied in an object; the entries are sorted by count,
    descending, and the first key is returned. The object keeps its keys in
    insertion order (none looks like an array index) and the sort is stable,
    so the winner is the most frequent key met first along the points. */
module DominantColor {
  import opened Wrappers
  import opened Raster
  import opened Digits

  // ---------------------------------------------------------------------
  // Hex keys

  /** `s.padStart(len, fill)` with a one-character fill. */
  function PadStart(s: string, len: nat, fill: char): (r: string)
    ensures |r| == if |s| >= len then |s| else len
    ensures r[|r| - |s|..] == s
    ensures forall i :: 0 <= i < |r| - |s| ==> r[i] == fill
    decreases len - |s|
  {
    if |s| >= len then s else PadStart([fill] + s, len, fill)
  }

  /** `b.toString(16).padStart(2, '0')`. */
  function ByteHex(b: Byte): string {
    PadStart(ToRadix(b, 16), 2, '0')
  }

  /** The two characters `ByteHex` produces: high nibble, low nibble. */
  lemma ByteHexForm(b: Byte)
    ensures ByteHex(b) == [DigitChar(b / 16), DigitChar(b % 16)]
  {
    if b < 16 {
      assert ToRadix(b, 16) == [DigitChar(b)];
      assert PadStart([DigitChar(b)], 2, '0') == ['0', DigitChar(b)];
    } else {
      assert ToRadix(b / 16, 16) == [DigitChar(b / 16)];
      assert ToRadix(b, 16) == [DigitChar(b / 16), DigitChar(b % 16)];
    }
  }

  /** A byte is written as exactly two lowercase hex digits that read back
      as the byte. */
  lemma ByteHexDigits(b: Byte)
    ensures var s := ByteHex(b);
      && |s| == 2 && IsDigit(s[0], 16) && IsDigit(s[1], 16)
      && DigitValue(s[0]) * 16 + DigitValue(s[1]) == b
  {
    ByteHexForm(b);
    DigitCharValue(b / 16);
    DigitCharValue(b % 16);
  }

  /** The `#rrggbb` key of a colour. */
  function ColorHex(r: Byte, g: Byte, b: Byte): string {
    "#" + ByteHex(r) + ByteHex(g) + ByteHex(b)
  }

  /** The byte written by the two hex digits `hi`, `lo`, if they are digits. */
  function HexByte(hi: char, lo: char): Option<Byte> {
    if IsDigit(hi, 16) && IsDigit(lo, 16) then Some(DigitValue(hi) * 16 + DigitValue(lo))
    else None
  }

  /** Reads a `#rrggbb` key back into its three bytes. */
  function ParseColorHex(s: string): Option<(Byte, Byte, Byte)> {
    if |s| == 7 && s[0] == '#' then
      match (HexByte(s[1], s[2]), HexByte(s[3], s[4]), HexByte(s[5], s[6]))
      case (Some(r), Some(g), Some(b)) => Some((r, g, b))
      case _ => None
    else None
  }

  lemma HexByteOf(b: Byte)
    ensures HexByte(ByteHex(b)[0], ByteHex(b)[1]) == Some(b)
  {
    ByteHexDigits(b);
  }

  lemma ColorHexChars(r: Byte, g: Byte, b: Byte)
    requires |ByteHex(r)| == 2 && |ByteHex(g)| == 2 && |ByteHex(b)| == 2
    ensures var s := ColorHex(r, g, b);
      && |s| == 7 && s[0] == '#'
      && s[1] == ByteHex(r)[0] && s[2] == ByteHex(r)[1]
      && s[3] == ByteHex(g)[0] && s[4] == ByteHex(g)[1]
      && s[5] == ByteHex(b)[0] && s[6] == ByteHex(b)[1]
  {
    HashJoin(ByteHex(r), ByteHex(g), ByteHex(b));
  }

  lemma HashJoin(a: string, b: string, c: string)
    requires |a| == 2 && |b| == 2 && |c| == 2
    ensures var s := "#" + a + b + c;
      && |s| == 7 && s[0] == '#'
      && s[1] == a[0] && s[2] == a[1] && s[3] == b[0] && s[4] == b[1] && s[5] == c[0] && s[6] == c[1]
  {
  }

  /** Every key is `#` and six lowercase hex digits that read back as the
      colour; so distinct colours get distinct keys. */
  lemma ColorHexRoundTrip(r: Byte, g: Byte, b: Byte)
    ensures |ColorHex(r, g, b)| == 7
    ensures ParseColorHex(ColorHex(r, g, b)) == Some((r, g, b))
  {
    HexByteOf(r);
    HexByteOf(g);
    HexByteOf(b);
    ByteHexDigits(r);
    ByteHexDigits(g);
    ByteHexDigits(b);
    ColorHexChars(r, g, b);
  }

  lemma ColorHexInjective(r: Byte, g: Byte, b: Byte, r': Byte, g': Byte, b': Byte)
    requires ColorHex(r, g, b) == ColorHex(r', g', b')
    ensures r == r' && g == g' && b == b'
  {
    ColorHexRoundTrip(r, g, b);
    ColorHexRoundTrip(r', g', b');
  }

  /** The key of the colour under pixel `p` of `colorData`. */
  function ColorKey(colorData: seq<Byte>, w: nat, h: nat, p: Point): string
    requires |colorData| == w * h * 4 && InBounds(w, h, p)
  {
    ColorHex(Sample(colorData, w, h, p.x, p.y, 0), Sample(colorData, w, h, p.x, p.y, 1), Sample(colorData, w, h, p.x, p.y, 2))
  }

  predicate AllInBounds(w: nat, h: nat, points: seq<Point>) {
    forall i :: 0 <= i < |points| ==> InBounds(w, h, points[i])
  }

  /** The keys met along the points, in order. */
  function Keys(colorData: seq<Byte>, w: nat, h: nat, points: seq<Point>): (ks: seq<string>)
    requires |colorData| == w * h * 4 && AllInBounds(w, h, points)
    ensures |ks| == |points|
    ensures forall i :: 0 <= i < |points| ==> ks[i] == ColorKey(colorData, w, h, points[i])
  {
    seq(|points|, i requires 0 <= i < |points| => ColorKey(colorData, w, h, points[i]))
  }

  // ---------------------------------------------------------------------
  // Counting

  /** Occurrences of `k` in `ks`. */
  function Count(ks: seq<string>, k: string): nat {
    if |ks| == 0 then 0
    else Count(ks[..|ks| - 1], k) + (if ks[|ks| - 1] == k then 1 else 0)
  }

  lemma {:induction false} CountAbsent(ks: seq<string>, k: string)
    requires k !in ks
    ensures Count(ks, k) == 0
  {
    if |ks| > 0 {
      CountAbsent(ks[..|ks| - 1], k);
    }
  }

  /** Position of the first occurrence of `k`. */
  function FirstIndex(ks: seq<string>, k: string): (i: nat)
    requires k in ks
    ensures i < |ks| && ks[i] == k && k !in ks[..i]
  {
    if ks[0] == k then 0
    else
      assert k in ks[1..];
      var j := FirstIndex(ks[1..], k);
      assert ks[..j + 1] == [ks[0]] + ks[1..][..j];
      j + 1
  }

  lemma FirstIndexAtMost(ks: seq<string>, j: nat)
    requires j < |ks|
    ensures FirstIndex(ks, ks[j]) <= j
  {
  }

  lemma FirstIndexUnique(ks: seq<string>, k: string, i: nat)
    requires i < |ks| && ks[i] == k && k !in ks[..i]
    ensures FirstIndex(ks, k) == i
  {
  }

  lemma FirstIndexSnoc(ks: seq<string>, k: string, x: string)
    requires x in ks
    ensures FirstIndex(ks + [k], x) == FirstIndex(ks, x)
  {
    var f := FirstIndex(ks, x);
    var ext := ks + [k];
    assert ext[..f] == ks[..f];
    FirstIndexUnique(ext, x, f);
  }

  /** One entry of the tally object: a key and its count. */
  datatype Entry = Entry(key: string, count: nat)

  /** Position of the entry for `k`, if there is one. */
  function KeyIndex(es: seq<Entry>, k: string): (r: Option<nat>)
    ensures r.Some? ==> r.value < |es| && es[r.value].key == k
    ensures r.None? ==> forall i :: 0 <= i < |es| ==> es[i].key != k
  {
    if |es| == 0 then None
    else if es[|es| - 1].key == k then Some(|es| - 1)
    else KeyIndex(es[..|es| - 1], k)
  }

  /** `colors[hex] = (colors[hex] || 0) + 1`: an existing key keeps its
      place, a new key goes at the end. */
  function Bump(es: seq<Entry>, k: string): seq<Entry> {
    match KeyIndex(es, k)
    case Some(i) => es[i := Entry(k, es[i].count + 1)]
    case None => es + [Entry(k, 1)]
  }

  /** The tally object after counting all keys in order. */
  function Tally(ks: seq<string>): seq<Entry> {
    if |ks| == 0 then [] else Bump(Tally(ks[..|ks| - 1]), ks[|ks| - 1])
  }

  /** Each entry's key occurs in `ks`, and its count is its number of
      occurrences. */
  ghost predicate CountsRight(ks: seq<string>, es: seq<Entry>) {
    forall i :: 0 <= i < |es| ==> es[i].key in ks && es[i].count == Count(ks, es[i].key)
  }

  /** Every key of `ks` has an entry. */
  ghost predicate Covers(ks: seq<string>, es: seq<Entry>) {
    forall j :: 0 <= j < |ks| ==> exists i :: 0 <= i < |es| && es[i].key == ks[j]
  }

  /** Entries are in order of their keys' first occurrence in `ks`. */
  ghost predicate InFirstOrder(ks: seq<string>, es: seq<Entry>)
    requires CountsRight(ks, es)
  {
    forall i, j :: 0 <= i < j < |es| ==> FirstIndex(ks, es[i].key) < FirstIndex(ks, es[j].key)
  }

  /** What the tally object holds: one entry per distinct key, with its
      number of occurrences, in order of first occurrence. */
  ghost predicate TallyOf(ks: seq<string>, es: seq<Entry>) {
    CountsRight(ks, es) && Covers(ks, es) && InFirstOrder(ks, es)
  }

  lemma {:induction false} TallyCorrect(ks: seq<string>)
    ensures TallyOf(ks, Tally(ks))
  {
    if |ks| > 0 {
      var init, k := ks[..|ks| - 1], ks[|ks| - 1];
      assert ks == init + [k];
      TallyCorrect(init);
      var es := Tally(init);
      match KeyIndex(es, k)
      case Some(m) => BumpExisting(init, es, k, m);
      case None => BumpNew(init, es, k);
    }
  }

  lemma CountSnoc(ks: seq<string>, k: string, x: string)
    ensures Count(ks + [k], x) == Count(ks, x) + (if k == x then 1 else 0)
  {
    assert (ks + [k])[..|ks|] == ks;
  }

  lemma CoversSnoc(ks: seq<string>, es: seq<Entry>, k: string, es': seq<Entry>, m: nat)
    requires Covers(ks, es) && |es| <= |es'| && m < |es'| && es'[m].key == k
    requires forall i :: 0 <= i < |es| ==> es'[i].key == es[i].key
    ensures Covers(ks + [k], es')
  {
    var ext := ks + [k];
    forall j | 0 <= j < |ext|
      ensures exists i :: 0 <= i < |es'| && es'[i].key == ext[j]
    {
      if j < |ks| {
        var i :| 0 <= i < |es| && es[i].key == ks[j];
        assert es'[i].key == ext[j];
      } else {
        assert es'[m].key == ext[j];
      }
    }
  }

  lemma BumpExisting(ks: seq<string>, es: seq<Entry>, k: string, m: nat)
    requires TallyOf(ks, es) && KeyIndex(es, k) == Some(m)
    ensures TallyOf(ks + [k], Bump(es, k))
  {
    var es' := es[m := Entry(k, es[m].count + 1)];
    BumpAt(es, k, m);
    CoversSnoc(ks, es, k, es', m);
    BumpExistingCounts(ks, es, k, m, es');
    BumpExistingOrder(ks, es, k, m, es');
  }

  /** Bumping a key already present raises its own count in place. */
  lemma BumpAt(es: seq<Entry>, k: string, m: nat)
    requires KeyIndex(es, k) == Some(m)
    ensures Bump(es, k) == es[m := Entry(k, es[m].count + 1)]
  {
  }

  lemma BumpExistingCounts(ks: seq<string>, es: seq<Entry>, k: string, m: nat, es': seq<Entry>)
    requires CountsRight(ks, es) && InFirstOrder(ks, es) && m < |es| && es[m].key == k
    requires es' == es[m := Entry(k, es[m].count + 1)]
    ensures CountsRight(ks + [k], es')
  {
    forall i | 0 <= i < |es'|
      ensures es'[i].key in ks + [k] && es'[i].count == Count(ks + [k], es'[i].key)
    {
      CountSnoc(ks, k, es[i].key);
      if i != m {
        assert FirstIndex(ks, es[i].key) != FirstIndex(ks, es[m].key);
      }
    }
  }

  lemma BumpExistingOrder(ks: seq<string>, es: seq<Entry>, k: string, m: nat, es': seq<Entry>)
    requires CountsRight(ks, es) && InFirstOrder(ks, es) && m < |es| && es[m].key == k
    requires es' == es[m := Entry(k, es[m].count + 1)]
    requires CountsRight(ks + [k], es')
    ensures InFirstOrder(ks + [k], es')
  {
    forall i, j | 0 <= i < j < |es'|
      ensures FirstIndex(ks + [k], es'[i].key) < FirstIndex(ks + [k], es'[j].key)
    {
      FirstIndexSnoc(ks, k, es[i].key);
      FirstIndexSnoc(ks, k, es[j].key);
    }
  }

  lemma BumpNew(ks: seq<string>, es: seq<Entry>, k: string)
    requires TallyOf(ks, es) && KeyIndex(es, k).None?
    ensures TallyOf(ks + [k], Bump(es, k))
  {
    var es' := es + [Entry(k, 1)];
    assert Bump(es, k) == es';
    assert k !in ks;
    CoversSnoc(ks, es, k, es', |es|);
    BumpNewCounts(ks, es, k, es');
    BumpNewOrder(ks, es, k, es');
  }

  lemma BumpNewCounts(ks: seq<string>, es: seq<Entry>, k: string, es': seq<Entry>)
    requires CountsRight(ks, es) && k !in ks && es' == es + [Entry(k, 1)]
    ensures CountsRight(ks + [k], es')
  {
    forall i | 0 <= i < |es'|
      ensures es'[i].key in ks + [k] && es'[i].count == Count(ks + [k], es'[i].key)
    {
      if i < |es| {
        CountSnoc(ks, k, es[i].key);
      } else {
        CountAbsent(ks, k);
        CountSnoc(ks, k, k);
      }
    }
  }

  lemma BumpNewOrder(ks: seq<string>, es: seq<Entry>, k: string, es': seq<Entry>)
    requires CountsRight(ks, es) && InFirstOrder(ks, es) && k !in ks && es' == es + [Entry(k, 1)]
    requires CountsRight(ks + [k], es')
    ensures InFirstOrder(ks + [k], es')
  {
    var ext := ks + [k];
    assert ext[..|ks|] == ks;
    FirstIndexUnique(ext, k, |ks|);
    forall i, j | 0 <= i < j < |es'|
      ensures FirstIndex(ext, es'[i].key) < FirstIndex(ext, es'[j].key)
    {
      FirstIndexSnoc(ks, k, es[i].key);
      if j < |es| {
        FirstIndexSnoc(ks, k, es[j].key);
      }
    }
  }

  // ---------------------------------------------------------------------
  // Choosing the winner

  /** The first entry of a stable descending sort by count: the first entry
      whose count no other entry exceeds. */
  function FirstMax(es: seq<Entry>): (m: nat)
    requires |es| > 0
    ensures m < |es|
    ensures forall i :: 0 <= i < |es| ==> es[i].count <= es[m].count
    ensures forall i :: 0 <= i < m ==> es[i].count < es[m].count
  {
    if |es| == 1 then 0
    else
      var m := FirstMax(es[..|es| - 1]);
      if es[|es| - 1].count > es[m].count then |es| - 1 else m
  }

  /** `getDominantColor`: the first entry of the tally sorted by count. */
  function GetDominantColor(points: seq<Point>, colorData: seq<Byte>, w: nat, h: nat): string
    requires |points| > 0 && |colorData| == w * h * 4 && AllInBounds(w, h, points)
  {
    var ks := Keys(colorData, w, h, points);
    var es := Tally(ks);
    TallyCorrect(ks);
    assert ks[0] in ks;
    es[FirstMax(es)].key
  }

  /** The dominant colour is a key met along the points, no key is met more
      often, and every key first met before it is met strictly less often. */
  lemma DominantColorIsMostFrequent(points: seq<Point>, colorData: seq<Byte>, w: nat, h: nat)
    requires |points| > 0 && |colorData| == w * h * 4 && AllInBounds(w, h, points)
    ensures var ks, hex := Keys(colorData, w, h, points), GetDominantColor(points, colorData, w, h);
      && hex in ks
      && (forall j :: 0 <= j < |ks| ==> Count(ks, ks[j]) <= Count(ks, hex))
      && (forall j :: 0 <= j < FirstIndex(ks, hex) ==> Count(ks, ks[j]) < Count(ks, hex))
  {
    var ks := Keys(colorData, w, h, points);
    var es := Tally(ks);
    TallyCorrect(ks);
    assert ks[0] in ks;
    DominantIsFirstMostFrequent(ks, es, FirstMax(es));
  }

  lemma DominantIsFirstMostFrequent(ks: seq<string>, es: seq<Entry>, m: nat)
    requires TallyOf(ks, es) && m < |es|
    requires forall i :: 0 <= i < |es| ==> es[i].count <= es[m].count
    requires forall i :: 0 <= i < m ==> es[i].count < es[m].count
    ensures var hex := es[m].key;
      && hex in ks
      && (forall j :: 0 <= j < |ks| ==> Count(ks, ks[j]) <= Count(ks, hex))
      && (forall j :: 0 <= j < FirstIndex(ks, hex) ==> Count(ks, ks[j]) < Count(ks, hex))
  {
    NoKeyMoreFrequent(ks, es, m);
    EarlierKeysLessFrequent(ks, es, m);
  }

  /** An entry with the largest count has a key no other key outnumbers. */
  lemma NoKeyMoreFrequent(ks: seq<string>, es: seq<Entry>, m: nat)
    requires CountsRight(ks, es) && Covers(ks, es) && m < |es|
    requires forall i :: 0 <= i < |es| ==> es[i].count <= es[m].count
    ensures forall j :: 0 <= j < |ks| ==> Count(ks, ks[j]) <= Count(ks, es[m].key)
  {
    forall j | 0 <= j < |ks|
      ensures Count(ks, ks[j]) <= Count(ks, es[m].key)
    {
      var i :| 0 <= i < |es| && es[i].key == ks[j];
    }
  }

  /** If every entry before `m` has a smaller count, every key first met
      before `es[m].key` is met less often. */
  lemma EarlierKeysLessFrequent(ks: seq<string>, es: seq<Entry>, m: nat)
    requires CountsRight(ks, es) && Covers(ks, es) && InFirstOrder(ks, es) && m < |es|
    requires forall i :: 0 <= i < m ==> es[i].count < es[m].count
    ensures es[m].key in ks
    ensures forall j :: 0 <= j < FirstIndex(ks, es[m].key) ==> Count(ks, ks[j]) < Count(ks, es[m].key)
  {
    var hex := es[m].key;
    forall j | 0 <= j < FirstIndex(ks, hex)
      ensures Count(ks, ks[j]) < Count(ks, hex)
    {
      var i :| 0 <= i < |es| && es[i].key == ks[j];
      FirstIndexAtMost(ks, j);
      EntryOrder(ks, es, i, m);
    }
  }

  /** Entries are ordered as their keys' first occurrences. */
  lemma EntryOrder(ks: seq<string>, es: seq<Entry>, i: nat, m: nat)
    requires CountsRight(ks, es) && InFirstOrder(ks, es) && i < |es| && m < |es|
    requires FirstIndex(ks, es[i].key) < FirstIndex(ks, es[m].key)
    ensures i < m
  {
  }

  /** The dominant colour is the colour of some point of the trace. */
  lemma DominantIsOnPath(points: seq<Point>, colorData: seq<Byte>, w: nat, h: nat)
    requires |points| > 0 && |colorData| == w * h * 4 && AllInBounds(w, h, points)
    ensures exists i ::
      && 0 <= i < |points|
      && GetDominantColor(points, colorData, w, h) == ColorKey(colorData, w, h, points[i])
  {
    DominantColorIsMostFrequent(points, colorData, w, h);
    var ks := Keys(colorData, w, h, points);
    var i := FirstIndex(ks, GetDominantColor(points, colorData, w, h));
    assert ks[i] == ColorKey(colorData, w, h, points[i]);
  }
}
