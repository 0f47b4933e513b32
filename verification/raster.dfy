/** Pixel buffers as the browser's `ImageData` holds them: interleaved RGBA
    samples of a `Uint8ClampedArray`, row-major, four channels per pixel. */
module Raster {

  /** A sample of a `Uint8ClampedArray`. */
  type Byte = b: int | 0 <= b < 256

  datatype Point = Point(x: int, y: int)

  datatype Raster = Raster(width: nat, height: nat, data: seq<Byte>)

  /** An `ImageData` together with the colour buffer the pipeline attaches to
      it as `colorData`. */
  datatype ImageData = ImageData(image: Raster, colorData: seq<Byte>)

  predicate WellFormedData(d: ImageData) {
    WellFormed(d.image) && |d.colorData| == |d.image.data|
  }

  /** `data.length == width * height * 4`. */
  predicate WellFormed(r: Raster) {
    |r.data| == r.width * r.height * 4
  }

  /** Position of channel `c` of pixel (x, y), counted row by row: `4 * w`
      samples per row above, then `4 * x + c`. `IdxClosedForm` gives the
      source's `((y * width + x) * 4) + c`. */
  function Idx(w: int, x: int, y: nat, c: int): int {
    if y == 0 then 4 * x + c else Idx(w, x, y - 1, c) + 4 * w
  }

  lemma {:induction false} IdxClosedForm(w: int, x: int, y: nat, c: int)
    ensures Idx(w, x, y, c) == (y * w + x) * 4 + c
  {
    if y > 0 {
      IdxClosedForm(w, x, y - 1, c);
    }
  }

  predicate InBounds(w: int, h: int, p: Point) {
    0 <= p.x < w && 0 <= p.y < h
  }

  /** Pixels on the outermost rows and columns, which the 3x3 filters skip. */
  predicate OnBorder(w: int, h: int, x: int, y: int) {
    x == 0 || y == 0 || x == w - 1 || y == h - 1
  }

  /** Pixel number `n` of a raster scan (row by row, left to right). */
  function PixelAt(w: nat, n: nat): (p: Point)
    requires w > 0
    ensures 0 <= p.x < w && p.y >= 0
  {
    Point(n % w, n / w)
  }

  /** Pixel `PixelAt(w, n)` has number `n` again. */
  lemma PixelAtNumber(w: nat, n: nat)
    requires w > 0
    ensures PixelAt(w, n).y * w + PixelAt(w, n).x == n
  {
  }

  lemma DivModUnique(i: int, d: int, q: int, r: int)
    requires d > 0 && 0 <= r < d && i == q * d + r
    ensures i / d == q && i % d == r
  {
    var q0, r0 := i / d, i % d;
    assert i == q0 * d + r0;
    if q0 > q {
      assert (q0 - q) * d >= d by { MulMonotone(q0 - q, d); }
      assert false;
    } else if q0 < q {
      assert (q - q0) * d >= d by { MulMonotone(q - q0, d); }
      assert false;
    }
  }

  lemma MulMonotone(a: int, d: int)
    requires a >= 1 && d > 0
    ensures a * d >= d
  {
  }

  /** A pixel of a `w`-wide scan has number `y * w + x`, and row `y < h` of a
      `w * h` raster. */
  lemma PixelNumber(w: nat, h: nat, p: Point)
    requires InBounds(w, h, p)
    ensures 0 <= p.y * w + p.x < w * h
    ensures PixelAt(w, p.y * w + p.x) == p
  {
    DivModUnique(p.y * w + p.x, w, p.y, p.x);
    assert p.y * w + p.x < (p.y + 1) * w;
    assert (p.y + 1) * w <= h * w by { MulLe(p.y + 1, h, w); }
  }

  lemma MulLe(a: nat, b: nat, w: nat)
    requires a <= b
    ensures a * w <= b * w
  {
  }

  lemma PixelAtInBounds(w: nat, h: nat, n: nat)
    requires w > 0 && n < w * h
    ensures InBounds(w, h, PixelAt(w, n))
  {
    var p := PixelAt(w, n);
    PixelAtNumber(w, n);
    if p.y >= h {
      MulLe(h, p.y, w);
      assert false;
    }
  }

  /** Every in-bounds sample position is inside the buffer and decomposes back
      into its pixel and channel. */
  lemma IdxInRange(w: nat, h: nat, x: int, y: int, c: int)
    requires 0 <= x < w && 0 <= y < h && 0 <= c < 4
    ensures 0 <= Idx(w, x, y, c) < w * h * 4
    ensures Idx(w, x, y, c) / 4 == y * w + x && Idx(w, x, y, c) % 4 == c
  {
    PixelNumber(w, h, Point(x, y));
    IdxClosedForm(w, x, y, c);
    DivModUnique(Idx(w, x, y, c), 4, y * w + x, c);
  }

  /** Buffer position `i` is channel `i % 4` of pixel number `i / 4`. */
  lemma SampleOfIndex(w: nat, h: nat, i: int)
    requires w > 0 && 0 <= i < w * h * 4
    ensures var q := PixelAt(w, i / 4);
      InBounds(w, h, q) && Idx(w, q.x, q.y, i % 4) == i
  {
    var q := PixelAt(w, i / 4);
    assert i / 4 < w * h;
    PixelAtInBounds(w, h, i / 4);
    PixelAtNumber(w, i / 4);
    IdxClosedForm(w, q.x, q.y, i % 4);
  }

  /** Sample `c` of pixel (x, y). */
  function Sample(buf: seq<Byte>, w: nat, h: nat, x: int, y: int, c: int): Byte
    requires |buf| == w * h * 4
    requires 0 <= x < w && 0 <= y < h && 0 <= c < 4
  {
    IdxInRange(w, h, x, y, c);
    buf[Idx(w, x, y, c)]
  }

  /** Every pixel holds the same four samples as pixel 0. */
  predicate Uniform(buf: seq<Byte>) {
    forall i :: 4 <= i < |buf| ==> buf[i] == buf[i % 4]
  }

  lemma UniformSample(buf: seq<Byte>, w: nat, h: nat, x: int, y: int, c: int)
    requires |buf| == w * h * 4 && Uniform(buf)
    requires 0 <= x < w && 0 <= y < h && 0 <= c < 4
    ensures Sample(buf, w, h, x, y, c) == buf[c]
  {
    IdxInRange(w, h, x, y, c);
  }

  // ---------------------------------------------------------------------
  // 3x3 kernels

  /** A 3x3 kernel, indexed `K[ky + 1][kx + 1]` as in the source. */
  predicate Is3x3(k: seq<seq<int>>) {
    |k| == 3 && |k[0]| == 3 && |k[1]| == 3 && |k[2]| == 3
  }

  function KernelSum(k: seq<seq<int>>): int
    requires Is3x3(k)
  {
    k[0][0] + k[0][1] + k[0][2] + k[1][0] + k[1][1] + k[1][2] + k[2][0] + k[2][1] + k[2][2]
  }

  /** Pixels whose whole 3x3 neighbourhood lies inside the raster. */
  predicate Interior(w: int, h: int, x: int, y: int) {
    1 <= x < w - 1 && 1 <= y < h - 1
  }

  /** One kernel row applied to the row `y + ky` of the neighbourhood. */
  function KernelRow(k: seq<seq<int>>, buf: seq<Byte>, w: nat, h: nat, x: int, y: int, c: int, ky: int): int
    requires Is3x3(k) && |buf| == w * h * 4 && Interior(w, h, x, y) && 0 <= c < 4
    requires -1 <= ky <= 1
  {
    k[ky + 1][0] * Sample(buf, w, h, x - 1, y + ky, c)
    + k[ky + 1][1] * Sample(buf, w, h, x, y + ky, c)
    + k[ky + 1][2] * Sample(buf, w, h, x + 1, y + ky, c)
  }

  /** The integer sum `Σ K[ky+1][kx+1] * buf[idx(x+kx, y+ky) + c]` over the
      3x3 neighbourhood of an interior pixel. */
  function Convolve(k: seq<seq<int>>, buf: seq<Byte>, w: nat, h: nat, x: int, y: int, c: int): int
    requires Is3x3(k) && |buf| == w * h * 4 && Interior(w, h, x, y) && 0 <= c < 4
  {
    KernelRow(k, buf, w, h, x, y, c, -1) + KernelRow(k, buf, w, h, x, y, c, 0) + KernelRow(k, buf, w, h, x, y, c, 1)
  }

  /** Over a neighbourhood of equal samples `v`, a kernel yields `KernelSum * v`. */
  lemma ConvolveUniform(k: seq<seq<int>>, buf: seq<Byte>, w: nat, h: nat, x: int, y: int, c: int)
    requires Is3x3(k) && |buf| == w * h * 4 && Interior(w, h, x, y) && 0 <= c < 4
    requires Uniform(buf)
    ensures Convolve(k, buf, w, h, x, y, c) == KernelSum(k) * buf[c]
  {
    UniformSample(buf, w, h, x - 1, y - 1, c);
    UniformSample(buf, w, h, x, y - 1, c);
    UniformSample(buf, w, h, x + 1, y - 1, c);
    UniformSample(buf, w, h, x - 1, y, c);
    UniformSample(buf, w, h, x, y, c);
    UniformSample(buf, w, h, x + 1, y, c);
    UniformSample(buf, w, h, x - 1, y + 1, c);
    UniformSample(buf, w, h, x, y + 1, c);
    UniformSample(buf, w, h, x + 1, y + 1, c);
  }

  lemma Linear3(a: int, b: int, c: int, u: int, v: int, t: int, k: int)
    ensures a * (k * u) + b * (k * v) + c * (k * t) == k * (a * u + b * v + c * t)
  {
  }

  lemma KernelRowScale(kern: seq<seq<int>>, buf: seq<Byte>, buf2: seq<Byte>, k: int, w: nat, h: nat, x: int, y: int, c: int, ky: int)
    requires Is3x3(kern) && |buf| == w * h * 4 && |buf2| == |buf| && Interior(w, h, x, y) && 0 <= c < 4
    requires -1 <= ky <= 1
    requires forall i :: 0 <= i < |buf| ==> buf2[i] == k * buf[i]
    ensures KernelRow(kern, buf2, w, h, x, y, c, ky) == k * KernelRow(kern, buf, w, h, x, y, c, ky)
  {
    IdxInRange(w, h, x - 1, y + ky, c);
    IdxInRange(w, h, x, y + ky, c);
    IdxInRange(w, h, x + 1, y + ky, c);
    Linear3(kern[ky + 1][0], kern[ky + 1][1], kern[ky + 1][2],
      Sample(buf, w, h, x - 1, y + ky, c), Sample(buf, w, h, x, y + ky, c), Sample(buf, w, h, x + 1, y + ky, c), k);
  }

  /** A kernel sum is linear in the samples it weighs. */
  lemma ConvolveScale(kern: seq<seq<int>>, buf: seq<Byte>, buf2: seq<Byte>, k: int, w: nat, h: nat, x: int, y: int, c: int)
    requires Is3x3(kern) && |buf| == w * h * 4 && |buf2| == |buf| && Interior(w, h, x, y) && 0 <= c < 4
    requires forall i :: 0 <= i < |buf| ==> buf2[i] == k * buf[i]
    ensures Convolve(kern, buf2, w, h, x, y, c) == k * Convolve(kern, buf, w, h, x, y, c)
  {
    KernelRowScale(kern, buf, buf2, k, w, h, x, y, c, -1);
    KernelRowScale(kern, buf, buf2, k, w, h, x, y, c, 0);
    KernelRowScale(kern, buf, buf2, k, w, h, x, y, c, 1);
    Linear3(1, 1, 1, KernelRow(kern, buf, w, h, x, y, c, -1), KernelRow(kern, buf, w, h, x, y, c, 0),
      KernelRow(kern, buf, w, h, x, y, c, 1), k);
  }
}
