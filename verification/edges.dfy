/** `detectEdges`: integer Sobel gradients of the intensity channel and of
    each colour channel, combined into one edge strength per pixel. The
    square roots and the float averaging are kept abstract as a
    `Magnitude` function; what is stored is ToUint8Clamp of its value. */
module EdgeDetection {
  import opened Raster
  import opened Uint8Clamp

  const SobelX: seq<seq<int>> := [[-1, 0, 1], [-2, 0, 2], [-1, 0, 1]]
  const SobelY: seq<seq<int>> := [[-1, -2, -1], [0, 0, 0], [1, 2, 1]]

  /** Both Sobel kernels weigh their neighbourhood to zero. */
  lemma SobelSums()
    ensures Is3x3(SobelX) && KernelSum(SobelX) == 0
    ensures Is3x3(SobelY) && KernelSum(SobelY) == 0
  {
  }

  /** The integer gradients of one pixel: `gx`, `gy` over channel 0 (red) of
      the processed buffer, and per colour channel over `colorData`. */
  datatype Gradients = Gradients(gx: int, gy: int, colorGx: seq<int>, colorGy: seq<int>)

  /** The floating-point combination `min(255, (sqrt(gx²+gy²) +
      sqrt(Σ colorGx² + Σ colorGy²) / 3) / 2)`, left uninterpreted. */
  type Magnitude = Gradients -> real

  const ZeroGradients: Gradients := Gradients(0, 0, [0, 0, 0], [0, 0, 0])

  /** A magnitude that, like the square-root formula, is 0 on zero gradients. */
  predicate ZeroAtRest(mag: Magnitude) {
    mag(ZeroGradients) == 0.0
  }

  function GradientsAt(d: ImageData, x: int, y: int): (g: Gradients)
    requires WellFormedData(d) && Interior(d.image.width, d.image.height, x, y)
    ensures |g.colorGx| == 3 && |g.colorGy| == 3
  {
    var w, h := d.image.width, d.image.height;
    Gradients(
      Convolve(SobelX, d.image.data, w, h, x, y, 0),
      Convolve(SobelY, d.image.data, w, h, x, y, 0),
      seq(3, c requires 0 <= c < 3 => Convolve(SobelX, d.colorData, w, h, x, y, c)),
      seq(3, c requires 0 <= c < 3 => Convolve(SobelY, d.colorData, w, h, x, y, c)))
  }

  /** Sample `i` of the edge buffer: zero on the border, the clamped
      magnitude on the colour channels of interior pixels, 255 alpha. */
  function EdgeSample(d: ImageData, mag: Magnitude, i: int): Byte
    requires WellFormedData(d) && 0 <= i < |d.image.data|
  {
    var w, h := d.image.width, d.image.height;
    assert w > 0;
    var q, c := PixelAt(w, i / 4), i % 4;
    var x, y := q.x, q.y;
    if Interior(w, h, x, y) then
      if c < 3 then ToUint8Clamp(mag(GradientsAt(d, x, y))) else 255
    else 0
  }

  lemma EdgeSampleAt(d: ImageData, mag: Magnitude, x: int, y: int, c: int)
    requires WellFormedData(d)
    requires 0 <= x < d.image.width && 0 <= y < d.image.height && 0 <= c < 4
    ensures 0 <= Idx(d.image.width, x, y, c) < |d.image.data|
    ensures EdgeSample(d, mag, Idx(d.image.width, x, y, c)) ==
      if Interior(d.image.width, d.image.height, x, y) then
        if c < 3 then ToUint8Clamp(mag(GradientsAt(d, x, y))) else 255
      else 0
  {
    var w := d.image.width;
    IdxInRange(w, d.image.height, x, y, c);
    PixelNumber(w, d.image.height, Point(x, y));
    assert PixelAt(w, Idx(w, x, y, c) / 4) == Point(x, y);
  }

  /** The whole edge buffer, sample by sample. */
  function EdgeData(d: ImageData, mag: Magnitude): (data: seq<Byte>)
    requires WellFormedData(d)
    ensures |data| == |d.image.data|
  {
    seq(|d.image.data|, i requires 0 <= i < |d.image.data| => EdgeSample(d, mag, i))
  }

  /** Read pixel by pixel, the edge buffer is zero on the border and holds
      the clamped magnitude three times and 255 alpha inside. */
  lemma EdgeDataPixels(d: ImageData, mag: Magnitude)
    requires WellFormedData(d)
    ensures var w, h, data := d.image.width, d.image.height, EdgeData(d, mag);
      && (forall x, y, c ::
            0 <= x < w && 0 <= y < h && 0 <= c < 4 && OnBorder(w, h, x, y) ==>
              Sample(data, w, h, x, y, c) == 0)
      && (forall x, y ::
            Interior(w, h, x, y) ==>
              && Sample(data, w, h, x, y, 0) == ToUint8Clamp(mag(GradientsAt(d, x, y)))
              && Sample(data, w, h, x, y, 1) == Sample(data, w, h, x, y, 0)
              && Sample(data, w, h, x, y, 2) == Sample(data, w, h, x, y, 0)
              && Sample(data, w, h, x, y, 3) == 255)
  {
    var w, h, data := d.image.width, d.image.height, EdgeData(d, mag);
    forall x, y, c | 0 <= x < w && 0 <= y < h && 0 <= c < 4 && OnBorder(w, h, x, y)
      ensures Sample(data, w, h, x, y, c) == 0
    {
      EdgeSampleAt(d, mag, x, y, c);
    }
    forall x, y | Interior(w, h, x, y)
      ensures && Sample(data, w, h, x, y, 0) == ToUint8Clamp(mag(GradientsAt(d, x, y)))
              && Sample(data, w, h, x, y, 1) == Sample(data, w, h, x, y, 0)
              && Sample(data, w, h, x, y, 2) == Sample(data, w, h, x, y, 0)
              && Sample(data, w, h, x, y, 3) == 255
    {
      EdgeSampleAt(d, mag, x, y, 0);
      EdgeSampleAt(d, mag, x, y, 1);
      EdgeSampleAt(d, mag, x, y, 2);
      EdgeSampleAt(d, mag, x, y, 3);
    }
  }

  /** `detectEdges`: a fresh buffer of the same size carrying the input's
      colour buffer along. Border pixels are all zero (alpha too); each
      interior pixel has R = G = B = its clamped edge strength and alpha 255. */
  function DetectEdges(d: ImageData, mag: Magnitude): (e: ImageData)
    requires WellFormedData(d)
    ensures WellFormedData(e)
    ensures e.image.width == d.image.width && e.image.height == d.image.height
    ensures e.colorData == d.colorData
    ensures forall x, y, c ::
      0 <= x < d.image.width && 0 <= y < d.image.height && 0 <= c < 4 && OnBorder(d.image.width, d.image.height, x, y) ==>
        Sample(e.image.data, e.image.width, e.image.height, x, y, c) == 0
    ensures forall x, y ::
      Interior(d.image.width, d.image.height, x, y) ==>
        && Sample(e.image.data, e.image.width, e.image.height, x, y, 0) == ToUint8Clamp(mag(GradientsAt(d, x, y)))
        && Sample(e.image.data, e.image.width, e.image.height, x, y, 1) == Sample(e.image.data, e.image.width, e.image.height, x, y, 0)
        && Sample(e.image.data, e.image.width, e.image.height, x, y, 2) == Sample(e.image.data, e.image.width, e.image.height, x, y, 0)
        && Sample(e.image.data, e.image.width, e.image.height, x, y, 3) == 255
  {
    EdgeDataPixels(d, mag);
    ImageData(Raster(d.image.width, d.image.height, EdgeData(d, mag)), d.colorData)
  }

  /** Over equal samples every Sobel sum is zero, intensity and colour alike. */
  lemma UniformGradients(d: ImageData, x: int, y: int)
    requires WellFormedData(d) && Interior(d.image.width, d.image.height, x, y)
    requires Uniform(d.image.data) && Uniform(d.colorData)
    ensures GradientsAt(d, x, y) == ZeroGradients
  {
    var w, h := d.image.width, d.image.height;
    SobelSums();
    ConvolveUniform(SobelX, d.image.data, w, h, x, y, 0);
    ConvolveUniform(SobelY, d.image.data, w, h, x, y, 0);
    var g := GradientsAt(d, x, y);
    forall c | 0 <= c < 3
      ensures g.colorGx[c] == 0 && g.colorGy[c] == 0
    {
      ConvolveUniform(SobelX, d.colorData, w, h, x, y, c);
      ConvolveUniform(SobelY, d.colorData, w, h, x, y, c);
    }
    assert g.colorGx == [0, 0, 0];
    assert g.colorGy == [0, 0, 0];
  }

  /** A uniform image has edge strength 0 at every pixel. */
  lemma UniformImageHasNoEdges(d: ImageData, mag: Magnitude)
    requires WellFormedData(d) && Uniform(d.image.data) && Uniform(d.colorData)
    requires ZeroAtRest(mag)
    ensures forall x, y ::
      0 <= x < d.image.width && 0 <= y < d.image.height ==>
        Sample(DetectEdges(d, mag).image.data, d.image.width, d.image.height, x, y, 0) == 0
  {
    var e := DetectEdges(d, mag);
    forall x, y | 0 <= x < d.image.width && 0 <= y < d.image.height
      ensures Sample(e.image.data, d.image.width, d.image.height, x, y, 0) == 0
    {
      if Interior(d.image.width, d.image.height, x, y) {
        UniformGradients(d, x, y);
      }
    }
  }

  /** The Sobel sums are linear in the samples: scaling every sample of the
      intensity channel by `k` scales `gx` and `gy` by `k`. */
  lemma GradientsScale(d: ImageData, d2: ImageData, k: int, x: int, y: int)
    requires WellFormedData(d) && WellFormedData(d2)
    requires d2.image.width == d.image.width && d2.image.height == d.image.height
    requires forall i :: 0 <= i < |d.image.data| ==> d2.image.data[i] == k * d.image.data[i]
    requires Interior(d.image.width, d.image.height, x, y)
    ensures GradientsAt(d2, x, y).gx == k * GradientsAt(d, x, y).gx
    ensures GradientsAt(d2, x, y).gy == k * GradientsAt(d, x, y).gy
  {
    var w, h := d.image.width, d.image.height;
    SobelSums();
    ConvolveScale(SobelX, d.image.data, d2.image.data, k, w, h, x, y, 0);
    ConvolveScale(SobelY, d.image.data, d2.image.data, k, w, h, x, y, 0);
  }
}
