/** The image-side stages: input validation, the dimension cap applied when
    the decoded image is drawn, the 3x3 smoothing filter, and the assembly
    of the buffer handed to edge detection. */
module ImageProcessing {
  import opened Wrappers
  import opened Raster
  import opened Uint8Clamp

  // ---------------------------------------------------------------------
  // Validation

  /** What the model needs of a browser `File`: its MIME type and size. */
  datatype FileInfo = FileInfo(mimeType: string, size: int)

  /** 10 MB. */
  const MaxFileSize: int := 10 * 1024 * 1024

  const NoFileMessage: string := "No image file provided"
  const BadTypeMessage: string := "Invalid file type. Please upload an image file"
  const TooLargeMessage: string := "Image file is too large. Maximum size is 10MB"

  /** The checks run before any pixel work, in the source's order: presence,
      an `image/` MIME type, then the size limit. */
  function ValidateImageFile(file: Option<FileInfo>): (r: Outcome<string>)
    ensures r.Pass? <==> file.Some? && "image/" <= file.value.mimeType && file.value.size <= MaxFileSize
    ensures file.None? ==> r == Fail(NoFileMessage)
    ensures file.Some? && !("image/" <= file.value.mimeType) ==> r == Fail(BadTypeMessage)
    ensures file.Some? && "image/" <= file.value.mimeType && file.value.size > MaxFileSize ==> r == Fail(TooLargeMessage)
  {
    match file
    case None => Fail(NoFileMessage)
    case Some(f) =>
      if !("image/" <= f.mimeType) then Fail(BadTypeMessage)
      else if f.size > MaxFileSize then Fail(TooLargeMessage)
      else Pass
  }

  /** The size limit is inclusive: exactly 10485760 bytes is accepted, one
      byte more is rejected. */
  lemma SizeLimitBoundary(mimeType: string)
    requires "image/" <= mimeType
    ensures ValidateImageFile(Some(FileInfo(mimeType, 10485760))) == Pass
    ensures ValidateImageFile(Some(FileInfo(mimeType, 10485761))) == Fail(TooLargeMessage)
  {
  }

  // ---------------------------------------------------------------------
  // Dimension cap

  const MaxDimension: nat := 2000

  function Max(a: nat, b: nat): nat {
    if a >= b then a else b
  }

  /** `Math.min(2000 / width, 2000 / height)`, reading `2000 / 0` as
      +Infinity, on exact reals. */
  function ScaleRatio(w: nat, h: nat): (ratio: real)
    requires w > MaxDimension || h > MaxDimension
    ensures ratio == MaxDimension as real / Max(w, h) as real
  {
    var rw := if w == 0 then 0.0 else MaxDimension as real / w as real;
    var rh := if h == 0 then 0.0 else MaxDimension as real / h as real;
    if w == 0 then rh
    else if h == 0 then rw
    else
      RatioOrder(w, h);
      if rw <= rh then rw else rh
  }

  /** The cap's ratio is smaller for the longer side. */
  lemma RatioOrder(w: nat, h: nat)
    requires w > 0 && h > 0
    ensures MaxDimension as real / w as real <= MaxDimension as real / h as real <==> w >= h
  {
    var m := MaxDimension as real;
    var rw, rh := m / w as real, m / h as real;
    assert rw * w as real == m && rh * h as real == m;
    assert rw > 0.0 && rh > 0.0;
    if w >= h {
      assert rw * h as real <= rw * w as real;
      assert rw * h as real <= rh * h as real;
    } else {
      assert rh * w as real < rh * h as real;
      assert rh * w as real < rw * w as real;
    }
  }

  /** `Math.floor(side * ratio)` for a non-negative side. */
  function ScaledSide(side: nat, ratio: real): nat
    requires ratio > 0.0
  {
    var v := side as real * ratio;
    assert v >= 0.0;
    v.Floor
  }

  /** Width and height after the cap: unchanged when both are at most 2000,
      otherwise both multiplied by the same ratio and truncated. */
  function ScaleDimensions(w: nat, h: nat): (r: (nat, nat))
    ensures w <= MaxDimension && h <= MaxDimension ==> r == (w, h)
    ensures r.0 <= MaxDimension && r.1 <= MaxDimension
    ensures r.0 <= w && r.1 <= h
    ensures (w > MaxDimension || h > MaxDimension) ==>
      var m := Max(w, h);
      && (w == m ==> r.0 == MaxDimension)
      && (h == m ==> r.1 == MaxDimension)
      && r.0 * m <= w * MaxDimension < (r.0 + 1) * m
      && r.1 * m <= h * MaxDimension < (r.1 + 1) * m
  {
    if w > MaxDimension || h > MaxDimension then
      var ratio := ScaleRatio(w, h);
      var r := (ScaledSide(w, ratio), ScaledSide(h, ratio));
      ScaledSideFacts(w, Max(w, h));
      ScaledSideFacts(h, Max(w, h));
      r
    else (w, h)
  }

  /** The truncated side `floor(side * 2000 / m)` as an integer inequality. */
  lemma ScaledSideFacts(side: nat, m: nat)
    requires m > MaxDimension && side <= m
    ensures var s := ScaledSide(side, MaxDimension as real / m as real);
      && s * m <= side * MaxDimension < (s + 1) * m
      && s <= MaxDimension && s <= side
      && (side == m ==> s == MaxDimension)
  {
    var ratio := MaxDimension as real / m as real;
    var v := side as real * ratio;
    var s := ScaledSide(side, ratio);
    assert v == (side * MaxDimension) as real / m as real;
    assert s as real <= v < s as real + 1.0;
    assert (s * m) as real <= (side * MaxDimension) as real;
    assert (side * MaxDimension) as real < ((s + 1) * m) as real;
    if s > MaxDimension {
      assert (s * m) > MaxDimension * m by { MulStrict(MaxDimension, s, m); }
      MulLe(side, m, MaxDimension);
      assert false;
    }
    if s > side {
      assert s * m > side * m by { MulStrict(side, s, m); }
      MulLe(MaxDimension, m, side);
      assert false;
    }
    if side == m {
      assert v == MaxDimension as real;
    }
  }

  lemma MulStrict(a: nat, b: nat, m: nat)
    requires a < b && m > 0
    ensures a * m < b * m
  {
  }

  // ---------------------------------------------------------------------
  // Smoothing

  /** The 1-2-1 / 2-4-2 / 1-2-1 kernel; its weights sum to 16. */
  const Gaussian: seq<seq<int>> := [[1, 2, 1], [2, 4, 2], [1, 2, 1]]

  const KernelDivisor: int := 16

  lemma GaussianSum()
    ensures Is3x3(Gaussian) && KernelSum(Gaussian) == KernelDivisor
  {
  }

  /** Sample `i` of the smoothed copy: interior colour samples are the
      weighted neighbourhood sum of the input divided by 16 and stored into
      a `Uint8ClampedArray`; everything else is the input's sample. */
  function BlurredSample(img: Raster, i: int): Byte
    requires WellFormed(img) && 0 <= i < |img.data|
  {
    var w, h := img.width, img.height;
    assert w > 0;
    var q, c := PixelAt(w, i / 4), i % 4;
    var x, y := q.x, q.y;
    if Interior(w, h, x, y) && c < 3 then
      ClampDiv16(Convolve(Gaussian, img.data, w, h, x, y, c))
    else img.data[i]
  }

  lemma BlurredSampleAt(img: Raster, x: int, y: int, c: int)
    requires WellFormed(img)
    requires 0 <= x < img.width && 0 <= y < img.height && 0 <= c < 4
    ensures 0 <= Idx(img.width, x, y, c) < |img.data|
    ensures BlurredSample(img, Idx(img.width, x, y, c)) ==
      if Interior(img.width, img.height, x, y) && c < 3 then
        ToUint8Clamp(Convolve(Gaussian, img.data, img.width, img.height, x, y, c) as real / 16.0)
      else Sample(img.data, img.width, img.height, x, y, c)
  {
    var w, h := img.width, img.height;
    var i := Idx(w, x, y, c);
    IdxInRange(w, h, x, y, c);
    PixelNumber(w, h, Point(x, y));
    assert PixelAt(w, i / 4) == Point(x, y);
    if Interior(w, h, x, y) && c < 3 {
      var v := Convolve(Gaussian, img.data, w, h, x, y, c);
      ClampDiv16IsToUint8Clamp(v);
      assert BlurredSample(img, i) == ClampDiv16(v);
    } else {
      assert BlurredSample(img, i) == img.data[i];
    }
  }

  /** The whole smoothed buffer, sample by sample. */
  function BlurredData(img: Raster): (data: seq<Byte>)
    requires WellFormed(img)
    ensures |data| == |img.data|
  {
    seq(|img.data|, i requires 0 <= i < |img.data| => BlurredSample(img, i))
  }

  /** Read pixel by pixel, the smoothed buffer copies the border and the
      alpha channel and smooths the colour channels inside. */
  lemma BlurredDataPixels(img: Raster)
    requires WellFormed(img)
    ensures var w, h, data := img.width, img.height, BlurredData(img);
      && (forall x, y, c ::
            0 <= x < w && 0 <= y < h && 0 <= c < 4 && OnBorder(w, h, x, y) ==>
              Sample(data, w, h, x, y, c) == Sample(img.data, w, h, x, y, c))
      && (forall x, y ::
            0 <= x < w && 0 <= y < h ==> Sample(data, w, h, x, y, 3) == Sample(img.data, w, h, x, y, 3))
      && (forall x, y, c ::
            Interior(w, h, x, y) && 0 <= c < 3 ==>
              Sample(data, w, h, x, y, c) == ToUint8Clamp(Convolve(Gaussian, img.data, w, h, x, y, c) as real / 16.0))
  {
    BlurredBorder(img);
    BlurredAlpha(img);
    BlurredInterior(img);
  }

  lemma BlurredBorder(img: Raster)
    requires WellFormed(img)
    ensures var w, h, data := img.width, img.height, BlurredData(img);
      forall x, y, c ::
        0 <= x < w && 0 <= y < h && 0 <= c < 4 && OnBorder(w, h, x, y) ==>
          Sample(data, w, h, x, y, c) == Sample(img.data, w, h, x, y, c)
  {
    var w, h, data := img.width, img.height, BlurredData(img);
    forall x, y, c | 0 <= x < w && 0 <= y < h && 0 <= c < 4 && OnBorder(w, h, x, y)
      ensures Sample(data, w, h, x, y, c) == Sample(img.data, w, h, x, y, c)
    {
      BlurredDataSample(img, x, y, c);
    }
  }

  lemma BlurredAlpha(img: Raster)
    requires WellFormed(img)
    ensures var w, h, data := img.width, img.height, BlurredData(img);
      forall x, y ::
        0 <= x < w && 0 <= y < h ==> Sample(data, w, h, x, y, 3) == Sample(img.data, w, h, x, y, 3)
  {
    var w, h, data := img.width, img.height, BlurredData(img);
    forall x, y | 0 <= x < w && 0 <= y < h
      ensures Sample(data, w, h, x, y, 3) == Sample(img.data, w, h, x, y, 3)
    {
      BlurredDataSample(img, x, y, 3);
    }
  }

  lemma BlurredInterior(img: Raster)
    requires WellFormed(img)
    ensures var w, h, data := img.width, img.height, BlurredData(img);
      forall x, y, c ::
        Interior(w, h, x, y) && 0 <= c < 3 ==>
          Sample(data, w, h, x, y, c) == ToUint8Clamp(Convolve(Gaussian, img.data, w, h, x, y, c) as real / 16.0)
  {
    var w, h, data := img.width, img.height, BlurredData(img);
    forall x, y, c | Interior(w, h, x, y) && 0 <= c < 3
      ensures Sample(data, w, h, x, y, c) == ToUint8Clamp(Convolve(Gaussian, img.data, w, h, x, y, c) as real / 16.0)
    {
      BlurredDataSample(img, x, y, c);
    }
  }

  lemma BlurredDataSample(img: Raster, x: int, y: int, c: int)
    requires WellFormed(img)
    requires 0 <= x < img.width && 0 <= y < img.height && 0 <= c < 4
    ensures Sample(BlurredData(img), img.width, img.height, x, y, c) ==
      if Interior(img.width, img.height, x, y) && c < 3 then
        ToUint8Clamp(Convolve(Gaussian, img.data, img.width, img.height, x, y, c) as real / 16.0)
      else Sample(img.data, img.width, img.height, x, y, c)
  {
    BlurredSampleAt(img, x, y, c);
  }

  /** `preprocessImage`: a new buffer of the same size in which border
      pixels and every alpha sample are copied, and each interior colour
      sample is the smoothed value of the input's neighbourhood. */
  function PreprocessImage(img: Raster): (out: Raster)
    requires WellFormed(img)
    ensures WellFormed(out) && out.width == img.width && out.height == img.height
    ensures forall x, y, c ::
      0 <= x < img.width && 0 <= y < img.height && 0 <= c < 4 && OnBorder(img.width, img.height, x, y) ==>
        Sample(out.data, out.width, out.height, x, y, c) == Sample(img.data, img.width, img.height, x, y, c)
    ensures forall x, y ::
      0 <= x < img.width && 0 <= y < img.height ==>
        Sample(out.data, out.width, out.height, x, y, 3) == Sample(img.data, img.width, img.height, x, y, 3)
    ensures forall x, y, c ::
      Interior(img.width, img.height, x, y) && 0 <= c < 3 ==>
        Sample(out.data, out.width, out.height, x, y, c) ==
          ToUint8Clamp(Convolve(Gaussian, img.data, img.width, img.height, x, y, c) as real / 16.0)
  {
    BlurredDataPixels(img);
    Raster(img.width, img.height, BlurredData(img))
  }

  /** The weights sum to the divisor, so an image whose pixels are all equal
      comes back unchanged. */
  lemma PreprocessUniform(img: Raster)
    requires WellFormed(img) && Uniform(img.data)
    ensures PreprocessImage(img) == img
  {
    var out := PreprocessImage(img);
    forall i | 0 <= i < |img.data|
      ensures out.data[i] == img.data[i]
    {
      PreprocessUniformAt(img, i);
    }
    assert out.data == img.data;
  }

  lemma PreprocessUniformAt(img: Raster, i: int)
    requires WellFormed(img) && Uniform(img.data) && 0 <= i < |img.data|
    ensures BlurredData(img)[i] == img.data[i]
  {
    var w, h := img.width, img.height;
    assert w > 0;
    SampleOfIndex(w, h, i);
    var q, c := PixelAt(w, i / 4), i % 4;
    BlurredSampleAt(img, q.x, q.y, c);
    if Interior(w, h, q.x, q.y) && c < 3 {
      GaussianSum();
      ConvolveUniform(Gaussian, img.data, w, h, q.x, q.y, c);
      assert img.data[i] == img.data[c];
      ToUint8ClampUnique(Convolve(Gaussian, img.data, w, h, q.x, q.y, c) as real / 16.0, img.data[c]);
    }
  }

  // ---------------------------------------------------------------------
  // Buffer handed to edge detection

  const LoadFailedMessage: string := "Failed to load image. Please ensure it's a valid image file"
  const ProcessPrefix: string := "Failed to process image: "

  /** A decoded image as the browser hands it over: its natural size and
      the canvas read-back after drawing it at a requested size. Drawing
      and resampling are the browser's; the model only relies on the
      read-back having the requested size. */
  datatype Decoded = Decoded(naturalWidth: nat, naturalHeight: nat, draw: (nat, nat) -> Raster)

  /** `ctx.getImageData(0, 0, width, height)` after `drawImage` at a size
      with both sides positive returns a well-formed buffer of that size.
      (With a zero side `getImageData` throws instead.) */
  ghost predicate DrawsToSize(img: Decoded) {
    forall w: nat, h: nat :: w > 0 && h > 0 ==>
      WellFormed(img.draw(w, h)) && img.draw(w, h).width == w && img.draw(w, h).height == h
  }

  /** The size the decoded image is drawn at. */
  function CappedSize(img: Decoded): (nat, nat) {
    ScaleDimensions(img.naturalWidth, img.naturalHeight)
  }

  /** `convertToGrayscale` without the browser: `loaded` is the decoded
      image (None when it fails to load). The image is drawn at the capped
      size, smoothed, and given a copy of the smoothed samples as its
      colour buffer. When the capped size has a zero side, `getImageData`
      throws; `readBackError` is the browser's message for that error,
      which the load handler rethrows with the processing prefix. */
  function ConvertToGrayscale(file: Option<FileInfo>, loaded: Option<Decoded>, readBackError: string): (r: Result<ImageData, string>)
    requires loaded.Some? ==> DrawsToSize(loaded.value)
    ensures ValidateImageFile(file).Fail? ==> r == Failure(ProcessPrefix + ValidateImageFile(file).error)
    ensures ValidateImageFile(file).Pass? && loaded.None? ==> r == Failure(LoadFailedMessage)
    ensures ValidateImageFile(file).Pass? && loaded.Some? && (CappedSize(loaded.value).0 == 0 || CappedSize(loaded.value).1 == 0) ==>
      r == Failure(ProcessPrefix + readBackError)
    ensures ValidateImageFile(file).Pass? && loaded.Some? && CappedSize(loaded.value).0 > 0 && CappedSize(loaded.value).1 > 0 ==>
      r.Success?
    ensures r.Success? ==>
      && ValidateImageFile(file).Pass? && loaded.Some?
      && var size := CappedSize(loaded.value);
      && size.0 > 0 && size.1 > 0
      && WellFormedData(r.value)
      && (r.value.image.width, r.value.image.height) == size
      && r.value.image == PreprocessImage(loaded.value.draw(size.0, size.1))
      && r.value.colorData == r.value.image.data
  {
    match ValidateImageFile(file)
    case Fail(m) => Failure(ProcessPrefix + m)
    case Pass =>
      match loaded
      case None => Failure(LoadFailedMessage)
      case Some(img) =>
        var size := CappedSize(img);
        if size.0 == 0 || size.1 == 0 then Failure(ProcessPrefix + readBackError)
        else
          var blurred := PreprocessImage(img.draw(size.0, size.1));
          Success(ImageData(blurred, blurred.data))
  }

  /** A valid file whose read-back is uniform comes through unchanged: the
      result is the read-back itself, carrying its own samples as the colour
      buffer. */
  lemma ConvertUniformImage(file: Option<FileInfo>, img: Decoded, readBackError: string)
    requires DrawsToSize(img) && ValidateImageFile(file).Pass?
    requires CappedSize(img).0 > 0 && CappedSize(img).1 > 0
    requires Uniform(img.draw(CappedSize(img).0, CappedSize(img).1).data)
    ensures var drawn := img.draw(CappedSize(img).0, CappedSize(img).1);
      ConvertToGrayscale(file, Some(img), readBackError) == Success(ImageData(drawn, drawn.data))
  {
    var drawn := img.draw(CappedSize(img).0, CappedSize(img).1);
    PreprocessUniform(drawn);
  }

  /** A 3000 x 1 image is drawn 2000 x 0, so reading it back fails and the
      conversion rejects with the processing prefix. */
  lemma WideStripFails(file: Option<FileInfo>, img: Decoded, readBackError: string)
    requires DrawsToSize(img) && ValidateImageFile(file).Pass?
    requires img.naturalWidth == 3000 && img.naturalHeight == 1
    ensures CappedSize(img) == (2000, 0)
    ensures ConvertToGrayscale(file, Some(img), readBackError) == Failure(ProcessPrefix + readBackError)
  {
    var size := CappedSize(img);
    assert size.1 * 3000 <= 2000;
  }
}
