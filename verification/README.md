# imgtosvg raster-to-vector core in Dafny

A model of the pipeline in `src/utils/` of imgtosvg, which turns a raster
image into an SVG outline. It covers these stages, each written as pure
functions on immutable buffers:

- **Input validation** (`validateImageFile`): a file must be present, have an `image/` MIME type, and be at most 10 MB.
- **Dimension cap** (`convertToGrayscale`): the decoded image is drawn at most 2000 pixels on a side.
- **Smoothing** (`preprocessImage`): a 3x3 1-2-1 / 2-4-2 / 1-2-1 filter with divisor 16, written into a copy of the buffer through `Uint8ClampedArray` conversion.
- **Edge detection** (`detectEdges`): integer Sobel gradients of channel 0 and of each colour channel, combined into one edge strength per pixel.
- **Edge scan** (`generateSvgPath`): a raster scan that starts a greedy 8-neighbour walk (`traceEdge`) at every strong pixel not yet visited. All walks share one visited set, and each walk is capped in length.
- **Colour** (`getDominantColor`): each kept walk is coloured with the most frequent `#rrggbb` key under its points.
- **Serialisation** (`createSvgFromImageData`): the `M x y L x y …` path data and the `<svg viewBox>` document. A scan with no paths fails with a distinguishable error.

Pixel buffers are `seq<Byte>` with the source's row-major RGBA layout
(`Raster.Idx`, equal to `(y * width + x) * 4 + c`). Numbers stored into a
`Uint8ClampedArray` go through `Uint8Clamp.ToUint8Clamp`, which is
ToUint8Clamp of section 7.1.12 of ECMA-262 on exact reals.

Several stages have two definitions:

- **Walk.** `Tracer.Walk` is a reference definition of the walk as a recursive function. The method `Tracer.TraceEdge` builds the path text as the source does and is proved to agree with it.
- **Scan.** `Scan.ScanUpTo` and `Scan.Paths` are reference definitions of the scan. The method `Scan.GenerateSvgPath` runs the two nested loops over a visited set and returns exactly `Paths`.
- **Text formats.** Each text the pipeline writes comes with a reader: path data (`PathSyntax.ParsePath`), colour keys (`DominantColor.ParseColorHex`) and the whole document (`Svg.ParseDocument`). Round-trip lemmas show that the text carries exactly the data it was written from.

Modules, one per file:

| file | module | source |
|---|---|---|
| wrappers.dfy | `Wrappers` | `Option`, `Result`, `Outcome` |
| raster.dfy | `Raster` | buffer layout and 3x3 kernel sums |
| uint8clamp.dfy | `Uint8Clamp` | `Uint8ClampedArray` stores |
| imageprocessing.dfy | `ImageProcessing` | `validateImageFile`, the cap, `preprocessImage`, `convertToGrayscale` |
| edges.dfy | `EdgeDetection` | `detectEdges` |
| tracer.dfy | `Tracer` | `traceEdge` |
| digits.dfy | `Digits` | `${n}` and `toString(16)` |
| pathdata.dfy | `PathSyntax` | path data built in `traceEdge` |
| dominantcolor.dfy | `DominantColor` | `getDominantColor` |
| scan.dfy | `Scan` | `generateSvgPath` |
| svg.dfy | `Svg` | `createSvgFromImageData` |

## Model

| member | source | states |
|---|---|---|
| Raster.IdxClosedForm | src/utils/svgGeneration.js:57 | the row-by-row sample position equals the source's index `(y * width + x) * 4 + c` |
| Raster.IdxInRange | src/utils/svgGeneration.js:36 | each in-bounds pixel and channel lies inside a `width * height * 4` buffer and is recovered from its index by `/ 4` and `% 4` |
| Raster.ConvolveUniform | src/utils/imageProcessing.js:46-54 | over a neighbourhood of equal samples `v`, a 3x3 weighted sum is the kernel's weight total times `v` |
| Raster.ConvolveScale | src/utils/svgGeneration.js:34-39 | a 3x3 weighted sum is linear: scaling every sample by `k` scales the sum by `k` |
| Uint8Clamp.ToUint8Clamp | src/utils/imageProcessing.js:57-59 | a store clamps to 0..255, lands within half a unit of the value, and resolves exact halves to the even byte |
| Uint8Clamp.ToUint8ClampUnique | src/utils/imageProcessing.js:57-59 | those conditions pick a single byte, so any byte that meets them is the stored value |
| Uint8Clamp.ClampDiv16IsToUint8Clamp | src/utils/imageProcessing.js:57-59 | the integer quotient-and-remainder computation equals the store of `sum / 16` for every integer sum |
| ImageProcessing.ValidateImageFile | src/utils/imageProcessing.js:6-19 | a file passes iff it is present, its type starts with `image/` and its size is at most 10485760; each failure carries its own message, and the checks run in the source's order |
| ImageProcessing.SizeLimitBoundary | src/utils/imageProcessing.js:15-18 | a file of exactly 10485760 bytes is accepted and one of 10485761 bytes is rejected with the size message |
| ImageProcessing.ScaleRatio | src/utils/imageProcessing.js:94 | the smaller of the two ratios is `2000 / max(width, height)` |
| ImageProcessing.RatioOrder | src/utils/imageProcessing.js:94 | the longer side has the smaller ratio |
| ImageProcessing.ScaleDimensions | src/utils/imageProcessing.js:89-97 | both sides ≤ 2000 are unchanged; otherwise both results are ≤ 2000 and no larger than before, the longer side becomes exactly 2000, and each side is `floor(side * 2000 / max)` |
| ImageProcessing.ScaledSideFacts | src/utils/imageProcessing.js:95-96 | a truncated side `s` satisfies `s * m ≤ side * 2000 < (s + 1) * m`; it is at most 2000 and at most the side |
| ImageProcessing.GaussianSum | src/utils/imageProcessing.js:32-37 | the smoothing kernel's weights sum to the divisor 16 |
| ImageProcessing.BlurredSampleAt | src/utils/imageProcessing.js:39-60 | in the copy, an interior colour sample is the store of the input neighbourhood's weighted sum / 16; every other sample is the input's own |
| ImageProcessing.PreprocessImage | src/utils/imageProcessing.js:26-65 | same width and height; border pixels keep all four channels; alpha is kept everywhere; each interior colour sample is ToUint8Clamp(Σ weight · input / 16) over the input, not over already-smoothed samples |
| ImageProcessing.PreprocessUniform | src/utils/imageProcessing.js:32-59 | an image whose pixels are all equal comes back unchanged |
| ImageProcessing.ConvertToGrayscale | src/utils/imageProcessing.js:75-163 | a validation failure is rethrown with the prefix `Failed to process image: `; a load failure gives the load message; a capped size with a zero side makes the read-back throw, rethrown with the same prefix; every valid, loaded image with a positive capped size (on exact reals) succeeds, and then the image has the capped size, holds the smoothed read-back at that size, and `colorData` is a copy of its samples |
| ImageProcessing.ConvertUniformImage | src/utils/imageProcessing.js:104-143 | a valid file whose read-back is uniform yields the read-back itself, with its own samples as the colour buffer |
| ImageProcessing.WideStripFails | src/utils/imageProcessing.js:93-104 | a 3000 x 1 image is capped to 2000 x 0, so the conversion rejects with the processing prefix and the read-back error |
| EdgeDetection.SobelSums | src/utils/svgGeneration.js:14-24 | both Sobel kernels are 3x3 and their weights sum to 0 |
| EdgeDetection.DetectEdges | src/utils/svgGeneration.js:6-68 | same size and the same `colorData`; every border pixel is 0 on all four channels, alpha included; every interior pixel has R = G = B = the stored strength, and alpha 255 |
| EdgeDetection.UniformGradients | src/utils/svgGeneration.js:26-47 | over a uniform image `gx`, `gy` and the six colour gradients are all 0 |
| EdgeDetection.UniformImageHasNoEdges | src/utils/svgGeneration.js:26-61 | a uniform image has edge strength 0 at every pixel |
| EdgeDetection.GradientsScale | src/utils/svgGeneration.js:34-39 | scaling the intensity samples by `k` scales `gx` and `gy` by `k` |
| Tracer.NeighbourAdjacent | src/utils/svgGeneration.js:140-143 | each of the eight directions leads to an 8-adjacent pixel |
| Tracer.FirstFromSpec | src/utils/svgGeneration.js:149-166 | the direction loop picks the least direction from `k` on that is in bounds, unvisited and above the cut-off, and finds none exactly when no such direction exists |
| Tracer.NextStepIsFirstQualifying | src/utils/svgGeneration.js:140-166 | the walk has no successor iff no direction qualifies; otherwise the successor is the first qualifying direction in the fixed order |
| Tracer.WalkInvariant | src/utils/svgGeneration.js:145-169 | from any greedy prefix the walk extends the prefix, stays greedy, is at most 1001 points long, marks exactly the points it has looked out from, and stops below the cap only when no direction qualifies |
| Tracer.WalkFromStart | src/utils/svgGeneration.js:134-169 | the same facts for a walk started at one pixel |
| Tracer.GreedySteps | src/utils/svgGeneration.js:149-164 | each step moves to an adjacent pixel above the cut-off that was not visited before, so the points are pairwise distinct |
| Tracer.TraceProperties | src/utils/svgGeneration.js:134-171 | a trace has between 1 and 1001 points, starts at its start pixel, moves between adjacent strong pixels, and never repeats a point; a point ends up visited iff it is one of the first 1000 points or was visited already |
| Tracer.TraceStops | src/utils/svgGeneration.js:145-169 | every step is the next-step choice for the visited set at that moment; the walk ends at the 1001-point cap or where no direction qualifies |
| Tracer.TraceEdge | src/utils/svgGeneration.js:134-172 | the visited set comes back marked as the walk marks it; the result is non-null iff the walk has at least 3 points; the path text is `M x0 y0` followed by ` L xi yi` for each later point, and it reads back as the points |
| PathSyntax.PathDataSnoc | src/utils/svgGeneration.js:158 | appending a point appends its ` L x y` |
| PathSyntax.PathDataLength | src/utils/svgGeneration.js:135-158 | the path text of `n` points has at least `6n − 1` characters |
| PathSyntax.PathDataChars | src/utils/svgGeneration.js:135-158 | the path text uses only `M`, `L`, space, `-` and digits |
| PathSyntax.CoordsRoundTrip | src/utils/svgGeneration.js:135 | the coordinate pair `x y` reads back as the point and leaves the following text untouched |
| PathSyntax.LineTosRoundTrip | src/utils/svgGeneration.js:158 | a run of linetos reads back as its points in order |
| PathSyntax.PathDataRoundTrip | src/utils/svgGeneration.js:135-159 | parsing the path text of a trace recovers its point list exactly |
| Digits.ToRadix | src/utils/svgGeneration.js:85 | `toString(radix)` gives at least one digit, all valid in the radix, a single digit iff the number is below the radix, and no leading zero |
| Digits.ValueOfToRadix | src/utils/svgGeneration.js:85 | the digits read back as the number |
| Digits.NatRoundTrip | src/utils/svgGeneration.js:135 | the decimal text of a natural number reads back as the number |
| Digits.IntToStringRoundTrip | src/utils/svgGeneration.js:135 | the decimal text of an integer reads back as the integer, leaving the text after it untouched |
| DominantColor.PadStart | src/utils/svgGeneration.js:85 | `padStart` reaches the target length, keeps the string as its suffix and fills the front with the fill character |
| DominantColor.ByteHexForm | src/utils/svgGeneration.js:85 | a byte is written as its high nibble and then its low nibble |
| DominantColor.ByteHexDigits | src/utils/svgGeneration.js:85 | a byte is written as exactly two lowercase hex digits that read back as the byte |
| DominantColor.ColorHexRoundTrip | src/utils/svgGeneration.js:85 | a key is `#` plus six hex digits and reads back as its three bytes |
| DominantColor.ColorHexInjective | src/utils/svgGeneration.js:85-86 | distinct colours get distinct keys, so the tally counts colours |
| DominantColor.TallyCorrect | src/utils/svgGeneration.js:78-87 | the tally object has one entry per distinct key, with its number of occurrences, in order of first occurrence |
| DominantColor.FirstMax | src/utils/svgGeneration.js:89 | the first entry after a stable descending sort is one whose count no entry exceeds, and every entry before it has a strictly smaller count |
| DominantColor.DominantColorIsMostFrequent | src/utils/svgGeneration.js:77-90 | the dominant colour is a key met along the points, no key is met more often, and ties go to the key met first |
| DominantColor.DominantIsOnPath | src/utils/svgGeneration.js:80-89 | the dominant colour is the colour under some point of the trace |
| Scan.ScanValid | src/utils/svgGeneration.js:107-118 | every walk of the scan starts at a pixel inside the image and stays on pixels above the cut-off |
| Scan.ScanCovered | src/utils/svgGeneration.js:104-118 | the shared visited set is exactly the union of the points the walks marked |
| Scan.ScanStartsAt | src/utils/svgGeneration.js:107-111 | each walk begins at its own start pixel, one the scan has already reached |
| Scan.ScanStartsIncreasing | src/utils/svgGeneration.js:107-111 | walks are started in increasing row-major pixel order |
| Scan.ScanVisitedStrong | src/utils/svgGeneration.js:110-111 | only pixels above the cut-off are ever marked visited |
| Scan.ScanCoverage | src/utils/svgGeneration.js:107-111 | every strong pixel the scan has passed is visited |
| Scan.ScanMarksStrongPixels | src/utils/svgGeneration.js:104-118 | after the scan, a pixel is visited iff it is above the cut-off |
| Scan.ScanDisjoint | src/utils/svgGeneration.js:104-118 | a later walk never passes a pixel that an earlier walk marked |
| Scan.ScanStartsIffStrong | src/utils/svgGeneration.js:107-118 | the scan starts a walk iff the image has a pixel above the cut-off |
| Scan.EntryOfParses | src/utils/svgGeneration.js:112-114 | a kept entry's path text reads back as the walk's points |
| Scan.LengthFilterRedundant | src/utils/svgGeneration.js:112 | the `path.length > 10` test keeps every non-null trace, because three points already make at least 17 characters |
| Scan.NoStrongPixelsNoPaths | src/utils/svgGeneration.js:98-121 | an image with no pixel above the cut-off yields no paths |
| Scan.StartWalk | src/utils/svgGeneration.js:110-116 | starting a walk at a qualifying pixel marks what the walk marks and appends an entry exactly when the trace is non-null |
| Scan.VisitPixel | src/utils/svgGeneration.js:108-116 | after examining pixel `n`, the visited set and the kept entries are those of the reference scan through pixel `n` |
| Scan.ScanRow | src/utils/svgGeneration.js:108-117 | after a row, the visited set and the kept entries are those of the reference scan through the row's last pixel |
| Scan.GenerateSvgPath | src/utils/svgGeneration.js:98-121 | the loops return exactly the entries of the reference scan, in start-pixel order; the result depends only on the edge image and the cut-off, so two runs from a fresh visited set agree |
| Svg.CreateSvgFromImageData | src/utils/svgGeneration.js:180-206 | it fails iff the scan at `threshold * 0.3` finds no path, and then with `Failed to generate SVG: No significant edges found…`; otherwise the document reads back as the image size and exactly the scan's entries, in order |
| Svg.ParseElementRoundTrip | src/utils/svgGeneration.js:196 | a `<path d=… fill="none" stroke=… stroke-width="1" />` element reads back as its path and colour |
| Svg.ElementsRoundTrip | src/utils/svgGeneration.js:195-197 | the elements joined by a newline and six spaces, then the closing tag, read back as the entries in order |
| Svg.SizeRoundTrip | src/utils/svgGeneration.js:199 | the `viewBox` numbers read back as width and height |
| Svg.DocumentRoundTrip | src/utils/svgGeneration.js:195-201 | the whole document reads back as its size and its entries |
| Svg.PathsQuoteFree | src/utils/svgGeneration.js:112-114 | no path text or colour the scan produces contains a double quote, so the attributes cannot break out of their quotes |
| Svg.ColorOptionIgnored | src/utils/svgGeneration.js:182 | `options.color` has no effect on the result |
| Svg.CutOffValues | src/utils/svgGeneration.js:182-188 | without a threshold the cut-off is 128 · 0.3 = 38.4; with threshold `T` it is `3T/10` |
| Svg.UniformImageFails | src/utils/svgGeneration.js:180-192 | a uniform image at a non-negative threshold fails with the no-edges message |

## Left out

- Browser I/O is not modelled: the canvas, `Image` loading, object URLs, the Promise plumbing and `URL.revokeObjectURL` (src/utils/imageProcessing.js:79-159). `ConvertToGrayscale` takes the decoded image as a parameter, `None` when loading fails: its natural size and a function giving the canvas read-back at a requested size with both sides positive. Resampling by `drawImage` is the browser's and is not modelled. The message of the error `getImageData` throws for a zero side is the browser's, so it is the parameter `readBackError`.
- The mono-colour branch (src/utils/imageProcessing.js:114-128) is left out. It is floating-point luminance, and the only caller, src/utils/imageToSvg.js:15, passes no options, so the branch is never reached.
- EdgeDetection.DetectEdges: `Math.sqrt`, `/ 3`, `/ 2` and `Math.min(255, …)` (src/utils/svgGeneration.js:50-58) are a floating-point formula. They are the parameter `mag` (integer gradients to a real), and the model stores ToUint8Clamp of its value. Properties that need the formula's value assume only `mag(0 gradients) == 0`.
- Svg.CutOff: `threshold * 0.3` is taken as the exact real `3T/10`. Edge strengths are integers, so only the side of each integer the cut-off falls on matters. For an integer `T` in the slider's range 0..255 that side is the same for the double product as for `3T/10`. Either `3T/10` is an integer, and the double product rounds to it exactly, or it is at least 0.1 from every integer, far beyond the rounding error. This argument is made on paper; the model does not prove it.
- ImageProcessing.ScaleDimensions: `Math.min(2000 / w, 2000 / h)` and `Math.floor(w * ratio)` are taken on exact reals, and on some inputs the source's double arithmetic gives a different size. In doubles `2105 * (2000 / 2105)` is 1999.9999999999998, so a 2105-pixel side is drawn 1999 wide, not 2000; and `531 * (2000 / 2124)` is 499.99999999999994, so that side becomes 499 where the exact value is 500. The model promises the exact-arithmetic size.
- ImageProcessing.ConvertToGrayscale: success and failure are decided on the exact-real capped size, so where the source's doubles floor a side to 0 and the exact value is positive the model succeeds while the source rejects with `Failed to process image: `. For a natural size of 98000 x 49, `49 * (2000 / 98000)` is 0.9999999999999999 in doubles, so the source requests a 1999 x 0 read-back, which throws; the model's capped size is 2000 x 1 and the conversion succeeds. 196000 x 98, 206000 x 103 and 214000 x 107 behave the same way. The model promises the outcome of the exact-arithmetic size.
- Uint8Clamp.ToUint8Clamp: NaN is not a real number and is not modelled. No stored value can be NaN here.
- Svg.CreateSvgFromImageData: an `options` value that is not an object (so destructuring throws), or a non-numeric `threshold`, is not modelled. Options carry an optional integer threshold and an optional colour.
- `console.error` (src/utils/svgGeneration.js:203) is logging only.
- The React UI, the hook, src/utils/fileUtils.js, src/utils/imageToSvg.js and the potrace/sharp wrapper in utils/imageToSvg.js are not part of this model.

## Notes on the code

Facts about the code that the model follows:

- The noise filter `result.path.length > 10` measures the length of the path text. `Scan.LengthFilterRedundant` shows it never rejects a non-null trace, so the only length condition on a kept trace is the tracer's minimum of 3 points.
- The cap test `points.length > 1000` runs after a push, so a trace can hold 1001 points.
- `visited.add` runs only at the top of the loop, so a capped trace's 1001st point is never marked visited. A later walk may start there. `Scan.ScanDisjoint` therefore states that a later walk avoids the points an earlier walk marked.
- `convertToGrayscale` scales an image larger than 2000 pixels on a side down before smoothing; a side that scales to 0 makes the read-back throw.
- Border pixels of the edge image are never written, so all four of their channels, alpha included, stay 0.
- The intensity that `detectEdges` reads is channel 0, the red channel, of the smoothed buffer. No weighted luminance is computed.
- `colorData` is copied from the smoothed buffer after `preprocessImage`, so edge colours come from smoothed samples.
