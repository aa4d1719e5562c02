# FFT-live spectrogram pipeline, in Dafny

FFT-live is a browser page that draws a microphone's spectrum three ways: a
spectrum curve, a mel-scaled scrolling spectrogram and a raw-frequency scrolling
spectrogram. This project models the numeric core of its `script.js`:

- the linear frequency axis of the spectrum plot (`clamp`, `linToY`, the linear
  branches of `mapFreqToX` and `xToFreq`, `freqToBin`, `rebuildBinFreqs`);
- the mel filterbank: bin edges from band-edge frequencies, the triangular
  filters `buildMelFilterBank` fills, and their application to a power spectrum
  in `renderMel`;
- level normalisation: the raw view's top level (largest finite value, `-30`
  when none is finite), the substitution of the floor for non-finite values, the
  mel view's `Math.max(...mels)` and both intensity formulas;
- `infernoColor`, the nine-entry palette interpolation;
- the scrolling raster both spectrogram views share: shift left by one column,
  then write a generated, fully opaque rightmost column, row 0 showing the
  highest band or bin.

JavaScript numbers are Dafny `real`s. `Math.round(x)` is `floor(x + 0.5)`. A frame
value is `Sample = Finite(db) | NonFinite`. The transcendental steps enter as
inputs. The band edges are a sequence of frequencies (`melPointsHz`). The
decibel-to-magnitude map `Math.pow(10, db / 20)` is the parameter `magnitude`.
The final `10 * Math.log10` is the parameter `toDb`. The canvas is a
`ScrollingRaster.Raster` owning an `array2` of RGBA pixels, at a device pixel
ratio of 1.

Where a formula needs something of its caller, the model says so in `requires`:

- `LinToY` needs `minDb < maxDb`. The Web Audio analyser refuses any other decibel bounds.
- `FreqToX` needs `maxF > 0`. `XToFreq` needs `width > 0`. `FreqToBin` needs a positive sample rate.
- A raster needs width at least 2 and height at least 1. With width 1 or height 0
  the scroll's `getImageData(1, 0, w - 1, h)` is asked for an empty region and
  throws. With width 0 it does not throw, but the new column is written off the
  canvas and nothing is visible.
- `RenderMel` needs at least one band. With none, `mels[-1]` is `undefined` and
  `infernoColor` throws.
- `RenderRawSpectrogram` needs at least one bin, `RebuildBinFreqs` and
  `BinFrequency` a positive `fftSize`, `BinPoints` and `BuildMelFilterBank` a
  positive sample rate. A live Web Audio analyser guarantees all of them: its
  `fftSize` is at least 32, so it has at least 16 bins, and its context's sample
  rate is positive. With 0 bins the source would not throw: it reads an index
  outside the empty array, gets `undefined`, substitutes the floor and draws a
  dark column. The model does
  not cover that case.

## Model

| member | source | states |
|---|---|---|
| `JsMath.Clamp` | script.js:74 | the result lies in [lo, hi] when lo ≤ hi, equals v inside the bounds and the nearer bound outside; with lo > hi it is lo |
| `JsMath.Round` | script.js:98-100 | `Math.round` gives the integer within one half of x, a half rounding up |
| `FrequencyAxis.LinToY` | script.js:77-80 | `minDb` maps to the bottom edge (height), `maxDb` to the top edge (0), and every level in between to a pixel in [0, height] |
| `FrequencyAxis.LinToYAntitone` | script.js:77-80 | a higher level is never drawn lower on the plot |
| `FrequencyAxis.CurvePoint` | script.js:295-300 | every point of the spectrum curve lies inside the plot: x in [0, width], y in [0, height], because the level is clamped to the analyser's window first |
| `FrequencyAxis.FreqToX` | script.js:82-84 | linear `mapFreqToX` is in [0, width], and for a frequency in [0, maxF] it is `freq / maxF * width` |
| `FrequencyAxis.XToFreq` | script.js:92-94 | linear `xToFreq` is in [0, maxF], and for a pixel on the plot it is `x / width * maxF` |
| `FrequencyAxis.XToFreqOfFreqToX` | script.js:82-96 | for a frequency in [0, maxF], reading back the frequency at the pixel it was drawn at gives that frequency exactly |
| `FrequencyAxis.FreqToXOfXToFreq` | script.js:82-96 | placing the frequency read at pixel x gives x clamped to [0, width] |
| `FrequencyAxis.FreqToBin` | script.js:98-100 | the bin returned is within one half of `freq * fftSize / sampleRate` |
| `FrequencyAxis.RebuildBinFreqs` | script.js:222-228 | the table has `fftSize / 2` entries, entry i holding `i * sampleRate / fftSize` |
| `FrequencyAxis.BinFrequency` | script.js:227 | the centre frequency of a bin of non-negative index is non-negative, and bin 0 sits at 0 Hz |
| `FrequencyAxis.BinFrequencyBelowNyquist` | script.js:227 | every entry of the table lies in [0, sampleRate / 2) |
| `FrequencyAxis.FreqToBinOfBinFrequency` | script.js:98-100 | `freqToBin` of the frequency the table (line 227) holds for bin i is i |
| `MelFilterBank.BinPoints` | script.js:243 | one bin edge per band edge, `floor((fftSize + 1) * f / sampleRate)` |
| `MelFilterBank.BinPointsNonDecreasing` | script.js:243 | band edges in increasing frequency give non-decreasing bin edges |
| `MelFilterBank.Rising` | script.js:254 | the rising slope is in [0, 1) |
| `MelFilterBank.Falling` | script.js:259 | the falling slope is in (0, 1] |
| `MelFilterBank.Weight` | script.js:252-261 | every weight is in [0, 1]; with ordered edges it is 0 outside `[left, right)` and outside the bank `[0, nFftBins)` |
| `MelFilterBank.Filter` | script.js:247-261 | one filter has `nFftBins` weights, each the weight of its bin |
| `MelFilterBank.FilterCorners` | script.js:252-261 | the weight at `left` is 0 when `left < center`, the weight at `center` is exactly 1 when `center < right` and it is in the bank, and the filter is all zero when `left == center == right` |
| `MelFilterBank.FilterSupport` | script.js:252-261 | with ordered edges a bin in the bank has positive weight if and only if it lies strictly between `left` and `right`, or it is `left == center` with `center < right` |
| `MelFilterBank.Bank` | script.js:245-264 | the bank has one filter per inner band edge, filter m spanning edges m, m + 1, m + 2 |
| `MelFilterBank.FiltersApartAreDisjoint` | script.js:246-261 | with ordered edges, filters two or more places apart never both weight the same bin |
| `MelFilterBank.BuildFilter` | script.js:247-261 | the two loops over a zero-filled array leave exactly the filter's weight vector |
| `MelFilterBank.BuildMelFilterBank` | script.js:234-265 | exactly `nMels` filters, each of `floor(fftSize / 2)` weights, each equal to the bank's filter for the bin edges of `melPointsHz` |
| `MelFilterBank.DotBounds` | script.js:329-332 | with weights in [0, 1] and non-negative powers, a band's sum lies between 0 and the total power |
| `MelFilterBank.DotOfSilence` | script.js:329-332 | an all-zero power spectrum gives every band a zero sum |
| `MelFilterBank.BandLevel` | script.js:333 | a band's level is `toDb` of its power sum when that sum is at least `eps`, and `toDb(eps)` otherwise |
| `MelFilterBank.BandLevelArgument` | script.js:329-333 | a silent spectrum gives every band `10*log10(eps)`, `eps = 1e-10`, whatever its filter |
| `MelFilterBank.ApplyMelFilters` | script.js:326-334 | one level per filter, in filter order, each `10*log10(max(Σ fbank[k] * power[k], eps))`; the accumulator loop is proved equal to the band sum `Dot` |
| `LevelNormalizer.MaxFinite` | script.js:109-113 | the running maximum stays at -Infinity exactly when no value is finite; otherwise it is one of the frame's values and no finite value exceeds it |
| `LevelNormalizer.TopLevel` | script.js:108-114 | topDb is at least every finite value, is one of them when there is one, and is -30 when none is finite |
| `LevelNormalizer.TopDb` | script.js:108-114 | the loop computes the top level of the frame |
| `LevelNormalizer.Substitute` | script.js:147-148 | a finite value is read as itself, a non-finite one as the floor `minDb` |
| `LevelNormalizer.RawIntensity` | script.js:146-149 | a non-finite value is read as the floor `topDb - range` and gives 0; a finite value at or above the floor gives at least 0, one at or below it at most 0, and the floor itself exactly 0; one at or below topDb gives at most 1 when the range is positive; topDb itself gives exactly 1 when the range is at least 1e-6 |
| `LevelNormalizer.RawIntensityMonotone` | script.js:149 | a louder finite value never gives a lower raw intensity |
| `LevelNormalizer.MelIntensity` | script.js:355 | the mel intensity is in [0, 1], 0 at or below `minDb`, and 1 at or above `minDb + range` when range ≥ 1 |
| `LevelNormalizer.MelIntensityMonotone` | script.js:355 | a louder band never gives a lower mel intensity |
| `LevelNormalizer.MaxOf` | script.js:337 | the mel view's top is one of the levels and no level exceeds it |
| `ColorMap.PaletteInByteRange` | script.js:370-375 | every palette channel is in [0, 255] |
| `ColorMap.Lerp` | script.js:382-384 | a rounded channel lies between the two palette channels it blends, and equals the first at offset 0 |
| `ColorMap.LerpToward` | script.js:382-384 | a larger offset moves the rounded channel (weakly) from the first palette channel towards the second |
| `ColorMap.Segment` | script.js:376-377 | the segment index is non-negative, and below 8 for an intensity below 1 |
| `ColorMap.InfernoColor` | script.js:368-386 | v ≤ 0 gives `[0, 0, 4]`, v ≥ 1 gives `[252, 255, 164]`, and every channel is in [0, 255] |
| `ColorMap.InfernoColorBracketed` | script.js:376-384 | for v in [0, 1) the segment i satisfies i/8 ≤ v < (i+1)/8 and each channel lies between the channels of palette entries i and i + 1 |
| `ColorMap.InfernoColorAtControlPoint` | script.js:368-386 | intensity i/8 gives exactly palette entry i |
| `ColorMap.InfernoColorInSegment` | script.js:376-384 | below 1 the colour is the blend of the segment's two entries at offset `8v - i` |
| `ColorMap.InfernoColorMonotoneInSegment` | script.js:376-384 | within one segment a brighter intensity moves every channel towards the segment's second palette entry |
| `ScrollingRaster.GeneratedColumn` | script.js:353-365 | the generated column has one pixel per row, the generator's colour with alpha 255 |
| `ScrollingRaster.Scroll` | script.js:123-124 | one scroll keeps the width; column c takes the old column c + 1 and the last column is the new one |
| `ScrollingRaster.ScrollAllIsWindow` | script.js:344-366 | after any run of appended columns the raster holds the last `width` columns of everything it has held, in order; after `width` appends nothing of the old image is left |
| `ScrollingRaster.Raster.constructor` | script.js:55-71 | a freshly sized canvas has the given size and is all transparent black |
| `ScrollingRaster.Raster.AppendColumn` | script.js:344-366 | columns 0..W-2 hold the previous columns 1..W-1, column W-1 holds the generated RGB with alpha 255 in every row, and the column view is one `Scroll` of the old one |
| `RenderPipeline.MelRowIndex` | script.js:354 | for every row in [0, H) the band index is in [0, len - 1], and row 0 shows the last (highest) band |
| `RenderPipeline.RawRowBin` | script.js:137-139 | for every row in [0, H) the linear bin index is in [0, nbin - 1], and row 0 shows the highest bin |
| `RenderPipeline.MelColumnColor` | script.js:354-358 | the row's colour is a palette colour in byte range; a band at or below the floor `maxDb - range` is drawn in the darkest entry, and a band at `maxDb` in the brightest when the range is at least 1 |
| `RenderPipeline.RawColumnColor` | script.js:137-151 | the row's colour is in byte range; a non-finite bin or a finite bin at or below the floor `topDb - range` is drawn in the darkest entry, and a bin at topDb in the brightest when the range is at least 1e-6 |
| `RenderPipeline.RowIndicesDescend` | script.js:137-139 | a lower row never shows a higher bin, nor a higher band (line 354) |
| `RenderPipeline.UniformMelFrameIsBrightest` | script.js:337-358 | when all bands share one level (silence included) and the range is at least 1, every row of the mel column is the brightest palette entry |
| `RenderPipeline.UniformRawFrameIsBrightest` | script.js:108-151 | when all bins share one finite level, every row of the raw column is the brightest palette entry, provided the range is at least 1e-6 |
| `RenderPipeline.UniformFrameWithoutRangeIsDarkest` | script.js:137-151 | with a dynamic range of 0, a uniform frame is drawn in the darkest palette entry in both views (mel: script.js:354-358) |
| `RenderPipeline.Power` | script.js:319-323 | one power per bin, the square of its magnitude, never negative |
| `RenderPipeline.PowerSpectrum` | script.js:319-323 | the loop fills the power spectrum of the frame |
| `RenderPipeline.RenderMel` | script.js:312-367 | the mel raster scrolls by one column and its new column shows, row by row, the colour of the row's band level normalised against the loudest band |
| `RenderPipeline.RenderRawSpectrogram` | script.js:102-160 | the raw raster scrolls by one column and its new column shows, row by row, the colour of the row's bin normalised against the frame's top level |

## Behaviour of the code worth knowing

- A frame whose bands all sit at one level, silence included, gets intensity 1
  in the mel view when the dynamic range is at least 1, because the view
  normalises against the frame's own loudest band. It is drawn in the brightest
  palette entry. The raw view does the same for a frame whose bins share one
  finite level, when the range is at least 1e-6. `UniformMelFrameIsBrightest`
  and `UniformRawFrameIsBrightest` state this. A range of 0 draws such a frame in
  the darkest entry instead, as `UniformFrameWithoutRangeIsDarkest` states.
- The mel view divides by `max(range, 1)` and clamps the result to [0, 1]
  (script.js:355). The raw view divides by `max(maxDb - minDb, 1e-6)` and
  leaves the clamping to `infernoColor` (script.js:149, 369).
- The code does not check the frequency range. The model states the positive
  maximum frequency and plot width as `requires`.
- `stop` clears the spectrum and mel canvases but not the raw one
  (script.js:502-503).

## Left out

- The logarithmic scale is left out: `hzToMel`/`melToHz`, the mel-point generation, the log branches of `mapFreqToX`, `xToFreq` and the raw row map, `Math.pow` and `Math.log10`. These are transcendental floating-point code. Band edges, `magnitude` and `toDb` are inputs instead.
- Float32 storage and rounding of weights, powers and levels are left out, as is NaN propagation through `Math.max(...mels)`. Numbers are exact reals.
- Device pixel ratios above 1 are left out. The code then shifts by `dpr` device pixels but writes a column one pixel wide (script.js:123, 127-129).
- `setCanvasSize`, `drawGrid`, `updateStats`, the tooltip handlers and the canvas image API calls are left out. They are DOM and canvas plumbing; the raster is an owned array instead.
- The spectrum curve path (`moveTo`/`lineTo`/fill) is left out. It is drawing; `CurvePoint` models each point.
- Device enumeration, `getUserMedia`, the `AudioContext`/analyser (the FFT itself), `start`/`stop`, the animation-frame loop and the event wiring are left out. They are I/O and scheduling.
- `BuildFilter`, `BuildMelFilterBank`, `RebuildBinFreqs`, `ApplyMelFilters` and `PowerSpectrum` do not state that the arrays they return are newly allocated. No caller in the model relies on it.
- CurvePoint: takes a finite level only. A silent bin reads -Infinity, which `clamp` (script.js:299) turns into `minDb`, putting the point on the bottom edge. A NaN bin gives a NaN y, which lies outside the plot. Neither case is modelled, because `Sample` does not tell -Infinity from NaN.
