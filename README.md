# size-writer, modelled in Dafny

size-writer computes the `sizes` attribute of a responsive `<img>`. It opens a page in a
headless browser and measures the rendered width of the image named by a CSS selector at
48 viewport widths, from 300 to 2650 in steps of 50. It snaps each width to the smallest
allowed image size that is at least as large. It then writes one `(max-width: Vpx) Spx`
condition for each viewport where the snapped size changes, with the exceptions listed
below. The last sample's size follows as the default.

This project models `src/index.js`:

- `JsValues` holds the values the program passes around. An `imgSize` is a number or
  `undefined` (`Size`), a sample is `{ viewport, imgSize }` (`Entry`), and there are two
  failures.
- `Decimal` renders whole numbers the way a template literal prints them below 1e21, with a round trip.
- `ClosestMatch` models `findClosestMatch`. `FindClosestMatch` is the filter and the scan
  loop. It is proved equal to a reference definition, "the least allowed size at least
  the width", whose properties are proved.
- `Sampling` holds the viewport sweep and the sampling loop of `generateSizesAttribute`.
  The browser is a parameter `measure`: for each viewport it reports a rendered width or
  a missing selector.
- `SizesAttribute` models `writeSizesAttribute`: the loop with its `push`es, the final
  `shift`, and the formatting. The optional lookups `sizes[i - 1]?.imgSize` (lines 78 and
  84) and `generatedSizes[0]?.imgSize`, `generatedSizes[1]?.imgSize` (line 90), the `===`
  tests of lines 78 and 90 and the truthiness test of line 84 are modelled as written,
  so a `0` or `undefined` size behaves as it does in the program.
- `SizesAttributeProperties` says what the bounded entries are, for samples whose sizes
  are all truthy. With two or more samples, the entries are:
  - the first sample's entry, when the size never changes at indices 1 .. n-2;
  - otherwise one entry `{ v_k, s_(k-1) }` for each change point k, in order.

  They are strictly increasing in viewport and no two adjacent ones share a size.
  Read back as a browser reads `sizes`, the attribute gives every sampled viewport its
  sampled size, except at a change point, provided the size does not change at the last
  sample. At a change point the previous size still applies, because `max-width`
  includes its bound.
- `SizeWriter` models `generateSizesAttribute` and `parseSizes`, and the run that the
  repository's own test mocks.

The code produces the following outputs, and the model follows the code:

- A run whose size changes once, say samples 500, 1000, 1000 at 300, 600, 900, writes
  `sizes="(max-width: 600px) 500px, 1000px"`. The first sample's entry is shifted away
  because the boundary at 600 closes the same size.
- A run whose size never changes keeps `(max-width: V0px) Spx` for the first viewport,
  followed by the default `Spx`. It does not write `sizes="Spx"` alone.
- The loop stops before the last sample, so a change at the last sample produces no
  entry (`LastChangeDropped`).
- The default can repeat the size of the last bounded entry.
- A single sample writes `sizes=", Spx"`. An empty list of samples is an error.

## Model

| member | source | states |
|---|---|---|
| Decimal.ParseIntToString | src/index.js:95 | The decimal text of a number reads back as that number, so the text in the attribute determines the number |
| ClosestMatch.AtLeast | src/index.js:104 | The filter keeps exactly the allowed sizes that are at least the width |
| ClosestMatch.LeastAtLeastSpec | src/index.js:104-119 | The snapped size is undefined exactly when no allowed size reaches the width; otherwise it is an allowed size, at least the width, and no larger than any other allowed size that is |
| ClosestMatch.LeastAtLeastUnique | src/index.js:104-119 | Those properties determine the snapped size uniquely |
| ClosestMatch.LeastAtLeastExact | src/index.js:104-119 | A width that is itself an allowed size snaps to itself |
| ClosestMatch.FindClosestMatch | src/index.js:103-120 | The filter-and-scan loop returns undefined exactly when nothing qualifies, else the least qualifying allowed size; this equals the reference definition |
| Sampling.SweepShape | src/index.js:3-8 | The sweep has 48 widths, the i-th being 300 + 50i, from 300 to 2650, strictly increasing |
| Sampling.SampleViewports | src/index.js:39-55 | The loop succeeds exactly when every viewport is measured; the first failure aborts with the selector error, whose message is "Selector not found. Please try again."; on success sample i is viewport i with its snapped size |
| Sampling.SampledSweepIncreasing | src/index.js:39-51 | A successful run over the sweep yields 48 samples in strictly increasing viewport order |
| SizesAttribute.CollectBreakpoints | src/index.js:75-92 | The push loop and the final shift produce the bounded entries `Breakpoints` |
| SizesAttribute.WriteSizesAttribute | src/index.js:74-101 | The result is `SizesAttributeOf(sizes)`: an error exactly for an empty list, namely the empty-input error; otherwise the formatted entries joined by ", ", then ", " and the last sample's size |
| SizesAttributeProperties.BreakpointsShape | src/index.js:77-92 | For truthy sizes: no entry for at most one sample; the first sample's entry when the size never changes at indices 1 .. n-2; otherwise exactly one entry `{ v_k, s_(k-1) }` for each change point k, in order |
| SizesAttributeProperties.BreakpointsCount | src/index.js:77-92 | For any sizes there are at most n-1 entries, and none for a single sample |
| SizesAttributeProperties.BreakpointsIncreasing | src/index.js:77-92 | For samples in sweep order, whatever their sizes (`0` and `undefined` included), the entries are strictly increasing in viewport |
| SizesAttributeProperties.NoAdjacentDuplicates | src/index.js:77-92 | For truthy sizes, no two adjacent entries share a size |
| SizesAttributeProperties.ConstantSamples | src/index.js:77-92 | At least two samples with one truthy size give the single entry for the first viewport |
| SizesAttributeProperties.Reconstructs | src/index.js:74-100 | Resolving the attribute at sample j's viewport (first admitting `max-width`, else the default) gives sample j's size, or the previous size when j is an inner change point, provided the last step is not a change |
| SizesAttributeProperties.LastChangeDropped | src/index.js:77 | A change at the last sample is not written: samples 500, 500, 700 at 300, 350, 400 give one entry `{300, 500}` and resolve to 700 at viewport 350 |
| SizesAttributeProperties.SingleSample | src/index.js:94-100 | A single sample writes `sizes=", Spx"` |
| SizesAttributeProperties.EmptySamplesFail | src/index.js:98-100 | An empty list of samples is an error |
| SizeWriter.GenerateSizesAttribute | src/index.js:30-68 | If every viewport is measured, the result is the attribute of the sampled entries; otherwise it is the selector error |
| SizeWriter.ParseSizes | src/index.js:17-28 | Over the fixed sweep the run fails exactly when some viewport's measurement fails, always with the selector error and its message "Selector not found. Please try again."; it never hits the empty-input error |
| SizeWriter.SweepBreakpoints | src/index.js:39-92 | When every measurement of the sweep finds a nonzero allowed size, the run has at most 47 entries, strictly increasing in viewport, with no two adjacent sizes equal |
| SizeWriter.OneEntryText | src/index.js:94-100 | One entry at 300 with size 500 and default 500 is written `sizes="(max-width: 300px) 500px, 500px"` |
| SizeWriter.MockedRun | __tests__/index.test.js:38-48 | With every measurement 500 and allowed sizes 300 .. 1000, the attribute is `sizes="(max-width: 300px) 500px, 500px"` |

## Left out

- The browser session (launching puppeteer, `newPage`, `goto`, `setViewport`, `close`) is I/O. Its only effect on the result is the measurement, which is the parameter `measure`.
- `Math.round` of the rendered width is left out because it is floating point. `measure` reports the rounded integer.
- Any exception from `page.evaluate` becomes the selector error, as in the source. Failures outside the `try`, such as launch or navigation errors, are left out.
- The measurement is a pure function of the viewport. A page whose layout depends on earlier measurements or on time is not modelled.
- Allowed sizes and widths are integers. Fractional or non-numeric sizes (NaN) are not modelled.
- JavaScript numbers are doubles, Dafny's `int` is unbounded: widths, viewports and allowed sizes are assumed below 2^53 in magnitude, where the comparisons `>=` (line 104) and `===` (lines 78 and 90) are exact, and the printing of `${…}` (lines 95 and 98-100) is modelled only for magnitudes below 1e21, past which JavaScript switches to exponent form.
- `console.table` is output only and is left out.
- `prev` and the second loop over `optimalSizes` are left out because they do not affect the result: `size.size` is always undefined. `determineDelta` and `createNumberArray` are never called and are left out too.
- `cli.js`, argument parsing and printing are not part of this model.
- SizesAttributeProperties.Reconstructs: proved only for samples whose sizes are all truthy and whose last step is not a change. With a change at the last sample the attribute is wrong at every sample after the last bounded entry, up to the next-to-last sample (LastChangeDropped shows one such run). A falsy size makes the loop emit a sample's own size.
- SizesAttributeProperties.BreakpointsShape: the exact shape is proved for truthy sizes only. For `0` or `undefined` sizes, only BreakpointsCount and the executable definition apply.
