# Direct-mapped cache simulator with a miss-rate anomaly detector

This project models the algorithmic core of the AI Cache Simulator, a
single-page application written in TypeScript (`index.tsx`). The core has
two parts.

- A **direct-mapped cache**. It has `CACHE_SIZE` lines over a memory of
  `MEMORY_SIZE` addresses. An address maps to line `address % CACHE_SIZE`
  with tag `address / CACHE_SIZE`. An access hits when that line is valid
  and holds the tag. A miss overwrites the line with `{tag, valid: true}`.
  Each access bumps one of two counters, `hits` or `misses`, and yields the
  running miss rate.
- An **anomaly detector**. It keeps a FIFO window of the latest
  `ANOMALY_WINDOW_SIZE` (20) miss rates. It stays silent until the window
  is full. After that it flags a sample whose distance from the window mean
  is more than `ANOMALY_STD_DEV_THRESHOLD` (2.5) population standard
  deviations. The window includes the sample under test.

The four constants are constructor parameters of `Simulation.Simulator`
and `Anomaly.AnomalyDetector`, with positive sizes and a non-negative
threshold required.

Modules, one per component:

- `Wrappers`: `Option`, for `number | null` and `string | null`.
- `Cache`: cache lines, the address split, the hit test, one access.
- `Counters`: the step's miss rate and the miss share of the counters.
- `Stats`: sum, mean and population variance as folds over exact reals.
- `Anomaly`: the window bookkeeping, the outlier test, and the class
  `AnomalyDetector` with `Check` and `Reset`.
- `Simulation`: the class `Simulator`, which owns cache lines, counters and
  a detector, with `Step(address)` and `Reset()`. The pure function
  `Replay` gives the state after any address sequence since a reset.
  `MissRates` gives the rate series fed to the detector. `Simulator.Valid()`
  ties the object's fields to both.

Modelling decisions:

- The address comes in as a parameter of `Step`, with `address < memorySize`.
  In the source it is drawn with `Math.random`.
- The step computes its miss rate from the counters before the step plus
  the step's own outcome: `(misses + (hit ? 0 : 1)) / (hits + misses + 1)`
  (index.tsx:430-432). `Counters.MissRateIsShareAfterStep` proves this
  equals `misses / (hits + misses)` on the counters after the step. In the
  source, the updates to the counters and the cache happen through React
  state setters. The model does them as one synchronous step.
- Statistics use exact `real` arithmetic. There is no `sqrt`: the test
  `stdDev > 0 && |x - mean| > t * stdDev` becomes `Anomaly.Outlier`, which
  is `variance > 0 && (x - mean)^2 > t^2 * variance`.
  `Anomaly.OutlierIsStdDevTest` proves both tests agree for any
  non-negative `sd` with `sd * sd == variance`, when `t >= 0`.
- JavaScript numbers can be NaN, so `Check` takes an `Anomaly.Sample`,
  which is `NaN` or `Rate(value)`. The simulator always passes a `Rate`:
  the denominator `hits + misses + 1` is never zero.
- The detector's statistics are computed only over the window. That
  window includes the newest sample, as in the source.
  `Anomaly.SpikeAfterPlateau` shows what this means: after `k` equal
  samples, a single different sample is flagged exactly when
  `threshold^2 < k`. So a window of 20 with threshold 2.5 flags it
  (`19 > 6.25`).

## Model

| member | source | states |
|---|---|---|
| `Cache.IndexOf` | index.tsx:405 | the line index of an address is below the cache size |
| `Cache.TagOf` | index.tsx:406 | the tag is the number of whole cache-sized blocks below the address: `tag * C <= address < (tag + 1) * C` |
| `Cache.Decompose` | index.tsx:404-406 | `address == tag * C + index`; for `address < M` with `M` a multiple of `C`, `tag < M / C` |
| `Cache.InitialCache` | index.tsx:352-353 | exactly `C` lines, each with no tag and not valid |
| `Cache.IsHit` | index.tsx:412-416 | an access hits exactly when the line it maps to is `{tag, valid: true}` for the address's tag |
| `Cache.Access` | index.tsx:410-420 | reports a hit exactly when `IsHit` holds; a hit returns the cache unchanged; a miss sets the mapped line to `{tag, valid: true}`; the length and every other line stay as they were |
| `Cache.AccessKeepsTagsCleared` | index.tsx:415-420 | an access keeps the invariant that no invalid line holds a tag |
| `Cache.RepeatedAccessHits` | index.tsx:415-420 | accessing the same address again right away is a hit and leaves the cache unchanged |
| `Cache.ConflictEvicts` | index.tsx:415-420 | after an access to `a`, an access to another address `b` on the same line makes the next access to `a` miss |
| `Cache.OtherLineUnaffected` | index.tsx:415-420 | an access to another line does not change whether `a` hits |
| `Cache.ConflictScenario` | index.tsx:404-420 | with 4 lines, 5 and 9 map to line 1 with tags 1 and 2; accesses 5, 5, 9, 5 give miss, hit, miss, miss |
| `Counters.MissRate` | index.tsx:430-432 | the rate times `hits + misses + 1` is the misses including this access's miss; the rate lies in `[0, 1]` |
| `Counters.MissShare` | index.tsx:430-432 | `misses / (hits + misses)` lies in `[0, 1]` and is 0 with no accesses |
| `Counters.MissRateIsShareAfterStep` | index.tsx:422-432 | the rate a step computes from the counters before it equals the miss share of the counters after it |
| `Counters.RateScenario` | index.tsx:430-432 | from zero counters, a hit gives rate 0 and a following miss gives 0.5 |
| `Stats.Sum` | index.tsx:333 | the `reduce((a, b) => a + b, 0)` fold, adding the samples from first to last (a definition; its properties are `SumBounds` and `RepeatSums`) |
| `Stats.Mean` | index.tsx:333 | the sum of the window over its length (a definition; its properties are `MeanBounds` and `ConstantStatistics`) |
| `Stats.Square` | index.tsx:335 | `Math.pow(x, 2)`: `x * x`, never negative |
| `Stats.SquaredDeviations` | index.tsx:335 | the summed squared deviations are non-negative |
| `Stats.Variance` | index.tsx:334-336 | the population variance is non-negative |
| `Stats.SumBounds` | index.tsx:333 | samples in `[lo, hi]` sum to between `n * lo` and `n * hi` |
| `Stats.MeanBounds` | index.tsx:333 | the mean of samples in `[lo, hi]` lies in `[lo, hi]` |
| `Stats.RepeatSums` | index.tsx:333-336 | `k` copies of `c` sum to `k * c` and have squared deviation `k * (c - m)^2` from `m` |
| `Stats.ConstantStatistics` | index.tsx:333-336 | a window of equal samples has that value as its mean and zero variance |
| `Anomaly.Abs` | index.tsx:338 | `Math.abs`: non-negative and equal to `x` or `-x` |
| `Anomaly.Slide` | index.tsx:324-327 | `push`, then one `shift` once longer than `n`: the window grows by one until it holds `n` samples and then keeps its length, and its last element is the new sample |
| `Anomaly.Outlier` | index.tsx:338 | the square-root-free test `variance > 0 && (x - mean)^2 > threshold^2 * variance`; a flagged sample has a positive window variance and differs from the mean |
| `Anomaly.LastN` | index.tsx:324-327 | the last `min(|s|, n)` elements of `s`, in order |
| `Anomaly.SlideKeepsLastN` | index.tsx:324-327 | push then evict-once-over-capacity turns the last `n` admitted samples into the last `n` after one more sample |
| `Anomaly.SquareMonotone` | index.tsx:338 | for non-negative values, `a > b` iff `a^2 > b^2` |
| `Anomaly.OutlierIsStdDevTest` | index.tsx:333-339 | the squared test holds iff `stdDev > 0 && |x - mean| > threshold * stdDev`, for the non-negative root `stdDev` of the variance |
| `Anomaly.AtThresholdIsNotOutlier` | index.tsx:338 | a sample exactly `threshold` standard deviations away is not flagged (strict comparison) |
| `Anomaly.ConstantWindowHasNoOutlier` | index.tsx:333-339 | a window whose samples are all equal never yields a detection, whatever the sample |
| `Anomaly.PlateauMean` | index.tsx:333 | the mean of `k` copies of `c` and one `y`, and the deviations of `c` and `y` from it |
| `Anomaly.PlateauVariance` | index.tsx:334-336 | the variance of that window and the squared deviation of `y`, as multiples of `((y - c) / (k + 1))^2` |
| `Anomaly.SpikeAfterPlateau` | index.tsx:333-339 | after `k` equal samples `c`, a sample `y` is flagged iff `y != c` and `threshold^2 < k` |
| `Anomaly.DetectorScenario` | index.tsx:321-343 | twenty samples of 0.1 are not flagged; a twenty-first of 0.9 is, against the window of nineteen 0.1s and 0.9, whose mean is 0.14 and variance 0.0304 |
| `Anomaly.AnomalyDetector.constructor` | index.tsx:318-319 | the window starts empty, with the given size and threshold |
| `Anomaly.AnomalyDetector.Check` | index.tsx:321-343 | NaN yields no alert and leaves the window as it was; otherwise the window becomes the last `windowSize` admitted samples, never longer than `windowSize`; an alert comes exactly when the window is full and the sample is an `Outlier` of it; there is never an alert before `windowSize` samples have been admitted |
| `Anomaly.AnomalyDetector.Reset` | index.tsx:345-347 | the window and the admitted samples are empty again, so the warm-up restarts |
| `Simulation.Advance` | index.tsx:415-428 | one access changes the cache as `Access` does and bumps exactly one counter: `hits` on a hit, `misses` on a miss |
| `Simulation.Replay` | index.tsx:403-428 | after any address sequence from a reset, the cache has `C` lines and `hits + misses` is the number of accesses |
| `Simulation.ReplayKeepsTagsCleared` | index.tsx:352-353 | every state reached from a reset has no tagged invalid line |
| `Simulation.MissRates` | index.tsx:430-434 | the rate series fed to the detector has one entry per access, each in `[0, 1]` |
| `Simulation.ReplayAppend` | index.tsx:403-434 | one more access advances the replayed state by that access and appends its rate to the series |
| `Simulation.LatestRateIsMissShare` | index.tsx:430-432 | the latest rate is `misses / (hits + misses)` on the counters after the access |
| `Simulation.WindowMeanIsRate` | index.tsx:333 | the mean of any suffix window of the miss-rate series lies in `[0, 1]` |
| `Simulation.Simulator.constructor` | index.tsx:352-372 | a fresh run: `C` untagged invalid lines, zero counters, an empty detector window |
| `Simulation.Simulator.Reset` | index.tsx:394-400 | the cache is back to its initial lines, both counters are zero and the detector's window is empty |
| `Simulation.Simulator.Step` | index.tsx:403-447 | the reported index and hit/miss; the new cache is `Access` of the old; exactly one counter grows by one; `hits + misses` is the number of steps since reset; the rate is in `[0, 1]` and equals `misses / (hits + misses)` after the step; the detector's window slides by that rate; an alert comes exactly when the window is full and the rate is an outlier, and never in the first `windowSize - 1` steps |

## Left out

- Drawing the address with `Math.random` (index.tsx:404). The address is a parameter of `Simulation.Simulator.Step`.
- React state, hooks and updater callbacks (`useState`, `useEffect`, `useCallback`, `useRef`). One step is one synchronous method call, and the counters are the object's fields.
- The `setInterval` ticker and the start/pause flags (index.tsx:450-463). These are UI scheduling, not part of the step.
- The anomaly log entries (index.tsx:435-445). Their id comes from `Date.now()` and their timestamp from `toLocaleTimeString()`, and they are prepended to a log kept by the UI. `Step` returns the alert text and the rate instead.
- The last accessed index and access type (index.tsx:408, 424, 427). Beyond the index and hit flag in `StepResult`, these exist only for display.
- The chat assistant and `handleSendMessage` (index.tsx:375-387, 471-491). These are network calls to an outside service.
- The CSS, the JSX markup and the hit-rate percentage with `toFixed` (index.tsx:6-291, 494-604). These are presentation.
- IEEE-754 rounding, `Math.sqrt` and `Math.pow` (index.tsx:333-336). The model uses exact reals and compares squares.
- `Anomaly.AnomalyDetector.Check`: infinite inputs are not modelled. A `Sample` is NaN or a finite real.
- `Simulation.Simulator.Step`: the counters in the source are read from the render in which the callback was created. The model reads the counters as they stand before the step. This is the behaviour the source evidently intends (index.tsx:430-432).
- Determinism of replay is not stated as a lemma. The model's state is the function `Replay` of the address sequence, so the same sequence from a reset always gives the same hits and misses.
