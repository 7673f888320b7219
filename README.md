# NDVI vegetation mask — a Dafny model

This project models the computational core of a small tool. The tool reads the
red and near-infrared bands of a GeoTIFF and computes the Normalized
Difference Vegetation Index (NDVI) of every pixel, `(nir - red) / (nir + red)`.
It turns that index into a vegetation mask and then reprojects and writes the
mask.

The model covers two pieces of `src/app.py`. The first is `evaluate_band_vegetation`:

- the elementwise division;
- the repair of the undefined 0/0 result to the no-data sentinel -1;
- the inclusive range test that gives 255 (field) or 0;
- the final step that puts every pixel whose repaired index is -1 back to -1.

The second is the entry point's guard that rejects `range_min >= range_max` (src/app.py:154-156).

Three modules, one file each:

- `numeric.dfy` (`Numeric`): float values kept exact as `real`, plus NaN and
  the two infinities, with IEEE 754 comparisons, where every comparison that
  involves NaN is false.
- `vegetation.dfy` (`Vegetation`): the per-pixel steps and the grid function.
  The grid function composes the steps in the order `src/app.py` runs them, using
  elementwise maps over `seq<seq<real>>`. It is proved equal, pixel by pixel,
  to a three-way classification, `ClassifyPixel`.
- `entry.dfy` (`Entry`): the range guard as written, a corrected guard, and
  the program's outcome under each. The outcome is either "aborted" or "processed" with
  a mask.

A consequence of exact arithmetic that the model makes explicit: an output
pixel is -1 exactly where the near-infrared sample is 0. This includes a
genuine index of -1 (nir = 0, red ≠ 0), not only the undefined 0/0. Because
the sentinel step runs after the range test, such a pixel stays -1 even when
the range contains -1.

## Model

| member | source | states |
|---|---|---|
| Vegetation.Ndvi | src/app.py:98 | 0/0 gives NaN; a zero sum gives +inf or -inf with the sign of nir; otherwise the result q satisfies q·(nir+red) = nir−red, and lies in [-1, 1] for nonnegative reflectances |
| Numeric.Le | src/app.py:103 | IEEE `<=`: false when either side is NaN; on finite values it is `<=` of reals; -inf is below and +inf above every non-NaN value |
| Numeric.Ge | src/app.py:154 | IEEE `>=`: false when either side is NaN; on finite values it is `>=` of reals; +inf is at least, and -inf at most, every non-NaN value, and nothing else is |
| Numeric.Lt | src/app.py:154-155 | IEEE `<`: false when either side is NaN; on finite values it is `<` of reals; -inf is below and +inf above every other non-NaN value; off NaN it is exactly the negation of `>=` |
| Numeric.LeTotalOffNaN | src/app.py:103 | off NaN, `<=` is reflexive, antisymmetric, transitive and total, and `<` is its strict part |
| Vegetation.InRange | src/app.py:103 | the range test: with finite bounds it is lo ≤ x ≤ hi; a NaN bound, lo = +inf or hi = -inf admits nothing; an infinite bound drops that side of the test |
| Vegetation.NanToNum | src/app.py:99 | finite values are kept; +inf becomes the largest float32 and -inf its negative; the result is -1 exactly for NaN or a genuine -1 |
| Vegetation.Index | src/app.py:98-99 | the repaired index is -1 exactly when nir is 0; it lies in [-1, 1] for nonnegative reflectances |
| Vegetation.MinusOneIffNirZero | src/app.py:98 | the division gives exactly -1 if and only if nir is 0 and red is not |
| Vegetation.Threshold | src/app.py:103 | the result is 255 or 0, and 255 exactly when the range test `InRange` admits x; with finite bounds it is 255 exactly when lo ≤ x ≤ hi; a NaN bound gives 0; (-inf, +inf) gives 255 |
| Vegetation.Mask | src/app.py:104 | the result is -1 or the range test's value; since that value is never -1, the result is -1 exactly when the repaired index is (see also the sentinel clauses of `ClassifyPixel`) |
| Vegetation.ClassifyPixel | src/app.py:98-104 | every pixel is -1, 0 or 255; it is -1 exactly when nir is 0; otherwise it is 255 exactly when the index is in the range, and 0 exactly when it is not |
| Vegetation.EvaluateBandVegetation | src/app.py:83-105 | the staged computation keeps the input's rectangular shape, and each output pixel is the classification of its own two samples, one of -1, 0 and 255 |
| Vegetation.UndefinedIsSentinel | src/app.py:98-104 | a 0/0 pixel is NaN before repair and -1 in the output, whatever the range |
| Vegetation.GenuineMinusOneIsMasked | src/app.py:103-104 | nir = 0, red ≠ 0 gives an index of exactly -1; the range test would make it 255 when -1 is in the range, yet the output is -1 |
| Vegetation.BoundsInclusive | src/app.py:103 | an index (not -1) equal to either finite bound is 255 |
| Vegetation.OutsideIsBackground | src/app.py:103 | an index (not -1) strictly below lo or above hi is 0 |
| Vegetation.DefaultRangeMeansNirDominates | src/app.py:83-104 | with nonnegative reflectances and the default range [0, 1], a pixel is 255 if and only if nir ≠ 0 and nir ≥ red |
| Vegetation.InfiniteIndexSaturates | src/app.py:98-103 | nir + red = 0 with nir > 0 repairs to the largest float32, which is 255 only under a range that reaches it |
| Vegetation.ScenarioHalf | src/app.py:98-104 | red = 1, nir = 3 has index 0.5: 255 under [0.2, 0.5], 0 under [0.6, 0.9] |
| Vegetation.GridSentinelWhereNirZero | src/app.py:98-104 | an output pixel is -1 if and only if nir is 0 at that pixel |
| Vegetation.PixelIndependence | src/app.py:98-104 | two band pairs that agree at (i, j) have the same output at (i, j) |
| Vegetation.ScenarioGrids | src/app.py:83-105 | [[1]], [[3]] gives [[255]] under [0.2, 0.5] and [[0]] under [0.6, 0.9]; [[0]], [[0]] gives [[-1]] under every range |
| Entry.RangeRejected | src/app.py:154-156 | with finite bounds it rejects exactly min ≥ max; off NaN it rejects exactly the pairs that are not strictly increasing; it never rejects a NaN bound |
| Entry.RangeAccepted | src/app.py:154-155 | accepts only non-NaN bounds with min < max; it agrees with the written guard except on NaN bounds |
| Entry.AcceptedRangeIsInhabited | src/app.py:154-155 | every accepted range contains some index value |
| Entry.NaNBoundPassesGuard | src/app.py:144-156 | a NaN `--range_min` passes the written guard, though the range contains no value and no pixel can be 255 |
| Entry.RunAsWritten | src/app.py:154-161 | the entry point as written: it aborts exactly when the written guard rejects; a NaN bound is processed; the mask has the bands' shape and classifies each pixel with range [min, max] |
| Entry.NaNRunHasNoField | src/app.py:154-161 | as written, `--range_min nan` is processed and every mask pixel is -1 or 0 |
| Entry.Run | src/app.py:154-161 | the corrected entry point: it aborts exactly on a bound the written guard rejects or a NaN bound; otherwise its mask has the bands' shape and classifies each pixel with range [min, max] |
| Entry.RunAgreesOffNaN | src/app.py:154-161 | on bounds that are not NaN, the corrected and the as-written entry points give the same outcome |
| Entry.RejectionIgnoresBands | src/app.py:154-156 | a range the written guard rejects aborts, as written and corrected, the same way whatever the bands hold: nothing is computed |
| Entry.IncreasingRangeIsProcessed | src/app.py:154-161 | every strictly increasing pair of bounds is accepted and yields the mask of `evaluate_band_vegetation` |
| Entry.DefaultsScenario | src/app.py:144-161 | the default range [0.2, 0.5] is accepted, and red = 1, nir = 3 gives the mask [[255]] |

## Findings

| source | as written | input that shows it | evidently intended | confidence | as-written member | corrected member |
|---|---|---|---|---|---|---|
| src/app.py:154 | the guard rejects only when `range_min >= range_max`, which is false whenever a bound is NaN | `--range_min nan --range_max 0.5`: accepted, and every output pixel is then 0 or -1 | reject unless `range_min < range_max`, as the error message says | medium; not executed | Entry.NaNRunHasNoField | Entry.RangeAccepted |

`Entry.RunAsWritten` is the entry point as written. `Entry.Run` validates with the corrected guard. On bounds that are not NaN the two guards agree (`Entry.RangeAccepted`'s contract), and so do the two entry points (`Entry.RunAgreesOffNaN`).

## Left out

- Float rounding: values are exact reals. The model does not capture float32 rounding of the division. It also does not capture the rounding of the bounds to float32 before comparison, or an index that rounds to exactly -1 or onto a bound. Under rounding, a very small nir beside a large red can also give -1.
- Integer-typed bands passed straight to `evaluate_band_vegetation`: the model computes on exact values, so wrap-around of `np.subtract` on unsigned integer arrays is not modelled. The program's own path casts both bands to float32 first (src/app.py:122-123).
- Non-finite input samples: red and nir are finite reals. A NaN or infinite sample in a float band is not modelled.
- Vegetation.EvaluateBandVegetation: requires two rectangular grids of the same shape. numpy's broadcasting of other shapes, and its error on incompatible shapes, are not modelled.
- The `range` argument is a pair. A list with fewer than two elements, which raises `IndexError`, is not modelled.
- The +inf/-inf repair uses the float32 maximum, as for the float32 bands of the GeoTIFF path. A float64 caller would get the float64 maximum instead.
- The output's numeric type (float64 from `np.where`) is not modelled; values are reals.
- `__write` (src/app.py:10-38): deleting and writing a GeoTIFF through the raster library, and the swallowed exception. This is I/O.
- `__reproject` (src/app.py:41-80): CRS transform and resampling by the geospatial library. Its same-CRS shortcut compares a library CRS object with a string, so library equality decides it.
- `evaluate_geotiff_vegetation` (src/app.py:108-133): band reads and the float32 cast. `Entry.RunAsWritten` and `Entry.Run` take the bands as parameters.
- Entry.Run: validates with the corrected guard, so it aborts on a NaN bound where the program as written goes on to compute a mask of 0 and -1 only. That behaviour is modelled by `Entry.RunAsWritten` (see Findings).
- Argument parsing, printing and `exit()` in the entry point. Only the range check and the call with `[range_min, range_max]` are kept.
- setup.py: packaging metadata, no logic.
