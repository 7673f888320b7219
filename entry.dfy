/**
 * The command-line entry point, reduced to its logic: validate the range
 * given by `--range_min` and `--range_max`, then run the vegetation mask on
 * the red and near-infrared bands with that range. Reading the bands,
 * reprojecting and writing the output are I/O and are not part of this model.
 *
 * Both bounds are Python floats parsed by `float(...)`, so either may be NaN
 * or an infinity.
 */
module Entry {
  import opened Numeric
  import opened Vegetation

  /** The default `--range_min` and `--range_max`. */
  const DefaultMin: Float := Finite(0.2)
  const DefaultMax: Float := Finite(0.5)

  /**
   * The guard as written, `range_min >= range_max`. It rejects exactly the
   * ordered pairs that are not strictly increasing, and it lets every pair
   * with a NaN bound through, because a comparison with NaN is false.
   */
  function RangeRejected(min: Float, max: Float): (r: bool)
    ensures min.Finite? && max.Finite? ==> (r <==> min.v >= max.v)
    ensures min == NaN || max == NaN ==> !r
    ensures min != NaN && max != NaN ==> (r <==> !Lt(min, max))
  {
    Ge(min, max)
  }

  /**
   * The guard the error message describes, "min can not be greater or equal
   * to max": accept a range only when `min < max` holds. An accepted range
   * always has room for at least one index value.
   */
  function RangeAccepted(min: Float, max: Float): (r: bool)
    ensures r ==> min != NaN && max != NaN && min != PosInf && max != NegInf
    ensures min.Finite? && max.Finite? ==> (r <==> min.v < max.v)
    ensures r <==> !RangeRejected(min, max) && min != NaN && max != NaN
  {
    Lt(min, max)
  }

  /**
   * Every range the corrected guard accepts contains some index value, so the
   * mask it produces is not forced to be all background. (Whether some pixel
   * actually reaches the range depends on the bands: for nonnegative
   * reflectances the index stays in [-1, 1], so an accepted range such as
   * [2, 3] still gives only 0 and -1.)
   */
  lemma AcceptedRangeIsInhabited(min: Float, max: Float)
    requires RangeAccepted(min, max)
    ensures exists x: real :: InRange(x, Range(min, max))
  {
    var x: real := if min.Finite? then min.v else if max.Finite? then max.v else 0.0;
    assert InRange(x, Range(min, max));
  }

  /**
   * The guard as written admits a NaN bound: `--range_min nan` passes
   * validation, although the range is not increasing and contains no value,
   * so every pixel of the mask is then 0 or -1 and none is a field.
   */
  lemma NaNBoundPassesGuard(red: real, nir: real, max: Float)
    ensures !RangeRejected(NaN, max)
    ensures !RangeAccepted(NaN, max)
    ensures forall x: real :: !InRange(x, Range(NaN, max))
    ensures ClassifyPixel(red, nir, Range(NaN, max)) != Field
  {
  }

  /** What the program does with one pair of bands: stop early, or produce a mask. */
  datatype Outcome = Aborted(min: Float, max: Float) | Processed(mask: Grid<real>)

  /**
   * The entry point as written: abort when `range_min >= range_max`,
   * otherwise compute the mask with `range=[min, max]`. A NaN bound is not
   * rejected, so the bands are processed.
   */
  function RunAsWritten(red: Grid<real>, nir: Grid<real>, min: Float, max: Float): (o: Outcome)
    requires Rectangular(red) && SameShape(red, nir)
    ensures o.Aborted? <==> RangeRejected(min, max)
    ensures min == NaN || max == NaN ==> o.Processed?
    ensures o.Aborted? ==> o == Aborted(min, max)
    ensures o.Processed? ==> Rectangular(o.mask) && SameShape(o.mask, red)
    ensures o.Processed? ==> forall i, j :: 0 <= i < |o.mask| && 0 <= j < |o.mask[i]| ==>
              o.mask[i][j] == ClassifyPixel(red[i][j], nir[i][j], Range(min, max))
  {
    if RangeRejected(min, max) then Aborted(min, max)
    else Processed(EvaluateBandVegetation(red, nir, Range(min, max)))
  }

  /**
   * Run as written with `--range_min nan`: the bands are processed and the
   * mask holds no field pixel at all, only 0 and -1.
   */
  lemma NaNRunHasNoField(red: Grid<real>, nir: Grid<real>, max: Float)
    requires Rectangular(red) && SameShape(red, nir)
    ensures RunAsWritten(red, nir, NaN, max).Processed?
    ensures var m := RunAsWritten(red, nir, NaN, max).mask;
            forall i, j :: 0 <= i < |m| && 0 <= j < |m[i]| ==> m[i][j] == Sentinel || m[i][j] == Background
  {
    var m := RunAsWritten(red, nir, NaN, max).mask;
    forall i, j | 0 <= i < |m| && 0 <= j < |m[i]|
      ensures m[i][j] == Sentinel || m[i][j] == Background
    {
      NaNBoundPassesGuard(red[i][j], nir[i][j], max);
    }
  }

  /**
   * The corrected entry point: validate with the corrected guard, then
   * compute the mask with `range=[min, max]`. On bounds that are not NaN it
   * behaves exactly as the entry point in `src/app.py`.
   */
  function Run(red: Grid<real>, nir: Grid<real>, min: Float, max: Float): (o: Outcome)
    requires Rectangular(red) && SameShape(red, nir)
    ensures o.Aborted? <==> RangeRejected(min, max) || min == NaN || max == NaN
    ensures o.Aborted? ==> o == Aborted(min, max)
    ensures o.Processed? ==> Rectangular(o.mask) && SameShape(o.mask, red)
    ensures o.Processed? ==> forall i, j :: 0 <= i < |o.mask| && 0 <= j < |o.mask[i]| ==>
              o.mask[i][j] == ClassifyPixel(red[i][j], nir[i][j], Range(min, max))
  {
    if !RangeAccepted(min, max) then Aborted(min, max)
    else Processed(EvaluateBandVegetation(red, nir, Range(min, max)))
  }

  /**
   * A range the written guard rejects stops the program before anything is
   * computed, both as written and corrected: the outcome does not depend on
   * the bands at all.
   */
  lemma RejectionIgnoresBands(red: Grid<real>, nir: Grid<real>, red': Grid<real>, nir': Grid<real>,
                              min: Float, max: Float)
    requires Rectangular(red) && SameShape(red, nir)
    requires Rectangular(red') && SameShape(red', nir')
    requires RangeRejected(min, max)
    ensures RunAsWritten(red, nir, min, max) == RunAsWritten(red', nir', min, max) == Aborted(min, max)
    ensures Run(red, nir, min, max) == Run(red', nir', min, max) == Aborted(min, max)
  {
  }

  /** Off NaN the corrected entry point and the one as written give the same outcome. */
  lemma RunAgreesOffNaN(red: Grid<real>, nir: Grid<real>, min: Float, max: Float)
    requires Rectangular(red) && SameShape(red, nir)
    requires min != NaN && max != NaN
    ensures Run(red, nir, min, max) == RunAsWritten(red, nir, min, max)
  {
  }

  /** Every strictly increasing pair of bounds is accepted and the bands are processed. */
  lemma IncreasingRangeIsProcessed(red: Grid<real>, nir: Grid<real>, min: Float, max: Float)
    requires Rectangular(red) && SameShape(red, nir)
    requires Lt(min, max)
    ensures Run(red, nir, min, max) == Processed(EvaluateBandVegetation(red, nir, Range(min, max)))
  {
  }

  /** The defaults [0.2, 0.5] pass validation; on red = 1, nir = 3 they give a field. */
  lemma DefaultsScenario()
    ensures Run([[1.0]], [[3.0]], DefaultMin, DefaultMax) == Processed([[Field]])
  {
    // Only the first clause of ScenarioGrids is used here; its range
    // argument feeds the 0/0 clause alone.
    ScenarioGrids(Range(DefaultMin, DefaultMax));
  }
}
