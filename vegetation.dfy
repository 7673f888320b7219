/**
 * The vegetation mask of `evaluate_band_vegetation`: the normalized
 * difference index of a red and a near-infrared band, with the undefined
 * 0/0 result repaired to the no-data sentinel -1, then thresholded against an
 * inclusive range into 255 (field) or 0 (not a field), and finally every
 * pixel whose repaired index is -1 put back to -1.
 *
 * Every step is elementwise over a 2-D grid; a grid is a sequence of rows.
 */
module Vegetation {
  import opened Numeric

  type Grid<T> = seq<seq<T>>

  /** The no-data value, which is also the `nan=` argument of the repair step. */
  const Sentinel: real := -1.0
  /** Output value of a pixel whose index lies in the range. */
  const Field: real := 255.0
  /** Output value of a pixel whose index lies outside the range. */
  const Background: real := 0.0

  /** The `range` argument: `range[0]` and `range[1]`, both inclusive. */
  datatype Range = Range(lo: Float, hi: Float)

  /** The default `range=[0.0, 1.0]` of `evaluate_band_vegetation`. */
  const DefaultRange: Range := Range(Finite(0.0), Finite(1.0))

  /** `(x >= range[0]) & (x <= range[1])`, with the comparisons of IEEE 754. */
  function InRange(x: real, rng: Range): (r: bool)
    ensures rng.lo.Finite? && rng.hi.Finite? ==> (r <==> rng.lo.v <= x <= rng.hi.v)
    ensures rng.lo == NaN || rng.hi == NaN || rng.lo == PosInf || rng.hi == NegInf ==> !r
    ensures rng.lo == NegInf && rng.hi.Finite? ==> (r <==> x <= rng.hi.v)
    ensures rng.lo.Finite? && rng.hi == PosInf ==> (r <==> rng.lo.v <= x)
    ensures rng.lo == NegInf && rng.hi == PosInf ==> r
  {
    Ge(Finite(x), rng.lo) && Le(Finite(x), rng.hi)
  }

  // ---------------------------------------------------------------------
  // Grids
  // ---------------------------------------------------------------------

  /** Two grids have the same number of rows and, row by row, the same width. */
  predicate SameShape<A, B>(a: Grid<A>, b: Grid<B>) {
    |a| == |b| && forall i :: 0 <= i < |a| ==> |a[i]| == |b[i]|
  }

  /** Every row is as wide as the first, as in a 2-D ndarray. */
  predicate Rectangular<T>(g: Grid<T>) {
    forall i :: 0 <= i < |g| ==> |g[i]| == |g[0]|
  }

  /** A unary elementwise operation on one row. */
  function MapRow<A, B>(s: seq<A>, f: A -> B): (r: seq<B>)
    ensures |r| == |s|
    ensures forall j :: 0 <= j < |s| ==> r[j] == f(s[j])
  {
    if s == [] then [] else [f(s[0])] + MapRow(s[1..], f)
  }

  /** A binary elementwise operation on two rows of equal width. */
  function ZipRow<A, B, C>(s: seq<A>, t: seq<B>, f: (A, B) -> C): (r: seq<C>)
    requires |s| == |t|
    ensures |r| == |s|
    ensures forall j :: 0 <= j < |s| ==> r[j] == f(s[j], t[j])
  {
    if s == [] then [] else [f(s[0], t[0])] + ZipRow(s[1..], t[1..], f)
  }

  /** A unary elementwise operation on a grid (a numpy ufunc of one array). */
  function MapGrid<A, B>(g: Grid<A>, f: A -> B): (r: Grid<B>)
    ensures SameShape(r, g)
    ensures forall i, j :: 0 <= i < |g| && 0 <= j < |g[i]| ==> r[i][j] == f(g[i][j])
  {
    if g == [] then [] else [MapRow(g[0], f)] + MapGrid(g[1..], f)
  }

  /** A binary elementwise operation on two grids of the same shape. */
  function ZipGrid<A, B, C>(a: Grid<A>, b: Grid<B>, f: (A, B) -> C): (r: Grid<C>)
    requires SameShape(a, b)
    ensures SameShape(r, a)
    ensures forall i, j :: 0 <= i < |a| && 0 <= j < |a[i]| ==> r[i][j] == f(a[i][j], b[i][j])
  {
    if a == [] then [] else [ZipRow(a[0], b[0], f)] + ZipGrid(a[1..], b[1..], f)
  }

  // ---------------------------------------------------------------------
  // One pixel
  // ---------------------------------------------------------------------

  /**
   * `np.divide(np.subtract(nir, red), np.add(nir, red))` at one pixel.
   * A zero denominator gives NaN for 0/0 and an infinity with the sign of the
   * numerator otherwise (the sum of two finite floats that cancel is +0).
   */
  function Ndvi(red: real, nir: real): (r: Float)
    ensures r == NaN <==> red == 0.0 && nir == 0.0
    ensures r == PosInf <==> nir + red == 0.0 && nir > 0.0
    ensures r == NegInf <==> nir + red == 0.0 && nir < 0.0
    ensures r.Finite? <==> nir + red != 0.0
    ensures r.Finite? ==> r.v * (nir + red) == nir - red
    ensures r.Finite? && red >= 0.0 && nir >= 0.0 ==> -1.0 <= r.v <= 1.0
  {
    var num, den := nir - red, nir + red;
    if den != 0.0 then
      var q := num / den;
      assert q * den == num;
      assert red >= 0.0 && nir >= 0.0 ==> den > 0.0 && -den <= num <= den;
      Finite(q)
    else if num == 0.0 then NaN
    else if num > 0.0 then PosInf
    else NegInf
  }

  /**
   * `np.nan_to_num(x, nan=-1)` at one pixel of a float32 grid: NaN becomes
   * the sentinel, the infinities the largest finite float32 of their sign.
   */
  function NanToNum(x: Float): (r: real)
    ensures x.Finite? ==> r == x.v
    ensures x == PosInf ==> r == MaxFloat32
    ensures x == NegInf ==> r == -MaxFloat32
    ensures r == Sentinel <==> x == NaN || x == Finite(Sentinel)
  {
    match x
    case Finite(v) => v
    case NaN => Sentinel
    case PosInf => MaxFloat32
    case NegInf => -MaxFloat32
  }

  /**
   * The repaired index of one pixel. Over exact arithmetic it is the sentinel
   * exactly when the near-infrared sample is zero: 0/0 repaired to -1, and
   * the genuine index (0 - red) / (0 + red) = -1 for every nonzero red.
   */
  function Index(red: real, nir: real): (r: real)
    ensures r == Sentinel <==> nir == 0.0
    ensures red >= 0.0 && nir >= 0.0 ==> -1.0 <= r <= 1.0
  {
    var ndvi := Ndvi(red, nir);
    MinusOneIffNirZero(red, nir);
    NanToNum(ndvi)
  }

  /** Over exact arithmetic the division gives exactly -1 when, and only when, nir is 0 and red is not. */
  lemma MinusOneIffNirZero(red: real, nir: real)
    ensures Ndvi(red, nir) == Finite(Sentinel) <==> nir == 0.0 && red != 0.0
  {
    var ndvi := Ndvi(red, nir);
    if ndvi == Finite(Sentinel) {
      assert -1.0 * (nir + red) == nir - red;
    }
    if nir == 0.0 && red != 0.0 {
      var q := (nir - red) / (nir + red);
      assert q * red == -red;
      assert (q + 1.0) * red == 0.0;
      assert q == -1.0;
    }
  }

  /** `np.where((x >= range[0]) & (x <= range[1]), 255, 0)` at one pixel. */
  function Threshold(x: real, rng: Range): (r: real)
    ensures r == Field || r == Background
    ensures r == Field <==> InRange(x, rng)
    ensures rng.lo.Finite? && rng.hi.Finite? ==> (r == Field <==> rng.lo.v <= x <= rng.hi.v)
    ensures rng.lo == NaN || rng.hi == NaN ==> r == Background
    ensures rng.lo == NegInf && rng.hi == PosInf ==> r == Field
  {
    if Ge(Finite(x), rng.lo) && Le(Finite(x), rng.hi) then Field else Background
  }

  /** `np.where(arr_nan == -1, arr_nan, arr_clamped)` at one pixel. */
  function Mask(repaired: real, clamped: real): (r: real)
    ensures r == Sentinel || r == clamped
    ensures clamped != Sentinel ==> (r == Sentinel <==> repaired == Sentinel)
  {
    if repaired == Sentinel then repaired else clamped
  }

  /**
   * The output pixel of `evaluate_band_vegetation` at a pixel with samples
   * `red` and `nir`: the three-way classification it amounts to.
   */
  function ClassifyPixel(red: real, nir: real, rng: Range): (r: real)
    ensures r == Sentinel || r == Background || r == Field
    ensures r == Sentinel <==> nir == 0.0
    ensures r == Field <==> nir != 0.0 && InRange(Index(red, nir), rng)
    ensures r == Background <==> nir != 0.0 && !InRange(Index(red, nir), rng)
  {
    var repaired := Index(red, nir);
    Mask(repaired, Threshold(repaired, rng))
  }

  // ---------------------------------------------------------------------
  // The whole grid
  // ---------------------------------------------------------------------

  /**
   * `evaluate_band_vegetation(arr_red, arr_nir, range)`, stage by stage as
   * `src/app.py` computes it: divide, repair NaN, threshold, mask. The result
   * has the input's shape and, at every pixel, is the classification of
   * that pixel's own two samples.
   */
  function EvaluateBandVegetation(red: Grid<real>, nir: Grid<real>, rng: Range): (out: Grid<real>)
    requires Rectangular(red) && SameShape(red, nir)
    ensures Rectangular(out) && SameShape(out, red) && SameShape(out, nir)
    ensures forall i, j :: 0 <= i < |out| && 0 <= j < |out[i]| ==>
              out[i][j] == ClassifyPixel(red[i][j], nir[i][j], rng)
    ensures forall i, j :: 0 <= i < |out| && 0 <= j < |out[i]| ==>
              out[i][j] == Sentinel || out[i][j] == Background || out[i][j] == Field
  {
    var ndvi := ZipGrid(red, nir, Ndvi);
    var repaired := MapGrid(ndvi, NanToNum);
    var clamped := MapGrid(repaired, x => Threshold(x, rng));
    var out := ZipGrid(repaired, clamped, Mask);
    assert forall i, j :: 0 <= i < |out| && 0 <= j < |out[i]| ==>
             repaired[i][j] == Index(red[i][j], nir[i][j]);
    out
  }

  // ---------------------------------------------------------------------
  // Properties of one pixel
  // ---------------------------------------------------------------------

  /** A 0/0 pixel (both samples zero) is no-data whatever the range. */
  lemma UndefinedIsSentinel(rng: Range)
    ensures Ndvi(0.0, 0.0) == NaN
    ensures ClassifyPixel(0.0, 0.0, rng) == Sentinel
  {
  }

  /**
   * The sentinel test runs after the range test and overrides it: a pixel
   * whose genuine index is -1 (nir zero, red not) is output as -1 even when
   * the range contains -1, where it would otherwise have been a field.
   */
  lemma GenuineMinusOneIsMasked(red: real, rng: Range)
    requires red != 0.0
    ensures Ndvi(red, 0.0) == Finite(Sentinel)
    ensures Threshold(Index(red, 0.0), rng) == Field <==> InRange(Sentinel, rng)
    ensures ClassifyPixel(red, 0.0, rng) == Sentinel
  {
    MinusOneIffNirZero(red, 0.0);
  }

  /** Both bounds are inclusive: an index equal to either bound is a field. */
  lemma BoundsInclusive(red: real, nir: real, lo: real, hi: real)
    requires nir != 0.0 && lo <= hi
    requires Index(red, nir) == lo || Index(red, nir) == hi
    ensures ClassifyPixel(red, nir, Range(Finite(lo), Finite(hi))) == Field
  {
  }

  /** An index strictly outside finite bounds is not a field. */
  lemma OutsideIsBackground(red: real, nir: real, lo: real, hi: real)
    requires nir != 0.0
    requires Index(red, nir) < lo || Index(red, nir) > hi
    ensures ClassifyPixel(red, nir, Range(Finite(lo), Finite(hi))) == Background
  {
  }

  /**
   * With nonnegative reflectances and the default range [0, 1], a pixel is a
   * field exactly when its near-infrared sample is nonzero and at least its
   * red sample.
   */
  lemma DefaultRangeMeansNirDominates(red: real, nir: real)
    requires red >= 0.0 && nir >= 0.0
    ensures ClassifyPixel(red, nir, DefaultRange) == Field <==> nir != 0.0 && nir >= red
  {
    if nir != 0.0 {
      var q := (nir - red) / (nir + red);
      assert q * (nir + red) == nir - red;
      assert q >= 0.0 <==> nir >= red;
    }
  }

  /**
   * A zero sum with a positive near-infrared sample divides to +inf, which
   * the repair step turns into the largest float32: a field only under an
   * upper bound at least that large.
   */
  lemma InfiniteIndexSaturates(red: real, nir: real, rng: Range)
    requires nir + red == 0.0 && nir > 0.0
    requires rng.lo.Finite? && rng.hi.Finite?
    ensures Index(red, nir) == MaxFloat32
    ensures ClassifyPixel(red, nir, rng) == Field <==> rng.lo.v <= MaxFloat32 <= rng.hi.v
  {
  }

  /** red = 1, nir = 3 gives the index 0.5: a field under [0.2, 0.5], not under [0.6, 0.9]. */
  lemma ScenarioHalf()
    ensures Index(1.0, 3.0) == 0.5
    ensures ClassifyPixel(1.0, 3.0, Range(Finite(0.2), Finite(0.5))) == Field
    ensures ClassifyPixel(1.0, 3.0, Range(Finite(0.6), Finite(0.9))) == Background
  {
  }

  // ---------------------------------------------------------------------
  // Properties of the whole grid
  // ---------------------------------------------------------------------

  /** An output pixel is the sentinel exactly where the near-infrared band is zero. */
  lemma GridSentinelWhereNirZero(red: Grid<real>, nir: Grid<real>, rng: Range, i: nat, j: nat)
    requires Rectangular(red) && SameShape(red, nir)
    requires i < |red| && j < |red[i]|
    ensures EvaluateBandVegetation(red, nir, rng)[i][j] == Sentinel <==> nir[i][j] == 0.0
  {
  }

  /**
   * Pixels are independent: two band pairs that agree at (i, j) give the same
   * output there, whatever they hold elsewhere.
   */
  lemma PixelIndependence(red: Grid<real>, nir: Grid<real>, red': Grid<real>, nir': Grid<real>,
                          rng: Range, i: nat, j: nat)
    requires Rectangular(red) && SameShape(red, nir)
    requires Rectangular(red') && SameShape(red', nir')
    requires i < |red| && j < |red[i]| && i < |red'| && j < |red'[i]|
    requires red[i][j] == red'[i][j] && nir[i][j] == nir'[i][j]
    ensures EvaluateBandVegetation(red, nir, rng)[i][j] == EvaluateBandVegetation(red', nir', rng)[i][j]
  {
  }

  /** The one-pixel scenarios on whole grids: [[1]], [[3]] and [[0]], [[0]]. */
  lemma ScenarioGrids(rng: Range)
    ensures EvaluateBandVegetation([[1.0]], [[3.0]], Range(Finite(0.2), Finite(0.5))) == [[Field]]
    ensures EvaluateBandVegetation([[1.0]], [[3.0]], Range(Finite(0.6), Finite(0.9))) == [[Background]]
    ensures EvaluateBandVegetation([[0.0]], [[0.0]], rng) == [[Sentinel]]
  {
    ScenarioHalf();
    var a := EvaluateBandVegetation([[1.0]], [[3.0]], Range(Finite(0.2), Finite(0.5)));
    assert |a| == 1 && |a[0]| == 1 && a[0][0] == Field;
    assert a[0] == [Field];
    var b := EvaluateBandVegetation([[1.0]], [[3.0]], Range(Finite(0.6), Finite(0.9)));
    assert |b| == 1 && |b[0]| == 1 && b[0][0] == Background;
    assert b[0] == [Background];
    var c := EvaluateBandVegetation([[0.0]], [[0.0]], rng);
    assert |c| == 1 && |c[0]| == 1 && c[0][0] == Sentinel;
    assert c[0] == [Sentinel];
  }
}
