/** Signal extraction: from a detector frame and a registration of four
 *  aligned pupil maps to the normalised slope vectors sx and sy. */
module Signals {
  import opened Results
  import opened Images
  import opened Subapertures

  /** How flux differences are scaled into slopes. */
  datatype Normalization = Quadcell | MeanFluxPerSubap

  /** The string by which the sensor's configuration names a mode. */
  function NormalizationName(mode: Normalization): string
  {
    match mode
    case Quadcell => "QUADCELL"
    case MeanFluxPerSubap => "MEAN_FLUX_PER_SUBAP"
  }

  /** The mode a string names, if any: the inverse of NormalizationName. */
  function ParseNormalization(name: string): (r: Option<Normalization>)
    ensures r.Some? ==> NormalizationName(r.value) == name
    ensures forall mode :: NormalizationName(mode) == name ==> r == Some(mode)
  {
    if name == "QUADCELL" then Some(Quadcell)
    else if name == "MEAN_FLUX_PER_SUBAP" then Some(MeanFluxPerSubap)
    else None
  }

  /** A measurement: one x and one y slope per sub-aperture. */
  datatype Slopes = Slopes(sx: seq<real>, sy: seq<real>)

  /** The divisor applied to each sub-aperture: its own flux (QUADCELL) or the
   *  mean flux per sub-aperture, the same for all (MEAN_FLUX_PER_SUBAP). */
  function Divisor(mode: Normalization, flux: seq<real>): (d: seq<real>)
    ensures |d| == |flux|
    ensures mode == Quadcell ==> d == flux
    ensures mode == MeanFluxPerSubap && Sum(flux) > 0.0 ==>
      forall k :: 0 <= k < |d| ==> d[k] == Sum(flux) / (|flux| as real) && d[k] > 0.0
  {
    match mode
    case Quadcell => flux
    case MeanFluxPerSubap => seq(|flux|, k requires 0 <= k < |flux| => Sum(flux) / (|flux| as real))
  }

  /** The frame can be normalised: in QUADCELL mode a frame with photons has
   *  photons in every sub-aperture (the sensor does not guard that division). */
  predicate Normalisable(mode: Normalization, frame: seq<real>, masks: seq<seq<bool>>, n: nat)
    requires Aligned(frame, masks, n)
  {
    mode == Quadcell && Sum(FluxSum(frame, masks, n)) > 0.0 ==>
      forall k :: 0 <= k < n ==> FluxSum(frame, masks, n)[k] != 0.0
  }

  /** Slopes from the four pixel vectors of the sub-apertures and their
   *  divisors: x = (f3 + f2 - f1 - f0) / d and y = (f1 + f3 - f0 - f2) / d. */
  function DiagonalSlopes(f0: seq<real>, f1: seq<real>, f2: seq<real>, f3: seq<real>, d: seq<real>): (s: Slopes)
    requires |f0| == |d| && |f1| == |d| && |f2| == |d| && |f3| == |d|
    requires forall k :: 0 <= k < |d| ==> d[k] != 0.0
    ensures |s.sx| == |d| && |s.sy| == |d|
  {
    Slopes(seq(|d|, k requires 0 <= k < |d| => (f3[k] + f2[k] - f1[k] - f0[k]) / d[k]),
           seq(|d|, k requires 0 <= k < |d| => (f1[k] + f3[k] - f0[k] - f2[k]) / d[k]))
  }

  /** The slopes the sensor computes from a frame: zero vectors when the frame
   *  has no photons, otherwise the diagonal quadrant differences over the
   *  divisor of the chosen mode. */
  function Measure(frame: seq<real>, masks: seq<seq<bool>>, n: nat, mode: Normalization): (s: Slopes)
    requires Aligned(frame, masks, n) && Normalisable(mode, frame, masks, n)
    ensures |s.sx| == n && |s.sy| == n
  {
    var flux := FluxSum(frame, masks, n);
    if Sum(flux) > 0.0 then
      DiagonalSlopes(Select(frame, masks[0]), Select(frame, masks[1]),
                     Select(frame, masks[2]), Select(frame, masks[3]), Divisor(mode, flux))
    else
      Slopes(Zeros(n), Zeros(n))
  }

  /** A frame without photons yields zero slopes of the registration's length. */
  lemma MeasureDark(frame: seq<real>, masks: seq<seq<bool>>, n: nat, mode: Normalization)
    requires Aligned(frame, masks, n)
    requires forall p :: 0 <= p < |frame| ==> frame[p] == 0.0
    ensures Normalisable(mode, frame, masks, n)
    ensures Measure(frame, masks, n, mode) == Slopes(Zeros(n), Zeros(n))
  {
    FluxSumDark(frame, masks, n);
    SumZeros(n);
  }

  /** Whenever the total flux is not positive the slopes are zero vectors of
   *  the registration's length. */
  lemma MeasureNoFlux(frame: seq<real>, masks: seq<seq<bool>>, n: nat, mode: Normalization)
    requires Aligned(frame, masks, n) && Normalisable(mode, frame, masks, n)
    requires Sum(FluxSum(frame, masks, n)) <= 0.0
    ensures Measure(frame, masks, n, mode) == Slopes(Zeros(n), Zeros(n))
  {
  }

  /** Slope k of a frame with photons relates the four pixels of rank k:
   *  sx = (f3 + f2 - f1 - f0) / d and sy = (f1 + f3 - f0 - f2) / d, where the
   *  divisor d is non-zero: the sum of the four pixels in QUADCELL mode, the
   *  total flux over n in MEAN_FLUX_PER_SUBAP mode. */
  lemma MeasureAt(frame: seq<real>, masks: seq<seq<bool>>, n: nat, mode: Normalization, k: nat)
    requires Aligned(frame, masks, n) && Normalisable(mode, frame, masks, n) && k < n
    requires Sum(FluxSum(frame, masks, n)) > 0.0
    ensures
      var f0, f1 := Select(frame, masks[0])[k], Select(frame, masks[1])[k];
      var f2, f3 := Select(frame, masks[2])[k], Select(frame, masks[3])[k];
      var d := if mode == Quadcell then f0 + f1 + f2 + f3
               else Sum(FluxSum(frame, masks, n)) / (n as real);
      d != 0.0 &&
      Measure(frame, masks, n, mode).sx[k] == (f3 + f2 - f1 - f0) / d &&
      Measure(frame, masks, n, mode).sy[k] == (f1 + f3 - f0 - f2) / d
  {
    FluxOfFour(frame, masks, n, k);
  }

  lemma RatioBound(x: real, s: real)
    requires s > 0.0 && -s <= x <= s
    ensures -1.0 <= x / s <= 1.0
  {
    assert x / s * s == x;
  }

  /** In QUADCELL mode the slopes of a non-negative frame lie in [-1, 1]. */
  lemma QuadcellBounded(frame: seq<real>, masks: seq<seq<bool>>, n: nat, k: nat)
    requires Aligned(frame, masks, n) && Normalisable(Quadcell, frame, masks, n) && k < n
    requires forall p :: 0 <= p < |frame| ==> frame[p] >= 0.0
    ensures -1.0 <= Measure(frame, masks, n, Quadcell).sx[k] <= 1.0
    ensures -1.0 <= Measure(frame, masks, n, Quadcell).sy[k] <= 1.0
  {
    if Sum(FluxSum(frame, masks, n)) > 0.0 {
      MeasureAt(frame, masks, n, Quadcell, k);
      var f0, f1 := Select(frame, masks[0]), Select(frame, masks[1]);
      var f2, f3 := Select(frame, masks[2]), Select(frame, masks[3]);
      SelectNonNegative(frame, masks[0]);
      SelectNonNegative(frame, masks[1]);
      SelectNonNegative(frame, masks[2]);
      SelectNonNegative(frame, masks[3]);
      var d := f0[k] + f1[k] + f2[k] + f3[k];
      RatioBound(f3[k] + f2[k] - f1[k] - f0[k], d);
      RatioBound(f1[k] + f3[k] - f0[k] - f2[k], d);
    }
  }

  /** The slopes do not depend on the overall flux level: scaling every pixel
   *  by c > 0 (a different source brightness or detector gain) leaves them
   *  unchanged. */
  lemma MeasureScaleInvariant(frame: seq<real>, masks: seq<seq<bool>>, n: nat, mode: Normalization, c: real)
    requires Aligned(frame, masks, n) && Normalisable(mode, frame, masks, n) && c > 0.0
    ensures Aligned(Scale(frame, c), masks, n) && Normalisable(mode, Scale(frame, c), masks, n)
    ensures Measure(Scale(frame, c), masks, n, mode) == Measure(frame, masks, n, mode)
  {
    ScaledNormalisable(frame, masks, n, mode, c);
    var flux := FluxSum(frame, masks, n);
    PositiveProduct(c, Sum(flux));
    if Sum(flux) > 0.0 {
      SelectScale(frame, masks[0], c);
      SelectScale(frame, masks[1], c);
      SelectScale(frame, masks[2], c);
      SelectScale(frame, masks[3], c);
      DivisorScale(mode, flux, c);
      DiagonalSlopesScale(Select(frame, masks[0]), Select(frame, masks[1]),
                          Select(frame, masks[2]), Select(frame, masks[3]), Divisor(mode, flux), c);
    }
  }

  lemma ScaledNormalisable(frame: seq<real>, masks: seq<seq<bool>>, n: nat, mode: Normalization, c: real)
    requires Aligned(frame, masks, n) && Normalisable(mode, frame, masks, n) && c > 0.0
    ensures Aligned(Scale(frame, c), masks, n)
    ensures FluxSum(Scale(frame, c), masks, n) == Scale(FluxSum(frame, masks, n), c)
    ensures Sum(FluxSum(Scale(frame, c), masks, n)) == c * Sum(FluxSum(frame, masks, n))
    ensures Normalisable(mode, Scale(frame, c), masks, n)
  {
    var flux := FluxSum(frame, masks, n);
    FluxSumScale(frame, masks, n, c);
    var flux' := FluxSum(Scale(frame, c), masks, n);
    SumScale(flux, c);
    PositiveProduct(c, Sum(flux));
    if mode == Quadcell && Sum(flux') > 0.0 {
      forall k | 0 <= k < n
        ensures flux'[k] != 0.0
      {
        assert flux'[k] == c * flux[k];
        PositiveProduct(c, flux[k]);
      }
    }
  }

  /** Scaling the flux by c scales the divisor of either mode by c. */
  lemma DivisorScale(mode: Normalization, flux: seq<real>, c: real)
    ensures Divisor(mode, Scale(flux, c)) == Scale(Divisor(mode, flux), c)
  {
    if mode == MeanFluxPerSubap {
      SumScale(flux, c);
      var a, b := Divisor(mode, Scale(flux, c)), Scale(Divisor(mode, flux), c);
      forall k | 0 <= k < |flux|
        ensures a[k] == b[k]
      {
        ScaledMean(Sum(flux), Sum(Scale(flux, c)), |flux| as real, c);
      }
    }
  }

  /** Scaling the four pixel vectors and the divisors by c > 0 leaves the slopes
   *  unchanged. */
  lemma DiagonalSlopesScale(f0: seq<real>, f1: seq<real>, f2: seq<real>, f3: seq<real>, d: seq<real>, c: real)
    requires |f0| == |d| && |f1| == |d| && |f2| == |d| && |f3| == |d| && c > 0.0
    requires forall k :: 0 <= k < |d| ==> d[k] != 0.0
    ensures forall k :: 0 <= k < |d| ==> Scale(d, c)[k] != 0.0
    ensures DiagonalSlopes(Scale(f0, c), Scale(f1, c), Scale(f2, c), Scale(f3, c), Scale(d, c))
         == DiagonalSlopes(f0, f1, f2, f3, d)
  {
    var g0, g1, g2, g3, e := Scale(f0, c), Scale(f1, c), Scale(f2, c), Scale(f3, c), Scale(d, c);
    forall k | 0 <= k < |d|
      ensures e[k] != 0.0
    {
      PositiveProduct(c, d[k]);
    }
    var a, b := DiagonalSlopes(g0, g1, g2, g3, e), DiagonalSlopes(f0, f1, f2, f3, d);
    forall k | 0 <= k < |d|
      ensures a.sx[k] == b.sx[k] && a.sy[k] == b.sy[k]
    {
      ScaledQuotients(c, f0[k], f1[k], f2[k], f3[k], d[k], g0[k], g1[k], g2[k], g3[k], e[k]);
    }
    assert a.sx == b.sx && a.sy == b.sy;
  }

  lemma PositiveProduct(c: real, x: real)
    requires c > 0.0
    ensures c * x > 0.0 <==> x > 0.0
    ensures c * x != 0.0 <==> x != 0.0
  {
  }

  lemma ScaledSums(c: real, f0: real, f1: real, f2: real, f3: real,
                   g0: real, g1: real, g2: real, g3: real)
    requires g0 == c * f0 && g1 == c * f1 && g2 == c * f2 && g3 == c * f3
    ensures g3 + g2 - g1 - g0 == c * (f3 + f2 - f1 - f0)
    ensures g1 + g3 - g0 - g2 == c * (f1 + f3 - f0 - f2)
    ensures g0 + g1 + g2 + g3 == c * (f0 + f1 + f2 + f3)
  {
  }

  lemma ScaledQuotients(c: real, f0: real, f1: real, f2: real, f3: real, d: real,
                        g0: real, g1: real, g2: real, g3: real, e: real)
    requires c > 0.0 && d != 0.0 && e == c * d
    requires g0 == c * f0 && g1 == c * f1 && g2 == c * f2 && g3 == c * f3
    ensures (g3 + g2 - g1 - g0) / e == (f3 + f2 - f1 - f0) / d
    ensures (g1 + g3 - g0 - g2) / e == (f1 + f3 - f0 - f2) / d
  {
    ScaledSums(c, f0, f1, f2, f3, g0, g1, g2, g3);
    CancelFactor(f3 + f2 - f1 - f0, d, g3 + g2 - g1 - g0, e, c);
    CancelFactor(f1 + f3 - f0 - f2, d, g1 + g3 - g0 - g2, e, c);
  }

  lemma ScaledMean(t: real, t': real, n: real, c: real)
    requires t' == c * t && n > 0.0
    ensures t' / n == c * (t / n)
  {
  }

  lemma CancelFactor(x: real, d: real, x': real, d': real, c: real)
    requires d != 0.0 && c > 0.0 && x' == c * x && d' == c * d
    ensures x' / d' == x / d
  {
  }
}
