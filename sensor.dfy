/** The pyramid wavefront sensor: its registration state, the calibration
 *  that establishes it, the signal processing run on every frame and the
 *  accessors for the resulting measurement. */
module Sensor {
  import opened Results
  import opened Images
  import opened Subapertures
  import opened Signals
  import opened Registration

  /** A measurement as handed out: one vector, or the list [sx, sy]. */
  datatype Output = Vector(v: seq<real>) | Pair(sx: seq<real>, sy: seq<real>)

  /** How a calibration ended: registered, or refused because the four masks
   *  selected different numbers of pixels. */
  datatype Calibration = Registered | CountMismatch(counts: seq<nat>)

  /** The slope pair in the requested format: "vector" concatenates sx and sy,
   *  "list" keeps them apart, anything else is refused. */
  function Render(sx: seq<real>, sy: seq<real>, format: string): (r: Result<Output>)
    ensures r.Ok? <==> format == "vector" || format == "list"
    ensures r.Err? ==> r.error == UnsupportedFormat(format)
    ensures format == "list" ==> r == Ok(Pair(sx, sy))
    ensures format == "vector" ==> r.Ok? && r.value.Vector? && |r.value.v| == |sx| + |sy|
    ensures format == "vector" ==>
      (forall k :: 0 <= k < |sx| ==> r.value.v[k] == sx[k]) &&
      (forall k :: 0 <= k < |sy| ==> r.value.v[|sx| + k] == sy[k])
  {
    if format == "vector" then Ok(Vector(sx + sy))
    else if format == "list" then Ok(Pair(sx, sy))
    else Err(UnsupportedFormat(format))
  }

  /** The vector format can be split back into the two slope vectors. */
  lemma RenderSplit(sx: seq<real>, sy: seq<real>)
    ensures Render(sx, sy, "vector").value.v[..|sx|] == sx
    ensures Render(sx, sy, "vector").value.v[|sx|..] == sy
  {
    var v := Render(sx, sy, "vector").value.v;
    assert v[..|sx|] == sx;
    assert v[|sx|..] == sy;
  }

  /** The values written at the n selected pixels: v itself when it has n
   *  entries, and its single entry repeated when it has one (numpy's
   *  broadcast). */
  function Broadcast(v: seq<real>, n: nat): (b: seq<real>)
    requires |v| == n || |v| == 1
    ensures |b| == n
    ensures |v| == n ==> b == v
    ensures |v| == 1 ==> forall k :: 0 <= k < n ==> b[k] == v[0]
  {
    if |v| == n then v else seq(n, _ => v[0])
  }

  /** The top-left h x h corner of a square row-major image. */
  function Crop(img: seq<real>, side: nat, h: nat): (c: seq<seq<real>>)
    requires |img| == side * side && h <= side
    ensures |c| == h && forall r :: 0 <= r < h ==> |c[r]| == h
  {
    seq(h, r requires 0 <= r < h =>
      seq(h, col requires 0 <= col < h => PixelIndex(side, r, col); img[r * side + col]))
  }

  /** Entry (r, col) of the cropped scatter of v over m is the value of the
   *  selected pixel r * side + col, by its rank in m, and zero elsewhere. */
  lemma CropScatterAt(v: seq<real>, m: seq<bool>, side: nat, r: nat, col: nat)
    requires |m| == side * side && |v| == Count(m) && r < side / 2 && col < side / 2
    ensures r * side + col < |m|
    ensures m[r * side + col] ==> CountTo(m, r * side + col) < |v|
    ensures Crop(Scatter(v, m), side, side / 2)[r][col]
         == if m[r * side + col] then v[CountTo(m, r * side + col)] else 0.0
  {
    PixelIndex(side, r, col);
    ScatterAt(v, m, r * side + col);
  }

  /** Writes v into a zero image at the pixels of m, in row-major order
   *  (`img[m] = v`). */
  method ScatterImage(v: seq<real>, m: seq<bool>) returns (img: array<real>)
    requires |v| == Count(m)
    ensures fresh(img) && img[..] == Scatter(v, m)
  {
    img := new real[|m|](_ => 0.0);
    var p, k := 0, 0;
    while p < img.Length
      invariant 0 <= p <= img.Length
      invariant k == CountTo(m, p) && k <= |v|
      invariant img[..p] == ScatterTo(v, m, p)
      invariant forall j :: p <= j < img.Length ==> img[j] == 0.0
    {
      CountToMonotone(m, p + 1, |m|);
      if m[p] {
        img[p] := v[k];
        k := k + 1;
      }
      assert img[..p + 1] == img[..p] + [img[p]];
      p := p + 1;
    }
    assert img[..] == img[..p];
  }

  /** The scatter of v over m, cropped to the top-left quarter (`img[0:h, 0:h]`). */
  method Reshape(v: seq<real>, m: seq<bool>, side: nat) returns (crop: seq<seq<real>>)
    requires |m| == side * side && |v| == Count(m)
    ensures crop == Crop(Scatter(v, m), side, side / 2)
  {
    var img := ScatterImage(v, m);
    crop := Crop(img[..], side, side / 2);
  }

  /** The reference frame can be processed in the given mode with the
   *  registration the calibration frame yields, whenever it yields one. */
  predicate ReferenceNormalisable(mode: Normalization, calibFrame: seq<real>, refFrame: seq<real>,
                                  side: nat, nSideLenslet: nat, percentExtra: real, thr: real)
    requires |calibFrame| == side * side && |refFrame| == |calibFrame|
  {
    var masks := CalibrationMasks(calibFrame, side, nSideLenslet, percentExtra);
    if AllEqual(Counts(masks)) then
      EqualCountsAligned(calibFrame, masks);
      RefineAligned(calibFrame, refFrame, masks, Count(masks[0]), thr);
      Normalisable(mode, refFrame,
                   Refine(calibFrame, masks, Count(masks[0]), thr),
                   RefinedCount(calibFrame, masks, Count(masks[0]), thr))
    else true
  }

  class PyramidWFS {
    /** Lenslets across the pupil, and pixels across the square detector. */
    const nSideLenslet: nat
    const nPxFrame: nat

    var modulation: real
    var modulationSampling: int
    var subapNorm: Normalization
    /** The last detector frame read out. */
    var ccdFrame: seq<real>
    /** Whether a calibration has registered the pupils; before that the
     *  sensor has no pupil maps and cannot process frames. */
    var registered: bool
    /** The four pupil maps of the registration. */
    var indpup: seq<seq<bool>>
    /** The number of sub-apertures per pupil. */
    var nSspp: nat
    var measurement: Slopes
    var refMeasurement: Slopes

    /** The frame fills the detector; once registered, the maps are aligned on
     *  it and both measurements have one slope per sub-aperture. */
    predicate Valid()
      reads this
    {
      |ccdFrame| == nPxFrame * nPxFrame &&
      (registered ==>
         Aligned(ccdFrame, indpup, nSspp) &&
         |measurement.sx| == nSspp && |measurement.sy| == nSspp &&
         |refMeasurement.sx| == nSspp && |refMeasurement.sy| == nSspp)
    }

    /** A new sensor reading the camera's frame, normalising by the mean flux
     *  per sub-aperture. */
    constructor (nSideLenslet: nat, nPxFrame: nat, modulation: real, modulationSampling: int, frame: seq<real>)
      requires |frame| == nPxFrame * nPxFrame
      ensures Valid() && !registered
      ensures this.nSideLenslet == nSideLenslet && this.nPxFrame == nPxFrame
      ensures this.modulation == modulation && this.modulationSampling == modulationSampling
      ensures subapNorm == MeanFluxPerSubap && ccdFrame == frame
    {
      this.nSideLenslet, this.nPxFrame := nSideLenslet, nPxFrame;
      this.modulation, this.modulationSampling := modulation, modulationSampling;
      subapNorm := MeanFluxPerSubap;
      ccdFrame := frame;
      registered := false;
      indpup, nSspp := [], 0;
      measurement, refMeasurement := Slopes([], []), Slopes([], []);
    }

    /** The name of the normalisation mode. */
    function SignalNormalization(): (name: string)
      reads this
      ensures ParseNormalization(name) == Some(subapNorm)
    {
      NormalizationName(subapNorm)
    }

    /** Selects the normalisation mode by name; an unknown name is refused and
     *  the mode kept. */
    method SetSignalNormalization(name: string) returns (r: Result<Normalization>)
      modifies this
      ensures r.Ok? <==> name == "QUADCELL" || name == "MEAN_FLUX_PER_SUBAP"
      ensures r.Ok? ==> subapNorm == r.value && SignalNormalization() == name
      ensures r.Err? ==> subapNorm == old(subapNorm) && r.error == UnsupportedNormalization(name)
      ensures modulation == old(modulation) && modulationSampling == old(modulationSampling)
      ensures ccdFrame == old(ccdFrame) && registered == old(registered) && indpup == old(indpup)
      ensures nSspp == old(nSspp) && measurement == old(measurement) && refMeasurement == old(refMeasurement)
    {
      match ParseNormalization(name)
      case Some(mode) =>
        subapNorm := mode;
        r := Ok(mode);
      case None =>
        r := Err(UnsupportedNormalization(name));
    }

    /** Computes the slopes of the current frame: the flux accumulated map by
     *  map, zero slopes when it has no photons, otherwise the diagonal
     *  differences over the divisor of the current mode. */
    method Process()
      requires Valid() && registered && Normalisable(subapNorm, ccdFrame, indpup, nSspp)
      modifies this
      ensures modulation == old(modulation) && modulationSampling == old(modulationSampling)
      ensures subapNorm == old(subapNorm) && ccdFrame == old(ccdFrame) && registered == old(registered)
      ensures indpup == old(indpup) && nSspp == old(nSspp) && refMeasurement == old(refMeasurement)
      ensures Valid()
      ensures measurement == Measure(ccdFrame, indpup, nSspp, subapNorm)
    {
      var flux := AccumulateFlux(ccdFrame, indpup, nSspp);
      var totFlux := Sum(flux);
      if totFlux > 0.0 {
        var norm := Divisor(subapNorm, flux);
        measurement := DiagonalSlopes(Select(ccdFrame, indpup[0]), Select(ccdFrame, indpup[1]),
                                      Select(ccdFrame, indpup[2]), Select(ccdFrame, indpup[3]), norm);
      } else {
        measurement := Slopes(Zeros(nSspp), Zeros(nSspp));
      }
    }

    /** Reads out a new frame taken with the current modulation and processes it. */
    method Analyze(propagate: (real, int) -> seq<real>)
      requires Valid() && registered
      requires |propagate(modulation, modulationSampling)| == nPxFrame * nPxFrame
      requires Aligned(propagate(modulation, modulationSampling), indpup, nSspp)
      requires Normalisable(subapNorm, propagate(modulation, modulationSampling), indpup, nSspp)
      modifies this
      ensures modulation == old(modulation) && modulationSampling == old(modulationSampling)
      ensures subapNorm == old(subapNorm) && registered == old(registered)
      ensures indpup == old(indpup) && nSspp == old(nSspp) && refMeasurement == old(refMeasurement)
      ensures ccdFrame == propagate(modulation, modulationSampling)
      ensures Valid()
      ensures measurement == Measure(ccdFrame, indpup, nSspp, subapNorm)
    {
      ccdFrame := propagate(modulation, modulationSampling);
      Process();
    }

    /** Registers the four pupils on a frame taken with the calibration
     *  modulation: circular masks around the quadrants' centres of mass,
     *  refused unless all four select equally many pixels, optionally refined
     *  by a flux threshold; then measures the reference on a frame taken with
     *  the sensor's own modulation, which is restored first. */
    method Calibrate(propagate: (real, int) -> seq<real>, calibModulation: real, calibModulationSampling: int,
                     percentExtra: real, thr: real) returns (outcome: Calibration)
      requires Valid()
      requires |propagate(calibModulation, calibModulationSampling)| == nPxFrame * nPxFrame
      requires |propagate(modulation, modulationSampling)| == nPxFrame * nPxFrame
      requires ReferenceNormalisable(subapNorm, propagate(calibModulation, calibModulationSampling),
                                     propagate(modulation, modulationSampling),
                                     nPxFrame, nSideLenslet, percentExtra, thr)
      modifies this
      ensures Valid()
      ensures modulation == old(modulation) && modulationSampling == old(modulationSampling)
      ensures subapNorm == old(subapNorm)
      ensures
        var masks := CalibrationMasks(propagate(calibModulation, calibModulationSampling),
                                      nPxFrame, nSideLenslet, percentExtra);
        outcome == if AllEqual(Counts(masks)) then Registered else CountMismatch(Counts(masks))
      ensures outcome.CountMismatch? ==>
        ccdFrame == propagate(calibModulation, calibModulationSampling) &&
        registered == old(registered) && indpup == old(indpup) && nSspp == old(nSspp) &&
        measurement == old(measurement) && refMeasurement == old(refMeasurement)
      ensures outcome.Registered? ==>
        var calibFrame := propagate(calibModulation, calibModulationSampling);
        var masks := CalibrationMasks(calibFrame, nPxFrame, nSideLenslet, percentExtra);
        registered && Aligned(calibFrame, masks, Count(masks[0])) &&
        indpup == Refine(calibFrame, masks, Count(masks[0]), thr) &&
        nSspp == Count(indpup[0]) && nSspp == RefinedCount(calibFrame, masks, Count(masks[0]), thr) &&
        ccdFrame == propagate(modulation, modulationSampling) &&
        measurement == Measure(ccdFrame, indpup, nSspp, subapNorm) &&
        refMeasurement == measurement
    {
      var savedModulation, savedSampling := modulation, modulationSampling;
      modulation, modulationSampling := calibModulation, calibModulationSampling;
      ccdFrame := propagate(modulation, modulationSampling);
      modulation, modulationSampling := savedModulation, savedSampling;
      var frame := ccdFrame;
      var counts, refined := Register(frame, nPxFrame, nSideLenslet, percentExtra, thr);
      if !AllEqual(counts) {
        outcome := CountMismatch(counts);
        return;
      }
      ghost var masks := CalibrationMasks(frame, nPxFrame, nSideLenslet, percentExtra);
      ghost var refFrame := propagate(modulation, modulationSampling);
      RefineAligned(frame, refFrame, masks, Count(masks[0]), thr);
      StoreRegistration(refined, propagate);
      outcome := Registered;
    }

    /** Stores a registration, then analyses a frame taken with the current
     *  modulation and keeps its measurement as the reference. */
    method StoreRegistration(pupils: seq<seq<bool>>, propagate: (real, int) -> seq<real>)
      requires Valid() && |pupils| == 4
      requires |propagate(modulation, modulationSampling)| == nPxFrame * nPxFrame
      requires Aligned(propagate(modulation, modulationSampling), pupils, Count(pupils[0]))
      requires Normalisable(subapNorm, propagate(modulation, modulationSampling), pupils, Count(pupils[0]))
      modifies this
      ensures modulation == old(modulation) && modulationSampling == old(modulationSampling)
      ensures subapNorm == old(subapNorm) && registered
      ensures indpup == pupils && nSspp == Count(pupils[0])
      ensures ccdFrame == propagate(modulation, modulationSampling)
      ensures Valid()
      ensures measurement == Measure(ccdFrame, indpup, nSspp, subapNorm)
      ensures refMeasurement == measurement
    {
      indpup := pupils;
      nSspp := Count(indpup[0]);
      registered := true;
      measurement, refMeasurement := Slopes(Zeros(nSspp), Zeros(nSspp)), Slopes(Zeros(nSspp), Zeros(nSspp));
      Analyze(propagate);
      refMeasurement := measurement;
    }

    /** The measurement minus the reference, in the requested format. */
    function GetMeasurement(format: string): (r: Result<Output>)
      reads this
      requires Valid() && registered
      ensures r.Ok? <==> format == "vector" || format == "list"
      ensures format == "vector" ==> r.Ok? && r.value.Vector? && |r.value.v| == MeasurementSize()
      ensures format == "vector" ==> forall k :: 0 <= k < nSspp ==>
        r.value.v[k] == measurement.sx[k] - refMeasurement.sx[k] &&
        r.value.v[nSspp + k] == measurement.sy[k] - refMeasurement.sy[k]
      ensures format == "list" ==>
        r.Ok? && r.value.Pair? && |r.value.sx| == nSspp && |r.value.sy| == nSspp &&
        forall k :: 0 <= k < nSspp ==>
          r.value.sx[k] == measurement.sx[k] - refMeasurement.sx[k] &&
          r.value.sy[k] == measurement.sy[k] - refMeasurement.sy[k]
    {
      Render(Subtract(measurement.sx, refMeasurement.sx), Subtract(measurement.sy, refMeasurement.sy), format)
    }

    /** The reference measurement, in the requested format. */
    function GetRefMeasurement(format: string): (r: Result<Output>)
      reads this
      requires Valid() && registered
      ensures r.Ok? <==> format == "vector" || format == "list"
      ensures format == "vector" ==> r.Ok? && r.value.Vector? && |r.value.v| == MeasurementSize()
      ensures format == "vector" ==> forall k :: 0 <= k < nSspp ==>
        r.value.v[k] == refMeasurement.sx[k] && r.value.v[nSspp + k] == refMeasurement.sy[k]
      ensures format == "list" ==> r == Ok(Pair(refMeasurement.sx, refMeasurement.sy))
    {
      Render(refMeasurement.sx, refMeasurement.sy, format)
    }

    /** The x slopes relative to the reference. */
    function GetSx(): (sx: seq<real>)
      reads this
      requires Valid() && registered
      ensures |sx| == nSspp && forall k :: 0 <= k < nSspp ==> sx[k] == measurement.sx[k] - refMeasurement.sx[k]
    {
      GetMeasurement("list").value.sx
    }

    /** The y slopes relative to the reference. */
    function GetSy(): (sy: seq<real>)
      reads this
      requires Valid() && registered
      ensures |sy| == nSspp && forall k :: 0 <= k < nSspp ==> sy[k] == measurement.sy[k] - refMeasurement.sy[k]
    {
      GetMeasurement("list").value.sy
    }

    /** The number of entries of the measurement vector. */
    function MeasurementSize(): (size: nat)
      reads this
      requires Valid() && registered
      ensures size == |measurement.sx| + |measurement.sy|
      ensures size == |refMeasurement.sx| + |refMeasurement.sy|
    {
      nSspp * 2
    }

    /** Right after calibration the measurement equals the reference, so every
     *  relative slope is zero. */
    lemma ReferenceCancels()
      requires Valid() && registered && measurement == refMeasurement
      ensures GetMeasurement("vector") == Ok(Vector(Zeros(MeasurementSize())))
      ensures GetSx() == Zeros(nSspp) && GetSy() == Zeros(nSspp)
    {
      assert GetMeasurement("vector").value.v == Zeros(MeasurementSize());
    }

    /** The x slopes (the given ones, or the sensor's) laid out on the pixels
     *  of the first pupil map, cropped to the top-left quarter of the detector. */
    method GetSx2d(values: Option<seq<real>>) returns (img: seq<seq<real>>)
      requires Valid() && registered
      requires values.Some? ==> |values.value| == nSspp || |values.value| == 1
      ensures img == Crop(Scatter(Broadcast(if values.Some? then values.value else GetSx(), nSspp), indpup[0]),
                          nPxFrame, nPxFrame / 2)
    {
      var v := if values.Some? then values.value else GetSx();
      img := Reshape(Broadcast(v, nSspp), indpup[0], nPxFrame);
    }

    /** The y slopes laid out like GetSx2d. */
    method GetSy2d(values: Option<seq<real>>) returns (img: seq<seq<real>>)
      requires Valid() && registered
      requires values.Some? ==> |values.value| == nSspp || |values.value| == 1
      ensures img == Crop(Scatter(Broadcast(if values.Some? then values.value else GetSy(), nSspp), indpup[0]),
                          nPxFrame, nPxFrame / 2)
    {
      var v := if values.Some? then values.value else GetSy();
      img := Reshape(Broadcast(v, nSspp), indpup[0], nPxFrame);
    }
  }
}
