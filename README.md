# Pyramid wavefront sensor: pupil registration and slope extraction

This project models the signal pipeline of the `PyramidWFS` class of the CEO
optics package (`python/ceo/sensors/PyramidWFS.py`) and proves its
properties.

A pyramid wavefront sensor splits the light of a guide star into four
sub-pupil images on a square detector. The sensor works in three stages:

- **Registration (`calibrate`).** It finds the four pupil images and draws a
  circular mask around each. When the four masks select equally many pixels,
  it optionally drops the dim sub-apertures by a flux threshold. It stores the
  masks and measures a reference.
- **Processing (`process`).** For every later frame, it combines the four
  pixels of each sub-aperture into an x and a y slope, normalised in one of
  two modes.
- **Accessors.** They hand out the slopes relative to the reference, either
  as one vector or as a pair, or laid out as an image.

Modules:

- `Results`: `Option`, `Result` and the two error cases. These are the
  rejected output format and the rejected normalisation name.
- `Images`: images as flat row-major sequences (pixel (row, col) is element
  `row * side + col`), with these operations:
  - boolean-mask selection (`frame[mask]`) as `Select`;
  - the rank of a selected pixel as `CountTo`;
  - the in-place `mask[mask] *= keep` as `Retain`;
  - the write `img[mask] = v` as `Scatter`;
  - elementwise vectors and sums.
- `Subapertures`: the registration invariant. Four maps select the same
  number `n` of pixels, and sub-aperture k is the rank-k pixel of every map.
  Also the flux per sub-aperture, accumulated map by map.
- `Signals`: the normalisation modes, the divisor and the slopes of a frame
  (`Measure`), with the lemmas for the dark frame, the per-sub-aperture
  formula, the QUADCELL bound and flux-scale invariance.
- `Registration`: everything `calibrate` computes before it stores its
  result:
  - Python's round-half-even rounding;
  - the quadrant labels;
  - the intensity-weighted centres of mass;
  - the circular masks;
  - the equal-count check;
  - the threshold refinement, both as pure functions and as in-place array
    methods.
- `Sensor`: the `PyramidWFS` class. Its fields are the modulation settings,
  the normalisation mode, the last frame, the pupil maps, `nSspp`, the
  measurement and the reference. Its methods are `Calibrate`, `Process`,
  `Analyze`, the normalisation setter and the accessors.

The optical propagation is a function parameter,
`propagate: (real, int) -> seq<real>`. It maps the modulation radius and
sampling in force to the detector frame read out after propagation. The
calibration frame is therefore `propagate(calibModulation,
calibModulationSampling)`. The reference frame is `propagate(modulation,
modulationSampling)`, taken after the settings have been restored.

Line 74 pairs the pixel's column (`xx`, from `meshgrid` in its default `'xy'`
indexing) with `centers[k][0]`, which is the row coordinate returned by
`center_of_mass`. It pairs the row with `centers[k][1]`. The model keeps this
pairing exactly as written (`Registration.InCircle`, `Registration.CircularMaskAt`).

## Model

| member | source | states |
|---|---|---|
| Images.Select | python/ceo/sensors/PyramidWFS.py:136 | `frame[mask]` as a function: one value per selected pixel, so its length is the mask's count (its entries are stated by SelectAt) |
| Images.Retain | python/ceo/sensors/PyramidWFS.py:99 | `mask[mask] *= keep` as a function: keep flags are indexed by rank, and the result has the mask's length (its pixels are stated by RetainAt) |
| Images.Scatter | python/ceo/sensors/PyramidWFS.py:211-212 | `img[mask] = v` on a zero image, taking one value per selected pixel and giving an image of the mask's length (its pixels are stated by ScatterAt) |
| Images.SelectAt | python/ceo/sensors/PyramidWFS.py:136 | the selection `frame[mask]` has one entry per selected pixel, in row-major order: entry CountTo(m, p) is the value of selected pixel p |
| Images.RetainAt | python/ceo/sensors/PyramidWFS.py:99 | after `subpup[subpup] *= thridx` a pixel is set iff it was set and the keep flag of its rank is true |
| Images.RetainCount | python/ceo/sensors/PyramidWFS.py:99 | after clearing by keep flags a mask selects exactly as many pixels as there are true flags |
| Images.SelectRetain | python/ceo/sensors/PyramidWFS.py:99 | selecting through the cleared mask equals selecting through the old mask and then keeping the flagged entries |
| Images.RetainAll | python/ceo/sensors/PyramidWFS.py:99 | all-true keep flags leave the mask unchanged |
| Images.ScatterAt | python/ceo/sensors/PyramidWFS.py:211-212 | writing v into a zero image at the mask puts v's rank-k entry at the mask's rank-k pixel and zero everywhere else |
| Images.SelectScatter | python/ceo/sensors/PyramidWFS.py:212 | reading the scattered image back through the same mask gives v back |
| Images.SumNonNegative | python/ceo/sensors/PyramidWFS.py:91 | a sum of non-negative fluxes is non-negative, so `np.mean` of them is too |
| Subapertures.FluxSum | python/ceo/sensors/PyramidWFS.py:87-89 | the flux per sub-aperture: the elementwise sum of `frame[subpup]` over the masks, starting from zeros, with one entry per sub-aperture (its entries are stated by FluxOfFour) |
| Subapertures.AccumulateFlux | python/ceo/sensors/PyramidWFS.py:134-136 | the loop `flux += frame[subpup]` over the four maps, from zeros, yields FluxSum |
| Subapertures.FluxOfFour | python/ceo/sensors/PyramidWFS.py:134-136 | the flux of sub-aperture k is the sum of the four rank-k pixels |
| Subapertures.FluxSumDark | python/ceo/sensors/PyramidWFS.py:134-137 | a frame without photons has zero flux in every sub-aperture |
| Subapertures.FluxSumScale | python/ceo/sensors/PyramidWFS.py:134-136 | scaling the frame by c scales every sub-aperture's flux by c |
| Subapertures.FluxSumNonNegative | python/ceo/sensors/PyramidWFS.py:134-136 | a non-negative frame has non-negative flux in every sub-aperture |
| Signals.ParseNormalization | python/ceo/sensors/PyramidWFS.py:124-127 | exactly "QUADCELL" and "MEAN_FLUX_PER_SUBAP" name a mode, and parsing is the inverse of naming |
| Signals.Divisor | python/ceo/sensors/PyramidWFS.py:142-146 | QUADCELL divides each sub-aperture by its own flux; MEAN_FLUX_PER_SUBAP divides every one by total flux over n_sspp, which is positive when there are photons |
| Signals.DiagonalSlopes | python/ceo/sensors/PyramidWFS.py:149-153 | the `sx`/`sy` formulas: one x and one y slope per sub-aperture over a non-zero divisor (their values are stated by MeasureAt) |
| Signals.Measure | python/ceo/sensors/PyramidWFS.py:155-160 | the slopes stored as `[sx, sy]` have one x and one y entry per sub-aperture in both branches (their values are stated by MeasureAt and MeasureNoFlux) |
| Signals.MeasureDark | python/ceo/sensors/PyramidWFS.py:155-158 | a frame without photons yields zero vectors of length n_sspp for sx and sy |
| Signals.MeasureNoFlux | python/ceo/sensors/PyramidWFS.py:140-158 | whenever the total flux is not positive, sx and sy are zero vectors of length n_sspp |
| Signals.MeasureAt | python/ceo/sensors/PyramidWFS.py:140-153 | sx[k] = (f3+f2-f1-f0)/d and sy[k] = (f1+f3-f0-f2)/d over the rank-k pixels; d is f0+f1+f2+f3 in QUADCELL mode and total flux over n_sspp otherwise, and d is non-zero |
| Signals.QuadcellBounded | python/ceo/sensors/PyramidWFS.py:143-153 | in QUADCELL mode every slope of a non-negative frame lies in [-1, 1] |
| Signals.MeasureScaleInvariant | python/ceo/sensors/PyramidWFS.py:140-158 | scaling the frame by any c > 0 leaves the slopes unchanged, in both modes |
| Signals.DivisorScale | python/ceo/sensors/PyramidWFS.py:142-146 | the divisor of scaled fluxes is the scaled divisor |
| Registration.RoundHalfEven | python/ceo/sensors/PyramidWFS.py:68 | Python's round: the result is within 1/2 of x, and on a tie it is even |
| Registration.RoundHalfEvenUnique | python/ceo/sensors/PyramidWFS.py:68 | no other integer has those two properties |
| Registration.NSub | python/ceo/sensors/PyramidWFS.py:68 | n_sub is N_SIDE_LENSLET plus N_SIDE_LENSLET*percent_extra_subaps/100 rounded, so it lies within 1/2 of the exact sum |
| Registration.Radius | python/ceo/sensors/PyramidWFS.py:74 | round(n_sub/2) lies within 1/2 of n_sub/2, and it is non-negative for a non-negative n_sub |
| Registration.NSubNoExtra | python/ceo/sensors/PyramidWFS.py:68 | with 0 per cent extra, n_sub is N_SIDE_LENSLET |
| Registration.RadiusEven | python/ceo/sensors/PyramidWFS.py:74 | round(n_sub/2) is n_sub/2 for an even n_sub |
| Registration.RadiusOneModFour | python/ceo/sensors/PyramidWFS.py:74 | round((4m+1)/2) is 2m: the tie goes down to the even neighbour |
| Registration.RadiusThreeModFour | python/ceo/sensors/PyramidWFS.py:74 | round((4m+3)/2) is 2m+2: the tie goes up to the even neighbour |
| Registration.Labels | python/ceo/sensors/PyramidWFS.py:57-61 | one label per pixel, every one in 0..4 (which one is stated by LabelQuadrant and LabelZero) |
| Registration.InQuadrant | python/ceo/sensors/PyramidWFS.py:52-55 | a pixel in quadrant q has q in 0..3 and neither coordinate on the centre line; its column is left of centre iff q is 0 or 2, and its row is below centre iff q is 0 or 1 |
| Registration.QuadrantsDisjoint | python/ceo/sensors/PyramidWFS.py:52-55 | no pixel is in two quadrant masks |
| Registration.LabelQuadrant | python/ceo/sensors/PyramidWFS.py:52-61 | a pixel gets label q+1 iff it lies in quadrant q |
| Registration.LabelZero | python/ceo/sensors/PyramidWFS.py:52-61 | a pixel gets label 0 iff its row or its column equals half the side |
| Registration.CentreOfMass | python/ceo/sensors/PyramidWFS.py:63 | `center_of_mass` for one label: there is no centre iff the labelled intensity is zero; otherwise each coordinate times that intensity is the intensity-weighted row (c0) or column (c1) moment |
| Registration.Centres | python/ceo/sensors/PyramidWFS.py:63 | one centre per label 1..4, in quadrant order |
| Registration.CentreInside | python/ceo/sensors/PyramidWFS.py:63 | for a non-negative frame, both coordinates of every defined centre of mass lie in [0, side-1] |
| Registration.CircularMask | python/ceo/sensors/PyramidWFS.py:74 | one flag per pixel of the detector, all false without a centre (the flags are stated by CircularMaskAt) |
| Registration.InCircle | python/ceo/sensors/PyramidWFS.py:74 | the distance test of line 74; a pixel that passes it is within the radius of the centre along each axis |
| Registration.CircularMaskAt | python/ceo/sensors/PyramidWFS.py:74 | pixel (row, col) is in the mask iff (col-c0)^2 + (row-c1)^2 <= radius^2, boundary included |
| Registration.DarkMaskEmpty | python/ceo/sensors/PyramidWFS.py:63-74 | a quadrant without light has no centre, and its mask selects no pixel |
| Registration.DarkQuadrantEmpty | python/ceo/sensors/PyramidWFS.py:57-74 | when the calibration frame has zero intensity in quadrant q, the q-th calibration mask selects no pixel |
| Registration.CalibrationMasks | python/ceo/sensors/PyramidWFS.py:63-75 | four masks of the detector's size, mask q being the circle of radius round(n_sub/2) around the centre of quadrant q |
| Registration.Counts | python/ceo/sensors/PyramidWFS.py:75 | `n_sspp.append(np.sum(indpup[this_pup]))`: one count per mask |
| Registration.AllEqual | python/ceo/sensors/PyramidWFS.py:76-78 | `np.unique(n_sspp).size == 1` on the counts: true iff every two counts are equal |
| Registration.EqualCountsAligned | python/ceo/sensors/PyramidWFS.py:76-81 | passing the equal-count check makes the four masks an aligned registration with n = count of the first mask |
| Registration.Mean | python/ceo/sensors/PyramidWFS.py:91 | `np.mean(flux)`: for a non-empty flux vector, the mean times the number of entries is the total flux |
| Registration.KeepMask | python/ceo/sensors/PyramidWFS.py:91-93 | one keep flag per sub-aperture, true iff its flux exceeds mean(flux)*thr (used by RefineAt) |
| Registration.Refine | python/ceo/sensors/PyramidWFS.py:84-99 | the four maps after the threshold step; for thr > 0 all four are cleared by the same keep flags (its maps are stated by RefineAt, RefineAligned and RefineSelect) |
| Registration.RefineAligned | python/ceo/sensors/PyramidWFS.py:84-103 | after refinement the four maps are still aligned, on every frame of the detector's size; their common count is n_sspp = Count(map 0), and it never exceeds the count before refinement |
| Registration.RefineNoThreshold | python/ceo/sensors/PyramidWFS.py:84 | thr <= 0 leaves the masks and the count unchanged |
| Registration.RefineAt | python/ceo/sensors/PyramidWFS.py:91-99 | for thr > 0 a pixel stays in map q iff it was in it and the flux of its sub-aperture exceeds mean(flux)*thr |
| Registration.RefineSelect | python/ceo/sensors/PyramidWFS.py:98-99 | after refinement the rank-k pixel of every map is the k-th kept sub-aperture of that map, so all four lose the same indices |
| Registration.RefineKeepsAll | python/ceo/sensors/PyramidWFS.py:93-99 | when every sub-aperture is above the threshold, refinement changes nothing |
| Registration.KeepMonotone | python/ceo/sensors/PyramidWFS.py:91-93 | with a non-negative mean flux, a higher threshold keeps a subset of the sub-apertures and so no more of them |
| Registration.RefinedCountMonotone | python/ceo/sensors/PyramidWFS.py:84-99 | for a non-negative calibration frame, a higher threshold never leaves more sub-apertures |
| Registration.BuildMasks | python/ceo/sensors/PyramidWFS.py:71-75 | the loop builds the four circular masks in distinct fresh arrays, together with their pixel counts |
| Registration.ApplyKeep | python/ceo/sensors/PyramidWFS.py:99 | the in-place update turns the array's contents into Retain(old contents, keep) |
| Registration.RefineAll | python/ceo/sensors/PyramidWFS.py:98-99 | the loop applies the same keep flags to every mask array |
| Registration.ApplyThreshold | python/ceo/sensors/PyramidWFS.py:84-99 | accumulating the flux and clearing the masks in place yields Refine |
| Registration.Register | python/ceo/sensors/PyramidWFS.py:67-99 | the counts are those of the calibration masks; when they agree, the returned maps are the refined registration |
| Sensor.Render | python/ceo/sensors/PyramidWFS.py:172-177 | only "vector" and "list" are accepted; "vector" holds sx followed by sy, and "list" gives the pair |
| Sensor.RenderSplit | python/ceo/sensors/PyramidWFS.py:174-175 | the vector splits back into sx and sy |
| Sensor.Crop | python/ceo/sensors/PyramidWFS.py:213 | `sx2d[0:N/2, 0:N/2]`: an h-by-h grid of rows of the flat image (its entries are stated by CropScatterAt) |
| Sensor.Broadcast | python/ceo/sensors/PyramidWFS.py:212 | the right-hand side of `sx2d[indpup[0]] = v`: v itself when it has n_sspp entries, and its single entry repeated at every selected pixel when it has one |
| Sensor.CropScatterAt | python/ceo/sensors/PyramidWFS.py:211-213 | entry (r, col) of the 2D reshape is the slope of the selected pixel r*N+col by its rank, and 0 elsewhere |
| Sensor.ScatterImage | python/ceo/sensors/PyramidWFS.py:211-212 | the loop writes v into a zero image at the mask, yielding Scatter |
| Sensor.Reshape | python/ceo/sensors/PyramidWFS.py:211-213 | the result is the top-left (N/2)x(N/2) corner of the scattered image |
| Sensor.PyramidWFS.constructor | python/ceo/sensors/PyramidWFS.py:8-12 | a new sensor normalises by MEAN_FLUX_PER_SUBAP, holds the camera frame and has no registration |
| Sensor.PyramidWFS.SignalNormalization | python/ceo/sensors/PyramidWFS.py:121-123 | the getter returns the name of the current mode |
| Sensor.PyramidWFS.SetSignalNormalization | python/ceo/sensors/PyramidWFS.py:124-127 | a known name sets that mode, after which the getter returns it; any other name is refused, the prior mode is kept, and nothing else changes |
| Sensor.PyramidWFS.Process | python/ceo/sensors/PyramidWFS.py:129-160 | the measurement becomes Measure(frame, maps, n_sspp, mode); nothing else changes |
| Sensor.PyramidWFS.Analyze | python/ceo/sensors/PyramidWFS.py:247-258 | the frame becomes a fresh read-out at the current modulation, and the measurement is processed from it |
| Sensor.PyramidWFS.Calibrate | python/ceo/sensors/PyramidWFS.py:36-107 | the modulation settings are restored; the call reports a mismatch iff the four mask counts differ, and then the registration and both measurements keep their previous values; otherwise the maps are the refined registration of the calibration frame, n_sspp is the count of map 0, and the measurement of the reference frame is stored as reference |
| Sensor.PyramidWFS.StoreRegistration | python/ceo/sensors/PyramidWFS.py:102-107 | the registration is stored, a frame is analysed, and its measurement becomes the reference |
| Sensor.PyramidWFS.MeasurementSize | python/ceo/sensors/PyramidWFS.py:229-233 | defined only once registered, as `n_sspp` is; 2*n_sspp is the number of x slopes plus the number of y slopes, in the measurement and in the reference |
| Sensor.PyramidWFS.GetMeasurement | python/ceo/sensors/PyramidWFS.py:166-177 | only "vector" and "list" are accepted; "vector" has get_measurement_size() = 2*n_sspp entries, sx - sx_ref followed by sy - sy_ref; "list" gives the two differences |
| Sensor.PyramidWFS.GetRefMeasurement | python/ceo/sensors/PyramidWFS.py:179-189 | the reference in the same two formats |
| Sensor.PyramidWFS.GetSx | python/ceo/sensors/PyramidWFS.py:191-195 | the x slopes minus the reference x slopes, n_sspp of them |
| Sensor.PyramidWFS.GetSy | python/ceo/sensors/PyramidWFS.py:197-201 | the y slopes minus the reference y slopes, n_sspp of them |
| Sensor.PyramidWFS.ReferenceCancels | python/ceo/sensors/PyramidWFS.py:105-107 | when the measurement equals the reference, as right after a calibration, get_measurement returns 2*n_sspp zeros, and get_sx and get_sy return zeros |
| Sensor.PyramidWFS.GetSx2d | python/ceo/sensors/PyramidWFS.py:203-214 | the given slopes, or get_sx() when none are given, scattered over map 0 and cropped to the top-left quarter; given slopes may have n_sspp entries or a single one, which numpy broadcasts to every pixel of map 0 |
| Sensor.PyramidWFS.GetSy2d | python/ceo/sensors/PyramidWFS.py:216-227 | the same for the y slopes |

## Left out

- Optics and detector: `Pyramid.propagate`, `camera.reset` and the camera's frame buffer (lines 2, 9-12, 41-42, 241-245, 256-257) are foreign calls. The frame they produce is the `propagate` function parameter.
- The photoelectron gain (line 12) and the `N_PX_LENSLET`, `N_GS` and `throughput` constructor arguments do not affect the modelled logic. The model does not keep them.
- The `print` diagnostics are not modelled. This includes the count `n_sspp1` of kept sub-apertures, which the source computes only to print it. On a count mismatch, `Calibrate` returns the four counts instead of printing their distinct values.
- The cupy/numpy transfers (`cp.asarray`, `cp.asnumpy`, `.get()`) only move data between GPU and host. The `indpup` and `ccd_frame` properties (lines 110-119) are the `indpup` and `ccdFrame` fields. `Data` (lines 162-164) is `GetMeasurement("vector")`.
- `measurement_rms` (lines 235-239) is left out because it needs a floating-point standard deviation (a square root).
- Floating point: pixel values, fluxes and slopes are exact reals. In particular `N_SIDE_LENSLET*percent_extra_subaps/100` is rounded from its exact value. Rounding error, infinities and not-a-number values are not modelled.
- Signals.Normalisable: QUADCELL mode divides every sub-aperture by its own flux. The source does not handle a zero flux there when the total flux is positive. `Process`, `Analyze` and `Calibrate` (through `ReferenceNormalisable`) require that this does not happen, instead of modelling an infinite or undefined slope.
- Registration.CentreOfMass: a quadrant whose total intensity is zero has no centre (`None`). In the source the centre is then not a number (or infinite), every comparison on line 74 is false, and the mask is empty. The model gives that mask directly. It does not model nan/inf values any further.
- Registration.AllEqual: the test `np.unique(n_sspp).size > 1` is modelled as "not all four counts are equal". They mean the same.
- The detector is taken to be square. Line 50 builds the coordinate grids with shape (ny, nx) while the frame has shape (nx, ny), so the source only works when these agree.
- Default arguments are not modelled: those of `calibrate` (line 14), `out_format='vector'` of `get_measurement` and `get_ref_measurement` (lines 166 and 179), and `modulation=0.0`, `N_GS=1` and `throughput=1.0` of the constructor (line 8). Callers always pass every argument the model keeps.
- The `registered` field stands for the existence of `_indpup`. Before the first successful calibration, `process` and the accessors fail in the source, `get_measurement_size` among them because `n_sspp` is first set at line 103. In the model they require `registered`.
- GetSx2d/GetSy2d accept given slopes with `n_sspp` entries or with one entry (broadcast), which are the lengths numpy assigns to `n_sspp` selected pixels. A plain Python scalar is modelled as a one-entry vector. Numpy rejects every other length, and the model requires one of the two.
