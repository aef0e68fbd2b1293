/** Pupil registration: the quadrant labels of the detector, the centre of
 *  mass of each sub-pupil image, the circular masks drawn around those
 *  centres, the equal-count check and the refinement by flux threshold. */
module Registration {
  import opened Results
  import opened Images
  import opened Subapertures

  /** Python 3 `round`: to the nearest integer, ties to the even one. */
  function RoundHalfEven(x: real): (r: int)
    ensures x - 0.5 <= r as real <= x + 0.5
    ensures (r as real == x - 0.5 || r as real == x + 0.5) ==> r % 2 == 0
  {
    var fl := x.Floor;
    var frac := x - fl as real;
    if frac < 0.5 then fl
    else if frac > 0.5 then fl + 1
    else if fl % 2 == 0 then fl
    else fl + 1
  }

  /** The rounding is the only integer with those two properties. */
  lemma RoundHalfEvenUnique(x: real, z: int)
    requires x - 0.5 <= z as real <= x + 0.5
    requires (z as real == x - 0.5 || z as real == x + 0.5) ==> z % 2 == 0
    ensures z == RoundHalfEven(x)
  {
    var r := RoundHalfEven(x);
    assert -1.0 <= (z - r) as real <= 1.0;
  }

  /** Number of sub-apertures across the pupil, widened by percentExtra per
   *  cent (rounded). */
  function NSub(nSideLenslet: nat, percentExtra: real): (nSub: int)
    ensures var extra := nSideLenslet as real * percentExtra / 100.0;
      nSideLenslet as real + extra - 0.5 <= nSub as real <= nSideLenslet as real + extra + 0.5
  {
    nSideLenslet + RoundHalfEven(nSideLenslet as real * percentExtra / 100.0)
  }

  /** Radius of the circular pupil masks: half of NSub, rounded. */
  function Radius(nSub: int): (radius: int)
    ensures nSub as real / 2.0 - 0.5 <= radius as real <= nSub as real / 2.0 + 0.5
    ensures nSub >= 0 ==> radius >= 0
  {
    RoundHalfEven(nSub as real / 2.0)
  }

  /** Without extra sub-apertures the pupil spans exactly the lenslet count. */
  lemma NSubNoExtra(nSideLenslet: nat)
    ensures NSub(nSideLenslet, 0.0) == nSideLenslet
  {
    RoundHalfEvenUnique(0.0, 0);
  }

  /** The radius for an even NSub is its half. */
  lemma RadiusEven(m: int)
    ensures Radius(2 * m) == m
  {
    assert (2 * m) as real / 2.0 == m as real;
    RoundHalfEvenUnique((2 * m) as real / 2.0, m);
  }

  /** For NSub = 4m + 1 the half 2m + 1/2 rounds down, to the even 2m. */
  lemma RadiusOneModFour(m: int)
    ensures Radius(4 * m + 1) == 2 * m
  {
    var x := (4 * m + 1) as real / 2.0;
    assert (2 * m) as real == x - 0.5;
    RoundHalfEvenUnique(x, 2 * m);
  }

  /** For NSub = 4m + 3 the half 2m + 3/2 rounds up, to the even 2m + 2. */
  lemma RadiusThreeModFour(m: int)
    ensures Radius(4 * m + 3) == 2 * m + 2
  {
    var x := (4 * m + 3) as real / 2.0;
    assert (2 * m + 2) as real == x + 0.5;
    assert (2 * m + 2) % 2 == 0;
    RoundHalfEvenUnique(x, 2 * m + 2);
  }

  /** Quadrant q of a square detector of the given side (0: low rows and low
   *  columns, 1: low rows and high columns, 2: high rows and low columns,
   *  3: high rows and high columns); both comparisons with side / 2 are strict. */
  function InQuadrant(q: int, side: nat, row: int, col: int): (inside: bool)
    ensures inside ==> 0 <= q < 4 && 2 * col != side && 2 * row != side
    ensures inside ==> (2 * col < side <==> q % 2 == 0) && (2 * row < side <==> q < 2)
  {
    var h, x, y := side as real / 2.0, col as real, row as real;
    if q == 0 then x < h && y < h
    else if q == 1 then x > h && y < h
    else if q == 2 then x < h && y > h
    else if q == 3 then x > h && y > h
    else false
  }

  /** The label of a pixel: the quadrant masks are written in order 1 to 4 over
   *  a zero image, so a later quadrant would win. */
  function Label(side: nat, row: int, col: int): int
  {
    if InQuadrant(3, side, row, col) then 4
    else if InQuadrant(2, side, row, col) then 3
    else if InQuadrant(1, side, row, col) then 2
    else if InQuadrant(0, side, row, col) then 1
    else 0
  }

  /** The label image of a square detector, row-major. */
  function Labels(side: nat): (labels: seq<int>)
    ensures |labels| == side * side
    ensures forall p :: 0 <= p < |labels| ==> 0 <= labels[p] <= 4
  {
    seq(side * side, p requires 0 <= p < side * side => Label(side, p / side, p % side))
  }

  /** The quadrants do not overlap. */
  lemma QuadrantsDisjoint(side: nat, row: int, col: int, q: int, q': int)
    requires InQuadrant(q, side, row, col) && InQuadrant(q', side, row, col)
    ensures q == q'
  {
  }

  /** A pixel is labelled q + 1 iff it lies in quadrant q. */
  lemma LabelQuadrant(side: nat, row: int, col: int, q: int)
    requires 0 <= q < 4
    ensures Label(side, row, col) == q + 1 <==> InQuadrant(q, side, row, col)
  {
  }

  /** A pixel is unlabelled iff it lies on one of the two centre lines. */
  lemma LabelZero(side: nat, row: int, col: int)
    ensures Label(side, row, col) == 0 <==> 2 * row == side || 2 * col == side
  {
    var h, x, y := side as real / 2.0, col as real, row as real;
    assert x == h <==> 2 * col == side;
    assert y == h <==> 2 * row == side;
  }

  /** A centre of mass: c0 along the first array axis (rows) and c1 along the
   *  second (columns), in the order `center_of_mass` returns them. */
  datatype Centre = Centre(c0: real, c1: real)

  /** Sum over the first i pixels of g of those labelled index. */
  function LabelledSumTo(g: seq<real>, labels: seq<int>, index: int, i: nat): real
    requires i <= |g| && |labels| == |g|
  {
    if i == 0 then 0.0
    else LabelledSumTo(g, labels, index, i - 1) + (if labels[i - 1] == index then g[i - 1] else 0.0)
  }

  function LabelledSum(g: seq<real>, labels: seq<int>, index: int): real
    requires |labels| == |g|
  {
    LabelledSumTo(g, labels, index, |g|)
  }

  /** Every pixel weighted by its row (axis 0). */
  function RowWeighted(frame: seq<real>, side: nat): (g: seq<real>)
    requires |frame| == side * side
    ensures |g| == |frame|
  {
    seq(|frame|, p requires 0 <= p < |frame| => frame[p] * (p / side) as real)
  }

  /** Every pixel weighted by its column (axis 1). */
  function ColWeighted(frame: seq<real>, side: nat): (g: seq<real>)
    requires |frame| == side * side
    ensures |g| == |frame|
  {
    seq(|frame|, p requires 0 <= p < |frame| => frame[p] * (p % side) as real)
  }

  /** The intensity-weighted centre of the pixels labelled index; None when
   *  their total intensity is zero, where the division yields no number. */
  function CentreOfMass(frame: seq<real>, side: nat, labels: seq<int>, index: int): (c: Option<Centre>)
    requires |frame| == side * side && |labels| == |frame|
    ensures c.None? <==> LabelledSum(frame, labels, index) == 0.0
    ensures c.Some? ==>
      c.value.c0 * LabelledSum(frame, labels, index) == LabelledSum(RowWeighted(frame, side), labels, index) &&
      c.value.c1 * LabelledSum(frame, labels, index) == LabelledSum(ColWeighted(frame, side), labels, index)
  {
    var mass := LabelledSum(frame, labels, index);
    if mass == 0.0 then None
    else Some(Centre(LabelledSum(RowWeighted(frame, side), labels, index) / mass,
                     LabelledSum(ColWeighted(frame, side), labels, index) / mass))
  }

  /** The four sub-pupil centres, one per quadrant label 1 to 4. */
  function Centres(frame: seq<real>, side: nat): (centres: seq<Option<Centre>>)
    requires |frame| == side * side
    ensures |centres| == 4
  {
    seq(4, q requires 0 <= q < 4 => CentreOfMass(frame, side, Labels(side), q + 1))
  }

  lemma {:induction false} LabelledSumToBound(f: seq<real>, g: seq<real>, labels: seq<int>, index: int,
                                              lo: real, hi: real, i: nat)
    requires i <= |f| && |g| == |f| && |labels| == |f|
    requires forall p :: 0 <= p < |f| ==> lo * f[p] <= g[p] <= hi * f[p]
    ensures lo * LabelledSumTo(f, labels, index, i) <= LabelledSumTo(g, labels, index, i)
                                                    <= hi * LabelledSumTo(f, labels, index, i)
  {
    if i > 0 {
      LabelledSumToBound(f, g, labels, index, lo, hi, i - 1);
      var x := if labels[i - 1] == index then f[i - 1] else 0.0;
      var y := if labels[i - 1] == index then g[i - 1] else 0.0;
      assert lo * x <= y <= hi * x by {
        if labels[i - 1] != index {
          ZeroProduct(lo);
          ZeroProduct(hi);
        }
      }
      BoundStep(lo, hi, LabelledSumTo(f, labels, index, i - 1), LabelledSumTo(g, labels, index, i - 1), x, y);
    }
  }

  lemma ZeroProduct(c: real)
    ensures c * 0.0 == 0.0
  {
  }

  lemma BoundStep(lo: real, hi: real, a: real, b: real, x: real, y: real)
    requires lo * a <= b <= hi * a && lo * x <= y <= hi * x
    ensures lo * (a + x) <= b + y <= hi * (a + x)
  {
    assert lo * (a + x) == lo * a + lo * x;
    assert hi * (a + x) == hi * a + hi * x;
  }

  lemma WeightBound(f: real, w: real, hi: real)
    requires f >= 0.0 && 0.0 <= w <= hi
    ensures 0.0 * f <= f * w <= hi * f
  {
  }

  lemma QuotientBound(m: real, mass: real, hi: real)
    requires mass > 0.0 && 0.0 * mass <= m <= hi * mass
    ensures 0.0 <= m / mass <= hi
  {
    assert m / mass * mass == m;
  }

  lemma {:induction false} NonNegativeSum(f: seq<real>, labels: seq<int>, index: int, i: nat)
    requires i <= |f| && |labels| == |f|
    requires forall p :: 0 <= p < |f| ==> f[p] >= 0.0
    ensures LabelledSumTo(f, labels, index, i) >= 0.0
  {
    if i > 0 {
      NonNegativeSum(f, labels, index, i - 1);
    }
  }

  /** A weighted sum whose weights lie in [0, hi], divided by a positive mass,
   *  lies in [0, hi]. */
  lemma WeightedQuotient(frame: seq<real>, g: seq<real>, labels: seq<int>, index: int, hi: real)
    requires |g| == |frame| && |labels| == |frame|
    requires forall p :: 0 <= p < |frame| ==> 0.0 * frame[p] <= g[p] <= hi * frame[p]
    requires forall p :: 0 <= p < |frame| ==> frame[p] >= 0.0
    requires LabelledSum(frame, labels, index) != 0.0
    ensures 0.0 <= LabelledSum(g, labels, index) / LabelledSum(frame, labels, index) <= hi
  {
    LabelledSumToBound(frame, g, labels, index, 0.0, hi, |frame|);
    NonNegativeSum(frame, labels, index, |frame|);
    QuotientBound(LabelledSum(g, labels, index), LabelledSum(frame, labels, index), hi);
  }

  lemma RowWeights(frame: seq<real>, side: nat)
    requires |frame| == side * side
    requires forall p :: 0 <= p < |frame| ==> frame[p] >= 0.0
    ensures forall p :: 0 <= p < |frame| ==>
      0.0 * frame[p] <= RowWeighted(frame, side)[p] <= (side - 1) as real * frame[p]
  {
    forall p | 0 <= p < |frame|
      ensures 0.0 * frame[p] <= RowWeighted(frame, side)[p] <= (side - 1) as real * frame[p]
    {
      PixelCoordinates(side, p);
      WeightBound(frame[p], (p / side) as real, (side - 1) as real);
    }
  }

  lemma ColWeights(frame: seq<real>, side: nat)
    requires |frame| == side * side
    requires forall p :: 0 <= p < |frame| ==> frame[p] >= 0.0
    ensures forall p :: 0 <= p < |frame| ==>
      0.0 * frame[p] <= ColWeighted(frame, side)[p] <= (side - 1) as real * frame[p]
  {
    forall p | 0 <= p < |frame|
      ensures 0.0 * frame[p] <= ColWeighted(frame, side)[p] <= (side - 1) as real * frame[p]
    {
      PixelCoordinates(side, p);
      WeightBound(frame[p], (p % side) as real, (side - 1) as real);
    }
  }

  /** In a non-negative frame every centre of mass lies inside the detector. */
  lemma CentreInside(frame: seq<real>, side: nat, labels: seq<int>, index: int)
    requires |frame| == side * side && |labels| == |frame|
    requires forall p :: 0 <= p < |frame| ==> frame[p] >= 0.0
    ensures CentreOfMass(frame, side, labels, index).Some? ==>
      var c := CentreOfMass(frame, side, labels, index).value;
      0.0 <= c.c0 <= (side - 1) as real && 0.0 <= c.c1 <= (side - 1) as real
  {
    var mass := LabelledSum(frame, labels, index);
    if mass != 0.0 {
      RowCentre(frame, side, labels, index);
      ColCentre(frame, side, labels, index);
    }
  }

  lemma RowCentre(frame: seq<real>, side: nat, labels: seq<int>, index: int)
    requires |frame| == side * side && |labels| == |frame|
    requires forall p :: 0 <= p < |frame| ==> frame[p] >= 0.0
    requires LabelledSum(frame, labels, index) != 0.0
    ensures 0.0 <= LabelledSum(RowWeighted(frame, side), labels, index) / LabelledSum(frame, labels, index)
               <= (side - 1) as real
  {
    RowWeights(frame, side);
    WeightedQuotient(frame, RowWeighted(frame, side), labels, index, (side - 1) as real);
  }

  lemma ColCentre(frame: seq<real>, side: nat, labels: seq<int>, index: int)
    requires |frame| == side * side && |labels| == |frame|
    requires forall p :: 0 <= p < |frame| ==> frame[p] >= 0.0
    requires LabelledSum(frame, labels, index) != 0.0
    ensures 0.0 <= LabelledSum(ColWeighted(frame, side), labels, index) / LabelledSum(frame, labels, index)
               <= (side - 1) as real
  {
    ColWeights(frame, side);
    WeightedQuotient(frame, ColWeighted(frame, side), labels, index, (side - 1) as real);
  }

  lemma AtLeastOne(d: int, side: nat)
    ensures d >= 1 ==> d * side >= side
    ensures d <= -1 ==> d * side <= -(side as int)
  {
  }

  /** Pixel p of a square image of the given side is at row p / side and
   *  column p % side, both below side. */
  lemma PixelCoordinates(side: nat, p: nat)
    requires p < side * side
    ensures side > 0 && p / side < side && p % side < side
  {
    assert side != 0;
    var r := p / side;
    assert r * side <= p;
    AtLeastOne(r - side + 1, side);
    assert (r - side + 1) * side == r * side - side * side + side;
  }

  /** The pixel of row row and column col is element row * side + col. */
  lemma PixelIndex(side: nat, row: nat, col: nat)
    requires row < side && col < side
    ensures row * side + col < side * side
    ensures (row * side + col) / side == row && (row * side + col) % side == col
  {
    var p := row * side + col;
    AtLeastOne(side - row, side);
    assert (side - row) * side == side * side - row * side;
    var q, r := p / side, p % side;
    assert q * side + r == row * side + col;
    AtLeastOne(q - row, side);
    assert (q - row) * side == q * side - row * side;
  }

  /** Each of two squares is at most their sum. */
  lemma SquaresBound(a: real, b: real)
    ensures a * a <= a * a + b * b && b * b <= a * a + b * b
  {
    PositiveSquare(a);
    PositiveSquare(b);
  }

  lemma PositiveSquare(a: real)
    ensures a * a >= 0.0
  {
    if a < 0.0 {
      assert a * a == (-a) * (-a);
    }
  }

  /** Pixel p is inside the circle of the given radius around centre c, with
   *  the column of the pixel measured against c.c0 and its row against c.c1;
   *  the boundary is included. */
  function InCircle(side: nat, c: Centre, radius: int, p: nat): (inside: bool)
    requires side > 0
    ensures var x, y := (p % side) as real, (p / side) as real;
      inside ==> (x - c.c0) * (x - c.c0) <= (radius * radius) as real &&
                 (y - c.c1) * (y - c.c1) <= (radius * radius) as real
  {
    var x, y := (p % side) as real, (p / side) as real;
    SquaresBound(x - c.c0, y - c.c1);
    (x - c.c0) * (x - c.c0) + (y - c.c1) * (y - c.c1) <= (radius * radius) as real
  }

  /** The circular mask of one sub-pupil; empty when its centre is undefined
   *  (every comparison with a non-number is false). */
  function CircularMask(side: nat, centre: Option<Centre>, radius: int): (m: seq<bool>)
    ensures |m| == side * side
  {
    seq(side * side, p requires 0 <= p < side * side => centre.Some? && InCircle(side, centre.value, radius, p))
  }

  /** Pixel (row, col) belongs to the mask around c iff its squared distance
   *  from (c.c0, c.c1), measured as (col, row), is at most radius squared. */
  lemma CircularMaskAt(side: nat, c: Centre, radius: int, row: nat, col: nat)
    requires row < side && col < side
    ensures row * side + col < side * side
    ensures CircularMask(side, Some(c), radius)[row * side + col]
        <==> (col as real - c.c0) * (col as real - c.c0) + (row as real - c.c1) * (row as real - c.c1)
             <= (radius * radius) as real
  {
    PixelIndex(side, row, col);
  }

  /** A sub-pupil without light gets an empty mask. */
  lemma DarkMaskEmpty(side: nat, radius: int)
    ensures Count(CircularMask(side, None, radius)) == 0
  {
    var m := CircularMask(side, None, radius);
    CountSubset(m, seq(|m|, _ => false));
    FalseCount(|m|, |m|);
  }

  lemma {:induction false} FalseCount(n: nat, i: nat)
    requires i <= n
    ensures CountTo(seq(n, _ => false), i) == 0
  {
    if i > 0 {
      FalseCount(n, i - 1);
    }
  }

  /** The four circular masks of the initial registration of a frame. */
  function CalibrationMasks(frame: seq<real>, side: nat, nSideLenslet: nat, percentExtra: real): (masks: seq<seq<bool>>)
    requires |frame| == side * side
    ensures |masks| == 4 && forall q :: 0 <= q < 4 ==> |masks[q]| == side * side
  {
    var centres, radius := Centres(frame, side), Radius(NSub(nSideLenslet, percentExtra));
    seq(4, q requires 0 <= q < 4 => CircularMask(side, centres[q], radius))
  }

  /** A quadrant of the calibration frame without light yields a mask that
   *  selects no pixel. */
  lemma DarkQuadrantEmpty(frame: seq<real>, side: nat, nSideLenslet: nat, percentExtra: real, q: nat)
    requires |frame| == side * side && q < 4
    requires LabelledSum(frame, Labels(side), q + 1) == 0.0
    ensures Count(CalibrationMasks(frame, side, nSideLenslet, percentExtra)[q]) == 0
  {
    assert Centres(frame, side)[q] == None;
    DarkMaskEmpty(side, Radius(NSub(nSideLenslet, percentExtra)));
  }

  /** All counts are the same (`np.unique(counts).size == 1`). */
  function AllEqual(counts: seq<nat>): (same: bool)
    ensures same <==> forall p, q :: 0 <= p < |counts| && 0 <= q < |counts| ==> counts[p] == counts[q]
  {
    forall q :: 0 <= q < |counts| ==> counts[q] == counts[0]
  }

  /** The pixel counts of a list of masks. */
  function Counts(masks: seq<seq<bool>>): (counts: seq<nat>)
    ensures |counts| == |masks|
  {
    seq(|masks|, q requires 0 <= q < |masks| => Count(masks[q]))
  }

  /** Equal counts make four same-sized masks an aligned registration of any
   *  frame of that size. */
  lemma EqualCountsAligned(frame: seq<real>, masks: seq<seq<bool>>)
    requires |masks| == 4 && forall q :: 0 <= q < 4 ==> |masks[q]| == |frame|
    requires AllEqual(Counts(masks))
    ensures Aligned(frame, masks, Count(masks[0]))
  {
    assert forall q :: 0 <= q < 4 ==> Counts(masks)[q] == Count(masks[q]);
  }

  /** Mean of a vector (`np.mean`); the empty case only ever meets an empty
   *  comparison, so its value does not matter. */
  function Mean(flux: seq<real>): (m: real)
    ensures |flux| > 0 ==> m * (|flux| as real) == Sum(flux)
  {
    if |flux| == 0 then 0.0 else Sum(flux) / (|flux| as real)
  }

  /** The sub-apertures whose flux exceeds thr times the mean flux. */
  function KeepMask(flux: seq<real>, thr: real): (keep: seq<bool>)
    ensures |keep| == |flux|
  {
    seq(|flux|, k requires 0 <= k < |flux| => flux[k] > Mean(flux) * thr)
  }

  /** The registration after refinement: for thr > 0 every map loses the same
   *  ranks, those whose flux in the calibration frame is at most thr times the
   *  mean; otherwise the maps are kept as they are. */
  function Refine(frame: seq<real>, masks: seq<seq<bool>>, n: nat, thr: real): (r: seq<seq<bool>>)
    requires Aligned(frame, masks, n)
    ensures |r| == 4
  {
    if thr > 0.0 then
      var keep := KeepMask(FluxSum(frame, masks, n), thr);
      seq(4, q requires 0 <= q < 4 => Retain(masks[q], keep))
    else masks
  }

  /** The number of sub-apertures left by the refinement. */
  function RefinedCount(frame: seq<real>, masks: seq<seq<bool>>, n: nat, thr: real): nat
    requires Aligned(frame, masks, n)
  {
    if thr > 0.0 then Count(KeepMask(FluxSum(frame, masks, n), thr)) else n
  }

  /** Refinement keeps the four maps aligned, on every frame of the detector's
   *  size, with at most the sub-apertures there were. */
  lemma RefineAligned(frame: seq<real>, other: seq<real>, masks: seq<seq<bool>>, n: nat, thr: real)
    requires Aligned(frame, masks, n) && |other| == |frame|
    ensures Aligned(other, Refine(frame, masks, n, thr), RefinedCount(frame, masks, n, thr))
    ensures RefinedCount(frame, masks, n, thr) <= n
    ensures Count(Refine(frame, masks, n, thr)[0]) == RefinedCount(frame, masks, n, thr)
  {
    if thr > 0.0 {
      var keep := KeepMask(FluxSum(frame, masks, n), thr);
      var r := Refine(frame, masks, n, thr);
      forall q | 0 <= q < 4
        ensures |r[q]| == |other| && Count(r[q]) == Count(keep)
      {
        RetainCount(masks[q], keep);
      }
    }
  }

  /** With thr <= 0 the registration is left unchanged. */
  lemma RefineNoThreshold(frame: seq<real>, masks: seq<seq<bool>>, n: nat, thr: real)
    requires Aligned(frame, masks, n) && thr <= 0.0
    ensures Refine(frame, masks, n, thr) == masks
    ensures RefinedCount(frame, masks, n, thr) == n
  {
  }

  /** When every sub-aperture is above the threshold, refinement changes nothing. */
  lemma RefineKeepsAll(frame: seq<real>, masks: seq<seq<bool>>, n: nat, thr: real)
    requires Aligned(frame, masks, n)
    requires forall k :: 0 <= k < n ==> FluxSum(frame, masks, n)[k] > Mean(FluxSum(frame, masks, n)) * thr
    ensures Refine(frame, masks, n, thr) == masks
  {
    if thr > 0.0 {
      var keep := KeepMask(FluxSum(frame, masks, n), thr);
      forall q | 0 <= q < 4
        ensures Retain(masks[q], keep) == masks[q]
      {
        RetainAll(masks[q], keep);
      }
    }
  }

  /** With thr > 0 a pixel stays in map q iff it was in it and the flux of its
   *  sub-aperture exceeds thr times the mean flux. */
  lemma RefineAt(frame: seq<real>, masks: seq<seq<bool>>, n: nat, thr: real, q: nat, p: nat)
    requires Aligned(frame, masks, n) && thr > 0.0 && q < 4 && p < |frame|
    ensures masks[q][p] ==> CountTo(masks[q], p) < n
    ensures Refine(frame, masks, n, thr)[q][p]
        <==> masks[q][p] && FluxSum(frame, masks, n)[CountTo(masks[q], p)] > Mean(FluxSum(frame, masks, n)) * thr
  {
    var keep := KeepMask(FluxSum(frame, masks, n), thr);
    RetainAt(masks[q], keep, p);
  }

  /** After refinement, sub-aperture k of every map is the k-th kept
   *  sub-aperture of the same map before it, in any frame: the four maps lose
   *  the same indices. */
  lemma RefineSelect(frame: seq<real>, other: seq<real>, masks: seq<seq<bool>>, n: nat, thr: real, q: nat)
    requires Aligned(frame, masks, n) && |other| == |frame| && thr > 0.0 && q < 4
    ensures Select(other, Refine(frame, masks, n, thr)[q])
         == Select(Select(other, masks[q]), KeepMask(FluxSum(frame, masks, n), thr))
  {
    SelectRetain(other, masks[q], KeepMask(FluxSum(frame, masks, n), thr));
  }

  /** A higher threshold keeps no more sub-apertures, as long as the mean flux
   *  is not negative. */
  lemma KeepMonotone(flux: seq<real>, thr: real, thr': real)
    requires Mean(flux) >= 0.0 && thr <= thr'
    ensures forall k :: 0 <= k < |flux| && KeepMask(flux, thr')[k] ==> KeepMask(flux, thr)[k]
    ensures Count(KeepMask(flux, thr')) <= Count(KeepMask(flux, thr))
  {
    var m := Mean(flux);
    assert m * thr <= m * thr' by {
      Monotone(m, thr, thr');
    }
    CountSubset(KeepMask(flux, thr'), KeepMask(flux, thr));
  }

  lemma Monotone(m: real, a: real, b: real)
    requires m >= 0.0 && a <= b
    ensures m * a <= m * b
  {
  }

  /** In a non-negative calibration frame, raising the threshold never leaves
   *  more sub-apertures. */
  lemma RefinedCountMonotone(frame: seq<real>, masks: seq<seq<bool>>, n: nat, thr: real, thr': real)
    requires Aligned(frame, masks, n) && thr <= thr'
    requires forall p :: 0 <= p < |frame| ==> frame[p] >= 0.0
    ensures RefinedCount(frame, masks, n, thr') <= RefinedCount(frame, masks, n, thr)
  {
    var flux := FluxSum(frame, masks, n);
    if thr' > 0.0 {
      if thr > 0.0 {
        FluxSumNonNegative(frame, masks, n);
        SumNonNegative(flux);
        assert Mean(flux) >= 0.0;
        KeepMonotone(flux, thr, thr');
      } else {
        assert |KeepMask(flux, thr')| == n;
      }
    }
  }

  /** A fresh array holding the given mask. */
  method NewMask(mask: seq<bool>) returns (a: array<bool>)
    ensures fresh(a) && a[..] == mask
  {
    a := new bool[|mask|](p requires 0 <= p < |mask| => mask[p]);
  }

  /** Builds the four circular masks and their pixel counts, one sub-pupil at
   *  a time, each mask in a fresh array. */
  method BuildMasks(side: nat, centres: seq<Option<Centre>>, radius: int)
      returns (pups: seq<array<bool>>, counts: seq<nat>)
    requires |centres| == 4
    ensures |pups| == 4 && |counts| == 4
    ensures forall q :: 0 <= q < 4 ==> fresh(pups[q])
    ensures forall q, q' :: 0 <= q < q' < 4 ==> pups[q] != pups[q']
    ensures forall q :: 0 <= q < 4 ==> pups[q][..] == CircularMask(side, centres[q], radius)
    ensures forall q :: 0 <= q < 4 ==> counts[q] == Count(CircularMask(side, centres[q], radius))
  {
    pups, counts := [], [];
    var q := 0;
    while q < 4
      invariant 0 <= q <= 4 && |pups| == q && |counts| == q
      invariant forall r :: 0 <= r < q ==> fresh(pups[r])
      invariant forall r, r' :: 0 <= r < r' < q ==> pups[r] != pups[r']
      invariant forall r :: 0 <= r < q ==> pups[r][..] == CircularMask(side, centres[r], radius)
      invariant forall r :: 0 <= r < q ==> counts[r] == Count(CircularMask(side, centres[r], radius))
    {
      var mask := CircularMask(side, centres[q], radius);
      var a := NewMask(mask);
      pups, counts := pups + [a], counts + [Count(mask)];
      q := q + 1;
    }
  }

  /** `subpup[subpup] *= keep`: the selected pixel of rank k is cleared in
   *  place wherever keep[k] is false. */
  method ApplyKeep(a: array<bool>, keep: seq<bool>)
    requires |keep| == Count(a[..])
    modifies a
    ensures a[..] == Retain(old(a[..]), keep)
  {
    ghost var m := a[..];
    var i, k := 0, 0;
    while i < a.Length
      invariant 0 <= i <= a.Length
      invariant k == CountTo(m, i) && k <= |keep|
      invariant a[..i] == RetainTo(m, keep, i)
      invariant forall j :: i <= j < a.Length ==> a[j] == m[j]
    {
      assert a[i] == m[i];
      CountToMonotone(m, i + 1, |m|);
      if a[i] {
        a[i] := keep[k];
        k := k + 1;
      }
      assert a[..i + 1] == a[..i] + [a[i]];
      i := i + 1;
    }
    assert a[..] == a[..i];
  }

  /** Applies the same keep flags to every mask of the registration. */
  method RefineAll(pups: seq<array<bool>>, keep: seq<bool>)
    requires forall q, q' :: 0 <= q < q' < |pups| ==> pups[q] != pups[q']
    requires forall q :: 0 <= q < |pups| ==> |keep| == Count(pups[q][..])
    modifies set q | 0 <= q < |pups| :: pups[q]
    ensures forall q :: 0 <= q < |pups| ==> pups[q][..] == Retain(old(pups[q][..]), keep)
  {
    var q := 0;
    while q < |pups|
      invariant 0 <= q <= |pups|
      invariant forall r :: 0 <= r < q ==> pups[r][..] == Retain(old(pups[r][..]), keep)
      invariant forall r :: q <= r < |pups| ==> pups[r][..] == old(pups[r][..])
    {
      ApplyKeep(pups[q], keep);
      q := q + 1;
    }
  }

  /** The masks held by four arrays. */
  function Contents(pups: seq<array<bool>>): (masks: seq<seq<bool>>)
    requires |pups| == 4
    reads pups[0], pups[1], pups[2], pups[3]
    ensures |masks| == 4 && forall q :: 0 <= q < 4 ==> masks[q] == pups[q][..]
  {
    [pups[0][..], pups[1][..], pups[2][..], pups[3][..]]
  }

  /** The refinement in place: the flux of each sub-aperture accumulated over
   *  the four masks, and the same keep flags applied to all of them. */
  method ApplyThreshold(frame: seq<real>, pups: seq<array<bool>>, n: nat, thr: real)
    requires |pups| == 4 && forall q, q' :: 0 <= q < q' < 4 ==> pups[q] != pups[q']
    requires Aligned(frame, Contents(pups), n) && thr > 0.0
    modifies pups[0], pups[1], pups[2], pups[3]
    ensures Contents(pups) == Refine(frame, old(Contents(pups)), n, thr)
  {
    ghost var masks := Contents(pups);
    var flux := AccumulateFlux(frame, Contents(pups), n);
    var fluxThr := Mean(flux) * thr;
    var keep := seq(|flux|, k requires 0 <= k < |flux| => flux[k] > fluxThr);
    assert keep == KeepMask(FluxSum(frame, masks, n), thr);
    RefineAll(pups, keep);
  }

  /** The registration part of the calibration, on local copies: builds the
   *  four masks, and when their counts agree and thr > 0 clears in all of them
   *  the sub-apertures whose flux is at most thr times the mean. */
  method Register(frame: seq<real>, side: nat, nSideLenslet: nat, percentExtra: real, thr: real)
      returns (counts: seq<nat>, refined: seq<seq<bool>>)
    requires |frame| == side * side
    ensures counts == Counts(CalibrationMasks(frame, side, nSideLenslet, percentExtra))
    ensures AllEqual(counts) ==>
      var masks := CalibrationMasks(frame, side, nSideLenslet, percentExtra);
      Aligned(frame, masks, Count(masks[0])) && refined == Refine(frame, masks, Count(masks[0]), thr)
  {
    ghost var masks := CalibrationMasks(frame, side, nSideLenslet, percentExtra);
    var pups;
    pups, counts := BuildMasks(side, Centres(frame, side), Radius(NSub(nSideLenslet, percentExtra)));
    assert Contents(pups) == masks;
    if AllEqual(counts) {
      EqualCountsAligned(frame, masks);
      if thr > 0.0 {
        ApplyThreshold(frame, pups, counts[0], thr);
      }
    }
    refined := Contents(pups);
  }
}
