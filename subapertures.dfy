/** Sub-apertures: the four pupil maps of a registration pick out, for each
 *  sub-aperture index k, the k-th selected pixel of every map; the flux of
 *  sub-aperture k is the sum of those four pixels. */
module Subapertures {
  import opened Images

  /** Every map has the frame's size and selects exactly n pixels. */
  predicate Selectable(frame: seq<real>, masks: seq<seq<bool>>, n: nat)
  {
    forall q :: 0 <= q < |masks| ==> |masks[q]| == |frame| && Count(masks[q]) == n
  }

  /** Four pupil maps in one-to-one correspondence (the registration invariant:
   *  all four select the same number n of sub-apertures). */
  predicate Aligned(frame: seq<real>, masks: seq<seq<bool>>, n: nat)
  {
    |masks| == 4 && Selectable(frame, masks, n)
  }

  /** Flux per sub-aperture over the first q maps: the elementwise sum of the
   *  selections of the frame through each of them. */
  function FluxSumTo(frame: seq<real>, masks: seq<seq<bool>>, n: nat, q: nat): (flux: seq<real>)
    requires Selectable(frame, masks, n) && q <= |masks|
    ensures |flux| == n
  {
    if q == 0 then Zeros(n)
    else Add(FluxSumTo(frame, masks, n, q - 1), Select(frame, masks[q - 1]))
  }

  /** Flux per sub-aperture: the elementwise sum of the selections of the
   *  frame through every map. */
  function FluxSum(frame: seq<real>, masks: seq<seq<bool>>, n: nat): (flux: seq<real>)
    requires Selectable(frame, masks, n)
    ensures |flux| == n
  {
    FluxSumTo(frame, masks, n, |masks|)
  }

  /** Accumulates the flux per sub-aperture map by map, starting from zeros. */
  method AccumulateFlux(frame: seq<real>, masks: seq<seq<bool>>, n: nat) returns (flux: seq<real>)
    requires Selectable(frame, masks, n)
    ensures flux == FluxSum(frame, masks, n)
  {
    flux := Zeros(n);
    var q := 0;
    while q < |masks|
      invariant 0 <= q <= |masks|
      invariant flux == FluxSumTo(frame, masks, n, q)
    {
      flux := Add(flux, Select(frame, masks[q]));
      q := q + 1;
    }
  }

  /** With four aligned maps, sub-aperture k's flux is the sum of the four
   *  pixels of rank k. */
  lemma FluxOfFour(frame: seq<real>, masks: seq<seq<bool>>, n: nat, k: nat)
    requires Aligned(frame, masks, n) && k < n
    ensures FluxSum(frame, masks, n)[k]
         == Select(frame, masks[0])[k] + Select(frame, masks[1])[k]
          + Select(frame, masks[2])[k] + Select(frame, masks[3])[k]
  {
    var f1, f2, f3 := FluxSumTo(frame, masks, n, 1), FluxSumTo(frame, masks, n, 2), FluxSumTo(frame, masks, n, 3);
    assert FluxSumTo(frame, masks, n, 0)[k] == 0.0;
    assert f1[k] == Select(frame, masks[0])[k];
    assert f2[k] == f1[k] + Select(frame, masks[1])[k];
    assert f3[k] == f2[k] + Select(frame, masks[2])[k];
  }

  lemma {:induction false} FluxSumToDark(frame: seq<real>, masks: seq<seq<bool>>, n: nat, q: nat)
    requires Selectable(frame, masks, n) && q <= |masks|
    requires forall p :: 0 <= p < |frame| ==> frame[p] == 0.0
    ensures FluxSumTo(frame, masks, n, q) == Zeros(n)
  {
    if q > 0 {
      FluxSumToDark(frame, masks, n, q - 1);
      SelectZeros(frame, masks[q - 1]);
      assert Add(Zeros(n), Zeros(n)) == Zeros(n);
    }
  }

  /** A frame without photons has zero flux in every sub-aperture. */
  lemma FluxSumDark(frame: seq<real>, masks: seq<seq<bool>>, n: nat)
    requires Selectable(frame, masks, n)
    requires forall p :: 0 <= p < |frame| ==> frame[p] == 0.0
    ensures FluxSum(frame, masks, n) == Zeros(n)
  {
    FluxSumToDark(frame, masks, n, |masks|);
  }

  lemma {:induction false} FluxSumToScale(frame: seq<real>, masks: seq<seq<bool>>, n: nat, c: real, q: nat)
    requires Selectable(frame, masks, n) && q <= |masks|
    ensures Selectable(Scale(frame, c), masks, n)
    ensures FluxSumTo(Scale(frame, c), masks, n, q) == Scale(FluxSumTo(frame, masks, n, q), c)
  {
    if q > 0 {
      FluxSumToScale(frame, masks, n, c, q - 1);
      SelectScale(frame, masks[q - 1], c);
      var a := FluxSumTo(frame, masks, n, q - 1);
      var b := Select(frame, masks[q - 1]);
      assert Add(Scale(a, c), Scale(b, c)) == Scale(Add(a, b), c) by {
        forall k | 0 <= k < n
          ensures Add(Scale(a, c), Scale(b, c))[k] == Scale(Add(a, b), c)[k]
        {
          assert c * a[k] + c * b[k] == c * (a[k] + b[k]);
        }
      }
    } else {
      assert Scale(Zeros(n), c) == Zeros(n);
    }
  }

  /** Scaling every pixel scales every sub-aperture flux by the same factor. */
  lemma FluxSumScale(frame: seq<real>, masks: seq<seq<bool>>, n: nat, c: real)
    requires Selectable(frame, masks, n)
    ensures Selectable(Scale(frame, c), masks, n)
    ensures FluxSum(Scale(frame, c), masks, n) == Scale(FluxSum(frame, masks, n), c)
  {
    FluxSumToScale(frame, masks, n, c, |masks|);
  }

  lemma {:induction false} FluxSumToNonNegative(frame: seq<real>, masks: seq<seq<bool>>, n: nat, q: nat)
    requires Selectable(frame, masks, n) && q <= |masks|
    requires forall p :: 0 <= p < |frame| ==> frame[p] >= 0.0
    ensures forall k :: 0 <= k < n ==> FluxSumTo(frame, masks, n, q)[k] >= 0.0
  {
    if q > 0 {
      FluxSumToNonNegative(frame, masks, n, q - 1);
      SelectNonNegative(frame, masks[q - 1]);
    }
  }

  /** In a non-negative frame every sub-aperture flux is non-negative. */
  lemma FluxSumNonNegative(frame: seq<real>, masks: seq<seq<bool>>, n: nat)
    requires Selectable(frame, masks, n)
    requires forall p :: 0 <= p < |frame| ==> frame[p] >= 0.0
    ensures forall k :: 0 <= k < n ==> FluxSum(frame, masks, n)[k] >= 0.0
  {
    FluxSumToNonNegative(frame, masks, n, |masks|);
  }
}
