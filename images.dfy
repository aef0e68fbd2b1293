/** Flat detector images and boolean pixel maps.
 *
 *  An image of side n is the sequence of its n * n pixels in row-major
 *  order: pixel (row, col) is element row * n + col.  This is the order in
 *  which numpy boolean indexing (`frame[mask]`) visits pixels, so the k-th
 *  element of a selection is the k-th selected pixel in that order.
 *
 *  Every recursive definition is over a prefix length i and grows by the
 *  pixel at i - 1, which is how the loops of the sensor walk an image. */
module Images {

  /** Number of pixels selected among the first i of m. */
  function CountTo(m: seq<bool>, i: nat): (c: nat)
    requires i <= |m|
    ensures c <= i
  {
    if i == 0 then 0 else CountTo(m, i - 1) + (if m[i - 1] then 1 else 0)
  }

  /** Number of pixels a boolean map selects (`np.sum` of a boolean array). */
  function Count(m: seq<bool>): (c: nat)
    ensures c <= |m|
  {
    CountTo(m, |m|)
  }

  /** Counts grow along the map, strictly past a selected pixel. */
  lemma {:induction false} CountToMonotone(m: seq<bool>, i: nat, j: nat)
    requires i <= j <= |m|
    ensures CountTo(m, i) <= CountTo(m, j)
    ensures i < j && m[i] ==> CountTo(m, i) < CountTo(m, j)
    decreases j - i
  {
    if i < j {
      CountToMonotone(m, i, j - 1);
    }
  }

  /** Maps that agree on their first i pixels have the same count there. */
  lemma {:induction false} CountToStable(a: seq<bool>, b: seq<bool>, i: nat)
    requires i <= |a| && i <= |b|
    requires forall p :: 0 <= p < i ==> a[p] == b[p]
    ensures CountTo(a, i) == CountTo(b, i)
  {
    if i > 0 {
      CountToStable(a, b, i - 1);
    }
  }

  lemma {:induction false} CountToSubset(a: seq<bool>, b: seq<bool>, i: nat)
    requires i <= |a| && i <= |b|
    requires forall p :: 0 <= p < i && a[p] ==> b[p]
    ensures CountTo(a, i) <= CountTo(b, i)
  {
    if i > 0 {
      CountToSubset(a, b, i - 1);
    }
  }

  /** A map that selects no more pixels than another, pixel by pixel, has no
   *  larger count. */
  lemma CountSubset(a: seq<bool>, b: seq<bool>)
    requires |a| == |b|
    requires forall p :: 0 <= p < |a| && a[p] ==> b[p]
    ensures Count(a) <= Count(b)
  {
    CountToSubset(a, b, |a|);
  }

  /** The pixels of f that m selects among the first i, in row-major order. */
  function SelectTo(f: seq<real>, m: seq<bool>, i: nat): (s: seq<real>)
    requires i <= |f| && i <= |m|
    ensures |s| == CountTo(m, i)
  {
    if i == 0 then []
    else if m[i - 1] then SelectTo(f, m, i - 1) + [f[i - 1]]
    else SelectTo(f, m, i - 1)
  }

  /** The pixels of f that m selects, in row-major order (`f[m]`). */
  function Select(f: seq<real>, m: seq<bool>): (s: seq<real>)
    requires |f| == |m|
    ensures |s| == Count(m)
  {
    SelectTo(f, m, |m|)
  }

  /** A selection over the first i pixels depends only on those pixels. */
  lemma {:induction false} SelectToStable(f: seq<real>, m: seq<bool>, g: seq<real>, b: seq<bool>, i: nat)
    requires i <= |f| && i <= |m| && i <= |g| && i <= |b|
    requires forall p :: 0 <= p < i ==> f[p] == g[p]
    requires forall p :: 0 <= p < i ==> m[p] == b[p]
    ensures SelectTo(f, m, i) == SelectTo(g, b, i)
  {
    if i > 0 {
      SelectToStable(f, m, g, b, i - 1);
    }
  }

  lemma {:induction false} SelectToAt(f: seq<real>, m: seq<bool>, i: nat, p: nat)
    requires i <= |f| && i <= |m| && p < i && m[p]
    ensures CountTo(m, p) < CountTo(m, i)
    ensures SelectTo(f, m, i)[CountTo(m, p)] == f[p]
  {
    CountToMonotone(m, p, i);
    if p < i - 1 {
      CountToMonotone(m, p, i - 1);
      SelectToAt(f, m, i - 1, p);
    }
  }

  /** The element of rank k of a selection is the k-th selected pixel. */
  lemma SelectAt(f: seq<real>, m: seq<bool>, p: nat)
    requires |f| == |m| && p < |m| && m[p]
    ensures CountTo(m, p) < Count(m)
    ensures Select(f, m)[CountTo(m, p)] == f[p]
  {
    SelectToAt(f, m, |m|, p);
  }

  lemma {:induction false} SelectToZeros(f: seq<real>, m: seq<bool>, i: nat)
    requires i <= |f| && i <= |m|
    requires forall p :: 0 <= p < |f| ==> f[p] == 0.0
    ensures SelectTo(f, m, i) == Zeros(CountTo(m, i))
  {
    if i > 0 {
      SelectToZeros(f, m, i - 1);
      ZerosAppend(CountTo(m, i - 1));
    }
  }

  /** The selection of a frame whose every pixel is zero is all zeros. */
  lemma SelectZeros(f: seq<real>, m: seq<bool>)
    requires |f| == |m|
    requires forall p :: 0 <= p < |f| ==> f[p] == 0.0
    ensures Select(f, m) == Zeros(Count(m))
  {
    SelectToZeros(f, m, |m|);
  }

  lemma {:induction false} SelectToScale(f: seq<real>, m: seq<bool>, c: real, i: nat)
    requires i <= |f| && i <= |m|
    ensures SelectTo(Scale(f, c), m, i) == Scale(SelectTo(f, m, i), c)
  {
    if i > 0 {
      SelectToScale(f, m, c, i - 1);
      var prev, x := SelectTo(f, m, i - 1), f[i - 1];
      assert Scale(f, c)[i - 1] == c * x;
      if m[i - 1] {
        ScaleAppend(prev, x, c);
      }
    } else {
      assert Scale([], c) == [];
    }
  }

  /** Selection commutes with scaling every pixel by the same factor. */
  lemma SelectScale(f: seq<real>, m: seq<bool>, c: real)
    requires |f| == |m|
    ensures Select(Scale(f, c), m) == Scale(Select(f, m), c)
  {
    SelectToScale(f, m, c, |m|);
  }

  lemma {:induction false} SelectToNonNegative(f: seq<real>, m: seq<bool>, i: nat)
    requires i <= |f| && i <= |m|
    requires forall p :: 0 <= p < |f| ==> f[p] >= 0.0
    ensures forall k :: 0 <= k < CountTo(m, i) ==> SelectTo(f, m, i)[k] >= 0.0
  {
    if i > 0 {
      SelectToNonNegative(f, m, i - 1);
    }
  }

  /** Every element of the selection of a non-negative frame is non-negative. */
  lemma SelectNonNegative(f: seq<real>, m: seq<bool>)
    requires |f| == |m|
    requires forall p :: 0 <= p < |f| ==> f[p] >= 0.0
    ensures forall k :: 0 <= k < Count(m) ==> Select(f, m)[k] >= 0.0
  {
    SelectToNonNegative(f, m, |m|);
  }

  /** The first i pixels of m with the selected pixel of rank k cleared wherever
   *  keep[k] is false. */
  function RetainTo(m: seq<bool>, keep: seq<bool>, i: nat): (r: seq<bool>)
    requires i <= |m| && CountTo(m, i) <= |keep|
    ensures |r| == i
  {
    if i == 0 then []
    else RetainTo(m, keep, i - 1) + [m[i - 1] && keep[CountTo(m, i - 1)]]
  }

  /** The map m with its k-th selected pixel cleared wherever keep[k] is false
   *  (numpy's `m[m] *= keep`). */
  function Retain(m: seq<bool>, keep: seq<bool>): (r: seq<bool>)
    requires |keep| == Count(m)
    ensures |r| == |m|
  {
    RetainTo(m, keep, |m|)
  }

  lemma {:induction false} RetainToAt(m: seq<bool>, keep: seq<bool>, i: nat, p: nat)
    requires i <= |m| && CountTo(m, i) <= |keep| && p < i
    ensures m[p] ==> CountTo(m, p) < |keep|
    ensures RetainTo(m, keep, i)[p] == (m[p] && keep[CountTo(m, p)])
  {
    CountToMonotone(m, p, i);
    if p < i - 1 {
      RetainToAt(m, keep, i - 1, p);
    }
  }

  /** Pixel p survives iff it was selected and its rank is kept. */
  lemma RetainAt(m: seq<bool>, keep: seq<bool>, p: nat)
    requires |keep| == Count(m) && p < |m|
    ensures m[p] ==> CountTo(m, p) < |keep|
    ensures Retain(m, keep)[p] == (m[p] && keep[CountTo(m, p)])
  {
    RetainToAt(m, keep, |m|, p);
  }

  lemma {:induction false} RetainToCount(m: seq<bool>, keep: seq<bool>, i: nat)
    requires i <= |m| && CountTo(m, i) <= |keep|
    ensures CountTo(RetainTo(m, keep, i), i) == CountTo(keep, CountTo(m, i))
  {
    if i > 0 {
      var r, r' := RetainTo(m, keep, i - 1), RetainTo(m, keep, i);
      RetainToCount(m, keep, i - 1);
      CountToStable(r', r, i - 1);
    }
  }

  /** The retained map selects one pixel per kept rank. */
  lemma RetainCount(m: seq<bool>, keep: seq<bool>)
    requires |keep| == Count(m)
    ensures Count(Retain(m, keep)) == Count(keep)
  {
    RetainToCount(m, keep, |m|);
  }

  lemma {:induction false} SelectRetainTo(f: seq<real>, m: seq<bool>, keep: seq<bool>, i: nat)
    requires i <= |f| && i <= |m| && CountTo(m, i) <= |keep|
    ensures SelectTo(f, RetainTo(m, keep, i), i) == SelectTo(SelectTo(f, m, i), keep, CountTo(m, i))
  {
    if i > 0 {
      var r, r' := RetainTo(m, keep, i - 1), RetainTo(m, keep, i);
      var s, s' := SelectTo(f, m, i - 1), SelectTo(f, m, i);
      var c := CountTo(m, i - 1);
      SelectRetainTo(f, m, keep, i - 1);
      SelectToStable(f, r', f, r, i - 1);
      SelectToStable(s', keep, s, keep, c);
    }
  }

  /** Selecting through the retained map is filtering the selection by keep. */
  lemma SelectRetain(f: seq<real>, m: seq<bool>, keep: seq<bool>)
    requires |f| == |m| && |keep| == Count(m)
    ensures Select(f, Retain(m, keep)) == Select(Select(f, m), keep)
  {
    SelectRetainTo(f, m, keep, |m|);
  }

  /** Keeping every rank leaves the map as it was. */
  lemma RetainAll(m: seq<bool>, keep: seq<bool>)
    requires |keep| == Count(m)
    requires forall k :: 0 <= k < |keep| ==> keep[k]
    ensures Retain(m, keep) == m
  {
    forall p | 0 <= p < |m|
      ensures Retain(m, keep)[p] == m[p]
    {
      RetainAt(m, keep, p);
    }
  }

  /** The first i pixels of a zeroed image into whose selected pixels the
   *  values v have been written in order. */
  function ScatterTo(v: seq<real>, m: seq<bool>, i: nat): (r: seq<real>)
    requires i <= |m| && CountTo(m, i) <= |v|
    ensures |r| == i
  {
    if i == 0 then []
    else ScatterTo(v, m, i - 1) + [if m[i - 1] then v[CountTo(m, i - 1)] else 0.0]
  }

  /** The values v written, in order, into the pixels m selects of a zeroed
   *  image (`img = zeros; img[m] = v`). */
  function Scatter(v: seq<real>, m: seq<bool>): (r: seq<real>)
    requires |v| == Count(m)
    ensures |r| == |m|
  {
    ScatterTo(v, m, |m|)
  }

  lemma {:induction false} ScatterToAt(v: seq<real>, m: seq<bool>, i: nat, p: nat)
    requires i <= |m| && CountTo(m, i) <= |v| && p < i
    ensures m[p] ==> CountTo(m, p) < |v|
    ensures ScatterTo(v, m, i)[p] == if m[p] then v[CountTo(m, p)] else 0.0
  {
    CountToMonotone(m, p, i);
    if p < i - 1 {
      ScatterToAt(v, m, i - 1, p);
    }
  }

  /** A scattered pixel holds the value of its rank, or zero when unselected. */
  lemma ScatterAt(v: seq<real>, m: seq<bool>, p: nat)
    requires |v| == Count(m) && p < |m|
    ensures m[p] ==> CountTo(m, p) < |v|
    ensures Scatter(v, m)[p] == if m[p] then v[CountTo(m, p)] else 0.0
  {
    ScatterToAt(v, m, |m|, p);
  }

  lemma {:induction false} SelectScatterTo(v: seq<real>, m: seq<bool>, i: nat)
    requires i <= |m| && CountTo(m, i) <= |v|
    ensures SelectTo(ScatterTo(v, m, i), m, i) == v[..CountTo(m, i)]
  {
    if i > 0 {
      var t, t' := ScatterTo(v, m, i - 1), ScatterTo(v, m, i);
      var c := CountTo(m, i - 1);
      SelectScatterTo(v, m, i - 1);
      SelectToStable(t', m, t, m, i - 1);
      if m[i - 1] {
        assert v[..c] + [v[c]] == v[..c + 1];
      }
    }
  }

  /** Scattering and then selecting through the same map gives the values back. */
  lemma SelectScatter(v: seq<real>, m: seq<bool>)
    requires |v| == Count(m)
    ensures Select(Scatter(v, m), m) == v
  {
    SelectScatterTo(v, m, |m|);
    assert v[..|v|] == v;
  }

  /** A vector of n zeros (`np.zeros(n)`). */
  function Zeros(n: nat): (z: seq<real>)
    ensures |z| == n && forall k :: 0 <= k < n ==> z[k] == 0.0
  {
    seq(n, _ => 0.0)
  }

  lemma ZerosAppend(n: nat)
    ensures Zeros(n) + [0.0] == Zeros(n + 1)
  {
    assert forall k :: 0 <= k < n + 1 ==> (Zeros(n) + [0.0])[k] == 0.0;
  }

  /** Elementwise sum of two vectors of the same length. */
  function Add(a: seq<real>, b: seq<real>): (s: seq<real>)
    requires |a| == |b|
    ensures |s| == |a| && forall k :: 0 <= k < |a| ==> s[k] == a[k] + b[k]
  {
    seq(|a|, k requires 0 <= k < |a| => a[k] + b[k])
  }

  /** Elementwise difference of two vectors of the same length. */
  function Subtract(a: seq<real>, b: seq<real>): (s: seq<real>)
    requires |a| == |b|
    ensures |s| == |a| && forall k :: 0 <= k < |a| ==> s[k] == a[k] - b[k]
  {
    seq(|a|, k requires 0 <= k < |a| => a[k] - b[k])
  }

  /** Every element multiplied by c. */
  function Scale(a: seq<real>, c: real): (s: seq<real>)
    ensures |s| == |a| && forall k :: 0 <= k < |a| ==> s[k] == c * a[k]
  {
    seq(|a|, k requires 0 <= k < |a| => c * a[k])
  }

  lemma ScaleAppend(s: seq<real>, x: real, c: real)
    ensures Scale(s + [x], c) == Scale(s, c) + [c * x]
  {
    var a, b := Scale(s + [x], c), Scale(s, c) + [c * x];
    forall k | 0 <= k < |s| + 1
      ensures a[k] == b[k]
    {
      assert a[k] == c * (s + [x])[k];
    }
  }

  /** Sum of the first i elements. */
  function SumTo(s: seq<real>, i: nat): real
    requires i <= |s|
  {
    if i == 0 then 0.0 else SumTo(s, i - 1) + s[i - 1]
  }

  /** Sum of the elements (`np.sum`). */
  function Sum(s: seq<real>): real
  {
    SumTo(s, |s|)
  }

  lemma {:induction false} SumToZeros(n: nat, i: nat)
    requires i <= n
    ensures SumTo(Zeros(n), i) == 0.0
  {
    if i > 0 {
      SumToZeros(n, i - 1);
    }
  }

  lemma SumZeros(n: nat)
    ensures Sum(Zeros(n)) == 0.0
  {
    SumToZeros(n, n);
  }

  lemma {:induction false} SumToScale(s: seq<real>, c: real, i: nat)
    requires i <= |s|
    ensures SumTo(Scale(s, c), i) == c * SumTo(s, i)
  {
    if i > 0 {
      SumToScale(s, c, i - 1);
    }
  }

  lemma SumScale(s: seq<real>, c: real)
    ensures Sum(Scale(s, c)) == c * Sum(s)
  {
    SumToScale(s, c, |s|);
  }

  lemma {:induction false} SumToNonNegative(s: seq<real>, i: nat)
    requires i <= |s|
    requires forall k :: 0 <= k < |s| ==> s[k] >= 0.0
    ensures SumTo(s, i) >= 0.0
  {
    if i > 0 {
      SumToNonNegative(s, i - 1);
    }
  }

  /** A sum of non-negative elements is non-negative. */
  lemma SumNonNegative(s: seq<real>)
    requires forall k :: 0 <= k < |s| ==> s[k] >= 0.0
    ensures Sum(s) >= 0.0
  {
    SumToNonNegative(s, |s|);
  }
}
