/**
 * Nearest-bin selection and one-hot encoding (Algorithm 4, `one_hot`, and the
 * distance binning of the confidence head). Both pick the bin whose centre is
 * closest to the value, `argmin_k |x - bins[k]|`; like `torch.argmin`, ties go
 * to the lowest index.
 */
module Binning {

  function Abs(x: real): (r: real)
    ensures r >= 0.0
    ensures r == x || r == -x
  {
    if x < 0.0 then -x else x
  }

  /** `k` is the first index of a bin closest to `x`. */
  ghost predicate IsFirstNearest(x: real, bins: seq<real>, k: nat)
  {
    && k < |bins|
    && (forall j :: 0 <= j < |bins| ==> Abs(x - bins[k]) <= Abs(x - bins[j]))
    && (forall j :: 0 <= j < k ==> Abs(x - bins[k]) < Abs(x - bins[j]))
  }

  /** The index `torch.argmin(|x - bins|)` returns. */
  function NearestBin(x: real, bins: seq<real>): (k: nat)
    requires |bins| > 0
    ensures IsFirstNearest(x, bins, k)
    decreases |bins|
  {
    if |bins| == 1 then 0
    else
      var last := |bins| - 1;
      var k := NearestBin(x, bins[..last]);
      assert forall j :: 0 <= j < last ==> bins[..last][j] == bins[j];
      if Abs(x - bins[last]) < Abs(x - bins[k]) then last else k
  }

  /** The first-nearest index is unique, so `NearestBin` is the only index meeting it. */
  lemma FirstNearestUnique(x: real, bins: seq<real>, k1: nat, k2: nat)
    requires IsFirstNearest(x, bins, k1) && IsFirstNearest(x, bins, k2)
    ensures k1 == k2
  {
    var d1, d2 := Abs(x - bins[k1]), Abs(x - bins[k2]);
    assert d1 <= d2 && d2 <= d1;
  }

  /** The vector of length `n` with a single 1 at `k` (all zeros if `k >= n`). */
  function OneHotAt(k: nat, n: nat): (p: seq<real>)
    ensures |p| == n
    ensures forall i :: 0 <= i < n ==> (p[i] == 1.0 <==> i == k)
    ensures forall i :: 0 <= i < n ==> p[i] == 0.0 || p[i] == 1.0
  {
    seq(n, i => if i == k then 1.0 else 0.0)
  }

  /** Number of entries equal to 1. */
  function Ones(p: seq<real>): (c: nat)
    ensures c <= |p|
  {
    if |p| == 0 then 0 else Ones(p[..|p| - 1]) + (if p[|p| - 1] == 1.0 then 1 else 0)
  }

  lemma {:induction false} OnesOfOneHot(k: nat, n: nat)
    ensures Ones(OneHotAt(k, n)) == (if k < n then 1 else 0)
    decreases n
  {
    if n > 0 {
      var p := OneHotAt(k, n);
      assert p[..n - 1] == OneHotAt(k, n - 1);
      OnesOfOneHot(k, n - 1);
    }
  }

  /** Index of the first entry equal to 1, or `|p|` when there is none. */
  function FirstOne(p: seq<real>): (i: nat)
    ensures i <= |p|
    ensures i < |p| ==> p[i] == 1.0
    ensures forall j :: 0 <= j < i ==> p[j] != 1.0
  {
    if |p| == 0 then 0
    else if p[0] == 1.0 then 0
    else 1 + FirstOne(p[1..])
  }

  /** Reading back the position of the 1 recovers the encoded index. */
  lemma OneHotAtDecodes(k: nat, n: nat)
    requires k < n
    ensures FirstOne(OneHotAt(k, n)) == k
  {
    var p := OneHotAt(k, n);
    assert p[k] == 1.0;
  }

  /** `one_hot(x, bins)`: a 1 at the nearest bin, 0 elsewhere. */
  function OneHot(x: real, bins: seq<real>): (p: seq<real>)
    requires |bins| > 0
    ensures |p| == |bins|
    ensures Ones(p) == 1
    ensures FirstOne(p) < |p| && IsFirstNearest(x, bins, FirstOne(p))
    ensures forall i :: 0 <= i < |p| ==> p[i] == 0.0 || p[i] == 1.0
    ensures forall i :: 0 <= i < |p| ==> (p[i] == 1.0 <==> IsFirstNearest(x, bins, i))
  {
    var k := NearestBin(x, bins);
    OnesOfOneHot(k, |bins|);
    OneHotAtDecodes(k, |bins|);
    forall i | 0 <= i < |bins| && IsFirstNearest(x, bins, i)
      ensures i == k
    {
      FirstNearestUnique(x, bins, i, k);
    }
    OneHotAt(k, |bins|)
  }

  /** The integer bins `[0, 1, ..., n-1]`. */
  function Bins(n: nat): (b: seq<real>)
    ensures |b| == n
    ensures forall i :: 0 <= i < n ==> b[i] == i as real
  {
    seq(n, i => i as real)
  }

  /** On integer bins an in-range integer is its own nearest bin. */
  lemma NearestIntegerBin(d: nat, n: nat)
    requires d < n
    ensures NearestBin(d as real, Bins(n)) == d
  {
    var b := Bins(n);
    assert Abs(d as real - b[d]) == 0.0;
    forall j | 0 <= j < d
      ensures Abs(d as real - b[d]) < Abs(d as real - b[j])
    {
      assert b[j] == j as real;
    }
    FirstNearestUnique(d as real, b, d, NearestBin(d as real, b));
  }

  /** One-hot over integer bins is the standard one-hot of width `n`. */
  lemma OneHotIntegerBins(d: nat, n: nat)
    requires d < n
    ensures OneHot(d as real, Bins(n)) == OneHotAt(d, n)
  {
    NearestIntegerBin(d, n);
  }

  /**
   * Distance binning of the confidence head: every entry of a distance matrix
   * is replaced by the index of its nearest distance bin.
   */
  function DistanceBinIndices(dist: seq<seq<real>>, bins: seq<real>): (idx: seq<seq<nat>>)
    requires |bins| > 0
    ensures |idx| == |dist|
    ensures forall i :: 0 <= i < |dist| ==> |idx[i]| == |dist[i]|
    ensures forall i, j :: 0 <= i < |dist| && 0 <= j < |dist[i]| ==>
              IsFirstNearest(dist[i][j], bins, idx[i][j])
  {
    seq(|dist|, i requires 0 <= i < |dist| =>
      seq(|dist[i]|, j requires 0 <= j < |dist[i]| => NearestBin(dist[i][j], bins)))
  }
}
