/**
 * Weighted rigid alignment (Algorithm 28, `WeightedRigidAlign.forward`).
 * Both point sets are centred on their weighted centroids, the weighted
 * cross-covariance is factored by a singular value decomposition, a rotation
 * is formed from the factors with a reflection correction, and the centred
 * predicted points are rotated and moved onto the true centroid. The
 * decomposition itself is a parameter: any `svd` function may be supplied.
 */
module RigidAlign {
  import opened Linalg


  /** `sum_n ws[n] * ps[n]`. */
  function WeightedSum(ps: seq<Vec3>, ws: seq<real>): Vec3
    requires |ps| == |ws|
  {
    if |ps| == 0 then Zero3 else Add(Scale(ws[0], ps[0]), WeightedSum(ps[1..], ws[1..]))
  }

  /** The weighted centroid: the point that, weighted by the total weight, is the weighted sum. */
  function Centroid(ps: seq<Vec3>, ws: seq<real>): (c: Vec3)
    requires |ps| == |ws| && Sum(ws) != 0.0
    ensures Scale(Sum(ws), c) == WeightedSum(ps, ws)
  {
    var t := Sum(ws);
    var s := WeightedSum(ps, ws);
    ScaleScale(t, 1.0 / t, s);
    assert t * (1.0 / t) == 1.0;
    ScaleOne(s);
    Scale(1.0 / t, s)
  }

  /** Every point moved by `-c`. */
  function Centre(ps: seq<Vec3>, c: Vec3): (qs: seq<Vec3>)
    ensures |qs| == |ps|
    ensures forall n :: 0 <= n < |ps| ==> Add(qs[n], c) == ps[n]
  {
    seq(|ps|, n requires 0 <= n < |ps| => Sub(ps[n], c))
  }

  /** Every point moved by `+s`. */
  function Translate(ps: seq<Vec3>, s: Vec3): (qs: seq<Vec3>)
    ensures |qs| == |ps|
  {
    seq(|ps|, n requires 0 <= n < |ps| => Add(ps[n], s))
  }

  /** Outer product `a bᵀ`. */
  function Outer(a: Vec3, b: Vec3): Mat3
  {
    Mat3(Scale(a.x, b), Scale(a.y, b), Scale(a.z, b))
  }

  function AddMat(a: Mat3, b: Mat3): Mat3
  {
    Mat3(Add(a.r0, b.r0), Add(a.r1, b.r1), Add(a.r2, b.r2))
  }

  const ZeroMat: Mat3 := Mat3(Zero3, Zero3, Zero3)

  /** The weighted cross-covariance `sum_n ws[n] * tc[n] pc[n]ᵀ` (`'bni,bnj->bij'`). */
  function Covariance(tc: seq<Vec3>, pc: seq<Vec3>, ws: seq<real>): Mat3
    requires |tc| == |pc| == |ws|
  {
    if |ws| == 0 then ZeroMat
    else AddMat(Outer(Scale(ws[0], tc[0]), pc[0]), Covariance(tc[1..], pc[1..], ws[1..]))
  }

  /** The two factors `U` and `V` that `torch.svd` returns (the singular values are unused). */
  datatype Svd = Svd(u: Mat3, v: Mat3)

  /**
   * The rotation `U·V` (the product as the code forms it), recomputed with
   * the last column of `V` negated when its determinant is negative.
   */
  function Rotation(f: Svd): (r: Mat3)
    ensures Det(r) >= 0.0
    ensures Det(MatMul(f.u, f.v)) >= 0.0 ==> r == MatMul(f.u, f.v)
    ensures Det(MatMul(f.u, f.v)) < 0.0 ==>
              r == MatMul(f.u, NegateLastColumn(f.v)) && Det(r) == -Det(MatMul(f.u, f.v))
  {
    var r := MatMul(f.u, f.v);
    if Det(r) < 0.0 then
      DetOfCorrectedProduct(f.u, f.v);
      MatMul(f.u, NegateLastColumn(f.v))
    else r
  }

  /** The batched reflection fix: each element's rotation from its own factors. */
  function Rotations(fs: seq<Svd>): (rs: seq<Mat3>)
    ensures |rs| == |fs|
    ensures forall b :: 0 <= b < |fs| ==> Det(rs[b]) >= 0.0
    ensures forall b :: 0 <= b < |fs| && Det(MatMul(fs[b].u, fs[b].v)) >= 0.0 ==>
              rs[b] == MatMul(fs[b].u, fs[b].v)
    ensures forall b :: 0 <= b < |fs| && Det(MatMul(fs[b].u, fs[b].v)) < 0.0 ==>
              rs[b] == MatMul(fs[b].u, NegateLastColumn(fs[b].v)) && Det(rs[b]) == -Det(MatMul(fs[b].u, fs[b].v))
  {
    seq(|fs|, b requires 0 <= b < |fs| => Rotation(fs[b]))
  }

  /** `p · r + t` for every point. */
  function Transform(ps: seq<Vec3>, r: Mat3, t: Vec3): (qs: seq<Vec3>)
    ensures |qs| == |ps|
    ensures forall n :: 0 <= n < |ps| ==> Sub(qs[n], t) == VecMat(ps[n], r)
  {
    seq(|ps|, n requires 0 <= n < |ps| => Add(VecMat(ps[n], r), t))
  }

  /** The rotation the alignment applies for the given factorisation. */
  function AlignRotation(pred: seq<Vec3>, truth: seq<Vec3>, ws: seq<real>, svd: Mat3 -> Svd): (r: Mat3)
    requires |pred| == |truth| == |ws| && Sum(ws) != 0.0
    ensures Det(r) >= 0.0
  {
    var pc := Centre(pred, Centroid(pred, ws));
    var tc := Centre(truth, Centroid(truth, ws));
    Rotation(svd(Covariance(tc, pc, ws)))
  }

  /**
   * `WeightedRigidAlign.forward` for one batch element. Whatever rotation the
   * factors produce, the aligned points keep the true weighted centroid, and
   * the offset between any two of them is the offset between the matching
   * predicted points, rotated. The two facts together fix the output.
   */
  function Align(pred: seq<Vec3>, truth: seq<Vec3>, ws: seq<real>, svd: Mat3 -> Svd): (aligned: seq<Vec3>)
    requires |pred| == |truth| == |ws| && Sum(ws) != 0.0
    ensures |aligned| == |pred|
    ensures Centroid(aligned, ws) == Centroid(truth, ws)
    ensures forall n, m :: 0 <= n < |pred| && 0 <= m < |pred| ==>
              Sub(aligned[n], aligned[m]) == VecMat(Sub(pred[n], pred[m]), AlignRotation(pred, truth, ws, svd))
  {
    var pc := Centre(pred, Centroid(pred, ws));
    var r := AlignRotation(pred, truth, ws, svd);
    var tc := Centroid(truth, ws);
    var aligned := Transform(pc, r, tc);
    forall n, m | 0 <= n < |pred| && 0 <= m < |pred|
      ensures Sub(aligned[n], aligned[m]) == VecMat(Sub(pred[n], pred[m]), r)
    {
      assert Sub(aligned[n], tc) == VecMat(pc[n], r);
      assert Sub(aligned[m], tc) == VecMat(pc[m], r);
      assert Sub(pc[n], pc[m]) == Sub(pred[n], pred[m]);
      VecMatSub(pc[n], pc[m], r);
    }
    CentredSumZero(pred, ws);
    WeightedSumTransform(pc, ws, r, tc);
    VecMatZero(r);
    assert WeightedSum(aligned, ws) == Scale(Sum(ws), tc);
    CentroidOfScaled(aligned, ws, tc);
    aligned
  }

  /** The batched alignment: every batch element aligned with its own weights. */
  function AlignBatch(preds: seq<seq<Vec3>>, truths: seq<seq<Vec3>>, wss: seq<seq<real>>, svd: Mat3 -> Svd)
    : (aligned: seq<seq<Vec3>>)
    requires |preds| == |truths| == |wss|
    requires forall b :: 0 <= b < |preds| ==>
               |preds[b]| == |truths[b]| == |wss[b]| && Sum(wss[b]) != 0.0
    ensures |aligned| == |preds|
    ensures forall b :: 0 <= b < |preds| ==>
              |aligned[b]| == |preds[b]| && Centroid(aligned[b], wss[b]) == Centroid(truths[b], wss[b])
    ensures forall b, n, m :: 0 <= b < |preds| && 0 <= n < |preds[b]| && 0 <= m < |preds[b]| ==>
              Sub(aligned[b][n], aligned[b][m])
              == VecMat(Sub(preds[b][n], preds[b][m]), AlignRotation(preds[b], truths[b], wss[b], svd))
  {
    seq(|preds|, b requires 0 <= b < |preds| => Align(preds[b], truths[b], wss[b], svd))
  }

  /** `(1/t) * (t * x) == x` and `t * ((1/t) * x) == x` for `t != 0`. */
  lemma InverseCancels(t: real, x: real)
    requires t != 0.0
    ensures 1.0 / t * (t * x) == x
    ensures t * (1.0 / t * x) == x
  {
    assert 1.0 / t * t == 1.0;
    assert 1.0 / t * (t * x) == (1.0 / t * t) * x;
    assert t * (1.0 / t * x) == (1.0 / t * t) * x;
  }

  /** Scaling by `t` and then by `1/t` returns the vector. */
  lemma ScaleByInverse(t: real, c: Vec3)
    requires t != 0.0
    ensures Scale(1.0 / t, Scale(t, c)) == c
  {
    InverseCancels(t, c.x);
    InverseCancels(t, c.y);
    InverseCancels(t, c.z);
  }

  /** One step of `WeightedSumCentre`: distributing the weight over a difference. */
  lemma CentreStep(w: real, p: Vec3, c: Vec3, rest: Vec3, t: real)
    ensures Add(Scale(w, Sub(p, c)), Sub(rest, Scale(t, c))) == Sub(Add(Scale(w, p), rest), Scale(w + t, c))
  {
    ScaleSub(w, p, c);
    ScaleSumWeights(w, t, c);
  }

  /** One step of `WeightedSumTranslate`: distributing the weight over a sum. */
  lemma TranslateStep(w: real, p: Vec3, s: Vec3, rest: Vec3, t: real)
    ensures Add(Scale(w, Add(p, s)), Add(rest, Scale(t, s))) == Add(Add(Scale(w, p), rest), Scale(w + t, s))
  {
    ScaleAdd(w, p, s);
    ScaleSumWeights(w, t, s);
  }

  /** Centring on `c` lowers the weighted sum by `(sum w) * c`. */
  lemma {:induction false} WeightedSumCentre(ps: seq<Vec3>, ws: seq<real>, c: Vec3)
    requires |ps| == |ws|
    ensures WeightedSum(Centre(ps, c), ws) == Sub(WeightedSum(ps, ws), Scale(Sum(ws), c))
  {
    if |ps| == 0 {
      assert WeightedSum(Centre(ps, c), ws) == Zero3;
    } else {
      var qs := Centre(ps, c);
      assert qs[0] == Sub(ps[0], c);
      assert qs[1..] == Centre(ps[1..], c);
      var rest := WeightedSum(ps[1..], ws[1..]);
      var t := Sum(ws[1..]);
      WeightedSumCentre(ps[1..], ws[1..], c);
      assert WeightedSum(qs, ws) == Add(Scale(ws[0], Sub(ps[0], c)), Sub(rest, Scale(t, c)));
      CentreStep(ws[0], ps[0], c, rest, t);
    }
  }

  /** Translating every point by `s` raises the weighted sum by `(sum w) * s`. */
  lemma {:induction false} WeightedSumTranslate(ps: seq<Vec3>, ws: seq<real>, s: Vec3)
    requires |ps| == |ws|
    ensures WeightedSum(Translate(ps, s), ws) == Add(WeightedSum(ps, ws), Scale(Sum(ws), s))
  {
    if |ps| == 0 {
      assert WeightedSum(Translate(ps, s), ws) == Zero3;
    } else {
      var qs := Translate(ps, s);
      assert qs[0] == Add(ps[0], s);
      assert qs[1..] == Translate(ps[1..], s);
      var rest := WeightedSum(ps[1..], ws[1..]);
      var t := Sum(ws[1..]);
      WeightedSumTranslate(ps[1..], ws[1..], s);
      assert WeightedSum(qs, ws) == Add(Scale(ws[0], Add(ps[0], s)), Add(rest, Scale(t, s)));
      TranslateStep(ws[0], ps[0], s, rest, t);
    }
  }

  /** The weighted sum commutes with a rigid map `p · r + t`. */
  lemma {:induction false} WeightedSumTransform(ps: seq<Vec3>, ws: seq<real>, r: Mat3, t: Vec3)
    requires |ps| == |ws|
    ensures WeightedSum(Transform(ps, r, t), ws)
         == Add(VecMat(WeightedSum(ps, ws), r), Scale(Sum(ws), t))
  {
    if |ps| == 0 {
      VecMatZero(r);
      assert WeightedSum(Transform(ps, r, t), ws) == Zero3;
    } else {
      var qs := Transform(ps, r, t);
      assert qs[0] == Add(VecMat(ps[0], r), t);
      assert qs[1..] == Transform(ps[1..], r, t);
      var rest := WeightedSum(ps[1..], ws[1..]);
      var tw := Sum(ws[1..]);
      WeightedSumTransform(ps[1..], ws[1..], r, t);
      assert WeightedSum(qs, ws) == Add(Scale(ws[0], Add(VecMat(ps[0], r), t)), Add(VecMat(rest, r), Scale(tw, t)));
      VecMatScale(ws[0], ps[0], r);
      VecMatAdd(Scale(ws[0], ps[0]), rest, r);
      TranslateStep(ws[0], VecMat(ps[0], r), t, VecMat(rest, r), tw);
    }
  }

  /** One step of `CovarianceShift`, row by row. */
  lemma OuterShiftStep(a: Vec3, p: Vec3, s: Vec3, c: Mat3, rest: Vec3)
    ensures AddMat(Outer(a, Add(p, s)), AddMat(c, Outer(rest, s)))
         == AddMat(AddMat(Outer(a, p), c), Outer(Add(a, rest), s))
  {
    TranslateStep(a.x, p, s, c.r0, rest.x);
    TranslateStep(a.y, p, s, c.r1, rest.y);
    TranslateStep(a.z, p, s, c.r2, rest.z);
  }

  /**
   * Translating the second point set by `s` adds `(sum w t) sᵀ` to the
   * covariance: the weighted sum of the first set, times `s`.
   */
  lemma {:induction false} CovarianceShift(tc: seq<Vec3>, pc: seq<Vec3>, ws: seq<real>, s: Vec3)
    requires |tc| == |pc| == |ws|
    ensures Covariance(tc, Translate(pc, s), ws) == AddMat(Covariance(tc, pc, ws), Outer(WeightedSum(tc, ws), s))
  {
    var qs := Translate(pc, s);
    if |ws| == 0 {
      assert Outer(Zero3, s) == ZeroMat;
    } else {
      assert qs[0] == Add(pc[0], s);
      assert qs[1..] == Translate(pc[1..], s);
      var a := Scale(ws[0], tc[0]);
      var c := Covariance(tc[1..], pc[1..], ws[1..]);
      var rest := WeightedSum(tc[1..], ws[1..]);
      CovarianceShift(tc[1..], pc[1..], ws[1..], s);
      assert Covariance(tc, qs, ws) == AddMat(Outer(a, Add(pc[0], s)), AddMat(c, Outer(rest, s)));
      OuterShiftStep(a, pc[0], s, c, rest);
    }
  }

  /** When the first set has weighted sum zero, translating the second leaves the covariance unchanged. */
  lemma CentredCovarianceShift(tc: seq<Vec3>, pc: seq<Vec3>, ws: seq<real>, s: Vec3)
    requires |tc| == |pc| == |ws| && WeightedSum(tc, ws) == Zero3
    ensures Covariance(tc, Translate(pc, s), ws) == Covariance(tc, pc, ws)
  {
    CovarianceShift(tc, pc, ws, s);
    assert Outer(Zero3, s) == ZeroMat;
  }

  /** A weighted sum `(sum w) * c` has centroid `c`. */
  lemma CentroidOfScaled(ps: seq<Vec3>, ws: seq<real>, c: Vec3)
    requires |ps| == |ws| && Sum(ws) != 0.0
    requires WeightedSum(ps, ws) == Scale(Sum(ws), c)
    ensures Centroid(ps, ws) == c
  {
    var t := Sum(ws);
    assert Centroid(ps, ws) == Scale(1.0 / t, Scale(t, c));
    ScaleByInverse(t, c);
  }

  /** Points centred on their own weighted centroid have weighted sum zero. */
  lemma CentredSumZero(ps: seq<Vec3>, ws: seq<real>)
    requires |ps| == |ws| && Sum(ws) != 0.0
    ensures WeightedSum(Centre(ps, Centroid(ps, ws)), ws) == Zero3
  {
    WeightedSumCentre(ps, ws, Centroid(ps, ws));
  }

  /** Translating a point set moves its weighted centroid by the same amount. */
  lemma CentroidTranslate(ps: seq<Vec3>, ws: seq<real>, s: Vec3)
    requires |ps| == |ws| && Sum(ws) != 0.0
    ensures Centroid(Translate(ps, s), ws) == Add(Centroid(ps, ws), s)
  {
    var t := Sum(ws);
    var c := Centroid(ps, ws);
    WeightedSumTranslate(ps, ws, s);
    ScaleAdd(t, c, s);
    assert WeightedSum(Translate(ps, s), ws) == Scale(t, Add(c, s));
    CentroidOfScaled(Translate(ps, s), ws, Add(c, s));
  }

  /** Centring is unaffected by moving the points and the centre together. */
  lemma CentreTranslate(ps: seq<Vec3>, c: Vec3, s: Vec3)
    ensures Centre(Translate(ps, s), Add(c, s)) == Centre(ps, c)
  {
  }

  /** Moving the prediction rigidly by `s` does not change the aligned result. */
  lemma AlignIgnoresPredictionShift(pred: seq<Vec3>, truth: seq<Vec3>, ws: seq<real>, svd: Mat3 -> Svd, s: Vec3)
    requires |pred| == |truth| == |ws| && Sum(ws) != 0.0
    ensures Align(Translate(pred, s), truth, ws, svd) == Align(pred, truth, ws, svd)
  {
    CentroidTranslate(pred, ws, s);
    CentreTranslate(pred, Centroid(pred, ws), s);
  }

  /** A larger translation in a rigid map moves every image point by the difference. */
  lemma TransformShift(ps: seq<Vec3>, r: Mat3, t: Vec3, s: Vec3)
    ensures Transform(ps, r, Add(t, s)) == Translate(Transform(ps, r, t), s)
  {
  }

  /** The rotation does not see a translation of the true coordinates. */
  lemma AlignRotationTruthShift(pred: seq<Vec3>, truth: seq<Vec3>, ws: seq<real>, svd: Mat3 -> Svd, s: Vec3)
    requires |pred| == |truth| == |ws| && Sum(ws) != 0.0
    ensures AlignRotation(pred, Translate(truth, s), ws, svd) == AlignRotation(pred, truth, ws, svd)
  {
    var tc := Centroid(truth, ws);
    CentroidTranslate(truth, ws, s);
    CentreTranslate(truth, tc, s);
    assert Centre(Translate(truth, s), Centroid(Translate(truth, s), ws)) == Centre(truth, tc);
  }

  /** Moving the true coordinates by `s` moves the aligned result by `s`. */
  lemma AlignFollowsTruthShift(pred: seq<Vec3>, truth: seq<Vec3>, ws: seq<real>, svd: Mat3 -> Svd, s: Vec3)
    requires |pred| == |truth| == |ws| && Sum(ws) != 0.0
    ensures Align(pred, Translate(truth, s), ws, svd) == Translate(Align(pred, truth, ws, svd), s)
  {
    var tc := Centroid(truth, ws);
    var pc := Centre(pred, Centroid(pred, ws));
    var r := AlignRotation(pred, truth, ws, svd);
    CentroidTranslate(truth, ws, s);
    AlignRotationTruthShift(pred, truth, ws, svd, s);
    assert Align(pred, Translate(truth, s), ws, svd) == Transform(pc, r, Add(tc, s));
    TransformShift(pc, r, tc, s);
  }
}
