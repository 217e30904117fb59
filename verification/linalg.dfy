/**
 * Three-dimensional vectors and 3x3 matrices over the reals, with the
 * operations weighted rigid alignment is built from. A point is a row vector;
 * `VecMat(p, r)` is `p · r`, the `'bni,bij->bnj'` contraction.
 */
module Linalg {

  /** Plain sum of a sequence of reals. */
  function Sum(vals: seq<real>): real
  {
    if |vals| == 0 then 0.0 else vals[0] + Sum(vals[1..])
  }

  datatype Vec3 = Vec3(x: real, y: real, z: real)

  /** A matrix given by its three rows. */
  datatype Mat3 = Mat3(r0: Vec3, r1: Vec3, r2: Vec3)

  const Zero3: Vec3 := Vec3(0.0, 0.0, 0.0)

  function Add(a: Vec3, b: Vec3): Vec3
  {
    Vec3(a.x + b.x, a.y + b.y, a.z + b.z)
  }

  function Sub(a: Vec3, b: Vec3): Vec3
  {
    Vec3(a.x - b.x, a.y - b.y, a.z - b.z)
  }

  function Scale(s: real, a: Vec3): Vec3
  {
    Vec3(s * a.x, s * a.y, s * a.z)
  }

  function Dot(a: Vec3, b: Vec3): real
  {
    a.x * b.x + a.y * b.y + a.z * b.z
  }

  /** Column 0, 1 or 2 of `m`. */
  function Col(m: Mat3, j: nat): Vec3
    requires j < 3
  {
    if j == 0 then Vec3(m.r0.x, m.r1.x, m.r2.x)
    else if j == 1 then Vec3(m.r0.y, m.r1.y, m.r2.y)
    else Vec3(m.r0.z, m.r1.z, m.r2.z)
  }

  /** Row vector times matrix. */
  function VecMat(p: Vec3, m: Mat3): Vec3
  {
    Vec3(Dot(p, Col(m, 0)), Dot(p, Col(m, 1)), Dot(p, Col(m, 2)))
  }

  function MatMul(a: Mat3, b: Mat3): (c: Mat3)
  {
    Mat3(VecMat(a.r0, b), VecMat(a.r1, b), VecMat(a.r2, b))
  }

  /** Multiplying by `a · b` is multiplying by `a`, then by `b`. */
  lemma MatMulComposes(p: Vec3, a: Mat3, b: Mat3)
    ensures VecMat(p, MatMul(a, b)) == VecMat(VecMat(p, a), b)
  {
  }

  /** The cross product. */
  function Cross(a: Vec3, b: Vec3): Vec3
  {
    Vec3(a.y * b.z - a.z * b.y, a.z * b.x - a.x * b.z, a.x * b.y - a.y * b.x)
  }

  /** The determinant, expanded along the first row; it is the triple product of the rows. */
  function Det(m: Mat3): (d: real)
    ensures d == Dot(m.r0, Cross(m.r1, m.r2))
  {
    m.r0.x * (m.r1.y * m.r2.z - m.r1.z * m.r2.y)
    - m.r0.y * (m.r1.x * m.r2.z - m.r1.z * m.r2.x)
    + m.r0.z * (m.r1.x * m.r2.y - m.r1.y * m.r2.x)
  }

  /** `m` with the sign of its last column flipped (`V[:, -1] *= -1`). */
  function NegateLastColumn(m: Mat3): (n: Mat3)
    ensures Col(n, 0) == Col(m, 0) && Col(n, 1) == Col(m, 1)
    ensures Col(n, 2) == Scale(-1.0, Col(m, 2))
  {
    Mat3(Vec3(m.r0.x, m.r0.y, -m.r0.z), Vec3(m.r1.x, m.r1.y, -m.r1.z), Vec3(m.r2.x, m.r2.y, -m.r2.z))
  }

  /** Flipping one column flips the sign of the determinant. */
  lemma DetNegateLastColumn(m: Mat3)
    ensures Det(NegateLastColumn(m)) == -Det(m)
  {
  }

  /** Flipping the last column of the right factor flips the last column of the product. */
  lemma MatMulNegateLastColumn(a: Mat3, b: Mat3)
    ensures MatMul(a, NegateLastColumn(b)) == NegateLastColumn(MatMul(a, b))
  {
  }

  /** The correction of a reflection: flipping `V`'s last column negates `det(U·V)`. */
  lemma DetOfCorrectedProduct(u: Mat3, v: Mat3)
    ensures Det(MatMul(u, NegateLastColumn(v))) == -Det(MatMul(u, v))
  {
    MatMulNegateLastColumn(u, v);
    DetNegateLastColumn(MatMul(u, v));
  }

  lemma VecMatAdd(a: Vec3, b: Vec3, m: Mat3)
    ensures VecMat(Add(a, b), m) == Add(VecMat(a, m), VecMat(b, m))
  {
  }

  lemma VecMatScale(s: real, a: Vec3, m: Mat3)
    ensures VecMat(Scale(s, a), m) == Scale(s, VecMat(a, m))
  {
  }

  lemma VecMatSub(a: Vec3, b: Vec3, m: Mat3)
    ensures Sub(VecMat(a, m), VecMat(b, m)) == VecMat(Sub(a, b), m)
  {
  }

  lemma VecMatZero(m: Mat3)
    ensures VecMat(Zero3, m) == Zero3
  {
  }

  lemma ScaleAdd(s: real, a: Vec3, b: Vec3)
    ensures Scale(s, Add(a, b)) == Add(Scale(s, a), Scale(s, b))
  {
  }

  lemma ScaleSub(s: real, a: Vec3, b: Vec3)
    ensures Scale(s, Sub(a, b)) == Sub(Scale(s, a), Scale(s, b))
  {
  }

  lemma ScaleSumWeights(s: real, t: real, a: Vec3)
    ensures Scale(s + t, a) == Add(Scale(s, a), Scale(t, a))
  {
  }

  lemma ScaleScale(s: real, t: real, a: Vec3)
    ensures Scale(s, Scale(t, a)) == Scale(s * t, a)
  {
  }

  lemma ScaleOne(a: Vec3)
    ensures Scale(1.0, a) == a
  {
  }
}
