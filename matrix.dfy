/** 3x3 perspective transforms and the distance to the identity that both the
    alignment worker and the loader test against a tolerance. */
module Matrix {

  /** A 3x3 matrix, row by row. */
  datatype Mat3 = Mat3(r0: Row, r1: Row, r2: Row)
  datatype Row = Row(c0: real, c1: real, c2: real)

  function RowOf(m: Mat3, i: nat): Row
    requires i < 3
  {
    if i == 0 then m.r0 else if i == 1 then m.r1 else m.r2
  }

  function At(m: Mat3, i: nat, j: nat): real
    requires i < 3 && j < 3
  {
    var r := RowOf(m, i);
    if j == 0 then r.c0 else if j == 1 then r.c1 else r.c2
  }

  /** `np.eye(3)`. */
  const I: Mat3 := Mat3(Row(1.0, 0.0, 0.0), Row(0.0, 1.0, 0.0), Row(0.0, 0.0, 1.0))

  function Dot(r: Row, a: real, b: real, c: real): real
  {
    r.c0 * a + r.c1 * b + r.c2 * c
  }

  function MulRow(r: Row, b: Mat3): Row
  {
    Row(Dot(r, b.r0.c0, b.r1.c0, b.r2.c0), Dot(r, b.r0.c1, b.r1.c1, b.r2.c1), Dot(r, b.r0.c2, b.r1.c2, b.r2.c2))
  }

  /** The matrix product `a @ b`. */
  function Mul(a: Mat3, b: Mat3): Mat3
  {
    Mat3(MulRow(a.r0, b), MulRow(a.r1, b), MulRow(a.r2, b))
  }

  /** The identity is neutral on both sides of the product. */
  lemma MulIdentity(a: Mat3)
    ensures Mul(a, I) == a && Mul(I, a) == a
  {
  }

  function Sq(x: real): (s: real)
    ensures s >= 0.0
  {
    if x > 0.0 then assert x * x > 0.0; x * x
    else if x == 0.0 then 0.0
    else var y := -x; assert y * y > 0.0; assert x * x == y * y; x * x
  }

  function RowDistSq(r: Row, e: Row): real
  {
    Sq(r.c0 - e.c0) + Sq(r.c1 - e.c1) + Sq(r.c2 - e.c2)
  }

  /** `np.linalg.norm(m - np.eye(3)) ** 2`: the squared Frobenius distance to I. */
  function DistSqToI(m: Mat3): (d: real)
    ensures d >= 0.0
  {
    RowDistSq(m.r0, I.r0) + RowDistSq(m.r1, I.r1) + RowDistSq(m.r2, I.r2)
  }

  /** The squared tolerance: the norm of the source is compared with 5e-3, and
      `norm < 5e-3` iff `norm ** 2 < 25e-6` as the norm is non-negative. */
  const TolSq: real := 0.000025

  /** The identity is at distance 0 from itself, so it is below every positive tolerance. */
  lemma DistSqToIOfI()
    ensures DistSqToI(I) == 0.0 && DistSqToI(I) < TolSq
  {
  }
}
