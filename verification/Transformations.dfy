/**
 The rotation conversions of common/transformations/transformations.py, over the reals.

 An Euler angle is given by the cosine and sine of its half, and the cosine and sine of the
 angle itself follow from the double-angle formulas. The square root is the non-negative
 number with the given square, where there is one.
 */
module Transformations {
  import opened Reals

  datatype Half = Half(c: real, s: real) {
    predicate Valid() { c * c + s * s == 1.0 }
    function Cos(): real { c * c - s * s }
    function Sin(): real { 2.0 * c * s }
  }

  function NormAt(w: real, x: real, y: real, z: real): real { w * w + x * x + y * y + z * z }

  datatype Quat = Quat(w: real, x: real, y: real, z: real) {
    function Neg(): Quat { Quat(-w, -x, -y, -z) }
    function Norm(): real { NormAt(w, x, y, z) }
  }

  datatype Mat = Mat(m00: real, m01: real, m02: real,
                     m10: real, m11: real, m12: real,
                     m20: real, m21: real, m22: real)

  function MatMul(a: Mat, b: Mat): Mat
  {
    Mat(a.m00 * b.m00 + a.m01 * b.m10 + a.m02 * b.m20,
        a.m00 * b.m01 + a.m01 * b.m11 + a.m02 * b.m21,
        a.m00 * b.m02 + a.m01 * b.m12 + a.m02 * b.m22,
        a.m10 * b.m00 + a.m11 * b.m10 + a.m12 * b.m20,
        a.m10 * b.m01 + a.m11 * b.m11 + a.m12 * b.m21,
        a.m10 * b.m02 + a.m11 * b.m12 + a.m12 * b.m22,
        a.m20 * b.m00 + a.m21 * b.m10 + a.m22 * b.m20,
        a.m20 * b.m01 + a.m21 * b.m11 + a.m22 * b.m21,
        a.m20 * b.m02 + a.m21 * b.m12 + a.m22 * b.m22)
  }

  // ---------------------------------------------------------------- the conversions

  function Euler2Quat(phi: Half, theta: Half, psi: Half): Quat
  {
    var w := phi.c * theta.c * psi.c + phi.s * theta.s * psi.s;
    var x := phi.s * theta.c * psi.c - phi.c * theta.s * psi.s;
    var y := phi.c * theta.s * psi.c + phi.s * theta.c * psi.s;
    var z := phi.c * theta.c * psi.s - phi.s * theta.s * psi.c;
    if w < 0.0 then Quat(-w, -x, -y, -z) else Quat(w, x, y, z)
  }

  function Quat2Rot(q: Quat): Mat
  {
    var xx, yy, zz := q.x * q.x, q.y * q.y, q.z * q.z;
    var xy, xz, yz := q.x * q.y, q.x * q.z, q.y * q.z;
    var wx, wy, wz := q.w * q.x, q.w * q.y, q.w * q.z;
    Mat(1.0 - 2.0 * (yy + zz), 2.0 * (xy - wz), 2.0 * (xz + wy),
        2.0 * (xy + wz), 1.0 - 2.0 * (xx + zz), 2.0 * (yz - wx),
        2.0 * (xz - wy), 2.0 * (yz + wx), 1.0 - 2.0 * (xx + yy))
  }

  function Euler2Rot(phi: Half, theta: Half, psi: Half): Mat
  {
    var rx := Mat(1.0, 0.0, 0.0, 0.0, phi.Cos(), -phi.Sin(), 0.0, phi.Sin(), phi.Cos());
    var ry := Mat(theta.Cos(), 0.0, theta.Sin(), 0.0, 1.0, 0.0, -theta.Sin(), 0.0, theta.Cos());
    var rz := Mat(psi.Cos(), -psi.Sin(), 0.0, psi.Sin(), psi.Cos(), 0.0, 0.0, 0.0, 1.0);
    MatMul(MatMul(rz, ry), rx)
  }

  // ---------------------------------------------------------------- quaternion products

  // The components of the product of a + bi + cj + dk and e + fi + gj + hk.

  function MulW(a: real, b: real, c: real, d: real, e: real, f: real, g: real, h: real): real
  {
    a * e - b * f - c * g - d * h
  }

  function MulX(a: real, b: real, c: real, d: real, e: real, f: real, g: real, h: real): real
  {
    a * f + b * e + c * h - d * g
  }

  function MulY(a: real, b: real, c: real, d: real, e: real, f: real, g: real, h: real): real
  {
    a * g - b * h + c * e + d * f
  }

  function MulZ(a: real, b: real, c: real, d: real, e: real, f: real, g: real, h: real): real
  {
    a * h + b * g - c * f + d * e
  }

  function QuatMul(p: Quat, q: Quat): Quat
  {
    Quat(MulW(p.w, p.x, p.y, p.z, q.w, q.x, q.y, q.z), MulX(p.w, p.x, p.y, p.z, q.w, q.x, q.y, q.z),
         MulY(p.w, p.x, p.y, p.z, q.w, q.x, q.y, q.z), MulZ(p.w, p.x, p.y, p.z, q.w, q.x, q.y, q.z))
  }

  lemma NormTerms(a: real, b: real, c: real, d: real, e: real, f: real, g: real, h: real)
    ensures NormAt(a * e - b * f - c * g - d * h, a * f + b * e + c * h - d * g,
                 a * g - b * h + c * e + d * f, a * h + b * g - c * f + d * e)
            == NormAt(a, b, c, d) * NormAt(e, f, g, h)
  {
  }

  lemma NormProduct(a: real, b: real, c: real, d: real, e: real, f: real, g: real, h: real)
    ensures NormAt(MulW(a, b, c, d, e, f, g, h), MulX(a, b, c, d, e, f, g, h), MulY(a, b, c, d, e, f, g, h),
            MulZ(a, b, c, d, e, f, g, h))
            == NormAt(a, b, c, d) * NormAt(e, f, g, h)
  {
    hide NormAt;
    NormTerms(a, b, c, d, e, f, g, h);
  }

  lemma NormMul(p: Quat, q: Quat)
    ensures QuatMul(p, q).Norm() == p.Norm() * q.Norm()
  {
    hide NormAt;
    hide MulW;
    hide MulX;
    hide MulY;
    hide MulZ;
    NormProduct(p.w, p.x, p.y, p.z, q.w, q.x, q.y, q.z);
  }

  // The rotation matrix of a quaternion scaled by its squared norm. Row by row it is the same
  // three forms of the quaternion with x, y and z permuted cyclically.

  function DiagAt(w: real, x: real, y: real, z: real): real { w * w + x * x - y * y - z * z }
  function NextAt(w: real, x: real, y: real, z: real): real { 2.0 * (x * y - w * z) }
  function LastAt(w: real, x: real, y: real, z: real): real { 2.0 * (x * z + w * y) }

  function Diag(q: Quat): real { DiagAt(q.w, q.x, q.y, q.z) }
  function Next(q: Quat): real { NextAt(q.w, q.x, q.y, q.z) }
  function Last(q: Quat): real { LastAt(q.w, q.x, q.y, q.z) }
  function Cyc(q: Quat): Quat { Quat(q.w, q.y, q.z, q.x) }

  function Scaled(q: Quat): Mat
  {
    var r := Cyc(q);
    var s := Cyc(r);
    Mat(Diag(q), Next(q), Last(q),
        Last(r), Diag(r), Next(r),
        Next(s), Last(s), Diag(s))
  }

  lemma UnitIsScaled(q: Quat)
    requires q.Norm() == 1.0
    ensures Quat2Rot(q) == Scaled(q)
  {
    hide Diag;
    hide Next;
    hide Last;
    hide Cyc;
    hide Quat2Rot;
    hide Scaled;
    hide Quat.Norm;
    UnitForms(q);
    RotForms(q);
  }

  lemma UnitForms(q: Quat)
    requires q.Norm() == 1.0
    ensures Scaled(q) ==
            Mat(1.0 - 2.0 * (q.y * q.y + q.z * q.z), 2.0 * (q.x * q.y - q.w * q.z), 2.0 * (q.x * q.z + q.w * q.y),
                2.0 * (q.x * q.y + q.w * q.z), 1.0 - 2.0 * (q.x * q.x + q.z * q.z), 2.0 * (q.y * q.z - q.w * q.x),
                2.0 * (q.x * q.z - q.w * q.y), 2.0 * (q.y * q.z + q.w * q.x), 1.0 - 2.0 * (q.x * q.x + q.y * q.y))
  {
    hide Diag;
    hide Next;
    hide Last;
    hide Cyc;
    hide Quat.Norm;
    Forms(q);
    UnitDiagonal(q);
  }

  lemma UnitDiagonal(q: Quat)
    requires q.Norm() == 1.0
    ensures q.w * q.w + q.x * q.x - q.y * q.y - q.z * q.z == 1.0 - 2.0 * (q.y * q.y + q.z * q.z)
    ensures q.w * q.w - q.x * q.x + q.y * q.y - q.z * q.z == 1.0 - 2.0 * (q.x * q.x + q.z * q.z)
    ensures q.w * q.w - q.x * q.x - q.y * q.y + q.z * q.z == 1.0 - 2.0 * (q.x * q.x + q.y * q.y)
  {
  }

  lemma RotForms(q: Quat)
    ensures Quat2Rot(q) ==
            Mat(1.0 - 2.0 * (q.y * q.y + q.z * q.z), 2.0 * (q.x * q.y - q.w * q.z), 2.0 * (q.x * q.z + q.w * q.y),
                2.0 * (q.x * q.y + q.w * q.z), 1.0 - 2.0 * (q.x * q.x + q.z * q.z), 2.0 * (q.y * q.z - q.w * q.x),
                2.0 * (q.x * q.z - q.w * q.y), 2.0 * (q.y * q.z + q.w * q.x), 1.0 - 2.0 * (q.x * q.x + q.y * q.y))
  {
    hide Quat2Rot;
    RotEntries(q);
  }

  lemma RotEntries(q: Quat)
    ensures Quat2Rot(q).m00 == 1.0 - 2.0 * (q.y * q.y + q.z * q.z)
    ensures Quat2Rot(q).m01 == 2.0 * (q.x * q.y - q.w * q.z)
    ensures Quat2Rot(q).m02 == 2.0 * (q.x * q.z + q.w * q.y)
    ensures Quat2Rot(q).m10 == 2.0 * (q.x * q.y + q.w * q.z)
    ensures Quat2Rot(q).m11 == 1.0 - 2.0 * (q.x * q.x + q.z * q.z)
    ensures Quat2Rot(q).m12 == 2.0 * (q.y * q.z - q.w * q.x)
    ensures Quat2Rot(q).m20 == 2.0 * (q.x * q.z - q.w * q.y)
    ensures Quat2Rot(q).m21 == 2.0 * (q.y * q.z + q.w * q.x)
    ensures Quat2Rot(q).m22 == 1.0 - 2.0 * (q.x * q.x + q.y * q.y)
  {
  }

  /** The nine entries of the scaled matrix. */
  lemma Forms(q: Quat)
    ensures Diag(q) == q.w * q.w + q.x * q.x - q.y * q.y - q.z * q.z
    ensures Next(q) == 2.0 * (q.x * q.y - q.w * q.z)
    ensures Last(q) == 2.0 * (q.x * q.z + q.w * q.y)
    ensures Last(Cyc(q)) == 2.0 * (q.x * q.y + q.w * q.z)
    ensures Diag(Cyc(q)) == q.w * q.w - q.x * q.x + q.y * q.y - q.z * q.z
    ensures Next(Cyc(q)) == 2.0 * (q.y * q.z - q.w * q.x)
    ensures Next(Cyc(Cyc(q))) == 2.0 * (q.x * q.z - q.w * q.y)
    ensures Last(Cyc(Cyc(q))) == 2.0 * (q.y * q.z + q.w * q.x)
    ensures Diag(Cyc(Cyc(q))) == q.w * q.w - q.x * q.x - q.y * q.y + q.z * q.z
  {
  }

  lemma ScaledNeg(q: Quat)
    ensures Scaled(q.Neg()) == Scaled(q) && q.Neg().Norm() == q.Norm()
  {
  }

  lemma CycMul(p: Quat, q: Quat)
    ensures QuatMul(Cyc(p), Cyc(q)) == Cyc(QuatMul(p, q))
  {
    var a, b, c, d, e, f, g, h := p.w, p.x, p.y, p.z, q.w, q.x, q.y, q.z;
    CycTerms(a, b, c, d, e, f, g, h);
  }

  lemma CycTerms(a: real, b: real, c: real, d: real, e: real, f: real, g: real, h: real)
    ensures QuatMul(Quat(a, c, d, b), Quat(e, g, h, f)) == Cyc(QuatMul(Quat(a, b, c, d), Quat(e, f, g, h)))
  {
  }

  // Each entry of the first row is an identity of polynomials in the eight components.

  lemma DiagTerms(a: real, b: real, c: real, d: real, e: real, f: real, g: real, h: real)
    ensures DiagAt(a * e - b * f - c * g - d * h, a * f + b * e + c * h - d * g,
                 a * g - b * h + c * e + d * f, a * h + b * g - c * f + d * e)
            == DiagAt(a, b, c, d) * DiagAt(e, f, g, h) + NextAt(a, b, c, d) * LastAt(e, g, h, f)
                + LastAt(a, b, c, d) * NextAt(e, h, f, g)
  {
  }

  lemma DiagProduct(a: real, b: real, c: real, d: real, e: real, f: real, g: real, h: real)
    ensures DiagAt(MulW(a, b, c, d, e, f, g, h), MulX(a, b, c, d, e, f, g, h), MulY(a, b, c, d, e, f, g, h),
            MulZ(a, b, c, d, e, f, g, h))
            == DiagAt(a, b, c, d) * DiagAt(e, f, g, h) + NextAt(a, b, c, d) * LastAt(e, g, h, f)
                + LastAt(a, b, c, d) * NextAt(e, h, f, g)
  {
    hide DiagAt;
    hide NextAt;
    hide LastAt;
    DiagTerms(a, b, c, d, e, f, g, h);
  }

  lemma NextTerms(a: real, b: real, c: real, d: real, e: real, f: real, g: real, h: real)
    ensures NextAt(a * e - b * f - c * g - d * h, a * f + b * e + c * h - d * g,
                 a * g - b * h + c * e + d * f, a * h + b * g - c * f + d * e)
            == DiagAt(a, b, c, d) * NextAt(e, f, g, h) + NextAt(a, b, c, d) * DiagAt(e, g, h, f)
                + LastAt(a, b, c, d) * LastAt(e, h, f, g)
  {
  }

  lemma NextProduct(a: real, b: real, c: real, d: real, e: real, f: real, g: real, h: real)
    ensures NextAt(MulW(a, b, c, d, e, f, g, h), MulX(a, b, c, d, e, f, g, h), MulY(a, b, c, d, e, f, g, h),
            MulZ(a, b, c, d, e, f, g, h))
            == DiagAt(a, b, c, d) * NextAt(e, f, g, h) + NextAt(a, b, c, d) * DiagAt(e, g, h, f)
                + LastAt(a, b, c, d) * LastAt(e, h, f, g)
  {
    hide DiagAt;
    hide NextAt;
    hide LastAt;
    NextTerms(a, b, c, d, e, f, g, h);
  }

  lemma LastTerms(a: real, b: real, c: real, d: real, e: real, f: real, g: real, h: real)
    ensures LastAt(a * e - b * f - c * g - d * h, a * f + b * e + c * h - d * g,
                 a * g - b * h + c * e + d * f, a * h + b * g - c * f + d * e)
            == DiagAt(a, b, c, d) * LastAt(e, f, g, h) + NextAt(a, b, c, d) * NextAt(e, g, h, f)
                + LastAt(a, b, c, d) * DiagAt(e, h, f, g)
  {
  }

  lemma LastProduct(a: real, b: real, c: real, d: real, e: real, f: real, g: real, h: real)
    ensures LastAt(MulW(a, b, c, d, e, f, g, h), MulX(a, b, c, d, e, f, g, h), MulY(a, b, c, d, e, f, g, h),
            MulZ(a, b, c, d, e, f, g, h))
            == DiagAt(a, b, c, d) * LastAt(e, f, g, h) + NextAt(a, b, c, d) * NextAt(e, g, h, f)
                + LastAt(a, b, c, d) * DiagAt(e, h, f, g)
  {
    hide DiagAt;
    hide NextAt;
    hide LastAt;
    LastTerms(a, b, c, d, e, f, g, h);
  }

  /** The first row of the product of two scaled matrices. */
  lemma FirstRow(p: Quat, q: Quat)
    ensures Diag(QuatMul(p, q)) == Diag(p) * Diag(q) + Next(p) * Last(Cyc(q)) + Last(p) * Next(Cyc(Cyc(q)))
    ensures Next(QuatMul(p, q)) == Diag(p) * Next(q) + Next(p) * Diag(Cyc(q)) + Last(p) * Last(Cyc(Cyc(q)))
    ensures Last(QuatMul(p, q)) == Diag(p) * Last(q) + Next(p) * Next(Cyc(q)) + Last(p) * Diag(Cyc(Cyc(q)))
  {
    hide DiagAt;
    hide NextAt;
    hide LastAt;
    hide MulW;
    hide MulX;
    hide MulY;
    hide MulZ;
    DiagProduct(p.w, p.x, p.y, p.z, q.w, q.x, q.y, q.z);
    NextProduct(p.w, p.x, p.y, p.z, q.w, q.x, q.y, q.z);
    LastProduct(p.w, p.x, p.y, p.z, q.w, q.x, q.y, q.z);
  }

  /** Rotations compose as their quaternions do. */
  lemma ScaledMul(p: Quat, q: Quat)
    ensures Scaled(QuatMul(p, q)) == MatMul(Scaled(p), Scaled(q))
  {
    hide QuatMul;
    hide Diag;
    hide Next;
    hide Last;
    hide Cyc;
    FirstRow(p, q);
    CycMul(p, q);
    FirstRow(Cyc(p), Cyc(q));
    CycMul(Cyc(p), Cyc(q));
    FirstRow(Cyc(Cyc(p)), Cyc(Cyc(q)));
    CycThrice(q);
  }

  lemma CycThrice(q: Quat)
    ensures Cyc(Cyc(Cyc(q))) == q
  {
  }

  // ---------------------------------------------------------------- euler2quat and euler2rot agree

  function QuatX(h: Half): Quat { Quat(h.c, h.s, 0.0, 0.0) }
  function QuatY(h: Half): Quat { Quat(h.c, 0.0, h.s, 0.0) }
  function QuatZ(h: Half): Quat { Quat(h.c, 0.0, 0.0, h.s) }

  lemma AxisX(h: Half)
    requires h.Valid()
    ensures Scaled(QuatX(h)) == Mat(1.0, 0.0, 0.0, 0.0, h.Cos(), -h.Sin(), 0.0, h.Sin(), h.Cos())
    ensures QuatX(h).Norm() == 1.0
  {
  }

  lemma AxisY(h: Half)
    requires h.Valid()
    ensures Scaled(QuatY(h)) == Mat(h.Cos(), 0.0, h.Sin(), 0.0, 1.0, 0.0, -h.Sin(), 0.0, h.Cos())
    ensures QuatY(h).Norm() == 1.0
  {
  }

  lemma AxisZ(h: Half)
    requires h.Valid()
    ensures Scaled(QuatZ(h)) == Mat(h.Cos(), -h.Sin(), 0.0, h.Sin(), h.Cos(), 0.0, 0.0, 0.0, 1.0)
    ensures QuatZ(h).Norm() == 1.0
  {
  }

  /** Before its sign is fixed, the quaternion of euler2quat is the product of three. */
  lemma EulerIsProduct(phi: Half, theta: Half, psi: Half)
    ensures var p := QuatMul(QuatMul(QuatZ(psi), QuatY(theta)), QuatX(phi));
            Euler2Quat(phi, theta, psi) == if p.w < 0.0 then p.Neg() else p
  {
    var q := QuatMul(QuatZ(psi), QuatY(theta));
    assert q == Quat(psi.c * theta.c, -(psi.s * theta.s), psi.c * theta.s, psi.s * theta.c);
    var p := QuatMul(q, QuatX(phi));
    assert p.w == phi.c * theta.c * psi.c + phi.s * theta.s * psi.s;
    assert p.x == phi.s * theta.c * psi.c - phi.c * theta.s * psi.s;
    assert p.y == phi.c * theta.s * psi.c + phi.s * theta.c * psi.s;
    assert p.z == phi.c * theta.c * psi.s - phi.s * theta.s * psi.c;
  }

  /** Converting Euler angles by way of the quaternion gives the same matrix as converting them
      directly, for all angles and in both sign branches. */
  lemma EulerAgrees(phi: Half, theta: Half, psi: Half)
    requires phi.Valid() && theta.Valid() && psi.Valid()
    ensures Quat2Rot(Euler2Quat(phi, theta, psi)) == Euler2Rot(phi, theta, psi)
    ensures Euler2Quat(phi, theta, psi).Norm() == 1.0 && Euler2Quat(phi, theta, psi).w >= 0.0
  {
    hide QuatMul;
    hide Scaled;
    hide MatMul;
    hide Quat2Rot;
    hide Euler2Quat;
    hide QuatX;
    hide QuatY;
    hide QuatZ;
    hide Quat.Norm;
    hide Half.Cos;
    hide Half.Sin;
    var x, y, z := QuatX(phi), QuatY(theta), QuatZ(psi);
    var p := QuatMul(QuatMul(z, y), x);
    EulerIsProduct(phi, theta, psi);
    AxisX(phi);
    AxisY(theta);
    AxisZ(psi);
    NormMul(z, y);
    NormMul(QuatMul(z, y), x);
    ScaledMul(z, y);
    ScaledMul(QuatMul(z, y), x);
    ScaledNeg(p);
    UnitIsScaled(Euler2Quat(phi, theta, psi));
  }

  // ---------------------------------------------------------------- rot2quat inverts quat2rot

  /** The number under the root, in the branch that the code takes. */
  function Pivot(m: Mat): real
  {
    var trace := m.m00 + m.m11 + m.m22;
    if trace > 0.0 then trace + 1.0
    else if m.m00 > m.m11 && m.m00 > m.m22 then 1.0 + m.m00 - m.m11 - m.m22
    else if m.m11 > m.m22 then 1.0 + m.m11 - m.m00 - m.m22
    else 1.0 + m.m22 - m.m00 - m.m11
  }

  ghost function Unsigned(m: Mat): Quat
  {
    if m.m00 + m.m11 + m.m22 > 0.0 then
      var s := Div(0.5, Sqrt(Pivot(m)));
      Quat(Div(0.25, s), (m.m21 - m.m12) * s, (m.m02 - m.m20) * s, (m.m10 - m.m01) * s)
    else
      var s := 2.0 * Sqrt(Pivot(m));
      if m.m00 > m.m11 && m.m00 > m.m22 then
        Quat(Div(m.m21 - m.m12, s), 0.25 * s, Div(m.m01 + m.m10, s), Div(m.m02 + m.m20, s))
      else if m.m11 > m.m22 then
        Quat(Div(m.m02 - m.m20, s), Div(m.m01 + m.m10, s), 0.25 * s, Div(m.m12 + m.m21, s))
      else
        Quat(Div(m.m10 - m.m01, s), Div(m.m02 + m.m20, s), Div(m.m12 + m.m21, s), 0.25 * s)
  }

  ghost function Rot2Quat(m: Mat): Quat
  {
    var q := Unsigned(m);
    if q.w < 0.0 then q.Neg() else q
  }

  /** One of four numbers, by the branch that the code takes for a matrix. */
  function Choose(m: Mat, w: real, x: real, y: real, z: real): real
  {
    if m.m00 + m.m11 + m.m22 > 0.0 then w
    else if m.m00 > m.m11 && m.m00 > m.m22 then x
    else if m.m11 > m.m22 then y
    else z
  }

  /** The component of q that the branch taken for its matrix solves for. */
  function Chosen(q: Quat): real { Choose(Quat2Rot(q), q.w, q.x, q.y, q.z) }

  lemma RotDiagonal(q: Quat)
    ensures Quat2Rot(q).m00 == 1.0 - 2.0 * (Sq(q.y) + Sq(q.z))
    ensures Quat2Rot(q).m11 == 1.0 - 2.0 * (Sq(q.x) + Sq(q.z))
    ensures Quat2Rot(q).m22 == 1.0 - 2.0 * (Sq(q.x) + Sq(q.y))
    ensures q.Norm() == Sq(q.w) + Sq(q.x) + Sq(q.y) + Sq(q.z)
  {
    hide Quat2Rot;
    RotEntries(q);
  }

  /** Every branch takes the root of four times a squared component of q, and that is at least 1. */
  lemma PivotIsLarge(q: Quat)
    requires q.Norm() == 1.0
    ensures Pivot(Quat2Rot(q)) == 4.0 * Sq(Chosen(q)) >= 1.0
  {
    hide Quat2Rot;
    hide Pivot;
    hide Sq;
    hide Quat.Norm;
    RotDiagonal(q);
    PivotTerms(Quat2Rot(q), Sq(q.w), Sq(q.x), Sq(q.y), Sq(q.z));
  }

  lemma PivotTerms(m: Mat, ww: real, xx: real, yy: real, zz: real)
    requires ww + xx + yy + zz == 1.0 && ww >= 0.0
    requires m.m00 == 1.0 - 2.0 * (yy + zz) && m.m11 == 1.0 - 2.0 * (xx + zz) && m.m22 == 1.0 - 2.0 * (xx + yy)
    ensures Pivot(m) == 4.0 * Choose(m, ww, xx, yy, zz) >= 1.0
  {
  }

  lemma RootOfPivot(q: Quat)
    requires q.Norm() == 1.0
    ensures Sqrt(Pivot(Quat2Rot(q))) == 2.0 * Abs(Chosen(q)) >= 1.0
  {
    hide Quat2Rot;
    hide Pivot;
    hide Sq;
    hide Quat.Norm;
    hide Sqrt;
    hide Chosen;
    PivotIsLarge(q);
    var t := Chosen(q);
    RootTerms(t);
    SqrtIs(4.0 * Sq(t), 2.0 * Abs(t));
  }

  lemma RootTerms(t: real)
    requires 4.0 * Sq(t) >= 1.0
    ensures IsRoot(2.0 * Abs(t), 4.0 * Sq(t)) && 2.0 * Abs(t) >= 1.0
  {
    if 2.0 * Abs(t) < 1.0 {
      LessSquare(2.0 * Abs(t), 1.0);
    }
  }

  /** t * u over the size of t is u, up to the sign of t. */
  lemma Quotients(n: real, t: real, u: real)
    requires t != 0.0 && n == 4.0 * (t * u)
    ensures Div(n, 2.0 * (2.0 * Abs(t))) == (if t < 0.0 then -u else u)
  {
    var a := Abs(t);
    var v := if t < 0.0 then -u else u;
    assert t * u == v * a;
    assert n == v * (2.0 * (2.0 * a));
    DivIs(n, 2.0 * (2.0 * a), v);
  }

  lemma Products(n: real, t: real, u: real)
    requires t != 0.0 && n == 4.0 * (t * u)
    ensures n * Div(0.5, 2.0 * Abs(t)) == (if t < 0.0 then -u else u)
    ensures Div(0.25, Div(0.5, 2.0 * Abs(t))) == Abs(t)
  {
    var a := Abs(t);
    var v := if t < 0.0 then -u else u;
    assert t * u == v * a;
    assert n == v * (2.0 * (2.0 * a));
    var s := 0.5 / (2.0 * a);
    assert s * (2.0 * a) == 0.5;
    assert n * s == v * (2.0 * (s * (2.0 * a)));
    DivIs(0.25, s, a);
  }

  predicate OffDiagonal(m: Mat, q: Quat)
  {
    && m.m21 - m.m12 == 4.0 * (q.w * q.x) && m.m02 - m.m20 == 4.0 * (q.w * q.y) && m.m10 - m.m01 == 4.0 * (q.w * q.z)
    && m.m01 + m.m10 == 4.0 * (q.x * q.y) && m.m02 + m.m20 == 4.0 * (q.x * q.z) && m.m12 + m.m21 == 4.0 * (q.y * q.z)
  }

  lemma OffDiagonalOf(q: Quat)
    ensures OffDiagonal(Quat2Rot(q), q)
  {
  }

  lemma ByTrace(m: Mat, q: Quat)
    requires m.m00 + m.m11 + m.m22 > 0.0
    requires OffDiagonal(m, q) && q.w != 0.0 && Sqrt(Pivot(m)) == 2.0 * Abs(q.w)
    ensures Unsigned(m) == if q.w < 0.0 then q.Neg() else q
  {
    hide Sqrt;
    hide Pivot;
    hide Div;
    Products(m.m21 - m.m12, q.w, q.x);
    Products(m.m02 - m.m20, q.w, q.y);
    Products(m.m10 - m.m01, q.w, q.z);
  }

  lemma ByX(m: Mat, q: Quat)
    requires m.m00 + m.m11 + m.m22 <= 0.0 && m.m00 > m.m11 && m.m00 > m.m22
    requires OffDiagonal(m, q) && q.x != 0.0 && Sqrt(Pivot(m)) == 2.0 * Abs(q.x)
    ensures Unsigned(m) == if q.x < 0.0 then q.Neg() else q
  {
    hide Sqrt;
    hide Pivot;
    hide Div;
    Quotients(m.m21 - m.m12, q.x, q.w);
    Quotients(m.m01 + m.m10, q.x, q.y);
    Quotients(m.m02 + m.m20, q.x, q.z);
  }

  lemma ByY(m: Mat, q: Quat)
    requires m.m00 + m.m11 + m.m22 <= 0.0 && !(m.m00 > m.m11 && m.m00 > m.m22) && m.m11 > m.m22
    requires OffDiagonal(m, q) && q.y != 0.0 && Sqrt(Pivot(m)) == 2.0 * Abs(q.y)
    ensures Unsigned(m) == if q.y < 0.0 then q.Neg() else q
  {
    hide Sqrt;
    hide Pivot;
    hide Div;
    Quotients(m.m02 - m.m20, q.y, q.w);
    Quotients(m.m01 + m.m10, q.y, q.x);
    Quotients(m.m12 + m.m21, q.y, q.z);
  }

  lemma ByZ(m: Mat, q: Quat)
    requires m.m00 + m.m11 + m.m22 <= 0.0 && !(m.m00 > m.m11 && m.m00 > m.m22) && m.m11 <= m.m22
    requires OffDiagonal(m, q) && q.z != 0.0 && Sqrt(Pivot(m)) == 2.0 * Abs(q.z)
    ensures Unsigned(m) == if q.z < 0.0 then q.Neg() else q
  {
    hide Sqrt;
    hide Pivot;
    hide Div;
    Quotients(m.m10 - m.m01, q.z, q.w);
    Quotients(m.m02 + m.m20, q.z, q.x);
    Quotients(m.m12 + m.m21, q.z, q.y);
  }

  /** Before its sign is fixed, the result is q or -q, by the sign of the chosen component. */
  lemma UnsignedIs(q: Quat)
    requires q.Norm() == 1.0
    ensures Unsigned(Quat2Rot(q)) == if Chosen(q) < 0.0 then q.Neg() else q
  {
    hide OffDiagonal;
    hide Quat2Rot;
    hide Quat.Norm;
    hide Pivot;
    hide Sqrt;
    hide Unsigned;
    var m := Quat2Rot(q);
    RootOfPivot(q);
    OffDiagonalOf(q);
    if m.m00 + m.m11 + m.m22 > 0.0 {
      ByTrace(m, q);
    } else if m.m00 > m.m11 && m.m00 > m.m22 {
      ByX(m, q);
    } else if m.m11 > m.m22 {
      ByY(m, q);
    } else {
      ByZ(m, q);
    }
  }

  /** rot2quat undoes quat2rot on unit quaternions, in all four branches, up to the sign that
      makes w non-negative. */
  lemma RotAndBack(q: Quat)
    requires q.Norm() == 1.0
    ensures var r := Rot2Quat(Quat2Rot(q)); r.w >= 0.0 && (r == q || r == q.Neg())
  {
    hide Unsigned;
    hide Quat2Rot;
    hide Quat.Norm;
    hide Chosen;
    UnsignedIs(q);
  }

  /** So the matrix of an Euler angle leads back to its quaternion; only where w is 0 can the
      sign differ. And converting any such matrix there and back returns the matrix. */
  lemma EulerByMatrix(phi: Half, theta: Half, psi: Half)
    requires phi.Valid() && theta.Valid() && psi.Valid()
    ensures var q, r := Euler2Quat(phi, theta, psi), Rot2Quat(Euler2Rot(phi, theta, psi));
            && (q.w > 0.0 ==> r == q)
            && (q.w == 0.0 ==> r == q || r == q.Neg())
            && Quat2Rot(r) == Euler2Rot(phi, theta, psi)
  {
    hide Euler2Quat;
    hide Euler2Rot;
    hide Rot2Quat;
    hide Quat2Rot;
    hide Quat.Norm;
    hide Scaled;
    hide Half.Valid;
    var q := Euler2Quat(phi, theta, psi);
    EulerAgrees(phi, theta, psi);
    RotAndBack(q);
    UnitIsScaled(q);
    ScaledNeg(q);
    UnitIsScaled(q.Neg());
  }

  function Transpose(m: Mat): Mat
  {
    Mat(m.m00, m.m10, m.m20, m.m01, m.m11, m.m21, m.m02, m.m12, m.m22)
  }

  function Conj(q: Quat): Quat { Quat(q.w, -q.x, -q.y, -q.z) }

  /** The matrix of a unit quaternion is orthogonal: the conjugate gives its transpose. */
  lemma Orthogonal(q: Quat)
    requires q.Norm() == 1.0
    ensures Quat2Rot(Conj(q)) == Transpose(Quat2Rot(q))
    ensures MatMul(Quat2Rot(q), Transpose(Quat2Rot(q))) == Mat(1.0, 0.0, 0.0, 0.0, 1.0, 0.0, 0.0, 0.0, 1.0)
  {
    hide MatMul;
    hide Scaled;
    hide QuatMul;
    hide Quat2Rot;
    hide Quat.Norm;
    ConjForms(q);
    ConjTransposes(q);
    UnitIsScaled(q);
    UnitIsScaled(Conj(q));
    ScaledMul(q, Conj(q));
    assert Scaled(Quat(1.0, 0.0, 0.0, 0.0)) == Mat(1.0, 0.0, 0.0, 0.0, 1.0, 0.0, 0.0, 0.0, 1.0) by { ScaledOne(); }
  }

  lemma ConjForms(q: Quat)
    ensures Conj(q).Norm() == q.Norm() && QuatMul(q, Conj(q)) == Quat(q.Norm(), 0.0, 0.0, 0.0)
  {
  }

  lemma ConjTransposes(q: Quat)
    ensures Quat2Rot(Conj(q)) == Transpose(Quat2Rot(q))
  {
  }

  lemma ScaledOne()
    ensures Scaled(Quat(1.0, 0.0, 0.0, 0.0)) == Mat(1.0, 0.0, 0.0, 0.0, 1.0, 0.0, 0.0, 0.0, 1.0)
  {
  }
}
