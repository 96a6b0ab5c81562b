/**
 rot2quat of common/transformations/transformations.py on every rotation matrix: whichever
 branch it takes, the quaternion it returns has the matrix it was given.

 For a rotation the sums and differences of entries that the code divides are the entries of
 4 * q * q^T. That table has rank one, and the branch taken reads q off one of its rows.
 */
module Rotations {
  import opened Reals
  import opened Transformations

  function Det(m: Mat): real
  {
    m.m00 * (m.m11 * m.m22 - m.m12 * m.m21) - m.m01 * (m.m10 * m.m22 - m.m12 * m.m20)
    + m.m02 * (m.m10 * m.m21 - m.m11 * m.m20)
  }

  /** Orthogonal, and not a reflection. */
  predicate IsRotation(m: Mat)
  {
    MatMul(m, Transpose(m)) == Mat(1.0, 0.0, 0.0, 0.0, 1.0, 0.0, 0.0, 0.0, 1.0) && Det(m) == 1.0
  }

  // ---------------------------------------------------------------- three orthonormal rows

  lemma Lagrange(b: real, c: real, d: real, e: real, f: real, g: real)
    ensures (c * g - d * f) * (c * g - d * f) + (d * e - b * g) * (d * e - b * g) + (b * f - c * e) * (b * f - c * e)
            == (b * b + c * c + d * d) * (e * e + f * f + g * g) - (b * e + c * f + d * g) * (b * e + c * f + d * g)
  {
  }

  lemma SumOfSquares(x: real, y: real, z: real)
    requires x * x + y * y + z * z <= 0.0
    ensures x == 0.0 && y == 0.0 && z == 0.0
  {
    assert x * x >= 0.0 && y * y >= 0.0 && z * z >= 0.0;
    SquareIsZero(x);
    SquareIsZero(y);
    SquareIsZero(z);
  }

  /** A unit vector u whose product with the cross product p of two orthonormal vectors is 1 is p. */
  lemma IsCross(u0: real, u1: real, u2: real, p0: real, p1: real, p2: real)
    requires u0 * u0 + u1 * u1 + u2 * u2 == 1.0 && p0 * p0 + p1 * p1 + p2 * p2 == 1.0
    requires u0 * p0 + u1 * p1 + u2 * p2 == 1.0
    ensures u0 == p0 && u1 == p1 && u2 == p2
  {
    var x, y, z := u0 - p0, u1 - p1, u2 - p2;
    assert x * x == u0 * u0 - 2.0 * (u0 * p0) + p0 * p0;
    assert y * y == u1 * u1 - 2.0 * (u1 * p1) + p1 * p1;
    assert z * z == u2 * u2 - 2.0 * (u2 * p2) + p2 * p2;
    SumOfSquares(x, y, z);
  }

  predicate Rows(m: Mat)
  {
    && m.m00 * m.m00 + m.m01 * m.m01 + m.m02 * m.m02 == 1.0
    && m.m10 * m.m10 + m.m11 * m.m11 + m.m12 * m.m12 == 1.0
    && m.m20 * m.m20 + m.m21 * m.m21 + m.m22 * m.m22 == 1.0
    && m.m00 * m.m10 + m.m01 * m.m11 + m.m02 * m.m12 == 0.0
    && m.m10 * m.m20 + m.m11 * m.m21 + m.m12 * m.m22 == 0.0
    && m.m20 * m.m00 + m.m21 * m.m01 + m.m22 * m.m02 == 0.0
  }

  /** The first row is the cross product of the others. */
  predicate FirstIsCross(m: Mat)
  {
    && m.m00 == m.m11 * m.m22 - m.m12 * m.m21
    && m.m01 == m.m12 * m.m20 - m.m10 * m.m22
    && m.m02 == m.m10 * m.m21 - m.m11 * m.m20
  }

  function RowCyc(m: Mat): Mat
  {
    Mat(m.m10, m.m11, m.m12, m.m20, m.m21, m.m22, m.m00, m.m01, m.m02)
  }

  lemma RowsOf(m: Mat)
    requires IsRotation(m)
    ensures Rows(m)
  {
    hide Det;
  }

  lemma DetCyc(a: real, b: real, c: real, d: real, e: real, f: real, g: real, h: real, i: real)
    ensures d * (h * c - i * b) - e * (g * c - i * a) + f * (g * b - h * a)
            == a * (e * i - f * h) - b * (d * i - f * g) + c * (d * h - e * g)
  {
  }

  lemma RowCycKeeps(m: Mat)
    requires Rows(m)
    ensures Rows(RowCyc(m)) && Det(RowCyc(m)) == Det(m)
  {
    hide Rows;
    DetCyc(m.m00, m.m01, m.m02, m.m10, m.m11, m.m12, m.m20, m.m21, m.m22);
    CycRows(m);
  }

  lemma CycRows(m: Mat)
    requires Rows(m)
    ensures Rows(RowCyc(m))
  {
  }

  /** The cross product of two orthonormal vectors is a unit vector. */
  lemma UnitCross(b: real, c: real, d: real, e: real, f: real, g: real, p: real, q: real, r: real)
    requires b * b + c * c + d * d == 1.0 && e * e + f * f + g * g == 1.0 && b * e + c * f + d * g == 0.0
    requires p == c * g - d * f && q == d * e - b * g && r == b * f - c * e
    ensures p * p + q * q + r * r == 1.0
  {
    Lagrange(b, c, d, e, f, g);
    var x, y, z := b * b + c * c + d * d, e * e + f * f + g * g, b * e + c * f + d * g;
    assert x * y - z * z == 1.0;
    assert p * p == (c * g - d * f) * (c * g - d * f);
    assert q * q == (d * e - b * g) * (d * e - b * g);
    assert r * r == (b * f - c * e) * (b * f - c * e);
  }

  lemma FirstCross(m: Mat)
    requires Rows(m) && Det(m) == 1.0
    ensures FirstIsCross(m)
  {
    var p := m.m11 * m.m22 - m.m12 * m.m21;
    var q := m.m12 * m.m20 - m.m10 * m.m22;
    var r := m.m10 * m.m21 - m.m11 * m.m20;
    UnitCross(m.m10, m.m11, m.m12, m.m20, m.m21, m.m22, p, q, r);
    assert m.m00 * p + m.m01 * q + m.m02 * r == Det(m);
    IsCross(m.m00, m.m01, m.m02, p, q, r);
  }

  predicate Columns(m: Mat)
  {
    && m.m00 * m.m00 + m.m10 * m.m10 + m.m20 * m.m20 == 1.0
    && m.m01 * m.m01 + m.m11 * m.m11 + m.m21 * m.m21 == 1.0
    && m.m02 * m.m02 + m.m12 * m.m12 + m.m22 * m.m22 == 1.0
    && m.m00 * m.m01 + m.m10 * m.m11 + m.m20 * m.m21 == 0.0
    && m.m01 * m.m02 + m.m11 * m.m12 + m.m21 * m.m22 == 0.0
    && m.m02 * m.m00 + m.m12 * m.m10 + m.m22 * m.m20 == 0.0
  }

  /** Every row is the cross product of the other two. */
  predicate Crosses(m: Mat)
  {
    FirstIsCross(m) && FirstIsCross(RowCyc(m)) && FirstIsCross(RowCyc(RowCyc(m)))
  }

  lemma CrossesOf(m: Mat)
    requires Rows(m) && Det(m) == 1.0
    ensures Crosses(m)
  {
    hide Rows;
    hide Det;
    hide FirstIsCross;
    hide RowCyc;
    FirstCross(m);
    RowCycKeeps(m);
    FirstCross(RowCyc(m));
    RowCycKeeps(RowCyc(m));
    FirstCross(RowCyc(RowCyc(m)));
  }

  lemma ColumnTerms(a: real, b: real, c: real, d: real, e: real, f: real, g: real, h: real, i: real)
    ensures a * (e * i - f * h) + d * (h * c - i * b) + g * (b * f - c * e)
            == a * (e * i - f * h) - b * (d * i - f * g) + c * (d * h - e * g)
    ensures b * (e * i - f * h) + e * (h * c - i * b) + h * (b * f - c * e) == 0.0
    ensures c * (e * i - f * h) + f * (h * c - i * b) + i * (b * f - c * e) == 0.0
  {
  }

  /** Columns are orthonormal too. */
  lemma FirstColumn(m: Mat)
    requires Crosses(m) && Det(m) == 1.0
    ensures m.m00 * m.m00 + m.m10 * m.m10 + m.m20 * m.m20 == 1.0
    ensures m.m00 * m.m01 + m.m10 * m.m11 + m.m20 * m.m21 == 0.0
    ensures m.m02 * m.m00 + m.m12 * m.m10 + m.m22 * m.m20 == 0.0
  {
    ColumnTerms(m.m00, m.m01, m.m02, m.m10, m.m11, m.m12, m.m20, m.m21, m.m22);
  }

  /** The same rotation with the axes renamed cyclically. */
  function Turn(m: Mat): Mat
  {
    Mat(m.m11, m.m12, m.m10, m.m21, m.m22, m.m20, m.m01, m.m02, m.m00)
  }

  lemma DetTurn(a: real, b: real, c: real, d: real, e: real, f: real, g: real, h: real, i: real)
    ensures e * (i * a - g * c) - f * (h * a - g * b) + d * (h * c - i * b)
            == a * (e * i - f * h) - b * (d * i - f * g) + c * (d * h - e * g)
  {
  }

  lemma TurnRows(m: Mat)
    requires Rows(m)
    ensures Rows(Turn(m))
  {
  }

  lemma TurnDet(m: Mat)
    ensures Det(Turn(m)) == Det(m)
  {
    DetTurn(m.m00, m.m01, m.m02, m.m10, m.m11, m.m12, m.m20, m.m21, m.m22);
  }

  /** All that the proofs use of a rotation. */
  predicate Sound(m: Mat) { Rows(m) && Det(m) == 1.0 && Crosses(m) && Columns(m) }

  lemma SoundOf(m: Mat)
    requires Rows(m) && Det(m) == 1.0
    ensures Sound(m)
  {
    hide Rows;
    hide Det;
    hide Crosses;
    var t := Turn(m);
    TurnRows(m);
    TurnDet(m);
    TurnRows(t);
    TurnDet(t);
    CrossesOf(m);
    CrossesOf(t);
    CrossesOf(Turn(t));
    FirstColumn(m);
    FirstColumn(t);
    FirstColumn(Turn(t));
    ColumnsFrom(m);
  }

  lemma ColumnsFrom(m: Mat)
    requires m.m00 * m.m00 + m.m10 * m.m10 + m.m20 * m.m20 == 1.0
    requires m.m11 * m.m11 + m.m21 * m.m21 + m.m01 * m.m01 == 1.0
    requires m.m22 * m.m22 + m.m02 * m.m02 + m.m12 * m.m12 == 1.0
    requires m.m00 * m.m01 + m.m10 * m.m11 + m.m20 * m.m21 == 0.0
    requires m.m11 * m.m12 + m.m21 * m.m22 + m.m01 * m.m02 == 0.0
    requires m.m02 * m.m00 + m.m12 * m.m10 + m.m22 * m.m20 == 0.0
    ensures Columns(m)
  {
  }

  lemma TurnSound(m: Mat)
    requires Sound(m)
    ensures Sound(Turn(m))
  {
    hide Columns;
    hide Crosses;
    hide Rows;
    hide Det;
    TurnRows(m);
    TurnDet(m);
    SoundOf(Turn(m));
  }

  // ---------------------------------------------------------------- 4 * q * q^T

  function S00(m: Mat): real { 1.0 + m.m00 + m.m11 + m.m22 }
  function S01(m: Mat): real { m.m21 - m.m12 }
  function S02(m: Mat): real { m.m02 - m.m20 }
  function S03(m: Mat): real { m.m10 - m.m01 }
  function S11(m: Mat): real { 1.0 + m.m00 - m.m11 - m.m22 }
  function S12(m: Mat): real { m.m01 + m.m10 }
  function S13(m: Mat): real { m.m02 + m.m20 }
  function S22(m: Mat): real { 1.0 - m.m00 + m.m11 - m.m22 }
  function S23(m: Mat): real { m.m12 + m.m21 }
  function S33(m: Mat): real { 1.0 - m.m00 - m.m11 + m.m22 }

  lemma SquareW(m: Mat)
    requires Sound(m)
    ensures S01(m) * S01(m) == S00(m) * S11(m)
  {
    hide Rows;
    hide Columns;
    hide Crosses;
    hide Det;
    SquareWFacts(m);
    SquareWTerms(m.m00, m.m01, m.m02, m.m10, m.m11, m.m12, m.m20, m.m21, m.m22);
  }

  lemma SquareWFacts(m: Mat)
    requires Sound(m)
    ensures m.m00 == m.m11 * m.m22 - m.m12 * m.m21
    ensures m.m10 * m.m10 + m.m11 * m.m11 + m.m12 * m.m12 == 1.0
    ensures m.m20 * m.m20 + m.m21 * m.m21 + m.m22 * m.m22 == 1.0
    ensures m.m00 * m.m00 + m.m10 * m.m10 + m.m20 * m.m20 == 1.0
  {
  }

  lemma SquareWTerms(a: real, b: real, c: real, d: real, e: real, f: real, g: real, h: real, i: real)
    requires a == e * i - f * h && d * d + e * e + f * f == 1.0 && g * g + h * h + i * i == 1.0
    requires a * a + d * d + g * g == 1.0
    ensures (h - f) * (h - f) == (1.0 + a + e + i) * (1.0 + a - e - i)
  {
  }

  lemma CrossW(m: Mat)
    requires Sound(m)
    ensures S01(m) * S02(m) == S00(m) * S12(m)
  {
    hide Rows;
    hide Columns;
    hide Crosses;
    hide Det;
    RowsOneTwo(m);
    CrossWTerms(m.m00, m.m01, m.m02, m.m10, m.m11, m.m12, m.m20, m.m21, m.m22);
  }

  lemma RowsOneTwo(m: Mat)
    requires Sound(m)
    ensures m.m01 == m.m12 * m.m20 - m.m10 * m.m22
    ensures m.m10 == m.m21 * m.m02 - m.m22 * m.m01
    ensures m.m00 * m.m10 + m.m01 * m.m11 + m.m02 * m.m12 == 0.0
    ensures m.m00 * m.m01 + m.m10 * m.m11 + m.m20 * m.m21 == 0.0
  {
  }

  lemma CrossWTerms(a: real, b: real, c: real, d: real, e: real, f: real, g: real, h: real, i: real)
    requires b == f * g - d * i && d == h * c - i * b && a * d + b * e + c * f == 0.0 && a * b + d * e + g * h == 0.0
    ensures (h - f) * (c - g) == (1.0 + a + e + i) * (b + d)
  {
  }

  lemma SquareX(m: Mat)
    requires Sound(m)
    ensures S12(m) * S12(m) == S11(m) * S22(m)
  {
    hide Rows;
    hide Columns;
    hide Crosses;
    hide Det;
    SquareXFacts(m);
    SquareXTerms(m.m00, m.m01, m.m02, m.m10, m.m11, m.m12, m.m20, m.m21, m.m22);
  }

  lemma SquareXFacts(m: Mat)
    requires Sound(m)
    ensures m.m22 == m.m00 * m.m11 - m.m01 * m.m10
    ensures m.m00 * m.m00 + m.m01 * m.m01 + m.m02 * m.m02 == 1.0
    ensures m.m10 * m.m10 + m.m11 * m.m11 + m.m12 * m.m12 == 1.0
    ensures m.m02 * m.m02 + m.m12 * m.m12 + m.m22 * m.m22 == 1.0
  {
  }

  lemma SquareXTerms(a: real, b: real, c: real, d: real, e: real, f: real, g: real, h: real, i: real)
    requires i == a * e - b * d && a * a + b * b + c * c == 1.0 && d * d + e * e + f * f == 1.0
             && c * c + f * f + i * i == 1.0
    ensures (b + d) * (b + d) == (1.0 + a - e - i) * (1.0 - a + e - i)
  {
  }

  lemma CrossXW2(m: Mat)
    requires Sound(m)
    ensures S01(m) * S12(m) == S11(m) * S02(m)
  {
    hide Rows;
    hide Columns;
    hide Crosses;
    hide Det;
    CrossXW2Facts(m);
    CrossXW2Terms(m.m00, m.m01, m.m02, m.m10, m.m11, m.m12, m.m20, m.m21, m.m22);
  }

  lemma CrossXW2Facts(m: Mat)
    requires Sound(m)
    ensures m.m02 == m.m10 * m.m21 - m.m11 * m.m20
    ensures m.m20 == m.m01 * m.m12 - m.m02 * m.m11
    ensures m.m20 * m.m00 + m.m21 * m.m01 + m.m22 * m.m02 == 0.0
    ensures m.m02 * m.m00 + m.m12 * m.m10 + m.m22 * m.m20 == 0.0
  {
  }

  lemma CrossXW2Terms(a: real, b: real, c: real, d: real, e: real, f: real, g: real, h: real, i: real)
    requires c == d * h - e * g && g == b * f - c * e && g * a + h * b + i * c == 0.0 && c * a + f * d + i * g == 0.0
    ensures (h - f) * (b + d) == (1.0 + a - e - i) * (c - g)
  {
  }

  lemma CrossXW3(m: Mat)
    requires Sound(m)
    ensures S01(m) * S13(m) == S11(m) * S03(m)
  {
    hide Rows;
    hide Columns;
    hide Crosses;
    hide Det;
    RowsOneTwo(m);
    CrossXW3Terms(m.m00, m.m01, m.m02, m.m10, m.m11, m.m12, m.m20, m.m21, m.m22);
  }

  lemma CrossXW3Terms(a: real, b: real, c: real, d: real, e: real, f: real, g: real, h: real, i: real)
    requires b == f * g - d * i && d == h * c - i * b && a * d + b * e + c * f == 0.0 && a * b + d * e + g * h == 0.0
    ensures (h - f) * (c + g) == (1.0 + a - e - i) * (d - b)
  {
  }

  lemma CrossX(m: Mat)
    requires Sound(m)
    ensures S12(m) * S13(m) == S11(m) * S23(m)
  {
    hide Rows;
    hide Columns;
    hide Crosses;
    hide Det;
    CrossXFacts(m);
    CrossXTerms(m.m00, m.m01, m.m02, m.m10, m.m11, m.m12, m.m20, m.m21, m.m22);
  }

  lemma CrossXFacts(m: Mat)
    requires Sound(m)
    ensures m.m12 == m.m20 * m.m01 - m.m21 * m.m00
    ensures m.m21 == m.m02 * m.m10 - m.m00 * m.m12
    ensures m.m10 * m.m20 + m.m11 * m.m21 + m.m12 * m.m22 == 0.0
    ensures m.m01 * m.m02 + m.m11 * m.m12 + m.m21 * m.m22 == 0.0
  {
  }

  lemma CrossXTerms(a: real, b: real, c: real, d: real, e: real, f: real, g: real, h: real, i: real)
    requires f == g * b - h * a && h == c * d - a * f && d * g + e * h + f * i == 0.0 && b * c + e * f + h * i == 0.0
    ensures (b + d) * (c + g) == (1.0 + a - e - i) * (f + h)
  {
  }

  /** The row (a, b, c, d) of the table, with p on its diagonal, gives all of it. */
  predicate RankOne(m: Mat, p: real, a: real, b: real, c: real, d: real)
  {
    && a * a == p * S00(m) && a * b == p * S01(m) && a * c == p * S02(m) && a * d == p * S03(m)
    && b * b == p * S11(m) && b * c == p * S12(m) && b * d == p * S13(m)
    && c * c == p * S22(m) && c * d == p * S23(m)
    && d * d == p * S33(m)
  }

  lemma TurnTable(m: Mat)
    ensures var t := Turn(m);
            && S00(t) == S00(m) && S01(t) == S02(m) && S02(t) == S03(m) && S03(t) == S01(m)
            && S11(t) == S22(m) && S22(t) == S33(m) && S33(t) == S11(m)
            && S12(t) == S23(m) && S13(t) == S12(m) && S23(t) == S13(m)
  {
  }

  lemma RowW(m: Mat)
    requires Sound(m)
    ensures RankOne(m, S00(m), S00(m), S01(m), S02(m), S03(m))
  {
    hide Sound;
    hide S00;
    hide S01;
    hide S02;
    hide S03;
    hide S11;
    hide S12;
    hide S13;
    hide S22;
    hide S23;
    hide S33;
    hide Turn;
    var t := Turn(m);
    var u := Turn(t);
    TurnSound(m);
    TurnSound(t);
    TurnTable(m);
    TurnTable(t);
    SquareW(m);
    SquareW(t);
    SquareW(u);
    CrossW(m);
    CrossW(t);
    CrossW(u);
  }

  lemma RowX(m: Mat)
    requires Sound(m)
    ensures RankOne(m, S11(m), S01(m), S11(m), S12(m), S13(m))
  {
    hide Sound;
    hide S00;
    hide S01;
    hide S02;
    hide S03;
    hide S11;
    hide S12;
    hide S13;
    hide S22;
    hide S23;
    hide S33;
    hide Turn;
    var t := Turn(m);
    var u := Turn(t);
    TurnSound(m);
    TurnSound(t);
    TurnTable(m);
    TurnTable(t);
    SquareW(m);
    SquareX(m);
    SquareX(u);
    CrossXW2(m);
    CrossXW3(m);
    CrossX(m);
  }

  /** A row of a turned table is a row of the table. */
  lemma TurnBack(m: Mat, p: real, a: real, b: real, c: real, d: real)
    requires RankOne(Turn(m), p, a, b, c, d)
    ensures RankOne(m, p, a, d, b, c)
  {
    hide S00;
    hide S01;
    hide S02;
    hide S03;
    hide S11;
    hide S12;
    hide S13;
    hide S22;
    hide S23;
    hide S33;
    hide Turn;
    TurnTable(m);
  }

  lemma RowY(m: Mat)
    requires Sound(m)
    ensures RankOne(m, S22(m), S02(m), S12(m), S22(m), S23(m))
  {
    hide Sound;
    hide RankOne;
    TurnSound(m);
    RowX(Turn(m));
    TurnTable(m);
    TurnBack(m, S22(m), S02(m), S22(m), S23(m), S12(m));
  }

  lemma RowZ(m: Mat)
    requires Sound(m)
    ensures RankOne(m, S33(m), S03(m), S13(m), S23(m), S33(m))
  {
    hide Sound;
    hide RankOne;
    TurnSound(m);
    RowY(Turn(m));
    TurnTable(m);
    TurnBack(m, S33(m), S03(m), S23(m), S33(m), S13(m));
  }

  // ---------------------------------------------------------------- back to the matrix

  /** Dividing two entries of a row by twice the root of its pivot, four times the product is the entry
      of the table. */
  lemma Quarter(p: real, a: real, b: real, s: real, r: real, x: real, y: real)
    requires a * b == p * s && r > 0.0 && r * r == p && x * (2.0 * r) == a && y * (2.0 * r) == b
    ensures 4.0 * (x * y) == s
  {
    LessSquare(0.0, r);
    assert a * b == 4.0 * (x * y) * p;
    Cancel(4.0 * (x * y), s, p);
  }

  lemma Cancel(x: real, y: real, p: real)
    requires p > 0.0 && x * p == p * y
    ensures x == y
  {
    DivIs(x * p, p, x);
    DivIs(y * p, p, y);
  }

  /** The table of a quaternion. */
  predicate TableOf(m: Mat, q: Quat)
  {
    && 4.0 * (q.w * q.w) == S00(m) && 4.0 * (q.w * q.x) == S01(m) && 4.0 * (q.w * q.y) == S02(m)
    && 4.0 * (q.w * q.z) == S03(m) && 4.0 * (q.x * q.x) == S11(m) && 4.0 * (q.x * q.y) == S12(m)
    && 4.0 * (q.x * q.z) == S13(m) && 4.0 * (q.y * q.y) == S22(m) && 4.0 * (q.y * q.z) == S23(m)
    && 4.0 * (q.z * q.z) == S33(m)
  }

  lemma TableGivesMatrix(m: Mat, q: Quat)
    requires TableOf(m, q)
    ensures Quat2Rot(q) == m && q.Norm() == 1.0
  {
    hide Quat2Rot;
    hide Quat.Norm;
    hide TableOf;
    TableGivesDiagonal(m, q);
    TableGivesRest(m, q);
  }

  lemma SquaresOf(m: Mat, q: Quat)
    requires TableOf(m, q)
    ensures 4.0 * Sq(q.w) == S00(m) && 4.0 * Sq(q.x) == S11(m) && 4.0 * Sq(q.y) == S22(m) && 4.0 * Sq(q.z) == S33(m)
  {
  }

  lemma TableGivesDiagonal(m: Mat, q: Quat)
    requires TableOf(m, q)
    ensures Quat2Rot(q).m00 == m.m00 && Quat2Rot(q).m11 == m.m11 && Quat2Rot(q).m22 == m.m22 && q.Norm() == 1.0
  {
    hide Quat2Rot;
    hide TableOf;
    hide Quat.Norm;
    hide Sq;
    SquaresOf(m, q);
    RotDiagonal(q);
  }

  lemma TableGivesRest(m: Mat, q: Quat)
    requires TableOf(m, q)
    ensures Quat2Rot(q).m01 == m.m01 && Quat2Rot(q).m02 == m.m02 && Quat2Rot(q).m10 == m.m10
    ensures Quat2Rot(q).m12 == m.m12 && Quat2Rot(q).m20 == m.m20 && Quat2Rot(q).m21 == m.m21
  {
    hide Quat2Rot;
    hide TableOf;
    var n := Quat2Rot(q);
    OffDiagonalOf(q);
    SameRest(m, q, n);
  }

  lemma SameRest(m: Mat, q: Quat, n: Mat)
    requires TableOf(m, q) && OffDiagonal(n, q)
    ensures S01(n) == S01(m) && S02(n) == S02(m) && S03(n) == S03(m)
    ensures S12(n) == S12(m) && S13(n) == S13(m) && S23(n) == S23(m)
  {
  }

  lemma RowGivesTable(m: Mat, p: real, a: real, b: real, c: real, d: real, r: real, q: Quat)
    requires RankOne(m, p, a, b, c, d) && r > 0.0 && r * r == p
    requires q.w * (2.0 * r) == a && q.x * (2.0 * r) == b && q.y * (2.0 * r) == c && q.z * (2.0 * r) == d
    ensures TableOf(m, q)
  {
    hide S00;
    hide S01;
    hide S02;
    hide S03;
    hide S11;
    hide S12;
    hide S13;
    hide S22;
    hide S23;
    hide S33;
    Quarter(p, a, a, S00(m), r, q.w, q.w);
    Quarter(p, a, b, S01(m), r, q.w, q.x);
    Quarter(p, a, c, S02(m), r, q.w, q.y);
    Quarter(p, a, d, S03(m), r, q.w, q.z);
    Quarter(p, b, b, S11(m), r, q.x, q.x);
    Quarter(p, b, c, S12(m), r, q.x, q.y);
    Quarter(p, b, d, S13(m), r, q.x, q.z);
    Quarter(p, c, c, S22(m), r, q.y, q.y);
    Quarter(p, c, d, S23(m), r, q.y, q.z);
    Quarter(p, d, d, S33(m), r, q.z, q.z);
  }

  lemma HalfRoot(r: real)
    requires r > 0.0
    ensures Div(0.25, Div(0.5, r)) * (2.0 * r) == r * r && 0.25 * (2.0 * r) * (2.0 * r) == r * r
  {
    var s := 0.5 / r;
    assert s * r == 0.5;
    DivIs(0.25, s, 0.5 * r);
  }

  lemma DividesBack(x: real, r: real)
    requires r > 0.0
    ensures Div(x, 2.0 * r) * (2.0 * r) == x && x * Div(0.5, r) * (2.0 * r) == x
  {
    hide Div;
    DivBack(x, 2.0 * r);
    DivBack(0.5, r);
    Regroup(x, Div(0.5, r), r, Div(0.5, r) * r);
  }

  lemma DivBack(x: real, d: real)
    requires d != 0.0
    ensures Div(x, d) * d == x
  {
  }

  lemma Regroup(x: real, s: real, r: real, t: real)
    requires t == s * r && t == 0.5
    ensures x * s * (2.0 * r) == x
  {
    assert x * s * (2.0 * r) == 2.0 * (x * (s * r));
    assert x * t == x * 0.5;
  }

  lemma PivotOf(m: Mat)
    ensures Pivot(m) >= 1.0
    ensures Pivot(m) == if m.m00 + m.m11 + m.m22 > 0.0 then S00(m)
                        else if m.m00 > m.m11 && m.m00 > m.m22 then S11(m)
                        else if m.m11 > m.m22 then S22(m)
                        else S33(m)
  {
  }

  lemma BranchW(m: Mat, r: real)
    requires Sound(m) && m.m00 + m.m11 + m.m22 > 0.0 && r > 0.0 && r * r == S00(m) && Sqrt(Pivot(m)) == r
    ensures TableOf(m, Unsigned(m))
  {
    hide Sound;
    hide Pivot;
    hide Sqrt;
    hide Div;
    hide RankOne;
    hide TableOf;
    var q := Unsigned(m);
    HalfRoot(r);
    DividesBack(S01(m), r);
    DividesBack(S02(m), r);
    DividesBack(S03(m), r);
    RowW(m);
    RowGivesTable(m, S00(m), S00(m), S01(m), S02(m), S03(m), r, q);
  }

  lemma BranchX(m: Mat, r: real)
    requires Sound(m) && m.m00 + m.m11 + m.m22 <= 0.0 && m.m00 > m.m11 && m.m00 > m.m22
    requires r > 0.0 && r * r == S11(m) && Sqrt(Pivot(m)) == r
    ensures TableOf(m, Unsigned(m))
  {
    hide Sound;
    hide Pivot;
    hide Sqrt;
    hide Div;
    hide RankOne;
    hide TableOf;
    var q := Unsigned(m);
    HalfRoot(r);
    DividesBack(S01(m), r);
    DividesBack(S12(m), r);
    DividesBack(S13(m), r);
    RowX(m);
    RowGivesTable(m, S11(m), S01(m), S11(m), S12(m), S13(m), r, q);
  }

  lemma BranchY(m: Mat, r: real)
    requires Sound(m) && m.m00 + m.m11 + m.m22 <= 0.0 && !(m.m00 > m.m11 && m.m00 > m.m22) && m.m11 > m.m22
    requires r > 0.0 && r * r == S22(m) && Sqrt(Pivot(m)) == r
    ensures TableOf(m, Unsigned(m))
  {
    hide Sound;
    hide Pivot;
    hide Sqrt;
    hide Div;
    hide RankOne;
    hide TableOf;
    var q := Unsigned(m);
    HalfRoot(r);
    DividesBack(S02(m), r);
    DividesBack(S12(m), r);
    DividesBack(S23(m), r);
    RowY(m);
    RowGivesTable(m, S22(m), S02(m), S12(m), S22(m), S23(m), r, q);
  }

  lemma BranchZ(m: Mat, r: real)
    requires Sound(m) && m.m00 + m.m11 + m.m22 <= 0.0 && !(m.m00 > m.m11 && m.m00 > m.m22) && m.m11 <= m.m22
    requires r > 0.0 && r * r == S33(m) && Sqrt(Pivot(m)) == r
    ensures TableOf(m, Unsigned(m))
  {
    hide Sound;
    hide Pivot;
    hide Sqrt;
    hide Div;
    hide RankOne;
    hide TableOf;
    var q := Unsigned(m);
    HalfRoot(r);
    DividesBack(S03(m), r);
    DividesBack(S13(m), r);
    DividesBack(S23(m), r);
    RowZ(m);
    RowGivesTable(m, S33(m), S03(m), S13(m), S23(m), S33(m), r, q);
  }

  /** Converting any rotation matrix to a quaternion and back returns the matrix. The number under the
      root is at least 1; that it has a root is all that is asked of the real numbers. */
  lemma MatrixAndBack(m: Mat, r: real)
    requires IsRotation(m) && IsRoot(r, Pivot(m))
    ensures var q := Rot2Quat(m); Quat2Rot(q) == m && q.Norm() == 1.0 && q.w >= 0.0
    ensures Pivot(m) >= 1.0
  {
    hide Unsigned;
    hide Quat2Rot;
    hide Quat.Norm;
    hide Sqrt;
    hide TableOf;
    hide Sound;
    PivotOf(m);
    RowsOf(m);
    SoundOf(m);
    SqrtIs(Pivot(m), r);
    UnsignedTable(m, r);
    var q := Unsigned(m);
    TableGivesMatrix(m, q);
    UnitIsScaled(q);
    ScaledNeg(q);
    UnitIsScaled(q.Neg());
  }

  lemma UnsignedTable(m: Mat, r: real)
    requires Sound(m) && IsRoot(r, Pivot(m)) && Sqrt(Pivot(m)) == r
    ensures TableOf(m, Unsigned(m))
  {
    hide Sound;
    hide TableOf;
    hide Unsigned;
    hide Sqrt;
    PivotOf(m);
    if m.m00 + m.m11 + m.m22 > 0.0 {
      BranchW(m, r);
    } else if m.m00 > m.m11 && m.m00 > m.m22 {
      BranchX(m, r);
    } else if m.m11 > m.m22 {
      BranchY(m, r);
    } else {
      BranchZ(m, r);
    }
  }
}
