/** The least-squares parabola `y = a·x² + b·x + c` of `polynomialRegression`
    in the regression route, solved by Cramer's rule. */
module Quadratic {
  import opened Values
  import opened Sums

  /** The count and the seven power sums the loop accumulates:
      Σx, Σx², Σx³, Σx⁴, Σy, Σxy and Σx²y. */
  datatype PowerSums = PowerSums(n: real, sx: real, sx2: real, sx3: real, sx4: real,
                                 sy: real, sxy: real, sx2y: real)

  function PowerSumsOf(d: seq<Point>): PowerSums
  {
    PowerSums(Count(d), SumX(d), SumX2(d), SumX3(d), SumX4(d), SumY(d), SumXY(d), SumX2Y(d))
  }

  /** `D`: the determinant of the normal-equation matrix
      `[[n, Σx, Σx²], [Σx, Σx², Σx³], [Σx², Σx³, Σx⁴]]`, expanded along its
      first row. */
  function Det(s: PowerSums): real
  {
    s.n * (s.sx2 * s.sx4 - s.sx3 * s.sx3) - s.sx * (s.sx * s.sx4 - s.sx3 * s.sx2)
      + s.sx2 * (s.sx * s.sx3 - s.sx2 * s.sx2)
  }

  /** `Dc`: the determinant with the first column replaced by `(Σy, Σxy, Σx²y)`. */
  function DetC(s: PowerSums): real
  {
    s.sy * (s.sx2 * s.sx4 - s.sx3 * s.sx3) - s.sx * (s.sxy * s.sx4 - s.sx3 * s.sx2y)
      + s.sx2 * (s.sxy * s.sx3 - s.sx2 * s.sx2y)
  }

  /** `Db`: the determinant with the second column replaced. */
  function DetB(s: PowerSums): real
  {
    s.n * (s.sxy * s.sx4 - s.sx3 * s.sx2y) - s.sy * (s.sx * s.sx4 - s.sx3 * s.sx2)
      + s.sx2 * (s.sx * s.sx2y - s.sxy * s.sx2)
  }

  /** `Da`: the determinant with the third column replaced. */
  function DetA(s: PowerSums): real
  {
    s.n * (s.sx2 * s.sx2y - s.sxy * s.sx3) - s.sx * (s.sx * s.sx2y - s.sxy * s.sx2)
      + s.sy * (s.sx * s.sx3 - s.sx2 * s.sx2)
  }

  /** `(a, b, c)` solves the three normal equations of the quadratic fit. */
  predicate SolvesNormalEquations(s: PowerSums, a: real, b: real, c: real)
  {
    && s.n * c + s.sx * b + s.sx2 * a == s.sy
    && s.sx * c + s.sx2 * b + s.sx3 * a == s.sxy
    && s.sx2 * c + s.sx3 * b + s.sx4 * a == s.sx2y
  }

  // Cramer's identities: the matrix times `(Dc, Db, Da)` is `D` times the
  // right-hand side, row by row; with `D ≠ 0` each row then holds for
  // `(Dc/D, Db/D, Da/D)`.

  lemma CramerRow1(s: PowerSums)
    ensures s.n * DetC(s) + s.sx * DetB(s) + s.sx2 * DetA(s) == s.sy * Det(s)
  {
    FirstColumn(s);
    SecondColumn(s);
    ThirdColumn(s);
    Regroup(s.n, s.sx, s.sx2, s.sy, s.sxy, s.sx2y,
            Cofactor11(s), Cofactor12(s), Cofactor13(s), Cofactor22(s), Cofactor23(s), Cofactor33(s),
            DetC(s), DetB(s), DetA(s), Det(s), 0.0, 0.0);
  }

  lemma CramerRow2(s: PowerSums)
    ensures s.sx * DetC(s) + s.sx2 * DetB(s) + s.sx3 * DetA(s) == s.sxy * Det(s)
  {
    FirstColumn(s);
    SecondColumn(s);
    ThirdColumn(s);
    Regroup(s.sx, s.sx2, s.sx3, s.sy, s.sxy, s.sx2y,
            Cofactor11(s), Cofactor12(s), Cofactor13(s), Cofactor22(s), Cofactor23(s), Cofactor33(s),
            DetC(s), DetB(s), DetA(s), 0.0, Det(s), 0.0);
  }

  lemma CramerRow3(s: PowerSums)
    ensures s.sx2 * DetC(s) + s.sx3 * DetB(s) + s.sx4 * DetA(s) == s.sx2y * Det(s)
  {
    FirstColumn(s);
    SecondColumn(s);
    ThirdColumn(s);
    Regroup(s.sx2, s.sx3, s.sx4, s.sy, s.sxy, s.sx2y,
            Cofactor11(s), Cofactor12(s), Cofactor13(s), Cofactor22(s), Cofactor23(s), Cofactor33(s),
            DetC(s), DetB(s), DetA(s), 0.0, 0.0, Det(s));
  }

  /** A row of the matrix times `(Dc, Db, Da)`, each expanded by the
      cofactors, regrouped by the right-hand side. */
  lemma Regroup(m1: real, m2: real, m3: real, y1: real, y2: real, y3: real,
                c11: real, c12: real, c13: real, c22: real, c23: real, c33: real,
                dc: real, db: real, da: real, e1: real, e2: real, e3: real)
    requires dc == y1 * c11 + y2 * c12 + y3 * c13
    requires db == y1 * c12 + y2 * c22 + y3 * c23
    requires da == y1 * c13 + y2 * c23 + y3 * c33
    requires e1 == m1 * c11 + m2 * c12 + m3 * c13
    requires e2 == m1 * c12 + m2 * c22 + m3 * c23
    requires e3 == m1 * c13 + m2 * c23 + m3 * c33
    ensures m1 * dc + m2 * db + m3 * da == y1 * e1 + y2 * e2 + y3 * e3
  {
  }

  lemma SolvedRow1(s: PowerSums)
    requires Det(s) != 0.0
    ensures s.n * (DetC(s) / Det(s)) + s.sx * (DetB(s) / Det(s)) + s.sx2 * (DetA(s) / Det(s)) == s.sy
  {
    CramerRow1(s);
    RowSolved(Det(s), s.n, s.sx, s.sx2, DetC(s), DetB(s), DetA(s), s.sy);
  }

  lemma SolvedRow2(s: PowerSums)
    requires Det(s) != 0.0
    ensures s.sx * (DetC(s) / Det(s)) + s.sx2 * (DetB(s) / Det(s)) + s.sx3 * (DetA(s) / Det(s)) == s.sxy
  {
    CramerRow2(s);
    RowSolved(Det(s), s.sx, s.sx2, s.sx3, DetC(s), DetB(s), DetA(s), s.sxy);
  }

  lemma SolvedRow3(s: PowerSums)
    requires Det(s) != 0.0
    ensures s.sx2 * (DetC(s) / Det(s)) + s.sx3 * (DetB(s) / Det(s)) + s.sx4 * (DetA(s) / Det(s)) == s.sx2y
  {
    CramerRow3(s);
    RowSolved(Det(s), s.sx2, s.sx3, s.sx4, DetC(s), DetB(s), DetA(s), s.sx2y);
  }

  /** One normal equation from its Cramer identity, once `D ≠ 0`. */
  lemma RowSolved(det: real, p: real, q: real, r: real, dc: real, db: real, da: real, rhs: real)
    requires det != 0.0 && p * dc + q * db + r * da == rhs * det
    ensures p * (dc / det) + q * (db / det) + r * (da / det) == rhs
  {
    DivTimes(dc, det);
    DivTimes(db, det);
    DivTimes(da, det);
    RowFromCramer(det, p, q, r, dc, db, da, rhs, dc / det, db / det, da / det);
  }

  // The cofactors of the symmetric normal-equation matrix; `Cofactor12` is
  // also the (2, 1) cofactor, and so on.

  function Cofactor11(s: PowerSums): real { s.sx2 * s.sx4 - s.sx3 * s.sx3 }
  function Cofactor12(s: PowerSums): real { s.sx2 * s.sx3 - s.sx * s.sx4 }
  function Cofactor13(s: PowerSums): real { s.sx * s.sx3 - s.sx2 * s.sx2 }
  function Cofactor22(s: PowerSums): real { s.n * s.sx4 - s.sx2 * s.sx2 }
  function Cofactor23(s: PowerSums): real { s.sx * s.sx2 - s.n * s.sx3 }
  function Cofactor33(s: PowerSums): real { s.n * s.sx2 - s.sx * s.sx }

  /** Expansion along the first column: `D` and `Dc` by their cofactors, and
      the other two columns against them give zero. */
  lemma FirstColumn(s: PowerSums)
    ensures Det(s) == s.n * Cofactor11(s) + s.sx * Cofactor12(s) + s.sx2 * Cofactor13(s)
    ensures DetC(s) == s.sy * Cofactor11(s) + s.sxy * Cofactor12(s) + s.sx2y * Cofactor13(s)
    ensures s.sx * Cofactor11(s) + s.sx2 * Cofactor12(s) + s.sx3 * Cofactor13(s) == 0.0
    ensures s.sx2 * Cofactor11(s) + s.sx3 * Cofactor12(s) + s.sx4 * Cofactor13(s) == 0.0
  {
  }

  /** The same along the second column, for `Db`. */
  lemma SecondColumn(s: PowerSums)
    ensures Det(s) == s.sx * Cofactor12(s) + s.sx2 * Cofactor22(s) + s.sx3 * Cofactor23(s)
    ensures DetB(s) == s.sy * Cofactor12(s) + s.sxy * Cofactor22(s) + s.sx2y * Cofactor23(s)
    ensures s.n * Cofactor12(s) + s.sx * Cofactor22(s) + s.sx2 * Cofactor23(s) == 0.0
    ensures s.sx2 * Cofactor12(s) + s.sx3 * Cofactor22(s) + s.sx4 * Cofactor23(s) == 0.0
  {
  }

  /** The same along the third column, for `Da`. */
  lemma ThirdColumn(s: PowerSums)
    ensures Det(s) == s.sx2 * Cofactor13(s) + s.sx3 * Cofactor23(s) + s.sx4 * Cofactor33(s)
    ensures DetA(s) == s.sy * Cofactor13(s) + s.sxy * Cofactor23(s) + s.sx2y * Cofactor33(s)
    ensures s.n * Cofactor13(s) + s.sx * Cofactor23(s) + s.sx2 * Cofactor33(s) == 0.0
    ensures s.sx * Cofactor13(s) + s.sx2 * Cofactor23(s) + s.sx3 * Cofactor33(s) == 0.0
  {
  }

  /** Substituting the three equations into a cofactor expansion: with the
      expansion `dx = y·k` of one of `Dc`, `Db`, `Da`, the matching column
      giving `det` and the other two giving zero, `dx = x·det` for the
      matching unknown `x`. */
  lemma Substitute(p1: real, p2: real, p3: real, q1: real, q2: real, q3: real, r1: real, r2: real, r3: real,
                   y1: real, y2: real, y3: real, k1: real, k2: real, k3: real, a: real, b: real, c: real,
                   pk: real, qk: real, rk: real)
    requires y1 == p1 * c + q1 * b + r1 * a && y2 == p2 * c + q2 * b + r2 * a && y3 == p3 * c + q3 * b + r3 * a
    requires pk == p1 * k1 + p2 * k2 + p3 * k3 && qk == q1 * k1 + q2 * k2 + q3 * k3 && rk == r1 * k1 + r2 * k2 + r3 * k3
    ensures y1 * k1 + y2 * k2 + y3 * k3 == c * pk + b * qk + a * rk
  {
  }

  lemma CramerOfSolution(s: PowerSums, a: real, b: real, c: real)
    requires SolvesNormalEquations(s, a, b, c)
    ensures DetC(s) == c * Det(s) && DetB(s) == b * Det(s) && DetA(s) == a * Det(s)
  {
    CramerOfSolutionC(s, a, b, c);
    CramerOfSolutionB(s, a, b, c);
    CramerOfSolutionA(s, a, b, c);
  }

  lemma CramerOfSolutionC(s: PowerSums, a: real, b: real, c: real)
    requires SolvesNormalEquations(s, a, b, c)
    ensures DetC(s) == c * Det(s)
  {
    FirstColumn(s);
    Substitute(s.n, s.sx, s.sx2, s.sx, s.sx2, s.sx3, s.sx2, s.sx3, s.sx4, s.sy, s.sxy, s.sx2y,
               Cofactor11(s), Cofactor12(s), Cofactor13(s), a, b, c,
               Det(s), 0.0, 0.0);
  }

  lemma CramerOfSolutionB(s: PowerSums, a: real, b: real, c: real)
    requires SolvesNormalEquations(s, a, b, c)
    ensures DetB(s) == b * Det(s)
  {
    SecondColumn(s);
    Substitute(s.n, s.sx, s.sx2, s.sx, s.sx2, s.sx3, s.sx2, s.sx3, s.sx4, s.sy, s.sxy, s.sx2y,
               Cofactor12(s), Cofactor22(s), Cofactor23(s), a, b, c,
               0.0, Det(s), 0.0);
  }

  lemma CramerOfSolutionA(s: PowerSums, a: real, b: real, c: real)
    requires SolvesNormalEquations(s, a, b, c)
    ensures DetA(s) == a * Det(s)
  {
    ThirdColumn(s);
    Substitute(s.n, s.sx, s.sx2, s.sx, s.sx2, s.sx3, s.sx2, s.sx3, s.sx4, s.sy, s.sxy, s.sx2y,
               Cofactor13(s), Cofactor23(s), Cofactor33(s), a, b, c,
               0.0, 0.0, Det(s));
  }

  lemma DivTimes(x: real, y: real)
    requires y != 0.0
    ensures (x / y) * y == x
  {
  }

  lemma RowFromCramer(det: real, p: real, q: real, r: real, dc: real, db: real, da: real, rhs: real,
                      c: real, b: real, a: real)
    requires det != 0.0 && c * det == dc && b * det == db && a * det == da
    requires p * dc + q * db + r * da == rhs * det
    ensures p * c + q * b + r * a == rhs
  {
    assert det * (p * c + q * b + r * a) == det * rhs by {
      assert det * (p * c + q * b + r * a) == p * (c * det) + q * (b * det) + r * (a * det);
    }
    assert det * (p * c + q * b + r * a - rhs) == 0.0;
  }

  /** When `D ≠ 0`, Cramer's rule gives a solution of the normal equations. */
  lemma CramerSolution(s: PowerSums)
    requires Det(s) != 0.0
    ensures SolvesNormalEquations(s, DetA(s) / Det(s), DetB(s) / Det(s), DetC(s) / Det(s))
  {
    SolvedRow1(s);
    SolvedRow2(s);
    SolvedRow3(s);
  }

  /** When `D ≠ 0`, any solution of the normal equations is Cramer's. */
  lemma CramerUnique(s: PowerSums, a: real, b: real, c: real)
    requires Det(s) != 0.0 && SolvesNormalEquations(s, a, b, c)
    ensures a == DetA(s) / Det(s) && b == DetB(s) / Det(s) && c == DetC(s) / Det(s)
  {
    CramerOfSolution(s, a, b, c);
    QuotientOf(DetA(s), Det(s), a);
    QuotientOf(DetB(s), Det(s), b);
    QuotientOf(DetC(s), Det(s), c);
  }

  lemma QuotientOf(x: real, det: real, v: real)
    requires det != 0.0 && x == v * det
    ensures v == x / det
  {
  }
  // ---------------------------------------------------------------------
  // The fitter

  /** The coefficients of `y = a·x² + b·x + c`. */
  datatype QuadFit = QuadFit(a: real, b: real, c: real)

  /** What `polynomialRegression` returns: nothing for fewer than three
      points or for a determinant that is exactly zero, and otherwise
      `(Da/D, Db/D, Dc/D)`. */
  function QuadraticFit(d: seq<Point>): (r: Option<QuadFit>)
    ensures r.None? <==> |d| < 3 || Det(PowerSumsOf(d)) == 0.0
    ensures r.Some? ==> SolvesNormalEquations(PowerSumsOf(d), r.value.a, r.value.b, r.value.c)
  {
    if |d| < 3 then None
    else
      var s := PowerSumsOf(d);
      var D := Det(s);
      if D == 0.0 then None
      else
        CramerSolution(s);
        Some(QuadFit(DetA(s) / D, DetB(s) / D, DetC(s) / D))
  }

  /** `polynomialRegression`: one pass over the points accumulates the seven
      power sums, then the determinant is checked and Cramer's rule applied. */
  method PolynomialRegression(data: seq<Point>) returns (r: Option<QuadFit>)
    ensures r == QuadraticFit(data)
  {
    var n := |data|;
    if n < 3 {
      return None;
    }
    var s := AccumulatePowerSums(data);
    var det := Det(s);
    if det == 0.0 {
      return None;
    }
    var dc, db, da := DetC(s), DetB(s), DetA(s);
    var c := dc / det;
    var b := db / det;
    var a := da / det;
    return Some(QuadFit(a, b, c));
  }

  /** The loop of `polynomialRegression` over `X = data.map(d => d.x)` and
      `Y = data.map(d => d.y)`, with its seven `let` accumulators. */
  method AccumulatePowerSums(data: seq<Point>) returns (s: PowerSums)
    ensures s == PowerSumsOf(data)
  {
    var n := |data|;
    var xs := seq(n, i requires 0 <= i < n => data[i].x);
    var ys := seq(n, i requires 0 <= i < n => data[i].y);
    var sumX, sumX2, sumX3, sumX4, sumY, sumXY, sumX2Y := 0.0, 0.0, 0.0, 0.0, 0.0, 0.0, 0.0;
    for i := 0 to n
      invariant PowerSums(i as real, sumX, sumX2, sumX3, sumX4, sumY, sumXY, sumX2Y) == PowerSumsOf(data[..i])
    {
      PowerSumsOfPrefix(data, i);
      sumX := sumX + xs[i];
      sumX2 := sumX2 + Sq(xs[i]);
      sumX3 := sumX3 + Cube(xs[i]);
      sumX4 := sumX4 + Pow4(xs[i]);
      sumY := sumY + ys[i];
      sumXY := sumXY + xs[i] * ys[i];
      sumX2Y := sumX2Y + Sq(xs[i]) * ys[i];
    }
    assert data[..n] == data;
    s := PowerSums(n as real, sumX, sumX2, sumX3, sumX4, sumY, sumXY, sumX2Y);
  }

  /** The sums of a prefix one point longer. */
  lemma PowerSumsOfPrefix(data: seq<Point>, i: int)
    requires 0 <= i < |data|
    ensures PowerSumsOf(data[..i + 1]) == AddPoint(PowerSumsOf(data[..i]), data[i])
  {
    PrefixStep(data, i);
    PowerSumsStep(data[..i + 1]);
  }

  // ---------------------------------------------------------------------
  // Residuals

  /** The vertical distance from the point to the parabola. */
  function Residual(p: Point, a: real, b: real, c: real): real
  {
    p.y - (a * Sq(p.x) + b * p.x + c)
  }

  predicate OnParabola(p: Point, a: real, b: real, c: real)
  {
    p.y == a * Sq(p.x) + b * p.x + c
  }

  predicate AllOnParabola(d: seq<Point>, a: real, b: real, c: real)
  {
    forall i :: 0 <= i < |d| ==> OnParabola(d[i], a, b, c)
  }

  /** `Σ r`, `Σ r·x` and `Σ r·x²` over the residuals `r`. */
  function ResidualSum(d: seq<Point>, a: real, b: real, c: real): real
  {
    if |d| == 0 then 0.0 else ResidualSum(Init(d), a, b, c) + Residual(Last(d), a, b, c)
  }

  function ResidualXSum(d: seq<Point>, a: real, b: real, c: real): real
  {
    if |d| == 0 then 0.0 else ResidualXSum(Init(d), a, b, c) + Residual(Last(d), a, b, c) * Last(d).x
  }

  function ResidualX2Sum(d: seq<Point>, a: real, b: real, c: real): real
  {
    if |d| == 0 then 0.0 else ResidualX2Sum(Init(d), a, b, c) + Residual(Last(d), a, b, c) * Sq(Last(d).x)
  }

  /** How far `(a, b, c)` is from solving each normal equation. */
  function Gap0(s: PowerSums, a: real, b: real, c: real): real
  {
    s.sy - (s.n * c + s.sx * b + s.sx2 * a)
  }

  function Gap1(s: PowerSums, a: real, b: real, c: real): real
  {
    s.sxy - (s.sx * c + s.sx2 * b + s.sx3 * a)
  }

  function Gap2(s: PowerSums, a: real, b: real, c: real): real
  {
    s.sx2y - (s.sx2 * c + s.sx3 * b + s.sx4 * a)
  }

  /** The sums after one more point. */
  function AddPoint(s: PowerSums, p: Point): PowerSums
  {
    PowerSums(s.n + 1.0, s.sx + p.x, s.sx2 + Sq(p.x), s.sx3 + Cube(p.x), s.sx4 + Pow4(p.x),
              s.sy + p.y, s.sxy + p.x * p.y, s.sx2y + Sq(p.x) * p.y)
  }

  lemma PowerSumsStep(d: seq<Point>)
    requires |d| > 0
    ensures PowerSumsOf(d) == AddPoint(PowerSumsOf(Init(d)), Last(d))
  {
  }

  lemma GapsZero(a: real, b: real, c: real)
    ensures Gap0(PowerSums(0.0, 0.0, 0.0, 0.0, 0.0, 0.0, 0.0, 0.0), a, b, c) == 0.0
    ensures Gap1(PowerSums(0.0, 0.0, 0.0, 0.0, 0.0, 0.0, 0.0, 0.0), a, b, c) == 0.0
    ensures Gap2(PowerSums(0.0, 0.0, 0.0, 0.0, 0.0, 0.0, 0.0, 0.0), a, b, c) == 0.0
  {
  }

  lemma Gap0Step(s: PowerSums, p: Point, a: real, b: real, c: real)
    ensures Gap0(AddPoint(s, p), a, b, c) == Gap0(s, a, b, c) + Residual(p, a, b, c)
  {
  }

  // One normal equation's gap after the point `(x, y)` is added: `rhs` and
  // `t0, t1, t2` are that equation's sums before.

  lemma MomentStep1(rhs: real, t0: real, t1: real, t2: real, x: real, y: real, a: real, b: real, c: real)
    ensures (rhs + x * y) - ((t0 + x) * c + (t1 + Sq(x)) * b + (t2 + Cube(x)) * a)
         == (rhs - (t0 * c + t1 * b + t2 * a)) + (y - (a * Sq(x) + b * x + c)) * x
  {
  }

  lemma MomentStep2(rhs: real, t0: real, t1: real, t2: real, x: real, y: real, a: real, b: real, c: real)
    ensures (rhs + Sq(x) * y) - ((t0 + Sq(x)) * c + (t1 + Cube(x)) * b + (t2 + Pow4(x)) * a)
         == (rhs - (t0 * c + t1 * b + t2 * a)) + (y - (a * Sq(x) + b * x + c)) * Sq(x)
  {
  }

  /** The gaps in the normal equations are the moments of the residuals. */
  lemma GapsAreResidualMoments(d: seq<Point>, a: real, b: real, c: real)
    ensures Gap0(PowerSumsOf(d), a, b, c) == ResidualSum(d, a, b, c)
    ensures Gap1(PowerSumsOf(d), a, b, c) == ResidualXSum(d, a, b, c)
    ensures Gap2(PowerSumsOf(d), a, b, c) == ResidualX2Sum(d, a, b, c)
  {
    Moment0(d, a, b, c);
    Moment1(d, a, b, c);
    Moment2(d, a, b, c);
  }

  lemma {:induction false} Moment0(d: seq<Point>, a: real, b: real, c: real)
    ensures Gap0(PowerSumsOf(d), a, b, c) == ResidualSum(d, a, b, c)
  {
    if |d| == 0 {
      GapsZero(a, b, c);
    } else {
      Moment0(Init(d), a, b, c);
      Moment0Step(d, a, b, c);
    }
  }

  lemma Moment0Step(d: seq<Point>, a: real, b: real, c: real)
    requires |d| > 0 && Gap0(PowerSumsOf(Init(d)), a, b, c) == ResidualSum(Init(d), a, b, c)
    ensures Gap0(PowerSumsOf(d), a, b, c) == ResidualSum(d, a, b, c)
  {
    Gap0OfData(d, a, b, c);
    ResidualSumsStep(d, a, b, c);
  }

  lemma {:induction false} Moment1(d: seq<Point>, a: real, b: real, c: real)
    ensures Gap1(PowerSumsOf(d), a, b, c) == ResidualXSum(d, a, b, c)
  {
    if |d| == 0 {
      GapsZero(a, b, c);
    } else {
      Moment1(Init(d), a, b, c);
      Moment1Step(d, a, b, c);
    }
  }

  lemma Moment1Step(d: seq<Point>, a: real, b: real, c: real)
    requires |d| > 0 && Gap1(PowerSumsOf(Init(d)), a, b, c) == ResidualXSum(Init(d), a, b, c)
    ensures Gap1(PowerSumsOf(d), a, b, c) == ResidualXSum(d, a, b, c)
  {
    Gap1OfData(d, a, b, c);
    ResidualSumsStep(d, a, b, c);
  }

  lemma {:induction false} Moment2(d: seq<Point>, a: real, b: real, c: real)
    ensures Gap2(PowerSumsOf(d), a, b, c) == ResidualX2Sum(d, a, b, c)
  {
    if |d| == 0 {
      GapsZero(a, b, c);
    } else {
      Moment2(Init(d), a, b, c);
      Moment2Step(d, a, b, c);
    }
  }

  lemma Moment2Step(d: seq<Point>, a: real, b: real, c: real)
    requires |d| > 0 && Gap2(PowerSumsOf(Init(d)), a, b, c) == ResidualX2Sum(Init(d), a, b, c)
    ensures Gap2(PowerSumsOf(d), a, b, c) == ResidualX2Sum(d, a, b, c)
  {
    Gap2OfData(d, a, b, c);
    ResidualSumsStep(d, a, b, c);
  }

  lemma Gap0OfData(d: seq<Point>, a: real, b: real, c: real)
    requires |d| > 0
    ensures var p := Last(d);
      Gap0(PowerSumsOf(d), a, b, c) == Gap0(PowerSumsOf(Init(d)), a, b, c) + Residual(p, a, b, c)
  {
    PowerSumsStep(d);
    Gap0Step(PowerSumsOf(Init(d)), Last(d), a, b, c);
  }

  lemma Gap1OfData(d: seq<Point>, a: real, b: real, c: real)
    requires |d| > 0
    ensures var p := Last(d);
      Gap1(PowerSumsOf(d), a, b, c) == Gap1(PowerSumsOf(Init(d)), a, b, c) + Residual(p, a, b, c) * p.x
  {
    var d0, p := Init(d), Last(d);
    MomentStep1(SumXY(d0), SumX(d0), SumX2(d0), SumX3(d0), p.x, p.y, a, b, c);
  }

  lemma Gap2OfData(d: seq<Point>, a: real, b: real, c: real)
    requires |d| > 0
    ensures var p := Last(d);
      Gap2(PowerSumsOf(d), a, b, c) == Gap2(PowerSumsOf(Init(d)), a, b, c) + Residual(p, a, b, c) * Sq(p.x)
  {
    var d0, p := Init(d), Last(d);
    MomentStep2(SumX2Y(d0), SumX2(d0), SumX3(d0), SumX4(d0), p.x, p.y, a, b, c);
  }

  lemma ResidualSumsStep(d: seq<Point>, a: real, b: real, c: real)
    requires |d| > 0
    ensures ResidualSum(d, a, b, c) == ResidualSum(Init(d), a, b, c) + Residual(Last(d), a, b, c)
    ensures ResidualXSum(d, a, b, c) == ResidualXSum(Init(d), a, b, c) + Residual(Last(d), a, b, c) * Last(d).x
    ensures ResidualX2Sum(d, a, b, c) == ResidualX2Sum(Init(d), a, b, c) + Residual(Last(d), a, b, c) * Sq(Last(d).x)
  {
  }

  /** Points on a parabola leave no residual. */
  lemma {:induction false} ResidualsOnParabola(d: seq<Point>, a: real, b: real, c: real)
    requires AllOnParabola(d, a, b, c)
    ensures ResidualSum(d, a, b, c) == 0.0 && ResidualXSum(d, a, b, c) == 0.0 && ResidualX2Sum(d, a, b, c) == 0.0
  {
    if |d| > 0 {
      assert AllOnParabola(Init(d), a, b, c) by {
        assert forall i :: 0 <= i < |Init(d)| ==> Init(d)[i] == d[i];
      }
      ResidualsOnParabola(Init(d), a, b, c);
      assert OnParabola(d[|d| - 1], a, b, c);
      assert Residual(Last(d), a, b, c) == 0.0;
    }
  }

  /** Points that all lie on one parabola, with `D ≠ 0`, give back that
      parabola's coefficients. */
  lemma ExactParabola(d: seq<Point>, a0: real, b0: real, c0: real)
    requires AllOnParabola(d, a0, b0, c0) && |d| >= 3 && Det(PowerSumsOf(d)) != 0.0
    ensures QuadraticFit(d) == Some(QuadFit(a0, b0, c0))
  {
    ResidualsOnParabola(d, a0, b0, c0);
    GapsAreResidualMoments(d, a0, b0, c0);
    CramerUnique(PowerSumsOf(d), a0, b0, c0);
  }

  // ---------------------------------------------------------------------
  // Three points

  /** The power sums of three x values, written as plain products. */
  function PowSum1(x0: real, x1: real, x2: real): real
  {
    x0 + x1 + x2
  }

  function PowSum2(x0: real, x1: real, x2: real): real
  {
    x0 * x0 + x1 * x1 + x2 * x2
  }

  function PowSum3(x0: real, x1: real, x2: real): real
  {
    x0 * x0 * x0 + x1 * x1 * x1 + x2 * x2 * x2
  }

  function PowSum4(x0: real, x1: real, x2: real): real
  {
    x0 * x0 * x0 * x0 + x1 * x1 * x1 * x1 + x2 * x2 * x2 * x2
  }

  // The three 2×2 minors of the first row of `D`, each a sum over the pairs
  // of points (the Cauchy–Binet formula).

  lemma Minor1(x0: real, x1: real, x2: real)
    ensures PowSum2(x0, x1, x2) * PowSum4(x0, x1, x2) - PowSum3(x0, x1, x2) * PowSum3(x0, x1, x2)
         == (x0 * x1 * (x1 - x0)) * (x0 * x1 * (x1 - x0)) + (x0 * x2 * (x2 - x0)) * (x0 * x2 * (x2 - x0))
          + (x1 * x2 * (x2 - x1)) * (x1 * x2 * (x2 - x1))
  {
  }

  lemma Minor2(x0: real, x1: real, x2: real)
    ensures PowSum1(x0, x1, x2) * PowSum4(x0, x1, x2) - PowSum3(x0, x1, x2) * PowSum2(x0, x1, x2)
         == x0 * x1 * (x1 - x0) * (x1 - x0) * (x0 + x1) + x0 * x2 * (x2 - x0) * (x2 - x0) * (x0 + x2)
          + x1 * x2 * (x2 - x1) * (x2 - x1) * (x1 + x2)
  {
  }

  lemma Minor3(x0: real, x1: real, x2: real)
    ensures PowSum1(x0, x1, x2) * PowSum3(x0, x1, x2) - PowSum2(x0, x1, x2) * PowSum2(x0, x1, x2)
         == x0 * x1 * (x1 - x0) * (x1 - x0) + x0 * x2 * (x2 - x0) * (x2 - x0) + x1 * x2 * (x2 - x1) * (x2 - x1)
  {
  }

  lemma MinorsCombined(x0: real, x1: real, x2: real)
    ensures 3.0 * ((x0 * x1 * (x1 - x0)) * (x0 * x1 * (x1 - x0)) + (x0 * x2 * (x2 - x0)) * (x0 * x2 * (x2 - x0))
          + (x1 * x2 * (x2 - x1)) * (x1 * x2 * (x2 - x1)))
          - PowSum1(x0, x1, x2) * (x0 * x1 * (x1 - x0) * (x1 - x0) * (x0 + x1) + x0 * x2 * (x2 - x0) * (x2 - x0) * (x0 + x2)
          + x1 * x2 * (x2 - x1) * (x2 - x1) * (x1 + x2))
          + PowSum2(x0, x1, x2) * (x0 * x1 * (x1 - x0) * (x1 - x0) + x0 * x2 * (x2 - x0) * (x2 - x0) + x1 * x2 * (x2 - x1) * (x2 - x1))
         == ((x1 - x0) * (x2 - x0) * (x2 - x1)) * ((x1 - x0) * (x2 - x0) * (x2 - x1))
  {
  }

  lemma PowersAsProducts(x0: real, x1: real, x2: real)
    ensures Sq(x0) + Sq(x1) + Sq(x2) == PowSum2(x0, x1, x2)
    ensures Cube(x0) + Cube(x1) + Cube(x2) == PowSum3(x0, x1, x2)
    ensures Pow4(x0) + Pow4(x1) + Pow4(x2) == PowSum4(x0, x1, x2)
  {
  }

  /** For three points `D` is the square of the Vandermonde determinant
      `(x₁ − x₀)(x₂ − x₀)(x₂ − x₁)`. */
  lemma GramThree(s: PowerSums, x0: real, x1: real, x2: real)
    requires s.n == 3.0 && s.sx == x0 + x1 + x2
    requires s.sx2 == Sq(x0) + Sq(x1) + Sq(x2)
    requires s.sx3 == Cube(x0) + Cube(x1) + Cube(x2)
    requires s.sx4 == Pow4(x0) + Pow4(x1) + Pow4(x2)
    ensures Det(s) == Sq((x1 - x0) * (x2 - x0) * (x2 - x1))
  {
    PowersAsProducts(x0, x1, x2);
    DetOfPowers(s, PowSum1(x0, x1, x2), PowSum2(x0, x1, x2), PowSum3(x0, x1, x2), PowSum4(x0, x1, x2));
    VandermondeSquare(x0, x1, x2);
  }

  /** `D` written with the power sums of the x values. */
  lemma DetOfPowers(s: PowerSums, p1: real, p2: real, p3: real, p4: real)
    requires s.n == 3.0 && s.sx == p1 && s.sx2 == p2 && s.sx3 == p3 && s.sx4 == p4
    ensures Det(s) == 3.0 * (p2 * p4 - p3 * p3) - p1 * (p1 * p4 - p3 * p2) + p2 * (p1 * p3 - p2 * p2)
  {
  }

  /** The same expression in the three x values is the squared Vandermonde
      determinant. */
  lemma VandermondeSquare(x0: real, x1: real, x2: real)
    ensures var p1, p2, p3, p4 := PowSum1(x0, x1, x2), PowSum2(x0, x1, x2), PowSum3(x0, x1, x2), PowSum4(x0, x1, x2);
      3.0 * (p2 * p4 - p3 * p3) - p1 * (p1 * p4 - p3 * p2) + p2 * (p1 * p3 - p2 * p2)
        == Sq((x1 - x0) * (x2 - x0) * (x2 - x1))
  {
    var p1, p2, p3, p4 := PowSum1(x0, x1, x2), PowSum2(x0, x1, x2), PowSum3(x0, x1, x2), PowSum4(x0, x1, x2);
    Minor1(x0, x1, x2);
    Minor2(x0, x1, x2);
    Minor3(x0, x1, x2);
    ExpandAlongRow(p1, p2, p2 * p4 - p3 * p3, p1 * p4 - p3 * p2, p1 * p3 - p2 * p2,
      (x0 * x1 * (x1 - x0)) * (x0 * x1 * (x1 - x0)) + (x0 * x2 * (x2 - x0)) * (x0 * x2 * (x2 - x0))
        + (x1 * x2 * (x2 - x1)) * (x1 * x2 * (x2 - x1)),
      x0 * x1 * (x1 - x0) * (x1 - x0) * (x0 + x1) + x0 * x2 * (x2 - x0) * (x2 - x0) * (x0 + x2)
        + x1 * x2 * (x2 - x1) * (x2 - x1) * (x1 + x2),
      x0 * x1 * (x1 - x0) * (x1 - x0) + x0 * x2 * (x2 - x0) * (x2 - x0) + x1 * x2 * (x2 - x1) * (x2 - x1));
    MinorsCombined(x0, x1, x2);
  }

  /** A first-row expansion `3·m1 − p1·m2 + p2·m3` is unchanged when each
      minor is replaced by an equal value. */
  lemma ExpandAlongRow(p1: real, p2: real, m1: real, m2: real, m3: real, e1: real, e2: real, e3: real)
    requires m1 == e1 && m2 == e2 && m3 == e3
    ensures 3.0 * m1 - p1 * m2 + p2 * m3 == 3.0 * e1 - p1 * e2 + p2 * e3
  {
  }

  /** The sums of three points. */
  lemma ThreeSums(p0: Point, p1: Point, p2: Point, a: real, b: real, c: real)
    ensures var s := PowerSumsOf([p0, p1, p2]);
      && s.n == 3.0 && s.sx == p0.x + p1.x + p2.x
      && s.sx2 == Sq(p0.x) + Sq(p1.x) + Sq(p2.x)
      && s.sx3 == Cube(p0.x) + Cube(p1.x) + Cube(p2.x)
      && s.sx4 == Pow4(p0.x) + Pow4(p1.x) + Pow4(p2.x)
    ensures ResidualSum([p0, p1, p2], a, b, c)
         == Residual(p0, a, b, c) + Residual(p1, a, b, c) + Residual(p2, a, b, c)
    ensures ResidualXSum([p0, p1, p2], a, b, c)
         == Residual(p0, a, b, c) * p0.x + Residual(p1, a, b, c) * p1.x + Residual(p2, a, b, c) * p2.x
    ensures ResidualX2Sum([p0, p1, p2], a, b, c)
         == Residual(p0, a, b, c) * Sq(p0.x) + Residual(p1, a, b, c) * Sq(p1.x) + Residual(p2, a, b, c) * Sq(p2.x)
  {
    var d2, d1, d0: seq<Point> := [p0, p1, p2], [p0, p1], [p0];
    assert Init(d2) == d1 && Last(d2) == p2;
    assert Init(d1) == d0 && Last(d1) == p1;
    assert Init(d0) == [] && Last(d0) == p0;
    PowerSumsStep(d0);
    PowerSumsStep(d1);
    PowerSumsStep(d2);
    assert ResidualSum(d0, a, b, c) == Residual(p0, a, b, c);
    assert ResidualXSum(d0, a, b, c) == Residual(p0, a, b, c) * p0.x;
    assert ResidualX2Sum(d0, a, b, c) == Residual(p0, a, b, c) * Sq(p0.x);
  }

  /** Three points with different x values give a non-zero determinant. */
  lemma ThreeDistinctDet(p0: Point, p1: Point, p2: Point)
    requires p0.x != p1.x && p0.x != p2.x && p1.x != p2.x
    ensures Det(PowerSumsOf([p0, p1, p2])) > 0.0
  {
    ThreeSums(p0, p1, p2, 0.0, 0.0, 0.0);
    GramThree(PowerSumsOf([p0, p1, p2]), p0.x, p1.x, p2.x);
    PositiveSquare(Det(PowerSumsOf([p0, p1, p2])), p1.x - p0.x, p2.x - p0.x, p2.x - p1.x);
  }

  lemma PositiveSquare(det: real, u: real, v: real, w: real)
    requires u != 0.0 && v != 0.0 && w != 0.0 && det == Sq(u * v * w)
    ensures det > 0.0
  {
    assert u * v != 0.0;
    assert u * v * w != 0.0;
    SquareFacts(u * v * w);
  }

  /** Residuals orthogonal to `1`, `x` and `x²` at three distinct x values
      are all zero. */
  lemma VandermondeKernel(x0: real, x1: real, x2: real, r0: real, r1: real, r2: real)
    requires x0 != x1 && x0 != x2 && x1 != x2
    requires r0 + r1 + r2 == 0.0
    requires r0 * x0 + r1 * x1 + r2 * x2 == 0.0
    requires r0 * Sq(x0) + r1 * Sq(x1) + r2 * Sq(x2) == 0.0
    ensures r0 == 0.0 && r1 == 0.0 && r2 == 0.0
  {
    KernelEntry(x0, x1, x2, r0, r1, r2);
    KernelEntry(x1, x2, x0, r1, r2, r0);
    KernelEntry(x2, x0, x1, r2, r0, r1);
  }

  lemma KernelEntry(x0: real, x1: real, x2: real, r0: real, r1: real, r2: real)
    requires x0 != x1 && x0 != x2 && x1 != x2
    requires r0 + r1 + r2 == 0.0
    requires r0 * x0 + r1 * x1 + r2 * x2 == 0.0
    requires r0 * Sq(x0) + r1 * Sq(x1) + r2 * Sq(x2) == 0.0
    ensures r2 == 0.0
  {
    var q0, q1, q2 := Sq(x0), Sq(x1), Sq(x2);
    assert r2 * ((x2 - x0) * (x2 - x1))
        == (r0 * q0 + r1 * q1 + r2 * q2) - (x0 + x1) * (r0 * x0 + r1 * x1 + r2 * x2) + x0 * x1 * (r0 + r1 + r2);
    assert (x2 - x0) * (x2 - x1) != 0.0;
  }

  /** Three points with different x values are all on the fitted parabola. */
  lemma ThreePointsExact(p0: Point, p1: Point, p2: Point)
    requires p0.x != p1.x && p0.x != p2.x && p1.x != p2.x
    ensures QuadraticFit([p0, p1, p2]).Some?
    ensures var f := QuadraticFit([p0, p1, p2]).value;
      OnParabola(p0, f.a, f.b, f.c) && OnParabola(p1, f.a, f.b, f.c) && OnParabola(p2, f.a, f.b, f.c)
  {
    var d := [p0, p1, p2];
    ThreeDistinctDet(p0, p1, p2);
    var f := QuadraticFit(d).value;
    GapsAreResidualMoments(d, f.a, f.b, f.c);
    ThreeSums(p0, p1, p2, f.a, f.b, f.c);
    VandermondeKernel(p0.x, p1.x, p2.x, Residual(p0, f.a, f.b, f.c), Residual(p1, f.a, f.b, f.c), Residual(p2, f.a, f.b, f.c));
  }

  /** The data of the route's second test, `(1, 2)`, `(2, 4)` and `(3, 8)`. */
  function RouteExampleData(): seq<Point>
  {
    [Point(1.0, 2.0), Point(2.0, 4.0), Point(3.0, 8.0)]
  }

  /** That data lies on `y = x² − x + 2`. */
  lemma RouteExampleOnParabola()
    ensures AllOnParabola(RouteExampleData(), 1.0, -1.0, 2.0)
  {
    var d := RouteExampleData();
    forall i | 0 <= i < |d|
      ensures OnParabola(d[i], 1.0, -1.0, 2.0)
    {
      assert i == 0 || i == 1 || i == 2;
      if i == 0 {
        assert d[i] == Point(1.0, 2.0);
      } else if i == 1 {
        assert d[i] == Point(2.0, 4.0);
      } else {
        assert d[i] == Point(3.0, 8.0);
      }
    }
  }

  /** For that data the fit is `a = 1`, `b = −1`, `c = 2`. */
  lemma RouteExampleQuadratic()
    ensures QuadraticFit(RouteExampleData()) == Some(QuadFit(1.0, -1.0, 2.0))
  {
    ThreeDistinctDet(Point(1.0, 2.0), Point(2.0, 4.0), Point(3.0, 8.0));
    RouteExampleOnParabola();
    ExactParabola(RouteExampleData(), 1.0, -1.0, 2.0);
  }
}
