/** The least-squares line `y = slope·x + intercept` and its R², as
    `linearRegression` in the regression route computes them; the same
    building blocks serve the fallback fitter of the ML route. */
module Linear {
  import opened Values
  import opened Sums

  /** The count `n` and the four sums the fitters accumulate: Σx, Σy, Σxy, Σx². */
  datatype LineSums = LineSums(n: real, sx: real, sy: real, sxy: real, sxx: real)

  function LineSumsOf(d: seq<Point>): LineSums
  {
    LineSums(Count(d), SumX(d), SumY(d), SumXY(d), SumX2(d))
  }

  /** `(n·Σxy − Σx·Σy) / (n·Σx² − Σx·Σx)`; the divisor is not checked. */
  function FitSlope(s: LineSums): (r: Num)
    ensures r.Finite? <==> Spread(s.n, s.sxx, s.sx) != 0.0
  {
    Div(s.n * s.sxy - s.sx * s.sy, Spread(s.n, s.sxx, s.sx))
  }

  /** `(Σy − slope·Σx) / n`; the divisor is not checked. */
  function FitIntercept(s: LineSums, slope: Num): (r: Num)
    ensures r.Finite? <==> slope.Finite? && s.n != 0.0
    ensures r.Finite? ==> slope.v * s.sx + r.v * s.n == s.sy
  {
    match slope
    case Finite(m) => Div(s.sy - m * s.sx, s.n)
    case NonFinite => NonFinite
  }

  /** `slope·x + intercept`. */
  function Predict(slope: Num, intercept: Num, x: real): Num
  {
    if slope.Finite? && intercept.Finite? then Finite(slope.v * x + intercept.v) else NonFinite
  }

  /** `Σ (y − c)²`. */
  function SqDevY(d: seq<Point>, c: real): real
  {
    if |d| == 0 then 0.0 else SqDevY(Init(d), c) + Sq(Last(d).y - c)
  }

  /** ssTot: the squared deviations of the y values from `meanY`. A fold
      over no points is 0 whatever `meanY` is. */
  function TotalSS(d: seq<Point>, meanY: Num): (r: Num)
    ensures r.Finite? <==> |d| == 0 || meanY.Finite?
    ensures r.Finite? ==> r.v >= 0.0
  {
    if |d| == 0 then Finite(0.0)
    else
      match meanY
      case Finite(c) =>
        SqDevYIsSSE(d, c);
        SSEZeroIff(d, 0.0, c);
        Finite(SqDevY(d, c))
      case NonFinite => NonFinite
  }

  /** ssRes: the squared residuals of the line `y = slope·x + intercept`. */
  function ResidualSS(d: seq<Point>, slope: Num, intercept: Num): (r: Num)
    ensures r.Finite? <==> |d| == 0 || (slope.Finite? && intercept.Finite?)
    ensures r.Finite? ==> r.v >= 0.0
  {
    if |d| == 0 then Finite(0.0)
    else if slope.Finite? && intercept.Finite? then
      SSEZeroIff(d, slope.v, intercept.v);
      Finite(SSE(d, slope.v, intercept.v))
    else NonFinite
  }

  /** `1 − ssRes / ssTot`; the divisor is not checked. */
  function RSquared(ssRes: Num, ssTot: Num): (r: Num)
    ensures r.Finite? <==> ssRes.Finite? && ssTot.Finite? && ssTot.v != 0.0
    ensures r.Finite? ==> (r.v == 1.0 <==> ssRes.v == 0.0)
  {
    if ssRes.Finite? && ssTot.Finite? then
      ZeroRatio(ssRes.v, ssTot.v);
      OneMinus(Div(ssRes.v, ssTot.v))
    else NonFinite
  }

  /** A ratio to a non-zero value is zero exactly when its numerator is. */
  lemma ZeroRatio(res: real, tot: real)
    ensures Div(res, tot).Finite? ==> (Div(res, tot).v == 0.0 <==> res == 0.0)
  {
  }

  /** The numeric fields of the object `linearRegression` returns. */
  datatype LinearFit = LinearFit(slope: Num, intercept: Num, rSquared: Num)

  /** Sums, slope, intercept, `meanY`, ssTot, ssRes and R², in that order. */
  function FitLine(d: seq<Point>): (r: LinearFit)
    ensures r.slope.Finite? <==> SpreadX(d) != 0.0
    ensures r.intercept.Finite? ==> r.slope.Finite?
    ensures r.rSquared.Finite? ==> r.intercept.Finite? || |d| == 0
  {
    var s := LineSumsOf(d);
    var slope := FitSlope(s);
    var intercept := FitIntercept(s, slope);
    var ssTot := TotalSS(d, Div(s.sy, s.n));
    var ssRes := ResidualSS(d, slope, intercept);
    LinearFit(slope, intercept, RSquared(ssRes, ssTot))
  }

  /** `linearRegression`: no result for fewer than two points, and otherwise
      the fit, whatever the data. */
  function LinearRegression(data: seq<Point>): (r: Option<LinearFit>)
    ensures r.None? <==> |data| < 2
    ensures r.Some? ==> r.value == FitLine(data)
  {
    if |data| < 2 then None else Some(FitLine(data))
  }

  // ---------------------------------------------------------------------
  // Algebra on the sums

  /** The slope and intercept solve the two normal equations
      `m·Σx² + b·Σx = Σxy` and `m·Σx + b·n = Σy`. */
  lemma SumsNormalEquations(s: LineSums, m: real, b: real)
    requires s.n > 0.0 && FitSlope(s) == Finite(m) && FitIntercept(s, Finite(m)) == Finite(b)
    ensures m * s.sxx + b * s.sx == s.sxy && m * s.sx + b * s.n == s.sy
  {
    assert b * s.n == s.sy - m * s.sx;
    assert s.n * (m * s.sxx + b * s.sx) == s.n * s.sxy by {
      assert s.n * (b * s.sx) == (s.sy - m * s.sx) * s.sx;
    }
  }

  /** `Σ (p·x + q)²` written with the sums. */
  function Quad(s: LineSums, p: real, q: real): real
  {
    Sq(p) * s.sxx + 2.0 * p * q * s.sx + s.n * Sq(q)
  }

  /** `Σ (y − m·x − b)·(p·x + q)` written with the sums. */
  function Cross(s: LineSums, m: real, b: real, p: real, q: real): real
  {
    p * (s.sxy - m * s.sxx - b * s.sx) + q * (s.sy - m * s.sx - b * s.n)
  }

  lemma ExpandedShift(s: LineSums, syy: real, m: real, b: real, m': real, b': real, p: real, q: real)
    requires m' == m + p && b' == b + q
    ensures Expanded(m', b', syy, s.sxx, s.n, s.sxy, s.sy, s.sx)
         == Expanded(m, b, syy, s.sxx, s.n, s.sxy, s.sy, s.sx) - 2.0 * Cross(s, m, b, p, q) + Quad(s, p, q)
  {
  }

  lemma QuadScaled(s: LineSums, p: real, q: real)
    ensures s.n * Quad(s, p, q) == Sq(p) * Spread(s.n, s.sxx, s.sx) + Sq(p * s.sx + s.n * q)
  {
  }

  /** Moving away from a solution of the normal equations to any other line
      adds a sum of squares to the squared error. */
  lemma SolutionGap(s: LineSums, syy: real, m: real, b: real, m': real, b': real)
    requires m * s.sxx + b * s.sx == s.sxy && m * s.sx + b * s.n == s.sy
    ensures s.n * (Expanded(m', b', syy, s.sxx, s.n, s.sxy, s.sy, s.sx) - Expanded(m, b, syy, s.sxx, s.n, s.sxy, s.sy, s.sx))
         == Sq(m' - m) * Spread(s.n, s.sxx, s.sx) + Sq((m' - m) * s.sx + s.n * (b' - b))
  {
    ExpandedShift(s, syy, m, b, m', b', m' - m, b' - b);
    QuadScaled(s, m' - m, b' - b);
    assert Cross(s, m, b, m' - m, b' - b) == 0.0;
  }

  /** With a positive spread, the solution of the normal equations is the
      one line of least squared error. */
  lemma SolutionLeast(s: LineSums, syy: real, m: real, b: real, m': real, b': real)
    requires m * s.sxx + b * s.sx == s.sxy && m * s.sx + b * s.n == s.sy
    requires s.n > 0.0 && Spread(s.n, s.sxx, s.sx) > 0.0
    ensures Expanded(m, b, syy, s.sxx, s.n, s.sxy, s.sy, s.sx) <= Expanded(m', b', syy, s.sxx, s.n, s.sxy, s.sy, s.sx)
    ensures Expanded(m, b, syy, s.sxx, s.n, s.sxy, s.sy, s.sx) == Expanded(m', b', syy, s.sxx, s.n, s.sxy, s.sy, s.sx)
        ==> m' == m && b' == b
  {
    SolutionGap(s, syy, m, b, m', b');
    var gap := Expanded(m', b', syy, s.sxx, s.n, s.sxy, s.sy, s.sx) - Expanded(m, b, syy, s.sxx, s.n, s.sxy, s.sy, s.sx);
    GapSigns(s.n, gap, Spread(s.n, s.sxx, s.sx), m' - m, (m' - m) * s.sx + s.n * (b' - b));
    if gap == 0.0 {
      assert s.n * (b' - b) == 0.0;
    }
  }

  /** Signs in `n·gap = p²·spread + r²`. */
  lemma GapSigns(n: real, gap: real, spread: real, p: real, r: real)
    requires n > 0.0 && spread > 0.0 && n * gap == Sq(p) * spread + Sq(r)
    ensures gap >= 0.0
    ensures gap == 0.0 ==> p == 0.0 && r == 0.0
  {
    SquareFacts(p);
    SquareFacts(r);
    assert Sq(p) * spread >= 0.0 by {
      if Sq(p) > 0.0 {
        PositiveProduct(Sq(p), spread);
      }
    }
    if gap < 0.0 {
      PositiveProduct(n, -gap);
    }
    if gap == 0.0 && p != 0.0 {
      PositiveProduct(Sq(p), spread);
    }
  }

  /** A ratio of a value to a larger positive one. */
  lemma RatioFacts(res: real, tot: real, q: real)
    requires 0.0 <= res <= tot && tot > 0.0 && q * tot == res
    ensures 0.0 <= q <= 1.0
    ensures q == 0.0 <==> res == 0.0
    ensures q == 1.0 <==> res == tot
  {
    if q < 0.0 {
      PositiveProduct(-q, tot);
    }
    if q > 1.0 {
      PositiveProduct(q - 1.0, tot);
    }
  }

  // ---------------------------------------------------------------------
  // Properties of the fitted line

  /** The slope is a number exactly when the x values are not all equal (the
      divisor `n·Σx² − (Σx)²` is zero exactly then, and is never negative);
      the intercept is a number exactly when the slope is. */
  lemma {:induction false} SlopeFiniteIff(d: seq<Point>)
    ensures SpreadX(d) >= 0.0
    ensures FitLine(d).slope.Finite? <==> !AllSameX(d)
    ensures FitLine(d).intercept.Finite? <==> FitLine(d).slope.Finite?
    ensures FitLine(d).slope.Finite? ==> |d| >= 2
  {
    SpreadXZeroIff(d);
    if |d| < 2 {
      assert AllSameX(d);
    }
  }

  /** The fitted slope and intercept solve the normal equations of least
      squares, and the line passes through the mean point `(Σx/n, Σy/n)`. */
  lemma FitSolvesNormalEquations(d: seq<Point>)
    requires FitLine(d).slope.Finite?
    ensures var m, b := FitLine(d).slope.v, FitLine(d).intercept.v;
      m * SumX2(d) + b * SumX(d) == SumXY(d) && m * SumX(d) + b * Count(d) == SumY(d)
    ensures OnLine(Point(SumX(d) / Count(d), SumY(d) / Count(d)), FitLine(d).slope.v, FitLine(d).intercept.v)
  {
    SlopeFiniteIff(d);
    var s := LineSumsOf(d);
    var m, b := FitLine(d).slope.v, FitLine(d).intercept.v;
    SumsNormalEquations(s, m, b);
    MeanPoint(s.n, s.sx, s.sy, m, b);
  }

  lemma MeanPoint(n: real, sx: real, sy: real, m: real, b: real)
    requires n > 0.0 && m * sx + b * n == sy
    ensures m * (sx / n) + b == sy / n
  {
    assert m * (sx / n) == (m * sx) / n;
  }

  /** The fitted line has the least squared error of all lines, and no other
      line has as little. */
  lemma LeastSquares(d: seq<Point>, m': real, b': real)
    requires FitLine(d).slope.Finite?
    ensures SSE(d, FitLine(d).slope.v, FitLine(d).intercept.v) <= SSE(d, m', b')
    ensures SSE(d, FitLine(d).slope.v, FitLine(d).intercept.v) == SSE(d, m', b')
        ==> m' == FitLine(d).slope.v && b' == FitLine(d).intercept.v
  {
    SlopeFiniteIff(d);
    SpreadXZeroIff(d);
    var s := LineSumsOf(d);
    var m, b := FitLine(d).slope.v, FitLine(d).intercept.v;
    SumsNormalEquations(s, m, b);
    SSEExpand(d, m, b);
    SSEExpand(d, m', b');
    SolutionLeast(s, SumY2(d), m, b, m', b');
  }

  /** `Σ (y − c)²` is the squared error of the horizontal line `y = c`. */
  lemma {:induction false} SqDevYIsSSE(d: seq<Point>, c: real)
    ensures SqDevY(d, c) == SSE(d, 0.0, c)
  {
    if |d| > 0 {
      SqDevYIsSSE(Init(d), c);
      assert 0.0 * Last(d).x + c == c;
    }
  }

  /** All points lie on the horizontal line through the mean y exactly when
      all y values are equal. */
  lemma FlatIff(d: seq<Point>)
    requires |d| > 0
    ensures AllOnLine(d, 0.0, SumY(d) / Count(d)) <==> AllSameY(d)
  {
    if AllSameY(d) {
      OnMeanLine(d);
    }
    if AllOnLine(d, 0.0, SumY(d) / Count(d)) {
      SameYOnFlatLine(d, SumY(d) / Count(d));
    }
  }

  lemma OnMeanLine(d: seq<Point>)
    requires |d| > 0 && AllSameY(d)
    ensures AllOnLine(d, 0.0, SumY(d) / Count(d))
  {
    var c := d[0].y;
    SumYOfConstant(d, c);
    assert SumY(d) / Count(d) == c;
    forall i | 0 <= i < |d|
      ensures OnLine(d[i], 0.0, c)
    {
      assert 0.0 * d[i].x == 0.0;
    }
  }

  /** Points on a horizontal line all have the same y. */
  lemma SameYOnFlatLine(d: seq<Point>, c: real)
    requires AllOnLine(d, 0.0, c)
    ensures AllSameY(d)
  {
    forall i, j | 0 <= i < |d| && 0 <= j < |d|
      ensures d[i].y == d[j].y
    {
      assert OnLine(d[i], 0.0, c) && OnLine(d[j], 0.0, c);
    }
  }

  /** ssTot is the squared error of the horizontal line through the mean y. */
  lemma TotalSSIsSSE(d: seq<Point>)
    requires |d| > 0
    ensures TotalSS(d, Div(SumY(d), Count(d))) == Finite(SSE(d, 0.0, SumY(d) / Count(d)))
  {
    SqDevYIsSSE(d, SumY(d) / Count(d));
  }

  /** Once the slope is a number, R² compares the squared errors of the
      fitted line and of the horizontal line through the mean y. */
  lemma FitSquaredErrors(d: seq<Point>)
    requires FitLine(d).slope.Finite?
    ensures |d| >= 2 && FitLine(d).intercept.Finite?
    ensures FitLine(d).rSquared
         == RSquared(Finite(SSE(d, FitLine(d).slope.v, FitLine(d).intercept.v)), Finite(SSE(d, 0.0, SumY(d) / Count(d))))
  {
    SlopeFiniteIff(d);
    TotalSSIsSSE(d);
  }

  /** R² is a number exactly when neither all x values nor all y values are
      equal; otherwise a division by zero makes it NaN or infinite. */
  lemma RSquaredFiniteIff(d: seq<Point>)
    ensures FitLine(d).rSquared.Finite? <==> !AllSameX(d) && !AllSameY(d)
  {
    SlopeFiniteIff(d);
    if FitLine(d).slope.Finite? {
      FitSquaredErrors(d);
      SSEZeroIff(d, 0.0, SumY(d) / Count(d));
      FlatIff(d);
    }
  }

  /** When R² is a number it lies in [0, 1]; it is 1 exactly when every point
      lies on the fitted line, and 0 exactly when the fitted slope is 0. */
  lemma RSquaredBounds(d: seq<Point>)
    requires FitLine(d).rSquared.Finite?
    ensures FitLine(d).slope.Finite?
    ensures 0.0 <= FitLine(d).rSquared.v <= 1.0
    ensures FitLine(d).rSquared.v == 1.0 <==> AllOnLine(d, FitLine(d).slope.v, FitLine(d).intercept.v)
    ensures FitLine(d).rSquared.v == 0.0 <==> FitLine(d).slope.v == 0.0
  {
    RSquaredFiniteIff(d);
    FitSquaredErrors(d);
    var m, b := FitLine(d).slope.v, FitLine(d).intercept.v;
    var meanY := SumY(d) / Count(d);
    SSEZeroIff(d, m, b);
    SSEZeroIff(d, 0.0, meanY);
    LeastSquares(d, 0.0, meanY);
    RSquaredOfErrors(SSE(d, m, b), SSE(d, 0.0, meanY));
    FlatSlope(d);
  }

  /** `1 − res / tot` for `0 ≤ res ≤ tot`, `tot ≠ 0`. */
  lemma RSquaredOfErrors(res: real, tot: real)
    requires 0.0 <= res <= tot && tot != 0.0
    ensures RSquared(Finite(res), Finite(tot)).Finite?
    ensures 0.0 <= RSquared(Finite(res), Finite(tot)).v <= 1.0
    ensures RSquared(Finite(res), Finite(tot)).v == 1.0 <==> res == 0.0
    ensures RSquared(Finite(res), Finite(tot)).v == 0.0 <==> res == tot
  {
    RatioFacts(res, tot, Div(res, tot).v);
  }

  /** The fitted line has the squared error of the mean line exactly when
      its slope is 0. */
  lemma FlatSlope(d: seq<Point>)
    requires FitLine(d).slope.Finite?
    ensures var m, b := FitLine(d).slope.v, FitLine(d).intercept.v;
      SSE(d, m, b) == SSE(d, 0.0, SumY(d) / Count(d)) <==> m == 0.0
  {
    var m, b := FitLine(d).slope.v, FitLine(d).intercept.v;
    LeastSquares(d, 0.0, SumY(d) / Count(d));
    if m == 0.0 {
      FitSolvesNormalEquations(d);
      assert b == SumY(d) / Count(d);
    }
  }

  /** Points that all lie on one line with two distinct x values give back
      that line; R² is then 1, or NaN when the line is horizontal. */
  lemma ExactLine(d: seq<Point>, m0: real, b0: real)
    requires AllOnLine(d, m0, b0) && !AllSameX(d)
    ensures FitLine(d).slope == Finite(m0) && FitLine(d).intercept == Finite(b0)
    ensures FitLine(d).rSquared == if m0 == 0.0 then NonFinite else Finite(1.0)
  {
    ExactFit(d, m0, b0);
    RSquaredFiniteIff(d);
    if m0 == 0.0 {
      SameYOnFlatLine(d, b0);
    } else {
      SlopedNotFlat(d, m0, b0);
      RSquaredBounds(d);
    }
  }

  /** Points on a sloped line, not all at the same x, do not all have the same y. */
  lemma SlopedNotFlat(d: seq<Point>, m0: real, b0: real)
    requires AllOnLine(d, m0, b0) && !AllSameX(d) && m0 != 0.0
    ensures !AllSameY(d)
  {
    var i, j :| 0 <= i < |d| && 0 <= j < |d| && d[i].x != d[j].x;
    assert OnLine(d[i], m0, b0) && OnLine(d[j], m0, b0);
    SlopeDifference(m0, d[i].x, d[j].x);
  }

  /** Points on one line, not all at the same x, are fitted by that line. */
  lemma ExactFit(d: seq<Point>, m0: real, b0: real)
    requires AllOnLine(d, m0, b0) && !AllSameX(d)
    ensures FitLine(d).slope == Finite(m0) && FitLine(d).intercept == Finite(b0)
  {
    SlopeFiniteIff(d);
    SSEZeroIff(d, m0, b0);
    SSEZeroIff(d, FitLine(d).slope.v, FitLine(d).intercept.v);
    LeastSquares(d, m0, b0);
  }

  lemma SlopeDifference(m: real, x1: real, x2: real)
    requires m != 0.0 && x1 != x2
    ensures m * x1 != m * x2
  {
  }

  /** Two points with different x values are both on the fitted line. */
  lemma TwoPointsExact(p0: Point, p1: Point)
    requires p0.x != p1.x
    ensures FitLine([p0, p1]).slope.Finite? && FitLine([p0, p1]).intercept.Finite?
    ensures OnLine(p0, FitLine([p0, p1]).slope.v, FitLine([p0, p1]).intercept.v)
    ensures OnLine(p1, FitLine([p0, p1]).slope.v, FitLine([p0, p1]).intercept.v)
  {
    var d := [p0, p1];
    var m0 := (p1.y - p0.y) / (p1.x - p0.x);
    var b0 := p0.y - m0 * p0.x;
    assert m0 * (p1.x - p0.x) == p1.y - p0.y;
    assert OnLine(d[1], m0, b0);
    assert AllOnLine(d, m0, b0);
    assert d[0].x != d[1].x;
    ExactLine(d, m0, b0);
  }

  /** An exact line with a non-zero slope is fitted with R² equal to 1. */
  lemma ExactLineRegression(d: seq<Point>, m0: real, b0: real)
    requires AllOnLine(d, m0, b0) && !AllSameX(d) && m0 != 0.0
    ensures LinearRegression(d) == Some(LinearFit(Finite(m0), Finite(b0), Finite(1.0)))
  {
    ExactLine(d, m0, b0);
    SlopeFiniteIff(d);
  }

  /** The data of the route's first test, `(1, 2)` and `(2, 4)`. */
  function RouteExampleData(): seq<Point>
  {
    [Point(1.0, 2.0), Point(2.0, 4.0)]
  }

  /** That data lies on `y = 2·x` and has two different x values. */
  lemma RouteExampleOnLine()
    ensures AllOnLine(RouteExampleData(), 2.0, 0.0) && !AllSameX(RouteExampleData())
  {
    var d := RouteExampleData();
    assert d[0].x != d[1].x;
    forall i | 0 <= i < |d|
      ensures OnLine(d[i], 2.0, 0.0)
    {
      assert i == 0 || i == 1;
      if i == 0 {
        assert d[i] == Point(1.0, 2.0);
      } else {
        assert d[i] == Point(2.0, 4.0);
      }
    }
  }

  /** For that data the fit is slope 2, intercept 0, R² 1. */
  lemma RouteExampleLinear()
    ensures LinearRegression(RouteExampleData()) == Some(LinearFit(Finite(2.0), Finite(0.0), Finite(1.0)))
  {
    RouteExampleOnLine();
    ExactLineRegression(RouteExampleData(), 2.0, 0.0);
  }
}
