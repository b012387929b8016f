/** Data points and the power sums that both routes accumulate over them. */
module Sums {

  /** One `{ x, y }` element of the request's `data` array. */
  datatype Point = Point(x: real, y: real)

  /** The data without its last point. */
  function Init(d: seq<Point>): seq<Point>
    requires |d| > 0
  {
    d[..|d| - 1]
  }

  function Last(d: seq<Point>): Point
    requires |d| > 0
  {
    d[|d| - 1]
  }

  function Count(d: seq<Point>): real
  {
    |d| as real
  }

  /** `e ** 2`, also written `e * e` and `Math.pow(e, 2)` in the routes. */
  function Sq(e: real): real
  {
    e * e
  }

  /** `e ** 3`. */
  function Cube(e: real): real
  {
    Sq(e) * e
  }

  /** `e ** 4`. */
  function Pow4(e: real): real
  {
    Sq(Sq(e))
  }

  // The power sums, each a left fold point by point, as
  // `data.reduce((acc, d) => acc + …, 0)` and the accumulating loops compute them.

  function SumX(d: seq<Point>): real
  {
    if |d| == 0 then 0.0 else SumX(Init(d)) + Last(d).x
  }

  function SumY(d: seq<Point>): real
  {
    if |d| == 0 then 0.0 else SumY(Init(d)) + Last(d).y
  }

  function SumXY(d: seq<Point>): real
  {
    if |d| == 0 then 0.0 else SumXY(Init(d)) + Last(d).x * Last(d).y
  }

  function SumX2(d: seq<Point>): real
  {
    if |d| == 0 then 0.0 else SumX2(Init(d)) + Sq(Last(d).x)
  }

  function SumX3(d: seq<Point>): real
  {
    if |d| == 0 then 0.0 else SumX3(Init(d)) + Cube(Last(d).x)
  }

  function SumX4(d: seq<Point>): real
  {
    if |d| == 0 then 0.0 else SumX4(Init(d)) + Pow4(Last(d).x)
  }

  function SumX2Y(d: seq<Point>): real
  {
    if |d| == 0 then 0.0 else SumX2Y(Init(d)) + Sq(Last(d).x) * Last(d).y
  }

  function SumY2(d: seq<Point>): real
  {
    if |d| == 0 then 0.0 else SumY2(Init(d)) + Sq(Last(d).y)
  }

  /** Sum of squared vertical distances from the points to the line
      `y = m·x + b`. With `m = 0` and `b = meanY` it is the total sum of
      squares about the mean. */
  function SSE(d: seq<Point>, m: real, b: real): real
  {
    if |d| == 0 then 0.0
    else
      SSE(Init(d), m, b) + Sq(Last(d).y - (m * Last(d).x + b))
  }

  /** Sum of squared horizontal distances from the points to `x = c`. */
  function SqDistX(d: seq<Point>, c: real): real
  {
    if |d| == 0 then 0.0
    else
      SqDistX(Init(d), c) + Sq(Last(d).x - c)
  }

  /** `n·s2 − s²` for `n` values with sum `s` and sum of squares `s2`: the
      denominator of the least-squares slope. */
  function Spread(n: real, s2: real, s: real): real
  {
    n * s2 - Sq(s)
  }

  /** The spread of the x values of the data. */
  function SpreadX(d: seq<Point>): real
  {
    Spread(Count(d), SumX2(d), SumX(d))
  }

  predicate OnLine(p: Point, m: real, b: real)
  {
    p.y == m * p.x + b
  }

  predicate AllOnLine(d: seq<Point>, m: real, b: real)
  {
    forall i :: 0 <= i < |d| ==> OnLine(d[i], m, b)
  }

  predicate AllXAt(d: seq<Point>, c: real)
  {
    forall i :: 0 <= i < |d| ==> d[i].x == c
  }

  /** All points have the same x. */
  predicate AllSameX(d: seq<Point>)
  {
    forall i, j :: 0 <= i < |d| && 0 <= j < |d| ==> d[i].x == d[j].x
  }

  /** All points have the same y. */
  predicate AllSameY(d: seq<Point>)
  {
    forall i, j :: 0 <= i < |d| && 0 <= j < |d| ==> d[i].y == d[j].y
  }

  lemma {:induction false} SumYOfConstant(d: seq<Point>, c: real)
    requires forall i :: 0 <= i < |d| ==> d[i].y == c
    ensures SumY(d) == Count(d) * c
  {
    if |d| > 0 {
      assert forall i :: 0 <= i < |Init(d)| ==> Init(d)[i] == d[i];
      SumYOfConstant(Init(d), c);
    }
  }

  /** A square is never negative, and it is zero only at zero. */
  lemma SquareFacts(e: real)
    ensures Sq(e) >= 0.0
    ensures Sq(e) == 0.0 <==> e == 0.0
  {
    if e > 0.0 {
      PositiveProduct(e, e);
    } else if e < 0.0 {
      PositiveProduct(-e, -e);
    }
  }

  lemma PositiveProduct(a: real, b: real)
    requires a > 0.0 && b > 0.0
    ensures Mul(a, b) > 0.0
  {
  }

  function Mul(a: real, b: real): real
  {
    a * b
  }

  /** The squared error is never negative, and it is zero exactly when every
      point lies on the line. */
  lemma {:induction false} SSEZeroIff(d: seq<Point>, m: real, b: real)
    ensures SSE(d, m, b) >= 0.0
    ensures SSE(d, m, b) == 0.0 <==> AllOnLine(d, m, b)
  {
    if |d| > 0 {
      SSEZeroIff(Init(d), m, b);
      SquareFacts(Last(d).y - (m * Last(d).x + b));
      assert AllOnLine(d, m, b) <==> AllOnLine(Init(d), m, b) && OnLine(Last(d), m, b) by {
        assert forall i :: 0 <= i < |Init(d)| ==> Init(d)[i] == d[i];
      }
    }
  }

  /** The same for horizontal distances from `x = c`. */
  lemma {:induction false} SqDistXZeroIff(d: seq<Point>, c: real)
    ensures SqDistX(d, c) >= 0.0
    ensures SqDistX(d, c) == 0.0 <==> AllXAt(d, c)
  {
    if |d| > 0 {
      SqDistXZeroIff(Init(d), c);
      SquareFacts(Last(d).x - c);
      assert AllXAt(d, c) <==> AllXAt(Init(d), c) && Last(d).x == c by {
        assert forall i :: 0 <= i < |Init(d)| ==> Init(d)[i] == d[i];
      }
    }
  }

  /** `Σ(x − c)² = Σx² − 2c·Σx + n·c²`. */
  lemma {:induction false} SqDistXExpand(d: seq<Point>, c: real)
    ensures SqDistX(d, c) == CenteredX2(c, SumX2(d), SumX(d), Count(d))
  {
    if |d| > 0 {
      SqDistXExpand(Init(d), c);
      CenteredX2Step(c, SumX2(d), SumX(d), Count(d), SumX2(Init(d)), SumX(Init(d)), Count(Init(d)), Last(d).x);
    }
  }

  /** `s2 − 2c·s + n·c²`: the sum of squared distances from `x = c` written
      with the power sums. */
  function CenteredX2(c: real, s2: real, s: real, n: real): real
  {
    s2 - 2.0 * c * s + n * Sq(c)
  }

  lemma CenteredX2Step(c: real, s2': real, s': real, n': real, s2: real, s: real, n: real, v: real)
    requires s2' == s2 + Sq(v) && s' == s + v && n' == n + 1.0
    ensures CenteredX2(c, s2', s', n') == CenteredX2(c, s2, s, n) + Sq(v - c)
  {
  }

  /** `Σ(y − m·x − b)²` written with the power sums. */
  lemma {:induction false} SSEExpand(d: seq<Point>, m: real, b: real)
    ensures SSE(d, m, b) == Expanded(m, b, SumY2(d), SumX2(d), Count(d), SumXY(d), SumY(d), SumX(d))
  {
    if |d| == 0 {
      ExpandedZero(m, b);
    } else {
      SSEExpand(Init(d), m, b);
      SumsStep(d);
      ExpandedStep(m, b, SumY2(d), SumX2(d), Count(d), SumXY(d), SumY(d), SumX(d),
                   SumY2(Init(d)), SumX2(Init(d)), Count(Init(d)), SumXY(Init(d)), SumY(Init(d)), SumX(Init(d)),
                   Last(d).x, Last(d).y);
    }
  }

  /** The prefix of length `i + 1` ends in `d[i]` after the prefix of length `i`. */
  lemma PrefixStep(d: seq<Point>, i: int)
    requires 0 <= i < |d|
    ensures Init(d[..i + 1]) == d[..i] && Last(d[..i + 1]) == d[i]
  {
    assert d[..i + 1][..i] == d[..i];
  }

  /** How each power sum grows by the last point. */
  lemma SumsStep(d: seq<Point>)
    requires |d| > 0
    ensures Count(d) == Count(Init(d)) + 1.0
    ensures SumX(d) == SumX(Init(d)) + Last(d).x && SumY(d) == SumY(Init(d)) + Last(d).y
    ensures SumXY(d) == SumXY(Init(d)) + Last(d).x * Last(d).y
    ensures SumX2(d) == SumX2(Init(d)) + Sq(Last(d).x) && SumY2(d) == SumY2(Init(d)) + Sq(Last(d).y)
  {
  }

  /** `syy + m²·sxx + n·b² − 2m·sxy − 2b·sy + 2mb·sx`: the squared residual
      sum of the line `y = m·x + b` written with the power sums. */
  function Expanded(m: real, b: real, syy: real, sxx: real, n: real, sxy: real, sy: real, sx: real): real
  {
    syy + Sq(m) * sxx + n * Sq(b) - 2.0 * m * sxy - 2.0 * b * sy + 2.0 * m * b * sx
  }

  lemma ExpandedZero(m: real, b: real)
    ensures Expanded(m, b, 0.0, 0.0, 0.0, 0.0, 0.0, 0.0) == 0.0
  {
  }

  /** Adding the point `(x, y)` to the sums adds its squared residual. */
  lemma ExpandedStep(m: real, b: real, syy': real, sxx': real, n': real, sxy': real, sy': real, sx': real,
                     syy: real, sxx: real, n: real, sxy: real, sy: real, sx: real, x: real, y: real)
    requires syy' == syy + Sq(y) && sxx' == sxx + Sq(x) && n' == n + 1.0
    requires sxy' == sxy + x * y && sy' == sy + y && sx' == sx + x
    ensures Expanded(m, b, syy', sxx', n', sxy', sy', sx')
         == Expanded(m, b, syy, sxx, n, sxy, sy, sx) + Sq(y - (m * x + b))
  {
  }

  /** Adding a point grows the spread by the squared distances of the
      earlier points from its x. */
  lemma SpreadXStep(d: seq<Point>)
    requires |d| > 0
    ensures SpreadX(d) == SpreadX(Init(d)) + SqDistX(Init(d), Last(d).x)
  {
    SqDistXExpand(Init(d), Last(d).x);
    SumsStep(d);
    SpreadStep(Count(d), SumX2(d), SumX(d), Count(Init(d)), SumX2(Init(d)), SumX(Init(d)), Last(d).x);
  }

  lemma SpreadStep(n': real, s2': real, s': real, n: real, s2: real, s: real, v: real)
    requires n' == n + 1.0 && s' == s + v && s2' == s2 + Sq(v)
    ensures Spread(n', s2', s') == Spread(n, s2, s) + CenteredX2(v, s2, s, n)
  {
  }

  /** `n·Σx² − (Σx)² ≥ 0`, with equality exactly when every point has the same
      x (in particular for fewer than two points). */
  lemma {:induction false} SpreadXZeroIff(d: seq<Point>)
    ensures SpreadX(d) >= 0.0
    ensures SpreadX(d) == 0.0 <==> AllSameX(d)
  {
    if |d| > 0 {
      var v := Last(d).x;
      SpreadXZeroIff(Init(d));
      SpreadXStep(d);
      SqDistXZeroIff(Init(d), v);
      assert AllSameX(d) <==> AllSameX(Init(d)) && AllXAt(Init(d), v) by {
        assert forall i :: 0 <= i < |Init(d)| ==> Init(d)[i] == d[i];
        assert d[|d| - 1] == Last(d);
      }
    }
  }
}
