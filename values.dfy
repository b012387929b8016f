/** Values shared by both API routes: optional results and JavaScript numbers. */
module Values {

  /** A result that may be missing, like the `null` a fitter returns. */
  datatype Option<+T> = None | Some(value: T)

  /** A JavaScript number as the fitting code can produce it: either a finite
      value, modelled exactly as a real, or one of NaN, +Infinity and -Infinity.
      The routes divide without checking the divisor; a division by zero gives
      a non-finite value, and every later step on the fitting path (sums,
      products, `1 - q`) keeps it non-finite, so the three are not told apart. */
  datatype Num = Finite(v: real) | NonFinite

  /** JavaScript `a / b` on two finite numbers. */
  function Div(a: real, b: real): (r: Num)
    ensures r.Finite? <==> b != 0.0
    ensures r.Finite? ==> r.v * b == a
  {
    if b == 0.0 then NonFinite else Finite(a / b)
  }

  /** JavaScript `1 - q`. */
  function OneMinus(q: Num): (r: Num)
    ensures r.Finite? <==> q.Finite?
    ensures r.Finite? ==> r.v + q.v == 1.0
  {
    match q
    case Finite(v) => Finite(1.0 - v)
    case NonFinite => NonFinite
  }
}
