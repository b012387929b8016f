/** The `POST` handler of the regression route: it checks the request body,
    picks the fitter by `type` and maps a missing fit to HTTP 400. */
module RegressionRoute {
  import opened Values
  import opened Sums
  import opened Linear
  import opened Quadratic

  /** The `data` field of the parsed body: an array of points, or anything
      that is not an array. */
  datatype RequestData = Points(points: seq<Point>) | NotArray

  /** The parsed body `{ data, type }`. */
  datatype Body = Body(data: RequestData, kind: string)

  /** The `result` a successful response carries. */
  datatype FitResult = LineResult(line: LinearFit) | ParabolaResult(parabola: QuadFit)

  datatype Payload = Error(message: string) | Result(result: FitResult)

  /** The JSON payload and the HTTP status of the response. */
  datatype Response = Response(status: int, payload: Payload)

  const NotAnArrayMessage := "Data harus array"
  const UnknownTypeMessage := "Tipe model tidak valid"
  const NoModelMessage := "Gagal menghitung model"
  const BadRequestMessage := "Request tidak valid"

  /** `POST`. The body is `None` when `req.json()` rejects it, and the
      handler's `catch` then answers 400. */
  function Post(body: Option<Body>): (r: Response)
    ensures r.status == 200 <==> r.payload.Result?
    ensures r.status == 200 || r.status == 400
    ensures r.payload.Result? ==>
      && body.Some? && body.value.data.Points?
      && (r.payload.result.LineResult? <==> body.value.kind == "linear")
      && (r.payload.result.ParabolaResult? <==> body.value.kind == "polynomial")
  {
    match body
    case None => Response(400, Error(BadRequestMessage))
    case Some(Body(data, kind)) =>
      match data
      case NotArray => Response(400, Error(NotAnArrayMessage))
      case Points(d) =>
        if kind == "linear" then
          match LinearRegression(d)
          case None => Response(400, Error(NoModelMessage))
          case Some(fit) => Response(200, Result(LineResult(fit)))
        else if kind == "polynomial" then
          match QuadraticFit(d)
          case None => Response(400, Error(NoModelMessage))
          case Some(fit) => Response(200, Result(ParabolaResult(fit)))
        else
          Response(400, Error(UnknownTypeMessage))
  }

  /** Which error each failing request gets: the array check comes before the
      type check, and the type check before any fitting. */
  lemma PostErrors(body: Option<Body>)
    ensures body.None? ==> Post(body) == Response(400, Error(BadRequestMessage))
    ensures body.Some? && body.value.data.NotArray? ==> Post(body) == Response(400, Error(NotAnArrayMessage))
    ensures body.Some? && body.value.data.Points? && body.value.kind != "linear" && body.value.kind != "polynomial"
        ==> Post(body) == Response(400, Error(UnknownTypeMessage))
  {
  }

  /** A linear request succeeds exactly when it has at least two points,
      whatever the points are, and then carries `linearRegression`'s fit. */
  lemma PostLinear(d: seq<Point>)
    ensures Post(Some(Body(Points(d), "linear"))).status == 200 <==> |d| >= 2
    ensures |d| >= 2 ==> Post(Some(Body(Points(d), "linear"))).payload == Result(LineResult(FitLine(d)))
    ensures |d| < 2 ==> Post(Some(Body(Points(d), "linear"))).payload == Error(NoModelMessage)
  {
  }

  /** A polynomial request succeeds exactly when it has at least three points
      and a non-zero determinant; in particular whenever it has exactly three
      points with different x values. A refused one gets the no-model message. */
  lemma PostPolynomial(d: seq<Point>)
    ensures Post(Some(Body(Points(d), "polynomial"))).status == 200 <==> |d| >= 3 && Det(PowerSumsOf(d)) != 0.0
    ensures |d| == 3 && d[0].x != d[1].x && d[0].x != d[2].x && d[1].x != d[2].x
        ==> Post(Some(Body(Points(d), "polynomial"))).status == 200
    ensures |d| < 3 || Det(PowerSumsOf(d)) == 0.0
        ==> Post(Some(Body(Points(d), "polynomial"))).payload == Error(NoModelMessage)
  {
    if |d| == 3 && d[0].x != d[1].x && d[0].x != d[2].x && d[1].x != d[2].x {
      assert d == [d[0], d[1], d[2]];
      ThreeDistinctDet(d[0], d[1], d[2]);
    }
  }

  /** A polynomial request carries `polynomialRegression`'s fit whenever
      there is one. */
  lemma PostParabola(d: seq<Point>, f: QuadFit)
    requires QuadraticFit(d) == Some(f)
    ensures Post(Some(Body(Points(d), "polynomial"))) == Response(200, Result(ParabolaResult(f)))
  {
  }

  /** The first request of the route's tests succeeds with `y = 2·x`. */
  lemma PostLinearExample()
    ensures Post(Some(Body(Points(Linear.RouteExampleData()), "linear")))
         == Response(200, Result(LineResult(LinearFit(Finite(2.0), Finite(0.0), Finite(1.0)))))
  {
    RouteExampleLinear();
  }

  /** The second succeeds with `y = x² − x + 2`. */
  lemma PostPolynomialExample()
    ensures Post(Some(Body(Points(Quadratic.RouteExampleData()), "polynomial")))
         == Response(200, Result(ParabolaResult(QuadFit(1.0, -1.0, 2.0))))
  {
    RouteExampleQuadratic();
    PostParabola(Quadratic.RouteExampleData(), QuadFit(1.0, -1.0, 2.0));
  }

  /** The third, with an unknown type, is refused before any fitting. */
  lemma PostUnknownTypeExample()
    ensures Post(Some(Body(Points([Point(1.0, 2.0)]), "unknown"))) == Response(400, Error(UnknownTypeMessage))
  {
    PostErrors(Some(Body(Points([Point(1.0, 2.0)]), "unknown")));
  }
}
