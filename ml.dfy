/** The deterministic fallbacks of the ML route: `manualLinearRegression`,
    the label bookkeeping of `manualClassification` and the round-robin
    partition of `manualClustering`. */
module MlRoute {
  import opened Values
  import opened Sums
  import opened Linear

  // ---------------------------------------------------------------------
  // manualLinearRegression

  /** One entry of `predictions`: `{ x, actual, predicted }`. */
  datatype Prediction = Prediction(x: real, actual: real, predicted: Num)

  /** The numeric fields and the `predictions` list of the fallback fit. */
  datatype ManualFit = ManualFit(slope: Num, intercept: Num, rSquared: Num, predictions: seq<Prediction>)

  /** `data.map(point => ({ x, actual: y, predicted: slope·x + intercept }))`. */
  function Predictions(d: seq<Point>, slope: Num, intercept: Num): (ps: seq<Prediction>)
    ensures |ps| == |d|
    ensures forall i :: 0 <= i < |d| ==>
      ps[i] == Prediction(d[i].x, d[i].y, Predict(slope, intercept, d[i].x))
  {
    seq(|d|, i requires 0 <= i < |d| => Prediction(d[i].x, d[i].y, Predict(slope, intercept, d[i].x)))
  }

  /** `predictions.reduce((sum, p) => sum + Math.pow(p.actual - p.predicted, 2), 0)`. */
  function PredictionSS(ps: seq<Prediction>): (r: Num)
    ensures r.Finite? <==> forall i :: 0 <= i < |ps| ==> ps[i].predicted.Finite?
    ensures r.Finite? ==> r.v >= 0.0
  {
    if |ps| == 0 then Finite(0.0)
    else
      var acc := PredictionSS(ps[..|ps| - 1]);
      var p := ps[|ps| - 1];
      if acc.Finite? && p.predicted.Finite? then
        SquareFacts(p.actual - p.predicted.v);
        Finite(acc.v + Sq(p.actual - p.predicted.v))
      else NonFinite
  }

  /** Summing over the predictions gives the squared residuals of the line. */
  lemma {:induction false} PredictionSSIsResidualSS(d: seq<Point>, slope: Num, intercept: Num)
    ensures PredictionSS(Predictions(d, slope, intercept)) == ResidualSS(d, slope, intercept)
  {
    if |d| > 0 {
      var ps := Predictions(d, slope, intercept);
      assert ps[..|ps| - 1] == Predictions(Init(d), slope, intercept);
      PredictionSSIsResidualSS(Init(d), slope, intercept);
      assert ps[|ps| - 1] == Prediction(Last(d).x, Last(d).y, Predict(slope, intercept, Last(d).x));
      if |Init(d)| == 0 && slope.Finite? && intercept.Finite? {
        assert SSE(Init(d), slope.v, intercept.v) == 0.0;
      }
    }
  }

  /** `manualLinearRegression`: a `forEach` accumulates the four sums, with
      no check of `n`, of the slope's divisor or of ssTot. Its slope,
      intercept and R² are those of `linearRegression` on the same data;
      for fewer than two points, where `linearRegression` returns `null`,
      they are all NaN. */
  method ManualLinearRegression(data: seq<Point>) returns (r: ManualFit)
    ensures r.slope == FitLine(data).slope && r.intercept == FitLine(data).intercept
    ensures r.rSquared == FitLine(data).rSquared
    ensures |data| >= 2 ==> LinearRegression(data) == Some(LinearFit(r.slope, r.intercept, r.rSquared))
    ensures |data| < 2 ==> r.slope == NonFinite && r.intercept == NonFinite && r.rSquared == NonFinite
    ensures |r.predictions| == |data|
    ensures forall i :: 0 <= i < |data| ==>
      r.predictions[i] == Prediction(data[i].x, data[i].y, Predict(r.slope, r.intercept, data[i].x))
  {
    var n := |data|;
    var sumX, sumY, sumXY, sumX2 := 0.0, 0.0, 0.0, 0.0;
    for i := 0 to n
      invariant sumX == SumX(data[..i]) && sumY == SumY(data[..i])
      invariant sumXY == SumXY(data[..i]) && sumX2 == SumX2(data[..i])
    {
      PrefixStep(data, i);
      var point := data[i];
      sumX := sumX + point.x;
      sumY := sumY + point.y;
      sumXY := sumXY + point.x * point.y;
      sumX2 := sumX2 + Sq(point.x);
    }
    assert data[..n] == data;
    var s := LineSums(n as real, sumX, sumY, sumXY, sumX2);
    var slope := FitSlope(s);
    var intercept := FitIntercept(s, slope);
    var predictions := Predictions(data, slope, intercept);
    var ssRes := PredictionSS(predictions);
    var ssTot := TotalSS(data, Div(sumY, n as real));
    PredictionSSIsResidualSS(data, slope, intercept);
    r := ManualFit(slope, intercept, RSquared(ssRes, ssTot), predictions);
    SlopeFiniteIff(data);
    RSquaredFiniteIff(data);
  }

  // ---------------------------------------------------------------------
  // manualClassification

  /** `[...new Set(labels)]`: the labels without repeats, in the order of
      their first occurrence. */
  function Distinct<L(==)>(labels: seq<L>): (r: seq<L>)
    ensures |r| <= |labels|
    ensures |labels| > 0 ==> |r| > 0
  {
    if |labels| == 0 then []
    else
      var prefix := Distinct(labels[..|labels| - 1]);
      var last := labels[|labels| - 1];
      if last in prefix then prefix else prefix + [last]
  }

  predicate NoRepeats<L(==)>(s: seq<L>)
  {
    forall i, j :: 0 <= i < j < |s| ==> s[i] != s[j]
  }

  /** The position of the first occurrence of `x` in `s`. */
  function FirstIndex<L(==)>(s: seq<L>, x: L): (k: nat)
    requires x in s
    ensures k < |s| && s[k] == x && x !in s[..k]
  {
    if s[0] == x then 0 else 1 + FirstIndex(s[1..], x)
  }

  lemma {:induction false} FirstIndexOfPrefix<L>(s: seq<L>, n: nat, x: L)
    requires n <= |s| && x in s[..n]
    ensures x in s && FirstIndex(s[..n], x) == FirstIndex(s, x)
  {
    assert s[..n][0] == s[0];
    if s[0] != x {
      var p := s[..n];
      assert p[0] == s[0];
      assert p[1..] == s[1..][..n - 1];
      assert x in p[1..];
      FirstIndexOfPrefix(s[1..], n - 1, x);
    }
  }

  /** The class list holds every label and nothing else. */
  lemma {:induction false} DistinctMembers<L>(labels: seq<L>)
    ensures forall x :: x in Distinct(labels) <==> x in labels
  {
    if |labels| > 0 {
      DistinctMembers(labels[..|labels| - 1]);
      assert labels == labels[..|labels| - 1] + [labels[|labels| - 1]];
    }
  }

  lemma ClassIsLabel<L>(labels: seq<L>, i: nat)
    requires i < |Distinct(labels)|
    ensures Distinct(labels)[i] in labels
  {
    DistinctMembers(labels);
    assert Distinct(labels)[i] in Distinct(labels);
  }

  /** The class list holds every label once. */
  lemma {:induction false} DistinctNoRepeats<L>(labels: seq<L>)
    ensures NoRepeats(Distinct(labels))
  {
    if |labels| > 0 {
      DistinctNoRepeats(labels[..|labels| - 1]);
    }
  }

  /** The classes are labels, listed in the order in which the labels first occur. */
  predicate InFirstOccurrenceOrder<L(==)>(classes: seq<L>, labels: seq<L>)
  {
    && (forall i :: 0 <= i < |classes| ==> classes[i] in labels)
    && forall i, j :: 0 <= i < j < |classes| ==> FirstIndex(labels, classes[i]) < FirstIndex(labels, classes[j])
  }

  /** The class list is in the order in which the labels first occur. */
  lemma {:induction false} DistinctOrder<L>(labels: seq<L>)
    ensures InFirstOccurrenceOrder(Distinct(labels), labels)
  {
    if |labels| > 0 {
      DistinctOrder(labels[..|labels| - 1]);
      DistinctOrderStep(labels);
    } else {
      assert Distinct(labels) == [];
    }
  }

  lemma DistinctOrderStep<L>(labels: seq<L>)
    requires |labels| > 0
    requires InFirstOccurrenceOrder(Distinct(labels[..|labels| - 1]), labels[..|labels| - 1])
    ensures InFirstOccurrenceOrder(Distinct(labels), labels)
  {
    var init, last := labels[..|labels| - 1], labels[|labels| - 1];
    var di := Distinct(init);
    ClassesAreLabels(init);
    OrderKept(di, labels);
    if last !in di {
      assert Distinct(labels) == di + [last];
      NotAClassNotALabel(init, last);
      LastNewLabel(labels);
      OrderExtended(di, labels, last);
    } else {
      assert Distinct(labels) == di;
    }
  }

  /** Classes ordered by first occurrence in all labels but the last stay so
      once the last label is appended, which changes no earlier first
      occurrence. */
  lemma OrderKept<L>(classes: seq<L>, labels: seq<L>)
    requires |labels| > 0
    requires InFirstOccurrenceOrder(classes, labels[..|labels| - 1])
    ensures InFirstOccurrenceOrder(classes, labels)
  {
    var init := labels[..|labels| - 1];
    forall i | 0 <= i < |classes|
      ensures classes[i] in labels && FirstIndex(init, classes[i]) == FirstIndex(labels, classes[i])
    {
      FirstIndexOfPrefix(labels, |labels| - 1, classes[i]);
    }
  }

  /** A label not seen before first occurs at the end. */
  lemma LastNewLabel<L>(labels: seq<L>)
    requires |labels| > 0 && labels[|labels| - 1] !in labels[..|labels| - 1]
    ensures FirstIndex(labels, labels[|labels| - 1]) == |labels| - 1
  {
  }

  lemma NotAClassNotALabel<L>(labels: seq<L>, x: L)
    requires x !in Distinct(labels)
    ensures x !in labels
  {
    DistinctMembers(labels);
  }

  /** A class whose first occurrence is after every earlier class's may be
      appended. */
  lemma OrderExtended<L>(classes: seq<L>, labels: seq<L>, last: L)
    requires |labels| > 0 && last == labels[|labels| - 1]
    requires InFirstOccurrenceOrder(classes, labels)
    requires FirstIndex(labels, last) == |labels| - 1
    requires forall i :: 0 <= i < |classes| ==> classes[i] in labels && classes[i] != last
    ensures InFirstOccurrenceOrder(classes + [last], labels)
  {
    var ds := classes + [last];
    forall i | 0 <= i < |ds|
      ensures ds[i] in labels
    {
      if i < |classes| {
        assert ds[i] == classes[i];
      }
    }
    forall i, j | 0 <= i < j < |ds|
      ensures FirstIndex(labels, ds[i]) < FirstIndex(labels, ds[j])
    {
      assert ds[i] == classes[i];
      if j < |classes| {
        assert ds[j] == classes[j];
      } else {
        var k := FirstIndex(labels, classes[i]);
        assert k != |labels| - 1;
      }
    }
  }

  /** One entry of `predictions`: `{ actual, predicted }`. */
  datatype LabelPrediction<L> = LabelPrediction(actual: L, predicted: L)

  /** The deterministic fields of the classification result. */
  datatype Classification<L> = Classification(accuracy: Num, predictions: seq<LabelPrediction<L>>, classes: seq<L>)

  /** The number of predictions equal to their actual label. */
  function Hits<L(==)>(ps: seq<LabelPrediction<L>>): (h: nat)
    ensures h <= |ps|
  {
    if |ps| == 0 then 0
    else Hits(ps[..|ps| - 1]) + (if ps[|ps| - 1].actual == ps[|ps| - 1].predicted then 1 else 0)
  }

  /** `manualClassification` on the data's labels. */
  function ManualClassification<L(==)>(labels: seq<L>): (r: Classification<L>)
    ensures |r.predictions| == |labels|
    ensures forall i :: 0 <= i < |labels| ==> r.predictions[i].actual == labels[i]
    ensures forall i :: 0 <= i < |labels| ==> r.predictions[i].predicted in labels
    ensures r.classes == Distinct(labels)
    ensures r.accuracy == Div(Hits(r.predictions) as real, |labels| as real)
  {
    var classes := Distinct(labels);
    DistinctNonEmpty(labels);
    ClassesAreLabels(labels);
    var predictions := RoundRobin(labels, classes);
    Classification(Div(Hits(predictions) as real, |predictions| as real), predictions, classes)
  }

  /** `labels.map((label, i) => ({ actual: label, predicted: classes[i % classes.length] }))`. */
  function RoundRobin<L>(labels: seq<L>, classes: seq<L>): (ps: seq<LabelPrediction<L>>)
    requires |labels| == 0 || |classes| > 0
    ensures |ps| == |labels|
    ensures forall i :: 0 <= i < |labels| ==> ps[i].actual == labels[i] && ps[i].predicted == classes[i % |classes|]
  {
    seq(|labels|, i requires 0 <= i < |labels| => LabelPrediction(labels[i], classes[i % |classes|]))
  }

  lemma ClassesAreLabels<L>(labels: seq<L>)
    ensures forall i :: 0 <= i < |Distinct(labels)| ==> Distinct(labels)[i] in labels
  {
    forall i | 0 <= i < |Distinct(labels)| {
      ClassIsLabel(labels, i);
    }
  }

  /** Label `i` is predicted as class `i mod |classes|`. */
  lemma RoundRobinLabels<L>(labels: seq<L>, i: int)
    requires 0 <= i < |labels|
    ensures |Distinct(labels)| > 0
    ensures ManualClassification(labels).predictions[i].predicted == Distinct(labels)[i % |Distinct(labels)|]
  {
    DistinctNonEmpty(labels);
  }

  /** There are classes exactly when there are labels. */
  lemma DistinctNonEmpty<L>(labels: seq<L>)
    ensures |Distinct(labels)| > 0 <==> |labels| > 0
  {
    DistinctMembers(labels);
    if |labels| > 0 {
      assert labels[0] in Distinct(labels);
    } else {
      assert Distinct(labels) == [];
    }
  }

  /** The accuracy is NaN for no data, and otherwise the share of correct
      predictions, between 0 and 1; with a single class it is 1. */
  lemma AccuracyBounds<L>(labels: seq<L>)
    ensures ManualClassification(labels).accuracy.Finite? <==> |labels| > 0
    ensures |labels| > 0 ==> 0.0 <= ManualClassification(labels).accuracy.v <= 1.0
    ensures |labels| > 0 && |Distinct(labels)| == 1 ==> ManualClassification(labels).accuracy == Finite(1.0)
  {
    var r := ManualClassification(labels);
    if |labels| > 0 && |Distinct(labels)| == 1 {
      SingleClassHits(labels);
    }
    Share(Hits(r.predictions), |labels|);
  }

  /** `hits / n` for `hits ≤ n`. */
  lemma Share(h: nat, n: nat)
    requires h <= n
    ensures Div(h as real, n as real).Finite? <==> n > 0
    ensures n > 0 ==> 0.0 <= Div(h as real, n as real).v <= 1.0
    ensures n > 0 && h == n ==> Div(h as real, n as real) == Finite(1.0)
  {
    if n > 0 {
      Fraction(h as real, n as real, Div(h as real, n as real).v);
    }
  }

  /** With a single class every prediction is a hit. */
  lemma SingleClassHits<L>(labels: seq<L>)
    requires |Distinct(labels)| == 1
    ensures Hits(ManualClassification(labels).predictions) == |labels|
  {
    var ps := ManualClassification(labels).predictions;
    DistinctMembers(labels);
    forall i | 0 <= i < |labels|
      ensures ps[i].actual == ps[i].predicted
    {
      RoundRobinLabels(labels, i);
      assert labels[i] in Distinct(labels);
      assert i % 1 == 0;
    }
    AllHits(ps);
  }

  lemma Fraction(h: real, n: real, q: real)
    requires 0.0 <= h <= n && n > 0.0 && q * n == h
    ensures 0.0 <= q <= 1.0 && (h == n ==> q == 1.0)
  {
    if q < 0.0 {
      PositiveProduct(-q, n);
    }
    if q > 1.0 {
      PositiveProduct(q - 1.0, n);
    }
    if h == n {
      assert (q - 1.0) * n == 0.0;
    }
  }

  lemma {:induction false} AllHits<L>(ps: seq<LabelPrediction<L>>)
    requires forall i :: 0 <= i < |ps| ==> ps[i].actual == ps[i].predicted
    ensures Hits(ps) == |ps|
  {
    if |ps| > 0 {
      AllHits(ps[..|ps| - 1]);
    }
  }

  // ---------------------------------------------------------------------
  // manualClustering

  /** `params.k || 3`: an absent or zero `k` becomes 3. */
  function ClusterCount(k: Option<int>): (c: int)
    ensures c != 0
    ensures k.Some? && k.value != 0 ==> c == k.value
    ensures k.None? || k.value == 0 ==> c == 3
  {
    match k
    case Some(v) => if v == 0 then 3 else v
    case None => 3
  }

  /** The points whose index is `c` modulo `k`, in their original order. */
  function Bucket(d: seq<Point>, k: nat, c: nat): (r: seq<Point>)
    requires k > 0
    ensures |r| <= |d|
    ensures c >= k ==> r == []
  {
    if |d| == 0 then []
    else Bucket(Init(d), k, c) + (if (|d| - 1) % k == c then [Last(d)] else [])
  }

  datatype Cluster = Cluster(id: int, points: seq<Point>)

  /** The clusters and `totalClusters`; `Failed` is the `TypeError` thrown
      when a point is pushed into a cluster that does not exist. */
  datatype Clustering = Clustered(clusters: seq<Cluster>, totalClusters: int) | Failed

  /** The largest JavaScript array length plus one: `new Array(n)` throws a
      `RangeError` for any integer `n` from here on. */
  const ArrayLengthBound := 0x1_0000_0000

  /** `manualClustering`: `k` clusters with ids `0 … k−1`, then each point
      pushed into cluster `index mod k`. With a negative `k` no cluster is
      created, so any point makes the push fail; with `k ≥ 2³²`
      `Array.from({ length: k })` itself throws, whatever the data. */
  method ManualClustering(data: seq<Point>, kParam: Option<int>) returns (r: Clustering)
    ensures r.Failed? <==> (ClusterCount(kParam) < 0 && |data| > 0) || ClusterCount(kParam) >= ArrayLengthBound
    ensures r.Clustered? ==> r.totalClusters == ClusterCount(kParam)
    ensures r.Clustered? && ClusterCount(kParam) < 0 ==> r.clusters == []
    ensures r.Clustered? && ClusterCount(kParam) > 0 ==>
      && |r.clusters| == ClusterCount(kParam)
      && forall c :: 0 <= c < |r.clusters| ==>
           r.clusters[c] == Cluster(c, Bucket(data, ClusterCount(kParam), c))
  {
    var k := ClusterCount(kParam);
    if k >= ArrayLengthBound {
      return Failed;
    }
    if k < 0 {
      if |data| > 0 {
        return Failed;
      }
      return Clustered([], k);
    }
    var points := new seq<Point>[k](_ => []);
    for idx := 0 to |data|
      invariant forall c :: 0 <= c < k ==> points[c] == Bucket(data[..idx], k, c)
    {
      PrefixStep(data, idx);
      var clusterId := idx % k;
      points[clusterId] := points[clusterId] + [data[idx]];
    }
    assert data[..|data|] == data;
    var clusters := seq(k, c requires 0 <= c < k reads points => Cluster(c, points[c]));
    r := Clustered(clusters, k);
  }

  /** The size of cluster `c`: the indices below `|d|` that are `c` modulo `k`. */
  lemma {:induction false} BucketSize(d: seq<Point>, k: nat, c: nat)
    requires k > 0 && c < k
    ensures |Bucket(d, k, c)| == (|d| + k - 1 - c) / k
  {
    if |d| > 0 {
      BucketSize(Init(d), k, c);
      var j := |d| - 1;
      StepCount(j, k, c);
    }
  }

  /** Going from `j` to `j + 1` indices adds one to the count of class `c`
      exactly when `j` is in class `c`. */
  lemma StepCount(j: nat, k: nat, c: nat)
    requires k > 0 && c < k
    ensures (j + 1 + k - 1 - c) / k == (j + k - 1 - c) / k + (if j % k == c then 1 else 0)
  {
    var q, m := j / k, j % k;
    if m == c {
      DivUnique(j + k - c, k, q + 1, 0);
      DivUnique(j + k - 1 - c, k, q, k - 1);
    } else if m > c {
      DivUnique(j + k - c, k, q + 1, m - c);
      DivUnique(j + k - 1 - c, k, q + 1, m - c - 1);
    } else {
      DivUnique(j + k - c, k, q, k + m - c);
      DivUnique(j + k - 1 - c, k, q, k + m - c - 1);
    }
  }

  /** Quotient and remainder are determined by `a = q·k + r`, `0 ≤ r < k`. */
  lemma DivUnique(a: int, k: int, q: int, r: int)
    requires k > 0 && 0 <= r < k && a == q * k + r
    ensures a / k == q && a % k == r
  {
    var q' := a / k;
    if q' < q {
      MulAtLeast(q - q', k);
    } else if q' > q {
      MulAtLeast(q' - q, k);
    }
  }

  lemma MulAtLeast(m: int, k: int)
    requires m >= 1 && k > 0
    ensures m * k >= k
  {
  }

  /** Cluster `c` lists exactly the points `d[c], d[c + k], d[c + 2k], …`. */
  lemma {:induction false} BucketElements(d: seq<Point>, k: nat, c: nat)
    requires k > 0 && c < k
    ensures forall t :: 0 <= t < |Bucket(d, k, c)| ==> c + t * k < |d| && Bucket(d, k, c)[t] == d[c + t * k]
  {
    if |d| > 0 {
      BucketElements(Init(d), k, c);
      if (|d| - 1) % k == c {
        BucketElementsGrow(d, k, c);
      } else {
        BucketElementsKeep(d, k, c);
      }
    }
  }

  /** The induction step when the last point joins cluster `c`. */
  lemma BucketElementsGrow(d: seq<Point>, k: nat, c: nat)
    requires k > 0 && c < k && |d| > 0 && (|d| - 1) % k == c
    requires forall t :: 0 <= t < |Bucket(Init(d), k, c)| ==>
      c + t * k < |Init(d)| && Bucket(Init(d), k, c)[t] == Init(d)[c + t * k]
    ensures forall t :: 0 <= t < |Bucket(d, k, c)| ==> c + t * k < |d| && Bucket(d, k, c)[t] == d[c + t * k]
  {
    var init, j := Init(d), |d| - 1;
    var b0 := Bucket(init, k, c);
    BucketSize(init, k, c);
    LastOfBucket(j, k, c);
    assert Bucket(d, k, c) == b0 + [d[j]];
    forall t | 0 <= t < |b0| + 1
      ensures c + t * k < |d| && Bucket(d, k, c)[t] == d[c + t * k]
    {
      if t < |b0| {
        assert init[c + t * k] == d[c + t * k];
      }
    }
  }

  /** The induction step when the last point joins another cluster. */
  lemma BucketElementsKeep(d: seq<Point>, k: nat, c: nat)
    requires k > 0 && c < k && |d| > 0 && (|d| - 1) % k != c
    requires forall t :: 0 <= t < |Bucket(Init(d), k, c)| ==>
      c + t * k < |Init(d)| && Bucket(Init(d), k, c)[t] == Init(d)[c + t * k]
    ensures forall t :: 0 <= t < |Bucket(d, k, c)| ==> c + t * k < |d| && Bucket(d, k, c)[t] == d[c + t * k]
  {
    var init := Init(d);
    assert Bucket(d, k, c) == Bucket(init, k, c);
    forall t | 0 <= t < |Bucket(init, k, c)|
      ensures c + t * k < |d| && Bucket(d, k, c)[t] == d[c + t * k]
    {
      assert init[c + t * k] == d[c + t * k];
    }
  }

  /** Index `j` of class `c` comes after the `(j + k − 1 − c) / k` earlier
      members of its class, and it is `c + (j / k)·k`. */
  lemma LastOfBucket(j: nat, k: nat, c: nat)
    requires k > 0 && c < k && j % k == c
    ensures (j + k - 1 - c) / k == j / k && c + (j / k) * k == j
  {
    DivUnique(j, k, j / k, c);
    DivUnique(j + k - 1 - c, k, j / k, k - 1);
  }

  /** The sum of the sizes of clusters `0 … c−1`. */
  function SizeSum(d: seq<Point>, k: nat, c: nat): nat
    requires k > 0
  {
    if c == 0 then 0 else SizeSum(d, k, c - 1) + |Bucket(d, k, c - 1)|
  }

  lemma {:induction false} SizeSumStep(d: seq<Point>, k: nat, c: nat)
    requires k > 0 && |d| > 0 && c <= k
    ensures SizeSum(d, k, c) == SizeSum(Init(d), k, c) + (if (|d| - 1) % k < c then 1 else 0)
  {
    if c > 0 {
      SizeSumStep(d, k, c - 1);
    }
  }

  /** Every point lands in exactly one cluster: the sizes add up to `n`. */
  lemma {:induction false} ClusterSizesSum(d: seq<Point>, k: nat)
    requires k > 0
    ensures SizeSum(d, k, k) == |d|
  {
    if |d| == 0 {
      ZeroSizes(d, k, k);
    } else {
      ClusterSizesSum(Init(d), k);
      SizeSumStep(d, k, k);
    }
  }

  lemma {:induction false} ZeroSizes(d: seq<Point>, k: nat, c: nat)
    requires k > 0 && |d| == 0
    ensures SizeSum(d, k, c) == 0
  {
    if c > 0 {
      ZeroSizes(d, k, c - 1);
    }
  }

  /** The point at index `j` is in cluster `j mod k`, at position `j / k`. */
  lemma PointPlacement(d: seq<Point>, k: nat, j: nat)
    requires k > 0 && j < |d|
    ensures j / k < |Bucket(d, k, j % k)| && Bucket(d, k, j % k)[j / k] == d[j]
  {
    var c, t := j % k, j / k;
    DivMod(j, k);
    BucketSize(d, k, c);
    BucketAfter(|d| + k - 1 - c, k, t);
    BucketElements(d, k, c);
  }

  lemma DivMod(j: nat, k: nat)
    requires k > 0
    ensures j == j / k * k + j % k && 0 <= j % k < k && j / k >= 0
  {
  }

  /** `a ≥ (q + 1)·k` gives `a / k > q`. */
  lemma BucketAfter(a: nat, k: nat, q: nat)
    requires k > 0 && a >= q * k + k
    ensures a / k > q
  {
    var q' := a / k;
    if q' <= q {
      MulMonotone(q', q, k);
    }
  }

  lemma MulMonotone(p: int, q: int, k: nat)
    requires p <= q
    ensures p * k <= q * k
  {
  }
}
