/** The least-squares cost model E = e_fixed + alpha*prompt + beta*completion
    (bench/metrics/costmodel.py). */
module CostModel {
  import opened Basics
  import opened LinearAlgebra
  import opened LinearSolver
  import opened EnergyAttribution

  /** One request with a usable energy. */
  datatype Item = Item(prompt: int, completion: int, energy: real)

  datatype Fit =
    | EmptyFit
    | Fitted(eFixed: real, alpha: real, beta: real, r2: Option<real>, n: nat)

  const MIN_ITEMS := 3

  function Feature(item: Item): (x: Vec)
    ensures |x| == 3
  {
    [1.0, item.prompt as real, item.completion as real]
  }

  function Predicted(b: Vec, item: Item): real
    requires |b| == 3
  {
    b[0] + b[1] * item.prompt as real + b[2] * item.completion as real
  }

  function Column(rows: seq<Item>, i: nat): (c: Vec)
    requires i < 3
    ensures |c| == |rows| && forall k :: 0 <= k < |rows| ==> c[k] == Feature(rows[k])[i]
  {
    seq(|rows|, k requires 0 <= k < |rows| => Feature(rows[k])[i])
  }

  function Targets(rows: seq<Item>): (e: Vec)
    ensures |e| == |rows| && forall k :: 0 <= k < |rows| ==> e[k] == rows[k].energy
  {
    seq(|rows|, k requires 0 <= k < |rows| => rows[k].energy)
  }

  function Predictions(rows: seq<Item>, b: Vec): (p: Vec)
    requires |b| == 3
    ensures |p| == |rows| && forall k :: 0 <= k < |rows| ==> p[k] == Predicted(b, rows[k])
  {
    seq(|rows|, k requires 0 <= k < |rows| => Predicted(b, rows[k]))
  }

  function Residuals(rows: seq<Item>, b: Vec): (r: Vec)
    requires |b| == 3
    ensures |r| == |rows| && forall k :: 0 <= k < |rows| ==> r[k] == rows[k].energy - Predicted(b, rows[k])
  {
    seq(|rows|, k requires 0 <= k < |rows| => rows[k].energy - Predicted(b, rows[k]))
  }

  function Deviations(rows: seq<Item>, mean: real): (r: Vec)
    ensures |r| == |rows| && forall k :: 0 <= k < |rows| ==> r[k] == rows[k].energy - mean
  {
    seq(|rows|, k requires 0 <= k < |rows| => rows[k].energy - mean)
  }

  /** Sum of squared residuals of the coefficients `b`. */
  function SquaredError(rows: seq<Item>, b: Vec): real
    requires |b| == 3
  {
    Dot(Residuals(rows, b), Residuals(rows, b))
  }

  function Spread(rows: seq<Item>, mean: real): real {
    Dot(Deviations(rows, mean), Deviations(rows, mean))
  }

  function EnergySum(rows: seq<Item>): real {
    if rows == [] then 0.0 else EnergySum(rows[..|rows| - 1]) + rows[|rows| - 1].energy
  }

  function Mean(rows: seq<Item>): real
    requires rows != []
  {
    EnergySum(rows) / |rows| as real
  }

  /** The normal equations: X'X on the left, X'y on the right. */
  function Normal(rows: seq<Item>): (m: Rows)
    ensures Square(m, 3)
    ensures forall i, j :: 0 <= i < 3 && 0 <= j < 3 ==> m[i][j] == Dot(Column(rows, i), Column(rows, j))
  {
    seq(3, i requires 0 <= i < 3 => seq(3, j requires 0 <= j < 3 => Dot(Column(rows, i), Column(rows, j))))
  }

  function NormalRhs(rows: seq<Item>): (v: Vec)
    ensures |v| == 3 && forall i :: 0 <= i < 3 ==> v[i] == Dot(Column(rows, i), Targets(rows))
  {
    seq(3, i requires 0 <= i < 3 => Dot(Column(rows, i), Targets(rows)))
  }

  function R2(rows: seq<Item>, b: Vec): Option<real>
    requires |b| == 3 && rows != []
  {
    R2Value(SquaredError(rows, b), Spread(rows, Mean(rows)))
  }

  function R2Value(ssRes: real, ssTot: real): Option<real> {
    if ssTot > 0.0 then Some(1.0 - ssRes / ssTot) else None
  }

  function FitRows(rows: seq<Item>): Fit {
    if |rows| < MIN_ITEMS then EmptyFit
    else
      var b := Solution(Normal(rows), NormalRhs(rows));
      if b.None? then EmptyFit
      else Fitted(b.value[0], b.value[1], b.value[2], R2(rows, b.value), |rows|)
  }

  /** Pairs each request with its energy, dropping those without one. */
  function UsableItems(requests: seq<Request>, energies: seq<Option<real>>): seq<Item>
    requires |requests| == |energies|
  {
    if requests == [] then []
    else
      (if energies[0].Some?
       then [Item(requests[0].promptTokens, requests[0].completionTokens, energies[0].value)]
       else [])
      + UsableItems(requests[1..], energies[1..])
  }

  // ------------------------------------------------------------ normal equations

  /** Predictions are a combination of the three columns. */
  lemma {:induction false} DotPredictions(rows: seq<Item>, v: Vec, w: Vec)
    requires |v| == 3 && |w| == |rows|
    ensures Dot(Predictions(rows, v), w) ==
      v[0] * Dot(Column(rows, 0), w) + v[1] * Dot(Column(rows, 1), w) + v[2] * Dot(Column(rows, 2), w)
  {
    hide Dot, Predicted, Feature;
    PredictionsCombine(rows, v);
    DotCombination(
      Predictions(rows, v), Column(rows, 0), Column(rows, 1), Column(rows, 2), v[0], v[1], v[2], w);
  }

  lemma {:induction false} PredictionsCombine(rows: seq<Item>, v: Vec)
    requires |v| == 3
    ensures forall k :: 0 <= k < |rows| ==>
      Predictions(rows, v)[k] == v[0] * Column(rows, 0)[k] + v[1] * Column(rows, 1)[k] + v[2] * Column(rows, 2)[k]
  {
    assert forall k :: 0 <= k < |rows| ==> Column(rows, 0)[k] == 1.0;
  }

  lemma {:induction false} NormalRow(rows: seq<Item>, i: nat, v: Vec)
    requires i < 3 && |v| == 3
    ensures Dot(Normal(rows)[i], v) == Dot(Column(rows, i), Predictions(rows, v))
  {
    hide Dot, Column, Predictions;
    var c := Column(rows, i);
    DotPredictions(rows, v, c);
    DotSymmetric(c, Predictions(rows, v));
    DotSymmetric(c, Column(rows, 0));
    DotSymmetric(c, Column(rows, 1));
    DotSymmetric(c, Column(rows, 2));
    var row := Normal(rows)[i];
    Dot3(row, v);
    assert row[0] == Dot(c, Column(rows, 0)) && row[1] == Dot(c, Column(rows, 1)) && row[2] == Dot(c, Column(rows, 2));
    hide Normal;
  }

  ghost predicate PredictsZero(rows: seq<Item>, v: Vec)
    requires |v| == 3
  {
    forall k :: 0 <= k < |rows| ==> Predicted(v, rows[k]) == 0.0
  }

  /** The token columns and the constant column are linearly dependent on these rows. */
  ghost predicate Collinear(rows: seq<Item>) {
    exists v: Vec :: |v| == 3 && PredictsZero(rows, v) && exists k :: 0 <= k < 3 && v[k] != 0.0
  }

  lemma {:induction false} KernelIsDependence(rows: seq<Item>, v: Vec)
    requires |v| == 3
    ensures InKernel(Normal(rows), 3, v) <==> PredictsZero(rows, v)
  {
    var p := Predictions(rows, v);
    NormalRow(rows, 0, v);
    NormalRow(rows, 1, v);
    NormalRow(rows, 2, v);
    if PredictsZero(rows, v) {
      DotZero(Column(rows, 0), p);
      DotZero(Column(rows, 1), p);
      DotZero(Column(rows, 2), p);
    }
    if InKernel(Normal(rows), 3, v) {
      DotPredictions(rows, v, p);
      forall k | 0 <= k < |rows| ensures p[k] == 0.0 {
        if p[k] != 0.0 { DotSquarePositive(p, k); }
      }
    }
  }

  /** The normal matrix is singular exactly when the columns are dependent. */
  lemma {:induction false} SingularIffCollinear(rows: seq<Item>)
    ensures Singular(Normal(rows), 3) <==> Collinear(rows)
  {
    if Singular(Normal(rows), 3) {
      var v: Vec :| InKernel(Normal(rows), 3, v) && exists k :: 0 <= k < 3 && v[k] != 0.0;
      KernelIsDependence(rows, v);
    }
    if Collinear(rows) {
      var v: Vec :| |v| == 3 && PredictsZero(rows, v) && exists k :: 0 <= k < 3 && v[k] != 0.0;
      KernelIsDependence(rows, v);
    }
  }

  function Coefficients(fit: Fit): (b: Vec)
    requires fit.Fitted?
    ensures |b| == 3
  {
    [fit.eFixed, fit.alpha, fit.beta]
  }

  lemma {:induction false} FittedSolves(rows: seq<Item>)
    requires FitRows(rows).Fitted?
    ensures Solves(Normal(rows), NormalRhs(rows), Coefficients(FitRows(rows)))
    ensures FitRows(rows).r2 == R2(rows, Coefficients(FitRows(rows))) && FitRows(rows).n == |rows| >= MIN_ITEMS
    ensures !Collinear(rows) && rows != []
  {
    hide Solution, Solves, Normal, NormalRhs, R2, Collinear, Singular;
    var b := Solution(Normal(rows), NormalRhs(rows)).value;
    SolutionIsExactAndUnique(Normal(rows), NormalRhs(rows));
    assert b == [b[0], b[1], b[2]];
    SingularIffCollinear(rows);
    if Collinear(rows) {
      SingularIsRefused(Normal(rows), NormalRhs(rows));
    }
  }

  /** The residuals of a solution are orthogonal to every prediction. */
  lemma {:induction false} ResidualsOrthogonal(rows: seq<Item>, b: Vec, d: Vec)
    requires |b| == |d| == 3 && Solves(Normal(rows), NormalRhs(rows), b)
    ensures Dot(Predictions(rows, d), Residuals(rows, b)) == 0.0
  {
    var r := Residuals(rows, b);
    assert r == SubScaled(Targets(rows), 1.0, Predictions(rows, b));
    forall i | 0 <= i < 3 ensures Dot(Column(rows, i), r) == 0.0 {
      var c := Column(rows, i);
      NormalRow(rows, i, b);
      DotSymmetric(c, r);
      DotSubScaled(Targets(rows), 1.0, Predictions(rows, b), c);
      DotSymmetric(c, Targets(rows));
      DotSymmetric(c, Predictions(rows, b));
    }
    DotPredictions(rows, d, r);
  }

  // ------------------------------------------------------------ what a fit means

  lemma {:induction false} ShiftedResiduals(rows: seq<Item>, b: Vec, c: Vec, d: Vec)
    requires |b| == |c| == |d| == 3 && forall k :: 0 <= k < 3 ==> c[k] == b[k] + d[k]
    ensures Residuals(rows, c) == SubScaled(Residuals(rows, b), 1.0, Predictions(rows, d))
  {
    forall k | 0 <= k < |rows|
      ensures Residuals(rows, c)[k] == SubScaled(Residuals(rows, b), 1.0, Predictions(rows, d))[k]
    {
      var p, q := rows[k].prompt as real, rows[k].completion as real;
      assert c[1] * p == b[1] * p + d[1] * p && c[2] * q == b[2] * q + d[2] * q;
    }
  }

  /** A solution of the normal equations beats every other triple by its distance in predictions. */
  lemma {:induction false} ErrorGap(rows: seq<Item>, b: Vec, c: Vec, d: Vec)
    requires |b| == |c| == |d| == 3 && forall k :: 0 <= k < 3 ==> c[k] == b[k] + d[k]
    requires Solves(Normal(rows), NormalRhs(rows), b)
    ensures SquaredError(rows, c) == SquaredError(rows, b) + Dot(Predictions(rows, d), Predictions(rows, d))
  {
    ShiftedResiduals(rows, b, c, d);
    DotDifference(Residuals(rows, b), Predictions(rows, d));
    ResidualsOrthogonal(rows, b, d);
  }

  lemma {:induction false} SolutionIsLeastSquares(rows: seq<Item>, b: Vec, c: Vec)
    requires |b| == |c| == 3 && Solves(Normal(rows), NormalRhs(rows), b) && !Collinear(rows)
    ensures SquaredError(rows, b) <= SquaredError(rows, c)
    ensures SquaredError(rows, b) == SquaredError(rows, c) ==> c[0] == b[0] && c[1] == b[1] && c[2] == b[2]
  {
    hide SquaredError, Solves, Collinear, Dot, Normal, NormalRhs, Predictions;
    var d := [c[0] - b[0], c[1] - b[1], c[2] - b[2]];
    ErrorGap(rows, b, c, d);
    NoGapNoShift(rows, d);
  }

  lemma {:induction false} NoGapNoShift(rows: seq<Item>, d: Vec)
    requires |d| == 3 && !Collinear(rows)
    ensures Dot(Predictions(rows, d), Predictions(rows, d)) >= 0.0
    ensures Dot(Predictions(rows, d), Predictions(rows, d)) == 0.0 ==> d[0] == d[1] == d[2] == 0.0
  {
    var p := Predictions(rows, d);
    DotSquare(p);
    if Dot(p, p) == 0.0 {
      forall k | 0 <= k < |rows| ensures p[k] == 0.0 {
        if p[k] != 0.0 { DotSquarePositive(p, k); }
      }
      assert PredictsZero(rows, d);
    }
  }

  /** A fit is the one and only minimiser of the squared error over all coefficient triples. */
  lemma {:induction false} FitIsLeastSquares(rows: seq<Item>, c: Vec)
    requires FitRows(rows).Fitted? && |c| == 3
    ensures SquaredError(rows, Coefficients(FitRows(rows))) <= SquaredError(rows, c)
    ensures SquaredError(rows, Coefficients(FitRows(rows))) == SquaredError(rows, c) ==>
      c == Coefficients(FitRows(rows))
  {
    hide *;
    FittedSolves(rows);
    var b := Coefficients(FitRows(rows));
    SolutionIsLeastSquares(rows, b, c);
    assert c[0] == b[0] && c[1] == b[1] && c[2] == b[2] ==> c == b;
  }

  lemma {:induction false} R2OfSolution(rows: seq<Item>, b: Vec)
    requires |b| == 3 && rows != [] && Solves(Normal(rows), NormalRhs(rows), b) && !Collinear(rows)
    ensures R2(rows, b).Some? <==> Varied(rows)
    ensures R2(rows, b).Some? ==> 0.0 <= R2(rows, b).value <= 1.0
  {
    hide SquaredError, Spread, Solves, Collinear, Normal, NormalRhs, Mean, Varied;
    SolutionIsLeastSquares(rows, b, [Mean(rows), 0.0, 0.0]);
    FlatModelError(rows, Mean(rows));
    ErrorNonnegative(rows, b);
    SpreadVanishes(rows);
    RatioInUnitInterval(SquaredError(rows, b), Spread(rows, Mean(rows)));
  }

  lemma {:induction false} SpreadStep(rows: seq<Item>, c: real)
    requires rows != []
    ensures
      var n := |rows| - 1;
      Spread(rows, c) == Spread(rows[..n], c) + (rows[n].energy - c) * (rows[n].energy - c)
  {
    var a, b := Deviations(rows, c), Deviations(rows[..|rows| - 1], c);
    DotLast(a, a, b, b);
    hide Dot;
  }

  lemma {:induction false} SpreadAt(rows: seq<Item>, c: real)
    ensures Spread(rows, c) == Spread(rows, 0.0) - 2.0 * c * EnergySum(rows) + |rows| as real * (c * c)
  {
    if rows != [] {
      var n := |rows| - 1;
      SpreadAt(rows[..n], c);
      SpreadStep(rows, c);
      SpreadStep(rows, 0.0);
      SpreadTerm(rows[n].energy, c, EnergySum(rows[..n]), n as real);
      assert |rows| as real == n as real + 1.0;
      hide Spread;
    }
  }

  lemma {:induction false} SpreadTerm(e: real, c: real, sum: real, n: real)
    ensures (e - c) * (e - c) == e * e - 2.0 * c * e + c * c
    ensures 2.0 * c * (sum + e) == 2.0 * c * sum + 2.0 * c * e
    ensures (n + 1.0) * (c * c) == n * (c * c) + c * c
  {
  }

  /** No constant lies closer to the energies than the mean the fit is measured against. */
  lemma {:induction false} MeanIsBestConstant(rows: seq<Item>, c: real)
    requires rows != []
    ensures Spread(rows, Mean(rows)) <= Spread(rows, c)
    ensures Spread(rows, Mean(rows)) == Spread(rows, c) ==> c == Mean(rows)
  {
    var n, mean := |rows| as real, Mean(rows);
    assert n * mean == EnergySum(rows);
    SpreadAt(rows, c);
    SpreadAt(rows, mean);
    hide Spread, EnergySum, Mean;
    SquareGap(n, mean, c, EnergySum(rows));
  }

  lemma {:induction false} SquareGap(n: real, mean: real, c: real, sum: real)
    requires n > 0.0 && n * mean == sum
    ensures
      var gap := (n * (c * c) - 2.0 * c * sum) - (n * (mean * mean) - 2.0 * mean * sum);
      gap >= 0.0 && (gap == 0.0 ==> c == mean)
  {
    var d := c - mean;
    var dd := d * d;
    assert (n * (c * c) - 2.0 * c * sum) - (n * (mean * mean) - 2.0 * mean * sum) == n * dd;
    if d > 0.0 {
      PositiveProduct(d, d, dd);
      PositiveProduct(n, dd, n * dd);
    } else if d < 0.0 {
      PositiveProduct(-d, -d, dd);
      PositiveProduct(n, dd, n * dd);
    } else {
      assert dd == 0.0;
    }
  }

  lemma {:induction false} PositiveProduct(x: real, y: real, xy: real)
    requires x > 0.0 && y > 0.0 && xy == x * y
    ensures xy > 0.0
  {
  }

  /** r2 is the share of the energies' spread around their best constant that the fit explains. */
  lemma {:induction false} R2IsExplainedShare(rows: seq<Item>, c: real)
    requires FitRows(rows).Fitted? && FitRows(rows).r2.Some?
    ensures (1.0 - FitRows(rows).r2.value) * Spread(rows, Mean(rows)) == SquaredError(rows, Coefficients(FitRows(rows)))
    ensures Spread(rows, Mean(rows)) <= Spread(rows, c)
  {
    hide *;
    FittedSolves(rows);
    UnexplainedIsError(rows, Coefficients(FitRows(rows)));
    MeanIsBestConstant(rows, c);
  }

  lemma {:induction false} UnexplainedIsError(rows: seq<Item>, b: Vec)
    requires |b| == 3 && rows != [] && R2(rows, b).Some?
    ensures (1.0 - R2(rows, b).value) * Spread(rows, Mean(rows)) == SquaredError(rows, b)
  {
    var ssRes, ssTot := SquaredError(rows, b), Spread(rows, Mean(rows));
    hide Spread, SquaredError, Mean;
    QuotientTimes(ssRes, ssTot);
  }

  lemma {:induction false} QuotientTimes(x: real, d: real)
    requires d > 0.0
    ensures (1.0 - (1.0 - x / d)) * d == x
  {
  }

  lemma {:induction false} FlatModelError(rows: seq<Item>, mean: real)
    ensures SquaredError(rows, [mean, 0.0, 0.0]) == Spread(rows, mean)
  {
    hide Dot;
    assert Residuals(rows, [mean, 0.0, 0.0]) == Deviations(rows, mean);
  }

  lemma {:induction false} ErrorNonnegative(rows: seq<Item>, b: Vec)
    requires |b| == 3
    ensures SquaredError(rows, b) >= 0.0
  {
    hide Dot;
    DotSquare(Residuals(rows, b));
  }

  lemma {:induction false} RatioInUnitInterval(err: real, total: real)
    requires 0.0 <= err <= total
    ensures total > 0.0 ==> 0.0 <= 1.0 - err / total <= 1.0
  {
    if total > 0.0 {
      DivKeepsOrder(0.0, err, total);
      DivKeepsOrder(err, total, total);
    }
  }

  ghost predicate Varied(rows: seq<Item>) {
    exists i, j :: 0 <= i < j < |rows| && rows[i].energy != rows[j].energy
  }

  /** r2 is reported exactly when the energies vary, and then lies in [0, 1]. */
  lemma {:induction false} R2InUnitInterval(rows: seq<Item>)
    requires FitRows(rows).Fitted?
    ensures FitRows(rows).r2.Some? <==> Varied(rows)
    ensures FitRows(rows).r2.Some? ==> 0.0 <= FitRows(rows).r2.value <= 1.0
  {
    FittedSolves(rows);
    R2OfSolution(rows, Coefficients(FitRows(rows)));
  }

  lemma {:induction false} SpreadVanishes(rows: seq<Item>)
    requires rows != []
    ensures Spread(rows, Mean(rows)) >= 0.0
    ensures Spread(rows, Mean(rows)) == 0.0 <==> !Varied(rows)
  {
    var dev := Deviations(rows, Mean(rows));
    DotSquare(dev);
    if !Varied(rows) {
      forall k | 0 <= k < |rows| ensures rows[k].energy == rows[0].energy {
        assert 0 < k ==> !(rows[0].energy != rows[k].energy);
      }
      ConstantSum(rows, rows[0].energy);
      CancelFactor(|rows| as real, rows[0].energy, EnergySum(rows));
      forall k | 0 <= k < |rows| ensures dev[k] == 0.0 {
      }
    }
    if Spread(rows, Mean(rows)) == 0.0 {
      forall k | 0 <= k < |rows| ensures dev[k] == 0.0 {
        if dev[k] != 0.0 { DotSquarePositive(dev, k); }
      }
    }
  }

  lemma {:induction false} CancelFactor(n: real, e: real, sum: real)
    requires n > 0.0 && sum == n * e
    ensures sum / n == e
  {
  }

  lemma {:induction false} ConstantSum(rows: seq<Item>, e: real)
    requires forall k :: 0 <= k < |rows| ==> rows[k].energy == e
    ensures EnergySum(rows) == |rows| as real * e
  {
    if rows != [] {
      ConstantSum(rows[..|rows| - 1], e);
      assert |rows| as real == (|rows| - 1) as real + 1.0;
    }
  }

  ghost predicate ExactlyLinear(rows: seq<Item>, b: Vec)
    requires |b| == 3
  {
    forall k :: 0 <= k < |rows| ==> rows[k].energy == Predicted(b, rows[k])
  }

  /** Items lying exactly on a linear model give back exactly that model, with r2 = 1. */
  lemma {:induction false} ExactModelIsRecovered(rows: seq<Item>, b: Vec)
    requires FitRows(rows).Fitted? && |b| == 3 && ExactlyLinear(rows, b)
    ensures Coefficients(FitRows(rows)) == b
    ensures FitRows(rows).r2.Some? ==> FitRows(rows).r2.value == 1.0
  {
    hide FitRows, R2, Dot;
    FittedSolves(rows);
    FitIsLeastSquares(rows, b);
    DotSquare(Residuals(rows, b));
    DotSquare(Residuals(rows, Coefficients(FitRows(rows))));
    assert SquaredError(rows, b) == 0.0;
    NoErrorMeansR2One(rows, b);
  }

  lemma {:induction false} NoErrorMeansR2One(rows: seq<Item>, b: Vec)
    requires |b| == 3 && rows != [] && SquaredError(rows, b) == 0.0
    ensures R2(rows, b).Some? ==> R2(rows, b).value == 1.0
  {
  }

  function NormalPivots(rows: seq<Item>): seq<real> {
    Pivots(Augmented(Normal(rows), NormalRhs(rows)), 3, 0)
  }

  /** Dependent columns never produce a fit; independent ones are refused only for want of scale
      in the normal equations. */
  lemma {:induction false} CollinearNeverFits(rows: seq<Item>)
    ensures Collinear(rows) ==> FitRows(rows).EmptyFit?
    ensures Collinear(rows) <==>
      forall s :: s > 0.0 ==> Solution(ScaledRows(s, Normal(rows)), ScaledVec(s, NormalRhs(rows))).None?
  {
    SingularIffCollinear(rows);
    SingularIffRefusedAtEveryScale(Normal(rows), NormalRhs(rows));
    if Collinear(rows) {
      SingularIsRefused(Normal(rows), NormalRhs(rows));
    }
  }

  /** Exactly when an empty fit means collinear token counts: the normal equations' elimination
      meets a zero pivot, or no pivot below the solver's threshold.  In every other case independent
      columns are refused. */
  lemma {:induction false} EmptyFitMeansCollinearIff(rows: seq<Item>)
    ensures Collinear(rows) <==> 0.0 in NormalPivots(rows)
    ensures (FitRows(rows).EmptyFit? <==> Collinear(rows)) <==>
      0.0 in NormalPivots(rows) || AllAtLeast(NormalPivots(rows), SINGULAR_PIVOT_EPS)
  {
    hide Collinear, Singular, Solution, Pivots, AllAtLeast, Normal, NormalRhs;
    SingularIffCollinear(rows);
    SingularIffZeroPivot(Normal(rows), NormalRhs(rows));
    NoneMeansSingularIff(Normal(rows), NormalRhs(rows));
    if |rows| < MIN_ITEMS {
      TooFewItemsAreCollinear(rows);
    }
  }

  // ------------------------------------------------------------ independent items that are refused

  /** Three requests with independent token counts: one empty, two of forty thousand tokens that
      differ by one. */
  function LongRequests(e: real, f: real, g: real): (rows: seq<Item>)
    ensures |rows| == 3
  {
    [Item(0, 0, e), Item(40000, 40001, f), Item(39999, 40000, g)]
  }

  /** The coefficients of an augmented 3x3 system. */
  ghost predicate Coefficients3(m: Rows, a: Vec, b: Vec, c: Vec)
    requires Shape(m, 3) && |a| == |b| == |c| == 3
  {
    forall j :: 0 <= j < 3 ==> m[0][j] == a[j] && m[1][j] == b[j] && m[2][j] == c[j]
  }

  lemma {:induction false} LongRequestsIndependent(e: real, f: real, g: real)
    ensures !Collinear(LongRequests(e, f, g))
  {
    var rows := LongRequests(e, f, g);
    forall v: Vec | |v| == 3 && PredictsZero(rows, v) ensures v[0] == v[1] == v[2] == 0.0 {
      assert Predicted(v, rows[0]) == 0.0 && Predicted(v, rows[1]) == 0.0 && Predicted(v, rows[2]) == 0.0;
    }
  }

  /** Their normal equations' coefficients. */
  const LONG_NORMAL: Rows := [
    [3.0, 79999.0, 80001.0],
    [79999.0, 3199920001.0, 3200000000.0],
    [80001.0, 3200000000.0, 3200080001.0]]

  lemma {:induction false} LongRequestsEntry(e: real, f: real, g: real, i: nat, j: nat)
    requires i < 3 && j < 3
    ensures Normal(LongRequests(e, f, g))[i][j] == LONG_NORMAL[i][j]
  {
    var rows := LongRequests(e, f, g);
    var a, b := Column(rows, i), Column(rows, j);
    Dot3(a, b);
    hide Dot, Normal;
    var x := if i == 0 then [1.0, 1.0, 1.0] else if i == 1 then [0.0, 40000.0, 39999.0] else [0.0, 40001.0, 40000.0];
    var y := if j == 0 then [1.0, 1.0, 1.0] else if j == 1 then [0.0, 40000.0, 39999.0] else [0.0, 40001.0, 40000.0];
    assert a[0] == x[0] && a[1] == x[1] && a[2] == x[2];
    assert b[0] == y[0] && b[1] == y[1] && b[2] == y[2];
    assert x[0] * y[0] + x[1] * y[1] + x[2] * y[2] == LONG_NORMAL[i][j];
  }

  lemma {:induction false} LongRequestsNormal(e: real, f: real, g: real)
    ensures
      var rows := LongRequests(e, f, g);
      Coefficients3(Augmented(Normal(rows), NormalRhs(rows)), LONG_NORMAL[0], LONG_NORMAL[1], LONG_NORMAL[2])
  {
    hide Normal, NormalRhs, LongRequests;
    forall i, j | 0 <= i < 3 && 0 <= j < 3
      ensures Normal(LongRequests(e, f, g))[i][j] == LONG_NORMAL[i][j]
    {
      LongRequestsEntry(e, f, g, i, j);
    }
  }

  lemma {:induction false} Entry(x: real, f: real, y: real, x': real, f': real, y': real)
    requires x == x' && f == f' && y == y'
    ensures x - f * y == x' - f' * y'
  {
  }

  lemma {:induction false} FactorIs(a: real, p: real, a': real, p': real)
    requires a == a' && p == p' && p' != 0.0
    ensures a / p == a' / p'
  {
  }

  /** Column 0 pivots on the last row and leaves a two-by-two block. */
  lemma {:induction false} LongFirstColumn(m: Rows) returns (next: Rows)
    requires Shape(m, 3)
    requires Coefficients3(m, LONG_NORMAL[0], LONG_NORMAL[1], LONG_NORMAL[2])
    ensures Shape(next, 3)
    ensures next[1][1] == 1.0 / 80001.0 && next[1][2] == 1.0 / 80001.0
    ensures next[2][1] == -3200000001.0 / 80001.0 && next[2][2] == -3200080002.0 / 80001.0
    ensures Reduced(m, 3, 0, SINGULAR_PIVOT_EPS).Some? ==> Reduced(next, 3, 1, SINGULAR_PIVOT_EPS).Some?
  {
    assert PivotFrom(m, 3, 0, 1, 2) == PivotFrom(m, 3, 0, 2, 3) == 2;
    assert PivotRow(m, 3, 0) == 2;
    var s := Swapped(m, 0, 2);
    assert s[0] == m[2] && s[1] == m[1] && s[2] == m[0];
    next := Eliminated(s, 3, 0);
    hide PivotRow, Swapped, Reduced;
    FactorIs(m[1][0], m[2][0], 79999.0, 80001.0);
    FactorIs(m[0][0], m[2][0], 3.0, 80001.0);
    var f, g := 79999.0 / 80001.0, 3.0 / 80001.0;
    Entry(m[1][1], s[1][0] / s[0][0], m[2][1], 3199920001.0, f, 3200000000.0);
    Entry(m[1][2], s[1][0] / s[0][0], m[2][2], 3200000000.0, f, 3200080001.0);
    Entry(m[0][1], s[2][0] / s[0][0], m[2][1], 79999.0, g, 3200000000.0);
    Entry(m[0][2], s[2][0] / s[0][0], m[2][2], 80001.0, g, 3200080001.0);
  }

  /** Column 1 pivots on the last row again and leaves a tiny corner. */
  lemma {:induction false} LongSecondColumn(m: Rows) returns (next: Rows)
    requires Shape(m, 3)
    requires m[1][1] == 1.0 / 80001.0 && m[1][2] == 1.0 / 80001.0
    requires m[2][1] == -3200000001.0 / 80001.0 && m[2][2] == -3200080002.0 / 80001.0
    ensures Shape(next, 3) && next[2][2] == -1.0 / 3200000001.0
    ensures Reduced(m, 3, 1, SINGULAR_PIVOT_EPS).Some? ==> Reduced(next, 3, 2, SINGULAR_PIVOT_EPS).Some?
  {
    assert PivotFrom(m, 3, 1, 1, 2) == PivotFrom(m, 3, 1, 2, 3) == 2;
    assert PivotRow(m, 3, 1) == 2;
    var s := Swapped(m, 1, 2);
    assert s[1] == m[2] && s[2] == m[1];
    next := Eliminated(s, 3, 1);
    hide PivotRow, Swapped, Reduced;
    FactorIs(m[1][1], m[2][1], 1.0 / 80001.0, -3200000001.0 / 80001.0);
    Entry(m[1][2], s[2][1] / s[1][1], m[2][2], 1.0 / 80001.0, -1.0 / 3200000001.0, -3200080002.0 / 80001.0);
  }

  /** Independent token counts and no fit, whatever the energies: the normal equations have exactly
      one solution, and the solver refuses them over a last pivot of a third of its threshold. */
  lemma {:induction false} IndependentYetUnfitted(e: real, f: real, g: real)
    ensures !Collinear(LongRequests(e, f, g)) && FitRows(LongRequests(e, f, g)).EmptyFit?
    ensures
      var rows := LongRequests(e, f, g);
      !Singular(Normal(rows), 3) && Solution(Normal(rows), NormalRhs(rows)).None?
  {
    var rows := LongRequests(e, f, g);
    LongRequestsIndependent(e, f, g);
    SingularIffCollinear(rows);
    hide Collinear, Singular;
    LongRequestsNormal(e, f, g);
    var m0 := Augmented(Normal(rows), NormalRhs(rows));
    var m1 := LongFirstColumn(m0);
    var m2 := LongSecondColumn(m1);
    assert PivotRow(m2, 3, 2) == 2;
    assert Abs(m2[2][2]) < SINGULAR_PIVOT_EPS;
    assert Reduced(m2, 3, 2, SINGULAR_PIVOT_EPS).None?;
    hide Reduced, Normal, NormalRhs;
  }

  // ------------------------------------------------------------ ordinary items that are fitted

  /** One empty request, one with a single prompt token, one with a single completion token. */
  function ShortRequests(e: real, f: real, g: real): (rows: seq<Item>)
    ensures |rows| == 3
  {
    [Item(0, 0, e), Item(1, 0, f), Item(0, 1, g)]
  }

  const SHORT_NORMAL: Rows := [[3.0, 1.0, 1.0], [1.0, 1.0, 0.0], [1.0, 0.0, 1.0]]

  lemma {:induction false} ShortRequestsEntry(e: real, f: real, g: real, i: nat, j: nat)
    requires i < 3 && j < 3
    ensures Normal(ShortRequests(e, f, g))[i][j] == SHORT_NORMAL[i][j]
  {
    var rows := ShortRequests(e, f, g);
    var a, b := Column(rows, i), Column(rows, j);
    Dot3(a, b);
    hide Dot, Normal;
    var x := if i == 0 then [1.0, 1.0, 1.0] else if i == 1 then [0.0, 1.0, 0.0] else [0.0, 0.0, 1.0];
    var y := if j == 0 then [1.0, 1.0, 1.0] else if j == 1 then [0.0, 1.0, 0.0] else [0.0, 0.0, 1.0];
    assert a[0] == x[0] && a[1] == x[1] && a[2] == x[2];
    assert b[0] == y[0] && b[1] == y[1] && b[2] == y[2];
    assert x[0] * y[0] + x[1] * y[1] + x[2] * y[2] == SHORT_NORMAL[i][j];
  }

  lemma {:induction false} ShortRequestsNormal(e: real, f: real, g: real)
    ensures
      var rows := ShortRequests(e, f, g);
      Coefficients3(Augmented(Normal(rows), NormalRhs(rows)), SHORT_NORMAL[0], SHORT_NORMAL[1], SHORT_NORMAL[2])
  {
    hide Normal, NormalRhs, ShortRequests;
    forall i, j | 0 <= i < 3 && 0 <= j < 3
      ensures Normal(ShortRequests(e, f, g))[i][j] == SHORT_NORMAL[i][j]
    {
      ShortRequestsEntry(e, f, g, i, j);
    }
  }

  lemma {:induction false} ShortFirstColumn(m: Rows) returns (next: Rows)
    requires Shape(m, 3)
    requires Coefficients3(m, SHORT_NORMAL[0], SHORT_NORMAL[1], SHORT_NORMAL[2])
    ensures Shape(next, 3)
    ensures next[1][1] == 2.0 / 3.0 && next[1][2] == -1.0 / 3.0
    ensures next[2][1] == -1.0 / 3.0 && next[2][2] == 2.0 / 3.0
    ensures Reduced(next, 3, 1, SINGULAR_PIVOT_EPS).Some? ==> Reduced(m, 3, 0, SINGULAR_PIVOT_EPS).Some?
  {
    assert PivotFrom(m, 3, 0, 0, 2) == PivotFrom(m, 3, 0, 0, 3) == 0;
    assert PivotRow(m, 3, 0) == 0;
    assert Swapped(m, 0, 0) == m;
    next := Eliminated(m, 3, 0);
    hide PivotRow, Swapped, Reduced;
    FactorIs(m[1][0], m[0][0], 1.0, 3.0);
    FactorIs(m[2][0], m[0][0], 1.0, 3.0);
    var f := 1.0 / 3.0;
    Entry(m[1][1], m[1][0] / m[0][0], m[0][1], 1.0, f, 1.0);
    Entry(m[1][2], m[1][0] / m[0][0], m[0][2], 0.0, f, 1.0);
    Entry(m[2][1], m[2][0] / m[0][0], m[0][1], 0.0, f, 1.0);
    Entry(m[2][2], m[2][0] / m[0][0], m[0][2], 1.0, f, 1.0);
  }

  lemma {:induction false} ShortSecondColumn(m: Rows) returns (next: Rows)
    requires Shape(m, 3)
    requires m[1][1] == 2.0 / 3.0 && m[1][2] == -1.0 / 3.0
    requires m[2][1] == -1.0 / 3.0 && m[2][2] == 2.0 / 3.0
    ensures Shape(next, 3) && next[2][2] == 0.5
    ensures Reduced(next, 3, 2, SINGULAR_PIVOT_EPS).Some? ==> Reduced(m, 3, 1, SINGULAR_PIVOT_EPS).Some?
  {
    assert PivotFrom(m, 3, 1, 1, 3) == 1;
    assert PivotRow(m, 3, 1) == 1;
    assert Swapped(m, 1, 1) == m;
    next := Eliminated(m, 3, 1);
    hide PivotRow, Swapped, Reduced;
    FactorIs(m[2][1], m[1][1], -1.0 / 3.0, 2.0 / 3.0);
    Entry(m[2][2], m[2][1] / m[1][1], m[1][2], 2.0 / 3.0, -0.5, -1.0 / 3.0);
  }

  lemma {:induction false} ShortRequestsAreSolved(e: real, f: real, g: real)
    ensures Solution(Normal(ShortRequests(e, f, g)), NormalRhs(ShortRequests(e, f, g))).Some?
  {
    var rows := ShortRequests(e, f, g);
    ShortRequestsNormal(e, f, g);
    var m0 := Augmented(Normal(rows), NormalRhs(rows));
    hide Normal, NormalRhs, ShortRequests;
    var m1 := ShortFirstColumn(m0);
    var m2 := ShortSecondColumn(m1);
    ShortLastColumn(m2);
    hide Reduced;
  }

  lemma {:induction false} ShortLastColumn(m: Rows)
    requires Shape(m, 3) && m[2][2] == 0.5
    ensures Reduced(m, 3, 2, SINGULAR_PIVOT_EPS).Some?
  {
    assert PivotRow(m, 3, 2) == 2;
  }

  lemma {:induction false} ShortRequestsAreLinear(e: real, f: real, g: real)
    ensures ExactlyLinear(ShortRequests(e, f, g), [e, f - e, g - e])
  {
  }

  /** A concrete fit, whatever the energies: the empty request's energy is the fixed one, and the
      others' excess over it is the price of a prompt and of a completion token. */
  lemma {:induction false} ShortRequestsAreFitted(e: real, f: real, g: real)
    ensures
      var fit := FitRows(ShortRequests(e, f, g));
      fit.Fitted? && fit.eFixed == e && fit.alpha == f - e && fit.beta == g - e && fit.n == 3
  {
    var rows := ShortRequests(e, f, g);
    ShortRequestsAreSolved(e, f, g);
    ShortRequestsAreLinear(e, f, g);
    hide Solution, Normal, NormalRhs, ExactlyLinear, R2, ShortRequests;
    var fit := FitRows(rows);
    assert fit.Fitted?;
    hide FitRows;
    ExactModelIsRecovered(rows, [e, f - e, g - e]);
    assert Coefficients(fit)[0] == e && Coefficients(fit)[1] == f - e && Coefficients(fit)[2] == g - e;
    FittedSolves(rows);
  }

  /** Two or fewer items are always dependent, so the item-count guard refuses nothing solvable. */
  lemma {:induction false} TooFewItemsAreCollinear(rows: seq<Item>)
    requires |rows| < MIN_ITEMS
    ensures Collinear(rows)
  {
    var v: Vec;
    if |rows| == 0 {
      v := [1.0, 0.0, 0.0];
      assert PredictsZero(rows, v) && v[0] != 0.0;
    } else {
      var p, c := rows[0].prompt as real, rows[0].completion as real;
      var last := rows[|rows| - 1];
      var p', c' := last.prompt as real, last.completion as real;
      if p == p' && c == c' {
        v := [-p, 1.0, 0.0];
        assert PredictsZero(rows, v) && v[1] != 0.0;
      } else {
        v := [p * c' - p' * c, c - c', p' - p];
        TwoPointLine(p, c, p', c');
        assert PredictsZero(rows, v) && (v[1] != 0.0 || v[2] != 0.0);
      }
    }
  }

  lemma {:induction false} TwoPointLine(p: real, c: real, p': real, c': real)
    ensures (p * c' - p' * c) + (c - c') * p + (p' - p) * c == 0.0
    ensures (p * c' - p' * c) + (c - c') * p' + (p' - p) * c' == 0.0
  {
  }

  // ------------------------------------------------------------ from requests to rows

  /** How many requests have a usable energy. */
  function Usable(energies: seq<Option<real>>): nat {
    if energies == [] then 0 else (if energies[0].Some? then 1 else 0) + Usable(energies[1..])
  }

  /** The row carries the request's own token counts and its energy. */
  predicate RowOf(row: Item, request: Request, energy: Option<real>) {
    row.prompt == request.promptTokens && row.completion == request.completionTokens && Some(row.energy) == energy
  }

  lemma {:induction false} RowsStep(requests: seq<Request>, energies: seq<Option<real>>)
    requires |requests| == |energies| > 0
    ensures
      var rows, rest := UsableItems(requests, energies), UsableItems(requests[1..], energies[1..]);
      && (energies[0].None? ==> rows == rest && Usable(energies) == Usable(energies[1..]))
      && (energies[0].Some? ==>
            && rows == [rows[0]] + rest && Usable(energies) == 1 + Usable(energies[1..])
            && RowOf(rows[0], requests[0], energies[0]))
  {
  }

  /** The fitted rows are as many as the usable energies, and each request with one stands after the
      rows of those before it. */
  lemma {:induction false} RowsAreUsable(requests: seq<Request>, energies: seq<Option<real>>, i: nat)
    requires |requests| == |energies|
    ensures |UsableItems(requests, energies)| == Usable(energies)
    ensures i < |energies| && energies[i].Some? ==>
      var rows, k := UsableItems(requests, energies), Usable(energies[..i]);
      k < |rows| && RowOf(rows[k], requests[i], energies[i])
  {
    if requests != [] {
      RowsStep(requests, energies);
      RowsAreUsable(requests[1..], energies[1..], if i > 0 then i - 1 else 0);
      hide RowOf, UsableItems;
      if 0 < i < |energies| {
        assert energies[..i][1..] == energies[1..][..i - 1];
      }
    }
  }

  /** Every row is some such request's. */
  lemma {:induction false} RowSource(requests: seq<Request>, energies: seq<Option<real>>, k: nat) returns (i: nat)
    requires |requests| == |energies| && k < |UsableItems(requests, energies)|
    ensures i < |energies| && energies[i].Some? && Usable(energies[..i]) == k
  {
    if energies[0].Some? && k == 0 {
      i := 0;
    } else {
      i := RowSource(requests[1..], energies[1..], if energies[0].Some? then k - 1 else k);
      i := i + 1;
      assert energies[..i][1..] == energies[1..][..i - 1];
    }
  }

  /** Every request with a usable energy costs `e`, plus `a` per prompt and `b` per completion token. */
  ghost predicate Priced(requests: seq<Request>, energies: seq<Option<real>>, e: real, a: real, b: real)
    requires |requests| == |energies|
  {
    forall i :: 0 <= i < |requests| && energies[i].Some? ==>
      energies[i].value == e + a * requests[i].promptTokens as real + b * requests[i].completionTokens as real
  }

  lemma {:induction false} RowIsPriced(
      requests: seq<Request>, energies: seq<Option<real>>, e: real, a: real, b: real, k: nat)
    requires |requests| == |energies| && Priced(requests, energies, e, a, b)
    requires k < |UsableItems(requests, energies)|
    ensures UsableItems(requests, energies)[k].energy == Predicted([e, a, b], UsableItems(requests, energies)[k])
  {
    var i := RowSource(requests, energies, k);
    RowsAreUsable(requests, energies, i);
    hide UsableItems, Usable;
  }

  /** Requests that cost a fixed energy and fixed energies per prompt and completion token give back
      those three, each under its own name. */
  lemma {:induction false} PricesAreRecovered(
      requests: seq<Request>, energies: seq<Option<real>>, e: real, a: real, b: real)
    requires |requests| == |energies| && Priced(requests, energies, e, a, b)
    requires FitRows(UsableItems(requests, energies)).Fitted?
    ensures
      var fit := FitRows(UsableItems(requests, energies));
      && fit.eFixed == e && fit.alpha == a && fit.beta == b
      && (fit.r2.Some? ==> fit.r2.value == 1.0)
  {
    hide UsableItems, FitRows, Priced, Predicted;
    var rows := UsableItems(requests, energies);
    forall k | 0 <= k < |rows| ensures rows[k].energy == Predicted([e, a, b], rows[k]) {
      RowIsPriced(requests, energies, e, a, b, k);
    }
    ExactModelIsRecovered(rows, [e, a, b]);
    var fit := FitRows(rows);
    assert Coefficients(fit)[0] == e && Coefficients(fit)[1] == a && Coefficients(fit)[2] == b;
  }

  // ------------------------------------------------------------ the fit, by accumulation

  lemma {:induction false} AccumulateRow(rows: seq<Item>, k: nat, i: nat)
    requires k < |rows| && i < 3
    ensures Dot(Column(rows[..k + 1], i), Targets(rows[..k + 1])) ==
      Dot(Column(rows[..k], i), Targets(rows[..k])) + Feature(rows[k])[i] * rows[k].energy
    ensures forall j :: 0 <= j < 3 ==>
      Dot(Column(rows[..k + 1], i), Column(rows[..k + 1], j)) ==
      Dot(Column(rows[..k], i), Column(rows[..k], j)) + Feature(rows[k])[i] * Feature(rows[k])[j]
  {
    hide Dot, Feature;
    var next, now := rows[..k + 1], rows[..k];
    DotLast(Column(next, i), Targets(next), Column(now, i), Targets(now));
    forall j | 0 <= j < 3
      ensures Dot(Column(next, i), Column(next, j)) ==
        Dot(Column(now, i), Column(now, j)) + Feature(rows[k])[i] * Feature(rows[k])[j]
    {
      DotLast(Column(next, i), Column(next, j), Column(now, i), Column(now, j));
    }
  }

  lemma {:induction false} NormalStep(rows: seq<Item>, k: nat, m: Rows, v: Vec)
    requires k < |rows| && Square(m, 3) && |v| == 3
    requires OneRowAdded(Normal(rows[..k]), NormalRhs(rows[..k]), Feature(rows[k]), rows[k].energy, m, v)
    ensures m == Normal(rows[..k + 1]) && v == NormalRhs(rows[..k + 1])
  {
    hide Dot, Column, Targets, Feature;
    forall i | 0 <= i < 3
      ensures v[i] == NormalRhs(rows[..k + 1])[i] && m[i] == Normal(rows[..k + 1])[i]
    {
      AccumulateRow(rows, k, i);
    }
  }

  ghost predicate OneRowAdded(m: Rows, v: Vec, x: Vec, energy: real, m': Rows, v': Vec)
    requires Square(m, 3) && Square(m', 3) && |v| == |v'| == |x| == 3
  {
    v' == AddScaled(v, energy, x) && forall i :: 0 <= i < 3 ==> m'[i] == AddScaled(m[i], x[i], x)
  }

  /** The innermost loop: one row of X'X gains the products with feature `f`. */
  method AddProducts(row: Vec, f: real, x: Vec) returns (r: Vec)
    requires |row| == |x|
    ensures r == AddScaled(row, f, x)
  {
    r := row;
    ghost var target := AddScaled(row, f, x);
    for j := 0 to |x|
      invariant |r| == |row|
      invariant forall b :: 0 <= b < |x| ==> r[b] == if b < j then target[b] else row[b]
    {
      r := r[j := r[j] + f * x[j]];
    }
  }

  /** The loop over the feature indices, for one item. */
  method AddRow(m: Rows, v: Vec, x: Vec, energy: real) returns (xtx: Rows, xty: Vec)
    requires Square(m, 3) && |v| == |x| == 3
    ensures Square(xtx, 3) && |xty| == 3 && OneRowAdded(m, v, x, energy, xtx, xty)
  {
    xtx, xty := m, v;
    ghost var target := AddScaled(v, energy, x);
    for i := 0 to 3
      invariant |xtx| == |xty| == 3
      invariant forall a :: 0 <= a < 3 ==> xty[a] == if a < i then target[a] else v[a]
      invariant forall a :: 0 <= a < 3 ==> xtx[a] == if a < i then AddScaled(m[a], x[a], x) else m[a]
    {
      xty := xty[i := xty[i] + x[i] * energy];
      var row := AddProducts(xtx[i], x[i], x);
      xtx := xtx[i := row];
    }
  }

  /** The first loop: X'X and X'y, one row at a time. */
  method Accumulate(rows: seq<Item>) returns (xtx: Rows, xty: Vec)
    ensures Square(xtx, 3) && xtx == Normal(rows) && xty == NormalRhs(rows)
  {
    xtx := seq(3, _ => seq(3, _ => 0.0));
    xty := seq(3, _ => 0.0);
    assert forall i :: 0 <= i < 3 ==> xtx[i] == Normal([])[i];
    for k := 0 to |rows|
      invariant Square(xtx, 3) && xtx == Normal(rows[..k]) && xty == NormalRhs(rows[..k])
    {
      hide Normal, NormalRhs, OneRowAdded;
      xtx, xty := AddRow(xtx, xty, Feature(rows[k]), rows[k].energy);
      NormalStep(rows, k, xtx, xty);
    }
    assert rows[..|rows|] == rows;
  }

  /** The second loop: residual and total sums of squares. */
  method SumSquares(rows: seq<Item>, b: Vec, mean: real) returns (ssRes: real, ssTot: real)
    requires |b| == 3
    ensures ssRes == SquaredError(rows, b) && ssTot == Spread(rows, mean)
  {
    ssRes, ssTot := 0.0, 0.0;
    for k := 0 to |rows|
      invariant ssRes == SquaredError(rows[..k], b) && ssTot == Spread(rows[..k], mean)
    {
      assert Residuals(rows[..k + 1], b)[..k] == Residuals(rows[..k], b);
      assert Deviations(rows[..k + 1], mean)[..k] == Deviations(rows[..k], mean);
      var r, d := rows[k].energy - Predicted(b, rows[k]), rows[k].energy - mean;
      ssRes := ssRes + r * r;
      ssTot := ssTot + d * d;
    }
    assert rows[..|rows|] == rows;
  }

  lemma {:induction false} FitMeaning(requests: seq<Request>, energies: seq<Option<real>>)
    requires |requests| == |energies|
    ensures |UsableItems(requests, energies)| == Usable(energies)
    ensures FitRows(UsableItems(requests, energies)).Fitted? ==>
      forall e, a, b :: Priced(requests, energies, e, a, b) ==>
        var fit := FitRows(UsableItems(requests, energies));
        fit.eFixed == e && fit.alpha == a && fit.beta == b
  {
    hide UsableItems, FitRows, Priced;
    RowsAreUsable(requests, energies, 0);
    var fit := FitRows(UsableItems(requests, energies));
    if fit.Fitted? {
      forall e, a, b | Priced(requests, energies, e, a, b)
        ensures fit.eFixed == e && fit.alpha == a && fit.beta == b
      {
        PricesAreRecovered(requests, energies, e, a, b);
      }
    }
  }

  /** Fitted over the requests with a usable energy; if their energies follow one price list, it is
      what comes back. */
  method FitCostModel(samples: seq<Sample>, requests: seq<Request>) returns (fit: Fit)
    ensures fit == FitRows(UsableItems(requests, ItemEnergies(samples, requests)))
    ensures fit.Fitted? ==> fit.n == Usable(ItemEnergies(samples, requests)) >= MIN_ITEMS
    ensures forall e, a, b :: fit.Fitted? && Priced(requests, ItemEnergies(samples, requests), e, a, b) ==>
      fit.eFixed == e && fit.alpha == a && fit.beta == b
  {
    var rows := UsableItems(requests, ItemEnergies(samples, requests));
    FitMeaning(requests, ItemEnergies(samples, requests));
    if |rows| < MIN_ITEMS {
      return EmptyFit;
    }
    hide Solution, Normal, NormalRhs, SquaredError, Spread, Solves, Mean, UsableItems, ItemEnergies, R2Value;
    var xtx, xty := Accumulate(rows);
    var coeffs := SolveLinearSystem(xtx, xty);
    if coeffs.None? {
      return EmptyFit;
    }
    var b := coeffs.value;
    var ssRes, ssTot := SumSquares(rows, b, Mean(rows));
    fit := Fitted(b[0], b[1], b[2], R2Value(ssRes, ssTot), |rows|);
  }
}
