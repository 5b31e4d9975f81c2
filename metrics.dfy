/**
 * eval_metrics computes MAE and MSE (scikit-learn) and MAPE with
 * the divisor max(y_true, 1e-6), all over exact reals. RMSE is the square
 * root of MSE and is represented here by MSE itself.
 */
module Metrics {
  import opened Wrappers

  /** The floor of the MAPE divisor. */
  const Epsilon: real := 0.000001

  /** mae, mse (= rmse squared) and mape (in percent). */
  datatype Scores = Scores(mae: real, mse: real, mape: real)

  /** scikit-learn rejects inputs of different lengths and empty inputs with ValueError. */
  datatype MetricsFault = LengthMismatch | NoSamples

  function Sq(x: real): real { x * x }

  function Abs(x: real): (r: real)
    ensures r >= 0.0
    ensures r == 0.0 <==> x == 0.0
    ensures Sq(r) == Sq(x)
  {
    if x < 0.0 then -x else x
  }

  /** np.maximum(y_true, 1e-6): never zero, so MAPE never divides by zero. */
  function Divisor(y: real): (d: real)
    ensures d > 0.0
    ensures d >= y && d >= Epsilon
    ensures d == y || d == Epsilon
  {
    if y >= Epsilon then y else Epsilon
  }

  /** One MAPE term |y - p| / max(y, 1e-6). */
  function Ape(y: real, p: real): (r: real)
    ensures r >= 0.0
    ensures r == 0.0 <==> y == p
  {
    Abs(y - p) / Divisor(y)
  }

  /** The errors y_true - y_pred, pointwise. */
  function Errors(yTrue: seq<real>, yPred: seq<real>): (e: seq<real>)
    requires |yTrue| == |yPred|
    ensures |e| == |yTrue|
    ensures forall i :: 0 <= i < |e| ==> e[i] == yTrue[i] - yPred[i]
  {
    seq(|yTrue|, i requires 0 <= i < |yTrue| => yTrue[i] - yPred[i])
  }

  function SumAbs(e: seq<real>): real
  {
    if e == [] then 0.0 else SumAbs(e[..|e| - 1]) + Abs(e[|e| - 1])
  }

  function SumSq(e: seq<real>): real
  {
    if e == [] then 0.0 else SumSq(e[..|e| - 1]) + Sq(e[|e| - 1])
  }

  function SumApe(yTrue: seq<real>, yPred: seq<real>): real
    requires |yTrue| == |yPred|
  {
    if yTrue == [] then 0.0
    else SumApe(yTrue[..|yTrue| - 1], yPred[..|yPred| - 1]) + Ape(yTrue[|yTrue| - 1], yPred[|yPred| - 1])
  }

  /**
   * eval_metrics(y_true, y_pred). The MAE is never negative, the MSE is at
   * least the square of the MAE (RMSE >= MAE), and the MAE is zero exactly
   * when every prediction equals its actual value.
   */
  function EvalMetrics(yTrue: seq<real>, yPred: seq<real>): (r: Result<Scores, MetricsFault>)
    ensures r.Err? <==> |yTrue| != |yPred| || |yTrue| == 0
    ensures r.Ok? ==> r.value.mae >= 0.0 && r.value.mse >= 0.0 && r.value.mape >= 0.0
    ensures r.Ok? ==> r.value.mse >= r.value.mae * r.value.mae
    ensures r.Ok? ==> (r.value.mae == 0.0 <==> yTrue == yPred)
  {
    if |yTrue| != |yPred| then Err(LengthMismatch)
    else if |yTrue| == 0 then Err(NoSamples)
    else
      var n := |yTrue| as real;
      var e := Errors(yTrue, yPred);
      MeanFacts(e);
      MapeNonNegative(yTrue, yPred);
      ExactIffNoError(yTrue, yPred);
      Ok(Scores(SumAbs(e) / n, SumSq(e) / n, SumApe(yTrue, yPred) / n * 100.0))
  }

  /** The means of the absolute and squared errors, and how they relate. */
  lemma MeanFacts(e: seq<real>)
    requires |e| > 0
    ensures var n, sa, sq := |e| as real, SumAbs(e), SumSq(e);
      && sa / n >= 0.0 && sq / n >= 0.0
      && sq / n >= (sa / n) * (sa / n)
      && (sa / n == 0.0 <==> forall i :: 0 <= i < |e| ==> e[i] == 0.0)
  {
    var n := |e| as real;
    SumsNonNegative(e);
    SquareSumBound(e);
    MeanSquareBound(n, SumSq(e), SumAbs(e));
    DivFacts(SumAbs(e), n);
    DivFacts(SumSq(e), n);
  }

  lemma MapeNonNegative(yTrue: seq<real>, yPred: seq<real>)
    requires |yTrue| == |yPred| > 0
    ensures SumApe(yTrue, yPred) / (|yTrue| as real) * 100.0 >= 0.0
  {
    SumApeNonNegative(yTrue, yPred);
    DivFacts(SumApe(yTrue, yPred), |yTrue| as real);
  }

  lemma DivFacts(x: real, n: real)
    requires n > 0.0 && x >= 0.0
    ensures x / n >= 0.0
    ensures x / n == 0.0 <==> x == 0.0
  {
    assert (x / n) * n == x;
  }

  lemma SquareFacts(y: real)
    ensures Sq(y) >= 0.0
  {
  }

  lemma {:induction false} SumsNonNegative(e: seq<real>)
    ensures SumAbs(e) >= 0.0 && SumSq(e) >= 0.0
    ensures SumAbs(e) == 0.0 <==> forall i :: 0 <= i < |e| ==> e[i] == 0.0
  {
    if e != [] {
      var init := e[..|e| - 1];
      SumsNonNegative(init);
      SquareFacts(e[|e| - 1]);
      assert forall i :: 0 <= i < |init| ==> init[i] == e[i];
    }
  }

  lemma {:induction false} SumApeNonNegative(yTrue: seq<real>, yPred: seq<real>)
    requires |yTrue| == |yPred|
    ensures SumApe(yTrue, yPred) >= 0.0
  {
    if yTrue != [] {
      SumApeNonNegative(yTrue[..|yTrue| - 1], yPred[..|yPred| - 1]);
    }
  }

  /** Predictions equal actuals exactly when every error is zero. */
  lemma ExactIffNoError(yTrue: seq<real>, yPred: seq<real>)
    requires |yTrue| == |yPred|
    ensures yTrue == yPred <==> forall i :: 0 <= i < |yTrue| ==> Errors(yTrue, yPred)[i] == 0.0
  {
    var e := Errors(yTrue, yPred);
    if forall i :: 0 <= i < |yTrue| ==> e[i] == 0.0 {
      assert forall i :: 0 <= i < |yTrue| ==> yTrue[i] == yPred[i];
    }
  }

  /** Cauchy-Schwarz for the error vector: n * sum(e^2) >= (sum |e|)^2. */
  lemma {:induction false} SquareSumBound(e: seq<real>)
    ensures |e| as real * SumSq(e) >= SumAbs(e) * SumAbs(e)
  {
    if e != [] {
      var init := e[..|e| - 1];
      var x := Abs(e[|e| - 1]);
      SquareSumBound(init);
      assert SumAbs(e) == SumAbs(init) + x;
      assert SumSq(e) == SumSq(init) + Sq(x);
      if init == [] {
        assert SumAbs(init) == 0.0 && SumSq(init) == 0.0;
      } else {
        CauchyStep(|init| as real, SumAbs(init), SumSq(init), x);
      }
    }
  }

  /** The inductive step of SquareSumBound on plain numbers. */
  lemma CauchyStep(n: real, s: real, q: real, x: real)
    requires n > 0.0 && n * q >= s * s
    ensures (n + 1.0) * (q + Sq(x)) >= (s + x) * (s + x)
  {
    var t := q + n * x * x - 2.0 * s * x;
    ScaledGap(n, s, q, x);
    SquareFacts(s - n * x);
    PositiveFactor(n, t);
    StepGap(n, s, q, x);
  }

  /** n * (q + n x^2 - 2 s x) = (n q - s^2) + (s - n x)^2. */
  lemma ScaledGap(n: real, s: real, q: real, x: real)
    ensures n * (q + n * x * x - 2.0 * s * x) == (n * q - s * s) + Sq(s - n * x)
  {
  }

  /** (n + 1)(q + x^2) - (s + x)^2 = (n q - s^2) + (q + n x^2 - 2 s x). */
  lemma StepGap(n: real, s: real, q: real, x: real)
    ensures (n + 1.0) * (q + Sq(x)) - (s + x) * (s + x) == (n * q - s * s) + (q + n * x * x - 2.0 * s * x)
  {
  }

  lemma PositiveFactor(n: real, t: real)
    requires n > 0.0 && n * t >= 0.0
    ensures t >= 0.0
  {
  }

  /** From n * Q >= S^2 to Q / n >= (S / n)^2, that is MSE >= MAE^2. */
  lemma MeanSquareBound(n: real, q: real, s: real)
    requires n >= 1.0 && n * q >= s * s
    ensures q / n >= (s / n) * (s / n)
  {
    var a, b := s / n, q / n;
    assert a * n == s && b * n == q;
    assert n * q == b * (n * n);
    assert s * s == (a * a) * (n * n);
    assert (n * n) * (b - a * a) == n * q - s * s >= 0.0;
    assert n * n > 0.0;
    PositiveFactor(n * n, b - a * a);
  }

  /** When every error has the same magnitude c, RMSE equals MAE: MSE = MAE^2. */
  lemma {:induction false} EqualMagnitudeSums(e: seq<real>, c: real)
    requires forall i :: 0 <= i < |e| ==> Abs(e[i]) == c
    ensures SumAbs(e) == |e| as real * c
    ensures SumSq(e) == |e| as real * Sq(c)
  {
    if e != [] {
      var init := e[..|e| - 1];
      assert forall i :: 0 <= i < |init| ==> init[i] == e[i];
      EqualMagnitudeSums(init, c);
      assert Sq(e[|e| - 1]) == Sq(c);
    }
  }

  lemma EqualMagnitudeRmseIsMae(yTrue: seq<real>, yPred: seq<real>, c: real)
    requires |yTrue| == |yPred| > 0
    requires forall i :: 0 <= i < |yTrue| ==> Abs(yTrue[i] - yPred[i]) == c
    ensures EvalMetrics(yTrue, yPred).Ok?
    ensures EvalMetrics(yTrue, yPred).value.mse == EvalMetrics(yTrue, yPred).value.mae * EvalMetrics(yTrue, yPred).value.mae
  {
    var e := Errors(yTrue, yPred);
    EqualMagnitudeMeans(e, c);
    var n := |yTrue| as real;
    var m := EvalMetrics(yTrue, yPred).value;
    assert m.mae == SumAbs(e) / n && m.mse == SumSq(e) / n;
  }

  lemma EqualMagnitudeMeans(e: seq<real>, c: real)
    requires |e| > 0
    requires forall i :: 0 <= i < |e| ==> Abs(e[i]) == c
    ensures SumSq(e) / (|e| as real) == (SumAbs(e) / (|e| as real)) * (SumAbs(e) / (|e| as real))
  {
    var n := |e| as real;
    EqualMagnitudeSums(e, c);
    Cancel(n, c);
    Cancel(n, Sq(c));
  }

  lemma Cancel(n: real, c: real)
    requires n > 0.0
    ensures (n * c) / n == c
  {
  }

  /** An exact forecast scores zero on all three metrics, whatever the actuals (zero included). */
  lemma {:induction false} ExactForecastScoresZero(ys: seq<real>)
    requires |ys| > 0
    ensures EvalMetrics(ys, ys) == Ok(Scores(0.0, 0.0, 0.0))
  {
    ExactApeZero(ys);
    var e := Errors(ys, ys);
    ZeroErrorSums(e);
    var n := |ys| as real;
    assert 0.0 / n == 0.0;
  }

  lemma {:induction false} ZeroErrorSums(e: seq<real>)
    requires forall i :: 0 <= i < |e| ==> e[i] == 0.0
    ensures SumAbs(e) == 0.0 && SumSq(e) == 0.0
  {
    if e != [] {
      ZeroErrorSums(e[..|e| - 1]);
      assert Sq(e[|e| - 1]) == Sq(0.0) == 0.0;
    }
  }

  lemma {:induction false} ExactApeZero(ys: seq<real>)
    ensures SumApe(ys, ys) == 0.0
  {
    if ys != [] {
      ExactApeZero(ys[..|ys| - 1]);
    }
  }

  /** Actuals [10, 11] against the baseline [9, 9]: MAE 1.5, MSE 2.5, MAPE 155/11 percent. */
  lemma WorkedExampleMetrics()
    ensures EvalMetrics([10.0, 11.0], [9.0, 9.0]) == Ok(Scores(1.5, 2.5, 155.0 / 11.0))
  {
    var yt, yp := [10.0, 11.0], [9.0, 9.0];
    var e := Errors(yt, yp);
    assert e == [1.0, 2.0];
    assert e[..1] == [1.0];
    assert [1.0][..0] == [];
    assert yt[..1] == [10.0] && yp[..1] == [9.0];
    assert [10.0][..0] == [] && [9.0][..0] == [];
    assert SumApe(yt, yp) == 1.0 / 10.0 + 2.0 / 11.0;
  }
}
