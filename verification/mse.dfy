/** `MSELoss`: mean squared error between a prediction and a target vector, and its
    gradient with respect to the prediction. */
module Mse {
  import opened Base
  import GradientDescent

  const ShapeMismatch: string := "Shape of predictions does not match shape of target!"

  /** The sum of squared differences, accumulated in index order. */
  function SquaredError(pred: seq<real>, target: seq<real>): (s: real)
    requires |pred| == |target|
    ensures s >= 0.0
    decreases |pred|
  {
    if |pred| == 0 then 0.0
    else
      var d := pred[|pred| - 1] - target[|pred| - 1];
      SquareFacts(d);
      SquaredError(pred[..|pred| - 1], target[..|pred| - 1]) + Square(d)
  }

  /** `diff * diff`. Kept behind a name so that the solver reasons about the square
      as one term. */
  function Square(x: real): real {
    x * x
  }

  /** The binomial expansion of `(d + h)^2`. */
  lemma SquareOfSum(d: real, h: real)
    ensures Square(d + h) == Square(d) + 2.0 * h * d + Square(h)
  {
  }

  /** A real square is nonnegative and vanishes only at zero. */
  lemma SquareFacts(x: real)
    ensures Square(x) >= 0.0
    ensures Square(x) == 0.0 <==> x == 0.0
  {
    if x != 0.0 {
      ProductPositive(x, x, Square(x));
    }
  }

  /** Over the reals the squared error vanishes exactly when the vectors are equal. */
  lemma {:induction false} SquaredErrorZeroIff(pred: seq<real>, target: seq<real>)
    requires |pred| == |target|
    ensures SquaredError(pred, target) == 0.0 <==> pred == target
    decreases |pred|
  {
    if |pred| > 0 {
      var n := |pred| - 1;
      SquaredErrorZeroIff(pred[..n], target[..n]);
      var rest := SquaredError(pred[..n], target[..n]);
      var d := pred[n] - target[n];
      SquareFacts(d);
      assert SquaredError(pred, target) == rest + Square(d);
      assert pred == pred[..n] + [pred[n]];
      assert target == target[..n] + [target[n]];
      if pred == target {
        assert pred[..n] == target[..n];
      }
    }
  }

  /** Replacing prediction `i` by `v` swaps that entry's square and leaves the
      other terms of the sum alone. */
  lemma {:induction false} SquaredErrorReplace(pred: seq<real>, target: seq<real>, i: nat, v: real)
    requires |pred| == |target| && i < |pred|
    ensures SquaredError(pred[i := v], target)
         == SquaredError(pred, target) - Square(pred[i] - target[i]) + Square(v - target[i])
    decreases |pred|
  {
    var n := |pred| - 1;
    var moved := pred[i := v];
    assert SquaredError(moved, target) == SquaredError(moved[..n], target[..n]) + Square(moved[n] - target[n]);
    assert SquaredError(pred, target) == SquaredError(pred[..n], target[..n]) + Square(pred[n] - target[n]);
    if i < n {
      assert moved[..n] == pred[..n][i := v];
      assert moved[n] == pred[n];
      SquaredErrorReplace(pred[..n], target[..n], i, v);
      assert pred[..n][i] == pred[i] && target[..n][i] == target[i];
    } else {
      assert moved[..n] == pred[..n];
    }
  }

  /** Moving one prediction by `h` changes the squared error by exactly
      `2 h (pred[i] - target[i]) + h^2`. */
  lemma SquaredErrorPerturbation(pred: seq<real>, target: seq<real>, i: nat, h: real)
    requires |pred| == |target| && i < |pred|
    ensures SquaredError(pred[i := pred[i] + h], target)
         == SquaredError(pred, target) + 2.0 * h * (pred[i] - target[i]) + Square(h)
  {
    SquaredErrorReplace(pred, target, i, pred[i] + h);
    assert pred[i] + h - target[i] == (pred[i] - target[i]) + h;
    SquareOfSum(pred[i] - target[i], h);
  }

  /** `compute_loss`: panics on a shape mismatch; otherwise the mean of the squared
      differences. The source divides by zero on two empty vectors (a NaN in `f32`),
      so callers here must not pass two empty vectors. */
  function ComputeLoss(pred: seq<real>, target: seq<real>): (r: Outcome<real>)
    requires |pred| == |target| ==> |pred| > 0
    ensures r.Done? <==> |pred| == |target|
    ensures r.Panicked? ==> r.panic == AssertFailed(ShapeMismatch)
    ensures r.Done? ==> r.value >= 0.0 && r.value * (|pred| as real) == SquaredError(pred, target)
  {
    if |pred| != |target| then Panicked(AssertFailed(ShapeMismatch))
    else Done(SquaredError(pred, target) / (|pred| as real))
  }

  /** The loss is zero exactly when the prediction equals the target. */
  lemma LossZeroIff(pred: seq<real>, target: seq<real>)
    requires |pred| == |target| && |pred| > 0
    ensures ComputeLoss(pred, target).value == 0.0 <==> pred == target
  {
    SquaredErrorZeroIff(pred, target);
  }

  /** `compute_gradient`: panics on a shape mismatch; otherwise `2 (p - t) / n` per
      entry, one entry per prediction (none for empty vectors). */
  function ComputeGradient(pred: seq<real>, target: seq<real>): (r: Outcome<seq<real>>)
    ensures r.Done? <==> |pred| == |target|
    ensures r.Panicked? ==> r.panic == AssertFailed(ShapeMismatch)
    ensures r.Done? ==> |r.value| == |pred|
    ensures r.Done? ==> forall i :: 0 <= i < |pred| ==> r.value[i] * (|pred| as real) == 2.0 * (pred[i] - target[i])
  {
    if |pred| != |target| then Panicked(AssertFailed(ShapeMismatch))
    else
      var n := |pred| as real;
      Done(seq(|pred|, i requires 0 <= i < |pred| => 2.0 * (pred[i] - target[i]) / n))
  }

  /** The gradient is all zeros exactly when the prediction equals the target. */
  lemma GradientZeroIff(pred: seq<real>, target: seq<real>)
    requires |pred| == |target|
    ensures AllZero(ComputeGradient(pred, target).value) <==> pred == target
  {
    var g := ComputeGradient(pred, target).value;
    var n := |pred| as real;
    if AllZero(g) {
      forall i | 0 <= i < |pred|
        ensures pred[i] == target[i]
      {
        assert g[i] * n == 2.0 * (pred[i] - target[i]);
      }
    }
  }

  /** Each gradient entry has the sign of `pred[i] - target[i]`. */
  lemma GradientSign(pred: seq<real>, target: seq<real>, i: nat)
    requires |pred| == |target| && i < |pred|
    ensures ComputeGradient(pred, target).value[i] > 0.0 <==> pred[i] > target[i]
    ensures ComputeGradient(pred, target).value[i] < 0.0 <==> pred[i] < target[i]
  {
    var g := ComputeGradient(pred, target).value[i];
    var n := |pred| as real;
    assert g * n == 2.0 * (pred[i] - target[i]);
    if g > 0.0 {
      ProductPositive(g, n, g * n);
    } else if g < 0.0 {
      ProductPositive(-g, n, (-g) * n);
      assert (-g) * n == -(g * n);
    } else {
      assert g * n == 0.0 * n;
    }
  }

  function Abs(x: real): real {
    if x < 0.0 then -x else x
  }

  /** With `g * n == 2 d` and a rate strictly between 0 and `n`, the new difference
      `d - lr * g` is strictly smaller in magnitude than `d`. */
  lemma ShrinkFactor(d: real, g: real, n: real, lr: real)
    requires n > 0.0 && 0.0 < lr < n && d != 0.0
    requires g * n == 2.0 * d
    ensures Abs(d - lr * g) < Abs(d)
  {
    if d > 0.0 {
      assert g > 0.0;
      ProductPositive(lr, g, lr * g);
      ProductPositive(n - lr, g, (n - lr) * g);
      assert (n - lr) * g == n * g - lr * g;
    } else {
      assert g < 0.0;
      ProductPositive(lr, -g, lr * (-g));
      ProductPositive(n - lr, -g, (n - lr) * (-g));
      assert (n - lr) * (-g) == lr * g - n * g;
    }
  }

  /** A gradient-descent update of one prediction with a positive rate moves it
      toward its target: down when it is above, up when it is below, not at all when
      it is on target. It ends strictly closer only when the rate is below `n`; at
      larger rates it may overshoot (`StepOvershoots`). */
  lemma StepTowardTarget(pred: seq<real>, target: seq<real>, i: nat, lr: real)
    requires |pred| == |target| && i < |pred| && lr > 0.0
    ensures pred[i] > target[i] ==> GradientDescent.Update(pred[i], ComputeGradient(pred, target).value[i], lr) < pred[i]
    ensures pred[i] < target[i] ==> GradientDescent.Update(pred[i], ComputeGradient(pred, target).value[i], lr) > pred[i]
    ensures pred[i] == target[i] ==> GradientDescent.Update(pred[i], ComputeGradient(pred, target).value[i], lr) == pred[i]
    ensures lr < |pred| as real && pred[i] != target[i] ==>
      Abs(GradientDescent.Update(pred[i], ComputeGradient(pred, target).value[i], lr) - target[i]) < Abs(pred[i] - target[i])
  {
    GradientSign(pred, target, i);
    GradientDescent.UpdateDirection(pred[i], ComputeGradient(pred, target).value[i], lr);
    if lr < |pred| as real && pred[i] != target[i] {
      ShrinkFactor(pred[i] - target[i], ComputeGradient(pred, target).value[i], |pred| as real, lr);
    }
  }

  /** With one prediction 1, target 0 and rate 2 (not below `n = 1`), the step lands
      at -3, farther from the target than it started. */
  lemma StepOvershoots()
    ensures ComputeGradient([1.0], [0.0]).value == [2.0]
    ensures GradientDescent.Update(1.0, 2.0, 2.0) == -3.0
    ensures Abs(-3.0 - 0.0) > Abs(1.0 - 0.0)
  {
    assert ComputeGradient([1.0], [0.0]).value[0] * 1.0 == 2.0 * (1.0 - 0.0);
  }
}
