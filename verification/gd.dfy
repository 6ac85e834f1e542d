/** `GradientDescentOptimizer::step`: the plain update `p -= lr * g`, applied in place
    to a parameter vector given a gradient vector of the same length. */
module GradientDescent {
  import opened Base

  const LengthMismatch: string := "Parameters are not same size as the gradient!"

  /** The optimizer: a name (never read) and a learning rate. */
  datatype GradientDescentOptimizer = GradientDescentOptimizer(name: string, lr: real)

  /** The rule applied to one parameter: `p -= lr * g`. */
  function Update(p: real, g: real, lr: real): real {
    p - lr * g
  }

  /** The reference update: every parameter moved against its own gradient by `lr`. */
  function Descend(params: seq<real>, grads: seq<real>, lr: real): (r: seq<real>)
    requires |params| == |grads|
    ensures |r| == |params|
    ensures forall i :: 0 <= i < |params| ==> r[i] == Update(params[i], grads[i], lr)
    decreases |params|
  {
    if |params| == 0 then []
    else [Update(params[0], grads[0], lr)] + Descend(params[1..], grads[1..], lr)
  }

  /** `step`: asserts equal lengths, then walks the zipped pair updating each
      parameter in place. Returns the new parameter vector; `grads` and the
      optimizer are passed by value and so cannot change. */
  method Step(opt: GradientDescentOptimizer, params: seq<real>, grads: seq<real>) returns (r: Outcome<seq<real>>)
    ensures r.Panicked? <==> |params| != |grads|
    ensures r.Panicked? ==> r.panic == AssertFailed(LengthMismatch)
    ensures r.Done? ==> |r.value| == |params|
    ensures r.Done? ==> forall i :: 0 <= i < |params| ==> r.value[i] == Update(params[i], grads[i], opt.lr)
    ensures r.Done? ==> r.value == Descend(params, grads, opt.lr)
  {
    if |params| != |grads| {
      return Panicked(AssertFailed(LengthMismatch));
    }
    var p := params;
    var i := 0;
    while i < |p|
      invariant 0 <= i <= |p| && |p| == |params|
      invariant forall j :: 0 <= j < i ==> p[j] == Update(params[j], grads[j], opt.lr)
      invariant forall j :: i <= j < |p| ==> p[j] == params[j]
    {
      p := p[i := Update(p[i], grads[i], opt.lr)];
      i := i + 1;
    }
    assert p == Descend(params, grads, opt.lr) by {
      var q := Descend(params, grads, opt.lr);
      assert forall j :: 0 <= j < |p| ==> p[j] == q[j];
    }
    return Done(p);
  }

  /** A step with rate `-lr` undoes a step with rate `lr` on the same gradients. */
  lemma StepUndone(params: seq<real>, grads: seq<real>, lr: real)
    requires |params| == |grads|
    ensures Descend(Descend(params, grads, lr), grads, -lr) == params
  {
    var back := Descend(Descend(params, grads, lr), grads, -lr);
    forall i | 0 <= i < |params|
      ensures back[i] == params[i]
    {
      UpdateLaws(params[i], grads[i], lr, -lr);
    }
  }

  /** Two steps on the same gradients are one step with the summed rate. */
  lemma StepsCompose(params: seq<real>, grads: seq<real>, a: real, b: real)
    requires |params| == |grads|
    ensures Descend(Descend(params, grads, a), grads, b) == Descend(params, grads, a + b)
  {
    var two := Descend(Descend(params, grads, a), grads, b);
    var one := Descend(params, grads, a + b);
    forall i | 0 <= i < |params|
      ensures two[i] == one[i]
    {
      UpdateLaws(params[i], grads[i], a, b);
    }
  }

  /** A zero learning rate leaves every parameter where it was, and a zero gradient
      entry leaves its own parameter where it was. */
  lemma ZeroRateOrGradientKeepsParams(params: seq<real>, grads: seq<real>, lr: real, i: nat)
    requires |params| == |grads| && i < |params|
    ensures Descend(params, grads, 0.0) == params
    ensures grads[i] == 0.0 ==> Descend(params, grads, lr)[i] == params[i]
  {
    var still := Descend(params, grads, 0.0);
    forall j | 0 <= j < |params|
      ensures still[j] == params[j]
    {
      UpdateLaws(params[j], grads[j], 0.0, 0.0);
    }
    UpdateLaws(params[i], grads[i], lr, 0.0);
  }

  /** With a positive rate, the update moves a parameter against the sign of its
      gradient, and leaves it where it is for a zero gradient. */
  lemma UpdateDirection(p: real, g: real, lr: real)
    requires lr > 0.0
    ensures g > 0.0 ==> Update(p, g, lr) < p
    ensures g < 0.0 ==> Update(p, g, lr) > p
    ensures g == 0.0 ==> Update(p, g, lr) == p
  {
    if g > 0.0 {
      ProductPositive(lr, g, lr * g);
    } else if g < 0.0 {
      ProductPositive(lr, -g, lr * (-g));
    }
  }

  /** The algebra of one update: rates add, opposite rates cancel, and a zero rate or
      a zero gradient changes nothing. */
  lemma UpdateLaws(p: real, g: real, a: real, b: real)
    ensures Update(Update(p, g, a), g, b) == Update(p, g, a + b)
    ensures b == -a ==> Update(Update(p, g, a), g, b) == p
    ensures Update(p, g, 0.0) == p
    ensures g == 0.0 ==> Update(p, g, a) == p
  {
    assert (a + b) * g == a * g + b * g;
  }
}
