/** The dynamic `Tanh` layer: element-wise hyperbolic tangent, caching its OUTPUT,
    from which the backward pass reads the derivative `1 - t^2`. The numeric
    definition of tanh is not modelled: it is passed in as `tanh`. */
module TanhLayer {
  import opened Base

  const DimensionMismatch: string := "Input dimension mismatch"
  const ForwardFirst: string := "Must call forward before backward"

  datatype Tanh = Tanh(dim: nat, cachedOutput: Option<seq<real>>)

  /** `Tanh::new`. */
  function New(dim: nat): (t: Tanh)
    ensures t.dim == dim && t.cachedOutput == None
  {
    Tanh(dim, None)
  }

  /** `forward`: panics unless the input has width `dim`; otherwise returns the
      element-wise tanh and caches exactly the vector it returns. */
  function Forward(t: Tanh, input: seq<real>, tanh: real -> real): (o: Outcome<(Tanh, seq<real>)>)
    ensures o.Done? <==> |input| == t.dim
    ensures o.Panicked? ==> o.panic == AssertFailed(DimensionMismatch)
    ensures o.Done? ==> o.value.0.dim == t.dim && o.value.0.cachedOutput == Some(o.value.1)
    ensures o.Done? ==>
      && |o.value.1| == t.dim
      && forall i :: 0 <= i < t.dim ==> o.value.1[i] == tanh(input[i])
  {
    if |input| != t.dim then Panicked(AssertFailed(DimensionMismatch))
    else
      var output := seq(|input|, i requires 0 <= i < |input| => tanh(input[i]));
      Done((t.(cachedOutput := Some(output)), output))
  }

  /** The local derivative read from a cached output `y = tanh(x)`. */
  function Slope(y: real): real {
    1.0 - y * y
  }

  /** `backward`: panics when nothing is cached; otherwise scales each incoming
      gradient by `1 - t^2`. The zip truncates to the shorter of the two, since the
      gradient's length is not checked. The layer is left as it was. */
  function Backward(t: Tanh, gradOutput: seq<real>): (o: Outcome<(Tanh, seq<real>)>)
    ensures o.Panicked? <==> t.cachedOutput.None?
    ensures o.Panicked? ==> o.panic == ExpectFailed(ForwardFirst)
    ensures o.Done? ==>
      && o.value.0 == t
      && |o.value.1| == Min(|t.cachedOutput.value|, |gradOutput|)
      && forall i :: 0 <= i < |o.value.1| ==> o.value.1[i] == gradOutput[i] * Slope(t.cachedOutput.value[i])
  {
    match t.cachedOutput
    case None => Panicked(ExpectFailed(ForwardFirst))
    case Some(y) =>
      var n := Min(|y|, |gradOutput|);
      Done((t, seq(n, i requires 0 <= i < n => gradOutput[i] * (1.0 - y[i] * y[i]))))
  }

  /** `zero_grad` has an empty body: the layer has no gradients and keeps its cache. */
  function ZeroGrad(t: Tanh): Tanh {
    t
  }

  /** Where the cached output is 0 the gradient passes through unchanged, and where
      it is +1 or -1 (saturation) the gradient is blocked. */
  lemma BackwardAtZeroAndSaturation(t: Tanh, gradOutput: seq<real>, i: nat)
    requires t.cachedOutput.Some?
    requires i < |t.cachedOutput.value| && i < |gradOutput|
    ensures Backward(t, gradOutput).Done?
    ensures t.cachedOutput.value[i] == 0.0 ==> Backward(t, gradOutput).value.1[i] == gradOutput[i]
    ensures t.cachedOutput.value[i] * t.cachedOutput.value[i] == 1.0 ==> Backward(t, gradOutput).value.1[i] == 0.0
  {
  }

  /** After a forward pass on `x`, backward returns the chain rule
      `g[i] * (1 - tanh(x[i])^2)`, of the layer's width when `g` has that width. */
  lemma ForwardThenBackward(t: Tanh, input: seq<real>, gradOutput: seq<real>, tanh: real -> real)
    requires |input| == t.dim
    ensures var t1 := Forward(t, input, tanh).value.0;
            var o := Backward(t1, gradOutput);
            && o.Done?
            && (|gradOutput| == t.dim ==> |o.value.1| == t.dim)
            && forall i :: 0 <= i < |o.value.1| ==>
                 o.value.1[i] == gradOutput[i] * (1.0 - tanh(input[i]) * tanh(input[i]))
  {
  }

  /** Backward on a fresh layer, before any forward, panics. */
  lemma BackwardBeforeForwardPanics(dim: nat, gradOutput: seq<real>)
    ensures Backward(New(dim), gradOutput) == Panicked(ExpectFailed(ForwardFirst))
  {
  }

  /** A call a client may make on a layer after `forward`. */
  datatype Op = ZeroGradOp | BackwardOp(gradOutput: seq<real>)

  /** The layer after a sequence of `zero_grad` and `backward` calls, in order, or
      the first panic. */
  function Replay(t: Tanh, ops: seq<Op>): Outcome<Tanh>
    decreases |ops|
  {
    if |ops| == 0 then Done(t)
    else
      match ops[0]
      case ZeroGradOp => Replay(ZeroGrad(t), ops[1..])
      case BackwardOp(g) =>
        match Backward(t, g)
        case Panicked(p) => Panicked(p)
        case Done(v) => Replay(v.0, ops[1..])
  }

  /** Neither `backward` nor `zero_grad` touches a filled cache: any interleaving of
      them succeeds and leaves the layer exactly as it was. */
  lemma {:induction false} ReplayKeepsLayer(t: Tanh, ops: seq<Op>)
    requires t.cachedOutput.Some?
    ensures Replay(t, ops) == Done(t)
    decreases |ops|
  {
    if |ops| > 0 {
      ReplayKeepsLayer(t, ops[1..]);
    }
  }

  /** Once `forward` has run, `backward` keeps succeeding, with the same result,
      after any interleaving of `zero_grad` and `backward` calls. */
  lemma BackwardAfterZeroGrad(t: Tanh, input: seq<real>, ops: seq<Op>, g: seq<real>, tanh: real -> real)
    requires |input| == t.dim
    ensures var t1 := Forward(t, input, tanh).value.0;
            && Replay(t1, ops) == Done(t1)
            && Backward(Replay(t1, ops).value, g).Done?
            && Backward(Replay(t1, ops).value, g) == Backward(t1, g)
  {
    ReplayKeepsLayer(Forward(t, input, tanh).value.0, ops);
  }
}
