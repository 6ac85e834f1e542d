/** The dynamic `ReLU` layer: element-wise `max(x, 0)` over a vector of a fixed width,
    caching its INPUT for the backward pass, whose gate is the sign of that input. */
module ReluLayer {
  import opened Base

  const DimensionMismatch: string := "Input dimension mismatch"
  const ForwardFirst: string := "Must call forward before backward"

  datatype Relu = Relu(dim: nat, cachedInput: Option<seq<real>>)

  /** `ReLU::new`. */
  function New(dim: nat): (r: Relu)
    ensures r.dim == dim && r.cachedInput == None
  {
    Relu(dim, None)
  }

  /** `f32::max(x, 0.0)` over the reals: the least upper bound of `x` and 0. */
  function Max0(x: real): (y: real)
    ensures y >= x && y >= 0.0
    ensures y == x || y == 0.0
  {
    if x > 0.0 then x else 0.0
  }

  /** `forward`: panics unless the input has width `dim`; otherwise caches the input
      (not the output) and returns the rectified vector. */
  function Forward(r: Relu, input: seq<real>): (o: Outcome<(Relu, seq<real>)>)
    ensures o.Done? <==> |input| == r.dim
    ensures o.Panicked? ==> o.panic == AssertFailed(DimensionMismatch)
    ensures o.Done? ==> o.value.0 == r.(cachedInput := Some(input))
    ensures o.Done? ==>
      && |o.value.1| == r.dim
      && forall i :: 0 <= i < r.dim ==>
           o.value.1[i] >= 0.0 && o.value.1[i] >= input[i]
           && (o.value.1[i] == input[i] || o.value.1[i] == 0.0)
  {
    if |input| != r.dim then Panicked(AssertFailed(DimensionMismatch))
    else Done((r.(cachedInput := Some(input)), seq(|input|, i requires 0 <= i < |input| => Max0(input[i]))))
  }

  /** The derivative of `max(x, 0)` the source uses: 1 for positive `x`, else 0. */
  function Gate(x: real): real {
    if x > 0.0 then 1.0 else 0.0
  }

  /** `backward`: panics when nothing is cached; otherwise gates the incoming gradient
      by the sign of the cached input. The zip truncates to the shorter of the two,
      since the gradient's length is not checked. The layer is left as it was. */
  function Backward(r: Relu, gradOutput: seq<real>): (o: Outcome<(Relu, seq<real>)>)
    ensures o.Panicked? <==> r.cachedInput.None?
    ensures o.Panicked? ==> o.panic == ExpectFailed(ForwardFirst)
    ensures o.Done? ==>
      && o.value.0 == r
      && |o.value.1| == Min(|r.cachedInput.value|, |gradOutput|)
      && forall i :: 0 <= i < |o.value.1| ==> o.value.1[i] == gradOutput[i] * Gate(r.cachedInput.value[i])
  {
    match r.cachedInput
    case None => Panicked(ExpectFailed(ForwardFirst))
    case Some(x) =>
      var n := Min(|x|, |gradOutput|);
      Done((r, seq(n, i requires 0 <= i < n => if x[i] > 0.0 then gradOutput[i] else 0.0)))
  }

  /** `zero_grad` has an empty body: the layer has no gradients and keeps its cache. */
  function ZeroGrad(r: Relu): Relu {
    r
  }

  /** Applying the layer to its own output changes nothing: ReLU is idempotent. */
  lemma ForwardIdempotent(r: Relu, input: seq<real>)
    requires |input| == r.dim
    ensures var (r1, y) := Forward(r, input).value;
            Forward(r1, y).Done? && Forward(r1, y).value.1 == y
  {
  }

  /** After a forward pass the gradient passes exactly where the OUTPUT was positive,
      and a gradient of the layer's width comes back with that width. */
  lemma ForwardThenBackward(r: Relu, input: seq<real>, gradOutput: seq<real>)
    requires |input| == r.dim
    ensures var (r1, y) := Forward(r, input).value;
            var o := Backward(r1, gradOutput);
            && o.Done?
            && (|gradOutput| == r.dim ==> |o.value.1| == r.dim)
            && forall i :: 0 <= i < |o.value.1| ==>
                 (y[i] > 0.0 ==> o.value.1[i] == gradOutput[i]) && (y[i] == 0.0 ==> o.value.1[i] == 0.0)
  {
  }

  /** Backward on a fresh layer, before any forward, panics. */
  lemma BackwardBeforeForwardPanics(dim: nat, gradOutput: seq<real>)
    ensures Backward(New(dim), gradOutput) == Panicked(ExpectFailed(ForwardFirst))
  {
  }

  /** A call a client may make on a layer after `forward`. */
  datatype Op = ZeroGradOp | BackwardOp(gradOutput: seq<real>)

  /** The layer after a sequence of `zero_grad` and `backward` calls, in order, or
      the first panic. */
  function Replay(r: Relu, ops: seq<Op>): Outcome<Relu>
    decreases |ops|
  {
    if |ops| == 0 then Done(r)
    else
      match ops[0]
      case ZeroGradOp => Replay(ZeroGrad(r), ops[1..])
      case BackwardOp(g) =>
        match Backward(r, g)
        case Panicked(p) => Panicked(p)
        case Done(v) => Replay(v.0, ops[1..])
  }

  /** Neither `backward` nor `zero_grad` touches a filled cache: any interleaving of
      them succeeds and leaves the layer exactly as it was. */
  lemma {:induction false} ReplayKeepsLayer(r: Relu, ops: seq<Op>)
    requires r.cachedInput.Some?
    ensures Replay(r, ops) == Done(r)
    decreases |ops|
  {
    if |ops| > 0 {
      ReplayKeepsLayer(r, ops[1..]);
    }
  }

  /** Once `forward` has run, `backward` keeps succeeding, with the same result,
      after any interleaving of `zero_grad` and `backward` calls. */
  lemma BackwardAfterZeroGrad(r: Relu, input: seq<real>, ops: seq<Op>, g: seq<real>)
    requires |input| == r.dim
    ensures var r1 := Forward(r, input).value.0;
            && Replay(r1, ops) == Done(r1)
            && Backward(Replay(r1, ops).value, g).Done?
            && Backward(Replay(r1, ops).value, g) == Backward(r1, g)
  {
    ReplayKeepsLayer(Forward(r, input).value.0, ops);
  }
}
