/** The const-generic, enum-dispatched `ActivationFunction<INPUT_DIM, OUTPUT_DIM>`
    draft: forward only (its backward is an unimplemented stub), caching its input. */
module Activation {
  import opened Base
  import ReluLayer
  import TanhLayer

  const InputDimMismatch: string := "Input dim must match const generic"
  const OutputDimMismatch: string := "Output dim must match const generic"
  const SquareRequired: string := "Activation functions require INPUT_DIM == OUTPUT_DIM"
  const BackwardTodo: string := "Implement backward pass for activations"

  /** The `Activation` enum. */
  datatype Kind = Tanh | ReLU

  /** `constIn`/`constOut` are the const parameters INPUT_DIM/OUTPUT_DIM;
      `inputDim`/`outputDim` are the runtime fields that must agree with them. */
  datatype ActivationFunction = ActivationFunction(
    activation: Kind,
    constIn: nat,
    constOut: nat,
    inputDim: nat,
    outputDim: nat,
    grad: seq<real>,
    cachedInput: Option<seq<real>>)

  /** The lengths Rust's array types guarantee: `grad: [f32; OUTPUT_DIM]` and
      `cached_input: Option<[f32; INPUT_DIM]>`. */
  predicate Typed(a: ActivationFunction) {
    && |a.grad| == a.constOut
    && (a.cachedInput.Some? ==> |a.cachedInput.value| == a.constIn)
  }

  /** What `_validate_dimensions` asserts. */
  predicate DimensionsValid(a: ActivationFunction) {
    a.inputDim == a.constIn && a.outputDim == a.constOut
  }

  /** `_validate_dimensions`: passes exactly when both runtime fields match the const
      parameters; the input check fires first. */
  function ValidateDimensions(a: ActivationFunction): (r: Outcome<()>)
    ensures r.Done? <==> DimensionsValid(a)
    ensures a.inputDim != a.constIn ==> r == Panicked(AssertFailed(InputDimMismatch))
    ensures a.inputDim == a.constIn && a.outputDim != a.constOut ==> r == Panicked(AssertFailed(OutputDimMismatch))
  {
    if a.inputDim != a.constIn then Panicked(AssertFailed(InputDimMismatch))
    else if a.outputDim != a.constOut then Panicked(AssertFailed(OutputDimMismatch))
    else Done(())
  }

  /** `input_dim`: validates, then reports INPUT_DIM. */
  function InputDim(a: ActivationFunction): (r: Outcome<nat>)
    ensures r.Done? <==> DimensionsValid(a)
    ensures r.Done? ==> r.value == a.constIn
  {
    match ValidateDimensions(a)
    case Panicked(p) => Panicked(p)
    case Done(_) => Done(a.constIn)
  }

  /** `output_dim`: validates, then reports OUTPUT_DIM. */
  function OutputDim(a: ActivationFunction): (r: Outcome<nat>)
    ensures r.Done? <==> DimensionsValid(a)
    ensures r.Done? ==> r.value == a.constOut
  {
    match ValidateDimensions(a)
    case Panicked(p) => Panicked(p)
    case Done(_) => Done(a.constOut)
  }

  /** One element of the activation: `tanh(x)`, or `x` if `x > 0` else 0. */
  function Apply(kind: Kind, x: real, tanh: real -> real): real {
    match kind
    case Tanh => tanh(x)
    case ReLU => if x > 0.0 then x else 0.0
  }

  /** `forward`: validates, insists on a square layer, maps the activation over the
      input and caches the input. Every panic is an assertion. */
  function Forward(a: ActivationFunction, input: seq<real>, tanh: real -> real): (r: Outcome<(ActivationFunction, seq<real>)>)
    requires Typed(a) && |input| == a.constIn
    ensures r.Done? <==> DimensionsValid(a) && a.constIn == a.constOut
    ensures r.Panicked? ==> r.panic.AssertFailed?
    ensures DimensionsValid(a) && a.constIn != a.constOut ==> r == Panicked(AssertFailed(SquareRequired))
    ensures r.Done? ==>
      && r.value.0 == a.(cachedInput := Some(input))
      && Typed(r.value.0)
      && |r.value.1| == a.constOut
    ensures r.Done? && a.activation == ReLU ==>
      forall i :: 0 <= i < |r.value.1| ==> r.value.1[i] >= 0.0 && (input[i] > 0.0 ==> r.value.1[i] == input[i])
    ensures r.Done? && a.activation == Tanh ==>
      forall i :: 0 <= i < |r.value.1| ==> r.value.1[i] == tanh(input[i])
  {
    match ValidateDimensions(a)
    case Panicked(p) => Panicked(p)
    case Done(_) =>
      if a.constIn != a.constOut then Panicked(AssertFailed(SquareRequired))
      else
        var output := seq(a.constIn, i requires 0 <= i < a.constIn => Apply(a.activation, input[i], tanh));
        Done((a.(cachedInput := Some(input)), output))
  }

  /** The draft's ReLU branch computes the same vector as the dynamic `ReLU` layer. */
  lemma ReluBranchAgreesWithReluLayer(a: ActivationFunction, input: seq<real>, tanh: real -> real)
    requires Typed(a) && |input| == a.constIn && a.activation == ReLU
    requires Forward(a, input, tanh).Done?
    ensures ReluLayer.Forward(ReluLayer.New(a.constIn), input).Done?
    ensures Forward(a, input, tanh).value.1 == ReluLayer.Forward(ReluLayer.New(a.constIn), input).value.1
  {
  }

  /** The draft's Tanh branch computes the same vector as the dynamic `Tanh` layer. */
  lemma TanhBranchAgreesWithTanhLayer(a: ActivationFunction, input: seq<real>, tanh: real -> real)
    requires Typed(a) && |input| == a.constIn && a.activation == Tanh
    requires Forward(a, input, tanh).Done?
    ensures TanhLayer.Forward(TanhLayer.New(a.constIn), input, tanh).Done?
    ensures Forward(a, input, tanh).value.1 == TanhLayer.Forward(TanhLayer.New(a.constIn), input, tanh).value.1
  {
  }

  /** `backward` is a `todo!`: it validates and then panics unconditionally, so it is
      modelled by the panic it raises. */
  function Backward(a: ActivationFunction, gradOutput: seq<real>): (p: Panic)
    requires Typed(a) && |gradOutput| == a.constOut
    ensures p.Unimplemented? <==> DimensionsValid(a)
    ensures !p.Unimplemented? ==> p.AssertFailed?
  {
    match ValidateDimensions(a)
    case Panicked(q) => q
    case Done(_) => Unimplemented(BackwardTodo)
  }

  /** `zero_grad`: zero the `grad` array and drop the cache; nothing else changes. */
  function ZeroGrad(a: ActivationFunction): (a': ActivationFunction)
    ensures |a'.grad| == |a.grad| && AllZero(a'.grad)
    ensures a'.cachedInput == None
    ensures a' == a.(grad := a'.grad, cachedInput := None)
  {
    a.(grad := Fill0(a.grad), cachedInput := None)
  }

  /** Zeroing twice is zeroing once, and it keeps the layer well-shaped and valid. */
  lemma ZeroGradIdempotent(a: ActivationFunction)
    ensures ZeroGrad(ZeroGrad(a)) == ZeroGrad(a)
    ensures Typed(a) ==> Typed(ZeroGrad(a))
    ensures DimensionsValid(a) <==> DimensionsValid(ZeroGrad(a))
  {
  }
}
