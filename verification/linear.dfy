/** The const-generic `LinearLayer<INPUT_DIM, OUTPUT_DIM>` draft: an affine map
    `W x + b` with `W` stored row-major in a flat vector, a cache of the last input,
    and gradient accumulators. Its backward pass is an unimplemented stub. */
module Linear {
  import opened Base
  import Util

  const WeightsMismatch: string := "Weights must match dimensions"
  const GradMismatch: string := "Grad must match dimensions"
  const BiasesMismatch: string := "Biases must match dimensions"
  const BoundsExpect: string :=
    "Matrix-vector multiplication bounds check failed - this indicates a programming error"
  const BackwardTodo: string := "Implement this!"

  /** `inDim`/`outDim` are the const parameters INPUT_DIM/OUTPUT_DIM. `weights` and
      `gradWeights` are `Vec`s, so nothing but `ValidateDimensions` ties their length
      to the dimensions; the other sequences are fixed-size arrays (see `Typed`). */
  datatype LinearLayer = LinearLayer(
    inDim: nat,
    outDim: nat,
    weights: seq<real>,
    gradWeights: seq<real>,
    gradBiases: seq<real>,
    biases: seq<real>,
    biasEnabled: bool,
    cachedInput: Option<seq<real>>)

  /** The lengths Rust's array types guarantee: `[f32; OUTPUT_DIM]` for the biases
      and their gradient, `Option<[f32; INPUT_DIM]>` for the cache. */
  predicate Typed(l: LinearLayer) {
    && |l.gradBiases| == l.outDim
    && |l.biases| == l.outDim
    && (l.cachedInput.Some? ==> |l.cachedInput.value| == l.inDim)
  }

  /** What `_validate_dimensions` asserts. */
  predicate DimensionsValid(l: LinearLayer) {
    && |l.weights| == l.inDim * l.outDim
    && |l.gradWeights| == l.inDim * l.outDim
    && |l.biases| == l.outDim
  }

  /** `LinearLayer::new`: everything zero, bias on, nothing cached. */
  function New(inDim: nat, outDim: nat): (l: LinearLayer)
    ensures l.inDim == inDim && l.outDim == outDim
    ensures Typed(l) && DimensionsValid(l)
    ensures AllZero(l.weights) && AllZero(l.gradWeights)
    ensures AllZero(l.biases) && AllZero(l.gradBiases)
    ensures l.biasEnabled && l.cachedInput == None
  {
    LinearLayer(inDim, outDim, Zeros(inDim * outDim), Zeros(inDim * outDim),
                Zeros(outDim), Zeros(outDim), true, None)
  }

  /** `_validate_dimensions`: passes exactly when the stored lengths match the const
      parameters; otherwise the first failing `assert_eq!` panics. */
  function ValidateDimensions(l: LinearLayer): (r: Outcome<()>)
    ensures r.Done? <==> DimensionsValid(l)
    ensures r.Panicked? ==> r.panic.AssertFailed?
    ensures |l.weights| != l.inDim * l.outDim ==> r == Panicked(AssertFailed(WeightsMismatch))
    ensures |l.weights| == l.inDim * l.outDim && |l.gradWeights| != l.inDim * l.outDim ==>
      r == Panicked(AssertFailed(GradMismatch))
    ensures |l.weights| == l.inDim * l.outDim && |l.gradWeights| == l.inDim * l.outDim && |l.biases| != l.outDim ==>
      r == Panicked(AssertFailed(BiasesMismatch))
  {
    if |l.weights| != l.inDim * l.outDim then Panicked(AssertFailed(WeightsMismatch))
    else if |l.gradWeights| != l.inDim * l.outDim then Panicked(AssertFailed(GradMismatch))
    else if |l.biases| != l.outDim then Panicked(AssertFailed(BiasesMismatch))
    else Done(())
  }

  /** `input_dim`: validates, then reports INPUT_DIM. */
  function InputDim(l: LinearLayer): (r: Outcome<nat>)
    ensures r.Done? <==> DimensionsValid(l)
    ensures r.Done? ==> r.value == l.inDim
  {
    match ValidateDimensions(l)
    case Panicked(p) => Panicked(p)
    case Done(_) => Done(l.inDim)
  }

  /** `output_dim`: validates, then reports OUTPUT_DIM. */
  function OutputDim(l: LinearLayer): (r: Outcome<nat>)
    ensures r.Done? <==> DimensionsValid(l)
    ensures r.Done? ==> r.value == l.outDim
  {
    match ValidateDimensions(l)
    case Panicked(p) => Panicked(p)
    case Done(_) => Done(l.outDim)
  }

  /** The private `dot`, a copy of `util::flat_matrix_vector_dot` written as the
      source's loop; it has exactly the same contract. */
  method Dot(matrix: seq<real>, vec: seq<real>, start: nat) returns (r: Result<real>)
    ensures r.Err? <==> |vec| > 0 && start + |vec| > |matrix|
    ensures r.Err? ==> r.message == Util.OutOfBounds
    ensures r.Ok? ==> r.value == Util.WindowSum(matrix, vec, start)
    ensures r == Util.FlatMatrixVectorDot(matrix, vec, start)
  {
    var res := 0.0;
    var i := 0;
    while i < |vec|
      invariant 0 <= i <= |vec|
      invariant i == 0 || start + i <= |matrix|
      invariant res == Util.WindowSum(matrix, vec[..i], start)
    {
      if start + i >= |matrix| {
        return Err(Util.OutOfBounds);
      }
      assert vec[..i + 1][..i] == vec[..i];
      res := res + vec[i] * matrix[start + i];
      i := i + 1;
    }
    assert vec[..i] == vec;
    return Ok(res);
  }

  /** Row `i` of a valid layer starts at `i * INPUT_DIM` and ends inside the weights:
      the `.expect` in `forward` can never fire once the dimensions are validated. */
  lemma RowOffsetInBounds(i: nat, cols: nat, rows: nat)
    requires i < rows
    ensures i * cols + cols <= cols * rows
  {
    var k := rows - (i + 1);
    MulNonNegative(k, cols);
    assert cols * rows == cols * (i + 1) + cols * k;
  }

  lemma MulNonNegative(a: nat, b: nat)
    ensures a * b >= 0
  {
  }

  /** The reference value of output `i`: the sum over j < INPUT_DIM of
      weights[i * INPUT_DIM + j] * input[j], plus `biases[i]` when the bias is on. */
  function Affine(l: LinearLayer, input: seq<real>, i: nat): real
    requires DimensionsValid(l) && |input| == l.inDim && i < l.outDim
  {
    RowOffsetInBounds(i, l.inDim, l.outDim);
    Util.WindowSum(l.weights, input, i * l.inDim) + (if l.biasEnabled then l.biases[i] else 0.0)
  }

  /** Rows `i..OUTPUT_DIM` of the forward loop, in order; a failing row dot product
      would reach the `.expect`. */
  function ForwardRows(l: LinearLayer, input: seq<real>, i: nat): (r: Outcome<seq<real>>)
    requires Typed(l) && |input| == l.inDim && i <= l.outDim
    ensures r.Done? ==> |r.value| == l.outDim - i
    ensures DimensionsValid(l) ==>
      r.Done? && forall k :: 0 <= k < |r.value| ==> r.value[k] == Affine(l, input, i + k)
    decreases l.outDim - i
  {
    if i == l.outDim then Done([])
    else
      RowOffsetInBounds(i, l.inDim, l.outDim);
      match Util.FlatMatrixVectorDot(l.weights, input, i * l.inDim)
      case Err(_) => Panicked(ExpectFailed(BoundsExpect))
      case Ok(d) =>
        var row := d + (if l.biasEnabled then l.biases[i] else 0.0);
        match ForwardRows(l, input, i + 1)
        case Panicked(p) => Panicked(p)
        case Done(rest) => Done([row] + rest)
  }

  /** `forward`: validates, computes `W x (+ b)` row by row, caches the input and
      changes nothing else. Only a failed validation panics. */
  function Forward(l: LinearLayer, input: seq<real>): (r: Outcome<(LinearLayer, seq<real>)>)
    requires Typed(l) && |input| == l.inDim
    ensures r.Done? <==> DimensionsValid(l)
    ensures r.Panicked? ==> r.panic.AssertFailed?
    ensures r.Done? ==> r.value.0 == l.(cachedInput := Some(input)) && Typed(r.value.0)
    ensures r.Done? ==>
      && |r.value.1| == l.outDim
      && forall i :: 0 <= i < l.outDim ==> r.value.1[i] == Affine(l, input, i)
  {
    match ValidateDimensions(l)
    case Panicked(p) => Panicked(p)
    case Done(_) =>
      match ForwardRows(l, input, 0)
      case Panicked(p) => Panicked(p)
      case Done(res) => Done((l.(cachedInput := Some(input)), res))
  }

  /** With the bias switched off, the output does not depend on `biases`. */
  lemma ForwardIgnoresBiasesWhenDisabled(l: LinearLayer, input: seq<real>, otherBiases: seq<real>)
    requires Typed(l) && |input| == l.inDim && !l.biasEnabled
    requires |otherBiases| == l.outDim
    ensures var r1 := Forward(l, input);
            var r2 := Forward(l.(biases := otherBiases), input);
            r1.Done? == r2.Done? && (r1.Done? ==> r1.value.1 == r2.value.1)
  {
    var r1 := Forward(l, input);
    var r2 := Forward(l.(biases := otherBiases), input);
    if r1.Done? {
      forall i | 0 <= i < l.outDim
        ensures r1.value.1[i] == r2.value.1[i]
      {
        assert Affine(l, input, i) == Affine(l.(biases := otherBiases), input, i);
      }
    }
  }

  lemma {:induction false} WindowSumOfZeros(matrix: seq<real>, vec: seq<real>, start: nat)
    requires start + |vec| <= |matrix|
    requires AllZero(matrix)
    ensures Util.WindowSum(matrix, vec, start) == 0.0
    decreases |vec|
  {
    if |vec| > 0 {
      WindowSumOfZeros(matrix, vec[..|vec| - 1], start);
    }
  }

  /** A freshly built layer maps every input to the zero vector. */
  lemma NewLayerOutputsZero(inDim: nat, outDim: nat, input: seq<real>)
    requires |input| == inDim
    ensures Forward(New(inDim, outDim), input).Done?
    ensures Forward(New(inDim, outDim), input).value.1 == Zeros(outDim)
  {
    var l := New(inDim, outDim);
    var out := Forward(l, input).value.1;
    forall i | 0 <= i < outDim
      ensures out[i] == 0.0
    {
      RowOffsetInBounds(i, inDim, outDim);
      WindowSumOfZeros(l.weights, input, i * inDim);
    }
  }

  /** `backward` is a `todo!`: it validates and then panics unconditionally, so it is
      modelled by the panic it raises. */
  function Backward(l: LinearLayer, gradOutput: seq<real>): (p: Panic)
    requires Typed(l) && |gradOutput| == l.outDim
    ensures p.Unimplemented? <==> DimensionsValid(l)
    ensures !p.Unimplemented? ==> p.AssertFailed?
  {
    match ValidateDimensions(l)
    case Panicked(q) => q
    case Done(_) => Unimplemented(BackwardTodo)
  }

  /** `zero_grad`: zero both accumulators in place (lengths kept) and drop the cache;
      the weights, biases and dimensions are untouched. No validation happens. */
  function ZeroGrad(l: LinearLayer): (l': LinearLayer)
    ensures l'.inDim == l.inDim && l'.outDim == l.outDim
    ensures l'.weights == l.weights && l'.biases == l.biases && l'.biasEnabled == l.biasEnabled
    ensures |l'.gradWeights| == |l.gradWeights| && AllZero(l'.gradWeights)
    ensures |l'.gradBiases| == |l.gradBiases| && AllZero(l'.gradBiases)
    ensures l'.cachedInput == None
  {
    l.(gradWeights := Fill0(l.gradWeights), gradBiases := Fill0(l.gradBiases), cachedInput := None)
  }

  /** Zeroing twice is zeroing once, and it keeps a layer well-shaped and valid. */
  lemma ZeroGradIdempotent(l: LinearLayer)
    ensures ZeroGrad(ZeroGrad(l)) == ZeroGrad(l)
    ensures Typed(l) ==> Typed(ZeroGrad(l))
    ensures DimensionsValid(l) <==> DimensionsValid(ZeroGrad(l))
  {
  }
}
