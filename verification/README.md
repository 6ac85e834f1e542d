# micrograd-rs in Dafny

A model of the structural core of micrograd-rs, a small neural-network engine written in Rust. The model covers shapes, indexing, error and panic conditions, forward-cache lifecycles, the order in which layers are chained, and the per-element update rules.

The modules follow the crate's files:

| module | file | what it holds |
|---|---|---|
| `Base` | (shared) | `Option` and `Result`. `Panic` for what `assert_eq!`, `.expect` and `todo!` raise. `Outcome<T>` for a call that returns or panics. The zero vector. |
| `Util` | `src/util/dot.rs` | `flat_matrix_vector_dot`: a bounds-checked dot product against a window of a flat row-major matrix. |
| `Linear` | `src/nn/linear.rs` | The const-generic `LinearLayer<INPUT_DIM, OUTPUT_DIM>` draft: zero construction, dimension validation, the row-by-row `W x (+ b)` forward pass with input cache, and `zero_grad`. |
| `ReluLayer` | `src/nn/activation/relu.rs` | The dynamic `ReLU` layer. It caches its input, and `backward` gates on the sign of that input. |
| `TanhLayer` | `src/nn/activation/tanh.rs` | The dynamic `Tanh` layer. It caches its output, and `backward` scales by `1 - t^2`. |
| `Activation` | `src/nn/activation.rs` | The enum-dispatched `ActivationFunction<INPUT_DIM, OUTPUT_DIM>` draft. Only its forward pass is implemented. |
| `Mlp` | `src/nn/mlp.rs` | The `MLP<INPUT_DIM, OUTPUT_DIM>` container. Forward runs the type-erased components left to right and backward runs them right to left, with a width assertion at every hop. |
| `GradientDescent` | `src/optimizer/gd.rs` | `step`: `p -= lr * g` element-wise, after a length check. |
| `Mse` | `src/loss/mse.rs` | `compute_loss` and `compute_gradient` of the mean squared error. |

How the Rust is represented:
- **Scalars.** `f32` scalars are Dafny `real`s.
- **`tanh`.** The scalar `tanh` is a function parameter `tanh: real -> real`. Nothing is assumed about it.
- **Mutation.** A `&mut self` call becomes a pure function. It returns the updated record alongside the result, wrapped in `Outcome` so that a panic is a value the contracts can talk about. Every panic carries the source's own message, so the site that fired can be told apart.
- **Const generics.** `INPUT_DIM`, `OUTPUT_DIM`, `IN` and `OUT` are `nat` fields of the records.
- **Array lengths.** The lengths that Rust's array types fix (`[f32; N]`) are stated by a `Typed` predicate that callers must meet. `Vec` lengths are left free, and only the source's own assertions constrain them.
- **`dyn ErasedModule`.** `MLP` stores components behind `Box<dyn ErasedModule>`. This becomes the closed variant `Mlp.Module`, whose cases are the three `NNModule` implementations in the crate: `LinearLayer`, `ActivationFunction` and a nested `MLP`.

## Model

| member | source | states |
|---|---|---|
| `Util.FlatMatrixVectorDot` | src/util/dot.rs:2-14 | Errs, with the out-of-bounds message, exactly when `vec` is non-empty and `start_idx + len(vec) > len(matrix)`. Otherwise it returns the window sum of `vec[i] * matrix[start_idx + i]`. An empty `vec` gives `Ok(0)` at any start, even one past the end. |
| `Util.DotLoop` | src/util/dot.rs:4-11 | The loop from iteration `i` with running sum `acc`. When it errs, the message is the out-of-bounds one, an iteration was left, and the window really overruns the matrix. |
| `Util.DotLoopSpec` | src/util/dot.rs:4-11 | The loop invariant: after `i` passing iterations the accumulator is the sum of the first `i` products. From there, the loop fails iff the window overruns and otherwise ends with the full sum. |
| `Util.DotReadsOnlyWindow` | src/util/dot.rs:4-10 | Two matrices that agree on `[start_idx, start_idx + len(vec))`, and on whether that window fits, give the same result. No other entry is read. |
| `Util.DotIndexFitsUsize` | src/util/dot.rs:5-9 | The unchecked `start_idx + i` cannot overflow `usize`, because every iteration is reached only through the bounds check of the one before. |
| `Linear.New` | src/nn/linear.rs:13-22 | `new` gives weights and weight gradients of length `IN * OUT`, all zero. Biases and bias gradients are `OUT` zeros. The bias is on and nothing is cached. The layer passes validation. |
| `Linear.Dot` | src/nn/linear.rs:26-38 | The private `dot` loop has the same error condition and the same window-sum value as `flat_matrix_vector_dot`, and returns exactly what it returns. |
| `Linear.ValidateDimensions` | src/nn/linear.rs:41-45 | Passes iff `weights` and `grad_weights` have `IN * OUT` entries and `biases` has `OUT`. Otherwise the first failing assertion fires, in source order (weights, then gradients, then biases), with its own message. |
| `Linear.InputDim` | src/nn/linear.rs:47-50 | Returns INPUT_DIM exactly when validation passes. |
| `Linear.OutputDim` | src/nn/linear.rs:52-55 | Returns OUTPUT_DIM exactly when validation passes. |
| `Linear.RowOffsetInBounds` | src/nn/linear.rs:66-70 | For every row `i < OUT`, `i * IN + IN <= IN * OUT`. Once validation has passed, the `.expect` on the row dot product cannot fire. |
| `Linear.ForwardRows` | src/nn/linear.rs:66-72 | The row loop on a validated layer never panics. It yields one value per remaining row, and the value of row `i` is the row-`i` window sum plus `biases[i]` if the bias is on. |
| `Linear.Forward` | src/nn/linear.rs:57-77 | Panics only when validation fails, always as an assertion. Otherwise it returns `OUT` values, each the affine image of the input. It caches `Some(input)` and leaves weights, biases, gradients and the bias flag untouched. |
| `Linear.ForwardIgnoresBiasesWhenDisabled` | src/nn/linear.rs:71 | With the bias off, replacing the biases changes neither whether forward succeeds nor its output. |
| `Linear.NewLayerOutputsZero` | src/nn/linear.rs:13-22 | A freshly constructed layer succeeds on every input and maps it to the zero vector. |
| `Linear.Backward` | src/nn/linear.rs:79-82 | `backward` always panics. A failed validation gives an assertion failure, and otherwise it reaches the `todo!`. |
| `Linear.ZeroGrad` | src/nn/linear.rs:84-88 | Both gradient buffers become all zero at their old lengths and the cache is cleared. Weights, biases, the bias flag and the dimensions are unchanged. |
| `Linear.ZeroGradIdempotent` | src/nn/linear.rs:84-88 | Zeroing twice equals zeroing once. It preserves `Typed`, and validation passes afterwards iff it passed before. |
| `Activation.ValidateDimensions` | src/nn/activation.rs:21-24 | Passes iff both runtime dimension fields equal the const parameters. The input check fires first, and each failure carries its own message. |
| `Activation.InputDim` | src/nn/activation.rs:25-28 | Returns INPUT_DIM exactly when validation passes. |
| `Activation.OutputDim` | src/nn/activation.rs:29-32 | Returns OUTPUT_DIM exactly when validation passes. |
| `Activation.Forward` | src/nn/activation.rs:34-57 | Succeeds iff validation passes and `INPUT_DIM == OUTPUT_DIM`; a valid but non-square layer fails the squareness assertion. It caches `Some(input)` and changes nothing else. ReLU outputs are non-negative and keep every positive input. Tanh outputs are `tanh(input[i])`. |
| `Activation.ReluBranchAgreesWithReluLayer` | src/nn/activation.rs:47-51 | The ReLU branch returns the same vector as the dynamic `ReLU` layer's forward pass. |
| `Activation.TanhBranchAgreesWithTanhLayer` | src/nn/activation.rs:42-46 | The Tanh branch returns the same vector as the dynamic `Tanh` layer's forward pass. |
| `Activation.Backward` | src/nn/activation.rs:59-62 | `backward` always panics: the `todo!` when validation passes, otherwise an assertion failure. |
| `Activation.ZeroGrad` | src/nn/activation.rs:64-68 | `grad` becomes all zero at its old length and the cache is cleared. Nothing else changes. |
| `Activation.ZeroGradIdempotent` | src/nn/activation.rs:64-68 | Zeroing twice equals zeroing once. It preserves `Typed` and the outcome of validation. |
| `ReluLayer.New` | src/nn/activation/relu.rs:7-9 | Stores `dim` with an empty cache. |
| `ReluLayer.Max0` | src/nn/activation/relu.rs:14 | `max(x, 0)` is at least `x`, at least 0, and equal to one of them. |
| `ReluLayer.Forward` | src/nn/activation/relu.rs:11-15 | Panics iff the input width is not `dim`. Otherwise it caches the input (not the output) and returns `dim` values. Each value is non-negative, at least the input, and equal to the input or to 0. |
| `ReluLayer.Backward` | src/nn/activation/relu.rs:17-24 | Panics iff nothing is cached. Otherwise it returns `min(len(cache), len(grad))` values, passing `g[i]` where the cached input is positive and 0 elsewhere. The layer is left unchanged. |
| `ReluLayer.ForwardIdempotent` | src/nn/activation/relu.rs:14 | Running forward on its own output returns that output again. |
| `ReluLayer.ForwardThenBackward` | src/nn/activation/relu.rs:11-24 | After a forward pass, backward succeeds. It has width `dim` when the gradient does, passes the gradient where the output was positive and blocks it where the output was 0. |
| `ReluLayer.BackwardBeforeForwardPanics` | src/nn/activation/relu.rs:18-19 | Backward on a fresh layer panics with "Must call forward before backward". |
| `ReluLayer.ReplayKeepsLayer` | src/nn/activation/relu.rs:17-27 | With an input cached, any sequence of `zero_grad` and `backward` calls succeeds and leaves the layer exactly as it was. |
| `ReluLayer.BackwardAfterZeroGrad` | src/nn/activation/relu.rs:17-27 | Once forward has run, after any interleaving of `zero_grad` and `backward` calls, `backward` still succeeds with the same result as right after forward. |
| `TanhLayer.New` | src/nn/activation/tanh.rs:7-9 | Stores `dim` with an empty cache. |
| `TanhLayer.Forward` | src/nn/activation/tanh.rs:11-16 | Panics iff the input width is not `dim`. Otherwise it returns `tanh(input[i])` for each of the `dim` entries and caches exactly the vector it returns. |
| `TanhLayer.Backward` | src/nn/activation/tanh.rs:18-26 | Panics iff nothing is cached. Otherwise it returns `min(len(cache), len(grad))` values `g[i] * (1 - t[i]^2)` and leaves the layer unchanged. |
| `TanhLayer.BackwardAtZeroAndSaturation` | src/nn/activation/tanh.rs:21-25 | Where the cached output is 0 the gradient passes through unchanged. Where it is 1 or -1 the gradient is blocked. |
| `TanhLayer.ForwardThenBackward` | src/nn/activation/tanh.rs:11-26 | After a forward pass on `x`, backward returns the chain rule `g[i] * (1 - tanh(x[i])^2)`, with width `dim` when the gradient has it. |
| `TanhLayer.BackwardBeforeForwardPanics` | src/nn/activation/tanh.rs:19-20 | Backward on a fresh layer panics with "Must call forward before backward". |
| `TanhLayer.ReplayKeepsLayer` | src/nn/activation/tanh.rs:18-29 | With an output cached, any sequence of `zero_grad` and `backward` calls succeeds and leaves the layer exactly as it was. |
| `TanhLayer.BackwardAfterZeroGrad` | src/nn/activation/tanh.rs:18-29 | Once forward has run, after any interleaving of `zero_grad` and `backward` calls, `backward` still succeeds with the same result as right after forward. |
| `Mlp.ConstIn` | src/nn/mlp.rs:26-28 | The wrapper's `input_dim` is the wrapped module's INPUT_DIM, for each of the three module kinds, with no validation. `MLP::forward` compares the running width against this. |
| `Mlp.ConstOut` | src/nn/mlp.rs:30-32 | The wrapper's `output_dim` is the wrapped module's OUTPUT_DIM, for each of the three module kinds, with no validation. `MLP::backward` compares the running gradient width against this. |
| `Mlp.InputDim` | src/nn/mlp.rs:78-81 | Dispatches `NNModule::input_dim` of the inner module. For an MLP it returns INPUT_DIM with no validation, as here. For a layer it is that layer's validating `input_dim`. The MLP loop calls `Mlp.ConstIn` instead. |
| `Mlp.OutputDim` | src/nn/mlp.rs:83-86 | Dispatches `NNModule::output_dim` of the inner module. For an MLP it returns OUTPUT_DIM with no validation, as here. For a layer it is that layer's validating `output_dim`. The MLP loop calls `Mlp.ConstOut` instead. |
| `Mlp.ForwardDyn` | src/nn/mlp.rs:34-39 | Panics with the wrapper's message unless the input has width IN. Any success returns exactly OUT values and a module of the same shape, still well-formed if it was, since forward only fills caches. A well-formed module given IN values never panics. |
| `Mlp.BackwardDyn` | src/nn/mlp.rs:41-46 | Panics with the wrapper's message unless the gradient has width OUT. Any success returns exactly IN values and a module of the same shape, still well-formed if it was. On a well-formed module the only other possible outcome is a layer's `todo!`. |
| `Mlp.ChainForward` | src/nn/mlp.rs:91-97 | The forward loop keeps every component's shape and well-formedness, and its result has the last component's output width. Components that link up and are well-formed, fed the first component's width, never panic. |
| `Mlp.NetForward` | src/nn/mlp.rs:88-102 | Any success returns OUTPUT_DIM values and keeps both dimensions and every component's shape and well-formedness. A chained network stays chained. A chained network of well-formed components never panics. |
| `Mlp.ChainForwardAppend` | src/nn/mlp.rs:92-97 | The components run in list order: forward through `cs1 + cs2` is forward through `cs1`, with its output fed to `cs2`. |
| `Mlp.ChainForwardStopsAtFirstMismatch` | src/nn/mlp.rs:94-96 | If the first `k` components are well-formed and link up, and component `k` does not match the running width, forward stops with the per-component assertion. |
| `Mlp.NetForwardStopsAtFirstMismatch` | src/nn/mlp.rs:94-96 | The same statement for `MLP::forward` as a whole. |
| `Mlp.ChainBackward` | src/nn/mlp.rs:107-113 | The backward loop keeps every component's shape and well-formedness, and its result has the first component's input width. A linked, well-formed chain panics only at a `todo!`. |
| `Mlp.NetBackward` | src/nn/mlp.rs:104-118 | Any success returns INPUT_DIM values and keeps the network's shape, and a chained network stays chained. A chained network of well-formed components raises none of the dimension assertions. |
| `Mlp.ChainBackwardAppend` | src/nn/mlp.rs:108-113 | The components run in reverse order: backward through `cs1 + cs2` is backward through `cs2`, with its result fed to `cs1`. |
| `Mlp.EmptyNetwork` | src/nn/mlp.rs:88-118 | With no components, forward and backward return their argument unchanged when `INPUT_DIM == OUTPUT_DIM`. Otherwise they fail the final width assertion. |
| `Mlp.ForwardThenBackward` | src/nn/mlp.rs:88-118 | On a chained network of well-formed components, forward succeeds. The network it returns is still chained, typed and well-formed, so backward on it raises no dimension assertion: it succeeds or reaches a `todo!`. |
| `Mlp.ZeroGradKeepsWellFormed` | src/nn/mlp.rs:120-126 | `MLP::zero_grad` keeps a chained network of well-formed components chained, typed and well-formed. |
| `Mlp.ZeroGradThenForwardThenBackward` | src/nn/mlp.rs:88-126 | The training sequence zero_grad, forward, backward on a chained, well-formed network: forward succeeds, and backward succeeds or reaches a `todo!`. |
| `Mlp.BackwardReachesTodo` | src/nn/mlp.rs:104-113 | In a well-formed chained network that ends in a layer, backward always ends in a `todo!` panic. |
| `Mlp.ZeroGradModule` | src/nn/mlp.rs:48-50 | Zeroing a wrapped module keeps its IN, its OUT, its typing and its well-formedness. |
| `Mlp.ChainZeroGrad` | src/nn/mlp.rs:120-126 | Every component is zeroed exactly once, in its own position. |
| `Mlp.ZeroGradModuleIdempotent` | src/nn/mlp.rs:48-50 | Zeroing a module twice equals zeroing it once, at every nesting level. |
| `Mlp.ChainZeroGradIdempotent` | src/nn/mlp.rs:120-126 | `MLP::zero_grad` twice equals once. |
| `GradientDescent.Descend` | src/optimizer/gd.rs:12-14 | The reference update keeps the length, and entry `i` is `params[i] - lr * grads[i]`. |
| `GradientDescent.Step` | src/optimizer/gd.rs:10-17 | Panics with the size message iff the lengths differ. Otherwise the in-place loop keeps the length and sets each entry to `params[i] - lr * grads[i]`, which is the reference update. |
| `GradientDescent.UpdateDirection` | src/optimizer/gd.rs:13 | With a positive rate, a parameter moves down for a positive gradient and up for a negative one, and stays put for a zero gradient. |
| `GradientDescent.UpdateLaws` | src/optimizer/gd.rs:13 | For one parameter: two updates on the same gradient compose by adding rates, and opposite rates cancel. A zero rate or a zero gradient changes nothing. |
| `GradientDescent.StepUndone` | src/optimizer/gd.rs:12-14 | A step with rate `-lr` undoes a step with rate `lr` on the same gradients. |
| `GradientDescent.StepsCompose` | src/optimizer/gd.rs:12-14 | Two steps on the same gradients equal one step with the summed rate. |
| `GradientDescent.ZeroRateOrGradientKeepsParams` | src/optimizer/gd.rs:13 | A zero learning rate leaves every parameter unchanged, and a zero gradient entry leaves its own parameter unchanged. |
| `Mse.SquaredError` | src/loss/mse.rs:15-19 | The accumulated sum of squared differences is non-negative. |
| `Mse.SquareFacts` | src/loss/mse.rs:17-18 | `diff * diff` is non-negative and is zero only when `diff` is. |
| `Mse.SquaredErrorZeroIff` | src/loss/mse.rs:15-19 | The squared error is zero iff prediction and target are equal. |
| `Mse.SquaredErrorReplace` | src/loss/mse.rs:15-19 | Replacing one prediction changes only that entry's term of the sum. |
| `Mse.SquaredErrorPerturbation` | src/loss/mse.rs:15-19 | Moving prediction `i` by `h` changes the sum by exactly `2 h (pred[i] - target[i]) + h^2`. |
| `Mse.ComputeLoss` | src/loss/mse.rs:12-22 | Panics with the shape message iff the lengths differ. Otherwise the loss is non-negative, and `n` times the loss is the squared error. |
| `Mse.LossZeroIff` | src/loss/mse.rs:12-22 | The loss is zero iff prediction equals target. |
| `Mse.ComputeGradient` | src/loss/mse.rs:24-32 | Panics with the shape message iff the lengths differ. Otherwise it returns one entry per prediction, where `n` times entry `i` is `2 (pred[i] - target[i])`; empty inputs give an empty vector. |
| `Mse.GradientZeroIff` | src/loss/mse.rs:27-31 | The gradient is all zero iff prediction equals target. |
| `Mse.GradientSign` | src/loss/mse.rs:30 | Gradient entry `i` is positive iff `pred[i] > target[i]` and negative iff `pred[i] < target[i]`. |
| `Mse.StepTowardTarget` | src/loss/mse.rs:30 | One descent update with a positive rate moves a prediction toward its target: down if above, up if below, not at all if on target. It lands strictly closer when the rate is below `n`. |
| `Mse.StepOvershoots` | src/loss/mse.rs:30 | At a rate of at least `n` the update may overshoot: with prediction 1, target 0, `n = 1` and rate 2 it lands at -3. |

## Left out

- `src/main.rs`, the XOR training driver with its epoch loop and `println!` output. It is a demo, not logic.
- `src/optimizer/sgd.rs`. It orchestrates over `nn::Sequential`, which is not part of this model.
- `MLP::new`, `MLP::forward`'s array wrapper and `MLPSpecification`. `new` is a `todo!`, so networks are built directly from a component list. The `spec` field is never read otherwise.
- The trait and enum declaration files (`nn_module.rs`, `optimizer.rs`, `loss_function.rs`, `activation/mod.rs`). They carry no behaviour. They appear only as the datatypes above and as the three cases of `Mlp.Module`.
- `LinearLayer::backward` and `ActivationFunction::backward` are `todo!`. They are modelled only by the panic they raise, so that `MLP::backward` is total.
- IEEE-754 `f32` behaviour is not modelled: rounding, NaN (including `max` on NaN), infinities and overflow to infinity.
- The numeric definition of `tanh` is not modelled. It is a parameter, and nothing is assumed about it.
- `ReluLayer.ZeroGrad` and `TanhLayer.ZeroGrad` are the empty-bodied `zero_grad`s. They have no contract of their own. Their no-op behaviour is stated by `ReplayKeepsLayer` and `BackwardAfterZeroGrad`.
- `Mse.ComputeLoss`: requires non-empty vectors when the lengths agree. The source divides `0.0 / 0.0` there, giving NaN, which reals cannot express.
- `Mse.SquaredErrorPerturbation`: the derivative identity is stated for the summed squared error (`n` times the loss), not for the divided loss. `Mse.ComputeGradient` likewise states each entry multiplied by `n`. The identities are the same over the reals.
- `Linear.New`: `INPUT_DIM * OUTPUT_DIM` is unbounded here. The source's overflow of that product is not modelled: it panics in debug builds and wraps in release builds.
- `Linear.ValidateDimensions`: `INPUT_DIM * OUTPUT_DIM` is unbounded here. The source's overflow is not modelled. In a release build a wrapped product could let validation pass with a short `weights`, so `Linear.RowOffsetInBounds` holds only for products that fit in `usize`.
- Other `usize` arithmetic is unbounded in the model too. The only overflow argued is the index sum in the dot product (`Util.DotIndexFitsUsize`).
- The optimizer's `name` field is carried but never read, as in the source.
