/** The `MLP<INPUT_DIM, OUTPUT_DIM>` container draft: an ordered list of type-erased
    modules run left to right by `forward` and right to left by `backward`, with a
    length assertion at every hop. Type erasure (`ModuleWrapper` behind
    `dyn ErasedModule`) becomes a closed variant over the source's three `NNModule`
    implementations, one of which is an `MLP` itself. */
module Mlp {
  import opened Base
  import Linear
  import Activation

  const WrapperInputMismatch: string := "Input length must match module input dimension"
  const WrapperGradientMismatch: string := "Gradient length must match module output dimension"
  const ComponentInputMismatch: string := "Component input dimension mismatch during forward pass"
  const FinalOutputMismatch: string := "Final output dimension mismatch"
  const ComponentOutputMismatch: string := "Component output dimension mismatch during backward pass"
  const FinalGradientMismatch: string := "Final gradient dimension mismatch"

  /** A component, i.e. a `ModuleWrapper<IN, OUT>` around a boxed `NNModule<IN, OUT>`:
      the wrapper's IN and OUT are the wrapped module's const parameters. */
  datatype Module =
    | LinearModule(layer: Linear.LinearLayer)
    | ActivationModule(act: Activation.ActivationFunction)
    | MlpModule(net: Network)

  /** An `MLP`: its const parameters and its components in order. The `spec` field
      is only read by the unimplemented `new` and is not modelled. */
  datatype Network = Network(inDim: nat, outDim: nat, components: seq<Module>)

  /** `ModuleWrapper::input_dim`: IN, the wrapped module's INPUT_DIM, with no
      validation. This is what `MLP::forward` compares against. */
  function ConstIn(m: Module): (w: nat)
    ensures m.LinearModule? ==> w == m.layer.inDim
    ensures m.ActivationModule? ==> w == m.act.constIn
    ensures m.MlpModule? ==> w == m.net.inDim
  {
    match m
    case LinearModule(l) => l.inDim
    case ActivationModule(a) => a.constIn
    case MlpModule(n) => n.inDim
  }

  /** `ModuleWrapper::output_dim`: OUT, the wrapped module's OUTPUT_DIM, with no
      validation. This is what `MLP::backward` compares against. */
  function ConstOut(m: Module): (w: nat)
    ensures m.LinearModule? ==> w == m.layer.outDim
    ensures m.ActivationModule? ==> w == m.act.constOut
    ensures m.MlpModule? ==> w == m.net.outDim
  {
    match m
    case LinearModule(l) => l.outDim
    case ActivationModule(a) => a.constOut
    case MlpModule(n) => n.outDim
  }

  /** The lengths Rust's array types guarantee, at every nesting level. */
  predicate Typed(m: Module)
    decreases m
  {
    match m
    case LinearModule(l) => Linear.Typed(l)
    case ActivationModule(a) => Activation.Typed(a)
    case MlpModule(n) => forall i :: 0 <= i < |n.components| ==> Typed(n.components[i])
  }

  predicate AllTyped(cs: seq<Module>) {
    forall i :: 0 <= i < |cs| ==> Typed(cs[i])
  }

  /** Each component's input width is the previous component's output width. */
  predicate Links(cs: seq<Module>) {
    forall i :: 0 < i < |cs| ==> ConstIn(cs[i]) == ConstOut(cs[i - 1])
  }

  /** The components form a chain from INPUT_DIM to OUTPUT_DIM; with no components
      the two widths must coincide. */
  predicate Chained(n: Network) {
    if |n.components| == 0 then n.inDim == n.outDim
    else
      && ConstIn(n.components[0]) == n.inDim
      && ConstOut(n.components[|n.components| - 1]) == n.outDim
      && Links(n.components)
  }

  /** A module none of whose own checks can fail: every nested network is chained,
      every linear layer passes its validation, and every activation passes its
      validation and is square. */
  predicate WellFormed(m: Module)
    decreases m
  {
    match m
    case LinearModule(l) => Linear.DimensionsValid(l)
    case ActivationModule(a) => Activation.DimensionsValid(a) && a.constIn == a.constOut
    case MlpModule(n) => Chained(n) && forall i :: 0 <= i < |n.components| ==> WellFormed(n.components[i])
  }

  predicate AllWellFormed(cs: seq<Module>) {
    forall i :: 0 <= i < |cs| ==> WellFormed(cs[i])
  }

  /** A call returned a module of the same shape, still well-typed, and still
      well-formed if it was: calls change caches and gradients, never sizes. */
  predicate SameShape(m: Module, m': Module) {
    && ConstIn(m') == ConstIn(m) && ConstOut(m') == ConstOut(m) && Typed(m')
    && (WellFormed(m) ==> WellFormed(m'))
  }

  predicate SameShapes(cs: seq<Module>, cs': seq<Module>) {
    |cs'| == |cs| && forall i :: 0 <= i < |cs| ==> SameShape(cs[i], cs'[i])
  }

  /** `NNModule::input_dim` of the wrapped module: the layers validate first, an MLP
      does not (its validation is empty). */
  function InputDim(m: Module): (r: Outcome<nat>)
    ensures r.Done? ==> r.value == ConstIn(m)
    ensures m.MlpModule? ==> r.Done?
    ensures m.LinearModule? ==> (r.Done? <==> Linear.DimensionsValid(m.layer))
    ensures m.ActivationModule? ==> (r.Done? <==> Activation.DimensionsValid(m.act))
  {
    match m
    case LinearModule(l) => Linear.InputDim(l)
    case ActivationModule(a) => Activation.InputDim(a)
    case MlpModule(n) => Done(n.inDim)
  }

  /** `NNModule::output_dim` of the wrapped module. */
  function OutputDim(m: Module): (r: Outcome<nat>)
    ensures r.Done? ==> r.value == ConstOut(m)
    ensures m.MlpModule? ==> r.Done?
    ensures m.LinearModule? ==> (r.Done? <==> Linear.DimensionsValid(m.layer))
    ensures m.ActivationModule? ==> (r.Done? <==> Activation.DimensionsValid(m.act))
  {
    match m
    case LinearModule(l) => Linear.OutputDim(l)
    case ActivationModule(a) => Activation.OutputDim(a)
    case MlpModule(n) => Done(n.outDim)
  }

  /** `ModuleWrapper::forward_dyn`: asserts the input has width IN, runs the module and
      returns exactly OUT values. A well-formed module never panics. */
  function ForwardDyn(m: Module, input: seq<real>, tanh: real -> real): (r: Outcome<(Module, seq<real>)>)
    requires Typed(m)
    ensures |input| != ConstIn(m) ==> r == Panicked(AssertFailed(WrapperInputMismatch))
    ensures r.Done? ==> |r.value.1| == ConstOut(m) && SameShape(m, r.value.0)
    ensures |input| == ConstIn(m) && WellFormed(m) ==> r.Done?
    decreases m, 2
  {
    if |input| != ConstIn(m) then Panicked(AssertFailed(WrapperInputMismatch))
    else
      match m
      case LinearModule(l) =>
        (match Linear.Forward(l, input)
         case Panicked(p) => Panicked(p)
         case Done(v) => Done((LinearModule(v.0), v.1)))
      case ActivationModule(a) =>
        (match Activation.Forward(a, input, tanh)
         case Panicked(p) => Panicked(p)
         case Done(v) => Done((ActivationModule(v.0), v.1)))
      case MlpModule(n) =>
        (match NetForward(n, input, tanh)
         case Panicked(p) => Panicked(p)
         case Done(v) => Done((MlpModule(v.0), v.1)))
  }

  /** The loop of `MLP::forward`: components in list order, each output feeding the
      next component after the assertion that its width is that component's IN. */
  function ChainForward(cs: seq<Module>, x: seq<real>, tanh: real -> real): (r: Outcome<(seq<Module>, seq<real>)>)
    requires AllTyped(cs)
    ensures r.Done? ==> SameShapes(cs, r.value.0)
    ensures r.Done? ==> |r.value.1| == (if |cs| == 0 then |x| else ConstOut(cs[|cs| - 1]))
    ensures Links(cs) && (|cs| > 0 ==> ConstIn(cs[0]) == |x|) && AllWellFormed(cs) ==> r.Done?
    decreases cs, 0
  {
    if |cs| == 0 then Done(([], x))
    else if |x| != ConstIn(cs[0]) then Panicked(AssertFailed(ComponentInputMismatch))
    else
      match ForwardDyn(cs[0], x, tanh)
      case Panicked(p) => Panicked(p)
      case Done(h) =>
        assert Links(cs) ==> Links(cs[1..]);
        Prepend(h.0, ChainForward(cs[1..], h.1, tanh))
  }

  /** Put an updated component in front of the result of the rest of a chain. */
  function Prepend(c: Module, rest: Outcome<(seq<Module>, seq<real>)>): Outcome<(seq<Module>, seq<real>)> {
    match rest
    case Panicked(p) => Panicked(p)
    case Done(t) => Done(([c] + t.0, t.1))
  }

  /** Put an updated component after the result of the components before it. */
  function Append(front: Outcome<(seq<Module>, seq<real>)>, c: Module): Outcome<(seq<Module>, seq<real>)> {
    match front
    case Panicked(p) => Panicked(p)
    case Done(t) => Done((t.0 + [c], t.1))
  }

  /** `MLP::forward`: the chain, then the assertion that the result has OUTPUT_DIM
      values. A chained network of well-formed components never panics. */
  function NetForward(n: Network, input: seq<real>, tanh: real -> real): (r: Outcome<(Network, seq<real>)>)
    requires AllTyped(n.components) && |input| == n.inDim
    ensures r.Done? ==>
      && |r.value.1| == n.outDim
      && r.value.0.inDim == n.inDim && r.value.0.outDim == n.outDim
      && SameShapes(n.components, r.value.0.components)
    ensures r.Done? && Chained(n) ==> Chained(r.value.0)
    ensures Chained(n) && AllWellFormed(n.components) ==> r.Done?
    decreases n, 1
  {
    match ChainForward(n.components, input, tanh)
    case Panicked(p) => Panicked(p)
    case Done(v) =>
      if |v.1| != n.outDim then Panicked(AssertFailed(FinalOutputMismatch))
      else Done((n.(components := v.0), v.1))
  }

  /** `ModuleWrapper::backward_dyn`: asserts the gradient has width OUT, runs the
      module's backward and returns exactly IN values. The layers' backward passes
      are `todo!`, so for a well-formed module the only possible panic is that one. */
  function BackwardDyn(m: Module, gradOutput: seq<real>): (r: Outcome<(Module, seq<real>)>)
    requires Typed(m)
    ensures |gradOutput| != ConstOut(m) ==> r == Panicked(AssertFailed(WrapperGradientMismatch))
    ensures r.Done? ==> |r.value.1| == ConstIn(m) && SameShape(m, r.value.0)
    ensures |gradOutput| == ConstOut(m) && WellFormed(m) ==> r.Done? || r.panic.Unimplemented?
    decreases m, 2
  {
    if |gradOutput| != ConstOut(m) then Panicked(AssertFailed(WrapperGradientMismatch))
    else
      match m
      case LinearModule(l) => Panicked(Linear.Backward(l, gradOutput))
      case ActivationModule(a) => Panicked(Activation.Backward(a, gradOutput))
      case MlpModule(n) =>
        (match NetBackward(n, gradOutput)
         case Panicked(p) => Panicked(p)
         case Done(v) => Done((MlpModule(v.0), v.1)))
  }

  /** The loop of `MLP::backward`: components in REVERSE list order, each returned
      input gradient feeding the preceding component after the assertion that its
      width is that component's OUT. */
  function ChainBackward(cs: seq<Module>, g: seq<real>): (r: Outcome<(seq<Module>, seq<real>)>)
    requires AllTyped(cs)
    ensures r.Done? ==> SameShapes(cs, r.value.0)
    ensures r.Done? ==> |r.value.1| == (if |cs| == 0 then |g| else ConstIn(cs[0]))
    ensures Links(cs) && (|cs| > 0 ==> ConstOut(cs[|cs| - 1]) == |g|) && AllWellFormed(cs) ==>
      r.Done? || r.panic.Unimplemented?
    decreases cs, 0
  {
    if |cs| == 0 then Done(([], g))
    else if |g| != ConstOut(cs[|cs| - 1]) then Panicked(AssertFailed(ComponentOutputMismatch))
    else
      match BackwardDyn(cs[|cs| - 1], g)
      case Panicked(p) => Panicked(p)
      case Done(h) =>
        assert Links(cs) ==> Links(cs[..|cs| - 1]);
        Append(ChainBackward(cs[..|cs| - 1], h.1), h.0)
  }

  /** `MLP::backward`: the reverse chain, then the assertion that the result has
      INPUT_DIM values. */
  function NetBackward(n: Network, gradOutput: seq<real>): (r: Outcome<(Network, seq<real>)>)
    requires AllTyped(n.components) && |gradOutput| == n.outDim
    ensures r.Done? ==>
      && |r.value.1| == n.inDim
      && r.value.0.inDim == n.inDim && r.value.0.outDim == n.outDim
      && SameShapes(n.components, r.value.0.components)
    ensures r.Done? && Chained(n) ==> Chained(r.value.0)
    ensures Chained(n) && AllWellFormed(n.components) ==> r.Done? || r.panic.Unimplemented?
    decreases n, 1
  {
    match ChainBackward(n.components, gradOutput)
    case Panicked(p) => Panicked(p)
    case Done(v) =>
      if |v.1| != n.inDim then Panicked(AssertFailed(FinalGradientMismatch))
      else Done((n.(components := v.0), v.1))
  }

  /** `zero_grad` of a wrapped module. */
  function ZeroGradModule(m: Module): (m': Module)
    ensures ConstIn(m') == ConstIn(m) && ConstOut(m') == ConstOut(m)
    ensures Typed(m) ==> Typed(m')
    ensures WellFormed(m) ==> WellFormed(m')
    decreases m, 1
  {
    match m
    case LinearModule(l) => LinearModule(Linear.ZeroGrad(l))
    case ActivationModule(a) => ActivationModule(Activation.ZeroGrad(a))
    case MlpModule(n) => MlpModule(n.(components := ChainZeroGrad(n.components)))
  }

  /** The loop of `MLP::zero_grad`: every component is zeroed, each exactly once and
      in its own position. */
  function ChainZeroGrad(cs: seq<Module>): (cs': seq<Module>)
    ensures |cs'| == |cs|
    ensures forall i :: 0 <= i < |cs| ==> cs'[i] == ZeroGradModule(cs[i])
    decreases cs, 0
  {
    if |cs| == 0 then []
    else [ZeroGradModule(cs[0])] + ChainZeroGrad(cs[1..])
  }

  /** Run `cs2` after a forward result over some earlier components. */
  function ThenForward(first: Outcome<(seq<Module>, seq<real>)>, cs2: seq<Module>, tanh: real -> real): Outcome<(seq<Module>, seq<real>)>
    requires AllTyped(cs2)
  {
    match first
    case Panicked(p) => Panicked(p)
    case Done(a) =>
      match ChainForward(cs2, a.1, tanh)
      case Panicked(p) => Panicked(p)
      case Done(b) => Done((a.0 + b.0, b.1))
  }

  lemma PrependThenForward(c: Module, r: Outcome<(seq<Module>, seq<real>)>, cs2: seq<Module>, tanh: real -> real)
    requires AllTyped(cs2)
    ensures Prepend(c, ThenForward(r, cs2, tanh)) == ThenForward(Prepend(c, r), cs2, tanh)
  {
    if r.Done? && ChainForward(cs2, r.value.1, tanh).Done? {
      var b := ChainForward(cs2, r.value.1, tanh).value;
      assert [c] + (r.value.0 + b.0) == ([c] + r.value.0) + b.0;
    }
  }

  /** Forward order: running the components `cs1 + cs2` is running `cs1` and then
      feeding its output to `cs2`. */
  lemma {:induction false} ChainForwardAppend(cs1: seq<Module>, cs2: seq<Module>, x: seq<real>, tanh: real -> real)
    requires AllTyped(cs1) && AllTyped(cs2)
    ensures AllTyped(cs1 + cs2)
    ensures ChainForward(cs1 + cs2, x, tanh) == ThenForward(ChainForward(cs1, x, tanh), cs2, tanh)
    decreases |cs1|
  {
    var cs := cs1 + cs2;
    assert AllTyped(cs);
    if |cs1| == 0 {
      assert cs == cs2;
      var r := ChainForward(cs2, x, tanh);
      if r.Done? {
        assert [] + r.value.0 == r.value.0;
      }
    } else {
      assert cs[0] == cs1[0];
      assert cs[1..] == cs1[1..] + cs2;
      if |x| == ConstIn(cs1[0]) && ForwardDyn(cs1[0], x, tanh).Done? {
        var h := ForwardDyn(cs1[0], x, tanh).value;
        ChainForwardAppend(cs1[1..], cs2, h.1, tanh);
        PrependThenForward(h.0, ChainForward(cs1[1..], h.1, tanh), cs2, tanh);
      }
    }
  }

  /** Run the components before `cs2`, `cs1`, after a backward result over `cs2`. */
  function ThenBackward(last: Outcome<(seq<Module>, seq<real>)>, cs1: seq<Module>): Outcome<(seq<Module>, seq<real>)>
    requires AllTyped(cs1)
  {
    match last
    case Panicked(p) => Panicked(p)
    case Done(b) =>
      match ChainBackward(cs1, b.1)
      case Panicked(p) => Panicked(p)
      case Done(a) => Done((a.0 + b.0, a.1))
  }

  lemma AppendThenBackward(r: Outcome<(seq<Module>, seq<real>)>, cs1: seq<Module>, c: Module)
    requires AllTyped(cs1)
    ensures Append(ThenBackward(r, cs1), c) == ThenBackward(Append(r, c), cs1)
  {
    if r.Done? && ChainBackward(cs1, r.value.1).Done? {
      var a := ChainBackward(cs1, r.value.1).value;
      assert (a.0 + r.value.0) + [c] == a.0 + (r.value.0 + [c]);
    }
  }

  /** Backward order: running `cs1 + cs2` backward is running `cs2` backward first and
      then feeding its input gradient to `cs1`. */
  lemma {:induction false} ChainBackwardAppend(cs1: seq<Module>, cs2: seq<Module>, g: seq<real>)
    requires AllTyped(cs1) && AllTyped(cs2)
    ensures AllTyped(cs1 + cs2)
    ensures ChainBackward(cs1 + cs2, g) == ThenBackward(ChainBackward(cs2, g), cs1)
    decreases |cs2|
  {
    var cs := cs1 + cs2;
    assert AllTyped(cs);
    if |cs2| == 0 {
      assert cs == cs1;
      var r := ChainBackward(cs1, g);
      if r.Done? {
        assert r.value.0 + [] == r.value.0;
      }
    } else {
      var last := cs2[|cs2| - 1];
      var front := cs2[..|cs2| - 1];
      assert cs[|cs| - 1] == last;
      assert cs[..|cs| - 1] == cs1 + front;
      if |g| == ConstOut(last) && BackwardDyn(last, g).Done? {
        var h := BackwardDyn(last, g).value;
        ChainBackwardAppend(cs1, front, h.1);
        AppendThenBackward(ChainBackward(front, h.1), cs1, h.0);
      }
    }
  }

  /** The first component whose IN differs from the running width stops the forward
      chain with the per-component assertion, provided every component before it is
      well-formed and they link up. */
  lemma {:induction false} ChainForwardStopsAtFirstMismatch(cs: seq<Module>, x: seq<real>, tanh: real -> real, k: nat)
    requires AllTyped(cs) && k < |cs|
    requires forall j :: 0 <= j < k ==> WellFormed(cs[j])
    requires forall j :: 0 < j < k ==> ConstIn(cs[j]) == ConstOut(cs[j - 1])
    requires k == 0 ==> |x| != ConstIn(cs[0])
    requires k > 0 ==> |x| == ConstIn(cs[0]) && ConstIn(cs[k]) != ConstOut(cs[k - 1])
    ensures ChainForward(cs, x, tanh) == Panicked(AssertFailed(ComponentInputMismatch))
    decreases k
  {
    if k > 0 {
      var h := ForwardDyn(cs[0], x, tanh).value;
      assert |h.1| == ConstOut(cs[0]);
      assert AllTyped(cs[1..]);
      ChainForwardStopsAtFirstMismatch(cs[1..], h.1, tanh, k - 1);
    }
  }

  /** `MLP::forward` panics at the per-component assertion exactly at the first
      component that breaks the chain. */
  lemma NetForwardStopsAtFirstMismatch(n: Network, x: seq<real>, tanh: real -> real, k: nat)
    requires AllTyped(n.components) && |x| == n.inDim && k < |n.components|
    requires forall j :: 0 <= j < k ==> WellFormed(n.components[j])
    requires forall j :: 0 < j < k ==> ConstIn(n.components[j]) == ConstOut(n.components[j - 1])
    requires k == 0 ==> ConstIn(n.components[0]) != n.inDim
    requires k > 0 ==> ConstIn(n.components[0]) == n.inDim && ConstIn(n.components[k]) != ConstOut(n.components[k - 1])
    ensures NetForward(n, x, tanh) == Panicked(AssertFailed(ComponentInputMismatch))
  {
    ChainForwardStopsAtFirstMismatch(n.components, x, tanh, k);
  }

  /** With no components, forward is the identity when INPUT_DIM == OUTPUT_DIM and
      otherwise fails the final assertion; backward likewise. */
  lemma EmptyNetwork(n: Network, x: seq<real>, g: seq<real>, tanh: real -> real)
    requires n.components == [] && |x| == n.inDim && |g| == n.outDim
    ensures n.inDim == n.outDim ==> NetForward(n, x, tanh) == Done((n, x))
    ensures n.inDim != n.outDim ==> NetForward(n, x, tanh) == Panicked(AssertFailed(FinalOutputMismatch))
    ensures n.inDim == n.outDim ==> NetBackward(n, g) == Done((n, g))
    ensures n.inDim != n.outDim ==> NetBackward(n, g) == Panicked(AssertFailed(FinalGradientMismatch))
  {
    var cs: seq<Module> := [];
    assert ChainForward(cs, x, tanh) == Done(([], x));
    assert ChainBackward(cs, g) == Done(([], g));
    assert n.(components := []) == n;
    if n.inDim == n.outDim {
      assert NetForward(n, x, tanh) == Done((n, x));
      assert NetBackward(n, g) == Done((n, g));
    }
  }

  /** In a well-formed network whose last component is a layer rather than a nested
      MLP, backward always ends in that layer's `todo!`. */
  lemma BackwardReachesTodo(n: Network, g: seq<real>)
    requires AllTyped(n.components) && |g| == n.outDim
    requires Chained(n) && AllWellFormed(n.components)
    requires |n.components| > 0 && !n.components[|n.components| - 1].MlpModule?
    ensures NetBackward(n, g).Panicked? && NetBackward(n, g).panic.Unimplemented?
  {
    var last := n.components[|n.components| - 1];
    assert WellFormed(last);
    assert BackwardDyn(last, g).Panicked?;
  }

  /** In a chained network of well-formed components, forward never panics, and the
      network it returns is still chained and well-formed, so a following backward
      raises none of the dimension assertions: it succeeds or reaches a `todo!`. */
  lemma ForwardThenBackward(n: Network, x: seq<real>, g: seq<real>, tanh: real -> real)
    requires AllTyped(n.components) && |x| == n.inDim && |g| == n.outDim
    requires Chained(n) && AllWellFormed(n.components)
    ensures NetForward(n, x, tanh).Done?
    ensures var n1 := NetForward(n, x, tanh).value.0;
            && Chained(n1) && AllTyped(n1.components) && AllWellFormed(n1.components)
            && (NetBackward(n1, g).Done? || NetBackward(n1, g).panic.Unimplemented?)
  {
    var r := NetForward(n, x, tanh);
    assert r.Done?;
    var n1 := r.value.0;
    assert Chained(n1);
    forall i | 0 <= i < |n1.components|
      ensures Typed(n1.components[i]) && WellFormed(n1.components[i])
    {
      assert SameShape(n.components[i], n1.components[i]);
    }
    assert AllTyped(n1.components) && AllWellFormed(n1.components);
    var b := NetBackward(n1, g);
    assert b.Done? || b.panic.Unimplemented?;
  }

  /** `MLP::zero_grad` keeps a chained network of well-formed components chained,
      typed and well-formed. */
  lemma ZeroGradKeepsWellFormed(n: Network)
    requires AllTyped(n.components) && Chained(n) && AllWellFormed(n.components)
    ensures var z := n.(components := ChainZeroGrad(n.components));
            Chained(z) && AllTyped(z.components) && AllWellFormed(z.components)
  {
    var z := n.(components := ChainZeroGrad(n.components));
    assert WellFormed(ZeroGradModule(MlpModule(n)));
    assert ZeroGradModule(MlpModule(n)) == MlpModule(z);
    forall i | 0 <= i < |z.components|
      ensures Typed(z.components[i])
    {
      assert z.components[i] == ZeroGradModule(n.components[i]);
    }
  }

  /** The training sequence zero_grad, forward, backward on a chained network of
      well-formed components raises no dimension assertion. */
  lemma ZeroGradThenForwardThenBackward(n: Network, x: seq<real>, g: seq<real>, tanh: real -> real)
    requires AllTyped(n.components) && |x| == n.inDim && |g| == n.outDim
    requires Chained(n) && AllWellFormed(n.components)
    ensures AllTyped(ChainZeroGrad(n.components))
    ensures var z := n.(components := ChainZeroGrad(n.components));
            NetForward(z, x, tanh).Done?
            && AllTyped(NetForward(z, x, tanh).value.0.components)
            && var b := NetBackward(NetForward(z, x, tanh).value.0, g);
               b.Done? || b.panic.Unimplemented?
  {
    ZeroGradKeepsWellFormed(n);
    ForwardThenBackward(n.(components := ChainZeroGrad(n.components)), x, g, tanh);
  }

  /** Zeroing a module twice is zeroing it once, at every nesting level. */
  lemma {:induction false} ZeroGradModuleIdempotent(m: Module)
    ensures ZeroGradModule(ZeroGradModule(m)) == ZeroGradModule(m)
    decreases m, 1
  {
    match m
    case LinearModule(l) => Linear.ZeroGradIdempotent(l);
    case ActivationModule(a) => Activation.ZeroGradIdempotent(a);
    case MlpModule(n) => ChainZeroGradIdempotent(n.components);
  }

  lemma {:induction false} ChainZeroGradIdempotent(cs: seq<Module>)
    ensures ChainZeroGrad(ChainZeroGrad(cs)) == ChainZeroGrad(cs)
    decreases cs, 0
  {
    var z := ChainZeroGrad(cs);
    forall i | 0 <= i < |cs|
      ensures ChainZeroGrad(z)[i] == z[i]
    {
      ZeroGradModuleIdempotent(cs[i]);
    }
  }
}
