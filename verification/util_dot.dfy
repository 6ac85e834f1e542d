/** `util::flat_matrix_vector_dot`: the dot product of a vector with the window
    `[start, start + |vec|)` of a flat row-major matrix, with a bounds check that
    turns an overrun into a recoverable error. */
module Util {
  import opened Base

  const OutOfBounds: string := "Index out of bounds of the matrix!"

  /** The reference value: the sum over i < |vec| of vec[i] * matrix[start + i],
      accumulated in index order. An empty vector sums to 0 wherever it starts. */
  function WindowSum(matrix: seq<real>, vec: seq<real>, start: nat): real
    requires |vec| == 0 || start + |vec| <= |matrix|
    decreases |vec|
  {
    if |vec| == 0 then 0.0
    else WindowSum(matrix, vec[..|vec| - 1], start) + vec[|vec| - 1] * matrix[start + |vec| - 1]
  }

  /** Iteration `i` of the source loop with running sum `acc`: the bounds check on
      index `start + i` comes before the read of `matrix[start + i]`. */
  function DotLoop(matrix: seq<real>, vec: seq<real>, start: nat, i: nat, acc: real): (r: Result<real>)
    requires i <= |vec|
    ensures r.Err? ==> r.message == OutOfBounds && i < |vec| && start + |vec| > |matrix|
    decreases |vec| - i
  {
    if i == |vec| then Ok(acc)
    else if start + i >= |matrix| then Err(OutOfBounds)
    else DotLoop(matrix, vec, start, i + 1, acc + vec[i] * matrix[start + i])
  }

  /** The whole function: fails exactly when a non-empty vector overruns the matrix,
      and otherwise returns the window sum. */
  function FlatMatrixVectorDot(matrix: seq<real>, vec: seq<real>, start: nat): (r: Result<real>)
    ensures r.Err? <==> |vec| > 0 && start + |vec| > |matrix|
    ensures r.Err? ==> r.message == OutOfBounds
    ensures r.Ok? ==> r.value == WindowSum(matrix, vec, start)
    ensures |vec| == 0 ==> r == Ok(0.0)
  {
    DotLoopSpec(matrix, vec, start, 0, 0.0);
    DotLoop(matrix, vec, start, 0, 0.0)
  }

  /** Loop invariant of the source: after `i` successful iterations every index read
      so far was in bounds and `acc` holds the sum of the first `i` products. */
  lemma {:induction false} DotLoopSpec(matrix: seq<real>, vec: seq<real>, start: nat, i: nat, acc: real)
    requires i <= |vec|
    requires i == 0 || start + i <= |matrix|
    requires acc == WindowSum(matrix, vec[..i], start)
    ensures var r := DotLoop(matrix, vec, start, i, acc);
      && (r.Err? <==> i < |vec| && start + |vec| > |matrix|)
      && (r.Err? ==> r.message == OutOfBounds)
      && (r.Ok? ==> r.value == WindowSum(matrix, vec, start))
    decreases |vec| - i
  {
    if i == |vec| {
      assert vec[..i] == vec;
    } else if start + i >= |matrix| {
    } else {
      assert vec[..i + 1][..i] == vec[..i];
      var acc' := acc + vec[i] * matrix[start + i];
      DotLoopStep(matrix, vec, start, i, acc);
      assert WindowSum(matrix, vec[..i + 1], start) == acc';
      DotLoopSpec(matrix, vec, start, i + 1, acc');
    }
  }

  /** One passing iteration of the source loop. */
  lemma DotLoopStep(matrix: seq<real>, vec: seq<real>, start: nat, i: nat, acc: real)
    requires i < |vec| && start + i < |matrix|
    ensures DotLoop(matrix, vec, start, i, acc) == DotLoop(matrix, vec, start, i + 1, acc + vec[i] * matrix[start + i])
  {
  }

  /** Two matrices that agree on the window give the same window sum. */
  lemma {:induction false} WindowSumCongruent(m1: seq<real>, m2: seq<real>, vec: seq<real>, start: nat)
    requires |vec| == 0 || (start + |vec| <= |m1| && start + |vec| <= |m2|)
    requires forall j :: start <= j < start + |vec| ==> m1[j] == m2[j]
    ensures WindowSum(m1, vec, start) == WindowSum(m2, vec, start)
    decreases |vec|
  {
    if |vec| > 0 {
      WindowSumCongruent(m1, m2, vec[..|vec| - 1], start);
    }
  }

  /** Only the window `[start, start + |vec|)` is read: the result depends on the
      matrix only through whether the window fits and what the window holds. */
  lemma DotReadsOnlyWindow(m1: seq<real>, m2: seq<real>, vec: seq<real>, start: nat)
    requires |vec| == 0 || (start + |vec| <= |m1| <==> start + |vec| <= |m2|)
    requires forall j :: start <= j < start + |vec| && j < |m1| && j < |m2| ==> m1[j] == m2[j]
    ensures FlatMatrixVectorDot(m1, vec, start) == FlatMatrixVectorDot(m2, vec, start)
  {
    if |vec| > 0 && start + |vec| <= |m1| {
      WindowSumCongruent(m1, m2, vec, start);
    }
  }

  /** 2^64: `usize` on a 64-bit target. */
  const UsizeLimit: int := 0x1_0000_0000_0000_0000
  /** `isize::MAX`: an upper bound on the length of any Rust slice (the byte size of
      a slice is at most this, so an `f32` slice is shorter still). */
  const IsizeMax: int := 0x7FFF_FFFF_FFFF_FFFF

  /** The unchecked sum `start_idx + i` never overflows `usize`: iteration `i` is
      reached only when the check of iteration `i - 1` passed, so the sum is either
      `start_idx` itself or at most `matrix.len()`. */
  lemma DotIndexFitsUsize(matrix: seq<real>, vec: seq<real>, start: nat, i: nat)
    requires start < UsizeLimit && |matrix| <= IsizeMax
    requires i < |vec|
    requires i == 0 || start + (i - 1) < |matrix|
    ensures start + i < UsizeLimit
  {
  }
}
