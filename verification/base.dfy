/** Shared vocabulary of the model: optional values, Rust's `Result<_, &'static str>`,
    the panics that `assert_eq!`, `.expect` and `todo!` raise, and small helpers over
    vectors of scalars (the source's `f32`, modelled as `real`). */
module Base {

  /** Rust's `Option<T>`. */
  datatype Option<+T> = None | Some(value: T)

  /** Rust's `Result<T, &'static str>`: a recoverable error carrying its message. */
  datatype Result<+T> = Ok(value: T) | Err(message: string)

  /** An unrecoverable abort. The message is the one the source passes to the macro,
      so the site that fired can be told apart. */
  datatype Panic =
    | AssertFailed(message: string)   // assert_eq! with a failing comparison
    | ExpectFailed(message: string)   // .expect(...) on Err or None
    | Unimplemented(message: string)  // todo!(...)

  /** The result of a call that either returns normally or panics. */
  datatype Outcome<+T> = Done(value: T) | Panicked(panic: Panic)

  /** A product of two numbers of the same strict sign is positive, stated for a
      named product `p` so that callers can pass the product term they hold. */
  lemma ProductPositive(a: real, b: real, p: real)
    requires (a > 0.0 && b > 0.0) || (a < 0.0 && b < 0.0)
    requires p == a * b
    ensures p > 0.0
  {
  }

  /** `vec![0.0; n]` and `[0.0; n]`. */
  function Zeros(n: nat): (z: seq<real>)
    ensures |z| == n
    ensures AllZero(z)
  {
    seq(n, _ => 0.0)
  }

  predicate AllZero(s: seq<real>) {
    forall i :: 0 <= i < |s| ==> s[i] == 0.0
  }

  /** `slice.fill(0.0)`: same length, every entry zero. */
  function Fill0(s: seq<real>): (z: seq<real>)
    ensures |z| == |s| && AllZero(z)
  {
    Zeros(|s|)
  }

  /** Length of `a.iter().zip(b.iter())`. */
  function Min(a: nat, b: nat): nat {
    if a <= b then a else b
  }
}
