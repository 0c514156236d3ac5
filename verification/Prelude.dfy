/** Shared vocabulary: machine integers, optional values and a few facts about finite sets. */
module Prelude {

  datatype Option<+T> = None | Some(value: T)

  /** Rust's u32. A subset type, so every stored counter carries a proof that it did not overflow. */
  type u32 = x: int | 0 <= x <= 0xFFFF_FFFF

  function Max(a: nat, b: nat): nat { if a < b then b else a }

  function Min(a: nat, b: nat): nat { if a < b then a else b }

  /** Rust's `saturating_sub(1)`. */
  function PredSaturating(n: u32): u32 { if n == 0 then 0 else n - 1 }

  /** The remaining room below a cap: Rust's `cap.saturating_sub(used)`. */
  function SubSaturating(cap: u32, used: u32): u32 { if cap < used then 0 else cap - used }

  lemma CardinalityMonotone<T>(a: set<T>, b: set<T>)
    requires a <= b
    ensures |a| <= |b|
  {
    assert b == a + (b - a);
  }

  lemma CardinalityDisjointUnion<T>(a: set<T>, b: set<T>, c: set<T>)
    requires a * b == {} && c == a + b
    ensures |c| == |a| + |b|
  {
  }
}
