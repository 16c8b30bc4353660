/** Machine integers and the small types every other module uses. */
module Prelude {

  datatype Option<+T> = None | Some(value: T)

  datatype Result<+T, +E> = Ok(value: T) | Err(error: E)

  const I64_MAX := 0x7FFF_FFFF_FFFF_FFFF
  const I64_MIN := -0x8000_0000_0000_0000
  const U64_RANGE := 0x1_0000_0000_0000_0000

  type I64 = x: int | I64_MIN <= x <= I64_MAX

  /** `usize` and `u64` of a 64-bit target. */
  type U64 = x: int | 0 <= x < U64_RANGE

  /** The cast `as i64`: values past `i64::MAX` wrap to negative numbers. */
  function AsI64(x: U64): I64 {
    if x <= I64_MAX then x else x - U64_RANGE
  }

  function Min(a: int, b: int): int {
    if a <= b then a else b
  }

  function Max(a: int, b: int): int {
    if a >= b then a else b
  }

  /** floor(log2(n)) for n >= 1. */
  function Log2(n: nat): nat {
    if n <= 1 then 0 else 1 + Log2(n / 2)
  }

  /** Halving a limit above 1 takes one off its logarithm. */
  lemma Log2Half(n: nat)
    requires n > 1
    ensures Log2(Max(n / 2, 1)) == Log2(n) - 1
  {
  }

  function Pow2(n: nat): nat {
    if n == 0 then 1 else 2 * Pow2(n - 1)
  }

  lemma {:induction false} Pow2Positive(n: nat)
    ensures Pow2(n) >= 1
  {
    if n > 0 {
      Pow2Positive(n - 1);
    }
  }

  /** Log2 is the floor of the binary logarithm. */
  lemma {:induction false} Log2Bounds(n: nat)
    requires n >= 1
    ensures Pow2(Log2(n)) <= n < 2 * Pow2(Log2(n))
  {
    if n > 1 {
      Log2Bounds(n / 2);
    }
  }

  /** A SQL LIMIT bound to `limit as i64`; SQLite reads a negative LIMIT as "no limit". */
  function SqlLimit<T>(s: seq<T>, limit: U64): seq<T> {
    var n := AsI64(limit);
    if n < 0 || |s| <= n then s else s[..n]
  }
}
