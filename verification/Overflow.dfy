/** The overflow test of the exact-integer prelude: whether an int64 operation needs a
  * bignum (tools/gen-r7rs-inc.py, lines 42-53). */
module Overflow {
  import opened Wrappers

  const INT64_MAX: int := 0x7FFF_FFFF_FFFF_FFFF
  const INT64_MIN: int := -0x8000_0000_0000_0000

  type Int64 = x: int | INT64_MIN <= x <= INT64_MAX

  predicate Fits(x: int) { INT64_MIN <= x <= INT64_MAX }

  function Abs(x: int): nat { if x < 0 then -x else x }

  /** C's quotient, which truncates toward zero. */
  function Truncated(a: int, b: int): int
    requires b != 0
  {
    if (a < 0) == (b < 0) then Abs(a) / Abs(b) else -(Abs(a) / Abs(b))
  }

  // The C operations, undefined where the exact result does not fit.

  function Checked(x: int): Option<Int64> { if Fits(x) then Some(x) else None }

  function Add(a: Int64, b: Int64): Option<Int64> { Checked(a + b) }

  function Sub(a: Int64, b: Int64): Option<Int64> { Checked(a - b) }

  function Div(a: Int64, b: Int64): Option<Int64> { if b == 0 then None else Checked(Truncated(a, b)) }

  /** Comparing what may be undefined. */
  function Above(a: Int64, x: Option<Int64>): Option<bool> { if x.Some? then Some(a > x.value) else None }

  function Below(a: Int64, x: Option<Int64>): Option<bool> { if x.Some? then Some(a < x.value) else None }

  /** Short-circuit conjunction and disjunction. */
  function And(a: bool, b: Option<bool>): Option<bool> { if a then b else Some(false) }

  function Or(a: Option<bool>, b: Option<bool>): Option<bool> {
    if a.None? then None else if a.value then Some(true) else b
  }

  /** The exact result: sum, difference, and for any other code product. */
  function Exact(op: int, a: int, b: int): int {
    if op == 0 then a + b else if op == 1 then a - b else a * b
  }

  /** The test never meets an undefined operation, and answers whether the exact result
    * lies outside int64. */
  function Overflows(op: int, a: Int64, b: Int64): (r: Option<bool>)
    ensures r == Some(!Fits(Exact(op, a, b)))
  {
    if op == 0 then Or(And(b > 0, Above(a, Sub(INT64_MAX, b))), And(b < 0, Below(a, Sub(INT64_MIN, b))))
    else if op == 1 then Or(And(b < 0, Above(a, Add(INT64_MAX, b))), And(b > 0, Below(a, Add(INT64_MIN, b))))
    else ProductOverflows(a, b)
  }

  function ProductOverflows(a: Int64, b: Int64): (r: Option<bool>)
    ensures r == Some(!Fits(a * b))
  {
    if a == 0 || b == 0 then Some(false) else
    ProductLimits(a, b);
    if a > 0 then (if b > 0 then Above(a, Div(INT64_MAX, b)) else Below(b, Div(INT64_MIN, a)))
    else if b > 0 then Below(a, Div(INT64_MIN, b))
    else Below(b, Div(INT64_MAX, a))
  }

  /** `m * n` exceeds a limit just when `m` exceeds its quotient by `n`. */
  lemma QuotientLimit(m: nat, n: nat, limit: nat)
    requires n > 0
    ensures m * n > limit <==> m > limit / n
  {
    var q := limit / n;
    assert q * n <= limit < (q + 1) * n;
    if m <= q {
      assert m * n <= q * n;
    } else {
      assert (q + 1) * n <= m * n;
    }
  }

  lemma ProductLimits(a: Int64, b: Int64)
    requires a != 0 && b != 0
    ensures Abs(a) * Abs(b) > INT64_MAX <==> Abs(a) > INT64_MAX / Abs(b)
    ensures Abs(a) * Abs(b) > INT64_MAX <==> Abs(b) > INT64_MAX / Abs(a)
    ensures Abs(a) * Abs(b) > -INT64_MIN <==> Abs(a) > -INT64_MIN / Abs(b)
    ensures Abs(a) * Abs(b) > -INT64_MIN <==> Abs(b) > -INT64_MIN / Abs(a)
    ensures (a < 0) == (b < 0) ==> a * b == Abs(a) * Abs(b)
    ensures (a < 0) != (b < 0) ==> a * b == -(Abs(a) * Abs(b))
  {
    QuotientLimit(Abs(a), Abs(b), INT64_MAX);
    QuotientLimit(Abs(b), Abs(a), INT64_MAX);
    QuotientLimit(Abs(a), Abs(b), -INT64_MIN);
    QuotientLimit(Abs(b), Abs(a), -INT64_MIN);
  }
}
