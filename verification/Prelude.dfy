/** Small shared vocabulary: optional values, and real arithmetic on percentages. */
module Prelude {

  datatype Option<+T> = None | Some(value: T)

  function Abs(x: real): real { if x < 0.0 then -x else x }

  function Min(x: real, y: real): real { if x <= y then x else y }

  function Max(x: real, y: real): real { if x >= y then x else y }

  /** `max(0.0, min(100.0, x))`, the clamp every percentage helper applies. */
  function Clamp(x: real): real { Max(0.0, Min(100.0, x)) }

  predicate Percent(x: real) { 0.0 <= x <= 100.0 }

  predicate OptionalPercent(x: Option<real>) { x.Some? ==> Percent(x.value) }

  /** Python's one-argument `round`: nearest integer, ties to the even one. */
  function RoundHalfEven(x: real): (n: int)
    ensures Abs(n as real - x) <= 0.5
    ensures Abs(n as real - x) == 0.5 ==> n % 2 == 0
  {
    var f := x.Floor;
    var d := x - f as real;
    if d < 0.5 || (d == 0.5 && f % 2 == 0) then f else f + 1
  }

  /** `round(x, 1)` with exact arithmetic in place of binary floating point. */
  function Round1(x: real): real { RoundHalfEven(x * 10.0) as real / 10.0 }

  /** `round(x, 2)` with exact arithmetic. */
  function Round2(x: real): real { RoundHalfEven(x * 100.0) as real / 100.0 }

  lemma RoundMonotone(x: real, y: real)
    requires x <= y
    ensures RoundHalfEven(x) <= RoundHalfEven(y)
  {
  }

  lemma RoundInteger(n: int)
    ensures RoundHalfEven(n as real) == n
  {
    assert (n as real).Floor == n;
  }

  lemma Round1Percent(x: real)
    requires Percent(x)
    ensures Percent(Round1(x))
  {
    RoundInteger(0);
    RoundInteger(1000);
    RoundMonotone(0.0, x * 10.0);
    RoundMonotone(x * 10.0, 1000.0);
  }

  // Real arithmetic with variable factors, one step at a time.

  lemma ProductNonNegative(x: real, y: real)
    requires x >= 0.0 && y >= 0.0
    ensures x * y >= 0.0
  {
  }

  lemma ProductPositive(x: real, y: real)
    requires x > 0.0 && y > 0.0
    ensures x * y > 0.0
  {
  }

  lemma QuotientPositive(d: real, span: real)
    requires d > 0.0 && span > 0.0
    ensures d / span > 0.0
  {
    Quotient(d, span);
    ProductOrder(d / span, 0.0, span);
  }

  lemma Distribute(x: real, y: real, z: real)
    ensures (x - y) * z == x * z - y * z
  {
  }

  lemma Quotient(d: real, span: real)
    requires span != 0.0
    ensures d / span * span == d && span * (d / span) == d
  {
  }

  /** A product keeps the order of its first factor, or reverses it with the sign of the second. */
  lemma ProductOrder(x: real, y: real, span: real)
    requires span != 0.0
    ensures x <= y <==> if span > 0.0 then x * span <= y * span else y * span <= x * span
  {
    Distribute(y, x, span);
    Distribute(x, y, span);
    if x < y {
      if span > 0.0 { ProductPositive(y - x, span); } else { ProductPositive(y - x, -span); }
    } else if y < x {
      if span > 0.0 { ProductPositive(x - y, span); } else { ProductPositive(x - y, -span); }
    }
  }
}
