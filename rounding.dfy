/** Decimal rounding as the programs use it for display and publication:
    `(x * scale).round() / scale`, where `f64::round` rounds half-way cases
    away from zero. Stated on the reals; the binary representation of the
    scaled value is not modelled. */
module Rounding {

  /** `f64::round`: the nearest integer, half-way cases away from zero. */
  function Round(x: real): (n: int)
    ensures x - 0.5 <= n as real <= x + 0.5
    ensures n as real == x + 0.5 ==> x >= 0.0
    ensures n as real == x - 0.5 ==> x < 0.0
  {
    if x >= 0.0 then (x + 0.5).Floor else -((-x + 0.5).Floor)
  }

  /** `(x * scale).round() / scale`: `x` to the nearest multiple of
      `1 / scale`. */
  function RoundTo(x: real, scale: real): (r: real)
    requires scale > 0.0
    ensures r * scale == Round(x * scale) as real
  {
    Round(x * scale) as real / scale
  }

  /** An integer is its own rounding. */
  lemma RoundInteger(n: int)
    ensures Round(n as real) == n
  {
  }

  /** Rounding to `1 / scale` moves a value by at most half a step. */
  lemma RoundToError(x: real, scale: real)
    requires scale > 0.0
    ensures x - 0.5 / scale <= RoundTo(x, scale) <= x + 0.5 / scale
  {
    var n := Round(x * scale) as real;
    assert x * scale - 0.5 <= n <= x * scale + 0.5;
    assert n / scale == RoundTo(x, scale);
    assert (x * scale - 0.5) / scale == x - 0.5 / scale;
    assert (x * scale + 0.5) / scale == x + 0.5 / scale;
    DivideMonotone(x * scale - 0.5, n, scale);
    DivideMonotone(n, x * scale + 0.5, scale);
  }

  /** Division by a positive number keeps order. */
  lemma DivideMonotone(a: real, b: real, scale: real)
    requires scale > 0.0 && a <= b
    ensures a / scale <= b / scale
  {
    assert b / scale - a / scale == (b - a) / scale;
  }

  /** A rounded value is already on the grid: rounding it again changes
      nothing, so a published value is stable when it is re-published. */
  lemma RoundToIdempotent(x: real, scale: real)
    requires scale > 0.0
    ensures RoundTo(RoundTo(x, scale), scale) == RoundTo(x, scale)
  {
    var n := Round(x * scale);
    assert RoundTo(x, scale) * scale == n as real;
    RoundInteger(n);
  }
}
