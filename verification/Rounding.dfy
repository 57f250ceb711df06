/**
  Decimal rounding as Number.prototype.toFixed performs it (section 21.1.3.3 of
  ECMA-262): to the nearest unit, ties away from zero.
*/
module Rounding {
  function Round(x: real): int {
    if x >= 0.0 then (x + 0.5).Floor else -((0.5 - x).Floor)
  }

  lemma RoundNearest(x: real)
    ensures -0.5 <= Round(x) as real - x <= 0.5
  {
  }

  /** Ties go away from zero. */
  lemma RoundTies(n: nat)
    ensures Round(n as real + 0.5) == n + 1 && Round(-(n as real) - 0.5) == -(n + 1)
  {
  }

  /** Rounding is symmetric: an exact reversal rounds to the reversed amount. */
  lemma RoundNegated(x: real)
    ensures Round(-x) == -Round(x)
  {
  }

  lemma RoundOfInt(n: int)
    ensures Round(n as real) == n
  {
  }

  lemma RoundMonotone(x: real, y: real)
    requires x <= y
    ensures Round(x) <= Round(y)
  {
  }

  /** Rounding two amounts apart or together differs by at most one unit. */
  lemma RoundOfSum(x: real, y: real)
    ensures -1 <= Round(x + y) - (Round(x) + Round(y)) <= 1
  {
    RoundNearest(x);
    RoundNearest(y);
    RoundNearest(x + y);
  }
}
