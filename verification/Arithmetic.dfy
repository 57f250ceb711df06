/** Division facts used by the calendar, the chunk count and the address blocks. */
module Arithmetic {
  /** Quotient and remainder are what they are recognised by. */
  lemma QuotientUnique(x: int, d: int, q: int, r: int)
    requires d > 0 && x == q * d + r && 0 <= r < d
    ensures x / d == q && x % d == r
  {
    var e := x / d - q;
    assert e * d == r - x % d;
    assert e >= 1 ==> e * d >= d;
    assert e <= -1 ==> e * d <= -d;
  }
}
