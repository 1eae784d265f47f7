/**
 Division facts that the solver needs spelled out.
 */
module Arith {
  lemma MulLe(a: nat, b: nat, s: nat)
    requires a <= b
    ensures a * s <= b * s
  {}

  lemma Small(s: int, d: int)
    requires s > 0 && -s < s * d < s
    ensures d == 0
  {
    assert d >= 1 ==> s * (d - 1) >= 0;
    assert d <= -1 ==> s * (-1 - d) >= 0;
  }

  // Quotient and remainder are unique.
  lemma DivMod(a: int, s: int, q: int, r: int)
    requires s > 0 && a == s * q + r && 0 <= r < s
    ensures a / s == q && a % s == r
  {
    var q', r' := a / s, a % s;
    assert s * (q' - q) == s * q' - s * q;
    Small(s, q' - q);
  }
}
