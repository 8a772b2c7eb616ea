/** Small functions on numbers, and facts about division that the solver does not find
    unaided. */
module Arithmetic {

  function Min(a: nat, b: nat): nat {
    if a <= b then a else b
  }

  function One(b: bool): nat {
    if b then 1 else 0
  }

  function Pow2(n: nat): (p: nat)
    ensures p >= 1
  {
    if n == 0 then 1 else 2 * Pow2(n - 1)
  }

  lemma {:induction false} DivMod(x: nat, d: nat)
    requires d > 0
    ensures x == d * (x / d) + x % d && 0 <= x % d < d
  {
  }

  lemma {:induction false} MulGap(p: nat, q: nat, d: nat)
    requires p > q
    ensures d * p >= d * q + d
  {
    if p > q + 1 { MulGap(p - 1, q, d); }
    assert d * p == d * (p - 1) + d;
  }

  /** The quotient is the one number whose multiple lies at most d - 1 below x. */
  lemma {:induction false} Quotient(x: nat, d: nat, q: nat)
    requires d > 0
    ensures d * q <= x < d * q + d <==> q == x / d
  {
    DivMod(x, d);
    var p := x / d;
    if q < p { MulGap(p, q, d); } else if p < q { MulGap(q, p, d); }
  }

  lemma {:induction false} QuotientMonotone(a: nat, b: nat, d: nat)
    requires d > 0 && a <= b
    ensures a / d <= b / d
  {
    DivMod(a, d);
    DivMod(b, d);
    if b / d < a / d { MulGap(a / d, b / d, d); }
  }
}
