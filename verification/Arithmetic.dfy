/** The smaller and the larger of two numbers; division and multiplication facts for window arithmetic. */
module Arithmetic {

  function Min(a: nat, b: nat): nat { if a <= b then a else b }

  function Max(a: nat, b: nat): nat { if a <= b then b else a }

  lemma {:induction false} TimesOrder(a: nat, b: nat, d: nat)
    requires a <= b
    ensures a * d <= b * d
    decreases a
  {
    if a > 0 {
      TimesOrder(a - 1, b - 1, d);
      assert a * d == (a - 1) * d + d && b * d == (b - 1) * d + d;
    }
  }

  lemma QuotientAtMost(a: nat, d: nat, q: int)
    requires d > 0 && q >= 0 && a < (q + 1) * d
    ensures a / d <= q
  {
    assert a == a / d * d + a % d;
    if q < a / d {
      TimesOrder(q + 1, a / d, d);
    }
  }

  lemma QuotientOrder(a: nat, b: nat, d: nat)
    requires d > 0 && a <= b
    ensures a / d <= b / d
  {
    assert (b / d + 1) * d == b / d * d + d;
    QuotientAtMost(a, d, b / d);
  }

  lemma QuotientSum(a: nat, b: nat, d: nat)
    requires d > 0
    ensures (a + b) / d <= a / d + b / d + 1
  {
    var q := a / d + b / d + 1;
    assert (q + 1) * d == a / d * d + b / d * d + 2 * d;
    QuotientAtMost(a + b, d, q);
  }

  lemma QuotientIs(a: nat, d: nat, q: nat)
    requires d > 0 && q * d <= a < q * d + d
    ensures a / d == q
  {
    assert (q + 1) * d == q * d + d;
    QuotientAtMost(a, d, q);
    assert a == a / d * d + a % d;
    if a / d < q {
      assert (a / d + 1) * d == a / d * d + d;
      TimesOrder(a / d + 1, q, d);
    }
  }
}
