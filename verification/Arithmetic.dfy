/** The few facts about products and quotients that the bounds on waiting and on admission need. */
module Arithmetic {

  function Pow2(n: nat): (p: nat)
    ensures p >= 1
  {
    if n == 0 then 1 else 2 * Pow2(n - 1)
  }

  lemma TimesMonotone(a: nat, b: nat, n: nat)
    requires a <= b
    ensures a * n <= b * n
  {
  }

  lemma TimesStep(a: nat, n: nat)
    ensures (a + 1) * n == a * n + n
  {
  }

  /** A quotient is the largest number of times the divisor fits. */
  lemma DivideBound(c: nat, n: nat, q: nat)
    requires n > 0 && c * n <= q
    ensures c <= q / n
  {
    var d := q / n;
    assert q < d * n + n;
    if d + 1 <= c {
      TimesMonotone(d + 1, c, n);
    }
  }

  lemma DivideMonotone(a: nat, b: nat, n: nat)
    requires n > 0 && a <= b
    ensures a / n <= b / n
  {
    DivideBound(a / n, n, b);
  }

  lemma DivideShift(a: nat, m: nat, n: nat)
    requires n > 0
    ensures (a + m * n) / n == a / n + m
  {
    var q, r := a / n, a % n;
    assert a + m * n == (q + m) * n + r;
    QuotientIs(q + m, r, n);
  }

  lemma QuotientIs(q: nat, r: nat, n: nat)
    requires 0 <= r < n
    ensures (q * n + r) / n == q
  {
    var p := (q * n + r) / n;
    assert p * n <= q * n + r < p * n + n;
    if p + 1 <= q {
      TimesMonotone(p + 1, q, n);
    } else if q + 1 <= p {
      TimesMonotone(q + 1, p, n);
    }
  }
}
