/** Facts about products, quotients and remainders that the solver needs spelled out. */
module Arith {

  function Power(k: nat): nat {
    if k == 0 then 1 else 2 * Power(k - 1)
  }

  lemma MulMonotone(a: nat, b: nat, s: nat)
    requires a <= b
    ensures a * s <= b * s
  {
    var d := b - a;
    assert b * s == a * s + d * s;
  }

  /** Multiples of `s` are ordered as their factors are, and a whole `s` apart. */
  lemma MultiplesOrdered(p: int, q: int, s: nat)
    requires s >= 1
    ensures p * s < q * s <==> p < q
    ensures p < q ==> p * s + s <= q * s
  {
    if p < q {
      Gap(p, q, s);
    } else {
      Gap(q, p, s);
    }
  }

  lemma Gap(p: int, q: int, s: nat)
    requires p <= q
    ensures p * s <= q * s
    ensures p < q ==> p * s + s <= q * s
  {
    var d := q - p;
    assert q * s == p * s + d * s;
    if d > 0 {
      assert d * s == (d - 1) * s + s;
    }
  }

  /** Quotient and remainder are the only ones that fit. */
  lemma DivModUnique(n: int, d: nat, q: int, r: int)
    requires d >= 1 && n == q * d + r && 0 <= r < d
    ensures n / d == q && n % d == r
  {
    DivMod(n, d);
    if q < n / d {
      Gap(q + 1, n / d, d);
    } else if n / d < q {
      Gap(n / d + 1, q, d);
    }
  }

  lemma DivMod(n: int, d: nat)
    requires d >= 1
    ensures n == n / d * d + n % d && 0 <= n % d < d
  {
  }

  lemma MultipleOf(q: int, s: nat)
    requires s >= 1
    ensures (q * s) % s == 0 && (q * s) / s == q
  {
    DivModUnique(q * s, s, q, 0);
  }

  const FULL_PERMILLE: nat := 1000

  function Permille(part: nat, total: nat): nat
    requires 0 < total
  {
    part * FULL_PERMILLE / total
  }

  lemma PermilleBounds(part: nat, total: nat)
    requires 0 < total && part <= total
    ensures Permille(part, total) <= FULL_PERMILLE
    ensures part == total ==> Permille(part, total) == FULL_PERMILLE
  {
    var p := Permille(part, total);
    DivMod(part * FULL_PERMILLE, total);
    if p > FULL_PERMILLE {
      Gap(FULL_PERMILLE + 1, p, total);
    }
    if part == total {
      MultipleOf(FULL_PERMILLE, total);
    }
  }
}
