/** Powers of two, and the multiplication and division facts the other modules need. */
module Numbers {

  function Pow2(n: nat): (p: nat)
    ensures p >= 1
  {
    if n == 0 then 1 else 2 * Pow2(n - 1)
  }

  lemma {:induction false} Pow2Add(a: nat, b: nat)
    ensures Pow2(a + b) == Pow2(a) * Pow2(b)
  {
    if a > 0 {
      Pow2Add(a - 1, b);
      assert 2 * (Pow2(a - 1) * Pow2(b)) == (2 * Pow2(a - 1)) * Pow2(b);
    }
  }

  lemma {:induction false} Pow2Monotone(a: nat, b: nat)
    requires a <= b
    ensures Pow2(a) <= Pow2(b)
  {
    if a < b {
      Pow2Monotone(a, b - 1);
    }
  }

  // ----- multiplication and division of naturals

  lemma {:induction false} MulMonotone(a: nat, b: nat, c: nat)
    requires a <= b
    ensures a * c <= b * c
  {
    if c > 0 {
      MulMonotone(a, b, c - 1);
      assert a * c == a * (c - 1) + a;
      assert b * c == b * (c - 1) + b;
    }
  }

  lemma MulStep(a: nat, b: nat, d: nat)
    requires a < b
    ensures a * d + d <= b * d
  {
    MulMonotone(a + 1, b, d);
    assert (a + 1) * d == a * d + d;
  }

  lemma Distribute(a: int, b: int, c: int)
    ensures a * (b + c) == a * b + a * c
  {
  }

  lemma MulAssoc(a: int, b: int, c: int)
    ensures a * (b * c) == (a * b) * c
  {
  }

  /** A digit below the base and a carry below the place fit under the next place. */
  lemma FitsBelow(r: nat, q: nat, p: nat, c: nat)
    requires r < q && c < p
    ensures r * p + c < q * p
  {
    MulStep(r, q, p);
  }

  lemma DivModUnique(a: nat, d: nat, q: nat, r: nat)
    requires d > 0 && a == q * d + r && r < d
    ensures a / d == q && a % d == r
  {
    var q', r' := a / d, a % d;
    assert a == q' * d + r';
    if q' < q {
      MulStep(q', q, d);
    } else if q < q' {
      MulStep(q, q', d);
    }
  }

  lemma DivMod(a: nat, d: nat)
    requires d > 0
    ensures a == (a / d) * d + a % d && 0 <= a % d < d && a / d >= 0
  {
  }

  /** Multiplying by p inside a word of p * q moves the top part out and keeps the rest. */
  lemma SplitProduct(x: nat, p: nat, q: nat)
    requires p > 0 && q > 0 && p * q > 0 && x < p * q
    ensures (x * p) / (p * q) == x / q && (x * p) % (p * q) == (x % q) * p && x / q < p
    ensures x * p == (x / q) * (p * q) + (x % q) * p
  {
    var h, r := x / q, x % q;
    DivMod(x, q);
    assert x * p == h * (p * q) + r * p by {
      assert (h * q + r) * p == (h * q) * p + r * p;
      MulAssoc(h, p, q);
      assert (h * q) * p == (h * p) * q;
    }
    FitsBelow(r, q, p, 0);
    assert q * p == p * q;
    DivModUnique(x * p, p * q, h, r * p);
    if h >= p {
      MulMonotone(p, h, q);
    }
  }

  /** Dividing by a product is dividing twice. */
  lemma DivTwice(a: nat, b: nat, c: nat)
    requires b > 0 && c > 0
    ensures b * c > 0 && a / (b * c) == (a / b) / c
  {
    var q := a / b;
    var r := a % b;
    var q2 := q / c;
    var r2 := q % c;
    DivMod(a, b);
    DivMod(q, c);
    assert q * b == (q2 * c + r2) * b == q2 * (b * c) + r2 * b by {
      assert (q2 * c) * b == q2 * (b * c);
      assert (q2 * c + r2) * b == (q2 * c) * b + r2 * b;
    }
    MulMonotone(r2 + 1, c, b);
    assert (r2 + 1) * b == r2 * b + b;
    assert b * c == c * b;
    DivModUnique(a, b * c, q2, r2 * b + r);
  }
}
