/** What schoolbook multiplication keeps, column by column and row by row. */
module LimbProducts {
  import opened Numbers
  import opened Limbs

  /** After some columns of row j: the digits r and the carry c hold s plus x * BASE^j times t. */
  ghost predicate RowSoFar(r: seq<Limb>, c: nat, s: seq<Limb>, x: Limb, j: nat, t: seq<Limb>) {
    |r| == |s| == |t| + j && Val(r) + Pow32(|r|) * c == Val(s) + (Pow32(j) * x) * Val(t)
  }

  lemma Column(r: seq<Limb>, c: nat, s: seq<Limb>, x: Limb, j: nat, t: seq<Limb>, y: Limb, z: Limb, h: nat, l: Limb)
    requires RowSoFar(r, c, s, x, j, t) && c + y + x * z == BASE * h + l
    ensures RowSoFar(r + [l], h, s + [y], x, j, t + [z])
  {
    ValAppend(r, l);
    ValAppend(s, y);
    ValAppend(t, z);
    Pow32Step(|r|);
    Pow2Add(32 * |t|, 32 * j);
    ColumnDigits(Pow32(|t|), Pow32(j), c, x, y, z, h, l, Val(t));
  }

  lemma ColumnDigits(p: nat, q: nat, c: nat, x: nat, y: nat, z: nat, h: nat, l: nat, v: nat)
    requires c + y + x * z == BASE * h + l
    ensures (p * q) * l + (BASE * (p * q)) * h + (q * x) * v == (p * q) * c + (p * q) * y + (q * x) * (v + p * z)
  {
    var w := p * q;
    assert (BASE * w) * h == w * (BASE * h);
    assert w * (BASE * h + l) == w * (BASE * h) + w * l;
    assert w * (c + y + x * z) == w * c + w * y + w * (x * z);
    assert (q * x) * (v + p * z) == (q * x) * v + (q * x) * (p * z);
    assert w * (x * z) == (q * x) * (p * z);
  }

  /** The carry out of a column stays below the base. */
  lemma CarryFits(c: nat, y: Limb, x: Limb, z: Limb)
    requires c < BASE
    ensures (c + y + x * z) / BASE < BASE
  {
    MulMonotone(x, BASE - 1, z);
    assert x * z <= (BASE - 1) * (BASE - 1);
  }

  /** One column in place: limb i + j of the product becomes the digit l. */
  lemma ColumnInPlace(a: seq<Limb>, pre: seq<Limb>, c: nat, x: Limb, j: nat, b: seq<Limb>, i: nat, h: nat, l: Limb)
    requires i + j < |a| == |pre| == |b| && a[i + j] == pre[i + j]
    requires RowSoFar(a[..i + j], c, pre[..i + j], x, j, b[..i]) && c + a[i + j] + x * b[i] == BASE * h + l
    ensures RowSoFar(a[i + j := l][..i + j + 1], h, pre[..i + j + 1], x, j, b[..i + 1])
  {
    Column(a[..i + j], c, pre[..i + j], x, j, b[..i], pre[i + j], b[i], h, l);
    assert a[i + j := l][..i + j + 1] == a[..i + j] + [l];
    assert pre[..i + j + 1] == pre[..i + j] + [pre[i + j]];
    assert b[..i + 1] == b[..i] + [b[i]];
  }

  lemma RowEnds(a: seq<Limb>, c: nat, pre: seq<Limb>, x: Limb, j: nat, b: seq<Limb>)
    requires j <= |b| == |a| == |pre| && RowSoFar(a, c, pre, x, j, b[..|b| - j])
    ensures RowAdded(Val(pre), Val(a), c, x, j, b)
  {
    assert Pow32(|a|) * c == c * Modulus(|b|);
  }

  lemma RowStarts(s: seq<Limb>, x: Limb, j: nat)
    requires |s| == j
    ensures RowSoFar(s, 0, s, x, j, [])
  {
  }

  /** A whole row added to a product; what falls off the top is a multiple of the modulus. */
  ghost predicate RowAdded(a: nat, a': nat, carry: nat, x: Limb, j: nat, b: seq<Limb>)
    requires j <= |b|
  {
    a' + carry * Modulus(|b|) == a + (Pow32(j) * x) * Val(b[..|b| - j])
  }

  /** Some rows added: a is u * b up to a multiple of the modulus. */
  ghost predicate ProductSoFar(a: nat, k: nat, u: nat, b: seq<Limb>) {
    a + k * Modulus(|b|) == u * Val(b)
  }

  lemma Row(a: nat, k: nat, a': nat, carry: nat, p: seq<Limb>, j: nat, b: seq<Limb>) returns (k': nat)
    requires j < |b| == |p| && ProductSoFar(a, k, Val(p[..j]), b) && RowAdded(a, a', carry, p[j], j, b)
    ensures ProductSoFar(a', k', Val(p[..j + 1]), b)
  {
    var n := |b| - j;
    var lo, hi, v := Val(b[..n]), Val(b[n..]), Val(b);
    assert v == lo + Pow32(n) * hi by {
      assert b == b[..n] + b[n..];
      ValConcat(b[..n], b[n..]);
    }
    assert Modulus(|b|) == Pow32(j) * Pow32(n) by {
      Pow2Add(32 * j, 32 * n);
    }
    ValPrefix(p, j);
    k' := RowSum(a, k, a', carry, Val(p[..j]), p[j], Pow32(j), Pow32(n), Modulus(|b|), lo, hi, v);
  }

  lemma RowSum(a: nat, k: nat, a': nat, carry: nat, u: nat, x: nat, q: nat, p: nat, m: nat, lo: nat, hi: nat, v: nat)
    returns (k': nat)
    requires m == q * p && v == lo + p * hi && a + k * m == u * v && a' + carry * m == a + (q * x) * lo
    ensures a' + k' * m == (u + q * x) * v
  {
    k' := carry + k + x * hi;
    var w := q * x;
    Sum3(carry, k, x * hi, m);
    Regroup(x, hi, q, p);
    Sum3(u, w, 0, v);
    Distribute(w, lo, p * hi);
  }

  lemma Sum3(a: nat, b: nat, c: nat, m: nat)
    ensures (a + b + c) * m == a * m + b * m + c * m
  {
  }

  lemma Regroup(x: nat, y: nat, q: nat, p: nat)
    ensures (x * y) * (q * p) == (q * x) * (p * y)
  {
  }

  lemma ProductDone(a: nat, k: nat, u: nat, v: nat, m: nat)
    requires a < m && a + k * m == u * v
    ensures a == (u * v) % m
  {
    DivModUnique(u * v, m, k, a);
  }

  lemma ProductStarts(a: seq<Limb>, b: seq<Limb>)
    requires forall i :: 0 <= i < |a| ==> a[i] == 0
    ensures ProductSoFar(Val(a), 0, 0, b)
  {
    ValZeros(a);
  }
}
