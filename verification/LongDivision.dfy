/** What one step of shift-and-subtract division keeps, on numbers and on the quotient's limbs. */
module LongDivision {
  import opened Numbers
  import opened Limbs
  import opened LimbShifts

  /** n is the remainder so far plus the quotient so far times d; bits below t are still to be found. */
  ghost predicate Dividing(n: nat, d: nat, num: nat, q: nat, z: nat, t: nat) {
    n == num + q * d && num < d * Pow2(t) && q == z * Pow2(t)
  }

  lemma Subtracted(n: nat, d: nat, num: nat, q: nat, z: nat, s: nat)
    requires Dividing(n, d, num, q, z, s + 1) && num >= d * Pow2(s)
    ensures Dividing(n, d, num - d * Pow2(s), q + Pow2(s), 2 * z + 1, s)
  {
    SubtractedAt(n, d, num, q, z, Pow2(s));
  }

  lemma SubtractedAt(n: nat, d: nat, num: nat, q: nat, z: nat, p: nat)
    requires n == num + q * d && num < d * (2 * p) && q == z * (2 * p)
    ensures n == num - d * p + (q + p) * d && num - d * p < d * p && q + p == (2 * z + 1) * p
  {
    assert d * (2 * p) == 2 * (d * p);
    assert (q + p) * d == q * d + d * p;
    assert (2 * z + 1) * p == z * (2 * p) + p;
  }

  lemma Skipped(n: nat, d: nat, num: nat, q: nat, z: nat, s: nat)
    requires Dividing(n, d, num, q, z, s + 1) && num < d * Pow2(s)
    ensures Dividing(n, d, num, q, 2 * z, s)
  {
    assert (2 * z) * Pow2(s) == z * (2 * Pow2(s));
  }

  lemma Divided(n: nat, d: nat, num: nat, q: nat, z: nat)
    requires d > 0 && Dividing(n, d, num, q, z, 0)
    ensures q == n / d
  {
    assert Pow2(0) == 1;
    DivModUnique(n, d, q, num);
  }

  /** A dividend with fewer bits than the divisor gives zero. */
  lemma FewerBits(n: nat, nb: nat, d: nat, db: nat)
    requires nb < db && n < Pow2(nb) && Pow2(db - 1) <= d
    ensures d > 0 && n / d == 0
  {
    Pow2Monotone(nb, db - 1);
    DivModUnique(n, d, 0, n);
  }

  /** Aligning the top bits loses nothing in a width that holds the dividend, and starts the loop. */
  lemma Aligned(n: nat, nb: nat, d: nat, db: nat, width: nat)
    requires 0 < db <= nb <= 32 * width && n < Pow2(nb) && Pow2(db - 1) <= d < Pow2(db)
    ensures (d * Pow2(nb - db)) % Modulus(width) == d * Pow2(nb - db)
    ensures Dividing(n, d, n, 0, 0, nb - db + 1)
  {
    var p := Pow2(nb - db);
    Pow2Add(db, nb - db);
    MulStep(d, Pow2(db), p);
    Pow2Monotone(nb, 32 * width);
    DivModUnique(d * p, Modulus(width), 0, d * p);
    Pow2Add(db - 1, nb - db + 1);
    MulMonotone(Pow2(db - 1), d, Pow2(nb - db + 1));
  }

  /** The limb that is to receive bit `shift` of the quotient has only higher bits set. */
  lemma LimbAboveBit(q: seq<Limb>, z: nat, i: nat, m: nat)
    requires i < |q| && m < 32 && Val(q) == z * Pow2(32 * i + m + 1)
    ensures q[i] % Pow2(m + 1) == 0
  {
    var p, r := Pow2(m + 1), Pow2(31 - m);
    Pow2Add(m + 1, 32 * i);
    MulAssoc(z, p, Pow32(i));
    DivModUnique(Val(q), Pow32(i), z * p, 0);
    ValSplit(q, i);
    assert q[i..] == [q[i]] + q[i + 1..];
    ValCons(q[i], q[i + 1..]);
    PowParts(m + 1);
    var v := Val(q[i + 1..]);
    MultipleOfPart(q[i], p, r, v, z);
  }

  lemma MultipleOfPart(x: nat, p: nat, r: nat, v: nat, z: nat)
    requires p > 0 && x + (p * r) * v == z * p
    ensures x % p == 0
  {
    assert (p * r) * v == (r * v) * p;
    assert x == (z - r * v) * p;
    if z < r * v {
      MulStep(z, r * v, p);
    } else {
      DivModUnique(x, p, z - r * v, 0);
    }
  }

  /** Setting that bit with an or adds its weight to the quotient. */
  lemma BitIsSet(q: seq<Limb>, z: nat, shift: nat)
    requires shift / 32 < |q| && Val(q) == z * Pow2(shift + 1)
    ensures var i, bit := shift / 32, Pow2(shift % 32);
            Or(q[i], bit) < BASE && Val(q[i := Or(q[i], bit)]) == Val(q) + Pow2(shift)
  {
    var i, m := shift / 32, shift % 32;
    LimbAboveBit(q, z, i, m);
    OrBit(q[i], m);
    AddBit(q, i, m);
  }

  lemma AddBit(q: seq<Limb>, i: nat, m: nat)
    requires i < |q| && q[i] + Pow2(m) < BASE
    ensures Val(q[i := q[i] + Pow2(m)]) == Val(q) + Pow2(32 * i + m)
  {
    ValUpdate(q, i, q[i] + Pow2(m));
    Distribute(Pow32(i), q[i], Pow2(m));
    Pow2Add(32 * i, m);
  }

  lemma OrBit(x: Limb, m: nat)
    requires m < 32 && x % Pow2(m + 1) == 0
    ensures Or(x, Pow2(m)) == x + Pow2(m) < BASE
  {
    var h := x / Pow2(m + 1);
    DivMod(x, Pow2(m + 1));
    OrDisjoint(x, Pow2(m), h, m + 1);
    RoomForBit(h, m);
  }

  lemma RoomForBit(h: nat, m: nat)
    requires m < 32 && h * Pow2(m + 1) < BASE
    ensures h * Pow2(m + 1) + Pow2(m) < BASE
  {
    PowParts(m + 1);
    var p, r := Pow2(m + 1), Pow2(31 - m);
    assert r * p == p * r;
    if h >= r {
      MulMonotone(r, h, p);
    } else {
      MulStep(h, r, p);
    }
  }
}
