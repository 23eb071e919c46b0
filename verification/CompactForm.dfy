/** The compact form of a difficulty target: what it stands for, and the arithmetic behind a block's proof. */
module CompactForm {
  import opened Numbers
  import opened Limbs
  import opened LimbShifts

  const LIMIT: nat := Pow2(256)

  /** The fields of a compact number: a size in bytes, a sign bit and a 23-bit mantissa. */
  function Size(n: Limb): nat { n / 0x100_0000 }
  predicate SignBit(n: Limb) { (n / 0x80_0000) % 2 == 1 }
  function Mantissa(n: Limb): Limb { n % 0x80_0000 }

  /** The number a compact form stands for, however large: its mantissa scaled by bytes. */
  function CompactValue(n: Limb): nat {
    if Size(n) <= 3 then ScaleDown(Mantissa(n), 3 - Size(n)) else ScaleUp(Mantissa(n), Size(n) - 3)
  }

  function ScaleUp(word: nat, bytes: nat): nat { word * Pow2(8 * bytes) }

  function ScaleDown(word: nat, bytes: nat): (r: nat)
    ensures r <= word
  {
    DivMod(word, Pow2(8 * bytes));
    MulMonotone(1, Pow2(8 * bytes), word / Pow2(8 * bytes));
    word / Pow2(8 * bytes)
  }

  lemma SmallPowers()
    ensures Pow2(0) == 1 && Pow2(8) == 0x100 && Pow2(16) == 0x1_0000 && Pow2(24) == 0x100_0000
  {
    assert Pow2(4) == 16;
    Pow2Add(4, 4);
    Pow2Add(8, 8);
    Pow2Add(8, 16);
  }

  // ----- decoding

  lemma ModSmall(x: nat, m: nat)
    requires x < m
    ensures x % m == x
  {
    DivModUnique(x, m, 0, x);
  }

  /** A mantissa in the given range, scaled up by so many bytes, is at least 2^256 or is below it. */
  lemma Scaled(word: nat, bytes: nat, low: nat, high: nat)
    requires word < 0x80_0000 && low <= 24 && high <= 24
    ensures Pow2(low) <= word && low + 8 * bytes >= 256 ==> ScaleUp(word, bytes) >= LIMIT
    ensures word < Pow2(high) && high + 8 * bytes <= 256 ==> ScaleUp(word, bytes) < LIMIT
  {
    var p := Pow2(8 * bytes);
    if Pow2(low) <= word && low + 8 * bytes >= 256 {
      Pow2Add(low, 8 * bytes);
      Pow2Monotone(256, low + 8 * bytes);
      MulMonotone(Pow2(low), word, p);
    }
    if word < Pow2(high) && high + 8 * bytes <= 256 {
      Pow2Add(high, 8 * bytes);
      Pow2Monotone(high + 8 * bytes, 256);
      MulStep(word, Pow2(high), p);
    }
  }

  lemma OverflowIsExact(word: Limb, size: nat)
    requires word < 0x80_0000 && size > 3
    ensures ScaleUp(word, size - 3) >= LIMIT
      <==> word != 0 && (size > 34 || (word > 0xff && size > 33) || (word > 0xffff && size > 32))
  {
    SmallPowers();
    var bytes := size - 3;
    if word == 0 {
      assert 0 * Pow2(8 * bytes) == 0;
    } else {
      Scaled(word, bytes, 0, 24);
      Scaled(word, bytes, 8, 8);
      Scaled(word, bytes, 16, 16);
    }
  }

  /** The value is zero exactly when the scaled mantissa is, and only a long form can be too large. */
  lemma CompactCases(n: Limb)
    ensures Size(n) <= 3 ==> CompactValue(n) <= Mantissa(n) < LIMIT && CompactValue(n) % LIMIT == CompactValue(n)
    ensures Size(n) > 3 ==> (CompactValue(n) == 0 <==> Mantissa(n) == 0)
  {
    SmallPowers();
    Pow2Monotone(24, 256);
    if Size(n) <= 3 {
      ModSmall(CompactValue(n), LIMIT);
    } else {
      MulMonotone(1, Pow2(8 * (Size(n) - 3)), Mantissa(n));
    }
  }

  /** In one formula: 23 bits, times 256 for every unit of the top byte beyond three. */
  lemma CompactInNumbers(n: Limb)
    ensures CompactValue(n) == (n % 0x80_0000) * Pow2(8 * (n / 0x100_0000)) / 0x100_0000
  {
    var m, s := n % 0x80_0000, n / 0x100_0000;
    SmallPowers();
    if s <= 3 {
      ScaledDownFormula(m, s);
    } else {
      LongValue(m, s);
      DivModUnique(m * Pow2(8 * s), 0x100_0000, ScaleUp(m, s - 3), 0);
    }
  }

  lemma ScaledDownFormula(m: nat, s: nat)
    requires s <= 3
    ensures ScaleDown(m, 3 - s) == m * Pow2(8 * s) / 0x100_0000
  {
    var p, q := Pow2(8 * (3 - s)), Pow2(8 * s);
    SmallPowers();
    Pow2Add(8 * (3 - s), 8 * s);
    DivMod(m, p);
    var d, r := m / p, m % p;
    MulStep(r, p, q);
    assert m * q == d * (p * q) + r * q by {
      MulAssoc(d, p, q);
      Distribute(q, d * p, r);
    }
    DivModUnique(m * q, p * q, d, r * q);
  }

  // ----- the work of a block

  /** No proper target is 2^256 - 1, so adding one to it does not wrap. */
  lemma TargetHasRoom(n: Limb)
    requires CompactValue(n) < LIMIT
    ensures CompactValue(n) + 1 < LIMIT
  {
    CompactCases(n);
    SmallPowers();
    Pow2Monotone(24, 255);
    if Size(n) > 3 {
      HalfMultiple(CompactValue(n), Mantissa(n), 8 * (Size(n) - 3));
    }
  }

  /** The inverted target divided by the target plus one is one short of 2^256 divided by it. */
  lemma ProofIdentity(limit: nat, t: nat)
    requires t + 1 <= limit
    ensures (limit - 1 - t) / (t + 1) + 1 == limit / (t + 1)
  {
    var d := t + 1;
    var q, r := (limit - d) / d, (limit - d) % d;
    DivMod(limit - d, d);
    assert (q + 1) * d == q * d + d;
    DivModUnique(limit, d, q + 1, r);
  }

  /** The quotient fits and leaves room for the last increment. */
  lemma ProofFits(limit: nat, t: nat)
    requires 0 < t < limit
    ensures limit / (t + 1) < limit
  {
    var q := limit / (t + 1);
    DivMod(limit, t + 1);
    MulMonotone(2, t + 1, q);
    assert q * (t + 1) == (t + 1) * q;
  }

  /** The same with the wrap-around of every step written out. */
  lemma ProofDoesNotWrap(t: nat)
    requires 0 < t && t + 1 < LIMIT
    ensures (t + 1) % LIMIT == t + 1
    ensures ((LIMIT - 1 - t) / (t + 1) + 1) % LIMIT == LIMIT / (t + 1)
  {
    ModSmall(t + 1, LIMIT);
    ProofIdentity(LIMIT, t);
    ProofFits(LIMIT, t);
    ModSmall(LIMIT / (t + 1), LIMIT);
  }

  // ----- encoding

  /** A number of so many bytes fills its three top bytes. */
  lemma Normalised(v: nat, size: nat, mant: nat)
    requires v > 0 && Pow2(8 * size) > v && (size > 0 ==> Pow2(8 * (size - 1)) <= v)
    requires mant == TopBytes(v, size)
    ensures 0x1_0000 <= mant < 0x100_0000
  {
    SmallPowers();
    if size == 0 {
      assert false;
    } else if size <= 3 {
      var p := Pow2(8 * (3 - size));
      Pow2Add(8 * size, 8 * (3 - size));
      Pow2Add(8 * (size - 1), 8 * (3 - size));
      MulStep(v, Pow2(8 * size), p);
      MulMonotone(Pow2(8 * (size - 1)), v, p);
    } else {
      var p := Pow2(8 * (size - 3));
      Pow2Add(24, 8 * (size - 3));
      Pow2Add(16, 8 * (size - 3));
      DivMod(v, p);
      if mant >= 0x100_0000 {
        MulMonotone(0x100_0000, mant, p);
      }
      if mant < 0x1_0000 {
        MulStep(mant, 0x1_0000, p);
      }
    }
  }

  /** How many low bytes a compact form cannot hold. */
  function BytesCut(n: Limb): nat { if Size(n) > 3 then Size(n) - 3 else 0 }

  function Pack(mant: Limb, size: nat, negative: bool): Limb
    requires mant < 0x80_0000 && size < 256
  {
    mant + size * 0x100_0000 + if negative && mant != 0 then 0x80_0000 else 0
  }

  lemma Unpack(mant: Limb, size: nat, negative: bool)
    requires mant < 0x80_0000 && size < 256
    ensures var n := Pack(mant, size, negative);
            Mantissa(n) == mant && Size(n) == size && (SignBit(n) <==> negative && mant != 0)
  {
  }

  lemma ScaledBack(v: nat, bytes: nat)
    ensures ScaleDown(ScaleUp(v, bytes), bytes) == v
    ensures ScaleUp(ScaleDown(v, bytes), bytes) == v - v % Pow2(8 * bytes)
  {
    var p := Pow2(8 * bytes);
    DivModUnique(v * p, p, v, 0);
    DivMod(v, p);
  }

  /** Moving one more byte out of the mantissa is the same as scaling by one byte more or less. */
  lemma OneByte(v: nat, bytes: nat)
    ensures ScaleDown(v, bytes) / 0x100 == ScaleDown(v, bytes + 1)
    ensures ScaleUp(v, bytes + 1) / 0x100 == ScaleUp(v, bytes)
    ensures v / 0x100 == ScaleDown(v, 1)
  {
    SmallPowers();
    Pow2Add(8 * bytes, 8);
    DivTwice(v, Pow2(8 * bytes), 0x100);
    MulAssoc(v, Pow2(8 * bytes), 0x100);
  }

  /** The three most significant bytes of v, as the encoder takes them. */
  function TopBytes(v: nat, size: nat): nat {
    if size <= 3 then ScaleUp(v, 3 - size) else ScaleDown(v, size - 3)
  }

  /** What the encoder keeps stands for v with its low bytes cleared. */
  lemma RoundsDown(v: nat, size: nat, n: Limb)
    requires (Size(n) == size && Mantissa(n) == TopBytes(v, size))
          || (Size(n) == size + 1 && Mantissa(n) == TopBytes(v, size) / 0x100)
    ensures CompactValue(n) == v - v % Pow2(8 * BytesCut(n))
  {
    SmallPowers();
    var cut := BytesCut(n);
    ScaledBack(v, cut);
    if Size(n) <= 3 {
      ScaledBack(v, 3 - Size(n));
      assert v % Pow2(0) == 0;
    }
    if Size(n) == size + 1 {
      if size <= 2 {
        OneByte(v, 2 - size);
      } else if size == 3 {
        OneByte(v, 0);
        assert ScaleUp(v, 0) == v;
      } else {
        OneByte(v, size - 3);
      }
    }
  }

  // ----- one form for every number

  /** As the encoder writes it: zero is 0, the mantissa fills its bytes, and a short number leaves the rest zero. */
  predicate Canonical(n: Limb) {
    if Mantissa(n) == 0 then n == 0
    else 0x8000 <= Mantissa(n) && (Size(n) < 3 ==> Mantissa(n) % Pow2(8 * (3 - Size(n))) == 0)
  }

  lemma ShortValue(m: nat, s: nat)
    requires s <= 3 && m % Pow2(8 * (3 - s)) == 0
    ensures m * Pow2(8 * s) == ScaleDown(m, 3 - s) * 0x100_0000
  {
    SmallPowers();
    ScaledBack(m, 3 - s);
    Pow2Add(8 * (3 - s), 8 * s);
    MulAssoc(ScaleDown(m, 3 - s), Pow2(8 * (3 - s)), Pow2(8 * s));
  }

  lemma LongValue(m: nat, s: nat)
    requires s > 3
    ensures m * Pow2(8 * s) == ScaleUp(m, s - 3) * 0x100_0000
  {
    SmallPowers();
    Pow2Add(8 * (s - 3), 24);
    MulAssoc(m, Pow2(8 * (s - 3)), 0x100_0000);
  }

  /** Mantissa and size give the value, whether the mantissa is scaled up or down. */
  lemma CanonicalValue(n: Limb)
    requires Canonical(n)
    ensures Mantissa(n) * Pow2(8 * Size(n)) == CompactValue(n) * 0x100_0000
  {
    if Size(n) > 3 {
      LongValue(Mantissa(n), Size(n));
    } else {
      if Mantissa(n) == 0 {
        DivModUnique(0, Pow2(8 * (3 - Size(n))), 0, 0);
      } else if Size(n) == 3 {
        DivModUnique(Mantissa(n), Pow2(0), Mantissa(n), 0);
      }
      ShortValue(Mantissa(n), Size(n));
    }
  }

  /** Only one size suits a number. */
  lemma SizeIsDetermined(v: nat, s: nat, s': nat)
    requires 0x8000 * Pow2(8 * s) <= v < 0x80_0000 * Pow2(8 * s)
    requires 0x8000 * Pow2(8 * s') <= v < 0x80_0000 * Pow2(8 * s')
    ensures s == s'
  {
    if s < s' {
      NextSizeIsLarger(s, s');
    } else if s' < s {
      NextSizeIsLarger(s', s);
    }
  }

  lemma NextSizeIsLarger(s: nat, s': nat)
    requires s < s'
    ensures 0x80_0000 * Pow2(8 * s) <= 0x8000 * Pow2(8 * s')
  {
    SmallPowers();
    Pow2Add(8 * s, 8);
    Pow2Monotone(8 * s + 8, 8 * s');
  }

  lemma CanonicalSize(n: Limb)
    requires Canonical(n) && n != 0
    ensures 0x8000 * Pow2(8 * Size(n)) <= CompactValue(n) * 0x100_0000 < 0x80_0000 * Pow2(8 * Size(n))
  {
    CanonicalValue(n);
    MulMonotone(0x8000, Mantissa(n), Pow2(8 * Size(n)));
    MulStep(Mantissa(n), 0x80_0000, Pow2(8 * Size(n)));
  }

  lemma CanonicalZero(n: Limb)
    requires Canonical(n)
    ensures n == 0 <==> CompactValue(n) == 0
  {
    if n == 0 {
      CompactCases(n);
    } else {
      CanonicalSize(n);
    }
  }

  /** What is rounded down to a canonical number has the size of that number. */
  lemma RoundedSize(v: nat, n: Limb)
    requires Canonical(n) && n != 0 && CompactValue(n) == v - v % Pow2(8 * BytesCut(n))
    ensures 0x8000 * Pow2(8 * Size(n)) <= v * 0x100_0000 < 0x80_0000 * Pow2(8 * Size(n))
  {
    CanonicalSize(n);
    if Size(n) > 3 {
      var p := Pow2(8 * (Size(n) - 3));
      DivMod(v, p);
      MulStep(Mantissa(n), 0x80_0000, p);
      LongValue(0x80_0000, Size(n));
    } else {
      DivModUnique(v, Pow2(0), v, 0);
    }
  }

  lemma FieldsAreAll(m: Limb, n: Limb)
    requires Size(m) == Size(n) && Mantissa(m) == Mantissa(n) && (SignBit(m) <==> SignBit(n))
    ensures m == n
  {
  }

  lemma SameSizeSameMantissa(m: Limb, n: Limb)
    requires Canonical(m) && Canonical(n) && Size(m) == Size(n) && CompactValue(m) == CompactValue(n)
    ensures Mantissa(m) == Mantissa(n)
  {
    CanonicalValue(m);
    CanonicalValue(n);
    var p := Pow2(8 * Size(n));
    if Mantissa(m) < Mantissa(n) {
      MulStep(Mantissa(m), Mantissa(n), p);
    } else if Mantissa(n) < Mantissa(m) {
      MulStep(Mantissa(n), Mantissa(m), p);
    }
  }

  /** The form the encoder finds for the value of a canonical number is that number. */
  lemma CanonicalIsUnique(m: Limb, n: Limb)
    requires Canonical(m) && Canonical(n) && (SignBit(m) <==> SignBit(n))
    requires CompactValue(m) == CompactValue(n) - CompactValue(n) % Pow2(8 * BytesCut(m))
    requires m == 0 <==> n == 0
    ensures m == n
  {
    if m != 0 {
      var v := CompactValue(n);
      RoundedSize(v, m);
      CanonicalSize(n);
      SizeIsDetermined(v * 0x100_0000, Size(m), Size(n));
      SmallPowers();
      if Size(n) > 3 {
        DivModUnique(v, Pow2(8 * (Size(n) - 3)), Mantissa(n), 0);
      }
      assert CompactValue(m) == v;
      SameSizeSameMantissa(m, n);
      FieldsAreAll(m, n);
    }
  }
}
