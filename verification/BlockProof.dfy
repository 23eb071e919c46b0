/** Decoding and encoding compact targets, and the amount of work a block proves. */
module BlockProof {
  import opened Numbers
  import opened Limbs
  import opened ArithUint256
  import opened CompactForm

  method FromWord(word: Limb) returns (r: array<Limb>)
    ensures fresh(r) && r.Length == WIDTH && Val(r[..]) == word
  {
    r := new Limb[WIDTH](i => if i == 0 then word else 0);
    assert r[..] == [word] + r[1..];
    ValCons(word, r[1..]);
    ValZeros(r[1..]);
  }

  /** Decodes a compact number. The overflow flag says exactly that the value does not fit. */
  method SetCompact(nCompact: Limb) returns (r: array<Limb>, fNegative: bool, fOverflow: bool)
    ensures fresh(r) && r.Length == WIDTH
    ensures Val(r[..]) == CompactValue(nCompact) % LIMIT
    ensures fOverflow <==> CompactValue(nCompact) >= LIMIT
    ensures fNegative <==> CompactValue(nCompact) != 0 && SignBit(nCompact)
    ensures CompactValue(nCompact) == (nCompact % 0x80_0000) * Pow2(8 * (nCompact / 0x100_0000)) / 0x100_0000
  {
    CompactInNumbers(nCompact);
    var nSize := Size(nCompact);
    var nWord := Mantissa(nCompact);
    CompactCases(nCompact);
    if nSize <= 3 {
      nWord := ScaleDown(nWord, 3 - nSize);
      r := FromWord(nWord);
    } else {
      r := FromWord(nWord);
      ShiftLeft(r, 8 * (nSize - 3));
      OverflowIsExact(nWord, nSize);
    }
    fNegative := nWord != 0 && SignBit(nCompact);
    fOverflow := nWord != 0 && (nSize > 34 || (nWord > 0xff && nSize > 33) || (nWord > 0xffff && nSize > 32));
  }

  /**
   * The expected number of hashes for a block with these difficulty bits: the floor of
   * 2^256 / (target + 1), although 2^256 itself cannot be represented.
   */
  method GetBlockProof(nBits: Limb) returns (work: array<Limb>)
    ensures fresh(work) && work.Length == WIDTH
    ensures var target := (nBits % 0x80_0000) * Pow2(8 * (nBits / 0x100_0000)) / 0x100_0000;
            Val(work[..]) == if 0 < target < Pow2(256) && (nBits / 0x80_0000) % 2 == 0
                             then Pow2(256) / (target + 1) else 0
  {
    CompactInNumbers(nBits);
    var target, fNegative, fOverflow := SetCompact(nBits);
    var isZero := IsZero(target[..]);
    ghost var t := CompactValue(nBits);
    if fNegative || fOverflow || isZero {
      work := FromWord(0);
      if t < LIMIT {
        ModSmall(t, LIMIT);
      }
      return;
    }
    ModSmall(t, LIMIT);
    TargetHasRoom(nBits);
    work := ProofOfTarget(target[..], t);
  }

  method ProofOfTarget(target: seq<Limb>, ghost t: nat) returns (work: array<Limb>)
    requires |target| == WIDTH && t == Val(target) && 0 < t && t + 1 < LIMIT
    ensures fresh(work) && work.Length == WIDTH && Val(work[..]) == LIMIT / (t + 1)
  {
    ProofDoesNotWrap(t);
    work := Complement(target);
    var one := FromWord(1);
    var divisor := Copy(target);
    AddAssign(divisor, one[..]);
    var ok := DivAssign(work, divisor[..]);
    AddAssign(work, one[..]);
  }

  method IsZero(a: seq<Limb>) returns (zero: bool)
    ensures zero <==> Val(a) == 0
  {
    for i := 0 to |a|
      invariant forall j :: 0 <= j < i ==> a[j] == 0
    {
      if a[i] != 0 {
        NonZero(a, i);
        return false;
      }
    }
    ValZeros(a);
    zero := true;
  }

  lemma NonZero(a: seq<Limb>, i: nat)
    requires i < |a| && a[i] != 0
    ensures Val(a) > 0
  {
    assert a == a[..i + 1] + a[i + 1..];
    ValConcat(a[..i + 1], a[i + 1..]);
    ValPrefix(a, i);
    MulMonotone(1, a[i], Pow32(i));
  }

  /** The low 64 bits. */
  function GetLow64(a: seq<Limb>): nat
    requires |a| == WIDTH
  {
    a[0] + BASE * a[1]
  }

  lemma LowIsAll(a: seq<Limb>)
    requires |a| == WIDTH && Val(a) < BASE
    ensures GetLow64(a) == Val(a)
  {
    assert a == [a[0]] + a[1..];
    ValCons(a[0], a[1..]);
    if a[1] != 0 {
      NonZero(a[1..], 0);
    }
  }

  method TopThreeBytes(a: seq<Limb>, nSize: nat) returns (nCompact: nat)
    requires |a| == WIDTH && TopBytes(Val(a), nSize) < BASE && (nSize <= 3 ==> Val(a) < BASE)
    ensures nCompact == TopBytes(Val(a), nSize)
  {
    if nSize <= 3 {
      LowIsAll(a);
      nCompact := ScaleUp(GetLow64(a), 3 - nSize);
    } else {
      var bn := Copy(a);
      ShiftRight(bn, 8 * (nSize - 3));
      LowIsAll(bn[..]);
      nCompact := GetLow64(bn[..]);
    }
  }

  /**
   * Encodes in compact form. The result stands for the number with its low bytes cleared, it is
   * canonical, and it is negative only on request and if not zero.
   */
  method GetCompact(a: seq<Limb>, fNegative: bool) returns (n: Limb)
    requires |a| == WIDTH
    ensures CompactValue(n) == Val(a) - Val(a) % Pow2(8 * BytesCut(n))
    ensures Canonical(n) && (n == 0 <==> Val(a) == 0)
    ensures SignBit(n) <==> fNegative && Val(a) != 0
  {
    var nbits := Bits(a);
    var nSize := (nbits + 7) / 8;
    ghost var v := Val(a);
    ByteSize(v, nbits, nSize);
    var nCompact := TopThreeBytes(a, nSize);
    EncodedRight(v, nSize, nCompact, fNegative);
    if (nCompact / 0x80_0000) % 2 == 1 {
      n := Pack(nCompact / 0x100, nSize + 1, fNegative);
    } else {
      n := Pack(nCompact, nSize, fNegative);
    }
  }

  /** Whichever way the mantissa is normalised, the packed form is right. */
  lemma EncodedRight(v: nat, size: nat, top: nat, negative: bool)
    requires size < 255 && top == TopBytes(v, size) < 0x100_0000 && if v == 0 then top == size == 0 else 0x1_0000 <= top
    ensures var long := (top / 0x80_0000) % 2 == 1;
            var mant := if long then top / 0x100 else top;
            mant < 0x80_0000
            && var n := Pack(mant, if long then size + 1 else size, negative);
               && CompactValue(n) == v - v % Pow2(8 * BytesCut(n))
               && Canonical(n) && (n == 0 <==> v == 0)
               && (SignBit(n) <==> negative && v != 0)
  {
    if (top / 0x80_0000) % 2 == 1 {
      EncodedAs(v, size, size + 1, top / 0x100, negative);
    } else {
      EncodedAs(v, size, size, top, negative);
    }
  }

  lemma EncodedAs(v: nat, size: nat, size': nat, mant: nat, negative: bool)
    requires (size' == size && mant == TopBytes(v, size)) || (size' == size + 1 && mant == TopBytes(v, size) / 0x100)
    requires size' < 256 && mant < 0x80_0000 && if v == 0 then mant == size' == 0 else 0x8000 <= mant
    ensures var n := Pack(mant, size', negative);
      && CompactValue(n) == v - v % Pow2(8 * BytesCut(n))
      && Canonical(n) && (n == 0 <==> v == 0)
      && (SignBit(n) <==> negative && v != 0)
  {
    Unpack(mant, size', negative);
    RoundsDown(v, size, Pack(mant, size', negative));
    if size' < 3 {
      ShortIsPadded(v, size, size', mant);
    }
    PackIsCanonical(mant, size', negative);
  }

  lemma PackIsCanonical(mant: Limb, size: nat, negative: bool)
    requires mant < 0x80_0000 && size < 256 && (if mant == 0 then size == 0 else 0x8000 <= mant)
    requires size < 3 ==> mant % Pow2(8 * (3 - size)) == 0
    ensures var n := Pack(mant, size, negative); Canonical(n) && (n == 0 <==> mant == 0)
  {
    Unpack(mant, size, negative);
  }

  /** A number of less than three bytes is shifted up by whole bytes, and one fewer if the size is raised. */
  lemma ShortIsPadded(v: nat, size: nat, size': nat, mant: nat)
    requires (size' == size && mant == TopBytes(v, size)) || (size' == size + 1 && mant == TopBytes(v, size) / 0x100)
    requires size' < 3
    ensures mant % Pow2(8 * (3 - size')) == 0
  {
    if size' == size + 1 {
      OneByte(v, 2 - size);
    }
    DivModUnique(mant, Pow2(8 * (3 - size')), v, 0);
  }

  lemma ByteSize(v: nat, nbits: nat, size: nat)
    requires size == (nbits + 7) / 8 && nbits <= 256 && v < Pow2(nbits) && (nbits > 0 ==> Pow2(nbits - 1) <= v)
    ensures size <= 32 && (size <= 3 ==> v < BASE)
    ensures TopBytes(v, size) < 0x100_0000
    ensures if v == 0 then TopBytes(v, size) == size == 0 else 0x1_0000 <= TopBytes(v, size)
  {
    SmallPowers();
    Pow2Monotone(nbits, 8 * size);
    if size <= 3 {
      Pow2Monotone(8 * size, 24);
    }
    if v == 0 {
      assert nbits == 0;
    } else {
      Pow2Monotone(8 * (size - 1), nbits - 1);
      Normalised(v, size, TopBytes(v, size));
    }
  }

  /** Decoding and encoding again returns exactly the canonical numbers that fit. */
  method Recode(n: Limb) returns (m: Limb)
    ensures m == n <==> Canonical(n) && CompactValue(n) < LIMIT
  {
    var r, fNegative, fOverflow := SetCompact(n);
    m := GetCompact(r[..], fNegative);
    if CompactValue(n) < LIMIT {
      ModSmall(CompactValue(n), LIMIT);
      if Canonical(n) {
        RecodedSame(m, n);
      }
    }
  }

  lemma RecodedSame(m: Limb, n: Limb)
    requires Canonical(m) && Canonical(n) && (m == 0 <==> CompactValue(n) == 0)
    requires CompactValue(m) == CompactValue(n) - CompactValue(n) % Pow2(8 * BytesCut(m))
    requires SignBit(m) <==> CompactValue(n) != 0 && SignBit(n)
    ensures m == n
  {
    CanonicalZero(n);
    if n != 0 {
      CanonicalIsUnique(m, n);
    }
  }
}
