/** Shifts, comparison and bitwise-or on limbs, related to the numbers they stand for. */
module LimbShifts {
  import opened Numbers
  import opened Limbs

  // ----- bitwise or

  /** The bitwise or of two naturals. */
  function Or(x: nat, y: nat): nat
    decreases x + y
  {
    if x == 0 then y
    else if y == 0 then x
    else (if x % 2 == 1 || y % 2 == 1 then 1 else 0) + 2 * Or(x / 2, y / 2)
  }

  lemma HalfMultiple(x: nat, q: nat, s: nat)
    requires s > 0 && x == q * Pow2(s)
    ensures x % 2 == 0 && x / 2 == q * Pow2(s - 1)
  {
    assert q * (2 * Pow2(s - 1)) == 2 * (q * Pow2(s - 1));
  }

  /** Numbers that share no bit add up: y lies below bit s, x is a multiple of 2^s. */
  lemma {:induction false} OrDisjoint(x: nat, y: nat, q: nat, s: nat)
    requires x == q * Pow2(s) && y < Pow2(s)
    ensures Or(x, y) == x + y && Or(y, x) == x + y
  {
    if s > 0 && x != 0 && y != 0 {
      HalfMultiple(x, q, s);
      OrDisjoint(x / 2, y / 2, q, s - 1);
    }
  }

  // ----- the two halves of a shifted limb

  /** What is left in the limb when it is shifted up by s bits in 32 bits. */
  function Low(x: Limb, s: nat): Limb { (x * Pow2(s)) % BASE }

  /** What a shift down by s bits leaves. */
  function High(x: Limb, s: nat): Limb
  {
    DivMod(x, Pow2(s));
    MulMonotone(1, Pow2(s), x / Pow2(s));
    x / Pow2(s)
  }

  lemma PowParts(s: nat)
    requires s <= 32
    ensures Pow2(s) * Pow2(32 - s) == BASE
  {
    Pow2Add(s, 32 - s);
    Pow2Is32();
  }

  /** Shifting a limb up splits it: the top s bits fall out, the others are a multiple of 2^s. */
  lemma ShiftParts(x: Limb, s: nat)
    requires s <= 32
    ensures x * Pow2(s) == High(x, 32 - s) * BASE + Low(x, s)
    ensures High(x, 32 - s) < Pow2(s)
    ensures Low(x, s) == (x % Pow2(32 - s)) * Pow2(s)
  {
    PowParts(s);
    SplitProduct(x, Pow2(s), Pow2(32 - s));
  }

  // ----- a number shifted up by fewer than 32 bits

  /** The limbs of a * 2^s + carry, one limb longer than a. */
  function Shl(a: seq<Limb>, s: nat, carry: Limb): (r: seq<Limb>)
    requires s < 32 && carry < Pow2(s)
    ensures |r| == |a| + 1
  {
    if a == [] then [carry]
    else
      ShiftParts(a[0], s);
      LowFits(a[0], s, carry);
      [Low(a[0], s) + carry] + Shl(a[1..], s, High(a[0], 32 - s))
  }

  lemma LowFits(x: Limb, s: nat, carry: Limb)
    requires s <= 32 && carry < Pow2(s)
    ensures Low(x, s) + carry < BASE
  {
    ShiftParts(x, s);
    PowParts(s);
    FitsBelow(x % Pow2(32 - s), Pow2(32 - s), Pow2(s), carry);
    PowParts(32 - s);
  }

  lemma {:induction false} ShlVal(a: seq<Limb>, s: nat, carry: Limb)
    requires s < 32 && carry < Pow2(s)
    ensures Val(Shl(a, s, carry)) == Val(a) * Pow2(s) + carry
  {
    if a == [] {
      assert Val([carry]) == carry;
    } else {
      ShiftParts(a[0], s);
      LowFits(a[0], s, carry);
      var rest := Shl(a[1..], s, High(a[0], 32 - s));
      ShlVal(a[1..], s, High(a[0], 32 - s));
      ValCons(Low(a[0], s) + carry, rest);
      ShlStep(a[0], Val(a[1..]), Pow2(s), High(a[0], 32 - s), Low(a[0], s), carry);
    }
  }

  lemma ShlStep(x: nat, v: nat, p: nat, h: nat, l: nat, c: nat)
    requires x * p == h * BASE + l
    ensures (x + BASE * v) * p + c == (l + c) + BASE * (v * p + h)
  {
    assert (x + BASE * v) * p == x * p + BASE * (v * p);
  }

  /** Each limb of the shifted number is made of two neighbours. */
  lemma {:induction false} ShlAt(a: seq<Limb>, s: nat, carry: Limb, j: nat)
    requires s < 32 && carry < Pow2(s) && j <= |a|
    ensures Shl(a, s, carry)[j] == (if j < |a| then Low(a[j], s) else 0)
            + (if j == 0 then carry else High(a[j - 1], 32 - s))
  {
    if a != [] {
      ShiftParts(a[0], s);
      LowFits(a[0], s, carry);
      if j > 0 {
        ShlAt(a[1..], s, High(a[0], 32 - s), j - 1);
        assert a[1..][j - 1..] == a[j..];
      }
    }
  }

  // ----- a number shifted down by fewer than 32 bits

  function Shr(a: seq<Limb>, s: nat): (r: seq<Limb>)
    requires s < 32
    ensures |r| == |a|
  {
    if a == [] then []
    else [ShrLimb(a, s, 0)] + Shr(a[1..], s)
  }

  /** The j-th limb of a / 2^s: what stays of limb j, and the bits coming down from limb j + 1. */
  function ShrLimb(a: seq<Limb>, s: nat, j: nat): Limb
    requires s < 32 && j < |a|
  {
    var above := if j + 1 < |a| then Low(a[j + 1], 32 - s) else 0;
    HighFits(a[j], s, if j + 1 < |a| then a[j + 1] else 0);
    Pow2Is32();
    High(a[j], s) + above
  }

  lemma HighFits(x: Limb, s: nat, y: Limb)
    requires s <= 32
    ensures High(x, s) < Pow2(32 - s)
    ensures Low(y, 32 - s) == (y % Pow2(s)) * Pow2(32 - s)
    ensures High(x, s) + Low(y, 32 - s) < BASE
  {
    ShiftParts(x, 32 - s);
    ShiftParts(y, 32 - s);
    LowFits(y, 32 - s, High(x, s));
  }

  lemma {:induction false} ShrAt(a: seq<Limb>, s: nat, j: nat)
    requires s < 32 && j < |a|
    ensures Shr(a, s)[j] == ShrLimb(a, s, j)
  {
    if j > 0 {
      ShrAt(a[1..], s, j - 1);
      assert a[1..][j - 1] == a[j];
      assert j + 1 < |a| ==> a[1..][j] == a[j + 1];
    }
  }

  /** Dividing the limbs is dividing the number. */
  lemma {:induction false} ShrVal(a: seq<Limb>, s: nat)
    requires s < 32
    ensures Val(a) == Val(Shr(a, s)) * Pow2(s) + (if a == [] then 0 else a[0] % Pow2(s))
  {
    if a != [] {
      var t := a[1..];
      var p := Pow2(s);
      ShrVal(t, s);
      ValCons(ShrLimb(a, s, 0), Shr(t, s));
      DivMod(a[0], p);
      PowParts(s);
      var v := Val(Shr(t, s));
      var x := if t == [] then 0 else t[0];
      HighFits(a[0], s, x);
      assert t != [] ==> x == a[1];
      ShrStep(a[0] / p, x % p, p, Pow2(32 - s), v);
    }
  }

  lemma ShrStep(h: nat, r: nat, p: nat, q: nat, v: nat)
    requires p * q == BASE
    ensures (h + r * q + BASE * v) * p == h * p + BASE * (v * p + r)
  {
    assert (r * q) * p == r * (p * q);
    assert (BASE * v) * p == BASE * (v * p);
    assert (h + r * q + BASE * v) * p == h * p + (r * q) * p + (BASE * v) * p;
  }

  // ----- shifting in place, limb by limb

  lemma ShiftLeftVal(a: seq<Limb>, k: nat, s: nat)
    requires s < 32
    ensures Val((Zeros(k) + Shl(a, s, 0))[..|a|]) == (Val(a) * Pow2(32 * k + s)) % Modulus(|a|)
  {
    var full := Zeros(k) + Shl(a, s, 0);
    ValConcat(Zeros(k), Shl(a, s, 0));
    ValZeros(Zeros(k));
    ShlVal(a, s, 0);
    Pow2Add(32 * k, s);
    MulAssoc(Val(a), Pow2(s), Pow32(k));
    assert Pow32(k) * (Val(a) * Pow2(s)) == (Val(a) * Pow2(s)) * Pow32(k);
    assert Pow2(32 * k) * Pow2(s) == Pow2(s) * Pow32(k);
    ValSplit(full, |a|);
  }

  /** Limb j of the number shifted up by k limbs and s bits, as far as limbs below i of a were moved. */
  ghost function MovedUp(a: seq<Limb>, k: nat, s: nat, i: nat, j: nat): Limb
    requires s < 32 && i <= |a| && j < |a|
  {
    if j < i + k then (Zeros(k) + Shl(a, s, 0))[j]
    else if j == i + k && i > 0 then High(a[i - 1], 32 - s)
    else 0
  }

  lemma MoveUpStep(a: seq<Limb>, k: nat, s: nat, i: nat, j: nat)
    requires s < 32 && i < |a| && j < |a|
    ensures j == i + k ==> Or(MovedUp(a, k, s, i, j), Low(a[i], s)) == MovedUp(a, k, s, i + 1, j)
    ensures j == i + k + 1 ==> MovedUp(a, k, s, i, j) == 0 && MovedUp(a, k, s, i + 1, j) == High(a[i], 32 - s)
    ensures j != i + k && j != i + k + 1 ==> MovedUp(a, k, s, i, j) == MovedUp(a, k, s, i + 1, j)
    ensures s == 0 ==> High(a[i], 32) == 0
  {
    ShiftParts(a[i], s);
    if j == i + k {
      ShlAt(a, s, 0, i);
      if i > 0 {
        ShiftParts(a[i - 1], s);
      }
      OrDisjoint(Low(a[i], s), MovedUp(a, k, s, i, j), a[i] % Pow2(32 - s), s);
    }
  }

  lemma ShiftRightVal(a: seq<Limb>, k: nat, s: nat, r: seq<Limb>)
    requires s < 32 && |r| == |a|
    requires forall j :: 0 <= j < |a| ==> r[j] == if j + k < |a| then ShrLimb(a, s, j + k) else 0
    ensures Val(r) == Val(a) / Pow2(32 * k + s)
  {
    Pow2Add(32 * k, s);
    if k >= |a| {
      ValZeros(r);
      ValBound(a);
      Pow2Monotone(32 * |a|, 32 * k + s);
      DivModUnique(Val(a), Pow2(32 * k + s), 0, Val(a));
    } else {
      DownByBits(a, k, s, r);
      ValSplit(a, k);
      DivTwice(Val(a), Pow32(k), Pow2(s));
    }
  }

  /** The limbs moved down are the bit-shifted upper part of the number, padded with zeros. */
  lemma DownAreShr(a: seq<Limb>, k: nat, s: nat, r: seq<Limb>)
    requires s < 32 && |r| == |a| && k < |a|
    requires forall j :: 0 <= j < |a| ==> r[j] == if j + k < |a| then ShrLimb(a, s, j + k) else 0
    ensures r == Shr(a[k..], s) + Zeros(k)
  {
    var b := a[k..];
    forall j | 0 <= j < |b|
      ensures Shr(b, s)[j] == r[j]
    {
      ShrAt(b, s, j);
      assert j + 1 < |b| ==> b[j + 1] == a[j + k + 1];
    }
  }

  lemma DownByBits(a: seq<Limb>, k: nat, s: nat, r: seq<Limb>)
    requires s < 32 && |r| == |a| && k < |a|
    requires forall j :: 0 <= j < |a| ==> r[j] == if j + k < |a| then ShrLimb(a, s, j + k) else 0
    ensures Val(r) == Val(a[k..]) / Pow2(s)
  {
    var b := a[k..];
    DownAreShr(a, k, s, r);
    ValConcat(Shr(b, s), Zeros(k));
    ValZeros(Zeros(k));
    ShrVal(b, s);
    DivMod(b[0], Pow2(s));
    DivModUnique(Val(b), Pow2(s), Val(Shr(b, s)), b[0] % Pow2(s));
  }

  ghost function MovedDown(a: seq<Limb>, k: nat, s: nat, i: nat, j: nat): Limb
    requires s < 32 && i <= |a| && j < |a|
  {
    if j + k + 1 < i || (j + k < i == |a|) then ShrLimb(a, s, j + k)
    else if j + k < i then High(a[j + k], s)
    else 0
  }

  lemma MoveDownStep(a: seq<Limb>, k: nat, s: nat, i: nat, j: nat)
    requires s < 32 && i < |a| && j < |a|
    ensures j + k + 1 == i && s != 0 ==> Or(MovedDown(a, k, s, i, j), Low(a[i], 32 - s)) == MovedDown(a, k, s, i + 1, j)
    ensures j + k == i ==> Or(MovedDown(a, k, s, i, j), High(a[i], s)) == MovedDown(a, k, s, i + 1, j)
    ensures j + k != i && (j + k + 1 != i || s == 0) ==> MovedDown(a, k, s, i, j) == MovedDown(a, k, s, i + 1, j)
  {
    if j + k + 1 == i {
      HighFits(a[j + k], s, a[i]);
      assert s == 0 ==> a[i] % Pow2(s) == 0 && Low(a[i], 32 - s) == 0;
      OrDisjoint(Low(a[i], 32 - s), High(a[j + k], s), a[i] % Pow2(s), 32 - s);
    }
  }

  // ----- comparison

  /** The highest limb in which two numbers differ decides which is larger. */
  lemma HighLimbDecides(a: seq<Limb>, b: seq<Limb>, i: nat)
    requires |a| == |b| && i < |a| && a[i] < b[i] && a[i + 1..] == b[i + 1..]
    ensures Val(a) < Val(b)
  {
    var p := Pow32(i);
    assert a == a[..i] + ([a[i]] + a[i + 1..]);
    assert b == b[..i] + ([b[i]] + b[i + 1..]);
    ValConcat(a[..i], [a[i]] + a[i + 1..]);
    ValConcat(b[..i], [b[i]] + b[i + 1..]);
    ValCons(a[i], a[i + 1..]);
    ValCons(b[i], b[i + 1..]);
    ValBound(a[..i]);
    var va, vb := Val([a[i]] + a[i + 1..]), Val([b[i]] + b[i + 1..]);
    HigherWins(Val(a[..i]), p, va, Val(b[..i]), vb);
  }

  lemma HigherWins(x: nat, p: nat, h: nat, y: nat, h': nat)
    requires x < p && h < h'
    ensures x + p * h < y + p * h'
  {
    MulStep(h, h', p);
    assert p * h == h * p && p * h' == h' * p;
  }
}
