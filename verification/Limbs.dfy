/** Numbers as little-endian sequences of 32-bit limbs. */
module Limbs {
  import opened Numbers

  const BASE: nat := 0x1_0000_0000

  type Limb = x: nat | x < BASE

  lemma Pow2Is32()
    ensures Pow2(32) == BASE
  {
    assert Pow2(8) == 256;
    Pow2Add(8, 8);
    Pow2Add(16, 16);
  }

  // ----- the value of a sequence of limbs

  function Val(s: seq<Limb>): nat {
    if s == [] then 0 else s[0] + BASE * Val(s[1..])
  }

  /** BASE to the power n. */
  function Pow32(n: nat): nat { Pow2(32 * n) }

  lemma Pow32Step(n: nat)
    ensures Pow32(n + 1) == BASE * Pow32(n)
  {
    Pow2Add(32, 32 * n);
    Pow2Is32();
  }

  lemma {:induction false} ValBound(s: seq<Limb>)
    ensures Val(s) < Pow32(|s|)
  {
    if s != [] {
      ValBound(s[1..]);
      Pow32Step(|s| - 1);
      assert BASE * Val(s[1..]) <= BASE * (Pow32(|s| - 1) - 1);
    }
  }

  lemma {:induction false} ValConcat(s: seq<Limb>, t: seq<Limb>)
    ensures Val(s + t) == Val(s) + Pow32(|s|) * Val(t)
  {
    if s == [] {
      assert s + t == t;
    } else {
      ValConcat(s[1..], t);
      assert (s + t)[1..] == s[1..] + t;
      Pow32Step(|s| - 1);
      MulAssoc(BASE, Pow32(|s| - 1), Val(t));
    }
  }

  lemma ValAppend(s: seq<Limb>, x: Limb)
    ensures Val(s + [x]) == Val(s) + Pow32(|s|) * x
  {
    ValConcat(s, [x]);
    assert Val([x]) == x;
  }

  /** Cutting a number to its low limbs is taking it modulo a power of the base; the rest is the quotient. */
  lemma ValSplit(s: seq<Limb>, n: nat)
    requires n <= |s|
    ensures Val(s[..n]) == Val(s) % Pow32(n) && Val(s[n..]) == Val(s) / Pow32(n)
  {
    assert s == s[..n] + s[n..];
    ValConcat(s[..n], s[n..]);
    ValBound(s[..n]);
    assert Pow32(n) * Val(s[n..]) == Val(s[n..]) * Pow32(n);
    DivModUnique(Val(s), Pow32(n), Val(s[n..]), Val(s[..n]));
  }

  lemma {:induction false} ValZeros(s: seq<Limb>)
    requires forall i :: 0 <= i < |s| ==> s[i] == 0
    ensures Val(s) == 0
  {
    if s != [] {
      ValZeros(s[1..]);
    }
  }

  lemma ValCons(x: Limb, t: seq<Limb>)
    ensures Val([x] + t) == x + BASE * Val(t)
  {
    assert ([x] + t)[1..] == t;
  }

  lemma ValUpdate(s: seq<Limb>, i: nat, x: Limb)
    requires i < |s|
    ensures Val(s[i := x]) == Val(s) + Pow32(i) * x - Pow32(i) * s[i]
  {
    var lo, hi := s[..i], s[i + 1..];
    assert s == lo + ([s[i]] + hi);
    assert s[i := x] == lo + ([x] + hi);
    ValConcat(lo, [s[i]] + hi);
    ValConcat(lo, [x] + hi);
    ValCons(s[i], hi);
    ValCons(x, hi);
    Distribute(Pow32(i), s[i], BASE * Val(hi));
    Distribute(Pow32(i), x, BASE * Val(hi));
  }

  function Zeros(n: nat): (s: seq<Limb>)
    ensures |s| == n && forall i :: 0 <= i < n ==> s[i] == 0
  {
    seq(n, _ => 0)
  }

  /** The first number that does not fit in n limbs. */
  ghost function Modulus(n: nat): nat { Pow32(n) }

  // ----- digit-wise sums, complements and increments

  /** One column of a sum: the digit l stays, the carry h moves on. */
  lemma CarryStep(r: seq<Limb>, c: nat, s: seq<Limb>, t: seq<Limb>, x: Limb, y: Limb, h: nat, l: Limb)
    requires |r| == |s| == |t| && Val(r) + Pow32(|r|) * c == Val(s) + Val(t)
    requires c + x + y == BASE * h + l
    ensures Val(r + [l]) + Pow32(|r| + 1) * h == Val(s + [x]) + Val(t + [y])
  {
    var p := Pow32(|r|);
    ValAppend(r, l);
    ValAppend(s, x);
    ValAppend(t, y);
    Pow32Step(|r|);
    CarryDigit(p, c, x, y, h, l);
  }

  lemma CarryDigit(p: nat, c: nat, x: nat, y: nat, h: nat, l: nat)
    requires c + x + y == BASE * h + l
    ensures p * l + (BASE * p) * h == p * c + p * x + p * y
  {
    assert (BASE * p) * h == p * (BASE * h);
    assert p * (c + x + y) == p * c + p * x + p * y;
    assert p * (BASE * h + l) == p * (BASE * h) + p * l;
  }

  lemma {:induction false} ValComplement(s: seq<Limb>, r: seq<Limb>)
    requires |r| == |s| && forall i :: 0 <= i < |s| ==> r[i] == BASE - 1 - s[i]
    ensures Val(r) == Modulus(|s|) - 1 - Val(s)
  {
    if s != [] {
      ValComplement(s[1..], r[1..]);
      Pow32Step(|s| - 1);
    }
  }

  /** Adding one to limb i adds BASE^i, or wraps the limb and leaves BASE^(i+1) still to add. */
  lemma IncrementStep(s: seq<Limb>, i: nat, x: Limb)
    requires i < |s| && x == if s[i] == BASE - 1 then 0 else s[i] + 1
    ensures x != 0 ==> Val(s[i := x]) == Val(s) + Pow32(i)
    ensures x == 0 ==> Val(s[i := x]) + Pow32(i + 1) == Val(s) + Pow32(i)
  {
    ValUpdate(s, i, x);
    Pow32Step(i);
    var p := Pow32(i);
    if x != 0 {
      Distribute(p, s[i], 1);
    } else {
      Distribute(p, BASE - 1, 1);
    }
  }

  lemma ValPrefix(a: seq<Limb>, pos: nat)
    requires pos < |a|
    ensures Val(a[..pos + 1]) == Val(a[..pos]) + Pow32(pos) * a[pos]
    ensures Val(a[..pos]) < Pow32(pos)
  {
    assert a[..pos + 1] == a[..pos] + [a[pos]];
    ValAppend(a[..pos], a[pos]);
    ValBound(a[..pos]);
  }

  /** The bits of a number are those of its top limb and of all limbs below. */
  lemma BitsOfPrefix(a: seq<Limb>, pos: nat, top: nat)
    requires pos < |a| && 0 < top <= 32 && Pow2(top - 1) <= a[pos] < Pow2(top)
    ensures Pow2(32 * pos + top - 1) <= Val(a[..pos + 1]) < Pow2(32 * pos + top)
  {
    ValPrefix(a, pos);
    BitsOfLimb(Val(a[..pos]), pos, a[pos], top);
  }

  lemma BitsOfLimb(low: nat, pos: nat, x: Limb, top: nat)
    requires low < Pow32(pos) && 0 < top <= 32 && Pow2(top - 1) <= x < Pow2(top)
    ensures Pow2(32 * pos + top - 1) <= low + Pow32(pos) * x < Pow2(32 * pos + top)
  {
    var p := Pow32(pos);
    Pow2Add(32 * pos, top);
    Pow2Add(32 * pos, top - 1);
    Between(p, low, Pow2(top - 1), x, Pow2(top));
  }

  lemma Between(p: nat, low: nat, u: nat, x: nat, v: nat)
    requires low < p && u <= x < v
    ensures p * u <= low + p * x < p * v
  {
    MulMonotone(u, x, p);
    FitsBelow(x, v, p, low);
    assert p * x == x * p && p * u == u * p && p * v == v * p;
  }
}
