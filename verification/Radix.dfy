/** Numbers written as digits to a base, most significant first. */
module Radix {
  import opened Numbers

  function Pow(b: nat, n: nat): (p: nat)
    ensures b > 0 ==> p > 0
  {
    if n == 0 then 1 else b * Pow(b, n - 1)
  }

  lemma {:induction false} PowAdd(b: nat, m: nat, n: nat)
    ensures Pow(b, m + n) == Pow(b, m) * Pow(b, n)
  {
    if m > 0 {
      PowAdd(b, m - 1, n);
      MulAssoc(b, Pow(b, m - 1), Pow(b, n));
    }
  }

  lemma {:induction false} PowTimes(b: nat, m: nat, n: nat)
    ensures Pow(b, m * n) == Pow(Pow(b, m), n)
  {
    if n > 0 {
      PowTimes(b, m, n - 1);
      Distribute(m, n - 1, 1);
      PowAdd(b, m, m * (n - 1));
    }
  }

  lemma PowSwaps(b: nat, m: nat, n: nat)
    ensures Pow(Pow(b, m), n) == Pow(Pow(b, n), m)
  {
    PowTimes(b, m, n);
    PowTimes(b, n, m);
    assert m * n == n * m;
  }

  lemma PowOf(b: nat, m: nat, n: nat, p: nat)
    requires p == m * n
    ensures Pow(Pow(b, m), n) == Pow(b, p)
  {
    PowTimes(b, m, n);
  }

  lemma PowsCompare(b: nat, w: nat, n: nat, p: nat, m: nat, u: nat, q: nat)
    requires b > 0 && p == w * n && q == m * u && p <= q
    ensures Pow(Pow(b, w), n) <= Pow(Pow(b, m), u)
  {
    PowOf(b, w, n, p);
    PowOf(b, m, u, q);
    PowGrows(b, p, q);
  }

  lemma {:induction false} PowGrows(b: nat, m: nat, n: nat)
    requires b > 0 && m <= n
    ensures Pow(b, m) <= Pow(b, n)
  {
    if m < n {
      PowGrows(b, m, n - 1);
      MulMonotone(1, b, Pow(b, n - 1));
    }
  }

  lemma {:induction false} PowMonotone(a: nat, b: nat, n: nat)
    requires a <= b
    ensures Pow(a, n) <= Pow(b, n)
  {
    if n > 0 {
      PowMonotone(a, b, n - 1);
      MulMonotone(a, b, Pow(a, n - 1));
      MulMonotone(Pow(a, n - 1), Pow(b, n - 1), b);
    }
  }

  lemma {:induction false} PowStrict(a: nat, b: nat, n: nat)
    requires 0 < a < b && n > 0
    ensures Pow(a, n) < Pow(b, n)
  {
    PowMonotone(a, b, n - 1);
    MulStep(a, b, Pow(a, n - 1));
    MulMonotone(Pow(a, n - 1), Pow(b, n - 1), b);
  }

  /** Taking roots. */
  lemma PowCancel(a: nat, b: nat, n: nat)
    requires n > 0 && b > 0 && Pow(a, n) <= Pow(b, n)
    ensures a <= b
  {
    if a > b {
      PowStrict(b, a, n);
    }
  }

  lemma PowsReach(from: nat, to: nat, n: nat, m: nat, u: nat, w: nat, p: nat, q: nat)
    requires to > 0 && Pow(from, u) <= Pow(to, w) && p == w * n && q == m * u && p <= q
    ensures Pow(Pow(from, n), u) <= Pow(Pow(to, m), u)
  {
    PowSwaps(from, n, u);
    PowMonotone(Pow(from, u), Pow(to, w), n);
    PowsCompare(to, w, n, p, m, u, q);
  }

  /**
   * A number of n digits to one base fits into m digits to another, when u digits to the first
   * fit into w digits to the second and m/n is at least w/u.
   */
  lemma DigitsSuffice(from: nat, to: nat, n: nat, m: nat, u: nat, w: nat, p: nat, q: nat)
    requires to > 0 && u > 0 && Pow(from, u) <= Pow(to, w) && p == w * n && q == m * u && p <= q
    ensures Pow(from, n) <= Pow(to, m)
  {
    PowsReach(from, to, n, m, u, w, p, q);
    PowCancel(Pow(from, n), Pow(to, m), u);
  }

  // ----- the value of a list of digits

  ghost predicate AllBelow(base: nat, s: seq<nat>) {
    forall i :: 0 <= i < |s| ==> s[i] < base
  }

  ghost function Val(base: nat, s: seq<nat>): nat {
    if s == [] then 0 else s[0] * Pow(base, |s| - 1) + Val(base, s[1..])
  }

  lemma {:induction false} ValAppend(base: nat, s: seq<nat>, x: nat)
    ensures Val(base, s + [x]) == Val(base, s) * base + x
  {
    if s != [] {
      var t := s[1..];
      assert (s + [x])[1..] == t + [x];
      ValAppend(base, t, x);
      Regroup(s[0], Pow(base, |t|), Val(base, t), base, Pow(base, |t| + 1));
    }
  }

  lemma Regroup(d: nat, p: nat, v: nat, base: nat, q: nat)
    requires q == base * p
    ensures (d * p + v) * base == d * q + v * base
  {
    Distribute(base, d * p, v);
    MulAssoc(base, d, p);
    MulAssoc(d, base, p);
  }

  lemma {:induction false} ValIsBounded(base: nat, s: seq<nat>)
    requires AllBelow(base, s)
    ensures Val(base, s) < Pow(base, |s|)
  {
    if s != [] {
      ValIsBounded(base, s[1..]);
      FitsBelow(s[0], base, Pow(base, |s| - 1), Val(base, s[1..]));
    }
  }

  function Zeros(n: nat): (z: seq<nat>)
    ensures |z| == n && forall i :: 0 <= i < n ==> z[i] == 0
  {
    seq(n, i => 0)
  }

  /** Leading zeros do not count. */
  lemma {:induction false} ValOfZeros(base: nat, s: seq<nat>, k: nat)
    requires k <= |s| && forall i :: 0 <= i < k ==> s[i] == 0
    ensures Val(base, s) == Val(base, s[k..])
  {
    if k > 0 {
      ValOfZeros(base, s[1..], k - 1);
      assert s[1..][k - 1..] == s[k..];
    }
  }

  lemma {:induction false} SameValue(base: nat, s: seq<nat>, t: seq<nat>)
    requires AllBelow(base, s) && AllBelow(base, t) && |s| == |t| && Val(base, s) == Val(base, t)
    ensures s == t
  {
    if s != [] {
      var p := Pow(base, |s| - 1);
      ValIsBounded(base, s[1..]);
      ValIsBounded(base, t[1..]);
      DivModUnique(Val(base, s), p, s[0], Val(base, s[1..]));
      DivModUnique(Val(base, t), p, t[0], Val(base, t[1..]));
      SameValue(base, s[1..], t[1..]);
      assert s == [s[0]] + s[1..] && t == [t[0]] + t[1..];
    }
  }

  /** No leading zero. */
  predicate Minimal(s: seq<nat>) {
    s != [] ==> s[0] != 0
  }

  lemma MinimalIsLarge(base: nat, s: seq<nat>)
    requires base > 0 && s != [] && Minimal(s)
    ensures Pow(base, |s| - 1) <= Val(base, s)
  {
    MulMonotone(1, s[0], Pow(base, |s| - 1));
  }

  /** A number has at most one form without leading zeros. */
  lemma MinimalIsUnique(base: nat, s: seq<nat>, t: seq<nat>)
    requires base > 1 && AllBelow(base, s) && AllBelow(base, t) && Minimal(s) && Minimal(t)
    requires Val(base, s) == Val(base, t)
    ensures s == t
  {
    NotShorter(base, s, t);
    NotShorter(base, t, s);
    SameValue(base, s, t);
  }

  /** A larger number does not have fewer digits. */
  lemma NotShorter(base: nat, s: seq<nat>, t: seq<nat>)
    requires base > 1 && AllBelow(base, t) && Minimal(s) && Val(base, s) <= Val(base, t)
    ensures |s| <= |t|
  {
    ValIsBounded(base, t);
    if |s| > |t| {
      MinimalIsLarge(base, s);
      PowGrows(base, |t|, |s| - 1);
    }
  }

  lemma LastDigit(base: nat, v: nat)
    requires base > 1 && v > 0
    ensures 0 <= v / base < v && 0 <= v % base < base && v == (v / base) * base + v % base
    ensures v / base == 0 ==> v % base > 0
  {
    DivMod(v, base);
    if v / base >= 1 {
      MulStep(1, base, v / base);
    }
  }

  /** The digits of a number, without leading zeros. */
  ghost function Digits(base: nat, v: nat): (s: seq<nat>)
    requires base > 1
    ensures AllBelow(base, s) && Minimal(s) && Val(base, s) == v
    decreases v
  {
    if v == 0 then []
    else
      LastDigit(base, v);
      var q, r := v / base, v % base;
      ValAppend(base, Digits(base, q), r);
      Digits(base, q) + [r]
  }

  lemma DigitsAre(base: nat, s: seq<nat>)
    requires base > 1 && AllBelow(base, s) && Minimal(s)
    ensures Digits(base, Val(base, s)) == s
  {
    MinimalIsUnique(base, Digits(base, Val(base, s)), s);
  }
}
