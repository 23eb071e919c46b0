/**
 The Bech32 checksum: a list of 5-bit symbols as a polynomial over GF(32),
 reduced modulo a generator of degree six whose coefficients fill 30 bits.
 (Bech32Roots has the field and the roots of the generator.)
 */
module Bech32Code {

  type Symbol = v: bv32 | v < 32

  const ALL_BITS: bv32 := 0x3fffffff

  function Xor(a: bv32, b: bv32): bv32 { a ^ b }

  /** The generator times a power of two, if that bit leaves on the left. */
  function Reduction(c: bv32, bit: bv32, multiple: bv32): bv32 { if c & bit == 0 then 0 else multiple }

  function Reduction0(c: bv32): bv32 { Reduction(c, 0x2000000, 0x3b6a57b2) }
  function Reduction1(c: bv32): bv32 { Reduction(c, 0x4000000, 0x26508e6d) }
  function Reduction2(c: bv32): bv32 { Reduction(c, 0x8000000, 0x1ea119fa) }
  function Reduction3(c: bv32): bv32 { Reduction(c, 0x10000000, 0x3d4233dd) }
  function Reduction4(c: bv32): bv32 { Reduction(c, 0x20000000, 0x2a1462b3) }

  function TimesX(c: bv32): bv32 { (c & 0x1ffffff) << 5 }

  /** Multiplies by x, adds a symbol and reduces. */
  function Step(c: bv32, v: bv32): bv32 {
    Xor(Xor(Xor(Xor(Xor(Xor(TimesX(c), v), Reduction0(c)), Reduction1(c)), Reduction2(c)), Reduction3(c)),
        Reduction4(c))
  }

  lemma Reduction0Xor(a: bv32, b: bv32)
    ensures Reduction0(Xor(a, b)) == Xor(Reduction0(a), Reduction0(b))
  {
  }

  lemma Reduction1Xor(a: bv32, b: bv32)
    ensures Reduction1(Xor(a, b)) == Xor(Reduction1(a), Reduction1(b))
  {
  }

  lemma Reduction2Xor(a: bv32, b: bv32)
    ensures Reduction2(Xor(a, b)) == Xor(Reduction2(a), Reduction2(b))
  {
  }

  lemma Reduction3Xor(a: bv32, b: bv32)
    ensures Reduction3(Xor(a, b)) == Xor(Reduction3(a), Reduction3(b))
  {
  }

  lemma Reduction4Xor(a: bv32, b: bv32)
    ensures Reduction4(Xor(a, b)) == Xor(Reduction4(a), Reduction4(b))
  {
  }

  lemma TimesXXor(a: bv32, b: bv32)
    ensures TimesX(Xor(a, b)) == Xor(TimesX(a), TimesX(b))
  {
  }

  lemma XorExchange(a: bv32, b: bv32, c: bv32, d: bv32)
    ensures Xor(Xor(a, b), Xor(c, d)) == Xor(Xor(a, c), Xor(b, d))
  {
    XorMoves(a, b, Xor(c, d));
    XorMoves(b, c, d);
    XorSwaps(b, c);
    XorMoves(c, b, d);
    XorMoves(a, c, Xor(b, d));
  }

  lemma XorMoves(a: bv32, b: bv32, c: bv32)
    ensures Xor(Xor(a, b), c) == Xor(a, Xor(b, c))
  {
  }

  lemma XorSwaps(a: bv32, b: bv32)
    ensures Xor(a, b) == Xor(b, a)
  {
  }

  lemma XorUnits(a: bv32)
    ensures Xor(a, 0) == a && Xor(0, a) == a && Xor(a, a) == 0
  {
  }

  lemma XorZero(a: bv32, b: bv32)
    requires Xor(a, b) == 0
    ensures a == b
  {
  }

  lemma XorCancels(a: bv32, b: bv32)
    ensures Xor(a, Xor(a, b)) == b
  {
  }

  lemma XorFits(a: bv32, b: bv32)
    requires a <= ALL_BITS && b <= ALL_BITS
    ensures Xor(a, b) <= ALL_BITS
  {
  }

  /** The step is linear. */
  lemma StepXor(c: bv32, d: bv32, v: bv32, w: bv32)
    ensures Step(Xor(c, d), Xor(v, w)) == Xor(Step(c, v), Step(d, w))
  {
    TimesXXor(c, d);
    XorExchange(TimesX(c), TimesX(d), v, w);
    var x, y := Xor(TimesX(c), v), Xor(TimesX(d), w);
    Reduction0Xor(c, d);
    XorExchange(x, y, Reduction0(c), Reduction0(d));
    x, y := Xor(x, Reduction0(c)), Xor(y, Reduction0(d));
    Reduction1Xor(c, d);
    XorExchange(x, y, Reduction1(c), Reduction1(d));
    x, y := Xor(x, Reduction1(c)), Xor(y, Reduction1(d));
    Reduction2Xor(c, d);
    XorExchange(x, y, Reduction2(c), Reduction2(d));
    x, y := Xor(x, Reduction2(c)), Xor(y, Reduction2(d));
    Reduction3Xor(c, d);
    XorExchange(x, y, Reduction3(c), Reduction3(d));
    x, y := Xor(x, Reduction3(c)), Xor(y, Reduction3(d));
    Reduction4Xor(c, d);
    XorExchange(x, y, Reduction4(c), Reduction4(d));
  }

  lemma PartsFit(c: bv32)
    ensures TimesX(c) <= ALL_BITS && Reduction0(c) <= ALL_BITS && Reduction1(c) <= ALL_BITS
    ensures Reduction2(c) <= ALL_BITS && Reduction3(c) <= ALL_BITS && Reduction4(c) <= ALL_BITS
  {
  }

  lemma StepFits(c: bv32, v: bv32)
    requires v <= ALL_BITS
    ensures Step(c, v) <= ALL_BITS
  {
    PartsFit(c);
    var x := TimesX(c);
    XorFits(x, v);
    x := Xor(x, v);
    XorFits(x, Reduction0(c));
    x := Xor(x, Reduction0(c));
    XorFits(x, Reduction1(c));
    x := Xor(x, Reduction1(c));
    XorFits(x, Reduction2(c));
    x := Xor(x, Reduction2(c));
    XorFits(x, Reduction3(c));
    x := Xor(x, Reduction3(c));
    XorFits(x, Reduction4(c));
  }

  /** Nothing is reduced while nothing leaves on the left. */
  lemma ShortStep(c: bv32, v: bv32)
    requires c <= 0x1ffffff
    ensures Step(c, v) == Xor(TimesX(c), v)
  {
    Short0(c);
    Short1(c);
    Short2(c);
    Short3(c);
    Short4(c);
    XorUnits(Xor(TimesX(c), v));
  }

  lemma Short0(c: bv32)
    requires c <= 0x1ffffff
    ensures Reduction0(c) == 0
  {
  }

  lemma Short1(c: bv32)
    requires c <= 0x1ffffff
    ensures Reduction1(c) == 0
  {
  }

  lemma Short2(c: bv32)
    requires c <= 0x1ffffff
    ensures Reduction2(c) == 0
  {
  }

  lemma Short3(c: bv32)
    requires c <= 0x1ffffff
    ensures Reduction3(c) == 0
  {
  }

  lemma Short4(c: bv32)
    requires c <= 0x1ffffff
    ensures Reduction4(c) == 0
  {
  }

  /** No nonzero remainder is lost, because the generator has a constant term. */
  lemma StepKeepsNonzero(c: bv32)
    requires c <= ALL_BITS && Step(c, 0) == 0
    ensures c == 0
  {
  }

  lemma StepInjective(c: bv32, d: bv32, v: bv32)
    requires c <= ALL_BITS && d <= ALL_BITS && Step(c, v) == Step(d, v)
    ensures c == d
  {
    StepXor(c, d, v, v);
    XorUnits(v);
    XorUnits(Step(c, v));
    XorFits(c, d);
    StepKeepsNonzero(Xor(c, d));
    XorZero(c, d);
  }

  // ----- lists of symbols

  /** The remainder after a list of symbols. */
  function Poly(c: bv32, s: seq<Symbol>): bv32 {
    if s == [] then c else Step(Poly(c, s[..|s| - 1]), s[|s| - 1])
  }

  lemma PolyAppend(c: bv32, s: seq<Symbol>, v: Symbol)
    ensures Poly(c, s + [v]) == Step(Poly(c, s), v)
  {
    assert (s + [v])[..|s|] == s;
  }

  lemma {:induction false} PolyConcat(c: bv32, s: seq<Symbol>, t: seq<Symbol>)
    ensures Poly(c, s + t) == Poly(Poly(c, s), t)
    decreases |t|
  {
    if t == [] {
      assert s + t == s;
    } else {
      var u := t[..|t| - 1];
      PolyConcat(c, s, u);
      assert s + t == (s + u) + [t[|t| - 1]];
      PolyAppend(c, s + u, t[|t| - 1]);
    }
  }

  lemma {:induction false} PolyFits(c: bv32, s: seq<Symbol>)
    requires c <= ALL_BITS
    ensures Poly(c, s) <= ALL_BITS
  {
    if s != [] {
      StepFits(Poly(c, s[..|s| - 1]), s[|s| - 1]);
    }
  }

  lemma {:induction false} PolyInjective(c: bv32, d: bv32, s: seq<Symbol>)
    requires c <= ALL_BITS && d <= ALL_BITS && Poly(c, s) == Poly(d, s)
    ensures c == d
  {
    if s != [] {
      var t := s[..|s| - 1];
      PolyFits(c, t);
      PolyFits(d, t);
      StepInjective(Poly(c, t), Poly(d, t), s[|s| - 1]);
      PolyInjective(c, d, t);
    }
  }

  /** Up to six symbols side by side. */
  function Pack(s: seq<Symbol>): bv32 {
    if s == [] then 0 else Xor(TimesX(Pack(s[..|s| - 1])), s[|s| - 1])
  }

  /** The largest number of so many symbols. */
  function Full(n: nat): bv32 {
    if n == 0 then 0
    else if n == 1 then 0x1f
    else if n == 2 then 0x3ff
    else if n == 3 then 0x7fff
    else if n == 4 then 0xfffff
    else if n == 5 then 0x1ffffff
    else ALL_BITS
  }

  lemma FullStep(c: bv32, v: bv32, n: nat, m: bv32, m': bv32)
    requires n < 6 && m == Full(n) && m' == Full(n + 1) && c <= m && v < 32
    ensures Xor(TimesX(c), v) <= m'
  {
  }

  lemma PackAppend(s: seq<Symbol>, v: Symbol)
    ensures Pack(s + [v]) == Xor(TimesX(Pack(s)), v)
  {
    assert (s + [v])[..|s|] == s;
  }

  lemma {:induction false} PackFits(s: seq<Symbol>, m: bv32)
    requires |s| <= 6 && m == Full(|s|)
    ensures Pack(s) <= m
  {
    if s != [] {
      var t, v := s[..|s| - 1], s[|s| - 1];
      PackFits(t, Full(|t|));
      FullStep(Pack(t), v, |t|, Full(|t|), m);
    }
  }

  lemma SplitLast(a: bv32, b: bv32, v: bv32, w: bv32)
    requires a <= 0x1ffffff && b <= 0x1ffffff && v < 32 && w < 32 && Xor(TimesX(a), v) == Xor(TimesX(b), w)
    ensures a == b && v == w
  {
  }

  lemma FullIsShort(n: nat)
    requires n <= 5
    ensures Full(n) <= 0x1ffffff
  {
  }

  lemma {:induction false} PackInjective(s: seq<Symbol>, t: seq<Symbol>)
    requires |s| == |t| <= 6 && Pack(s) == Pack(t)
    ensures s == t
  {
    if s != [] {
      var u, v := s[..|s| - 1], t[..|t| - 1];
      PackFits(u, Full(|u|));
      PackFits(v, Full(|u|));
      FullIsShort(|u|);
      SplitLast(Pack(u), Pack(v), s[|s| - 1], t[|t| - 1]);
      PackInjective(u, v);
      assert s == u + [s[|s| - 1]] && t == v + [t[|t| - 1]];
    }
  }

  function Zeros(n: nat): (s: seq<Symbol>)
    ensures |s| == n
  {
    seq(n, i => 0)
  }

  /** Up to six symbols change the remainder by just themselves. */
  lemma {:induction false} PolyOfFew(c: bv32, s: seq<Symbol>)
    requires |s| <= 6
    ensures Poly(c, s) == Xor(Poly(c, Zeros(|s|)), Pack(s))
  {
    if s == [] {
      XorUnits(c);
    } else {
      var t, v, z := s[..|s| - 1], s[|s| - 1], Zeros(|s| - 1);
      PolyOfFew(c, t);
      XorUnits(v);
      StepXor(Poly(c, z), Pack(t), 0, v);
      PackFits(t, Full(|t|));
      FullIsShort(|t|);
      ShortStep(Pack(t), v);
      assert Zeros(|s|) == z + [0];
      PolyAppend(c, z, 0);
    }
  }

  function Low(x: bv32): Symbol { x & 31 }

  function Drop(x: bv32): bv32 { x >> 5 }

  /** The last n symbols of a number. */
  function Unpack(m: bv32, n: nat): (s: seq<Symbol>)
    ensures |s| == n
  {
    if n == 0 then [] else Unpack(Drop(m), n - 1) + [Low(m)]
  }

  lemma Rejoin(x: bv32)
    requires x <= ALL_BITS
    ensures Xor(TimesX(Drop(x)), Low(x)) == x
  {
  }

  lemma DropFits(x: bv32, n: nat, limit: bv32, smaller: bv32)
    requires 0 < n <= 6 && limit == Full(n) && smaller == Full(n - 1) && x <= limit
    ensures x <= ALL_BITS && Drop(x) <= smaller
  {
  }

  ghost predicate Packs(s: seq<Symbol>, m: bv32) { Pack(s) == m }

  lemma PackJoins(s: seq<Symbol>, x: bv32)
    requires x <= ALL_BITS && Packs(s, Drop(x))
    ensures Packs(s + [Low(x)], x)
  {
    PackAppend(s, Low(x));
    Rejoin(x);
  }

  lemma PackNone(x: bv32)
    requires x <= 0
    ensures Packs([], x)
  {
  }

  lemma {:induction false} PackUnpack(m: bv32, n: nat, limit: bv32)
    requires n <= 6 && limit == Full(n) && m <= limit
    ensures Packs(Unpack(m, n), m)
    decreases n
  {
    if n == 0 {
      PackNone(m);
    } else {
      var smaller := Full(n - 1);
      DropFits(m, n, limit, smaller);
      PackUnpack(Drop(m), n - 1, smaller);
      PackJoins(Unpack(Drop(m), n - 1), m);
    }
  }

  // ----- the checksum

  /** The six symbols that bring the remainder of `s` to `target`. */
  function Closing(c: bv32, target: bv32): seq<Symbol> {
    Unpack(Xor(Poly(c, Zeros(6)), target), 6)
  }

  lemma ClosingPacks(c: bv32, target: bv32)
    requires c <= ALL_BITS && target <= ALL_BITS
    ensures Pack(Closing(c, target)) == Xor(Poly(c, Zeros(6)), target)
  {
    PolyFits(c, Zeros(6));
    XorFits(Poly(c, Zeros(6)), target);
    PackUnpack(Xor(Poly(c, Zeros(6)), target), 6, ALL_BITS);
  }

  /** There are always such symbols, and never others. */
  lemma ClosingIsUnique(c: bv32, target: bv32, six: seq<Symbol>)
    requires c <= ALL_BITS && target <= ALL_BITS && |six| == 6
    ensures Poly(c, six) == target <==> six == Closing(c, target)
  {
    var p := Poly(c, Zeros(6));
    PolyOfFew(c, six);
    ClosingPacks(c, target);
    if Poly(c, six) == target {
      XorCancels(p, Pack(six));
      PackInjective(six, Closing(c, target));
    } else if six == Closing(c, target) {
      XorCancels(p, target);
    }
  }

  // ----- errors

  /** A burst: the two lists agree outside a window of at most six symbols, and differ inside. */
  lemma BurstsAreSeen(c: bv32, before: seq<Symbol>, s: seq<Symbol>, t: seq<Symbol>, after: seq<Symbol>)
    requires c <= ALL_BITS && |s| == |t| <= 6 && s != t
    ensures Poly(c, before + s + after) != Poly(c, before + t + after)
  {
    var d := Poly(c, before);
    PolyFits(c, before);
    PolyFits(d, s);
    PolyFits(d, t);
    PolyConcat(c, before + s, after);
    PolyConcat(c, before + t, after);
    PolyConcat(c, before, s);
    PolyConcat(c, before, t);
    if Poly(c, before + s + after) == Poly(c, before + t + after) {
      PolyInjective(Poly(d, s), Poly(d, t), after);
      PolyOfFew(d, s);
      PolyOfFew(d, t);
      XorCancels(Poly(d, Zeros(|s|)), Pack(s));
      XorCancels(Poly(d, Zeros(|s|)), Pack(t));
      PackInjective(s, t);
    }
  }

  lemma SplitAround(s: seq<Symbol>, i: nat, v: Symbol)
    requires i < |s|
    ensures s == s[..i] + [s[i]] + s[i + 1..] && s[i := v] == s[..i] + [v] + s[i + 1..]
  {
  }

  /** In particular, one wrong symbol anywhere in a list of any length changes the remainder. */
  lemma OneErrorIsSeen(c: bv32, s: seq<Symbol>, i: nat, v: Symbol)
    requires c <= ALL_BITS && i < |s| && s[i] != v
    ensures Poly(c, s[i := v]) != Poly(c, s)
  {
    SplitAround(s, i, v);
    var before, after := s[..i], s[i + 1..];
    assert [s[i]][0] != [v][0];
    BurstsAreSeen(c, before, [s[i]], [v], after);
  }

  // ----- the loop

  lemma HighBits(c: bv32)
    ensures c & 0x2000000 == 0 <==> (c >> 25) & 1 == 0
    ensures c & 0x4000000 == 0 <==> (c >> 25) & 2 == 0
    ensures c & 0x8000000 == 0 <==> (c >> 25) & 4 == 0
    ensures c & 0x10000000 == 0 <==> (c >> 25) & 8 == 0
    ensures c & 0x20000000 == 0 <==> (c >> 25) & 16 == 0
  {
  }

  method PolyMod(v: seq<Symbol>) returns (c: bv32)
    ensures c == Poly(1, v)
  {
    c := 1;
    for i := 0 to |v|
      invariant c == Poly(1, v[..i])
    {
      assert v[..i + 1] == v[..i] + [v[i]];
      PolyAppend(1, v[..i], v[i]);
      c := ReduceOne(c, v[i]);
    }
    assert v[..|v|] == v;
  }

  method ReduceOne(c: bv32, v: Symbol) returns (r: bv32)
    ensures r == Step(c, v)
  {
    HighBits(c);
    var c0 := c >> 25;
    r := Xor((c & 0x1ffffff) << 5, v);
    r := Xor(r, if c0 & 1 != 0 then 0x3b6a57b2 else 0);
    r := Xor(r, if c0 & 2 != 0 then 0x26508e6d else 0);
    r := Xor(r, if c0 & 4 != 0 then 0x1ea119fa else 0);
    r := Xor(r, if c0 & 8 != 0 then 0x3d4233dd else 0);
    r := Xor(r, if c0 & 16 != 0 then 0x2a1462b3 else 0);
  }
}
