/**
 GF(1024) as the error locator's tables build it. An element a || b stands for a*e + b, where a and b are
 elements of GF(32), taken modulo a^5 + a^3 + 1, and e*e = 9*e + 23. Powers of e run through all nonzero elements.
 */
module GaloisField {
  import opened Numbers

  type Element = bv10

  function Add(a: Element, b: Element): Element { a ^ b }

  /** Twice an element of GF(32). */
  function Twice(x: Element): Element { if x & 0x10 == 0 then x << 1 else (x << 1) ^ 41 }

  /** Twice both halves. */
  function Double(v: Element): Element {
    ((v & 0x1ef) << 1) ^ (if v & 0x10 == 0 then 0 else 0x9) ^ (if v & 0x200 == 0 then 0 else 0x120)
  }

  /** e times an element, bit by bit. */
  function TimesE(v: Element): Element {
    ((v & 31) << 5)
    ^ (if v & 0x20 == 0 then 0 else 0x137) ^ (if v & 0x40 == 0 then 0 else 0x247)
    ^ (if v & 0x80 == 0 then 0 else 0x1ae) ^ (if v & 0x100 == 0 then 0 else 0x35c)
    ^ (if v & 0x200 == 0 then 0 else 0x3b1)
  }

  /** The square of an element, bit by bit. */
  function Square(v: Element): Element {
    (if v & 0x1 == 0 then 0 else 0x1) ^ (if v & 0x2 == 0 then 0 else 0x4)
    ^ (if v & 0x4 == 0 then 0 else 0x10) ^ (if v & 0x8 == 0 then 0 else 0x12)
    ^ (if v & 0x10 == 0 then 0 else 0x1a) ^ (if v & 0x20 == 0 then 0 else 0x137)
    ^ (if v & 0x40 == 0 then 0 else 0x1ae) ^ (if v & 0x80 == 0 then 0 else 0x3b1)
    ^ (if v & 0x100 == 0 then 0 else 0x1f6) ^ (if v & 0x200 == 0 then 0 else 0x2aa)
  }

  /** e^997 times an element, bit by bit. */
  function TimesRoot(v: Element): Element {
    (if v & 0x1 == 0 then 0 else 0x1bd) ^ (if v & 0x2 == 0 then 0 else 0x353)
    ^ (if v & 0x4 == 0 then 0 else 0x3af) ^ (if v & 0x8 == 0 then 0 else 0x27e)
    ^ (if v & 0x10 == 0 then 0 else 0x1f5) ^ (if v & 0x20 == 0 then 0 else 0x65)
    ^ (if v & 0x40 == 0 then 0 else 0xca) ^ (if v & 0x80 == 0 then 0 else 0x194)
    ^ (if v & 0x100 == 0 then 0 else 0x301) ^ (if v & 0x200 == 0 then 0 else 0x322)
  }

  lemma DoubleIsTwice(v: Element)
    ensures Double(v) == (Twice(v >> 5) << 5) ^ Twice(v & 31)
  {
  }

  /** The multiplication as the tables do it: the upper half is 9 times the upper plus the lower, the lower 23 times. */
  lemma TimesEIsProduct(v: Element)
    ensures var x1 := v >> 5;
      var x2 := Twice(x1);
      var x4 := Twice(x2);
      var x8 := Twice(x4);
      var x16 := Twice(x8);
      TimesE(v) == ((x8 ^ x1 ^ (v & 31)) << 5) ^ (x16 ^ x4 ^ x2 ^ x1)
  {
  }

  lemma AddUnits(a: Element)
    ensures Add(a, 0) == a && Add(0, a) == a && Add(a, a) == 0
  {
  }

  lemma AddZero(a: Element, b: Element)
    requires Add(a, b) == 0
    ensures a == b
  {
  }

  lemma AddExchange(a: Element, b: Element, c: Element, d: Element)
    ensures Add(Add(a, b), Add(c, d)) == Add(Add(a, c), Add(b, d))
  {
    AddMoves(a, b, Add(c, d));
    AddMoves(b, c, d);
    AddSwaps(b, c);
    AddMoves(c, b, d);
    AddMoves(a, c, Add(b, d));
  }

  lemma AddMoves(a: Element, b: Element, c: Element)
    ensures Add(Add(a, b), c) == Add(a, Add(b, c))
  {
  }

  lemma AddSwaps(a: Element, b: Element)
    ensures Add(a, b) == Add(b, a)
  {
  }

  // ----- linear maps, from the halves

  function Lower(v: Element): Element { v & 31 }

  function Upper(v: Element): Element { v & 0x3e0 }

  lemma HalvesAdd(a: Element, b: Element)
    ensures Lower(Add(a, b)) == Add(Lower(a), Lower(b)) && Upper(Add(a, b)) == Add(Upper(a), Upper(b))
  {
  }

  lemma TimesEHalves(v: Element)
    ensures TimesE(v) == Add(TimesE(Lower(v)), TimesE(Upper(v)))
  {
  }

  lemma TimesELower(a: Element, b: Element)
    requires a < 32 && b < 32
    ensures TimesE(Add(a, b)) == Add(TimesE(a), TimesE(b))
  {
  }

  lemma TimesEUpper(a: Element, b: Element)
    requires a & 31 == 0 && b & 31 == 0
    ensures TimesE(Add(a, b)) == Add(TimesE(a), TimesE(b))
  {
  }

  lemma TimesEAdd(a: Element, b: Element)
    ensures TimesE(Add(a, b)) == Add(TimesE(a), TimesE(b))
  {
    HalvesAdd(a, b);
    TimesEHalves(a);
    TimesEHalves(b);
    TimesEHalves(Add(a, b));
    LowerFits(a);
    LowerFits(b);
    TimesELower(Lower(a), Lower(b));
    TimesEUpper(Upper(a), Upper(b));
    AddExchange(TimesE(Lower(a)), TimesE(Lower(b)), TimesE(Upper(a)), TimesE(Upper(b)));
  }

  lemma LowerFits(v: Element)
    ensures Lower(v) < 32 && Upper(v) & 31 == 0
  {
  }

  lemma DoubleHalves(v: Element)
    ensures Double(v) == Add(Double(Lower(v)), Double(Upper(v)))
  {
  }

  lemma DoubleLower(a: Element, b: Element)
    requires a < 32 && b < 32
    ensures Double(Add(a, b)) == Add(Double(a), Double(b))
  {
  }

  lemma DoubleUpper(a: Element, b: Element)
    requires a & 31 == 0 && b & 31 == 0
    ensures Double(Add(a, b)) == Add(Double(a), Double(b))
  {
  }

  lemma DoubleAdd(a: Element, b: Element)
    ensures Double(Add(a, b)) == Add(Double(a), Double(b))
  {
    HalvesAdd(a, b);
    DoubleHalves(a);
    DoubleHalves(b);
    DoubleHalves(Add(a, b));
    LowerFits(a);
    LowerFits(b);
    DoubleLower(Lower(a), Lower(b));
    DoubleUpper(Upper(a), Upper(b));
    AddExchange(Double(Lower(a)), Double(Lower(b)), Double(Upper(a)), Double(Upper(b)));
  }

  lemma TimesEKeepsNonzero(v: Element)
    requires TimesE(v) == 0
    ensures v == 0
  {
  }

  lemma TimesEInjective(a: Element, b: Element)
    requires TimesE(a) == TimesE(b)
    ensures a == b
  {
    TimesEAdd(a, b);
    AddUnits(TimesE(a));
    TimesEKeepsNonzero(Add(a, b));
    AddZero(a, b);
  }

  lemma DoubleTimesE(v: Element)
    ensures Double(TimesE(v)) == TimesE(Double(v))
  {
  }

  lemma RootTimesE(v: Element)
    ensures TimesRoot(TimesE(v)) == TimesE(TimesRoot(v))
  {
  }

  /** Squaring e times an element multiplies the square by e twice. */
  lemma SquareTimesE(v: Element)
    ensures Square(TimesE(v)) == TimesE(TimesE(Square(v)))
  {
  }

  // ----- powers of e

  /** e^n times an element. */
  function Times(n: nat, v: Element): Element {
    if n == 0 then v else TimesE(Times(n - 1, v))
  }

  function Power(n: nat): Element { Times(n, 1) }

  lemma {:induction false} TimesSum(m: nat, n: nat, v: Element)
    ensures Times(m + n, v) == Times(m, Times(n, v))
  {
    if m > 0 {
      TimesSum(m - 1, n, v);
    }
  }

  lemma TimesCommute(m: nat, n: nat, v: Element)
    ensures Times(m, Times(n, v)) == Times(n, Times(m, v))
  {
    TimesSum(m, n, v);
    TimesSum(n, m, v);
    assert m + n == n + m;
  }

  lemma {:induction false} TimesAdd(n: nat, a: Element, b: Element)
    ensures Times(n, Add(a, b)) == Add(Times(n, a), Times(n, b))
  {
    if n > 0 {
      TimesAdd(n - 1, a, b);
      TimesEAdd(Times(n - 1, a), Times(n - 1, b));
    }
  }

  lemma TimesZero(n: nat)
    ensures Times(n, 0) == 0
  {
    TimesAdd(n, 0, 0);
    AddUnits(0);
    AddUnits(Times(n, 0));
  }

  lemma {:induction false} TimesInjective(n: nat, a: Element, b: Element)
    requires Times(n, a) == Times(n, b)
    ensures a == b
  {
    if n > 0 {
      TimesEInjective(Times(n - 1, a), Times(n - 1, b));
      TimesInjective(n - 1, a, b);
    }
  }

  lemma {:induction false} TimesDouble(n: nat, v: Element)
    ensures Times(n, Double(v)) == Double(Times(n, v))
  {
    if n > 0 {
      TimesDouble(n - 1, v);
      DoubleTimesE(Times(n - 1, v));
    }
  }

  lemma {:induction false} SquareOfPower(n: nat)
    ensures Square(Power(n)) == Power(2 * n)
  {
    if n > 0 {
      SquareOfPower(n - 1);
      SquareTimesE(Power(n - 1));
      Next(2 * n - 2, Power(2 * n - 2), TimesE(Power(2 * n - 2)));
      Next(2 * n - 1, Power(2 * n - 1), TimesE(Power(2 * n - 1)));
    }
  }

  // ----- the order of e

  lemma Doubled(n: nat, v: Element, w: Element)
    requires Power(n) == v && Square(v) == w
    ensures Power(2 * n) == w
  {
    SquareOfPower(n);
  }

  lemma Next(n: nat, v: Element, w: Element)
    requires Power(n) == v && TimesE(v) == w
    ensures Power(n + 1) == w
  {
  }

  lemma PowerOf1023()
    ensures Power(1023) == 1
  {
    Next(0, 1, 0x20);
    Doubled(1, 0x20, 0x137);
    Next(2, 0x137, 0x8b);
    Doubled(3, 0x8b, 0x3a6);
    Next(6, 0x3a6, 0xb4);
    Doubled(7, 0xb4, 0x28c);
    Next(14, 0x28c, 0x39f);
    Doubled(15, 0x39f, 0xf0);
    Next(30, 0xf0, 0xde);
    Doubled(31, 0xde, 0x203);
    Next(62, 0x203, 0x3d1);
    Doubled(63, 0x3d1, 0x158);
    Next(126, 0x158, 0x21b);
    Doubled(127, 0x21b, 0x2a7);
    Next(254, 0x2a7, 0x3c8);
    Doubled(255, 0x3c8, 0x151);
    Next(510, 0x151, 0x33b);
    Doubled(511, 0x33b, 0x266);
    Next(1022, 0x266, 0x1);
  }

  lemma PowerOf997()
    ensures Power(997) == 0x1bd
  {
    Next(0, 1, 0x20);
    Doubled(1, 0x20, 0x137);
    Next(2, 0x137, 0x8b);
    Doubled(3, 0x8b, 0x3a6);
    Next(6, 0x3a6, 0xb4);
    Doubled(7, 0xb4, 0x28c);
    Next(14, 0x28c, 0x39f);
    Doubled(15, 0x39f, 0xf0);
    Next(30, 0xf0, 0xde);
    Doubled(31, 0xde, 0x203);
    Doubled(62, 0x203, 0x2af);
    Doubled(124, 0x2af, 0x2b);
    Next(248, 0x2b, 0x57);
    Doubled(249, 0x57, 0x1a1);
    Doubled(498, 0x1a1, 0x371);
    Next(996, 0x371, 0x1bd);
  }

  lemma PowerOf341()
    ensures Power(341) != 1
  {
    Next(0, 1, 0x20);
    Doubled(1, 0x20, 0x137);
    Doubled(2, 0x137, 0xce);
    Next(4, 0xce, 0x229);
    Doubled(5, 0x229, 0x38e);
    Doubled(10, 0x38e, 0xeb);
    Next(20, 0xeb, 0x3be);
    Doubled(21, 0x3be, 0x1c6);
    Doubled(42, 0x1c6, 0x3fd);
    Next(84, 0x3fd, 0x193);
    Doubled(85, 0x193, 0x258);
    Doubled(170, 0x258, 0x30c);
    Next(340, 0x30c, 0x16d);
  }

  lemma PowerOf93()
    ensures Power(93) != 1
  {
    Next(0, 1, 0x20);
    Doubled(1, 0x20, 0x137);
    Doubled(2, 0x137, 0xce);
    Next(4, 0xce, 0x229);
    Doubled(5, 0x229, 0x38e);
    Next(10, 0x38e, 0x83);
    Doubled(11, 0x83, 0x3b4);
    Next(22, 0x3b4, 0x2f4);
    Doubled(23, 0x2f4, 0x188);
    Doubled(46, 0x188, 0x255);
    Next(92, 0x255, 0x356);
  }

  lemma PowerOf33()
    ensures Power(33) != 1
  {
    Next(0, 1, 0x20);
    Doubled(1, 0x20, 0x137);
    Doubled(2, 0x137, 0xce);
    Doubled(4, 0xce, 0x219);
    Doubled(8, 0x219, 0x2a3);
    Doubled(16, 0x2a3, 0x29);
    Next(32, 0x29, 0x17);
  }

  lemma {:induction false} OneMultiple(n: nat, m: nat)
    requires Power(n) == 1
    ensures Power(n * m) == 1
    decreases m
  {
    if m > 0 {
      OneMultiple(n, m - 1);
      TimesSum(n, n * (m - 1), 1);
      assert n * m == n + n * (m - 1);
    }
  }

  lemma OneDifference(m: nat, n: nat)
    requires n <= m && Power(m) == 1 && Power(n) == 1
    ensures Power(m - n) == 1
  {
    TimesSum(n, m - n, 1);
    TimesInjective(n, Power(m - n), 1);
  }

  /** Two exponents that give one have a common divisor that does. */
  lemma {:induction false} CommonDivisor(m: nat, n: nat) returns (g: nat, x: nat, y: nat)
    requires 0 < m && 0 < n && Power(m) == 1 && Power(n) == 1
    ensures g > 0 && Power(g) == 1 && m == g * x && n == g * y
    decreases m + n
  {
    if m == n {
      g, x, y := m, 1, 1;
    } else if m < n {
      OneDifference(n, m);
      g, x, y := CommonDivisor(m, n - m);
      Distribute(g, x, y);
      y := x + y;
    } else {
      OneDifference(m, n);
      g, x, y := CommonDivisor(m - n, n);
      Distribute(g, x, y);
      x := x + y;
    }
  }

  lemma SmallFactor(x: nat, y: nat)
    requires x * y == 1023 && x < 32
    ensures x == 1 || x == 3 || x == 11 || x == 31
  {
  }

  /** A proper divisor of 1023 divides 33, 93 or 341. */
  lemma ProperDivisor(g: nat, q: nat) returns (r: nat)
    requires g * q == 1023 && q != 1
    ensures g * r == 33 || g * r == 93 || g * r == 341
  {
    if q < 32 {
      SmallFactor(q, g);
      r := 1;
    } else {
      assert g < 32 by {
        if g >= 32 {
          MulMonotone(32, g, q);
        }
      }
      SmallFactor(g, q);
      r := if g == 1 then 33 else if g == 3 then 11 else 3;
    }
  }

  lemma NoSmallerOrder(k: nat)
    requires 0 < k < 1023
    ensures Power(k) != 1
  {
    if Power(k) == 1 {
      PowerOf1023();
      var g, q, x := CommonDivisor(1023, k);
      var r := ProperDivisor(g, q);
      OneMultiple(g, r);
      PowerOf33();
      PowerOf93();
      PowerOf341();
      assert false;
    }
  }

  /** The order of e is 1023. */
  lemma OrderIs1023(n: nat)
    ensures Power(n) == 1 <==> n % 1023 == 0
  {
    var q, r := n / 1023, n % 1023;
    PowerOf1023();
    OneMultiple(1023, q);
    TimesSum(r, 1023 * q, 1);
    assert n == r + 1023 * q;
    if r > 0 {
      NoSmallerOrder(r);
    }
  }

  lemma PowersDiffer(i: nat, j: nat)
    requires i < j < 1023
    ensures Power(i) != Power(j)
  {
    if Power(i) == Power(j) {
      TimesSum(i, j - i, 1);
      TimesInjective(i, Power(j - i), 1);
      NoSmallerOrder(j - i);
    }
  }

  lemma PowerIsNonzero(n: nat)
    ensures Power(n) != 0
  {
    if Power(n) == 0 {
      TimesZero(n);
      TimesInjective(n, 1, 0);
    }
  }

  // ----- every nonzero element is a power

  ghost function Number(v: Element): nat { v as int }

  lemma NumberIsInjective(a: Element, b: Element)
    requires Number(a) == Number(b)
    ensures a == b
  {
    assert (a as int) as bv10 == a;
    assert (b as int) as bv10 == b;
  }

  ghost function Powers(n: nat): set<nat> { set k | 0 <= k < n :: Number(Power(k)) }

  /** The numbers from 1 to n. */
  ghost function UpTo(n: nat): (s: set<nat>)
    ensures forall k :: k in s <==> 1 <= k <= n
    ensures |s| == n
  {
    if n == 0 then {} else UpTo(n - 1) + {n}
  }

  lemma {:induction false} PowersSize(n: nat)
    requires n <= 1023
    ensures |Powers(n)| == n
  {
    if n > 0 {
      PowersSize(n - 1);
      assert Powers(n) == Powers(n - 1) + {Number(Power(n - 1))};
      assert Number(Power(n - 1)) !in Powers(n - 1) by {
        if Number(Power(n - 1)) in Powers(n - 1) {
          var k :| 0 <= k < n - 1 && Number(Power(k)) == Number(Power(n - 1));
          NumberIsInjective(Power(k), Power(n - 1));
          PowersDiffer(k, n - 1);
        }
      }
    }
  }

  lemma NumberOfNonzero(v: Element)
    requires v != 0
    ensures Number(v) in UpTo(1023)
  {
  }

  lemma PowersAreNumbers(n: nat)
    ensures Powers(n) <= UpTo(1023)
  {
    forall k: nat | k < n
      ensures Number(Power(k)) in UpTo(1023)
    {
      PowerIsNonzero(k);
      NumberOfNonzero(Power(k));
    }
  }

  lemma {:induction false} FullSubset(a: set<nat>, b: set<nat>)
    requires a <= b && |a| == |b|
    ensures a == b
    decreases |a|
  {
    if a == {} {
      assert b == {};
    } else {
      var x :| x in a;
      FullSubset(a - {x}, b - {x});
      assert a == a - {x} + {x} && b == b - {x} + {x};
    }
  }

  /** e is primitive. */
  lemma EveryNonzeroIsPower(v: Element) returns (k: nat)
    requires v != 0
    ensures k < 1023 && Power(k) == v
  {
    PowersSize(1023);
    PowersAreNumbers(1023);
    FullSubset(Powers(1023), UpTo(1023));
    NumberOfNonzero(v);
    k :| 0 <= k < 1023 && Number(Power(k)) == Number(v);
    NumberIsInjective(Power(k), v);
  }

  /** Less than 1023 factors e change every nonzero element. */
  lemma NothingIsFixed(k: nat, v: Element)
    requires 0 < k < 1023 && Times(k, v) == v
    ensures v == 0
  {
    if v != 0 {
      var m := EveryNonzeroIsPower(v);
      TimesCommute(k, m, 1);
      TimesInjective(m, Power(k), 1);
      NoSmallerOrder(k);
    }
  }

  /** The bitwise map is the multiplication by e^997. */
  lemma RootIsPower(v: Element)
    ensures TimesRoot(v) == Times(997, v)
  {
    if v == 0 {
      TimesZero(997);
    } else {
      var k := EveryNonzeroIsPower(v);
      RootOfPower(k);
      TimesCommute(997, k, 1);
    }
  }

  lemma {:induction false} RootOfPower(k: nat)
    ensures TimesRoot(Power(k)) == Times(k, Power(997))
  {
    if k == 0 {
      PowerOf997();
    } else {
      RootOfPower(k - 1);
      RootTimesE(Power(k - 1));
    }
  }
}
