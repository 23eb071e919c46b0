/**
 The generator of the Bech32 code has the roots e^997, e^998 and e^999 in GF(1024), so the remainder
 of a list of symbols has the same values there as the list itself, read as a polynomial.
 */
module Bech32Roots {
  import opened Bech32Code
  import opened GaloisField

  /** The last symbol, as an element of the larger field. */
  function Const(c: bv32): Element { (c & 31) as bv10 }

  /** The last n symbols, as a polynomial, at e^j. */
  function Value(j: nat, c: bv32, n: nat): Element {
    if n == 0 then 0 else Add(Times(j, Value(j, Drop(c), n - 1)), Const(c))
  }

  lemma DropXor(c: bv32, d: bv32)
    ensures Drop(Xor(c, d)) == Xor(Drop(c), Drop(d))
  {
  }

  lemma ConstXor(c: bv32, d: bv32)
    ensures Const(Xor(c, d)) == Add(Const(c), Const(d))
  {
  }

  lemma {:induction false} ValueXor(j: nat, c: bv32, d: bv32, n: nat)
    ensures Value(j, Xor(c, d), n) == Add(Value(j, c, n), Value(j, d, n))
    decreases n
  {
    if n == 0 {
      AddUnits(0);
    } else {
      var x, y := Value(j, Drop(c), n - 1), Value(j, Drop(d), n - 1);
      DropXor(c, d);
      ConstXor(c, d);
      ValueXor(j, Drop(c), Drop(d), n - 1);
      TimesAdd(j, x, y);
      AddExchange(Times(j, x), Times(j, y), Const(c), Const(d));
    }
  }

  lemma ConstOfZero(c: bv32)
    requires c <= 0
    ensures Const(c) == 0
  {
  }

  /** A leading zero does not count. */
  lemma {:induction false} ValueShort(j: nat, c: bv32, n: nat, limit: bv32)
    requires n <= 5 && limit == Full(n) && c <= limit
    ensures Value(j, c, n + 1) == Value(j, c, n)
    decreases n
  {
    if n == 0 {
      TimesZero(j);
      ConstOfZero(c);
      AddUnits(0);
    } else {
      DropFits(c, n, limit, Full(n - 1));
      ValueShort(j, Drop(c), n - 1, Full(n - 1));
    }
  }

  lemma ShiftParts(c: bv32, v: bv32)
    requires c <= 0x1ffffff && v < 32
    ensures Drop(Xor(TimesX(c), v)) == c && Const(Xor(TimesX(c), v)) == Const(v)
  {
  }

  /** What moves up by one symbol is multiplied by e^j. */
  lemma ValueShifted(j: nat, c: bv32, v: bv32)
    requires c <= 0x1ffffff && v < 32
    ensures Value(j, Xor(TimesX(c), v), 6) == Add(Times(j, Value(j, c, 6)), Const(v))
  {
    ShiftParts(c, v);
    ValueShort(j, c, 5, 0x1ffffff);
  }

  // ----- the multiples of the generator

  /** Twice every symbol. */
  function DoubleAll(c: bv32): bv32 {
    ((c & 0x1ef7bdef) << 1) ^ ((c >> 4) & 0x2108421) ^ (((c >> 4) & 0x2108421) << 3)
  }

  lemma DoubleDrop(c: bv32)
    requires c <= ALL_BITS
    ensures Drop(DoubleAll(c)) == DoubleAll(Drop(c)) && Drop(c) <= ALL_BITS
  {
  }

  lemma DoubleConst(c: bv32)
    requires c <= ALL_BITS
    ensures Const(DoubleAll(c)) == Double(Const(c))
  {
  }

  lemma {:induction false} ValueDouble(j: nat, c: bv32, n: nat)
    requires c <= ALL_BITS
    ensures Value(j, DoubleAll(c), n) == Double(Value(j, c, n))
    decreases n
  {
    if n > 0 {
      DoubleDrop(c);
      DoubleConst(c);
      ValueDouble(j, Drop(c), n - 1);
      TimesDouble(j, Value(j, Drop(c), n - 1));
      DoubleAdd(Times(j, Value(j, Drop(c), n - 1)), Const(c));
    }
  }

  /** A step without a symbol multiplies the value by e^j. */
  ghost predicate Carries(j: nat, c: bv32) { Value(j, Step(c, 0), 6) == Times(j, Value(j, c, 6)) }

  ghost predicate IsRoot(j: nat) { 997 <= j <= 999 }

  lemma Apply997(j: nat, x: Element)
    requires 996 < j < 998
    ensures Times(j, x) == TimesRoot(x)
  {
    RootIsPower(x);
  }

  lemma Horner997(j: nat, c: bv32, n: nat, x: Element, y: Element)
    requires 996 < j < 998
    requires Value(j, Drop(c), n) == x && Add(TimesRoot(x), Const(c)) == y
    ensures Value(j, c, n + 1) == y
  {
    Apply997(j, x);
  }

  lemma Apply998(j: nat, x: Element)
    requires 997 < j < 999
    ensures Times(j, x) == TimesE(TimesRoot(x))
  {
    RootIsPower(x);
  }

  lemma Horner998(j: nat, c: bv32, n: nat, x: Element, y: Element)
    requires 997 < j < 999
    requires Value(j, Drop(c), n) == x && Add(TimesE(TimesRoot(x)), Const(c)) == y
    ensures Value(j, c, n + 1) == y
  {
    Apply998(j, x);
  }

  lemma Apply999(j: nat, x: Element)
    requires 998 < j < 1000
    ensures Times(j, x) == TimesE(TimesE(TimesRoot(x)))
  {
    RootIsPower(x);
  }

  lemma Horner999(j: nat, c: bv32, n: nat, x: Element, y: Element)
    requires 998 < j < 1000
    requires Value(j, Drop(c), n) == x && Add(TimesE(TimesE(TimesRoot(x))), Const(c)) == y
    ensures Value(j, c, n + 1) == y
  {
    Apply999(j, x);
  }

  lemma GeneratorAt997(j: nat)
    requires 996 < j < 998
    ensures Value(j, 0x3b6a57b2, 6) == 0x2f5
  {
    Horner997(j, 0x1d, 0, 0x0, 0x1d);
    Horner997(j, 0x3b6, 1, 0x1d, 0x18f);
    Horner997(j, 0x76d4, 2, 0x18f, 0x1be);
    Horner997(j, 0xeda95, 3, 0x1be, 0x192);
    Horner997(j, 0x1db52bd, 4, 0x192, 0x2e);
    Horner997(j, 0x3b6a57b2, 5, 0x2e, 0x2f5);
  }

  lemma TopAt997(j: nat)
    requires 996 < j < 998
    ensures Value(j, 0x2000000, 6) == 0x74
  {
    Horner997(j, 0x1, 0, 0x0, 0x1);
    Horner997(j, 0x20, 1, 0x1, 0x1bd);
    Horner997(j, 0x400, 2, 0x1bd, 0x369);
    Horner997(j, 0x8000, 3, 0x369, 0x34f);
    Horner997(j, 0x100000, 4, 0x34f, 0x3d6);
    Horner997(j, 0x2000000, 5, 0x3d6, 0x74);
  }

  lemma RootIs997(j: nat)
    requires 996 < j < 998
    ensures Carries(j, 0x2000000)
  {
    Leaves0();
    GeneratorAt997(j);
    TopAt997(j);
    Apply997(j, 0x74);
  }

  lemma GeneratorAt998(j: nat)
    requires 997 < j < 999
    ensures Value(j, 0x3b6a57b2, 6) == 0x3da
  {
    Horner998(j, 0x1d, 0, 0x0, 0x1d);
    Horner998(j, 0x3b6, 1, 0x1d, 0x1c4);
    Horner998(j, 0x76d4, 2, 0x1c4, 0x396);
    Horner998(j, 0xeda95, 3, 0x396, 0x34c);
    Horner998(j, 0x1db52bd, 4, 0x34c, 0x176);
    Horner998(j, 0x3b6a57b2, 5, 0x176, 0x3da);
  }

  lemma TopAt998(j: nat)
    requires 997 < j < 999
    ensures Value(j, 0x2000000, 6) == 0x25a
  {
    Horner998(j, 0x1, 0, 0x0, 0x1);
    Horner998(j, 0x20, 1, 0x1, 0x65);
    Horner998(j, 0x400, 2, 0x65, 0x88);
    Horner998(j, 0x8000, 3, 0x88, 0x373);
    Horner998(j, 0x100000, 4, 0x373, 0x3a3);
    Horner998(j, 0x2000000, 5, 0x3a3, 0x25a);
  }

  lemma RootIs998(j: nat)
    requires 997 < j < 999
    ensures Carries(j, 0x2000000)
  {
    Leaves0();
    GeneratorAt998(j);
    TopAt998(j);
    Apply998(j, 0x25a);
  }

  lemma GeneratorAt999(j: nat)
    requires 998 < j < 1000
    ensures Value(j, 0x3b6a57b2, 6) == 0xa1
  {
    Horner999(j, 0x1d, 0, 0x0, 0x1d);
    Horner999(j, 0x3b6, 1, 0x1d, 0x2e3);
    Horner999(j, 0x76d4, 2, 0x2e3, 0x2e3);
    Horner999(j, 0xeda95, 3, 0x2e3, 0x2e2);
    Horner999(j, 0x1db52bd, 4, 0x2e2, 0x13a);
    Horner999(j, 0x3b6a57b2, 5, 0x13a, 0xa1);
  }

  lemma TopAt999(j: nat)
    requires 998 < j < 1000
    ensures Value(j, 0x2000000, 6) == 0x42
  {
    Horner999(j, 0x1, 0, 0x0, 0x1);
    Horner999(j, 0x20, 1, 0x1, 0x3d0);
    Horner999(j, 0x400, 2, 0x3d0, 0x159);
    Horner999(j, 0x8000, 3, 0x159, 0x2c6);
    Horner999(j, 0x100000, 4, 0x2c6, 0x51);
    Horner999(j, 0x2000000, 5, 0x51, 0x42);
  }

  lemma RootIs999(j: nat)
    requires 998 < j < 1000
    ensures Carries(j, 0x2000000)
  {
    Leaves0();
    GeneratorAt999(j);
    TopAt999(j);
    Apply999(j, 0x42);
  }

  lemma Leaves0()
    ensures Step(0x2000000, 0) == 0x3b6a57b2
  {
  }

  lemma Leaves1()
    ensures Step(0x4000000, 0) == 0x26508e6d
  {
  }

  lemma Leaves2()
    ensures Step(0x8000000, 0) == 0x1ea119fa
  {
  }

  lemma Leaves3()
    ensures Step(0x10000000, 0) == 0x3d4233dd
  {
  }

  lemma Leaves4()
    ensures Step(0x20000000, 0) == 0x2a1462b3
  {
  }

  lemma CarriesDouble(j: nat, c: bv32, d: bv32, e: bv32, f: bv32)
    requires c <= ALL_BITS && e <= ALL_BITS && Carries(j, c) && Step(c, 0) == e
    requires d == DoubleAll(c) && f == DoubleAll(e) && Step(d, 0) == f
    ensures Carries(j, d)
  {
    ValueDouble(j, c, 6);
    ValueDouble(j, e, 6);
    TimesDouble(j, Value(j, c, 6));
  }

  /** The generator times 1: its three roots. */
  lemma CarriesBit0(j: nat)
    requires IsRoot(j)
    ensures Carries(j, 0x2000000)
  {
    if j < 998 {
      RootIs997(j);
    } else if j < 999 {
      RootIs998(j);
    } else {
      RootIs999(j);
    }
  }

  lemma CarriesBit1(j: nat)
    requires IsRoot(j)
    ensures Carries(j, 0x4000000)
  {
    CarriesBit0(j);
    Leaves0();
    Leaves1();
    CarriesDouble(j, 0x2000000, 0x4000000, 0x3b6a57b2, 0x26508e6d);
  }

  lemma CarriesBit2(j: nat)
    requires IsRoot(j)
    ensures Carries(j, 0x8000000)
  {
    CarriesBit1(j);
    Leaves1();
    Leaves2();
    CarriesDouble(j, 0x4000000, 0x8000000, 0x26508e6d, 0x1ea119fa);
  }

  lemma CarriesBit3(j: nat)
    requires IsRoot(j)
    ensures Carries(j, 0x10000000)
  {
    CarriesBit2(j);
    Leaves2();
    Leaves3();
    CarriesDouble(j, 0x8000000, 0x10000000, 0x1ea119fa, 0x3d4233dd);
  }

  lemma CarriesBit4(j: nat)
    requires IsRoot(j)
    ensures Carries(j, 0x20000000)
  {
    CarriesBit3(j);
    Leaves3();
    Leaves4();
    CarriesDouble(j, 0x10000000, 0x20000000, 0x3d4233dd, 0x2a1462b3);
  }

  lemma CarriesXor(j: nat, c: bv32, d: bv32)
    requires Carries(j, c) && Carries(j, d)
    ensures Carries(j, Xor(c, d))
  {
    XorUnits(0);
    StepXor(c, d, 0, 0);
    ValueXor(j, Step(c, 0), Step(d, 0), 6);
    ValueXor(j, c, d, 6);
    TimesAdd(j, Value(j, c, 6), Value(j, d, 6));
  }

  lemma CarriesShort(j: nat, c: bv32)
    requires c <= 0x1ffffff
    ensures Carries(j, c)
  {
    ShortStep(c, 0);
    ValueShifted(j, c, 0);
    ConstOfZero(0);
    AddUnits(Times(j, Value(j, c, 6)));
  }

  lemma Rest(c: bv32, bit: bv32)
    ensures c == Xor(bit, Xor(c, bit))
  {
  }

  lemma Below0(c: bv32)
    requires 0x1ffffff < c <= 0x3ffffff
    ensures Xor(c, 0x2000000) <= 0x1ffffff
  {
  }

  lemma Carries1(j: nat, c: bv32)
    requires IsRoot(j) && c <= 0x3ffffff
    ensures Carries(j, c)
  {
    if c <= 0x1ffffff {
      CarriesShort(j, c);
    } else {
      Below0(c);
      CarriesShort(j, Xor(c, 0x2000000));
      CarriesBit0(j);
      CarriesXor(j, 0x2000000, Xor(c, 0x2000000));
      Rest(c, 0x2000000);
    }
  }

  lemma Below1(c: bv32)
    requires 0x3ffffff < c <= 0x7ffffff
    ensures Xor(c, 0x4000000) <= 0x3ffffff
  {
  }

  lemma Carries2(j: nat, c: bv32)
    requires IsRoot(j) && c <= 0x7ffffff
    ensures Carries(j, c)
  {
    if c <= 0x3ffffff {
      Carries1(j, c);
    } else {
      Below1(c);
      Carries1(j, Xor(c, 0x4000000));
      CarriesBit1(j);
      CarriesXor(j, 0x4000000, Xor(c, 0x4000000));
      Rest(c, 0x4000000);
    }
  }

  lemma Below2(c: bv32)
    requires 0x7ffffff < c <= 0xfffffff
    ensures Xor(c, 0x8000000) <= 0x7ffffff
  {
  }

  lemma Carries3(j: nat, c: bv32)
    requires IsRoot(j) && c <= 0xfffffff
    ensures Carries(j, c)
  {
    if c <= 0x7ffffff {
      Carries2(j, c);
    } else {
      Below2(c);
      Carries2(j, Xor(c, 0x8000000));
      CarriesBit2(j);
      CarriesXor(j, 0x8000000, Xor(c, 0x8000000));
      Rest(c, 0x8000000);
    }
  }

  lemma Below3(c: bv32)
    requires 0xfffffff < c <= 0x1fffffff
    ensures Xor(c, 0x10000000) <= 0xfffffff
  {
  }

  lemma Carries4(j: nat, c: bv32)
    requires IsRoot(j) && c <= 0x1fffffff
    ensures Carries(j, c)
  {
    if c <= 0xfffffff {
      Carries3(j, c);
    } else {
      Below3(c);
      Carries3(j, Xor(c, 0x10000000));
      CarriesBit3(j);
      CarriesXor(j, 0x10000000, Xor(c, 0x10000000));
      Rest(c, 0x10000000);
    }
  }

  lemma Below4(c: bv32)
    requires 0x1fffffff < c <= 0x3fffffff
    ensures Xor(c, 0x20000000) <= 0x1fffffff
  {
  }

  lemma Carries5(j: nat, c: bv32)
    requires IsRoot(j) && c <= 0x3fffffff
    ensures Carries(j, c)
  {
    if c <= 0x1fffffff {
      Carries4(j, c);
    } else {
      Below4(c);
      Carries4(j, Xor(c, 0x20000000));
      CarriesBit4(j);
      CarriesXor(j, 0x20000000, Xor(c, 0x20000000));
      Rest(c, 0x20000000);
    }
  }

  lemma StepOfZero(v: bv32)
    ensures Step(0, v) == v
  {
    ShortStep(0, v);
    XorUnits(v);
  }

  lemma ValueOfSymbol(j: nat, v: bv32)
    requires v < 32
    ensures Value(j, v, 6) == Const(v)
  {
    ValueShifted(j, 0, v);
    XorUnits(v);
    ValueOfZero(j, 6);
    TimesZero(j);
    AddUnits(Const(v));
  }

  lemma ValueOfZero(j: nat, n: nat)
    ensures Value(j, 0, n) == 0
  {
    XorUnits(0);
    ValueXor(j, 0, 0, n);
    AddUnits(Value(j, 0, n));
  }

  /** A step multiplies the value by e^j and adds the symbol. */
  lemma StepValue(j: nat, c: bv32, v: bv32)
    requires IsRoot(j) && c <= ALL_BITS && v < 32
    ensures Value(j, Step(c, v), 6) == Add(Times(j, Value(j, c, 6)), Const(v))
  {
    Carries5(j, c);
    XorUnits(c);
    XorUnits(v);
    StepXor(c, 0, 0, v);
    StepOfZero(v);
    ValueXor(j, Step(c, 0), v, 6);
    ValueOfSymbol(j, v);
  }
}
