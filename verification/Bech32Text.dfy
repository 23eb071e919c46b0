/** The characters of a Bech32 string, as bytes, and what a string of them stands for. */
module Bech32Text {
  import opened Bech32Code

  type Text = seq<bv8>

  const SEPARATOR: bv8 := 0x31
  const NO_SYMBOL: bv32 := 0xff

  predicate IsLower(c: bv8) { 0x61 <= c <= 0x7a }

  predicate IsUpper(c: bv8) { 0x41 <= c <= 0x5a }

  predicate Printable(c: bv8) { 33 <= c <= 126 }

  function LowerCase(c: bv8): bv8 { if IsUpper(c) then (c - 0x41) + 0x61 else c }

  /** The character set, in four parts. */
  function CharOf(v: Symbol): bv8 {
    if v < 16 then (if v < 8 then Chars0(v) else Chars8(v)) else if v < 24 then Chars16(v) else Chars24(v)
  }

  function Chars0(v: Symbol): bv8 {
    if v == 0 then 0x71
    else if v == 1 then 0x70
    else if v == 2 then 0x7a
    else if v == 3 then 0x72
    else if v == 4 then 0x79
    else if v == 5 then 0x39
    else if v == 6 then 0x78
    else 0x38
  }

  function Chars8(v: Symbol): bv8 {
    if v == 8 then 0x67
    else if v == 9 then 0x66
    else if v == 10 then 0x32
    else if v == 11 then 0x74
    else if v == 12 then 0x76
    else if v == 13 then 0x64
    else if v == 14 then 0x77
    else 0x30
  }

  function Chars16(v: Symbol): bv8 {
    if v == 16 then 0x73
    else if v == 17 then 0x33
    else if v == 18 then 0x6a
    else if v == 19 then 0x6e
    else if v == 20 then 0x35
    else if v == 21 then 0x34
    else if v == 22 then 0x6b
    else 0x68
  }

  function Chars24(v: Symbol): bv8 {
    if v == 24 then 0x63
    else if v == 25 then 0x65
    else if v == 26 then 0x36
    else if v == 27 then 0x6d
    else if v == 28 then 0x75
    else if v == 29 then 0x61
    else if v == 30 then 0x37
    else 0x6c
  }

  /** The place of a character in the set, or NO_SYMBOL; the case does not matter. */
  function SymbolOf(c: bv8): bv32 { SymbolOfLower(LowerCase(c)) }

  function SymbolOfLower(c: bv8): bv32 {
    if c < 0x61 then DigitSymbol(c) else if c < 0x6e then EarlySymbol(c) else LateSymbol(c)
  }

  function DigitSymbol(c: bv8): bv32 {
    if c == 0x30 then 15
    else if c == 0x32 then 10
    else if c == 0x33 then 17
    else if c == 0x34 then 21
    else if c == 0x35 then 20
    else if c == 0x36 then 26
    else if c == 0x37 then 30
    else if c == 0x38 then 7
    else if c == 0x39 then 5
    else NO_SYMBOL
  }

  function EarlySymbol(c: bv8): bv32 {
    if c == 0x61 then 29
    else if c == 0x63 then 24
    else if c == 0x64 then 13
    else if c == 0x65 then 25
    else if c == 0x66 then 9
    else if c == 0x67 then 8
    else if c == 0x68 then 23
    else if c == 0x6a then 18
    else if c == 0x6b then 22
    else if c == 0x6c then 31
    else if c == 0x6d then 27
    else NO_SYMBOL
  }

  function LateSymbol(c: bv8): bv32 {
    if c == 0x6e then 19
    else if c == 0x70 then 1
    else if c == 0x71 then 0
    else if c == 0x72 then 3
    else if c == 0x73 then 16
    else if c == 0x74 then 11
    else if c == 0x75 then 28
    else if c == 0x76 then 12
    else if c == 0x77 then 14
    else if c == 0x78 then 6
    else if c == 0x79 then 4
    else if c == 0x7a then 2
    else NO_SYMBOL
  }

  lemma Chars0AreFound(v: Symbol)
    requires 0 <= v < 8
    ensures SymbolOfLower(Chars0(v)) == v && Printable(Chars0(v)) && !IsUpper(Chars0(v)) && Chars0(v) != SEPARATOR
  {
  }

  lemma Chars8AreFound(v: Symbol)
    requires 8 <= v < 16
    ensures SymbolOfLower(Chars8(v)) == v && Printable(Chars8(v)) && !IsUpper(Chars8(v)) && Chars8(v) != SEPARATOR
  {
  }

  lemma Chars16AreFound(v: Symbol)
    requires 16 <= v < 24
    ensures SymbolOfLower(Chars16(v)) == v && Printable(Chars16(v)) && !IsUpper(Chars16(v)) && Chars16(v) != SEPARATOR
  {
  }

  lemma Chars24AreFound(v: Symbol)
    requires 24 <= v < 32
    ensures SymbolOfLower(Chars24(v)) == v && Printable(Chars24(v)) && !IsUpper(Chars24(v)) && Chars24(v) != SEPARATOR
  {
  }

  /** Every symbol is read back from its character, which is printable, not upper case and not the separator. */
  lemma CharIsFound(v: Symbol)
    ensures SymbolOf(CharOf(v)) == v && Printable(CharOf(v)) && !IsUpper(CharOf(v)) && CharOf(v) != SEPARATOR
  {
    if v < 8 {
      Chars0AreFound(v);
    } else if v < 16 {
      Chars8AreFound(v);
    } else if v < 24 {
      Chars16AreFound(v);
    } else {
      Chars24AreFound(v);
    }
  }

  lemma DigitSymbolIsFound(c: bv8)
    requires DigitSymbol(c) < 32
    ensures CharOf(DigitSymbol(c)) == c
  {
  }

  lemma EarlySymbolIsFound(c: bv8)
    requires EarlySymbol(c) < 32
    ensures CharOf(EarlySymbol(c)) == c
  {
  }

  lemma LateSymbolIsFound(c: bv8)
    requires LateSymbol(c) < 32
    ensures CharOf(LateSymbol(c)) == c
  {
  }

  /** A symbol's character is the one it was read from, in lower case. */
  lemma SymbolIsFound(c: bv8)
    requires SymbolOf(c) < 32
    ensures CharOf(SymbolOf(c)) == LowerCase(c)
  {
    var l := LowerCase(c);
    if l < 0x61 {
      DigitSymbolIsFound(l);
    } else if l < 0x6e {
      EarlySymbolIsFound(l);
    } else {
      LateSymbolIsFound(l);
    }
  }
}
