/**
 Strings that BIP 173 and BIP 350 give as valid, decoded: the character set, the generator, the two final
 constants and the expansion of the readable part are those of the standards.
 */
module Bech32Vectors {
  import opened Basics
  import opened Bech32Code
  import opened Bech32Text
  import opened Bech32

  const CHARSET := "qpzry9x8gf2tvdw0s3jn54khce6mua7l"

  /** The place of a character in the set is the symbol it stands for. */
  lemma CharsetIs(v: Symbol)
    ensures CharOf(v) as int == CHARSET[v as int] as int
  {
  }

  lemma Goes(c: bv32, s: seq<Symbol>, k: nat, x: bv32, y: bv32)
    requires k < |s| && Poly(c, s[..k]) == x && Step(x, s[k]) == y
    ensures Poly(c, s[..k + 1]) == y
  {
    assert s[..k + 1] == s[..k] + [s[k]];
    PolyAppend(c, s[..k], s[k]);
  }

  /** A remainder, step by step. */
  lemma GoesNine(c: bv32, s: seq<Symbol>, x1: bv32, x2: bv32, x3: bv32, x4: bv32, x5: bv32, x6: bv32, x7: bv32,
                 x8: bv32, x9: bv32)
    requires |s| == 9 && Step(c, s[0]) == x1 && Step(x1, s[1]) == x2 && Step(x2, s[2]) == x3
    requires Step(x3, s[3]) == x4 && Step(x4, s[4]) == x5 && Step(x5, s[5]) == x6
    requires Step(x6, s[6]) == x7 && Step(x7, s[7]) == x8 && Step(x8, s[8]) == x9
    ensures Poly(c, s) == x9
  {
    assert s[..0] == [];
    Goes(c, s, 0, c, x1);
    Goes(c, s, 1, x1, x2);
    Goes(c, s, 2, x2, x3);
    Goes(c, s, 3, x3, x4);
    Goes(c, s, 4, x4, x5);
    Goes(c, s, 5, x5, x6);
    Goes(c, s, 6, x6, x7);
    Goes(c, s, 7, x7, x8);
    Goes(c, s, 8, x8, x9);
    assert s[..9] == s;
  }

  lemma PartOfLetter(c: bv8)
    requires c == 0x61
    ensures High(c) == 3 && Low5(c) == 1
  {
  }

  lemma ExpandLetter(hrp: Text, data: seq<Symbol>)
    requires |hrp| == 1 && hrp[0] == 0x61
    ensures var s := Expand(hrp) + data;
            && |s| == 3 + |data| && s[0] == 3 && s[1] == 0 && s[2] == 1
            && forall i :: 0 <= i < |data| ==> s[3 + i] == data[i]
  {
    PartOfLetter(hrp[0]);
  }

  // ----- the string a12uel5l

  lemma Bech32Step1(v: Symbol)
    requires v == 3
    ensures Step(0x1, v) == 0x23
  {
  }

  lemma Bech32Step2(v: Symbol)
    requires v == 0
    ensures Step(0x23, v) == 0x460
  {
  }

  lemma Bech32Step3(v: Symbol)
    requires v == 1
    ensures Step(0x460, v) == 0x8c01
  {
  }

  lemma Bech32Step4(v: Symbol)
    requires v == 10
    ensures Step(0x8c01, v) == 0x11802a
  {
  }

  lemma Bech32Step5(v: Symbol)
    requires v == 28
    ensures Step(0x11802a, v) == 0x230055c
  {
  }

  lemma Bech32Step6(v: Symbol)
    requires v == 25
    ensures Step(0x230055c, v) == 0x3d6afc2b
  {
  }

  lemma Bech32Step7(v: Symbol)
    requires v == 31
    ensures Step(0x3d6afc2b, v) == 0x2f84386
  {
  }

  lemma Bech32Step8(v: Symbol)
    requires v == 20
    ensures Step(0x2f84386, v) == 0x24622766
  {
  }

  lemma Bech32Step9(v: Symbol)
    requires v == 31
    ensures Step(0x24622766, v) == 0x1
  {
  }

  lemma Bech32Remainder(hrp: Text, data: seq<Symbol>)
    requires |hrp| == 1 && hrp[0] == 0x61 && |data| == 6
    requires data[0] == 10 && data[1] == 28 && data[2] == 25 && data[3] == 31 && data[4] == 20 && data[5] == 31
    ensures Remainder(hrp, data) == 0x1
  {
    var s := Expand(hrp) + data;
    ExpandLetter(hrp, data);
    Bech32Step1(s[0]);
    Bech32Step2(s[1]);
    Bech32Step3(s[2]);
    Bech32Step4(s[3]);
    Bech32Step5(s[4]);
    Bech32Step6(s[5]);
    Bech32Step7(s[6]);
    Bech32Step8(s[7]);
    Bech32Step9(s[8]);
    GoesNine(1, s, 0x23, 0x460, 0x8c01, 0x11802a, 0x230055c, 0x3d6afc2b, 0x2f84386, 0x24622766, 0x1);
  }

  // ----- the string a1lqfn3a

  lemma Bech32mStep1(v: Symbol)
    requires v == 3
    ensures Step(0x1, v) == 0x23
  {
  }

  lemma Bech32mStep2(v: Symbol)
    requires v == 0
    ensures Step(0x23, v) == 0x460
  {
  }

  lemma Bech32mStep3(v: Symbol)
    requires v == 1
    ensures Step(0x460, v) == 0x8c01
  {
  }

  lemma Bech32mStep4(v: Symbol)
    requires v == 31
    ensures Step(0x8c01, v) == 0x11803f
  {
  }

  lemma Bech32mStep5(v: Symbol)
    requires v == 0
    ensures Step(0x11803f, v) == 0x23007e0
  {
  }

  lemma Bech32mStep6(v: Symbol)
    requires v == 9
    ensures Step(0x23007e0, v) == 0x3d6aabbb
  {
  }

  lemma Bech32mStep7(v: Symbol)
    requires v == 19
    ensures Step(0x3d6aabbb, v) == 0x2f2b18a
  {
  }

  lemma Bech32mStep8(v: Symbol)
    requires v == 17
    ensures Step(0x2f2b18a, v) == 0x253c66e3
  {
  }

  lemma Bech32mStep9(v: Symbol)
    requires v == 29
    ensures Step(0x253c66e3, v) == 0x2bc830a3
  {
  }

  lemma Bech32mRemainder(hrp: Text, data: seq<Symbol>)
    requires |hrp| == 1 && hrp[0] == 0x61 && |data| == 6
    requires data[0] == 31 && data[1] == 0 && data[2] == 9 && data[3] == 19 && data[4] == 17 && data[5] == 29
    ensures Remainder(hrp, data) == 0x2bc830a3
  {
    var s := Expand(hrp) + data;
    ExpandLetter(hrp, data);
    Bech32mStep1(s[0]);
    Bech32mStep2(s[1]);
    Bech32mStep3(s[2]);
    Bech32mStep4(s[3]);
    Bech32mStep5(s[4]);
    Bech32mStep6(s[5]);
    Bech32mStep7(s[6]);
    Bech32mStep8(s[7]);
    Bech32mStep9(s[8]);
    GoesNine(1, s, 0x23, 0x460, 0x8c01, 0x11803f, 0x23007e0, 0x3d6aabbb, 0x2f2b18a, 0x253c66e3, 0x2bc830a3);
  }

  // ----- the strings

  lemma EmptyFirst(data: seq<Symbol>)
    ensures [] + data == data
  {
  }

  lemma OpenedEmpty(hrp: Text, data: seq<Symbol>, e: Encoding)
    requires |data| == 6 && Verified(hrp, data) == Some(e)
    ensures Opened(hrp, data) == Some(Message(e, hrp, []))
  {
    EmptyFirst(data);
    OpenedWith(Message(e, hrp, []), data);
  }

  lemma LetterIsFine(hrp: Text)
    requires |hrp| == 1 && hrp[0] == 0x61
    ensures NoUpper(hrp) && AllPrintable(hrp)
  {
  }

  lemma VerifiedDecodes(hrp: Text, data: seq<Symbol>, e: Encoding)
    requires |hrp| == 1 && hrp[0] == 0x61 && |data| == 6 && Verified(hrp, data) == Some(e)
    ensures Decoded(hrp + [SEPARATOR] + Chars(data)) == Some(Message(e, hrp, []))
  {
    LetterIsFine(hrp);
    OpenedEmpty(hrp, data, e);
    DecodedParts(hrp + [SEPARATOR] + Chars(data), hrp, data);
  }

  lemma Bech32Spelling(data: seq<Symbol>)
    requires |data| == 6
    requires data[0] == 10 && data[1] == 28 && data[2] == 25 && data[3] == 31 && data[4] == 20 && data[5] == 31
    ensures var t := Chars(data);
            t[0] == 0x32 && t[1] == 0x75 && t[2] == 0x65 && t[3] == 0x6c && t[4] == 0x35 && t[5] == 0x6c
  {
  }

  /** These symbols are the characters "2uel5l", and "a12uel5l" has the readable part "a" and no data. */
  lemma Bech32Vector(hrp: Text, data: seq<Symbol>)
    requires |hrp| == 1 && hrp[0] == 0x61 && |data| == 6
    requires data[0] == 10 && data[1] == 28 && data[2] == 25 && data[3] == 31 && data[4] == 20 && data[5] == 31
    ensures var t := Chars(data);
            t[0] == 0x32 && t[1] == 0x75 && t[2] == 0x65 && t[3] == 0x6c && t[4] == 0x35 && t[5] == 0x6c
    ensures Decoded(hrp + [SEPARATOR] + Chars(data)) == Some(Message(BECH32, hrp, []))
  {
    Bech32Spelling(data);
    Bech32Remainder(hrp, data);
    VerifiedIs(hrp, data, BECH32);
    VerifiedDecodes(hrp, data, BECH32);
  }

  lemma Bech32mSpelling(data: seq<Symbol>)
    requires |data| == 6
    requires data[0] == 31 && data[1] == 0 && data[2] == 9 && data[3] == 19 && data[4] == 17 && data[5] == 29
    ensures var t := Chars(data);
            t[0] == 0x6c && t[1] == 0x71 && t[2] == 0x66 && t[3] == 0x6e && t[4] == 0x33 && t[5] == 0x61
  {
  }

  /** These symbols are the characters "lqfn3a", and "a1lqfn3a" has the readable part "a" and no data. */
  lemma Bech32mVector(hrp: Text, data: seq<Symbol>)
    requires |hrp| == 1 && hrp[0] == 0x61 && |data| == 6
    requires data[0] == 31 && data[1] == 0 && data[2] == 9 && data[3] == 19 && data[4] == 17 && data[5] == 29
    ensures var t := Chars(data);
            t[0] == 0x6c && t[1] == 0x71 && t[2] == 0x66 && t[3] == 0x6e && t[4] == 0x33 && t[5] == 0x61
    ensures Decoded(hrp + [SEPARATOR] + Chars(data)) == Some(Message(BECH32M, hrp, []))
  {
    Bech32mSpelling(data);
    Bech32mRemainder(hrp, data);
    VerifiedIs(hrp, data, BECH32M);
    VerifiedDecodes(hrp, data, BECH32M);
  }

  // ----- characters

  lemma CaseInBytes(c: bv8)
    ensures LowerCase(c) == if 0x41 <= c <= 0x5a then c + 0x20 else c
  {
  }

  /** Bytes from 33 to 126, and not letters of both cases. */
  lemma AcceptableInBytes(t: Text)
    ensures Acceptable(t) <==>
      && (forall i :: 0 <= i < |t| ==> 33 <= t[i] <= 126)
      && ((forall i :: 0 <= i < |t| ==> !(0x41 <= t[i] <= 0x5a))
          || (forall i :: 0 <= i < |t| ==> !(0x61 <= t[i] <= 0x7a)))
  {
  }
}
