/**
 Bech32 and Bech32m strings: a human-readable part, a separator, and data
 symbols followed by a six-symbol checksum over both parts.
 */
module Bech32 {
  import opened Basics
  import opened Bech32Code
  import opened Bech32Text

  datatype Encoding = BECH32 | BECH32M

  datatype Message = Message(encoding: Encoding, hrp: Text, data: seq<Symbol>)

  function EncodingConstant(encoding: Encoding): (k: bv32)
    ensures k <= ALL_BITS
  {
    if encoding == BECH32 then 1 else 0x2bc830a3
  }

  // ----- the checksum of a message

  function High(c: bv8): Symbol { (c >> 5) as bv32 }

  function Low5(c: bv8): Symbol { (c & 31) as bv32 }

  /** The high bits of every character, a zero, and the low bits of every character. */
  function Expand(hrp: Text): (s: seq<Symbol>)
    ensures |s| == 2 * |hrp| + 1
  {
    seq(|hrp|, i requires 0 <= i < |hrp| => High(hrp[i])) + [0] + seq(|hrp|, i requires 0 <= i < |hrp| => Low5(hrp[i]))
  }

  function Remainder(hrp: Text, data: seq<Symbol>): bv32 { Poly(1, Expand(hrp) + data) }

  function Checksum(m: Message): (six: seq<Symbol>)
    ensures |six| == 6
  {
    Closing(Remainder(m.hrp, m.data), EncodingConstant(m.encoding))
  }

  function Verified(hrp: Text, data: seq<Symbol>): Option<Encoding> {
    if Remainder(hrp, data) == EncodingConstant(BECH32) then Some(BECH32)
    else if Remainder(hrp, data) == EncodingConstant(BECH32M) then Some(BECH32M)
    else None
  }

  lemma RemainderFits(hrp: Text, data: seq<Symbol>)
    ensures Remainder(hrp, data) <= ALL_BITS
  {
    PolyFits(1, Expand(hrp) + data);
  }

  lemma RemainderGoesOn(hrp: Text, data: seq<Symbol>, six: seq<Symbol>)
    ensures Remainder(hrp, data + six) == Poly(Remainder(hrp, data), six)
  {
    assert Expand(hrp) + (data + six) == (Expand(hrp) + data) + six;
    PolyConcat(1, Expand(hrp) + data, six);
  }

  lemma VerifiedIs(hrp: Text, data: seq<Symbol>, encoding: Encoding)
    ensures Verified(hrp, data) == Some(encoding) <==> Remainder(hrp, data) == EncodingConstant(encoding)
  {
  }

  /** The checksum is the only one that verifies. */
  lemma ChecksumIsUnique(m: Message, six: seq<Symbol>)
    requires |six| == 6
    ensures Verified(m.hrp, m.data + six) == Some(m.encoding) <==> six == Checksum(m)
  {
    RemainderFits(m.hrp, m.data);
    RemainderGoesOn(m.hrp, m.data, six);
    VerifiedIs(m.hrp, m.data + six, m.encoding);
    ClosingIsUnique(Remainder(m.hrp, m.data), EncodingConstant(m.encoding), six);
  }

  // ----- strings

  function Chars(s: seq<Symbol>): (t: Text)
    ensures |t| == |s|
  {
    seq(|s|, i requires 0 <= i < |s| => CharOf(s[i]))
  }

  ghost predicate AllSymbols(t: Text) {
    forall i :: 0 <= i < |t| ==> SymbolOf(t[i]) < 32
  }

  function SymbolAt(c: bv8): Symbol { if SymbolOf(c) < 32 then SymbolOf(c) else 0 }

  function Symbols(t: Text): (s: seq<Symbol>)
    ensures |s| == |t|
  {
    seq(|t|, i requires 0 <= i < |t| => SymbolAt(t[i]))
  }

  function Lower(t: Text): (l: Text)
    ensures |l| == |t|
  {
    seq(|t|, i requires 0 <= i < |t| => LowerCase(t[i]))
  }

  lemma CharsAreSymbols(s: seq<Symbol>)
    ensures AllSymbols(Chars(s)) && Symbols(Chars(s)) == s
    ensures forall i :: 0 <= i < |s| ==> Printable(Chars(s)[i]) && !IsUpper(Chars(s)[i]) && Chars(s)[i] != SEPARATOR
  {
    forall i | 0 <= i < |s|
      ensures SymbolOf(Chars(s)[i]) == s[i]
      ensures Printable(Chars(s)[i]) && !IsUpper(Chars(s)[i]) && Chars(s)[i] != SEPARATOR
    {
      CharIsFound(s[i]);
    }
  }

  lemma SymbolsAreChars(t: Text)
    requires AllSymbols(t)
    ensures Chars(Symbols(t)) == Lower(t)
  {
    forall i | 0 <= i < |t|
      ensures Chars(Symbols(t))[i] == Lower(t)[i]
    {
      SymbolIsFound(t[i]);
    }
  }

  ghost predicate NoUpper(t: Text) { forall i :: 0 <= i < |t| ==> !IsUpper(t[i]) }

  ghost predicate NoLower(t: Text) { forall i :: 0 <= i < |t| ==> !IsLower(t[i]) }

  ghost predicate AllPrintable(t: Text) { forall i :: 0 <= i < |t| ==> Printable(t[i]) }

  /** Printable, and not of mixed case. */
  ghost predicate Acceptable(t: Text) { AllPrintable(t) && (NoUpper(t) || NoLower(t)) }

  lemma LowerOfNoUpper(t: Text)
    requires NoUpper(t)
    ensures Lower(t) == t
  {
  }

  lemma LowerCaseIsNotUpper(c: bv8)
    ensures !IsUpper(LowerCase(c))
  {
  }

  lemma LowerHasNoUpper(t: Text)
    ensures NoUpper(Lower(t))
  {
    forall i | 0 <= i < |t|
      ensures !IsUpper(Lower(t)[i])
    {
      LowerCaseIsNotUpper(t[i]);
    }
  }

  /** The last position of the separator, or -1. */
  function LastSeparator(t: Text): (p: int)
    ensures -1 <= p < |t| && (p >= 0 ==> t[p] == SEPARATOR)
    ensures forall i :: p < i < |t| ==> t[i] != SEPARATOR
  {
    if t == [] then -1 else if t[|t| - 1] == SEPARATOR then |t| - 1 else LastSeparator(t[..|t| - 1])
  }

  ghost function Encoded(m: Message): Text {
    m.hrp + [SEPARATOR] + Chars(m.data + Checksum(m))
  }

  /** The form of a string, before the checksum is looked at. */
  ghost predicate Form(t: Text): (h: bool)
    ensures h ==> 0 < LastSeparator(t) <= |t| - 7
  {
    var p := LastSeparator(t);
    Acceptable(t) && |t| <= 90 && 0 < p && p + 7 <= |t| && AllSymbols(t[p + 1..])
  }

  ghost function Decoded(t: Text): Option<Message> {
    if !Form(t) then None
    else Opened(Lower(t[..LastSeparator(t)]), Symbols(t[LastSeparator(t) + 1..]))
  }

  /** The message in verified data, without the checksum. */
  function Opened(hrp: Text, data: seq<Symbol>): (m: Option<Message>)
    requires |data| >= 6
    ensures m.Some? ==> m.value.hrp == hrp
  {
    match Verified(hrp, data)
    case None => None
    case Some(e) => Some(Message(e, hrp, data[..|data| - 6]))
  }

  // ----- one undoes the other

  /** What decoding makes of a string of the right form. */
  lemma DecodedParts(t: Text, hrp: Text, data: seq<Symbol>)
    requires |data| >= 6 && NoUpper(hrp) && t == hrp + [SEPARATOR] + Chars(data)
    ensures Decoded(t) == if hrp == [] || !AllPrintable(hrp) || |t| > 90 then None else Opened(hrp, data)
  {
    CharsAreSymbols(data);
    FormIs(t, hrp, data);
    SeparatorIs(t, hrp, Chars(data));
    LowerOfNoUpper(hrp);
  }

  lemma FormIs(t: Text, hrp: Text, data: seq<Symbol>)
    requires |data| >= 6 && NoUpper(hrp) && t == hrp + [SEPARATOR] + Chars(data)
    ensures Form(t) <==> hrp != [] && AllPrintable(hrp) && |t| <= 90
  {
    CharsAreSymbols(data);
    FormAccepted(t, hrp, Chars(data));
    SeparatorIs(t, hrp, Chars(data));
  }

  lemma SeparatorIs(t: Text, hrp: Text, rest: Text)
    requires t == hrp + [SEPARATOR] + rest && forall i :: 0 <= i < |rest| ==> rest[i] != SEPARATOR
    ensures LastSeparator(t) == |hrp| && t[..|hrp|] == hrp && t[|hrp| + 1..] == rest
  {
    assert t[|hrp|] == SEPARATOR;
    assert forall i :: |hrp| < i < |t| ==> t[i] == rest[i - |hrp| - 1];
  }

  lemma FormAccepted(t: Text, hrp: Text, rest: Text)
    requires t == hrp + [SEPARATOR] + rest && NoUpper(hrp) && NoUpper(rest) && AllPrintable(rest)
    ensures Acceptable(t) <==> AllPrintable(hrp)
  {
    assert NoUpper(t);
    assert AllPrintable(t) ==> AllPrintable(hrp) by {
      assert forall i :: 0 <= i < |hrp| ==> t[i] == hrp[i];
    }
  }

  /**
   * A message whose human-readable part has no upper-case letters survives encoding and decoding
   * exactly when that part is not empty and printable and the string has at most 90 characters.
   */
  lemma DecodeUndoesEncode(m: Message)
    requires NoUpper(m.hrp)
    ensures Decoded(Encoded(m)) ==
            if m.hrp == [] || !AllPrintable(m.hrp) || |m.hrp| + |m.data| + 7 > 90 then None else Some(m)
  {
    DecodedParts(Encoded(m), m.hrp, m.data + Checksum(m));
    OpenedAre(m);
  }

  lemma SplitSix(data: seq<Symbol>)
    requires |data| >= 6
    ensures data == data[..|data| - 6] + data[|data| - 6..]
  {
  }

  lemma FirstPart(data: seq<Symbol>, six: seq<Symbol>)
    ensures (data + six)[..|data|] == data
  {
  }

  lemma OpenedWith(m: Message, six: seq<Symbol>)
    requires |six| == 6 && Verified(m.hrp, m.data + six) == Some(m.encoding)
    ensures Opened(m.hrp, m.data + six) == Some(m)
  {
    FirstPart(m.data, six);
  }

  lemma OpenedAre(m: Message)
    ensures Opened(m.hrp, m.data + Checksum(m)) == Some(m)
  {
    var six := Checksum(m);
    ChecksumIsUnique(m, six);
    OpenedWith(m, six);
  }

  lemma OpenedIs(m: Message, data: seq<Symbol>)
    requires |data| >= 6 && Opened(m.hrp, data) == Some(m)
    ensures data == m.data + Checksum(m)
  {
    SplitSix(data);
    ChecksumIsUnique(m, data[|data| - 6..]);
  }

  /** Every string that is decoded is, in lower case, the encoding of the message it decodes to. */
  lemma EncodeUndoesDecode(t: Text, m: Message)
    requires Decoded(t) == Some(m)
    ensures NoUpper(m.hrp) && Encoded(m) == Lower(t)
  {
    var p := LastSeparator(t);
    OpenedIs(m, Symbols(t[p + 1..]));
    FormHasSymbols(t);
    SymbolsAreChars(t[p + 1..]);
    LowerHasNoUpper(t[..p]);
    LowerConcat(t, p);
  }

  lemma FormHasSymbols(t: Text)
    requires Form(t)
    ensures AllSymbols(t[LastSeparator(t) + 1..])
  {
  }

  lemma LowerConcat(t: Text, p: nat)
    requires p < |t| && t[p] == SEPARATOR
    ensures Lower(t) == Lower(t[..p]) + [SEPARATOR] + Lower(t[p + 1..])
  {
    assert LowerCase(SEPARATOR) == SEPARATOR;
  }

  // ----- the operations

  datatype Case = Neither | Small | Capital

  /** The case of the first letter. */
  ghost function CaseOf(t: Text): Case {
    if t == [] then Neither
    else if CaseOf(t[..|t| - 1]) != Neither then CaseOf(t[..|t| - 1])
    else if IsLower(t[|t| - 1]) then Small
    else if IsUpper(t[|t| - 1]) then Capital
    else Neither
  }

  /** Unprintable, or of the other case than the first letter. */
  ghost predicate BadAfter(c: Case, b: bv8) {
    (IsLower(b) && c == Capital) || (IsUpper(b) && c == Small) || !Printable(b)
  }

  /** The positions of the invalid characters, in order. */
  ghost function BadPositions(t: Text): seq<nat> {
    if t == [] then []
    else BadPositions(t[..|t| - 1]) + if BadAfter(CaseOf(t[..|t| - 1]), t[|t| - 1]) then [|t| - 1] else []
  }

  lemma LettersArePrintable(b: bv8)
    ensures IsLower(b) || IsUpper(b) ==> Printable(b)
    ensures !(IsLower(b) && IsUpper(b))
  {
  }

  /** Without invalid characters, all letters have the case of the first one. */
  lemma {:induction false} BadPositionsSeen(t: Text)
    ensures BadPositions(t) == [] <==> Acceptable(t)
    ensures BadPositions(t) == [] ==> (CaseOf(t) == Neither <==> NoUpper(t) && NoLower(t))
    ensures BadPositions(t) == [] ==> (CaseOf(t) == Small ==> NoUpper(t) && !NoLower(t))
    ensures BadPositions(t) == [] ==> (CaseOf(t) == Capital ==> NoLower(t) && !NoUpper(t))
  {
    if t != [] {
      var init, b := t[..|t| - 1], t[|t| - 1];
      BadPositionsSeen(init);
      LettersArePrintable(b);
      AcceptableAppend(init, b);
      assert t == init + [b];
    }
  }

  lemma AcceptableAppend(t: Text, b: bv8)
    ensures NoUpper(t + [b]) <==> NoUpper(t) && !IsUpper(b)
    ensures NoLower(t + [b]) <==> NoLower(t) && !IsLower(b)
    ensures AllPrintable(t + [b]) <==> AllPrintable(t) && Printable(b)
  {
    assert (t + [b])[|t|] == b;
    assert forall i :: 0 <= i < |t| ==> (t + [b])[i] == t[i];
  }

  method CheckCharacters(t: Text) returns (ok: bool, errors: seq<nat>)
    ensures errors == BadPositions(t)
    ensures ok <==> Acceptable(t)
  {
    errors := [];
    var lower, upper := false, false;
    for i := 0 to |t|
      invariant errors == BadPositions(t[..i])
      invariant lower == (CaseOf(t[..i]) == Small) && upper == (CaseOf(t[..i]) == Capital)
    {
      assert t[..i + 1][..i] == t[..i];
      LettersArePrintable(t[i]);
      if IsLower(t[i]) {
        if upper {
          errors := errors + [i];
        } else {
          lower := true;
        }
      } else if IsUpper(t[i]) {
        if lower {
          errors := errors + [i];
        } else {
          upper := true;
        }
      } else if !Printable(t[i]) {
        errors := errors + [i];
      }
    }
    assert t[..|t|] == t;
    BadPositionsSeen(t);
    ok := errors == [];
  }
}
