/** The encoder, the decoder and the checksum loops. */
module Bech32Coder {
  import opened Basics
  import opened Bech32Code
  import opened Bech32Text
  import opened Bech32
  import opened Bech32Errors

  method ExpandHRP(hrp: Text) returns (ret: seq<Symbol>)
    ensures ret == Expand(hrp)
  {
    ret := seq(2 * |hrp| + 1, i => 0);
    for i := 0 to |hrp|
      invariant |ret| == 2 * |hrp| + 1
      invariant forall k :: 0 <= k < i ==> ret[k] == High(hrp[k])
      invariant forall k :: |hrp| < k < |hrp| + 1 + i ==> ret[k] == Low5(hrp[k - |hrp| - 1])
    {
      ret := ret[i := High(hrp[i])];
      ret := ret[i + |hrp| + 1 := Low5(hrp[i])];
    }
    ret := ret[|hrp| := 0];
  }

  method VerifyChecksum(hrp: Text, values: seq<Symbol>) returns (r: Option<Encoding>)
    ensures r == Verified(hrp, values)
  {
    var expanded := ExpandHRP(hrp);
    var check := PolyMod(expanded + values);
    if check == EncodingConstant(BECH32) {
      return Some(BECH32);
    }
    if check == EncodingConstant(BECH32M) {
      return Some(BECH32M);
    }
    r := None;
  }

  lemma SixZeros(s: seq<Symbol>)
    ensures Poly(1, s + Zeros(6)) == Poly(Poly(1, s), Zeros(6))
  {
    PolyConcat(1, s, Zeros(6));
  }

  lemma ShiftsDrop(m: bv32)
    ensures Drop(m) == m >> 5 && Drop(m >> 5) == m >> 10 && Drop(m >> 10) == m >> 15
    ensures Drop(m >> 15) == m >> 20 && Drop(m >> 20) == m >> 25
  {
  }

  lemma UnpackLast(m: bv32, n: nat)
    requires n > 0
    ensures Unpack(m, n) == Unpack(Drop(m), n - 1) + [Low(m)]
  {
  }

  /** Six groups of five bits, the highest first. */
  lemma UnpackSix(m: bv32)
    ensures Unpack(m, 6) == [Low(m >> 25), Low(m >> 20), Low(m >> 15), Low(m >> 10), Low(m >> 5), Low(m)]
  {
    ShiftsDrop(m);
    UnpackLast(m, 6);
    UnpackLast(m >> 5, 5);
    UnpackLast(m >> 10, 4);
    UnpackLast(m >> 15, 3);
    UnpackLast(m >> 20, 2);
    UnpackLast(m >> 25, 1);
  }

  method CreateChecksum(m: Message) returns (ret: seq<Symbol>)
    ensures ret == Checksum(m)
  {
    var expanded := ExpandHRP(m.hrp);
    var enc := expanded + m.data;
    SixZeros(enc);
    var mod := PolyMod(enc + Zeros(6));
    mod := Xor(mod, EncodingConstant(m.encoding));
    UnpackSix(mod);
    ret := [Low(mod >> 25), Low(mod >> 20), Low(mod >> 15), Low(mod >> 10), Low(mod >> 5), Low(mod)];
  }

  lemma CharsAppend(s: seq<Symbol>, v: Symbol)
    ensures Chars(s + [v]) == Chars(s) + [CharOf(v)]
  {
  }

  method Spell(s: seq<Symbol>) returns (t: Text)
    ensures t == Chars(s)
  {
    t := [];
    for i := 0 to |s|
      invariant t == Chars(s[..i])
    {
      CharsAppend(s[..i], s[i]);
      assert s[..i + 1] == s[..i] + [s[i]];
      t := t + [CharOf(s[i])];
    }
    assert s[..|s|] == s;
  }

  /** The human-readable part must not have upper-case letters. */
  method Encode(m: Message) returns (ret: Text)
    requires NoUpper(m.hrp)
    ensures ret == Encoded(m)
  {
    var checksum := CreateChecksum(m);
    var letters := Spell(m.data + checksum);
    ret := m.hrp + [SEPARATOR] + letters;
  }

  method FindSeparator(t: Text) returns (p: int)
    ensures p == LastSeparator(t)
  {
    p := |t| - 1;
    while p >= 0 && t[p] != SEPARATOR
      invariant -1 <= p < |t| && LastSeparator(t) == LastSeparator(t[..p + 1])
    {
      assert t[..p + 1][..p] == t[..p];
      p := p - 1;
    }
  }

  lemma KnownSymbol(c: bv8)
    ensures SymbolOf(c) < 32 <==> SymbolOf(c) != NO_SYMBOL
  {
    if SymbolOf(c) < 32 {
      assert NO_SYMBOL >= 32;
    } else {
      UnknownSymbol(LowerCase(c));
    }
  }

  lemma UnknownSymbol(c: bv8)
    requires SymbolOfLower(c) >= 32
    ensures SymbolOfLower(c) == NO_SYMBOL
  {
  }

  lemma SymbolsAppend(t: Text, c: bv8)
    ensures Symbols(t + [c]) == Symbols(t) + [SymbolAt(c)]
    ensures AllSymbols(t + [c]) <==> AllSymbols(t) && SymbolOf(c) < 32
  {
    assert (t + [c])[|t|] == c;
    assert forall i :: 0 <= i < |t| ==> (t + [c])[i] == t[i];
  }

  lemma UnknownInside(t: Text, i: nat)
    requires i < |t| && SymbolOf(t[i]) >= 32
    ensures !AllSymbols(t)
  {
  }

  method ReadSymbols(t: Text) returns (ok: bool, values: seq<Symbol>)
    ensures ok <==> AllSymbols(t)
    ensures ok ==> values == Symbols(t)
  {
    values := [];
    for i := 0 to |t|
      invariant AllSymbols(t[..i]) && values == Symbols(t[..i])
    {
      var c := t[i];
      KnownSymbol(c);
      if SymbolOf(c) == NO_SYMBOL {
        UnknownInside(t, i);
        return false, values;
      }
      SymbolsAppend(t[..i], c);
      assert t[..i + 1] == t[..i] + [c];
      values := values + [SymbolAt(c)];
    }
    assert t[..|t|] == t;
    ok := true;
  }

  /** Everything that is looked at before the checksum. */
  method ReadForm(t: Text) returns (ok: bool, pos: int, values: seq<Symbol>)
    ensures ok <==> Form(t)
    ensures ok ==> pos == LastSeparator(t) && values == Symbols(t[pos + 1..])
  {
    pos, values := -1, [];
    var errors;
    ok, errors := CheckCharacters(t);
    if !ok {
      return;
    }
    pos := FindSeparator(t);
    if |t| > 90 || pos == -1 || pos == 0 || pos + 7 > |t| {
      return false, pos, values;
    }
    ok, values := ReadSymbols(t[pos + 1..]);
  }

  method OpenData(hrp: Text, values: seq<Symbol>) returns (r: Option<Message>)
    requires |values| >= 6
    ensures r == Opened(hrp, values)
  {
    var result := VerifyChecksum(hrp, values);
    if result == None {
      return None;
    }
    r := Some(Message(result.value, hrp, values[..|values| - 6]));
  }

  method Decode(t: Text) returns (r: Option<Message>)
    ensures r == Decoded(t)
  {
    var ok, pos, values := ReadForm(t);
    if !ok {
      return None;
    }
    r := OpenData(Lower(t[..pos]), values);
  }

  lemma RemainderOf(hrp: Text, before: seq<Symbol>, s: seq<Symbol>, after: seq<Symbol>)
    ensures Remainder(hrp, before + s + after) == Poly(1, (Expand(hrp) + before) + s + after)
  {
    assert Expand(hrp) + (before + s + after) == (Expand(hrp) + before) + s + after;
  }

  /** Replacing up to six neighbouring symbols of a verified list, it does not verify for the same encoding. */
  lemma WrongBurstsAreRejected(hrp: Text, before: seq<Symbol>, s: seq<Symbol>, t: seq<Symbol>, after: seq<Symbol>,
                               e: Encoding)
    requires |s| == |t| <= 6 && s != t && Verified(hrp, before + s + after) == Some(e)
    ensures Verified(hrp, before + t + after) != Some(e)
  {
    VerifiedIs(hrp, before + s + after, e);
    VerifiedIs(hrp, before + t + after, e);
    RemainderOf(hrp, before, s, after);
    RemainderOf(hrp, before, t, after);
    BurstsAreSeen(1, Expand(hrp) + before, s, t, after);
  }

  /** Up to three wrong symbols, of the readable part as it is expanded or of the data. */
  lemma WrongSymbolsAreRejected(hrp: Text, data: seq<Symbol>, hrp': Text, data': seq<Symbol>, i: nat, m: nat, k: nat,
                                e: Encoding)
    requires AgreeExcept(Expand(hrp) + data, Expand(hrp') + data', i, m, k)
    requires Expand(hrp) + data != Expand(hrp') + data'
    requires i <= m <= k < |Expand(hrp) + data| && k - i < 1023 && Verified(hrp, data) == Some(e)
    ensures Verified(hrp', data') != Some(e)
  {
    VerifiedIs(hrp, data, e);
    VerifiedIs(hrp', data', e);
    ThreeErrorsAreSeen(1, Expand(hrp) + data, Expand(hrp') + data', i, m, k);
  }

  lemma CharacterParts(c: bv8, d: bv8)
    requires High(c) == High(d) && Low5(c) == Low5(d)
    ensures c == d
  {
  }

  lemma ExpandAt(hrp: Text, data: seq<Symbol>, q: nat)
    requires q < 2 * |hrp| + 1 + |data|
    ensures var n := |hrp|;
      (Expand(hrp) + data)[q] == if q < n then High(hrp[q]) else if q == n then 0
                                 else if q < 2 * n + 1 then Low5(hrp[q - n - 1]) else data[q - 2 * n - 1]
  {
  }

  lemma ExpandAgrees(hrp: Text, i: nat, c: bv8, data: seq<Symbol>)
    requires i < |hrp|
    ensures AgreeExcept(Expand(hrp) + data, Expand(hrp[i := c]) + data, i, i, |hrp| + 1 + i)
  {
    var s, t := Expand(hrp) + data, Expand(hrp[i := c]) + data;
    forall q | 0 <= q < |s| && q != i && q != |hrp| + 1 + i
      ensures s[q] == t[q]
    {
      ExpandAt(hrp, data, q);
      ExpandAt(hrp[i := c], data, q);
    }
  }

  lemma ExpandDiffers(hrp: Text, i: nat, c: bv8, data: seq<Symbol>)
    requires i < |hrp| && Expand(hrp) + data == Expand(hrp[i := c]) + data
    ensures c == hrp[i]
  {
    ExpandAt(hrp, data, i);
    ExpandAt(hrp[i := c], data, i);
    ExpandAt(hrp, data, |hrp| + 1 + i);
    ExpandAt(hrp[i := c], data, |hrp| + 1 + i);
    CharacterParts(hrp[i], c);
  }

  /** One wrong character of the readable part. */
  lemma WrongCharacterIsRejected(hrp: Text, i: nat, c: bv8, data: seq<Symbol>, e: Encoding)
    requires i < |hrp| <= 1021 && c != hrp[i] && Verified(hrp, data) == Some(e)
    ensures Verified(hrp[i := c], data) != Some(e)
  {
    ExpandAgrees(hrp, i, c, data);
    if Expand(hrp) + data == Expand(hrp[i := c]) + data {
      ExpandDiffers(hrp, i, c, data);
    } else {
      WrongSymbolsAreRejected(hrp, data, hrp[i := c], data, i, i, |hrp| + 1 + i, e);
    }
  }

  lemma AgreeAfter(s: seq<Symbol>, x: seq<Symbol>, y: seq<Symbol>, i: nat, m: nat, k: nat)
    requires AgreeExcept(x, y, i, m, k)
    ensures AgreeExcept(s + x, s + y, |s| + i, |s| + m, |s| + k)
    ensures s + x == s + y ==> x == y
  {
    if s + x == s + y {
      assert x == (s + x)[|s|..] && y == (s + y)[|s|..];
    }
  }

  /** Data with the same remainder differ in at least four places. */
  lemma DataAreFarApart(hrp: Text, x: seq<Symbol>, y: seq<Symbol>, i: nat, m: nat, k: nat)
    requires Remainder(hrp, x) == Remainder(hrp, y) && AgreeExcept(x, y, i, m, k)
    requires i <= m <= k < |x| && k - i < 1023
    ensures x == y
  {
    var s := Expand(hrp);
    AgreeAfter(s, x, y, i, m, k);
    if s + x != s + y {
      ThreeErrorsAreSeen(1, s + x, s + y, |s| + i, |s| + m, |s| + k);
    }
  }

  /** The strings agree but in three places. */
  ghost predicate TextsAgreeExcept(t: Text, u: Text, i: nat, m: nat, k: nat) {
    |t| == |u| && forall q :: 0 <= q < |t| && q != i && q != m && q != k ==> t[q] == u[q]
  }

  lemma CharsAgree(hrp: Text, x: seq<Symbol>, y: seq<Symbol>, i: nat, m: nat, k: nat)
    requires TextsAgreeExcept(hrp + [SEPARATOR] + Chars(x), hrp + [SEPARATOR] + Chars(y), i, m, k)
    requires |hrp| < i <= m <= k
    ensures AgreeExcept(x, y, i - |hrp| - 1, m - |hrp| - 1, k - |hrp| - 1)
  {
    var t, u, n := hrp + [SEPARATOR] + Chars(x), hrp + [SEPARATOR] + Chars(y), |hrp| + 1;
    forall q | 0 <= q < |x| && q != i - n && q != m - n && q != k - n
      ensures x[q] == y[q]
    {
      assert t[n + q] == CharOf(x[q]) && u[n + q] == CharOf(y[q]);
      CharIsFound(x[q]);
      CharIsFound(y[q]);
    }
  }

  lemma SameEncoding(hrp: Text, x: seq<Symbol>, y: seq<Symbol>, e: Encoding)
    requires Verified(hrp, x) == Some(e) && Verified(hrp, y) == Some(e)
    ensures Remainder(hrp, x) == Remainder(hrp, y)
  {
    VerifiedIs(hrp, x, e);
    VerifiedIs(hrp, y, e);
  }

  lemma TextsAreFarApart(hrp: Text, x: seq<Symbol>, y: seq<Symbol>, i: nat, m: nat, k: nat)
    requires Remainder(hrp, x) == Remainder(hrp, y)
    requires TextsAgreeExcept(hrp + [SEPARATOR] + Chars(x), hrp + [SEPARATOR] + Chars(y), i, m, k)
    requires |hrp| < i <= m <= k <= |hrp| + |x| && k - i < 1023
    ensures x == y
  {
    CharsAgree(hrp, x, y, i, m, k);
    var n := |hrp| + 1;
    DataAreFarApart(hrp, x, y, i - n, m - n, k - n);
  }

  /** Strings that verify with the same readable part and encoding differ in at least four places. */
  lemma StringsAreFarApart(hrp: Text, x: seq<Symbol>, y: seq<Symbol>, e: Encoding, i: nat, m: nat, k: nat)
    requires Verified(hrp, x) == Some(e) && Verified(hrp, y) == Some(e)
    requires TextsAgreeExcept(hrp + [SEPARATOR] + Chars(x), hrp + [SEPARATOR] + Chars(y), i, m, k)
    requires |hrp| < i <= m <= k <= |hrp| + |x| && k - i < 1023
    ensures x == y
  {
    SameEncoding(hrp, x, y, e);
    TextsAreFarApart(hrp, x, y, i, m, k);
  }
}
