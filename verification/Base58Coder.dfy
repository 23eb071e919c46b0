/** The encoder and the decoder: digit buffers multiplied and added to in place, last digit first. */
module Base58Coder {
  import opened Basics
  import opened Numbers
  import opened Radix
  import opened Base58

  lemma ValCons(base: nat, x: nat, s: seq<nat>)
    ensures Val(base, [x] + s) == x * Pow(base, |s|) + Val(base, s)
  {
    assert ([x] + s)[1..] == s;
  }

  /** One digit: what is written and what is carried on make up what was there, multiplied, and what came in. */
  lemma CarryStep(base: nat, factor: nat, add: nat, p: nat, q: nat, v: nat, w: nat, carry: nat, old_: nat, new_: nat,
                  next: nat)
    requires q == base * p && v + carry * p == factor * w + add
    requires carry + factor * old_ == next * base + new_
    ensures (new_ * p + v) + next * q == factor * (old_ * p + w) + add
  {
    MulAssoc(next, base, p);
    Distribute(p, next * base, new_);
    Distribute(p, carry, factor * old_);
    MulAssoc(factor, old_, p);
    Distribute(factor, old_ * p, w);
  }

  /** What is written and carried on is what was there, multiplied, and what came in. */
  ghost predicate Balance(base: nat, factor: nat, carry: nat, old_: nat, new_: nat, next: nat) {
    carry + factor * old_ == next * base + new_
  }

  /** The buffer from position p on. */
  ghost function Tail(base: nat, digits: seq<nat>, p: nat): nat
    requires p <= |digits|
  {
    Val(base, digits[p..])
  }

  lemma TailStep(base: nat, digits: seq<nat>, p: nat)
    requires 0 < p <= |digits|
    ensures Tail(base, digits, p - 1) == digits[p - 1] * Pow(base, |digits| - p) + Tail(base, digits, p)
  {
    assert digits[p - 1..] == [digits[p - 1]] + digits[p..];
    ValCons(base, digits[p - 1], digits[p..]);
  }

  /** The carry loop after the digits from p on. */
  ghost predicate Carried(base: nat, factor: nat, add: nat, was: seq<nat>, now: seq<nat>, p: nat,
                         carry: nat): (h: bool)
    ensures h ==> p <= |was| == |now| && now[..p] == was[..p] && AllBelow(base, now)
  {
    && p <= |was| == |now| && now[..p] == was[..p] && AllBelow(base, now)
    && Tail(base, now, p) + carry * Pow(base, |was| - p) == factor * Tail(base, was, p) + add
  }

  lemma CarryStarts(base: nat, factor: nat, add: nat, was: seq<nat>)
    requires AllBelow(base, was)
    ensures Carried(base, factor, add, was, was, |was|, add)
  {
  }

  lemma CarriedOn(base: nat, factor: nat, add: nat, was: seq<nat>, now: seq<nat>, p: nat, carry: nat, digit: nat,
                  next: nat)
    requires Carried(base, factor, add, was, now, p, carry) && p > 0
    requires digit < base && Balance(base, factor, carry, was[p - 1], digit, next)
    ensures Carried(base, factor, add, was, now[p - 1 := digit], p - 1, next)
  {
    var after := now[p - 1 := digit];
    assert after[p..] == now[p..];
    TailStep(base, after, p);
    TailStep(base, was, p);
    var n := |was| - p;
    CarryStep(base, factor, add, Pow(base, n), Pow(base, n + 1), Tail(base, now, p), Tail(base, was, p), carry,
              was[p - 1], digit, next);
  }

  ghost predicate Fits(base: nat, factor: nat, add: nat, was: seq<nat>) {
    factor * Val(base, was) + add < Pow(base, |was|)
  }

  ghost function Result(base: nat, factor: nat, add: nat, was: seq<nat>): nat { factor * Val(base, was) + add }

  /** Nothing is carried out of a buffer that the result fits into. */
  lemma NoneCarriedOut(base: nat, factor: nat, add: nat, was: seq<nat>, now: seq<nat>, carry: nat)
    requires base > 0 && Carried(base, factor, add, was, now, 0, carry)
    requires Fits(base, factor, add, was)
    ensures carry == 0
  {
    assert now[0..] == now && was[0..] == was;
    if carry > 0 {
      MulMonotone(1, carry, Pow(base, |was|));
    }
  }

  /** Only zeros in front of position p. */
  ghost predicate ZerosTo(s: seq<nat>, p: int) {
    forall i :: 0 <= i < p && i < |s| ==> s[i] == 0
  }

  lemma CarriedAll(base: nat, factor: nat, add: nat, was: seq<nat>, now: seq<nat>, p: nat)
    requires Carried(base, factor, add, was, now, p, 0) && ZerosTo(was, p)
    ensures Val(base, now) == Result(base, factor, add, was) && ZerosTo(now, p)
  {
    assert forall i :: 0 <= i < p ==> now[i] == now[..p][i] == was[..p][i] == was[i];
    ValOfZeros(base, was, p);
    ValOfZeros(base, now, p);
  }

  /** There is a digit other than zero at the front of the last `length` ones, or something to put there. */
  ghost predicate Led(s: seq<nat>, length: nat, add: nat) {
    length <= |s| && if length == 0 then add > 0 else s[|s| - length] > 0
  }

  lemma StaysLed(factor: nat, base: nat, carry: nat, old_: nat, digit: nat)
    requires Balance(base, factor, carry, old_, digit, 0) && (carry > 0 || (factor > 0 && old_ > 0))
    ensures digit > 0
  {
    if old_ > 0 && factor > 0 {
      MulMonotone(1, factor, old_);
    }
  }

  /** Multiplies one digit, adds what is carried in and returns what is carried out. */
  method CarryDigit(base: nat, factor: nat, digits: array<nat>, p: nat, carry: nat) returns (next: nat)
    requires base > 1 && p < digits.Length
    modifies digits
    ensures digits[..] == old(digits[..])[p := digits[p]] && digits[p] < base
    ensures Balance(base, factor, carry, old(digits[p]), digits[p], next)
  {
    var sum := carry + factor * digits[p];
    DivMod(sum, base);
    digits[p] := sum % base;
    next := sum / base;
  }

  method Carry(base: nat, factor: nat, digits: array<nat>, length: nat, add: nat) returns (used: nat)
    requires base > 1 && factor > 0 && length <= digits.Length && AllBelow(base, digits[..])
    requires ZerosTo(digits[..], digits.Length - length)
    requires Fits(base, factor, add, digits[..])
    modifies digits
    ensures length <= used <= digits.Length && AllBelow(base, digits[..])
    ensures Val(base, digits[..]) == Result(base, factor, add, old(digits[..]))
    ensures ZerosTo(digits[..], digits.Length - used)
    ensures old(Led(digits[..], length, add)) ==> used > 0 && digits[digits.Length - used] > 0
  {
    ghost var was := digits[..];
    var carry, i := add, 0;
    CarryStarts(base, factor, add, was);
    while (carry != 0 || i < length) && i < digits.Length
      invariant 0 <= i <= digits.Length && carry >= 0
      invariant Carried(base, factor, add, was, digits[..], digits.Length - i, carry)
      invariant Led(was, length, add) && i > 0 && i >= length && carry == 0 ==> digits[digits.Length - i] > 0
      decreases digits.Length - i
    {
      var p := digits.Length - 1 - i;
      assert digits[p] == digits[..p + 1][p] == was[p];
      ghost var now, came := digits[..], carry;
      carry := CarryDigit(base, factor, digits, p, carry);
      CarriedOn(base, factor, add, was, now, p + 1, came, digits[p], carry);
      if Led(was, length, add) && i + 1 >= length && carry == 0 {
        StaysLed(factor, base, came, was[p], digits[p]);
      }
      i := i + 1;
    }
    if i == digits.Length {
      NoneCarriedOut(base, factor, add, was, digits[..], carry);
    }
    CarriedAll(base, factor, add, was, digits[..], digits.Length - i);
    used := i;
  }

  /** The last `length` digits of the buffer are those of `v`, without leading zeros. */
  ghost predicate Holds(base: nat, digits: seq<nat>, length: nat, v: nat) {
    && length <= |digits| && AllBelow(base, digits) && ZerosTo(digits, |digits| - length)
    && Val(base, digits) == v
    && (if length == 0 then v == 0 else digits[|digits| - length] > 0)
  }

  lemma EmptyHoldsZero(base: nat, digits: seq<nat>)
    requires base > 0 && ZerosTo(digits, |digits|)
    ensures Holds(base, digits, 0, 0)
  {
    ValOfZeros(base, digits, |digits|);
  }

  lemma HeldDigits(base: nat, digits: seq<nat>, length: nat, v: nat)
    requires base > 1 && Holds(base, digits, length, v)
    ensures digits[|digits| - length..] == Digits(base, v)
  {
    ValOfZeros(base, digits, |digits| - length);
    DigitsAre(base, digits[|digits| - length..]);
  }

  /** One more digit to the other base. */
  method Absorb(base: nat, factor: nat, digits: array<nat>, length: nat, add: nat, ghost v: nat, ghost next: nat)
    returns (used: nat)
    requires base > 1 && factor > 0 && Holds(base, digits[..], length, v)
    requires next == v * factor + add && 0 < next < Pow(base, digits.Length)
    modifies digits
    ensures length <= used && Holds(base, digits[..], used, next)
  {
    assert Fits(base, factor, add, digits[..]) by { assert factor * v == v * factor; }
    assert Result(base, factor, add, digits[..]) == next by { assert factor * v == v * factor; }
    assert length == 0 ==> add > 0;
    used := Carry(base, factor, digits, length, add);
  }

  lemma PrefixGrows(base: nat, s: seq<nat>, k: nat)
    requires base > 0 && AllBelow(base, s) && Minimal(s) && k < |s|
    ensures Val(base, s[..k + 1]) == Val(base, s[..k]) * base + s[k]
    ensures 0 < Val(base, s[..k + 1]) < Pow(base, |s|)
  {
    assert s[..k + 1] == s[..k] + [s[k]];
    ValAppend(base, s[..k], s[k]);
    MinimalIsLarge(base, s[..k + 1]);
    ValIsBounded(base, s[..k + 1]);
    PowGrows(base, k + 1, |s|);
  }

  /** The buffer for n bytes never overflows, and holds the letters of their number at the end. */
  method EncodeNumber(rest: seq<nat>, digits: array<nat>) returns (length: nat)
    requires AllBelow(256, rest) && Minimal(rest)
    requires digits.Length == |rest| * 138 / 100 + 1 && ZerosTo(digits[..], digits.Length)
    modifies digits
    ensures Holds(58, digits[..], length, Val(256, rest))
  {
    LettersSuffice(|rest|);
    EmptyHoldsZero(58, digits[..]);
    length := 0;
    for k := 0 to |rest|
      invariant Holds(58, digits[..], length, Val(256, rest[..k]))
    {
      PrefixGrows(256, rest, k);
      length := Absorb(58, 256, digits, length, rest[k], Val(256, rest[..k]), Val(256, rest[..k + 1]));
    }
    assert rest[..|rest|] == rest;
  }

  method SkipZeros(s: seq<nat>) returns (n: nat)
    ensures n == Leading(0, s)
  {
    n := 0;
    while n < |s| && s[n] == 0
      invariant n <= |s| && forall i :: 0 <= i < n ==> s[i] == 0
    {
      n := n + 1;
    }
    LeadingIs(0, s, n);
  }

  method Translate(digits: seq<nat>) returns (str: string)
    requires AllBelow(58, digits)
    ensures str == Symbols(digits)
  {
    str := [];
    for i := 0 to |digits|
      invariant str == Symbols(digits[..i])
    {
      assert digits[..i + 1] == digits[..i] + [digits[i]];
      str := str + [Symbol(digits[i])];
    }
    assert digits[..|digits|] == digits;
  }

  method EncodeBase58(input: seq<nat>) returns (str: string)
    requires AllBelow(256, input)
    ensures str == Encoded(input)
  {
    var zeroes := SkipZeros(input);
    var rest := input[zeroes..];
    var b58 := new nat[|rest| * 138 / 100 + 1](i => 0);
    var length := EncodeNumber(rest, b58);
    HeldDigits(58, b58[..], length, Val(256, rest));
    var digits := b58[b58.Length - length..];
    assert digits == b58[..][b58.Length - length..];
    var skipped := SkipZeros(digits);
    assert digits[skipped..] == digits;
    str := Translate(digits[skipped..]);
    str := Ones(zeroes) + str;
  }

  // ----- decoding

  /** What the letters from q to k stand for. */
  ghost function Number(str: string, q: nat, k: nat): nat
    requires q <= k <= |str| && Letters(str[q..k])
  {
    Val(58, Values(str[q..k]))
  }

  lemma NumberIsBounded(s: string)
    requires Letters(s) && s != [] && s[0] != '1'
    ensures 0 < Val(58, Values(s)) < Pow(58, |s|)
  {
    SymbolOfDigit(s[0]);
    assert Values(s)[0] != 0;
    MinimalIsLarge(58, Values(s));
    ValIsBounded(58, Values(s));
  }

  lemma ValuesAppend(s: string, c: char)
    requires Letters(s) && Digit(c) >= 0
    ensures Letters(s + [c]) && Values(s + [c]) == Values(s) + [Digit(c)]
  {
  }

  lemma NumberGrows(str: string, q: nat, k: nat)
    requires q <= k < |str| && Letters(str[q..k]) && Digit(str[k]) >= 0 && str[q] != '1'
    ensures Letters(str[q..k + 1]) && Number(str, q, k + 1) == Number(str, q, k) * 58 + Digit(str[k])
    ensures 0 < Number(str, q, k + 1) < Pow(58, |str| - q)
  {
    assert str[q..k + 1] == str[q..k] + [str[k]];
    ValuesAppend(str[q..k], str[k]);
    ValAppend(58, Values(str[q..k]), Digit(str[k]));
    NumberIsBounded(str[q..k + 1]);
    PowGrows(58, k + 1 - q, |str| - q);
  }

  lemma {:induction false} LongerIsLarger(base: nat, s: seq<nat>, t: seq<nat>)
    requires base > 0
    ensures Val(base, s) <= Val(base, s + t)
    decreases |t|
  {
    if t == [] {
      assert s + t == s;
    } else {
      var u := s + t[..|t| - 1];
      LongerIsLarger(base, s, t[..|t| - 1]);
      assert s + t == u + [t[|t| - 1]];
      ValAppend(base, u, t[|t| - 1]);
      MulMonotone(1, base, Val(base, u));
    }
  }

  /** The text from p to q is what remains without the spaces around it. */
  ghost predicate Body(str: string, p: nat, q: nat) {
    && p <= q <= |str|
    && (forall i :: 0 <= i < p ==> IsSpace(str[i])) && (forall i :: q <= i < |str| ==> IsSpace(str[i]))
    && (p < q ==> !IsSpace(str[p]) && !IsSpace(str[q - 1]))
  }

  /** Anything other than a space lies within it. */
  lemma BodyReaches(str: string, p: nat, j: nat) returns (q: nat)
    requires p <= j < |str| && (forall i :: 0 <= i < p ==> IsSpace(str[i])) && !IsSpace(str[p]) && !IsSpace(str[j])
    ensures j < q <= |str| && Body(str, p, q) && Trim(str) == str[p..q]
  {
    q := |str|;
    while IsSpace(str[q - 1])
      invariant j < q <= |str| && forall i :: q <= i < |str| ==> IsSpace(str[i])
      decreases q
    {
      q := q - 1;
    }
    TrimIs(str, p, q);
  }

  lemma BadInside(str: string, p: nat, i: nat, j: nat)
    requires p <= i <= j < |str| && (forall k :: 0 <= k < p ==> IsSpace(str[k])) && !IsSpace(str[p])
    requires Digit(str[i]) < 0 && !IsSpace(str[j])
    ensures !Letters(Trim(str))
  {
    var q := BodyReaches(str, p, j);
    assert str[p..q][i - p] == str[i];
  }

  lemma PayloadOfBody(str: string, p: nat, z: nat, e: nat)
    requires p + z <= e <= |str| && Letters(str[p..e])
    requires (forall i :: p <= i < p + z ==> str[i] == '1') && (p + z < e ==> str[p + z] != '1')
    ensures Letters(str[p + z..e]) && Payload(str[p..e]) == Zeros(z) + Digits(256, Number(str, p + z, e))
  {
    LeadingIs('1', str[p..e], z);
    assert str[p..e][z..] == str[p + z..e];
    assert Letters(str[p..e][z..]);
  }

  lemma LengthGrows(str: string, p: nat, z: nat, k: nat, e: nat)
    requires p + z <= k <= e <= |str| && Letters(str[p..e]) && Letters(str[p + z..k])
    requires (forall i :: p <= i < p + z ==> str[i] == '1') && (p + z < e ==> str[p + z] != '1')
    ensures |Payload(str[p..e])| >= z + |Digits(256, Number(str, p + z, k))|
  {
    PayloadOfBody(str, p, z, e);
    var s, u := str[p + z..k], str[p + z..e];
    assert forall i :: 0 <= i < |s| ==> u[i] == s[i];
    assert Values(u)[..|s|] == Values(s);
    assert Values(u) == Values(s) + Values(u)[|s|..];
    LongerIsLarger(58, Values(s), Values(u)[|s|..]);
    NotShorter(256, Digits(256, Val(58, Values(s))), Digits(256, Val(58, Values(u))));
  }

  /** A text whose beginning is too long already cannot be decoded. */
  lemma TooLong(str: string, p: nat, z: nat, k: nat, maxLen: int)
    requires p + z < k <= |str| && Letters(str[p + z..k])
    requires forall i :: 0 <= i < p ==> IsSpace(str[i])
    requires (forall i :: p <= i < p + z ==> str[i] == '1') && str[p + z] != '1'
    requires z + |Digits(256, Number(str, p + z, k))| > maxLen
    ensures !Decodable(str, maxLen)
  {
    LettersOnly(str[p + z..k]);
    assert forall i :: p + z <= i < k ==> str[i] == str[p + z..k][i - p - z];
    var q := BodyReaches(str, p, k - 1);
    if Letters(Trim(str)) {
      LengthGrows(str, p, z, k, q);
    }
  }

  lemma TooManyOnes(str: string, p: nat, z: nat, maxLen: int)
    requires 0 < z && p + z <= |str| && z > maxLen
    requires (forall i :: 0 <= i < p ==> IsSpace(str[i])) && (forall i :: p <= i < p + z ==> str[i] == '1')
    ensures !Decodable(str, maxLen)
  {
    var q := BodyReaches(str, p, p + z - 1);
    assert forall i :: 0 <= i < z ==> Trim(str)[i] == '1';
  }

  method SkipSpaces(str: string, from: nat) returns (p: nat)
    requires from <= |str|
    ensures from <= p <= |str| && forall i :: from <= i < p ==> IsSpace(str[i])
    ensures p < |str| ==> !IsSpace(str[p])
  {
    p := from;
    while p < |str| && IsSpace(str[p])
      invariant from <= p <= |str| && forall i :: from <= i < p ==> IsSpace(str[i])
    {
      p := p + 1;
    }
  }

  method CountOnes(str: string, p: nat, maxLen: int) returns (zeroes: nat, ok: bool)
    requires p <= |str|
    ensures p + zeroes <= |str| && forall i :: p <= i < p + zeroes ==> str[i] == '1'
    ensures ok ==> (zeroes == 0 || zeroes <= maxLen) && (p + zeroes < |str| ==> str[p + zeroes] != '1')
    ensures !ok ==> 0 < zeroes && zeroes > maxLen
  {
    zeroes := 0;
    while p + zeroes < |str| && str[p + zeroes] == '1'
      invariant p + zeroes <= |str| && forall i :: p <= i < p + zeroes ==> str[i] == '1'
      invariant zeroes == 0 || zeroes <= maxLen
    {
      zeroes := zeroes + 1;
      if zeroes > maxLen {
        return zeroes, false;
      }
    }
    ok := true;
  }

  method TakeLetter(str: string, q: nat, e: nat, digits: array<nat>, length: nat) returns (used: nat)
    requires q <= e < |str| && str[q] != '1' && Letters(str[q..e]) && Digit(str[e]) >= 0
    requires Holds(256, digits[..], length, Number(str, q, e)) && Pow(58, |str| - q) <= Pow(256, digits.Length)
    modifies digits
    ensures Letters(str[q..e + 1]) && Holds(256, digits[..], used, Number(str, q, e + 1))
  {
    NumberGrows(str, q, e);
    used := Absorb(256, 58, digits, length, Digit(str[e]), Number(str, q, e), Number(str, q, e + 1));
  }

  datatype Stop = Finished | Unknown | Long

  /** The buffer for n letters never overflows. Stops at a space or at the end, or fails. */
  method DecodeNumber(str: string, q: nat, zeroes: nat, maxLen: int, digits: array<nat>)
    returns (stop: Stop, e: nat, length: nat)
    requires q <= |str| && (q < |str| ==> str[q] != '1')
    requires digits.Length == (|str| - q) * 733 / 1000 + 1 && ZerosTo(digits[..], digits.Length)
    modifies digits
    ensures q <= e <= |str| && Letters(str[q..e])
    ensures Holds(256, digits[..], length, Number(str, q, e))
    ensures stop == Finished ==> (e < |str| ==> IsSpace(str[e])) && (e == q || zeroes + length <= maxLen)
    ensures stop == Unknown ==> e < |str| && !IsSpace(str[e]) && Digit(str[e]) < 0
    ensures stop == Long ==> q < e && zeroes + length > maxLen
  {
    BytesSuffice(|str| - q);
    EmptyHoldsZero(256, digits[..]);
    e, length := q, 0;
    while e < |str| && !IsSpace(str[e])
      invariant q <= e <= |str| && Letters(str[q..e])
      invariant Holds(256, digits[..], length, Number(str, q, e))
      invariant e == q || zeroes + length <= maxLen
    {
      var d := Digit(str[e]);
      if d == -1 {
        return Unknown, e, length;
      }
      length := TakeLetter(str, q, e, digits, length);
      e := e + 1;
      if length + zeroes > maxLen {
        return Long, e, length;
      }
    }
    stop := Finished;
  }

  lemma DecodedIs(str: string, p: nat, z: nat, e: nat, maxLen: int)
    requires '\0' !in str && p + z <= e <= |str| && Letters(str[p + z..e])
    requires (forall i :: 0 <= i < p ==> IsSpace(str[i])) && (forall i :: e <= i < |str| ==> IsSpace(str[i]))
    requires (forall i :: p <= i < p + z ==> str[i] == '1') && (p + z < |str| ==> str[p + z] != '1')
    requires p == e || z + |Digits(256, Number(str, p + z, e))| <= maxLen
    ensures Decoded(str, maxLen) == Some(Zeros(z) + Digits(256, Number(str, p + z, e)))
  {
    var s := str[p..e];
    assert forall i :: z <= i < |s| ==> s[i] == str[p + z..e][i - z];
    LettersOnly(s);
    assert p < e ==> str[p] == s[0] && str[e - 1] == s[e - 1 - p];
    TrimIs(str, p, e);
    PayloadOfBody(str, p, z, e);
  }

  /** What follows the leading ones. */
  method DecodeRest(str: string, p: nat, zeroes: nat, maxLen: int) returns (r: Option<seq<nat>>)
    requires '\0' !in str && p + zeroes <= |str| && (p < |str| ==> !IsSpace(str[p]))
    requires (forall i :: 0 <= i < p ==> IsSpace(str[i])) && (forall i :: p <= i < p + zeroes ==> str[i] == '1')
    requires (p + zeroes < |str| ==> str[p + zeroes] != '1') && (zeroes == 0 || zeroes <= maxLen)
    ensures r == Decoded(str, maxLen)
  {
    var q := p + zeroes;
    var b256 := new nat[(|str| - q) * 733 / 1000 + 1](i => 0);
    var stop, e, length := DecodeNumber(str, q, zeroes, maxLen, b256);
    HeldDigits(256, b256[..], length, Number(str, q, e));
    match stop
    case Unknown =>
      BadInside(str, p, e, e);
      r := None;
    case Long =>
      TooLong(str, p, zeroes, e, maxLen);
      r := None;
    case Finished =>
      var end := SkipSpaces(str, e);
      if end < |str| {
        BadInside(str, p, e, end);
        return None;
      }
      assert b256[b256.Length - length..] == b256[..][b256.Length - length..];
      DecodedIs(str, p, zeroes, e, maxLen);
      r := Some(Zeros(zeroes) + b256[b256.Length - length..]);
  }

  method DecodeBase58(str: string, maxLen: int) returns (r: Option<seq<nat>>)
    ensures r == Decoded(str, maxLen)
  {
    if '\0' in str {
      return None;
    }
    var p := SkipSpaces(str, 0);
    var zeroes, few := CountOnes(str, p, maxLen);
    if !few {
      TooManyOnes(str, p, zeroes, maxLen);
      return None;
    }
    r := DecodeRest(str, p, zeroes, maxLen);
  }

  method EncodeBase58Check(hash: seq<nat> -> (Byte, Byte, Byte, Byte), input: seq<nat>) returns (str: string)
    requires AllBelow(256, input)
    ensures str == CheckEncoded(hash, input)
  {
    ChecksumBytes(hash, input);
    str := EncodeBase58(input + Checksum(hash, input));
  }

  method DecodeBase58Check(hash: seq<nat> -> (Byte, Byte, Byte, Byte), str: string, maxLen: int)
    returns (r: Option<seq<nat>>)
    ensures r == CheckDecoded(hash, str, maxLen)
  {
    r := DecodeBase58(str, CheckLimit(maxLen));
    if r.None? || |r.value| < 4 {
      return None;
    }
    var n := |r.value| - 4;
    if Checksum(hash, r.value[..n]) != r.value[n..] {
      return None;
    }
    r := Some(r.value[..n]);
  }
}
