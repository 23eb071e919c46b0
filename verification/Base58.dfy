/**
 Base58 text: bytes as a number written with 58 letters, one leading '1' for
 each leading zero byte.
 */
module Base58 {
  import opened Basics
  import opened Radix

  // ----- letters

  /** Digits and letters without 0, I, O and l, in the order of the alphabet. */
  function Symbol(d: nat): (c: char)
    requires d < 58
    ensures Digit(c) == d && !IsSpace(c) && c != '\0' && (c == '1' <==> d == 0)
  {
    if d < 9 then ('1' as int + d) as char
    else if d < 17 then ('A' as int + (d - 9)) as char
    else if d < 22 then ('J' as int + (d - 17)) as char
    else if d < 33 then ('P' as int + (d - 22)) as char
    else if d < 44 then ('a' as int + (d - 33)) as char
    else ('m' as int + (d - 44)) as char
  }

  /** The value of a letter, or -1. */
  function Digit(c: char): (d: int)
    ensures -1 <= d < 58
  {
    if '1' <= c <= '9' then c as int - '1' as int
    else if 'A' <= c <= 'H' then c as int - 'A' as int + 9
    else if 'J' <= c <= 'N' then c as int - 'J' as int + 17
    else if 'P' <= c <= 'Z' then c as int - 'P' as int + 22
    else if 'a' <= c <= 'k' then c as int - 'a' as int + 33
    else if 'm' <= c <= 'z' then c as int - 'm' as int + 44
    else -1
  }

  lemma SymbolOfDigit(c: char)
    requires Digit(c) >= 0
    ensures Symbol(Digit(c)) == c
  {
  }

  predicate IsSpace(c: char) {
    c == ' ' || c as int == 0x0c || c == '\n' || c == '\r' || c == '\t' || c as int == 0x0b
  }

  ghost predicate Letters(s: string) {
    forall i :: 0 <= i < |s| ==> Digit(s[i]) >= 0
  }

  ghost function Symbols(ds: seq<nat>): (s: string)
    requires AllBelow(58, ds)
    ensures |s| == |ds|
  {
    seq(|ds|, i requires 0 <= i < |ds| => Symbol(ds[i]))
  }

  ghost function Values(s: string): (ds: seq<nat>)
    requires Letters(s)
    ensures |ds| == |s| && AllBelow(58, ds)
  {
    seq(|s|, i requires 0 <= i < |s| => Digit(s[i]))
  }

  lemma SymbolsOfValues(s: string)
    requires Letters(s)
    ensures Symbols(Values(s)) == s
  {
    forall i | 0 <= i < |s|
      ensures Symbols(Values(s))[i] == s[i]
    {
      SymbolOfDigit(s[i]);
    }
  }

  lemma ValuesOfSymbols(ds: seq<nat>)
    requires AllBelow(58, ds)
    ensures Letters(Symbols(ds)) && Values(Symbols(ds)) == ds
  {
  }

  // ----- the two directions, as functions

  /** How many copies of `x` the list starts with. */
  function Leading<T(==)>(x: T, s: seq<T>): (n: nat)
    ensures n <= |s| && (forall i :: 0 <= i < n ==> s[i] == x) && (n < |s| ==> s[n] != x)
  {
    if s == [] || s[0] != x then 0 else
      var n := Leading(x, s[1..]) + 1;
      assert n < |s| ==> s[n] == s[1..][n - 1];
      assert forall i :: 1 <= i < n ==> s[i] == s[1..][i - 1];
      n
  }

  lemma LeadingIs<T>(x: T, s: seq<T>, n: nat)
    requires n <= |s| && (forall i :: 0 <= i < n ==> s[i] == x) && (n < |s| ==> s[n] != x)
    ensures Leading(x, s) == n
  {
  }

  function Ones(n: nat): (s: string)
    ensures |s| == n && forall i :: 0 <= i < n ==> s[i] == '1'
  {
    seq(n, i => '1')
  }

  ghost function Encoded(input: seq<nat>): string
    requires AllBelow(256, input)
  {
    var z := Leading(0, input);
    Ones(z) + Symbols(Digits(58, Val(256, input[z..])))
  }

  function TrimLeft(s: string): string {
    if s != [] && IsSpace(s[0]) then TrimLeft(s[1..]) else s
  }

  function TrimRight(s: string): string {
    if s != [] && IsSpace(s[|s| - 1]) then TrimRight(s[..|s| - 1]) else s
  }

  function Trim(s: string): string { TrimRight(TrimLeft(s)) }

  ghost function Payload(body: string): (bytes: seq<nat>)
    requires Letters(body)
    ensures AllBelow(256, bytes)
  {
    var z := Leading('1', body);
    Zeros(z) + Digits(256, Val(58, Values(body[z..])))
  }

  /** The limit is looked at only when there is something to limit. */
  ghost predicate Decodable(str: string, maxLen: int) {
    '\0' !in str && Letters(Trim(str)) && (Trim(str) == [] || |Payload(Trim(str))| <= maxLen)
  }

  ghost function Decoded(str: string, maxLen: int): Option<seq<nat>> {
    if Decodable(str, maxLen) then Some(Payload(Trim(str))) else None
  }

  // ----- one undoes the other

  lemma DropZeros(z: nat, ds: seq<nat>)
    ensures (Zeros(z) + ds)[z..] == ds && (Minimal(ds) ==> Leading(0, Zeros(z) + ds) == z)
  {
    if Minimal(ds) {
      LeadingIs(0, Zeros(z) + ds, z);
    }
  }

  lemma DropOnes(z: nat, ds: seq<nat>)
    requires AllBelow(58, ds)
    ensures (Ones(z) + Symbols(ds))[z..] == Symbols(ds)
    ensures Minimal(ds) ==> Leading('1', Ones(z) + Symbols(ds)) == z
  {
    if Minimal(ds) {
      LeadingIs('1', Ones(z) + Symbols(ds), z);
    }
  }

  lemma SplitLeading(input: seq<nat>)
    ensures var z := Leading(0, input); input == Zeros(z) + input[z..] && Minimal(input[z..])
  {
  }

  lemma SplitOnes(body: string)
    requires Letters(body)
    ensures var z := Leading('1', body); body == Ones(z) + body[z..] && Minimal(Values(body[z..]))
  {
    var z := Leading('1', body);
    if z < |body| {
      SymbolOfDigit(body[z]);
    }
  }

  /** The payload of an encoding is what was encoded. */
  lemma PayloadOfEncoded(input: seq<nat>)
    requires AllBelow(256, input)
    ensures Letters(Encoded(input)) && Payload(Encoded(input)) == input
  {
    var z := Leading(0, input);
    var ds := Digits(58, Val(256, input[z..]));
    ValuesOfSymbols(ds);
    DropOnes(z, ds);
    SplitLeading(input);
    DigitsAre(256, input[z..]);
  }

  /** The encoding of a payload is the text it was read from. */
  lemma EncodedOfPayload(body: string)
    requires Letters(body)
    ensures Encoded(Payload(body)) == body
  {
    var z := Leading('1', body);
    var ds := Digits(256, Val(58, Values(body[z..])));
    DropZeros(z, ds);
    SplitOnes(body);
    DigitsAre(58, Values(body[z..]));
    SymbolsOfValues(body[z..]);
  }

  lemma {:induction false} TrimIs(s: string, p: nat, q: nat)
    requires p <= q <= |s|
    requires (forall i :: 0 <= i < p ==> IsSpace(s[i])) && (forall i :: q <= i < |s| ==> IsSpace(s[i]))
    requires p < q ==> !IsSpace(s[p]) && !IsSpace(s[q - 1])
    ensures Trim(s) == s[p..q]
  {
    if p < q {
      TrimLeftIs(s, p);
      TrimRightIs(s[p..], q - p);
    } else {
      TrimAll(s);
    }
  }

  lemma {:induction false} TrimLeftIs(s: string, p: nat)
    requires p < |s| && (forall i :: 0 <= i < p ==> IsSpace(s[i])) && !IsSpace(s[p])
    ensures TrimLeft(s) == s[p..]
  {
    if p > 0 {
      TrimLeftIs(s[1..], p - 1);
    }
  }

  lemma {:induction false} TrimRightIs(s: string, q: nat)
    requires 0 < q <= |s| && (forall i :: q <= i < |s| ==> IsSpace(s[i])) && !IsSpace(s[q - 1])
    ensures TrimRight(s) == s[..q]
    decreases |s|
  {
    if q < |s| {
      TrimRightIs(s[..|s| - 1], q);
    }
  }

  lemma {:induction false} TrimAll(s: string)
    requires forall i :: 0 <= i < |s| ==> IsSpace(s[i])
    ensures Trim(s) == []
  {
    if s != [] {
      TrimAll(s[1..]);
    }
  }

  /** Every byte string survives encoding and decoding, if the limit admits its length. */
  lemma DecodeUndoesEncode(input: seq<nat>, maxLen: int)
    requires AllBelow(256, input)
    ensures Decoded(Encoded(input), maxLen) == if input == [] || |input| <= maxLen then Some(input) else None
  {
    PayloadOfEncoded(input);
    var s := Encoded(input);
    LettersOnly(s);
    TrimIs(s, 0, |s|);
    assert s == [] <==> input == [] by { EmptyPayload(s); EmptyEncoded(input); }
  }

  lemma EmptyPayload(body: string)
    requires Letters(body)
    ensures body == [] ==> Payload(body) == []
  {
  }

  lemma EmptyEncoded(input: seq<nat>)
    requires AllBelow(256, input)
    ensures input == [] ==> Encoded(input) == []
  {
  }

  lemma LettersOnly(s: string)
    requires Letters(s)
    ensures '\0' !in s && forall i :: 0 <= i < |s| ==> !IsSpace(s[i])
  {
  }

  /** Every text that is decoded is, without the surrounding spaces, the encoding of what it decodes to. */
  lemma EncodeUndoesDecode(str: string, maxLen: int)
    requires Decoded(str, maxLen).Some?
    ensures var bytes := Decoded(str, maxLen).value; AllBelow(256, bytes) && Encoded(bytes) == Trim(str)
  {
    EncodedOfPayload(Trim(str));
  }

  // ----- with a checksum

  type Byte = b: nat | b < 256

  const INT_MAX := 0x7fff_ffff

  /** The first four bytes of the hash of a payload. */
  function Checksum(hash: seq<nat> -> (Byte, Byte, Byte, Byte), x: seq<nat>): (sum: seq<nat>)
    ensures |sum| == 4
  {
    var h := hash(x);
    [h.0, h.1, h.2, h.3]
  }

  lemma ChecksumBytes(hash: seq<nat> -> (Byte, Byte, Byte, Byte), x: seq<nat>)
    requires AllBelow(256, x)
    ensures AllBelow(256, x + Checksum(hash, x))
  {
  }

  ghost function CheckEncoded(hash: seq<nat> -> (Byte, Byte, Byte, Byte), x: seq<nat>): string
    requires AllBelow(256, x)
  {
    ChecksumBytes(hash, x);
    Encoded(x + Checksum(hash, x))
  }

  /** The limit on the payload, with four bytes more for the checksum but no more than an int can hold. */
  function CheckLimit(maxLen: int): int {
    if maxLen > INT_MAX - 4 then INT_MAX else maxLen + 4
  }

  ghost function CheckDecoded(hash: seq<nat> -> (Byte, Byte, Byte, Byte), str: string, maxLen: int): Option<seq<nat>> {
    match Decoded(str, CheckLimit(maxLen))
    case None => None
    case Some(bytes) =>
      var n := |bytes| - 4;
      if n < 0 || Checksum(hash, bytes[..n]) != bytes[n..] then None else Some(bytes[..n])
  }

  /** A payload survives encoding and decoding exactly when the limit admits it. */
  lemma CheckDecodeUndoesEncode(hash: seq<nat> -> (Byte, Byte, Byte, Byte), x: seq<nat>, maxLen: int)
    requires AllBelow(256, x)
    ensures CheckDecoded(hash, CheckEncoded(hash, x), maxLen)
         == if |x| <= maxLen && |x| <= 2147483643 then Some(x) else None
  {
    ChecksumBytes(hash, x);
    var bytes := x + Checksum(hash, x);
    DecodeUndoesEncode(bytes, CheckLimit(maxLen));
    assert bytes[..|x|] == x && bytes[|x|..] == Checksum(hash, x);
  }

  /** Nothing else is accepted than, up to spaces around it, the encoding of the payload returned. */
  lemma CheckEncodeUndoesDecode(hash: seq<nat> -> (Byte, Byte, Byte, Byte), str: string, maxLen: int)
    requires CheckDecoded(hash, str, maxLen).Some?
    ensures var x := CheckDecoded(hash, str, maxLen).value;
            AllBelow(256, x) && Trim(str) == CheckEncoded(hash, x) && |x| <= maxLen && |x| <= 2147483643
  {
    EncodeUndoesDecode(str, CheckLimit(maxLen));
    var bytes := Decoded(str, CheckLimit(maxLen)).value;
    var n := |bytes| - 4;
    assert bytes == bytes[..n] + bytes[n..];
    EmptyPayload(Trim(str));
  }

  // ----- the buffers are long enough

  lemma PowerOf58()
    ensures Pow(256, 8) <= Pow(58, 11)
  {
    assert Pow(256, 8) == 0x1_0000_0000_0000_0000;
    assert Pow(58, 11) == 24986644000165537792;
  }

  /** Of n bytes: 138 letters for every hundred, and one more. */
  lemma LettersSuffice(n: nat)
    ensures Pow(256, n) <= Pow(58, n * 138 / 100 + 1)
  {
    PowerOf58();
    var m := n * 138 / 100 + 1;
    DigitsSuffice(256, 58, n, m, 8, 11, 11 * n, m * 8);
  }

  lemma FirstPowers()
    ensures Pow(58, 7) == 2207984167552 && Pow(58, 8) == 128063081718016
    ensures Pow(256, 4) == 4294967296 && Pow(256, 6) == 281474976710656
  {
  }

  lemma PowersOf58()
    ensures Pow(58, 71) ==
      0xf1a10f76073f997e1af0b37f5c795ecf145633452837a5de3fa17ac74b86f60a0ebe5446f358940a4ca12a800000000000000000
  {
    FirstPowers();
    PowAdd(58, 8, 8);
    PowAdd(58, 16, 16);
    PowAdd(58, 32, 32);
    PowAdd(58, 7, 64);
  }

  lemma PowersOf256()
    ensures Pow(256, 52) ==
      0x100000000000000000000000000000000000000000000000000000000000000000000000000000000000000000000000000000000
  {
    FirstPowers();
    PowAdd(256, 6, 6);
    PowAdd(256, 12, 12);
    PowAdd(256, 24, 24);
    PowAdd(256, 4, 48);
  }

  lemma PowerOf256()
    ensures Pow(58, 71) <= Pow(256, 52)
  {
    PowersOf58();
    PowersOf256();
  }

  /** Of n letters: 733 bytes for every thousand, and one more. */
  lemma BytesSuffice(n: nat)
    ensures Pow(58, n) <= Pow(256, n * 733 / 1000 + 1)
  {
    PowerOf256();
    var m := n * 733 / 1000 + 1;
    DigitsSuffice(58, 256, n, m, 71, 52, 52 * n, m * 71);
  }

  // ----- the alphabet and the spaces

  lemma AlphabetIs()
    ensures [Symbol(0), Symbol(1), Symbol(2), Symbol(3), Symbol(4), Symbol(5), Symbol(6), Symbol(7),
             Symbol(8), Symbol(9), Symbol(10), Symbol(11), Symbol(12), Symbol(13), Symbol(14), Symbol(15),
             Symbol(16), Symbol(17), Symbol(18), Symbol(19), Symbol(20), Symbol(21), Symbol(22), Symbol(23),
             Symbol(24), Symbol(25), Symbol(26), Symbol(27), Symbol(28), Symbol(29), Symbol(30), Symbol(31),
             Symbol(32), Symbol(33), Symbol(34), Symbol(35), Symbol(36), Symbol(37), Symbol(38), Symbol(39),
             Symbol(40), Symbol(41), Symbol(42), Symbol(43), Symbol(44), Symbol(45), Symbol(46), Symbol(47),
             Symbol(48), Symbol(49), Symbol(50), Symbol(51), Symbol(52), Symbol(53), Symbol(54), Symbol(55),
             Symbol(56), Symbol(57)]
         == "123456789ABCDEFGHJKLMNPQRSTUVWXYZabcdefghijkmnopqrstuvwxyz"
  {
  }

  /** The six characters of ASCII that are spaces in the C locale. */
  lemma SpacesAre(c: char)
    ensures IsSpace(c) <==> 9 <= c as int <= 13 || c as int == 32
  {
  }

  ghost predicate AllSpaces(s: string) { forall i :: 0 <= i < |s| ==> IsSpace(s[i]) }

  lemma {:induction false} TrimLeftSplits(s: string) returns (a: string)
    ensures AllSpaces(a) && s == a + TrimLeft(s) && (TrimLeft(s) != [] ==> !IsSpace(TrimLeft(s)[0]))
  {
    a := [];
    if s != [] && IsSpace(s[0]) {
      a := TrimLeftSplits(s[1..]);
      a := [s[0]] + a;
    }
  }

  lemma {:induction false} TrimRightSplits(s: string) returns (b: string)
    ensures AllSpaces(b) && s == TrimRight(s) + b && TrimRight(s) <= s
    ensures TrimRight(s) != [] ==> !IsSpace(TrimRight(s)[|TrimRight(s)| - 1])
  {
    b := [];
    if s != [] && IsSpace(s[|s| - 1]) {
      var n := |s| - 1;
      b := TrimRightSplits(s[..n]);
      assert s == s[..n] + [s[n]];
      b := b + [s[n]];
    }
  }

  /** What is trimmed is spaces on both sides, and all of them. */
  lemma TrimSplits(s: string) returns (a: string, b: string)
    ensures AllSpaces(a) && AllSpaces(b) && s == a + Trim(s) + b
    ensures Trim(s) != [] ==> !IsSpace(Trim(s)[0]) && !IsSpace(Trim(s)[|Trim(s)| - 1])
  {
    a := TrimLeftSplits(s);
    b := TrimRightSplits(TrimLeft(s));
    assert Trim(s) != [] ==> Trim(s)[0] == TrimLeft(s)[0];
  }

  /** Three letters "b" are written "a3gV". */
  lemma EncodingVector()
    ensures Encoded([0x62, 0x62, 0x62]) == "a3gV"
  {
    assert Leading(0, [0x62, 0x62, 0x62]) == 0;
    assert Val(256, [0x62, 0x62, 0x62]) == 0x626262;
    assert Digits(58, 0x626262) == [33, 2, 39, 28];
  }
}
