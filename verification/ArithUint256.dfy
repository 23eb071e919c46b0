/**
 * Unsigned big integers kept as 32-bit limbs in place (the width is the array's length; arith_uint256
 * has eight limbs), proved against ordinary arithmetic on the numbers they stand for, and the block
 * proof computed with them.
 */
module ArithUint256 {
  import opened Numbers
  import opened Limbs
  import opened LimbProducts
  import opened LimbShifts
  import opened LongDivision

  const WIDTH: nat := 8

  // ----- addition, complement, increment, negation, subtraction

  /** Adds in place; the sum wraps at the width. */
  method AddAssign(a: array<Limb>, b: seq<Limb>)
    requires a.Length == |b|
    modifies a
    ensures Val(a[..]) == (old(Val(a[..])) + Val(b)) % Modulus(|b|)
  {
    ghost var pre := a[..];
    var carry := 0;
    for i := 0 to a.Length
      invariant 0 <= carry <= 1
      invariant a[i..] == pre[i..]
      invariant Val(a[..i]) + Pow32(i) * carry == Val(pre[..i]) + Val(b[..i])
    {
      var n := carry + a[i] + b[i];
      CarryStep(a[..i], carry, pre[..i], b[..i], a[i], b[i], n / BASE, n % BASE);
      assert pre[..i + 1] == pre[..i] + [a[i]] && b[..i + 1] == b[..i] + [b[i]];
      ghost var low := a[..i];
      a[i] := n % BASE;
      carry := n / BASE;
      assert a[..i + 1] == low + [n % BASE];
    }
    assert a[..] == a[..a.Length] && pre == pre[..a.Length] && b == b[..a.Length];
    ValBound(a[..]);
    DivModUnique(Val(pre) + Val(b), Pow32(|b|), carry, Val(a[..]));
  }

  /** The number with every bit inverted. */
  method Complement(b: seq<Limb>) returns (r: array<Limb>)
    ensures fresh(r) && r.Length == |b| && Val(r[..]) == Modulus(|b|) - 1 - Val(b)
  {
    r := new Limb[|b|](_ => 0);
    for i := 0 to |b|
      invariant forall j :: 0 <= j < i ==> r[j] == BASE - 1 - b[j]
    {
      r[i] := BASE - 1 - b[i];
    }
    ValComplement(b, r[..]);
  }

  /** Adds one in place; the largest number wraps to zero. */
  method Increment(a: array<Limb>)
    modifies a
    ensures var n := old(Val(a[..])) + 1; Val(a[..]) == if n == Modulus(a.Length) then 0 else n
  {
    ghost var pre := Val(a[..]);
    ValBound(a[..]);
    var i := 0;
    while i < a.Length
      invariant i <= a.Length && Val(a[..]) + Pow32(i) == pre + 1
    {
      ghost var was := a[..];
      a[i] := (a[i] + 1) % BASE;
      assert a[..] == was[i := a[i]];
      IncrementStep(was, i, a[i]);
      if a[i] != 0 {
        ValBound(a[..]);
        return;
      }
      i := i + 1;
    }
  }

  /** The two's complement. */
  method Negate(b: seq<Limb>) returns (r: array<Limb>)
    ensures fresh(r) && r.Length == |b|
    ensures Val(r[..]) == if Val(b) == 0 then 0 else Modulus(|b|) - Val(b)
  {
    ValBound(b);
    r := Complement(b);
    Increment(r);
  }

  /** Subtracts in place; a negative difference wraps. */
  method SubAssign(a: array<Limb>, b: seq<Limb>)
    requires a.Length == |b|
    modifies a
    ensures var d := old(Val(a[..])) - Val(b); Val(a[..]) == if d >= 0 then d else d + Modulus(|b|)
  {
    ghost var x, m := Val(a[..]), Pow32(|b|);
    ValBound(a[..]);
    var minus := Negate(b);
    ghost var y := Val(minus[..]);
    AddAssign(a, minus[..]);
    if Val(b) == 0 || x < Val(b) {
      DivModUnique(x + y, m, 0, x + y);
    } else {
      DivModUnique(x + y, m, 1, x - Val(b));
    }
  }

  // ----- comparison and size

  /** The sign of the difference. */
  method CompareTo(a: seq<Limb>, b: seq<Limb>) returns (c: int)
    requires |a| == |b|
    ensures c == if Val(a) < Val(b) then -1 else if Val(a) > Val(b) then 1 else 0
  {
    var i := |a|;
    while i > 0
      invariant 0 <= i <= |a| && a[i..] == b[i..]
    {
      i := i - 1;
      if a[i] < b[i] {
        HighLimbDecides(a, b, i);
        return -1;
      }
      if a[i] > b[i] {
        HighLimbDecides(b, a, i);
        return 1;
      }
    }
    assert a == b;
    c := 0;
  }

  /** The position of the highest bit set plus one, or zero. */
  method Bits(a: seq<Limb>) returns (n: nat)
    ensures n <= 32 * |a|
    ensures Val(a) < Pow2(n) && (n > 0 ==> Pow2(n - 1) <= Val(a))
  {
    var pos := |a|;
    assert a == a[..|a|];
    while pos > 0
      invariant 0 <= pos <= |a| && Val(a) == Val(a[..pos])
    {
      pos := pos - 1;
      if a[pos] != 0 {
        var top := TopBit(a[pos]);
        BitsOfPrefix(a, pos, top);
        return 32 * pos + top;
      }
      ValPrefix(a, pos);
    }
    n := 0;
  }

  /** The number of bits of a limb that is not zero. */
  method TopBit(x: Limb) returns (n: nat)
    requires x != 0
    ensures 0 < n <= 32 && Pow2(n - 1) <= x < Pow2(n)
  {
    var nbits := 31;
    Pow2Is32();
    while nbits > 0
      invariant 0 <= nbits <= 31 && x < Pow2(nbits + 1)
    {
      BitTest(x, nbits);
      if (x / Pow2(nbits)) % 2 == 1 {
        return nbits + 1;
      }
      nbits := nbits - 1;
    }
    n := 1;
  }

  lemma BitTest(x: nat, n: nat)
    requires x < Pow2(n + 1)
    ensures (x / Pow2(n)) % 2 == 1 <==> x >= Pow2(n)
  {
    if x >= Pow2(n) {
      DivModUnique(x, Pow2(n), 1, x - Pow2(n));
    } else {
      DivModUnique(x, Pow2(n), 0, x);
    }
  }

  // ----- shifts

  method Clear(a: array<Limb>)
    modifies a
    ensures forall i :: 0 <= i < a.Length ==> a[i] == 0
  {
    for i := 0 to a.Length
      invariant forall j :: 0 <= j < i ==> a[j] == 0
    {
      a[i] := 0;
    }
  }

  /** Shifts left in place; what moves beyond the width is lost. */
  method ShiftLeft(pn: array<Limb>, shift: nat)
    modifies pn
    ensures Val(pn[..]) == (old(Val(pn[..])) * Pow2(shift)) % Modulus(pn.Length)
  {
    var a := pn[..];
    Clear(pn);
    var k := shift / 32;
    var s := shift % 32;
    for i := 0 to pn.Length
      invariant forall j :: 0 <= j < pn.Length ==> pn[j] == MovedUp(a, k, s, i, j)
    {
      forall j | 0 <= j < pn.Length {
        MoveUpStep(a, k, s, i, j);
      }
      if i + k + 1 < pn.Length && s != 0 {
        pn[i + k + 1] := Or(pn[i + k + 1], High(a[i], 32 - s));
      }
      if i + k < pn.Length {
        pn[i + k] := Or(pn[i + k], Low(a[i], s));
      }
    }
    assert pn[..] == (Zeros(k) + Shl(a, s, 0))[..|a|];
    ShiftLeftVal(a, k, s);
  }

  /** Shifts right in place. */
  method ShiftRight(pn: array<Limb>, shift: nat)
    modifies pn
    ensures Val(pn[..]) == old(Val(pn[..])) / Pow2(shift)
  {
    var a := pn[..];
    Clear(pn);
    var k := shift / 32;
    var s := shift % 32;
    for i := 0 to pn.Length
      invariant forall j :: 0 <= j < pn.Length ==> pn[j] == MovedDown(a, k, s, i, j)
    {
      forall j | 0 <= j < pn.Length {
        MoveDownStep(a, k, s, i, j);
      }
      if i - k - 1 >= 0 && s != 0 {
        pn[i - k - 1] := Or(pn[i - k - 1], Low(a[i], 32 - s));
      }
      if i - k >= 0 {
        pn[i - k] := Or(pn[i - k], High(a[i], s));
      }
    }
    ShiftRightVal(a, k, s, pn[..]);
  }

  // ----- multiplication

  /** One 64-bit multiply-and-add: the low word stays, the high word is carried. */
  method MultiplyAdd(c: Limb, y: Limb, x: Limb, z: Limb) returns (h: Limb, l: Limb)
    ensures c + y + x * z == BASE * h + l
  {
    CarryFits(c, y, x, z);
    var n := c + y + x * z;
    h, l := n / BASE, n % BASE;
  }

  /** Adds x * b, moved up j limbs, to the product; what does not fit the width is lost. */
  method AddRow(a: array<Limb>, x: Limb, j: nat, b: seq<Limb>) returns (ghost carry: nat)
    requires a.Length == |b| && j < |b|
    modifies a
    ensures RowAdded(old(Val(a[..])), Val(a[..]), carry, x, j, b)
  {
    ghost var pre := a[..];
    var c: Limb := 0;
    var i := 0;
    RowStarts(a[..j], x, j);
    assert b[..0] == [];
    while i + j < a.Length
      invariant i + j <= a.Length
      invariant a[i + j..] == pre[i + j..]
      invariant RowSoFar(a[..i + j], c, pre[..i + j], x, j, b[..i])
    {
      ghost var was := a[..];
      var h, l := MultiplyAdd(c, a[i + j], x, b[i]);
      ColumnInPlace(was, pre, c, x, j, b, i, h, l);
      a[i + j] := l;
      c := h;
      assert a[..] == was[i + j := l];
      assert a[..i + j + 1] == a[..][..i + j + 1];
      i := i + 1;
    }
    assert a[..i + j] == a[..] && pre[..i + j] == pre;
    RowEnds(a[..], c, pre, x, j, b);
    carry := c;
  }

  /** All rows of the product of p and b. */
  method Rows(p: seq<Limb>, b: seq<Limb>) returns (a: array<Limb>, ghost k: nat)
    requires |p| == |b|
    ensures fresh(a) && a.Length == |b| && ProductSoFar(Val(a[..]), k, Val(p), b)
  {
    a := new Limb[|p|](_ => 0);
    ProductStarts(a[..], b);
    k := 0;
    for j := 0 to |p|
      invariant ProductSoFar(Val(a[..]), k, Val(p[..j]), b)
    {
      ghost var pre := Val(a[..]);
      ghost var carry := AddRow(a, p[j], j, b);
      k := Row(pre, k, Val(a[..]), carry, p, j, b);
    }
    assert p[..|p|] == p;
  }

  /** Multiplies in place; the product wraps at the width. */
  method MulAssign(pn: array<Limb>, b: seq<Limb>)
    requires pn.Length == |b|
    modifies pn
    ensures Val(pn[..]) == (old(Val(pn[..])) * Val(b)) % Modulus(|b|)
  {
    ghost var u := Val(pn[..]);
    ghost var k: nat;
    var a;
    a, k := Rows(pn[..], b);
    ValBound(a[..]);
    ProductDone(Val(a[..]), k, u, Val(b), Modulus(|b|));
    Assign(pn, a[..]);
  }

  method Assign(a: array<Limb>, b: seq<Limb>)
    requires a.Length == |b|
    modifies a
    ensures a[..] == b
  {
    for i := 0 to a.Length
      invariant forall j :: 0 <= j < i ==> a[j] == b[j]
    {
      a[i] := b[i];
    }
  }

  // ----- division

  /** One round of the division loop: subtract if possible, record the bit, halve the divisor. */
  method DivideStep(quotient: array<Limb>, num: array<Limb>, div: array<Limb>, shift: nat,
                    ghost n: nat, ghost d: nat, ghost z: nat)
    returns (ghost z': nat)
    requires quotient != num && quotient != div && num != div
    requires quotient.Length == num.Length == div.Length && shift / 32 < quotient.Length
    requires Val(div[..]) == d * Pow2(shift)
    requires Dividing(n, d, Val(num[..]), Val(quotient[..]), z, shift + 1)
    modifies quotient, num, div
    ensures Dividing(n, d, Val(num[..]), Val(quotient[..]), z', shift)
    ensures shift > 0 ==> Val(div[..]) == d * Pow2(shift - 1)
  {
    ghost var rest, q := Val(num[..]), quotient[..];
    var c := CompareTo(num[..], div[..]);
    if c >= 0 {
      Subtracted(n, d, rest, Val(q), z, shift);
      BitIsSet(q, z, shift);
      SubAssign(num, div[..]);
      quotient[shift / 32] := Or(quotient[shift / 32], Pow2(shift % 32));
      assert quotient[..] == q[shift / 32 := Or(q[shift / 32], Pow2(shift % 32))];
      z' := 2 * z + 1;
    } else {
      Skipped(n, d, rest, Val(q), z, shift);
      z' := 2 * z;
    }
    ShiftRight(div, 1);
    if shift > 0 {
      HalfMultiple(d * Pow2(shift), d, shift);
      assert Pow2(1) == 2;
    }
  }

  method Copy(b: seq<Limb>) returns (r: array<Limb>)
    ensures fresh(r) && r[..] == b
  {
    r := new Limb[|b|](i requires 0 <= i < |b| => b[i]);
  }

  /** The division loop, from aligned top bits down to the last bit of the quotient. */
  method DivideAligned(quotient: array<Limb>, num: array<Limb>, div: array<Limb>, aligned: nat, ghost n: nat,
                       ghost d: nat)
    requires quotient != num && quotient != div && num != div
    requires quotient.Length == num.Length == div.Length && aligned < 32 * quotient.Length
    requires d > 0 && Val(div[..]) == d * Pow2(aligned)
    requires Dividing(n, d, Val(num[..]), Val(quotient[..]), 0, aligned + 1)
    modifies quotient, num, div
    ensures Val(quotient[..]) == n / d
  {
    ghost var z := 0;
    var shift := aligned;
    while shift >= 0
      invariant -1 <= shift <= aligned
      invariant shift >= 0 ==> Val(div[..]) == d * Pow2(shift)
      invariant Dividing(n, d, Val(num[..]), Val(quotient[..]), z, shift + 1)
    {
      z := DivideStep(quotient, num, div, shift, n, d, z);
      shift := shift - 1;
    }
    Divided(n, d, Val(num[..]), Val(quotient[..]), z);
  }

  /**
   * Divides in place, rounding down. Division by zero is refused, but only after the number has
   * been cleared.
   */
  method DivAssign(a: array<Limb>, b: seq<Limb>) returns (ok: bool)
    requires a.Length == |b|
    modifies a
    ensures ok <==> Val(b) != 0
    ensures Val(a[..]) == if ok then old(Val(a[..])) / Val(b) else 0
  {
    ghost var n, d := Val(a[..]), Val(b);
    var div := Copy(b);
    var num := Copy(a[..]);
    Clear(a);
    ValZeros(a[..]);
    var numBits := Bits(num[..]);
    var divBits := Bits(div[..]);
    if divBits == 0 {
      return false;
    }
    ok := true;
    if divBits > numBits {
      FewerBits(n, numBits, d, divBits);
      return;
    }
    var shift := numBits - divBits;
    Aligned(n, numBits, d, divBits, |b|);
    ShiftLeft(div, shift);
    DivideAligned(a, num, div, shift, n, d);
  }
}
