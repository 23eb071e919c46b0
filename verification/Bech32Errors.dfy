/**
 The distance of the Bech32 code: no two lists of symbols that differ in one, two or three places less than
 1023 symbols apart have the same remainder.
 */
module Bech32Errors {
  import opened Numbers
  import opened Bech32Code
  import opened GaloisField
  import opened Bech32Roots

  // ----- the difference of two lists

  function Change(v: Symbol, w: Symbol): Symbol { Xor(v, w) }

  function Changes(s: seq<Symbol>, t: seq<Symbol>): (d: seq<Symbol>)
    requires |s| == |t|
    ensures |d| == |s|
  {
    seq(|s|, p requires 0 <= p < |s| => Change(s[p], t[p]))
  }

  lemma {:induction false} PolyOfChanges(c: bv32, s: seq<Symbol>, t: seq<Symbol>)
    requires |s| == |t|
    ensures Xor(Poly(c, s), Poly(c, t)) == Poly(0, Changes(s, t))
  {
    if s == [] {
      XorUnits(c);
    } else {
      var n := |s| - 1;
      PolyOfChanges(c, s[..n], t[..n]);
      StepXor(Poly(c, s[..n]), Poly(c, t[..n]), s[n], t[n]);
      assert Changes(s, t)[..n] == Changes(s[..n], t[..n]);
    }
  }

  // ----- the values of a list

  /** The list, as a polynomial, at e^j. */
  function Sum(j: nat, d: seq<Symbol>): Element {
    if d == [] then 0 else Add(Times(j, Sum(j, d[..|d| - 1])), Const(d[|d| - 1]))
  }

  /** At the roots of the generator, the remainder of a list has the value of the list. */
  lemma {:induction false} PolyValue(j: nat, d: seq<Symbol>)
    requires IsRoot(j)
    ensures Value(j, Poly(0, d), 6) == Sum(j, d)
  {
    if d == [] {
      ValueOfZero(j, 6);
    } else {
      var n := |d| - 1;
      PolyValue(j, d[..n]);
      PolyFits(0, d[..n]);
      StepValue(j, Poly(0, d[..n]), d[n]);
    }
  }

  /** e^j to the n-th power times an element. */
  function Shifted(j: nat, n: nat, v: Element): Element { Times(j * n, v) }

  lemma ShiftedNone(j: nat, v: Element)
    ensures Shifted(j, 0, v) == v
  {
    assert j * 0 == 0;
  }

  lemma ShiftedSum(j: nat, m: nat, n: nat, v: Element)
    ensures Shifted(j, m, Shifted(j, n, v)) == Shifted(j, m + n, v)
  {
    TimesSum(j * m, j * n, v);
    Distribute(j, m, n);
  }

  lemma ShiftedOnce(j: nat, n: nat, v: Element)
    ensures Times(j, Shifted(j, n, v)) == Shifted(j, n + 1, v)
  {
    ShiftedSum(j, 1, n, v);
    assert j * 1 == j;
  }

  lemma ShiftedAdd(j: nat, n: nat, a: Element, b: Element)
    ensures Shifted(j, n, Add(a, b)) == Add(Shifted(j, n, a), Shifted(j, n, b))
  {
    TimesAdd(j * n, a, b);
  }

  lemma ShiftedZero(j: nat, n: nat, v: Element)
    ensures Shifted(j, n, v) == 0 <==> v == 0
  {
    TimesZero(j * n);
    if Times(j * n, v) == 0 {
      TimesInjective(j * n, v, 0);
    }
  }

  ghost predicate Quiet(d: seq<Symbol>, i: nat, k: nat) {
    k <= |d| && forall p :: i <= p < k ==> d[p] == 0
  }

  lemma {:induction false} SumQuiet(j: nat, d: seq<Symbol>, i: nat, k: nat)
    requires i <= k && Quiet(d, i, k)
    ensures Sum(j, d[..k]) == Shifted(j, k - i, Sum(j, d[..i]))
    decreases k
  {
    if i == k {
      ShiftedNone(j, Sum(j, d[..i]));
    } else {
      SumQuiet(j, d, i, k - 1);
      SumAt(j, d, k - 1);
      ConstOfZero(0);
      AddUnits(Times(j, Sum(j, d[..k - 1])));
      ShiftedOnce(j, k - 1 - i, Sum(j, d[..i]));
    }
  }

  lemma SumAt(j: nat, d: seq<Symbol>, k: nat)
    requires k < |d|
    ensures Sum(j, d[..k + 1]) == Add(Times(j, Sum(j, d[..k])), Const(d[k]))
  {
    assert d[..k + 1][..k] == d[..k];
  }

  lemma SumNext(j: nat, d: seq<Symbol>, i: nat, k: nat)
    requires i < k < |d| && Quiet(d, i + 1, k)
    ensures Sum(j, d[..k + 1]) == Add(Shifted(j, k - i, Sum(j, d[..i + 1])), Const(d[k]))
  {
    SumQuiet(j, d, i + 1, k);
    SumAt(j, d, k);
    ShiftedOnce(j, k - i - 1, Sum(j, d[..i + 1]));
  }

  lemma SumFirst(j: nat, d: seq<Symbol>, i: nat)
    requires i < |d| && Quiet(d, 0, i)
    ensures Sum(j, d[..i + 1]) == Const(d[i])
  {
    SumQuiet(j, d, 0, i);
    assert d[..0] == [];
    ShiftedZero(j, i, 0);
    SumAt(j, d, i);
    TimesZero(j);
    AddUnits(Const(d[i]));
  }

  lemma SumLast(j: nat, d: seq<Symbol>, k: nat)
    requires k < |d| && Quiet(d, k + 1, |d|) && Sum(j, d) == 0
    ensures Sum(j, d[..k + 1]) == 0
  {
    SumQuiet(j, d, k + 1, |d|);
    assert d[..|d|] == d;
    ShiftedZero(j, |d| - k - 1, Sum(j, d[..k + 1]));
  }

  /** Zero but in three places. */
  ghost predicate Sparse(d: seq<Symbol>, i: nat, m: nat, k: nat) {
    i < m < k < |d| && Quiet(d, 0, i) && Quiet(d, i + 1, m) && Quiet(d, m + 1, k) && Quiet(d, k + 1, |d|)
  }

  /** Three terms at distances x and y from the last one. */
  function ThreeTerms(j: nat, x: nat, y: nat, a: Element, b: Element, c: Element): Element {
    Add(Add(Shifted(j, x, a), Shifted(j, y, b)), c)
  }

  lemma SumSparse(j: nat, d: seq<Symbol>, i: nat, m: nat, k: nat)
    requires Sparse(d, i, m, k) && Sum(j, d) == 0
    ensures ThreeTerms(j, k - i, k - m, Const(d[i]), Const(d[m]), Const(d[k])) == 0
  {
    var a, b := Const(d[i]), Const(d[m]);
    SumFirst(j, d, i);
    SumNext(j, d, i, m);
    SumNext(j, d, m, k);
    SumLast(j, d, k);
    ShiftedAdd(j, k - m, Shifted(j, m - i, a), b);
    ShiftedSum(j, k - m, m - i, a);
  }

  // ----- three equations

  lemma Balance(a: Element, b: Element, c: Element, d: Element)
    requires Add(a, b) == Add(c, d)
    ensures Add(a, c) == Add(b, d)
  {
    AddUnits(Add(a, b));
    AddExchange(a, b, c, d);
    AddZero(Add(a, c), Add(b, d));
  }

  /** The difference of a term and its multiple, multiplied. */
  lemma TimesDifference(n: nat, a: Element)
    ensures Add(Times(n, a), Times(n, Times(n, a))) == Times(n, Add(a, Times(n, a)))
  {
    TimesAdd(n, a, Times(n, a));
  }

  lemma SameMultiple(x: nat, y: nat, u: Element)
    requires y < x < 1023 && Times(x, u) == Times(y, u)
    ensures u == 0
  {
    TimesSum(y, x - y, u);
    TimesInjective(y, Times(x - y, u), u);
    NothingIsFixed(x - y, u);
  }

  lemma Unchanged(n: nat, a: Element)
    requires 0 < n < 1023 && Add(a, Times(n, a)) == 0
    ensures a == 0
  {
    AddZero(a, Times(n, a));
    NothingIsFixed(n, a);
  }

  /** Three terms whose sums with weights 1, e^x, e^y and their squares are zero. */
  lemma Vandermonde(x: nat, y: nat, a: Element, b: Element, c: Element)
    requires 0 < y < x < 1023
    requires Add(Add(a, b), c) == 0
    requires Add(Add(Times(x, a), Times(y, b)), c) == 0
    requires Add(Add(Times(x, Times(x, a)), Times(y, Times(y, b))), c) == 0
    ensures a == 0 && b == 0 && c == 0
  {
    var a', b' := Times(x, a), Times(y, b);
    var a'', b'' := Times(x, a'), Times(y, b');
    AddZero(Add(a, b), c);
    AddZero(Add(a', b'), c);
    AddZero(Add(a'', b''), c);
    Balance(a, b, a', b');
    Balance(a', b', a'', b'');
    TimesDifference(x, a);
    TimesDifference(y, b);
    SameMultiple(x, y, Add(a, a'));
    Unchanged(x, a);
    Unchanged(y, b);
    AddUnits(0);
  }

  lemma PowersOfRoot(x: nat, a: Element)
    ensures Shifted(998, x, a) == Times(x, Shifted(997, x, a))
    ensures Shifted(999, x, a) == Times(x, Times(x, Shifted(997, x, a)))
  {
    TimesSum(x, 997 * x, a);
    TimesSum(x, 998 * x, a);
  }

  lemma ThreeTermsVanish(x: nat, y: nat, a: Element, b: Element, c: Element)
    requires 0 < y < x < 1023
    requires forall j :: IsRoot(j) ==> ThreeTerms(j, x, y, a, b, c) == 0
    ensures a == 0 && b == 0 && c == 0
  {
    assert ThreeTerms(997, x, y, a, b, c) == 0;
    assert ThreeTerms(998, x, y, a, b, c) == 0;
    assert ThreeTerms(999, x, y, a, b, c) == 0;
    PowersOfRoot(x, a);
    PowersOfRoot(y, b);
    Vandermonde(x, y, Shifted(997, x, a), Shifted(997, y, b), c);
    ShiftedZero(997, x, a);
    ShiftedZero(997, y, b);
  }

  // ----- errors

  lemma ConstIsSymbol(v: Symbol)
    ensures Const(v) == 0 <==> v == 0
  {
  }

  lemma ChangeIsZero(v: Symbol, w: Symbol)
    ensures Change(v, w) == 0 <==> v == w
  {
    if Xor(v, w) == 0 {
      XorZero(v, w);
    } else if v == w {
      XorUnits(v);
    }
  }

  /** The two lists agree elsewhere. */
  ghost predicate AgreeExcept(s: seq<Symbol>, t: seq<Symbol>, i: nat, m: nat, k: nat) {
    |s| == |t| && forall p :: 0 <= p < |s| && p != i && p != m && p != k ==> s[p] == t[p]
  }

  lemma ChangesAreSparse(s: seq<Symbol>, t: seq<Symbol>, i: nat, m: nat, k: nat)
    requires AgreeExcept(s, t, i, m, k) && i < m < k < |s|
    ensures Sparse(Changes(s, t), i, m, k)
  {
    forall p | 0 <= p < |s| && s[p] == t[p]
      ensures Changes(s, t)[p] == 0
    {
      ChangeIsZero(s[p], t[p]);
    }
  }

  lemma SpreadErrorsAreSeen(c: bv32, s: seq<Symbol>, t: seq<Symbol>, i: nat, m: nat, k: nat)
    requires AgreeExcept(s, t, i, m, k) && i < m < k < |s| && k - i < 1023 && Poly(c, s) == Poly(c, t)
    ensures s[i] == t[i] && s[m] == t[m] && s[k] == t[k]
  {
    var d := Changes(s, t);
    PolyOfChanges(c, s, t);
    XorUnits(Poly(c, s));
    ChangesAreSparse(s, t, i, m, k);
    forall j | IsRoot(j)
      ensures ThreeTerms(j, k - i, k - m, Const(d[i]), Const(d[m]), Const(d[k])) == 0
    {
      PolyValue(j, d);
      ValueOfZero(j, 6);
      SumSparse(j, d, i, m, k);
    }
    ThreeTermsVanish(k - i, k - m, Const(d[i]), Const(d[m]), Const(d[k]));
    ConstIsSymbol(d[i]);
    ConstIsSymbol(d[m]);
    ConstIsSymbol(d[k]);
    ChangeIsZero(s[i], t[i]);
    ChangeIsZero(s[m], t[m]);
    ChangeIsZero(s[k], t[k]);
  }

  lemma CloseErrorsAreSeen(c: bv32, s: seq<Symbol>, t: seq<Symbol>, i: nat, k: nat)
    requires c <= ALL_BITS && |s| == |t| && i <= k < |s| && k - i < 6 && s != t
    requires forall p :: 0 <= p < |s| && !(i <= p <= k) ==> s[p] == t[p]
    ensures Poly(c, s) != Poly(c, t)
  {
    var before, after := s[..i], s[k + 1..];
    assert s == before + s[i..k + 1] + after && t == before + t[i..k + 1] + after;
    BurstsAreSeen(c, before, s[i..k + 1], t[i..k + 1], after);
  }

  /** Up to three errors within a window of 1023 symbols change the remainder. */
  lemma ThreeErrorsAreSeen(c: bv32, s: seq<Symbol>, t: seq<Symbol>, i: nat, m: nat, k: nat)
    requires c <= ALL_BITS && AgreeExcept(s, t, i, m, k) && s != t
    requires i <= m <= k < |s| && k - i < 1023
    ensures Poly(c, s) != Poly(c, t)
  {
    if k - i < 6 {
      CloseErrorsAreSeen(c, s, t, i, k);
    } else if Poly(c, s) == Poly(c, t) {
      var n := if i < m < k then m else i + 1;
      SpreadErrorsAreSeen(c, s, t, i, n, k);
    }
  }

  // ----- where a single error is

  lemma OneTerm(j: nat, d: seq<Symbol>, i: nat, r: bv32, x: nat)
    requires i < |d| && Quiet(d, 0, i) && Quiet(d, i + 1, |d|) && IsRoot(j) && r == Poly(0, d) && x == |d| - 1 - i
    ensures Value(j, r, 6) == Shifted(j, x, Const(d[i]))
  {
    PolyValue(j, d);
    SumFirst(j, d, i);
    SumQuiet(j, d, i + 1, |d|);
    assert d[..|d|] == d;
  }

  /** Of the three values of a single change, each is the one before times e to the power of the place. */
  lemma OneChange(d: seq<Symbol>, i: nat, r: bv32, x: nat)
    requires i < |d| && Quiet(d, 0, i) && Quiet(d, i + 1, |d|) && d[i] != 0 && r == Poly(0, d) && x == |d| - 1 - i
    ensures Value(997, r, 6) != 0
    ensures Value(998, r, 6) == Times(x, Value(997, r, 6))
    ensures Value(999, r, 6) == Times(x, Value(998, r, 6))
  {
    var a := Const(d[i]);
    OneTerm(997, d, i, r, x);
    OneTerm(998, d, i, r, x);
    OneTerm(999, d, i, r, x);
    PowersOfRoot(x, a);
    ShiftedZero(997, x, a);
    ConstIsSymbol(d[i]);
  }

  lemma OneFactor(p: nat, x: nat, w: Element)
    requires p < 1023 && x < 1023 && w != 0 && Times(p, w) == Times(x, w)
    ensures p == x
  {
    if p < x {
      SameMultiple(x, p, w);
    } else if x < p {
      SameMultiple(p, x, w);
    }
  }

  /**
   * The place of a single error, counted from the right, is the only p less than 1023 for which the second
   * value of the changed remainder is e^p times the first, and the third e^p times the second.
   */
  lemma OneErrorIsLocated(c: bv32, s: seq<Symbol>, i: nat, v: Symbol, r: bv32, p: nat)
    requires i < |s| <= 1023 && v != s[i] && r == Xor(Poly(c, s), Poly(c, s[i := v])) && p < 1023
    ensures Value(998, r, 6) == Times(p, Value(997, r, 6)) <==> p == |s| - 1 - i
    ensures p == |s| - 1 - i ==> Value(999, r, 6) == Times(p, Value(998, r, 6))
  {
    var d := Changes(s, s[i := v]);
    PolyOfChanges(c, s, s[i := v]);
    OneIsChanged(s, i, v);
    var x := |s| - 1 - i;
    OneChange(d, i, r, x);
    LocatedBy(Value(997, r, 6), Value(998, r, 6), x, p);
  }

  lemma OneIsChanged(s: seq<Symbol>, i: nat, v: Symbol)
    requires i < |s| && v != s[i]
    ensures var d := Changes(s, s[i := v]); Quiet(d, 0, i) && Quiet(d, i + 1, |d|) && d[i] != 0
  {
    var d := Changes(s, s[i := v]);
    forall q | 0 <= q < |d|
      ensures d[q] == 0 <==> q != i
    {
      ChangeIsZero(s[q], s[i := v][q]);
    }
  }

  lemma LocatedBy(w: Element, w': Element, x: nat, p: nat)
    requires p < 1023 && x < 1023 && w != 0 && w' == Times(x, w)
    ensures w' == Times(p, w) <==> p == x
  {
    if Times(p, w) == Times(x, w) {
      OneFactor(p, x, w);
    }
  }
}
