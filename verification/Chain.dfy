/**
 The tree of block index entries with its skip pointers, and the active chain
 as a vector of entries indexed by height.
 */
module Chain {
  import opened Numbers

  /** Clears the lowest one bit. */
  function InvertLowestOne(n: nat): (r: nat)
    ensures r <= n && (n > 0 ==> r < n)
  {
    if n == 0 then 0
    else if n % 2 == 1 then n - 1
    else 2 * InvertLowestOne(n / 2)
  }

  lemma InvertsDouble(n: nat)
    ensures InvertLowestOne(2 * n) == 2 * InvertLowestOne(n)
  {
    assert 2 * n / 2 == n;
  }

  lemma Doubled(a: nat, p: nat, q: nat)
    requires q == 2 * p
    ensures a * q == 2 * (a * p)
  {
    MulAssoc(a, 2, p);
    MulAssoc(2, a, p);
  }

  lemma {:induction false} InvertsShifted(n: nat, k: nat)
    ensures InvertLowestOne(n * Pow2(k)) == InvertLowestOne(n) * Pow2(k)
  {
    if k > 0 {
      InvertsShifted(n, k - 1);
      Doubled(n, Pow2(k - 1), Pow2(k));
      Doubled(InvertLowestOne(n), Pow2(k - 1), Pow2(k));
      InvertsDouble(n * Pow2(k - 1));
    }
  }

  /** Of a number with its lowest one bit at position k, exactly that bit is cleared. */
  lemma InvertsLowestOne(m: nat, k: nat)
    ensures InvertLowestOne((2 * m + 1) * Pow2(k)) == (2 * m) * Pow2(k)
  {
    InvertsShifted(2 * m + 1, k);
    assert InvertLowestOne(2 * m + 1) == 2 * m;
  }

  /** The height a skip pointer leads to; any lower height would be right, these make the way short. */
  function GetSkipHeight(height: nat): (r: nat)
    ensures height > 0 ==> r < height
  {
    if height < 2 then 0
    else if height % 2 == 1 then InvertLowestOne(InvertLowestOne(height - 1)) + 1
    else InvertLowestOne(height)
  }

  lemma MultipleOfTwo(u: nat, k: nat, x: nat)
    requires k > 0 && u > 0 && x == u * Pow2(k)
    ensures x % 2 == 0 && x >= 2
  {
    Doubled(u, Pow2(k - 1), Pow2(k));
    MulMonotone(1, Pow2(k - 1), u);
  }

  lemma OneCleared(m: nat, k: nat, x: nat, y: nat)
    requires x == (2 * m + 1) * Pow2(k) && y == (2 * m) * Pow2(k)
    ensures InvertLowestOne(x) == y
  {
    InvertsLowestOne(m, k);
  }

  lemma TwoOnesCleared(m: nat, j: nat, k: nat, a: nat, b: nat, x: nat, y: nat)
    requires a == (2 * m + 1) * Pow2(j) && b == (2 * m) * Pow2(j)
    requires x == (2 * a + 1) * Pow2(k) && y == (2 * b) * Pow2(k)
    ensures InvertLowestOne(InvertLowestOne(x)) == y
  {
    InvertsLowestOne(a, k);
    InvertsShifted(2 * a, k);
    InvertsDouble(a);
    OneCleared(m, j, a, b);
  }

  lemma SkipIfEven(h: nat, y: nat)
    requires h >= 2 && h % 2 == 0 && InvertLowestOne(h) == y
    ensures GetSkipHeight(h) == y
  {
  }

  lemma SkipIfOdd(h: nat, x: nat, z: nat, y: nat)
    requires h >= 2 && h % 2 == 1 && x == h - 1 && InvertLowestOne(x) == z && InvertLowestOne(z) == y
    ensures GetSkipHeight(h) == y + 1
  {
  }

  /** From an even height the skip pointer leads to the height without its lowest one bit. */
  lemma SkipFromEven(m: nat, k: nat, x: nat, y: nat)
    requires k > 0 && x == (2 * m + 1) * Pow2(k) && y == (2 * m) * Pow2(k)
    ensures GetSkipHeight(x) == y
  {
    MultipleOfTwo(2 * m + 1, k, x);
    OneCleared(m, k, x, y);
    SkipIfEven(x, y);
  }

  /** From an odd height, to the height without the two lowest of its other one bits. */
  lemma SkipFromOdd(m: nat, j: nat, k: nat, a: nat, b: nat, x: nat, y: nat)
    requires k > 0 && a == (2 * m + 1) * Pow2(j) && b == (2 * m) * Pow2(j)
    requires x == (2 * a + 1) * Pow2(k) && y == (2 * b) * Pow2(k)
    ensures GetSkipHeight(x + 1) == y + 1
  {
    MultipleOfTwo(2 * a + 1, k, x);
    TwoOnesCleared(m, j, k, a, b, x, y);
    SkipIfOdd(x + 1, x, InvertLowestOne(x), y);
  }

  // ----- what walking back by the parents means

  /** The height counts the parents. */
  ghost predicate Grown(b: BlockIndex)
    decreases b.nHeight
  {
    if b.pprev == null then b.nHeight == 0
    else b.nHeight == b.pprev.nHeight + 1 && Grown(b.pprev)
  }

  /** The entry at a height, by one step to the parent at a time. */
  ghost function AncestorAt(b: BlockIndex, h: nat): (a: BlockIndex)
    requires Grown(b) && h <= b.nHeight
    ensures Grown(a) && a.nHeight == h
    decreases b.nHeight
  {
    if h == b.nHeight then b else AncestorAt(b.pprev, h)
  }

  lemma {:induction false} AncestorOfAncestor(b: BlockIndex, h: nat, g: nat)
    requires Grown(b) && g <= h <= b.nHeight
    ensures AncestorAt(AncestorAt(b, h), g) == AncestorAt(b, g)
    decreases b.nHeight
  {
    if h < b.nHeight {
      AncestorOfAncestor(b.pprev, h, g);
    }
  }

  /** A skip pointer, where there is one, leads to the ancestor at the skip height. */
  ghost predicate SkipsWell(b: BlockIndex)
    requires Grown(b)
    reads b
  {
    b.pskip != null ==> b.nHeight > 0 && b.pskip == AncestorAt(b, GetSkipHeight(b.nHeight))
  }

  ghost predicate InTree(blocks: set<BlockIndex>, b: BlockIndex)
    reads b
  {
    Grown(b) && (b.pprev != null ==> b.pprev in blocks) && SkipsWell(b)
  }

  ghost predicate Tree(blocks: set<BlockIndex>)
    reads blocks
  {
    forall b :: b in blocks ==> InTree(blocks, b)
  }

  lemma {:induction false} AncestorIsInTree(blocks: set<BlockIndex>, b: BlockIndex, h: nat)
    requires Tree(blocks) && b in blocks && Grown(b) && h <= b.nHeight
    ensures AncestorAt(b, h) in blocks
    decreases b.nHeight
  {
    assert InTree(blocks, b);
    if h < b.nHeight {
      AncestorIsInTree(blocks, b.pprev, h);
    }
  }

  /** `r` is the highest entry on both paths to the root, or null if they have none in common. */
  ghost predicate HighestCommon(a: BlockIndex, b: BlockIndex, r: BlockIndex?)
    requires Grown(a) && Grown(b)
  {
    if r == null then Apart(a, b, 0)
    else r.nHeight <= a.nHeight && r.nHeight <= b.nHeight
         && AncestorAt(a, r.nHeight) == r == AncestorAt(b, r.nHeight) && Apart(a, b, r.nHeight + 1)
  }

  /** From a height on, the two paths have nothing in common. */
  ghost predicate Apart(a: BlockIndex, b: BlockIndex, from: nat)
    requires Grown(a) && Grown(b)
  {
    forall h :: from <= h <= a.nHeight && h <= b.nHeight ==> AncestorAt(a, h) != AncestorAt(b, h)
  }

  lemma ApartFrom(a: BlockIndex, b: BlockIndex, h: nat)
    requires Grown(a) && Grown(b) && h <= a.nHeight && h <= b.nHeight
    requires Apart(a, b, h + 1) && AncestorAt(a, h) != AncestorAt(b, h)
    ensures Apart(a, b, h)
  {
  }

  /** There is at most one highest common entry. */
  lemma HighestCommonIsUnique(a: BlockIndex, b: BlockIndex, r: BlockIndex?, q: BlockIndex?)
    requires Grown(a) && Grown(b) && HighestCommon(a, b, r) && HighestCommon(a, b, q)
    ensures r == q
  {
  }

  /** Nothing is lost by first going down to a height that the other path does not exceed. */
  lemma CommonBelow(a: BlockIndex, b: BlockIndex, h: nat, r: BlockIndex?)
    requires Grown(a) && Grown(b) && h <= a.nHeight && (h == a.nHeight || h == b.nHeight)
    requires HighestCommon(AncestorAt(a, h), b, r)
    ensures HighestCommon(a, b, r)
  {
    forall g | 0 <= g <= h
      ensures AncestorAt(AncestorAt(a, h), g) == AncestorAt(a, g)
    {
      AncestorOfAncestor(a, h, g);
    }
    assert forall g :: 0 <= g <= h && g <= b.nHeight && AncestorAt(a, g) == AncestorAt(b, g) ==>
             AncestorAt(AncestorAt(a, h), g) == AncestorAt(b, g);
  }

  lemma HighestCommonSwaps(a: BlockIndex, b: BlockIndex, r: BlockIndex?)
    requires Grown(a) && Grown(b) && HighestCommon(a, b, r)
    ensures HighestCommon(b, a, r)
  {
  }

  /** Where a walk from `b` has come to: an ancestor, or beyond the root. */
  ghost predicate Reached(b: BlockIndex, r: BlockIndex?)
    requires Grown(b)
  {
    r != null ==> r.nHeight <= b.nHeight && r == AncestorAt(b, r.nHeight)
  }

  lemma ReachedParent(b: BlockIndex, r: BlockIndex)
    requires Grown(b) && Reached(b, r)
    ensures Grown(r) && Reached(b, r.pprev) && (r.pprev == null <==> r.nHeight == 0)
    ensures r.pprev != null ==> r.pprev.nHeight + 1 == r.nHeight
  {
    if r.pprev != null {
      AncestorOfAncestor(b, r.nHeight, r.nHeight - 1);
    }
  }

  function Left(r: BlockIndex?): nat { if r == null then 0 else r.nHeight + 1 }

  class BlockIndex {
    const pprev: BlockIndex?
    const nHeight: nat
    var pskip: BlockIndex?

    constructor (pprev: BlockIndex?)
      requires pprev != null ==> Grown(pprev)
      ensures this.pprev == pprev && Grown(this) && pskip == null
    {
      this.pprev := pprev;
      this.nHeight := if pprev == null then 0 else pprev.nHeight + 1;
      pskip := null;
    }

    /** Walking by skip pointers where they help ends exactly where walking by parents would. */
    method GetAncestor(height: int, ghost blocks: set<BlockIndex>) returns (r: BlockIndex?)
      requires Tree(blocks) && this in blocks && Grown(this)
      ensures height < 0 || height > nHeight ==> r == null
      ensures 0 <= height <= nHeight ==> r == AncestorAt(this, height) && r in blocks
    {
      if height > nHeight || height < 0 {
        return null;
      }
      var walk, heightWalk := this, nHeight;
      while heightWalk > height
        invariant height <= heightWalk <= nHeight
        invariant walk in blocks && walk == AncestorAt(this, heightWalk)
      {
        assert InTree(blocks, walk);
        var heightSkip := GetSkipHeight(heightWalk);
        var heightSkipPrev := GetSkipHeight(heightWalk - 1);
        if walk.pskip != null && (heightSkip == height ||
           (heightSkip > height && !(heightSkipPrev < heightSkip - 2 && heightSkipPrev >= height))) {
          AncestorOfAncestor(this, heightWalk, heightSkip);
          AncestorIsInTree(blocks, walk, heightSkip);
          walk := walk.pskip;
          heightWalk := heightSkip;
        } else {
          AncestorOfAncestor(this, heightWalk, heightWalk - 1);
          walk := walk.pprev;
          heightWalk := heightWalk - 1;
        }
      }
      r := walk;
    }

    /** Only the parents' skip pointers are needed. */
    method BuildSkip(ghost blocks: set<BlockIndex>)
      requires Grown(this) && Tree(blocks) && this !in blocks && (pprev != null ==> pprev in blocks) && pskip == null
      modifies this`pskip
      ensures SkipsWell(this) && (pskip == null <==> pprev == null)
    {
      if pprev != null {
        pskip := pprev.GetAncestor(GetSkipHeight(nHeight), blocks);
      }
    }
  }

  /** The block index: entries are only ever added, below an entry that is already there. */
  class BlockManager {
    var blocks: set<BlockIndex>

    ghost predicate Valid()
      reads this, blocks
    {
      Tree(blocks)
    }

    constructor ()
      ensures Valid() && blocks == {}
    {
      blocks := {};
    }

    method AddToBlockIndex(pprev: BlockIndex?) returns (index: BlockIndex)
      requires Valid() && (pprev != null ==> pprev in blocks)
      modifies this
      ensures Valid() && fresh(index) && blocks == old(blocks) + {index}
      ensures index.pprev == pprev && (index.pskip == null <==> pprev == null)
    {
      assert pprev != null ==> InTree(blocks, pprev);
      index := new BlockIndex(pprev);
      index.BuildSkip(blocks);
      forall b | b in blocks + {index}
        ensures InTree(blocks + {index}, b)
      {
        assert b != index ==> InTree(blocks, b);
      }
      blocks := blocks + {index};
    }
  }

  // ----- the active chain

  ghost predicate PathAt(v: seq<BlockIndex?>, i: nat)
    requires i < |v|
  {
    v[i] != null && Grown(v[i]) && v[i].nHeight == i && (i > 0 ==> v[i].pprev == v[i - 1])
  }

  /** A path from a root: every entry has its height as index and follows its parent. */
  ghost predicate Path(v: seq<BlockIndex?>) {
    forall i :: 0 <= i < |v| ==> PathAt(v, i)
  }

  /** The entries below an entry of a path are its ancestors. */
  lemma {:induction false} PathIsAncestry(v: seq<BlockIndex?>, k: nat, i: nat)
    requires Path(v) && i <= k < |v|
    ensures PathAt(v, k) && v[i] == AncestorAt(v[k], i)
    decreases k
  {
    assert PathAt(v, k);
    if i < k {
      PathIsAncestry(v, k - 1, i);
    }
  }

  /** The ancestors of an entry, by height, are a path. */
  lemma AncestryIsPath(v: seq<BlockIndex?>, tip: BlockIndex)
    requires Grown(tip) && |v| == tip.nHeight + 1
    requires forall i :: 0 <= i < |v| ==> v[i] == AncestorAt(tip, i)
    ensures Path(v)
  {
    forall i | 0 <= i < |v|
      ensures PathAt(v, i)
    {
      if i > 0 {
        AncestorOfAncestor(tip, i, i - 1);
      }
    }
  }

  lemma PathAtEnd(v: seq<BlockIndex?>)
    requires Path(v)
    ensures v != [] ==> PathAt(v, |v| - 1)
  {
  }

  function Resized(v: seq<BlockIndex?>, n: nat): seq<BlockIndex?> {
    if n <= |v| then v[..n] else v + seq(n - |v|, i => null)
  }

  class CChain {
    var vChain: seq<BlockIndex?>

    ghost predicate Valid()
      reads this
    {
      Path(vChain)
    }

    constructor ()
      ensures Valid() && vChain == []
    {
      vChain := [];
    }

    function Tip(): BlockIndex?
      reads this
    {
      if |vChain| > 0 then vChain[|vChain| - 1] else null
    }

    function At(height: int): BlockIndex?
      reads this
    {
      if height < 0 || height >= |vChain| then null else vChain[height]
    }

    predicate Contains(index: BlockIndex)
      reads this
    {
      At(index.nHeight) == index
    }

    function Height(): int
      reads this
    {
      |vChain| - 1
    }

    /** Stops at the first entry that is already in place: below it the old vector was the same path. */
    method SetTip(block: BlockIndex)
      requires Valid() && Grown(block)
      modifies this
      ensures Valid() && Tip() == block && |vChain| == block.nHeight + 1
      ensures forall i :: 0 <= i < |vChain| ==> vChain[i] == AncestorAt(block, i)
    {
      ghost var before := vChain;
      var index: BlockIndex? := block;
      vChain := Resized(vChain, block.nHeight + 1);
      ghost var resized := vChain;
      while index != null && vChain[index.nHeight] != index
        invariant |vChain| == block.nHeight + 1
        invariant index != null ==>
                  Grown(index) && index.nHeight <= block.nHeight && index == AncestorAt(block, index.nHeight)
        invariant var left := if index == null then 0 else index.nHeight + 1;
                  && (forall i :: 0 <= i < left ==> vChain[i] == resized[i])
                  && (forall i :: left <= i < |vChain| ==> vChain[i] == AncestorAt(block, i))
        decreases if index == null then 0 else index.nHeight + 1
      {
        if index.pprev != null {
          AncestorOfAncestor(block, index.nHeight, index.nHeight - 1);
        }
        vChain := vChain[index.nHeight := index];
        index := index.pprev;
      }
      if index != null {
        assert index.nHeight < |before|;
        forall i | 0 <= i < index.nHeight
          ensures vChain[i] == AncestorAt(block, i)
        {
          PathIsAncestry(before, index.nHeight, i);
          AncestorOfAncestor(block, index.nHeight, i);
        }
      }
      AncestryIsPath(vChain, block);
    }

    /** The walk by parents, from an entry no higher than the tip. */
    method WalkToContained(from: BlockIndex, tip: BlockIndex) returns (r: BlockIndex?)
      requires Valid() && Grown(from) && Tip() == tip && Grown(tip) && from.nHeight <= Height()
      ensures HighestCommon(from, tip, r)
    {
      PathAtEnd(vChain);
      r := from;
      while r != null && !Contains(r)
        invariant Reached(from, r) && Left(r) <= |vChain|
        invariant Apart(from, tip, Left(r))
        decreases Left(r)
      {
        PathIsAncestry(vChain, |vChain| - 1, r.nHeight);
        ReachedParent(from, r);
        ApartFrom(from, tip, r.nHeight);
        r := r.pprev;
      }
      if r != null {
        PathIsAncestry(vChain, |vChain| - 1, r.nHeight);
      }
    }

    /** The highest common ancestor of an entry and the tip. */
    method FindFork(pindex: BlockIndex?, ghost blocks: set<BlockIndex>) returns (r: BlockIndex?)
      requires Valid() && Tree(blocks) && (pindex != null ==> pindex in blocks && Grown(pindex))
      ensures pindex == null || Tip() == null ==> r == null
      ensures pindex != null && Tip() != null ==> Grown(Tip()) && HighestCommon(pindex, Tip(), r)
    {
      r := pindex;
      if r == null {
        return;
      }
      if r.nHeight > Height() {
        r := r.GetAncestor(Height(), blocks);
      }
      if r != null {
        PathAtEnd(vChain);
        var from := r;
        r := WalkToContained(from, Tip());
        CommonBelow(pindex, Tip(), from.nHeight, r);
      }
    }
  }

  /** The walk by parents, from two entries of one height. */
  method WalkTogether(a: BlockIndex, b: BlockIndex) returns (r: BlockIndex?)
    requires Grown(a) && Grown(b) && a.nHeight == b.nHeight
    ensures HighestCommon(a, b, r)
  {
    var pa: BlockIndex?, pb: BlockIndex? := a, b;
    while pa != pb && pa != null && pb != null
      invariant Reached(a, pa) && Reached(b, pb) && Left(pa) == Left(pb)
      invariant Apart(a, b, Left(pa))
      decreases Left(pa)
    {
      ReachedParent(a, pa);
      ReachedParent(b, pb);
      ApartFrom(a, b, pa.nHeight);
      pa, pb := pa.pprev, pb.pprev;
    }
    assert pa == pb;
    r := pa;
  }

  /** Null when the two have different roots. */
  method LastCommonAncestor(a: BlockIndex, b: BlockIndex, ghost blocks: set<BlockIndex>) returns (r: BlockIndex?)
    requires Tree(blocks) && a in blocks && b in blocks && Grown(a) && Grown(b)
    ensures HighestCommon(a, b, r)
  {
    var pa: BlockIndex, pb: BlockIndex := a, b;
    if pa.nHeight > pb.nHeight {
      pa := pa.GetAncestor(pb.nHeight, blocks);
    } else if pb.nHeight > pa.nHeight {
      pb := pb.GetAncestor(pa.nHeight, blocks);
    }
    r := WalkTogether(pa, pb);
    CommonBelow(a, pb, pa.nHeight, r);
    HighestCommonSwaps(a, pb, r);
    CommonBelow(b, a, pb.nHeight, r);
    HighestCommonSwaps(b, a, r);
  }
}
