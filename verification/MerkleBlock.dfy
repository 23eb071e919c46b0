/** The partial Merkle tree object, its whole-tree results and the packing of its flag bits. */
module MerkleBlock {
  import opened Basics
  import opened Numbers
  import opened MerkleShape
  import opened MerkleTree
  import opened MerkleRoots
  import opened BitFlags

  const MAX_BLOCK_WEIGHT := 4000000
  const MIN_TRANSACTION_WEIGHT := 240

  // ----- positions and heights as trees

  /** The tree below the node at a height and position. */
  ghost function ShapeOf(n: nat, h: nat, pos: nat): Shape
    requires IsNode(n, h, pos)
    decreases h
  {
    if h == 0 then Leaf(pos)
    else
      Children(n, h, pos);
      if 2 * pos + 1 < Width(n, h - 1)
      then Two(ShapeOf(n, h - 1, 2 * pos), ShapeOf(n, h - 1, 2 * pos + 1))
      else One(ShapeOf(n, h - 1, 2 * pos))
  }

  lemma {:induction false} ShapeCovers(n: nat, h: nat, pos: nat)
    requires IsNode(n, h, pos)
    ensures var t := ShapeOf(n, h, pos);
            t.Ordered() && t.Height() == h && t.Lo() == First(h, pos) && t.Hi() == End(n, h, pos)
              && t.Lo() < t.Hi() <= n
    decreases h
  {
    LeavesOfNode(n, h, pos);
    if h > 0 {
      Children(n, h, pos);
      LeavesOfChildren(n, h, pos);
      ShapeCovers(n, h - 1, 2 * pos);
      if 2 * pos + 1 < Width(n, h - 1) {
        ShapeCovers(n, h - 1, 2 * pos + 1);
      }
    }
  }

  lemma ShapeIsOrdered(n: nat, h: nat, pos: nat)
    requires IsNode(n, h, pos)
    ensures ShapeOf(n, h, pos).Ordered() && ShapeOf(n, h, pos).Hi() <= n
  {
    ShapeCovers(n, h, pos);
  }

  /** The least height with at most one node. */
  ghost predicate IsHeight(n: nat, h: nat) {
    Width(n, h) <= 1 && forall k :: 0 <= k < h ==> Width(n, k) > 1
  }

  method TreeHeight(n: nat) returns (h: nat)
    ensures IsHeight(n, h)
    ensures n > 0 ==> IsNode(n, h, 0)
  {
    h := 0;
    while Width(n, h) > 1
      invariant forall k :: 0 <= k < h ==> Width(n, k) > 1
      invariant n > 0 ==> Width(n, h) > 0
      decreases Width(n, h)
    {
      h := h + 1;
    }
  }

  lemma HeightIsUnique(n: nat, h: nat, k: nat)
    requires IsHeight(n, h) && IsHeight(n, k)
    ensures h == k
  {
  }

  lemma WholeTree(n: nat, h: nat)
    requires IsHeight(n, h) && IsNode(n, h, 0)
    ensures var t := ShapeOf(n, h, 0); t.Ordered() && t.Lo() == 0 && t.Hi() == n
  {
    ShapeCovers(n, h, 0);
    NodeHasLeaf(n, h, 1);
  }

  // ----- the object

  function CalcHash(hs: Hasher, txids: seq<Hash>, h: nat, pos: nat): Hash
    requires IsNode(|txids|, h, pos)
    decreases h
  {
    if h == 0 then
      txids[pos]
    else
      Children(|txids|, h, pos);
      var left := CalcHash(hs, txids, h - 1, 2 * pos);
      var right := if 2 * pos + 1 < Width(|txids|, h - 1) then CalcHash(hs, txids, h - 1, 2 * pos + 1) else left;
      hs.Pair(left, right)
  }

  lemma {:induction false} CalcHashOfShape(hs: Hasher, txids: seq<Hash>, h: nat, pos: nat, t: Shape)
    requires IsNode(|txids|, h, pos) && t == ShapeOf(|txids|, h, pos) && t.Ordered() && t.Hi() <= |txids|
    ensures CalcHash(hs, txids, h, pos) == TreeHash(hs, txids, t)
    decreases h
  {
    if h > 0 {
      Children(|txids|, h, pos);
      if t.Two? {
        RangeIsNonempty(t.right);
        CalcHashOfShape(hs, txids, h - 1, 2 * pos, t.left);
        CalcHashOfShape(hs, txids, h - 1, 2 * pos + 1, t.right);
      } else {
        CalcHashOfShape(hs, txids, h - 1, 2 * pos, t.child);
      }
    }
  }

  lemma CalcHashStep(hs: Hasher, row: seq<Hash>, h: nat, pos: nat)
    requires h > 0 && IsNode(|row|, h, pos)
    ensures IsNode(|row|, h - 1, 2 * pos)
    ensures CalcHash(hs, row, h, pos) ==
            hs.Pair(CalcHash(hs, row, h - 1, 2 * pos),
                    if 2 * pos + 1 < Width(|row|, h - 1) then CalcHash(hs, row, h - 1, 2 * pos + 1)
                    else CalcHash(hs, row, h - 1, 2 * pos))
  {
    Children(|row|, h, pos);
  }

  lemma {:induction false} NextIsLower(n: nat, h: nat)
    requires h > 0
    ensures Width((n + 1) / 2, h - 1) == Width(n, h)
  {
    if h > 1 {
      NextIsLower(n, h - 1);
    }
  }

  /** The tree over the next row is the tree over the row without its leaves. */
  lemma {:induction false} TreeOverNext(hs: Hasher, row: seq<Hash>, next: seq<Hash>, h: nat, pos: nat)
    requires h > 0 && IsNext(hs, row, next) && IsNode(|row|, h, pos) && IsNode(|next|, h - 1, pos)
    ensures CalcHash(hs, next, h - 1, pos) == CalcHash(hs, row, h, pos)
    decreases h
  {
    CalcHashStep(hs, row, h, pos);
    if h == 1 {
      assert PairsAt(hs, row, next, pos);
    } else {
      CalcHashStep(hs, next, h - 1, pos);
      NextIsLower(|row|, h - 1);
      TreeOverNext(hs, row, next, h - 1, 2 * pos);
      if 2 * pos + 1 < Width(|row|, h - 1) {
        TreeOverNext(hs, row, next, h - 1, 2 * pos + 1);
      }
    }
  }

  lemma HeightOfNext(n: nat, h: nat)
    requires h > 0 && IsHeight(n, h)
    ensures n > 1 && IsHeight((n + 1) / 2, h - 1)
  {
    assert Width(n, 0) > 1;
    NextIsLower(n, h);
    var m := (n + 1) / 2;
    forall k | 0 <= k < h - 1
      ensures Width(m, k) > 1
    {
      NextIsLower(n, k + 1);
    }
  }

  /** The hash at the top of the tree is the Merkle root of the list. */
  lemma {:induction false} CalcHashIsRoot(hs: Hasher, row: seq<Hash>, h: nat)
    requires IsHeight(|row|, h) && IsNode(|row|, h, 0)
    ensures CalcHash(hs, row, h, 0) == MerkleRoot(hs, row)
    decreases h
  {
    if h > 0 {
      var next := NextRow(hs, row);
      NextRowIsNext(hs, row);
      HeightOfNext(|row|, h);
      NextIsLower(|row|, h);
      TreeOverNext(hs, row, next, h, 0);
      CalcHashIsRoot(hs, next, h - 1);
      RootOfNext(hs, row);
    }
  }

  lemma TreeHashIsRoot(hs: Hasher, txids: seq<Hash>, h: nat)
    requires IsHeight(|txids|, h) && IsNode(|txids|, h, 0)
    ensures var t := ShapeOf(|txids|, h, 0);
            t.Ordered() && t.Hi() <= |txids| && TreeHash(hs, txids, t) == MerkleRoot(hs, txids)
  {
    ShapeIsOrdered(|txids|, h, 0);
    CalcHashOfShape(hs, txids, h, 0, ShapeOf(|txids|, h, 0));
    CalcHashIsRoot(hs, txids, h);
  }

  ghost function Hashes(found: seq<(Hash, nat)>): seq<Hash> { seq(|found|, k requires 0 <= k < |found| => found[k].0) }
  ghost function Positions(found: seq<(Hash, nat)>): seq<nat> {
    seq(|found|, k requires 0 <= k < |found| => found[k].1)
  }

  lemma FoundConcat(hashes: seq<Hash>, positions: seq<nat>, a: seq<(Hash, nat)>, b: seq<(Hash, nat)>)
    ensures hashes + Hashes(a) + Hashes(b) == hashes + Hashes(a + b)
    ensures positions + Positions(a) + Positions(b) == positions + Positions(a + b)
  {
  }

  /** The tests before the traversal: no excess of transactions or hashes, at least a bit per hash. */
  predicate Plausible(n: nat, e: Encoded) {
    && 0 < n <= 16666
    && |e.hashes| <= n && |e.bits| >= |e.hashes|
  }

  /** The tests after the traversal: nothing wrong, and all bits (up to padding) and hashes consumed. */
  ghost predicate Clean(e: Encoded, d: Decoded) {
    !d.bad && (d.nBits + 7) / 8 == (|e.bits| + 7) / 8 && d.nHash == |e.hashes|
  }

  class PartialMerkleTree {
    const hs: Hasher
    var nTransactions: nat
    var vBits: seq<bool>
    var vHash: seq<Hash>
    var fBad: bool

    ghost function Encoding(): Encoded reads this { Encoded(vBits, vHash) }

    constructor FromTransactions(hs: Hasher, vTxid: seq<Hash>, vMatch: seq<bool>)
      requires |vTxid| == |vMatch| > 0
      ensures this.hs == hs && nTransactions == |vTxid| && !fBad
      ensures exists h :: IsHeight(nTransactions, h) && IsNode(nTransactions, h, 0) &&
                var t := ShapeOf(nTransactions, h, 0);
                t.Ordered() && t.Hi() <= nTransactions && Encoding() == Build(hs, vTxid, vMatch, t)
    {
      this.hs := hs;
      nTransactions, fBad, vBits, vHash := |vTxid|, false, [], [];
      new;
      var nHeight := TreeHeight(nTransactions);
      ShapeIsOrdered(nTransactions, nHeight, 0);
      ghost var b := TraverseAndBuild(nHeight, 0, vTxid, vMatch, ShapeOf(nTransactions, nHeight, 0));
    }

    /** What arrives from the wire: any count, hashes and packed flags. */
    constructor FromStream(hs: Hasher, n: nat, hashes: seq<Hash>, bytes: seq<bv8>)
      ensures this.hs == hs && nTransactions == n && vHash == hashes && vBits == BytesToBits(bytes) && !fBad
    {
      this.hs := hs;
      nTransactions, fBad, vBits, vHash := n, false, BytesToBits(bytes), hashes;
    }

    /** The loop that looks for a flagged leaf below a node. */
    method ParentOfMatch(height: nat, pos: nat, vMatch: seq<bool>) returns (found: bool)
      requires |vMatch| == nTransactions && IsNode(nTransactions, height, pos)
      ensures found == MatchBelow(vMatch, ShapeOf(nTransactions, height, pos))
    {
      ShapeCovers(nTransactions, height, pos);
      found := false;
      var p, end := pos * Pow2(height), (pos + 1) * Pow2(height);
      ghost var first, last := p, End(nTransactions, height, pos);
      while p < end && p < nTransactions
        invariant first <= p <= last <= nTransactions
        invariant found == exists q :: first <= q < p && vMatch[q]
      {
        found := found || vMatch[p];
        p := p + 1;
      }
    }

    /** `t` is the tree below the node. */
    method TraverseAndBuild(height: nat, pos: nat, vTxid: seq<Hash>, vMatch: seq<bool>, ghost t: Shape)
      returns (ghost b: Encoded)
      requires |vTxid| == |vMatch| == nTransactions && IsNode(nTransactions, height, pos)
      requires t == ShapeOf(nTransactions, height, pos) && t.Ordered() && t.Hi() <= nTransactions
      modifies this`vBits, this`vHash
      ensures b == Build(hs, vTxid, vMatch, t)
      ensures vBits == old(vBits) + b.bits && vHash == old(vHash) + b.hashes
      decreases height, 1
    {
      var fParentOfMatch := ParentOfMatch(height, pos, vMatch);
      vBits := vBits + [fParentOfMatch];
      if height == 0 || !fParentOfMatch {
        var hash := CalcHash(hs, vTxid, height, pos);
        CalcHashOfShape(hs, vTxid, height, pos, t);
        vHash := vHash + [hash];
        b := Encoded([fParentOfMatch], [hash]);
      } else {
        b := BuildSubtrees(height, pos, vTxid, vMatch, t);
        b := b.(bits := [true] + b.bits);
      }
    }

    method BuildSubtrees(height: nat, pos: nat, vTxid: seq<Hash>, vMatch: seq<bool>, ghost t: Shape)
      returns (ghost b: Encoded)
      requires |vTxid| == |vMatch| == nTransactions && IsNode(nTransactions, height, pos) && height > 0
      requires t == ShapeOf(nTransactions, height, pos) && t.Ordered() && t.Hi() <= nTransactions
               && MatchBelow(vMatch, t)
      modifies this`vBits, this`vHash
      ensures b.(bits := [true] + b.bits) == Build(hs, vTxid, vMatch, t)
      ensures vBits == old(vBits) + b.bits && vHash == old(vHash) + b.hashes
      decreases height, 0
    {
      Children(nTransactions, height, pos);
      if pos * 2 + 1 < Width(nTransactions, height - 1) {
        RangeIsNonempty(t.right);
        ghost var x := TraverseAndBuild(height - 1, pos * 2, vTxid, vMatch, t.left);
        ghost var y := TraverseAndBuild(height - 1, pos * 2 + 1, vTxid, vMatch, t.right);
        b := Encoded(x.bits + y.bits, x.hashes + y.hashes);
        BuildOfTwo(hs, vTxid, vMatch, t, x, y);
        ConcatMoves(old(vBits), x.bits, y.bits);
        ConcatMoves(old(vHash), x.hashes, y.hashes);
      } else {
        b := TraverseAndBuild(height - 1, pos * 2, vTxid, vMatch, t.child);
        BuildOfOne(hs, vTxid, vMatch, t, b);
      }
    }

    /** `t` is the tree below the node, and `d` what decoding it yields. */
    method TraverseAndExtract(height: nat, pos: nat, nBitsUsed: nat, nHashUsed: nat, vMatch: seq<Hash>,
                              vnIndex: seq<nat>, ghost t: Shape)
      returns (hash: Hash, nBits: nat, nHash: nat, vMatch': seq<Hash>, vnIndex': seq<nat>, ghost d: Decoded)
      requires IsNode(nTransactions, height, pos) && t == ShapeOf(nTransactions, height, pos)
      modifies this`fBad
      ensures d == Extract(hs, Encoding(), t, nBitsUsed, nHashUsed)
      ensures hash == d.hash && nBits == d.nBits && nHash == d.nHash && fBad == (old(fBad) || d.bad)
      ensures vMatch' == vMatch + Hashes(d.found) && vnIndex' == vnIndex + Positions(d.found)
      decreases height, 1
    {
      d := Extract(hs, Encoding(), t, nBitsUsed, nHashUsed);
      if nBitsUsed >= |vBits| {
        fBad := true;
        return hs.zero, nBitsUsed, nHashUsed, vMatch, vnIndex, d;
      }
      var fParentOfMatch := vBits[nBitsUsed];
      if height == 0 || !fParentOfMatch {
        if nHashUsed >= |vHash| {
          fBad := true;
          return hs.zero, nBitsUsed + 1, nHashUsed, vMatch, vnIndex, d;
        }
        hash, nBits, nHash, vMatch', vnIndex' := vHash[nHashUsed], nBitsUsed + 1, nHashUsed + 1, vMatch, vnIndex;
        if height == 0 && fParentOfMatch {
          vMatch', vnIndex' := vMatch + [hash], vnIndex + [pos];
        }
      } else {
        hash, nBits, nHash, vMatch', vnIndex', d :=
          ExtractSubtrees(height, pos, nBitsUsed, nHashUsed, vMatch, vnIndex, t);
      }
    }

    method ExtractSubtrees(height: nat, pos: nat, nBitsUsed: nat, nHashUsed: nat, vMatch: seq<Hash>, vnIndex: seq<nat>,
                           ghost t: Shape)
      returns (hash: Hash, nBits: nat, nHash: nat, vMatch': seq<Hash>, vnIndex': seq<nat>, ghost d: Decoded)
      requires IsNode(nTransactions, height, pos) && t == ShapeOf(nTransactions, height, pos) && height > 0
      requires nBitsUsed < |vBits| && vBits[nBitsUsed]
      modifies this`fBad
      ensures d == Extract(hs, Encoding(), t, nBitsUsed, nHashUsed)
      ensures hash == d.hash && nBits == d.nBits && nHash == d.nHash && fBad == (old(fBad) || d.bad)
      ensures vMatch' == vMatch + Hashes(d.found) && vnIndex' == vnIndex + Positions(d.found)
      decreases height, 0
    {
      Children(nTransactions, height, pos);
      var left, right;
      if pos * 2 + 1 < Width(nTransactions, height - 1) {
        ghost var l, r;
        left, nBits, nHash, vMatch', vnIndex', l :=
          TraverseAndExtract(height - 1, pos * 2, nBitsUsed + 1, nHashUsed, vMatch, vnIndex, t.left);
        right, nBits, nHash, vMatch', vnIndex', r :=
          TraverseAndExtract(height - 1, pos * 2 + 1, nBits, nHash, vMatch', vnIndex', t.right);
        FoundConcat(vMatch, vnIndex, l.found, r.found);
        d := Decoded(hs.Pair(l.hash, r.hash), r.nBits, r.nHash, l.found + r.found, l.bad || r.bad || r.hash == l.hash);
        if right == left {
          fBad := true;
        }
      } else {
        left, nBits, nHash, vMatch', vnIndex', d :=
          TraverseAndExtract(height - 1, pos * 2, nBitsUsed + 1, nHashUsed, vMatch, vnIndex, t.child);
        right := left;
        d := d.(hash := hs.Pair(d.hash, d.hash));
      }
      hash := hs.Pair(left, right);
    }

    /** The root, or the zero hash when anything is wrong. Matched hashes start afresh; positions are appended. */
    method ExtractMatches(vnIndex: seq<nat>, ghost h: nat) returns (root: Hash, vMatch: seq<Hash>, vnIndex': seq<nat>)
      requires IsHeight(nTransactions, h)
      modifies this`fBad
      ensures !Plausible(nTransactions, Encoding()) ==> root == hs.zero && vMatch == [] && vnIndex' == vnIndex
      ensures Plausible(nTransactions, Encoding()) ==>
                && IsNode(nTransactions, h, 0)
                && var d := Extract(hs, Encoding(), ShapeOf(nTransactions, h, 0), 0, 0);
                   && root == (if Clean(Encoding(), d) && !old(fBad) then d.hash else hs.zero)
                   && vMatch == Hashes(d.found) && vnIndex' == vnIndex + Positions(d.found)
    {
      vMatch, vnIndex', root := [], vnIndex, hs.zero;
      if nTransactions == 0 || nTransactions > MAX_BLOCK_WEIGHT / MIN_TRANSACTION_WEIGHT {
        return;
      }
      if |vHash| > nTransactions || |vBits| < |vHash| {
        return;
      }
      var nHeight := TreeHeight(nTransactions);
      HeightIsUnique(nTransactions, h, nHeight);
      var nBitsUsed, nHashUsed, hashMerkleRoot;
      ghost var d;
      hashMerkleRoot, nBitsUsed, nHashUsed, vMatch, vnIndex', d :=
        TraverseAndExtract(nHeight, 0, 0, 0, [], vnIndex, ShapeOf(nTransactions, nHeight, 0));
      if fBad {
        return;
      }
      if (nBitsUsed + 7) / 8 != (|vBits| + 7) / 8 {
        return;
      }
      if nHashUsed != |vHash| {
        return;
      }
      root := hashMerkleRoot;
    }
  }

  // ----- whole-tree results

  /** Extraction succeeds with this root, and finds exactly the flagged transactions. */
  ghost predicate Extracts(hs: Hasher, txids: seq<Hash>, match_: seq<bool>, t: Shape, e: Encoded, root: Hash) {
    && Plausible(|txids|, e) && |txids| == |match_|
    && var d := Extract(hs, e, t, 0, 0);
       Clean(e, d) && d.hash == root && d.found == Flagged(txids, match_, 0, |txids|)
  }

  lemma BuiltShapesExtract(hs: Hasher, txids: seq<Hash>, match_: seq<bool>, t: Shape, b: Encoded, padding: seq<bool>)
    requires hs.Injective() && Distinct(txids) && |txids| == |match_|
    requires 0 < |txids| <= MAX_BLOCK_WEIGHT / MIN_TRANSACTION_WEIGHT
    requires t.Ordered() && t.Lo() == 0 && t.Hi() == |txids| && b == Build(hs, txids, match_, t)
    requires (|b.bits| + 7) / 8 == (|b.bits + padding| + 7) / 8
    ensures Extracts(hs, txids, match_, t, Encoded(b.bits + padding, b.hashes), TreeHash(hs, txids, t))
  {
    var e := Encoded(b.bits + padding, b.hashes);
    BuildIsSmall(hs, txids, match_, t);
    assert At(b.bits, e.bits, 0) && At(b.hashes, e.hashes, 0);
    ExtractUndoesBuild(hs, txids, match_, t, e, 0, 0);
    DistinctHaveNoTwins(hs, txids, match_, t);
  }

  /** A tree over transactions that are twins somewhere above a flagged one is refused. */
  lemma TwinsAreRefused(hs: Hasher, txids: seq<Hash>, match_: seq<bool>, t: Shape, b: Encoded, padding: seq<bool>)
    requires t.Ordered() && t.Lo() == 0 && t.Hi() == |txids| == |match_| && b == Build(hs, txids, match_, t)
    requires Twins(hs, txids, match_, t)
    ensures var e := Encoded(b.bits + padding, b.hashes); !Clean(e, Extract(hs, e, t, 0, 0))
  {
    var e := Encoded(b.bits + padding, b.hashes);
    RangeIsNonempty(t);
    assert At(b.bits, e.bits, 0) && At(b.hashes, e.hashes, 0);
    ExtractUndoesBuild(hs, txids, match_, t, e, 0, 0);
  }

  /** Extracting from a tree built over distinct transactions returns the Merkle root and exactly the flagged
      transactions with their positions in order; padding the bits to whole bytes makes no difference. */
  lemma BuiltTreesExtract(hs: Hasher, txids: seq<Hash>, match_: seq<bool>, h: nat, b: Encoded, padding: seq<bool>)
    requires hs.Injective() && Distinct(txids) && |txids| == |match_|
    requires 0 < |txids| <= MAX_BLOCK_WEIGHT / MIN_TRANSACTION_WEIGHT
    requires IsHeight(|txids|, h) && IsNode(|txids|, h, 0)
    requires var t := ShapeOf(|txids|, h, 0);
             t.Ordered() && t.Hi() <= |txids| && b == Build(hs, txids, match_, t)
    requires (|b.bits| + 7) / 8 == (|b.bits + padding| + 7) / 8
    ensures Extracts(hs, txids, match_, ShapeOf(|txids|, h, 0), Encoded(b.bits + padding, b.hashes),
                     MerkleRoot(hs, txids))
  {
    WholeTree(|txids|, h);
    BuiltShapesExtract(hs, txids, match_, ShapeOf(|txids|, h, 0), b, padding);
    TreeHashIsRoot(hs, txids, h);
  }

  /** Any partial tree, however made, that extracts to the root of a list reports only true positions of that list. */
  lemma ExtractionsAreTrue(hs: Hasher, txids: seq<Hash>, h: nat, e: Encoded)
    requires hs.Injective() && IsHeight(|txids|, h) && IsNode(|txids|, h, 0)
    requires var d := Extract(hs, e, ShapeOf(|txids|, h, 0), 0, 0); Clean(e, d) && d.hash == MerkleRoot(hs, txids)
    ensures AllTrue(txids, Extract(hs, e, ShapeOf(|txids|, h, 0), 0, 0).found, 0, |txids|)
  {
    WholeTree(|txids|, h);
    TreeHashIsRoot(hs, txids, h);
    ExtractIsSound(hs, txids, e, ShapeOf(|txids|, h, 0), 0, 0);
  }

  // ----- packing of the flag bits

  function BytesToBits(bytes: seq<bv8>): (bits: seq<bool>)
    ensures |bits| == 8 * |bytes|
    ensures forall p :: 0 <= p < |bits| ==> bits[p] == HasBit(bytes[p / 8], p % 8)
  {
    seq(8 * |bytes|, p requires 0 <= p < 8 * |bytes| => HasBit(bytes[p / 8], p % 8))
  }

  lemma SameBits(x: bv8, y: bv8)
    requires forall k :: 0 <= k < 8 ==> HasBit(x, k) == HasBit(y, k)
    ensures x == y
  {
    assert HasBit(x, 0) == HasBit(y, 0) && HasBit(x, 1) == HasBit(y, 1);
    assert HasBit(x, 2) == HasBit(y, 2) && HasBit(x, 3) == HasBit(y, 3);
    assert HasBit(x, 4) == HasBit(y, 4) && HasBit(x, 5) == HasBit(y, 5);
    assert HasBit(x, 6) == HasBit(y, 6) && HasBit(x, 7) == HasBit(y, 7);
  }

  /** Different bytes unpack to different bits. */
  lemma BytesToBitsIsInjective(a: seq<bv8>, b: seq<bv8>)
    requires BytesToBits(a) == BytesToBits(b)
    ensures a == b
  {
    assert |a| == |b|;
    forall i | 0 <= i < |a|
      ensures a[i] == b[i]
    {
      forall k | 0 <= k < 8
        ensures HasBit(a[i], k) == HasBit(b[i], k)
      {
        assert (8 * i + k) / 8 == i && (8 * i + k) % 8 == k;
        assert BytesToBits(a)[8 * i + k] == BytesToBits(b)[8 * i + k];
      }
      SameBits(a[i], b[i]);
    }
  }

  predicate BitAt(bytes: seq<bv8>, q: nat)
    requires q < 8 * |bytes|
  {
    HasBit(bytes[q / 8], q % 8)
  }

  /** The first p bits are packed, and all others are zero. */
  ghost predicate PackedTo(bytes: seq<bv8>, bits: seq<bool>, p: nat) {
    && |bytes| == (|bits| + 7) / 8 && p <= |bits|
    && forall q :: 0 <= q < 8 * |bytes| ==> BitAt(bytes, q) == (q < p && bits[q])
  }

  lemma PackOne(bytes: seq<bv8>, bits: seq<bool>, p: nat)
    requires PackedTo(bytes, bits, p) && p < |bits|
    ensures PackedTo(if bits[p] then bytes[p / 8 := bytes[p / 8] | Mask(p % 8)] else bytes, bits, p + 1)
  {
    if bits[p] {
      var bytes' := bytes[p / 8 := bytes[p / 8] | Mask(p % 8)];
      forall q | 0 <= q < 8 * |bytes|
        ensures BitAt(bytes', q) == (q == p || BitAt(bytes, q))
      {
        SetBit(bytes[p / 8], p % 8, q % 8);
      }
    }
  }

  /** Packed bits unpack to themselves and zeros, and if they came from bytes, these are the bytes. */
  lemma PackedUnpacks(bytes: seq<bv8>, bits: seq<bool>)
    requires PackedTo(bytes, bits, |bits|)
    ensures BytesToBits(bytes)[..|bits|] == bits
    ensures forall p :: |bits| <= p < 8 * |bytes| ==> !BytesToBits(bytes)[p]
    ensures forall other :: BytesToBits(other) == bits ==> bytes == other
  {
    forall p | 0 <= p < 8 * |bytes|
      ensures BytesToBits(bytes)[p] == (p < |bits| && bits[p])
    {
      assert BitAt(bytes, p) == (p < |bits| && bits[p]);
    }
    forall other | BytesToBits(other) == bits
      ensures bytes == other
    {
      assert BytesToBits(bytes) == bits;
      BytesToBitsIsInjective(bytes, other);
    }
  }

  lemma NonePacked(bytes: seq<bv8>, bits: seq<bool>)
    requires |bytes| == (|bits| + 7) / 8 && forall i :: 0 <= i < |bytes| ==> bytes[i] == 0
    ensures PackedTo(bytes, bits, 0)
  {
  }

  /**
   * Packs least significant bit first; unpacking returns the bits, padded with zeros to a whole byte,
   * and packing what was unpacked returns the bytes.
   */
  method BitsToBytes(bits: seq<bool>) returns (ret: seq<bv8>)
    ensures |ret| == (|bits| + 7) / 8
    ensures BytesToBits(ret)[..|bits|] == bits
    ensures forall p :: |bits| <= p < 8 * |ret| ==> !BytesToBits(ret)[p]
    ensures forall bytes :: BytesToBits(bytes) == bits ==> ret == bytes
  {
    ret := seq((|bits| + 7) / 8, i => 0 as bv8);
    NonePacked(ret, bits);
    for p := 0 to |bits|
      invariant PackedTo(ret, bits, p)
    {
      PackOne(ret, bits, p);
      if bits[p] {
        ret := ret[p / 8 := ret[p / 8] | Mask(p % 8)];
      }
    }
    PackedUnpacks(ret, bits);
  }

  lemma PrefixAndRest<T>(a: seq<T>, b: seq<T>)
    requires a <= b
    ensures a + b[|a|..] == b
  {
  }

  /** What the flag bytes carry is the bits and some padding, within the same number of bytes. */
  lemma PackedTreesExtract(hs: Hasher, txids: seq<Hash>, match_: seq<bool>, h: nat, b: Encoded, bytes: seq<bv8>)
    requires hs.Injective() && Distinct(txids) && |txids| == |match_|
    requires 0 < |txids| <= MAX_BLOCK_WEIGHT / MIN_TRANSACTION_WEIGHT
    requires IsHeight(|txids|, h) && IsNode(|txids|, h, 0)
    requires var t := ShapeOf(|txids|, h, 0);
             t.Ordered() && t.Hi() <= |txids| && b == Build(hs, txids, match_, t)
    requires |bytes| == (|b.bits| + 7) / 8 && b.bits <= BytesToBits(bytes)
    ensures Extracts(hs, txids, match_, ShapeOf(|txids|, h, 0), Encoded(BytesToBits(bytes), b.hashes),
                     MerkleRoot(hs, txids))
  {
    var bits := BytesToBits(bytes);
    var padding := bits[|b.bits|..];
    PrefixAndRest(b.bits, bits);
    BuiltTreesExtract(hs, txids, match_, h, b, padding);
  }

  /**
   * A partial tree over distinct transactions, written out as a count, hashes and flag bytes and read
   * back, extracts to the Merkle root of all of them and to exactly the flagged ones with their positions.
   */
  method SendAndExtract(hs: Hasher, vTxid: seq<Hash>, vMatch: seq<bool>)
    returns (root: Hash, matched: seq<Hash>, positions: seq<nat>)
    requires hs.Injective() && Distinct(vTxid) && |vTxid| == |vMatch|
    requires 0 < |vTxid| <= MAX_BLOCK_WEIGHT / MIN_TRANSACTION_WEIGHT
    ensures root == MerkleRoot(hs, vTxid)
    ensures matched == Hashes(Flagged(vTxid, vMatch, 0, |vTxid|))
    ensures positions == Positions(Flagged(vTxid, vMatch, 0, |vTxid|))
  {
    var sent := new PartialMerkleTree.FromTransactions(hs, vTxid, vMatch);
    ghost var h :| IsHeight(|vTxid|, h) && IsNode(|vTxid|, h, 0) &&
                   var t := ShapeOf(|vTxid|, h, 0);
                   t.Ordered() && t.Hi() <= |vTxid| && sent.Encoding() == Build(hs, vTxid, vMatch, t);
    var bytes := BitsToBytes(sent.vBits);
    PackedTreesExtract(hs, vTxid, vMatch, h, sent.Encoding(), bytes);
    var received := new PartialMerkleTree.FromStream(hs, sent.nTransactions, sent.vHash, bytes);
    root, matched, positions := received.ExtractMatches([], h);
  }
}
