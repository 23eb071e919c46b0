/**
 Partial Merkle trees (BIP 37, section "Partial Merkle branch format") as values:
 the full tree, the pruned depth-first encoding and its decoding.
 */
module MerkleTree {
  import opened Basics

  type Hash(==, !new)

  /** The hash of a pair of hashes, as an arbitrary table. */
  datatype Hasher = Hasher(pairs: imap<(Hash, Hash), Hash>, other: Hash, zero: Hash) {
    function Pair(l: Hash, r: Hash): Hash {
      if (l, r) in pairs then pairs[(l, r)] else other
    }

    ghost predicate Injective() {
      forall a, b, c, d :: Pair(a, b) == Pair(c, d) ==> a == c && b == d
    }
  }

  /** A tree over consecutive leaf positions; `One` is a node without right child. */
  datatype Shape = Leaf(pos: nat) | One(child: Shape) | Two(left: Shape, right: Shape) {
    function Lo(): nat {
      match this case Leaf(p) => p case One(c) => c.Lo() case Two(l, _) => l.Lo()
    }

    function Hi(): nat {
      match this case Leaf(p) => p + 1 case One(c) => c.Hi() case Two(_, r) => r.Hi()
    }

    function Height(): nat {
      match this case Leaf(_) => 0 case One(c) => 1 + c.Height() case Two(l, _) => 1 + l.Height()
    }

    /** Leaves are numbered from left to right without gaps, and subtrees of one node are equally high. */
    ghost predicate Ordered() {
      match this
      case Leaf(_) => true
      case One(c) => c.Ordered()
      case Two(l, r) => l.Ordered() && r.Ordered() && l.Hi() == r.Lo() && l.Height() == r.Height()
    }
  }

  lemma {:induction false} RangeIsNonempty(t: Shape)
    requires t.Ordered()
    ensures t.Lo() < t.Hi()
  {
    match t
    case Leaf(_) =>
    case One(c) => RangeIsNonempty(c);
    case Two(l, r) => RangeIsNonempty(l); RangeIsNonempty(r);
  }

  /** The hash of a node; a node without right child repeats its left child. */
  ghost function TreeHash(hs: Hasher, txids: seq<Hash>, t: Shape): Hash
    requires t.Ordered() && t.Hi() <= |txids|
  {
    match t
    case Leaf(p) => txids[p]
    case One(c) => hs.Pair(TreeHash(hs, txids, c), TreeHash(hs, txids, c))
    case Two(l, r) => RangeIsNonempty(r); hs.Pair(TreeHash(hs, txids, l), TreeHash(hs, txids, r))
  }

  /** Some leaf below the node is flagged. */
  ghost predicate MatchBelow(match_: seq<bool>, t: Shape) {
    exists p :: t.Lo() <= p < t.Hi() && p < |match_| && match_[p]
  }

  datatype Encoded = Encoded(bits: seq<bool>, hashes: seq<Hash>)

  /** The depth-first encoding of a subtree, pruned below nodes without a flagged leaf. */
  ghost function Build(hs: Hasher, txids: seq<Hash>, match_: seq<bool>, t: Shape): Encoded
    requires t.Ordered() && t.Hi() <= |txids| == |match_|
  {
    var m := MatchBelow(match_, t);
    if t.Leaf? || !m then Encoded([m], [TreeHash(hs, txids, t)])
    else match t
      case One(c) =>
        var b := Build(hs, txids, match_, c);
        Encoded([m] + b.bits, b.hashes)
      case Two(l, r) =>
        RangeIsNonempty(r);
        var b, b' := Build(hs, txids, match_, l), Build(hs, txids, match_, r);
        Encoded([m] + b.bits + b'.bits, b.hashes + b'.hashes)
  }

  /** The subtrees whose hashes are sent: flagged leaves, and subtrees without a flagged leaf. */
  ghost function Parts(match_: seq<bool>, t: Shape): seq<Shape> {
    if t.Leaf? || !MatchBelow(match_, t) then [t]
    else match t
      case One(c) => Parts(match_, c)
      case Two(l, r) => Parts(match_, l) + Parts(match_, r)
  }

  /** Subtrees next to each other, from left to right. */
  ghost predicate Tiles(parts: seq<Shape>, lo: nat, hi: nat) {
    && parts != [] && parts[0].Lo() == lo && parts[|parts| - 1].Hi() == hi
    && forall k :: 0 < k < |parts| ==> parts[k - 1].Hi() == parts[k].Lo()
  }

  ghost predicate HashesOf(hs: Hasher, txids: seq<Hash>, match_: seq<bool>, parts: seq<Shape>, hashes: seq<Hash>) {
    && |hashes| == |parts|
    && forall k :: 0 <= k < |parts| ==> IsPart(hs, txids, match_, parts[k], hashes[k])
  }

  ghost predicate IsPart(hs: Hasher, txids: seq<Hash>, match_: seq<bool>, p: Shape, hash: Hash) {
    && p.Ordered() && p.Hi() <= |txids| && hash == TreeHash(hs, txids, p)
    && (p.Leaf? || !MatchBelow(match_, p))
  }

  lemma TilesConcat(a: seq<Shape>, b: seq<Shape>, lo: nat, mid: nat, hi: nat)
    requires Tiles(a, lo, mid) && Tiles(b, mid, hi)
    ensures Tiles(a + b, lo, hi)
  {
  }

  lemma {:induction false} PartsTile(match_: seq<bool>, t: Shape)
    requires t.Ordered()
    ensures Tiles(Parts(match_, t), t.Lo(), t.Hi())
  {
    if !t.Leaf? && MatchBelow(match_, t) {
      match t
      case One(c) => PartsTile(match_, c);
      case Two(l, r) =>
        PartsTile(match_, l);
        PartsTile(match_, r);
        TilesConcat(Parts(match_, l), Parts(match_, r), l.Lo(), l.Hi(), r.Hi());
    }
  }

  lemma HashesConcat(hs: Hasher, txids: seq<Hash>, match_: seq<bool>, a: seq<Shape>, x: seq<Hash>, b: seq<Shape>,
                     y: seq<Hash>)
    requires HashesOf(hs, txids, match_, a, x) && HashesOf(hs, txids, match_, b, y)
    ensures HashesOf(hs, txids, match_, a + b, x + y)
  {
    forall k | 0 <= k < |a + b|
      ensures IsPart(hs, txids, match_, (a + b)[k], (x + y)[k])
    {
      if k >= |a| {
        assert IsPart(hs, txids, match_, b[k - |a|], y[k - |a|]);
      }
    }
  }

  /** The hashes of an encoding belong to subtrees that cover the leaves from left to right. */
  lemma {:induction false} BuildTiles(hs: Hasher, txids: seq<Hash>, match_: seq<bool>, t: Shape)
    requires t.Ordered() && t.Hi() <= |txids| == |match_|
    ensures Tiles(Parts(match_, t), t.Lo(), t.Hi())
    ensures HashesOf(hs, txids, match_, Parts(match_, t), Build(hs, txids, match_, t).hashes)
  {
    PartsTile(match_, t);
    if !t.Leaf? && MatchBelow(match_, t) {
      match t
      case One(c) => BuildTiles(hs, txids, match_, c);
      case Two(l, r) =>
        RangeIsNonempty(r);
        BuildTiles(hs, txids, match_, l);
        BuildTiles(hs, txids, match_, r);
        HashesConcat(hs, txids, match_, Parts(match_, l), Build(hs, txids, match_, l).hashes,
                     Parts(match_, r), Build(hs, txids, match_, r).hashes);
    }
  }

  lemma BuildOfTwo(hs: Hasher, txids: seq<Hash>, match_: seq<bool>, t: Shape, x: Encoded, y: Encoded)
    requires t.Two? && t.Ordered() && t.left.Hi() <= t.Hi() <= |txids| == |match_| && MatchBelow(match_, t)
    requires x == Build(hs, txids, match_, t.left) && y == Build(hs, txids, match_, t.right)
    ensures Build(hs, txids, match_, t) == Encoded([true] + (x.bits + y.bits), x.hashes + y.hashes)
  {
    assert [true] + (x.bits + y.bits) == [true] + x.bits + y.bits;
  }

  lemma BuildOfOne(hs: Hasher, txids: seq<Hash>, match_: seq<bool>, t: Shape, x: Encoded)
    requires t.One? && t.Ordered() && t.Hi() <= |txids| == |match_| && MatchBelow(match_, t)
    requires x == Build(hs, txids, match_, t.child)
    ensures Build(hs, txids, match_, t) == Encoded([true] + x.bits, x.hashes)
  {
  }

  lemma ConcatMoves<T>(a: seq<T>, b: seq<T>, c: seq<T>)
    ensures a + b + c == a + (b + c)
  {
  }

  /** What decoding a subtree yields: its hash, the counters after it, what it found and whether anything was wrong. */
  datatype Decoded = Decoded(hash: Hash, nBits: nat, nHash: nat, found: seq<(Hash, nat)>, bad: bool)

  ghost function Extract(hs: Hasher, e: Encoded, t: Shape, nBits: nat, nHash: nat): Decoded {
    if nBits >= |e.bits| then Decoded(hs.zero, nBits, nHash, [], true)
    else
      var m := e.bits[nBits];
      if t.Leaf? || !m then
        if nHash >= |e.hashes| then Decoded(hs.zero, nBits + 1, nHash, [], true)
        else
          var found := if t.Leaf? && m then [(e.hashes[nHash], t.pos)] else [];
          Decoded(e.hashes[nHash], nBits + 1, nHash + 1, found, false)
      else match t
        case One(c) =>
          var d := Extract(hs, e, c, nBits + 1, nHash);
          d.(hash := hs.Pair(d.hash, d.hash))
        case Two(l, r) =>
          var d := Extract(hs, e, l, nBits + 1, nHash);
          var d' := Extract(hs, e, r, d.nBits, d.nHash);
          Decoded(hs.Pair(d.hash, d'.hash), d'.nBits, d'.nHash, d.found + d'.found,
                  d.bad || d'.bad || d'.hash == d.hash)
  }

  // ----- what comes out of what went in

  /** The flagged transactions at positions lo..hi, in order. */
  ghost function Flagged(txids: seq<Hash>, match_: seq<bool>, lo: nat, hi: nat): seq<(Hash, nat)>
    requires lo <= hi <= |txids| == |match_|
    decreases hi - lo
  {
    if lo == hi then []
    else (if match_[lo] then [(txids[lo], lo)] else []) + Flagged(txids, match_, lo + 1, hi)
  }

  lemma {:induction false} FlaggedConcat(txids: seq<Hash>, match_: seq<bool>, lo: nat, mid: nat, hi: nat)
    requires lo <= mid <= hi <= |txids| == |match_|
    ensures Flagged(txids, match_, lo, hi) == Flagged(txids, match_, lo, mid) + Flagged(txids, match_, mid, hi)
    decreases mid - lo
  {
    if lo < mid {
      FlaggedConcat(txids, match_, lo + 1, mid, hi);
    }
  }

  lemma {:induction false} FlaggedNone(txids: seq<Hash>, match_: seq<bool>, lo: nat, hi: nat)
    requires lo <= hi <= |txids| == |match_|
    requires forall p :: lo <= p < hi ==> !match_[p]
    ensures Flagged(txids, match_, lo, hi) == []
    decreases hi - lo
  {
    if lo < hi {
      FlaggedNone(txids, match_, lo + 1, hi);
    }
  }

  lemma {:induction false} EqualHashesEqualFirst(hs: Hasher, txids: seq<Hash>, t: Shape, u: Shape)
    requires hs.Injective() && t.Ordered() && u.Ordered() && t.Hi() <= |txids| && u.Hi() <= |txids|
    requires t.Height() == u.Height() && TreeHash(hs, txids, t) == TreeHash(hs, txids, u)
    ensures t.Lo() < |txids| && u.Lo() < |txids| && txids[t.Lo()] == txids[u.Lo()]
    decreases t.Height()
  {
    if t.Leaf? {
    } else {
      var a := if t.One? then t.child else t.left;
      var b := if u.One? then u.child else u.left;
      if t.Two? { RangeIsNonempty(t.right); }
      if u.Two? { RangeIsNonempty(u.right); }
      EqualHashesEqualFirst(hs, txids, a, b);
    }
  }

  /** Over distinct transactions, the two children of a node have different hashes. */
  lemma SiblingsDiffer(hs: Hasher, txids: seq<Hash>, t: Shape)
    requires hs.Injective() && Distinct(txids) && t.Two? && t.Ordered() && t.Hi() <= |txids|
    ensures t.left.Hi() <= |txids| && TreeHash(hs, txids, t.left) != TreeHash(hs, txids, t.right)
  {
    RangeIsNonempty(t.left);
    RangeIsNonempty(t.right);
    if TreeHash(hs, txids, t.left) == TreeHash(hs, txids, t.right) {
      EqualHashesEqualFirst(hs, txids, t.left, t.right);
    }
  }

  /** `part` is found in `whole` from index `at` on. */
  ghost predicate At<T>(part: seq<T>, whole: seq<T>, at: nat) {
    at + |part| <= |whole| && forall k :: 0 <= k < |part| ==> part[k] == whole[at + k]
  }

  lemma AtSplit<T>(a: seq<T>, b: seq<T>, whole: seq<T>, at: nat)
    requires At(a + b, whole, at)
    ensures At(a, whole, at) && At(b, whole, at + |a|)
  {
    assert forall k :: 0 <= k < |a| ==> a[k] == (a + b)[k];
    assert forall k :: 0 <= k < |b| ==> b[k] == (a + b)[|a| + k];
  }

  /** The encoding of the subtree is what comes next. */
  ghost predicate Stands(hs: Hasher, txids: seq<Hash>, match_: seq<bool>, t: Shape, e: Encoded, nBits: nat, nHash: nat)
  {
    && t.Ordered() && t.Lo() < t.Hi() <= |txids| == |match_|
    && var b := Build(hs, txids, match_, t);
       At(b.bits, e.bits, nBits) && At(b.hashes, e.hashes, nHash)
  }

  /** Two children of a node above a flagged leaf have the same hash. */
  ghost predicate Twins(hs: Hasher, txids: seq<Hash>, match_: seq<bool>, t: Shape)
    requires t.Ordered() && t.Hi() <= |txids| == |match_|
  {
    MatchBelow(match_, t) &&
    match t
    case Leaf(_) => false
    case One(c) => Twins(hs, txids, match_, c)
    case Two(l, r) =>
      RangeIsNonempty(r);
      TreeHash(hs, txids, l) == TreeHash(hs, txids, r) || Twins(hs, txids, match_, l) || Twins(hs, txids, match_, r)
  }

  /** Different transactions have no such twins. */
  lemma {:induction false} DistinctHaveNoTwins(hs: Hasher, txids: seq<Hash>, match_: seq<bool>, t: Shape)
    requires hs.Injective() && Distinct(txids) && t.Ordered() && t.Hi() <= |txids| == |match_|
    ensures !Twins(hs, txids, match_, t)
  {
    match t
    case Leaf(_) =>
    case One(c) => DistinctHaveNoTwins(hs, txids, match_, c);
    case Two(l, r) =>
      RangeIsNonempty(r);
      SiblingsDiffer(hs, txids, t);
      DistinctHaveNoTwins(hs, txids, match_, l);
      DistinctHaveNoTwins(hs, txids, match_, r);
  }

  /** What decoding yields for a subtree whose encoding begins there; twins are refused. */
  ghost function Whole(hs: Hasher, txids: seq<Hash>, match_: seq<bool>, t: Shape, nBits: nat, nHash: nat): Decoded
    requires t.Ordered() && t.Lo() < t.Hi() <= |txids| == |match_|
  {
    var b := Build(hs, txids, match_, t);
    Decoded(TreeHash(hs, txids, t), nBits + |b.bits|, nHash + |b.hashes|, Flagged(txids, match_, t.Lo(), t.Hi()),
            Twins(hs, txids, match_, t))
  }

  /**
   * Decoding what comes next yields the hash of the subtree and its flagged leaves, reads its encoding exactly,
   * and finds fault only with twins.
   */
  ghost predicate Undone(hs: Hasher, txids: seq<Hash>, match_: seq<bool>, t: Shape, e: Encoded, nBits: nat, nHash: nat)
  {
    && t.Ordered() && t.Lo() < t.Hi() <= |txids| == |match_|
    && Extract(hs, e, t, nBits, nHash) == Whole(hs, txids, match_, t, nBits, nHash)
  }

  /** The parts of an encoding below a node with two children stand one after the other. */
  lemma AtBuildTwo(hs: Hasher, txids: seq<Hash>, match_: seq<bool>, t: Shape, e: Encoded, nBits: nat, nHash: nat)
    requires Stands(hs, txids, match_, t, e, nBits, nHash) && t.Two? && MatchBelow(match_, t)
    ensures t.left.Hi() <= |txids| && nBits < |e.bits| && e.bits[nBits]
    ensures Stands(hs, txids, match_, t.left, e, nBits + 1, nHash)
    ensures var x := Build(hs, txids, match_, t.left);
            Stands(hs, txids, match_, t.right, e, nBits + 1 + |x.bits|, nHash + |x.hashes|)
  {
    RangeIsNonempty(t.left);
    RangeIsNonempty(t.right);
    var x, y := Build(hs, txids, match_, t.left), Build(hs, txids, match_, t.right);
    AtSplit([true] + x.bits, y.bits, e.bits, nBits);
    AtSplit([true], x.bits, e.bits, nBits);
    assert [true][0] == e.bits[nBits];
    AtSplit(x.hashes, y.hashes, e.hashes, nHash);
  }

  lemma AtBuildOne(hs: Hasher, txids: seq<Hash>, match_: seq<bool>, t: Shape, e: Encoded, nBits: nat, nHash: nat)
    requires Stands(hs, txids, match_, t, e, nBits, nHash) && t.One? && MatchBelow(match_, t)
    ensures nBits < |e.bits| && e.bits[nBits]
    ensures Stands(hs, txids, match_, t.child, e, nBits + 1, nHash)
  {
    AtSplit([true], Build(hs, txids, match_, t.child).bits, e.bits, nBits);
    assert [true][0] == e.bits[nBits];
  }

  lemma ExtractPruned(hs: Hasher, txids: seq<Hash>, match_: seq<bool>, t: Shape, e: Encoded, nBits: nat, nHash: nat)
    requires Stands(hs, txids, match_, t, e, nBits, nHash) && (t.Leaf? || !MatchBelow(match_, t))
    ensures |Build(hs, txids, match_, t).bits| == |Build(hs, txids, match_, t).hashes| == 1
    ensures Extract(hs, e, t, nBits, nHash) ==
            Decoded(TreeHash(hs, txids, t), nBits + 1, nHash + 1, Flagged(txids, match_, t.Lo(), t.Hi()), false)
  {
    var m, b := MatchBelow(match_, t), Build(hs, txids, match_, t);
    assert e.bits[nBits] == b.bits[0] == m;
    assert e.hashes[nHash] == b.hashes[0];
    if !m {
      FlaggedNone(txids, match_, t.Lo(), t.Hi());
    }
  }

  lemma ExtractUndoesPruned(hs: Hasher, txids: seq<Hash>, match_: seq<bool>, t: Shape, e: Encoded, nBits: nat,
                            nHash: nat)
    requires Stands(hs, txids, match_, t, e, nBits, nHash) && (t.Leaf? || !MatchBelow(match_, t))
    ensures Undone(hs, txids, match_, t, e, nBits, nHash)
  {
    ExtractPruned(hs, txids, match_, t, e, nBits, nHash);
  }

  lemma ExtractTwo(hs: Hasher, e: Encoded, t: Shape, nBits: nat, nHash: nat, d: Decoded, d': Decoded)
    requires t.Two? && nBits < |e.bits| && e.bits[nBits]
    requires d == Extract(hs, e, t.left, nBits + 1, nHash) && d' == Extract(hs, e, t.right, d.nBits, d.nHash)
    ensures Extract(hs, e, t, nBits, nHash) ==
            Decoded(hs.Pair(d.hash, d'.hash), d'.nBits, d'.nHash, d.found + d'.found,
                    d.bad || d'.bad || d'.hash == d.hash)
  {
  }

  lemma BuildTwo(hs: Hasher, txids: seq<Hash>, match_: seq<bool>, t: Shape)
    requires t.Two? && t.Ordered() && t.Hi() <= |txids| == |match_| && MatchBelow(match_, t)
    ensures t.left.Hi() <= |txids|
    ensures TreeHash(hs, txids, t) == hs.Pair(TreeHash(hs, txids, t.left), TreeHash(hs, txids, t.right))
    ensures var x, y := Build(hs, txids, match_, t.left), Build(hs, txids, match_, t.right);
            var b := Build(hs, txids, match_, t);
            |b.bits| == 1 + |x.bits| + |y.bits| && |b.hashes| == |x.hashes| + |y.hashes|
  {
    RangeIsNonempty(t.right);
  }

  lemma TwinsTwo(hs: Hasher, txids: seq<Hash>, match_: seq<bool>, t: Shape)
    requires t.Two? && t.Ordered() && t.Hi() <= |txids| == |match_| && MatchBelow(match_, t)
    ensures t.left.Hi() <= |txids|
    ensures Twins(hs, txids, match_, t) <==>
            TreeHash(hs, txids, t.left) == TreeHash(hs, txids, t.right)
            || Twins(hs, txids, match_, t.left) || Twins(hs, txids, match_, t.right)
  {
    RangeIsNonempty(t.right);
  }

  /** What is yielded below a node with two children, put together. */
  lemma WholeTwo(hs: Hasher, txids: seq<Hash>, match_: seq<bool>, t: Shape, nBits: nat, nHash: nat, d: Decoded,
                 d': Decoded)
    requires t.Two? && t.Ordered() && t.Lo() < t.Hi() <= |txids| == |match_| && MatchBelow(match_, t)
    requires t.left.Lo() < t.left.Hi() <= |txids| && t.right.Lo() < t.right.Hi()
    requires d == Whole(hs, txids, match_, t.left, nBits + 1, nHash)
    requires d' == Whole(hs, txids, match_, t.right, d.nBits, d.nHash)
    ensures Whole(hs, txids, match_, t, nBits, nHash) ==
            Decoded(hs.Pair(d.hash, d'.hash), d'.nBits, d'.nHash, d.found + d'.found,
                    d.bad || d'.bad || d'.hash == d.hash)
  {
    BuildTwo(hs, txids, match_, t);
    TwinsTwo(hs, txids, match_, t);
    FlaggedConcat(txids, match_, t.Lo(), t.left.Hi(), t.Hi());
  }

  lemma JoinTwo(hs: Hasher, txids: seq<Hash>, match_: seq<bool>, t: Shape, e: Encoded, nBits: nat, nHash: nat,
                midBits: nat, midHash: nat)
    requires Stands(hs, txids, match_, t, e, nBits, nHash)
    requires t.Two? && MatchBelow(match_, t) && nBits < |e.bits| && e.bits[nBits]
    requires Undone(hs, txids, match_, t.left, e, nBits + 1, nHash)
    requires var x := Build(hs, txids, match_, t.left);
             midBits == nBits + 1 + |x.bits| && midHash == nHash + |x.hashes|
    requires Undone(hs, txids, match_, t.right, e, midBits, midHash)
    ensures Undone(hs, txids, match_, t, e, nBits, nHash)
  {
    var d, d' := Extract(hs, e, t.left, nBits + 1, nHash), Extract(hs, e, t.right, midBits, midHash);
    ExtractTwo(hs, e, t, nBits, nHash, d, d');
    WholeTwo(hs, txids, match_, t, nBits, nHash, d, d');
  }

  lemma JoinOne(hs: Hasher, txids: seq<Hash>, match_: seq<bool>, t: Shape, e: Encoded, nBits: nat, nHash: nat)
    requires Stands(hs, txids, match_, t, e, nBits, nHash)
    requires t.One? && MatchBelow(match_, t) && nBits < |e.bits| && e.bits[nBits]
    requires Undone(hs, txids, match_, t.child, e, nBits + 1, nHash)
    ensures Undone(hs, txids, match_, t, e, nBits, nHash)
  {
  }

  lemma {:induction false} ExtractUndoesOne(hs: Hasher, txids: seq<Hash>, match_: seq<bool>, t: Shape, e: Encoded,
                                            nBits: nat, nHash: nat)
    requires Stands(hs, txids, match_, t, e, nBits, nHash)
    requires t.One? && MatchBelow(match_, t)
    ensures Undone(hs, txids, match_, t, e, nBits, nHash)
    decreases t, 0
  {
    AtBuildOne(hs, txids, match_, t, e, nBits, nHash);
    ExtractUndoesBuild(hs, txids, match_, t.child, e, nBits + 1, nHash);
    JoinOne(hs, txids, match_, t, e, nBits, nHash);
  }

  lemma {:induction false} ExtractUndoesTwo(hs: Hasher, txids: seq<Hash>, match_: seq<bool>, t: Shape, e: Encoded,
                                            nBits: nat, nHash: nat)
    requires Stands(hs, txids, match_, t, e, nBits, nHash)
    requires t.Two? && MatchBelow(match_, t)
    ensures Undone(hs, txids, match_, t, e, nBits, nHash)
    decreases t, 0
  {
    AtBuildTwo(hs, txids, match_, t, e, nBits, nHash);
    var x := Build(hs, txids, match_, t.left);
    var midBits, midHash := nBits + 1 + |x.bits|, nHash + |x.hashes|;
    ExtractUndoesBuild(hs, txids, match_, t.left, e, nBits + 1, nHash);
    ExtractUndoesBuild(hs, txids, match_, t.right, e, midBits, midHash);
    JoinTwo(hs, txids, match_, t, e, nBits, nHash, midBits, midHash);
  }

  /** Decoding the encoding of a subtree, wherever it stands, yields its hash and its flagged leaves. */
  lemma {:induction false} ExtractUndoesBuild(hs: Hasher, txids: seq<Hash>, match_: seq<bool>, t: Shape, e: Encoded,
                                              nBits: nat, nHash: nat)
    requires Stands(hs, txids, match_, t, e, nBits, nHash)
    ensures Undone(hs, txids, match_, t, e, nBits, nHash)
    decreases t, 1
  {
    if t.Leaf? || !MatchBelow(match_, t) {
      ExtractUndoesPruned(hs, txids, match_, t, e, nBits, nHash);
    } else if t.One? {
      ExtractUndoesOne(hs, txids, match_, t, e, nBits, nHash);
    } else {
      ExtractUndoesTwo(hs, txids, match_, t, e, nBits, nHash);
    }
  }

  /** An encoding has no more hashes than leaves, and no fewer bits than hashes. */
  lemma {:induction false} BuildIsSmall(hs: Hasher, txids: seq<Hash>, match_: seq<bool>, t: Shape)
    requires t.Ordered() && t.Hi() <= |txids| == |match_|
    ensures var b := Build(hs, txids, match_, t); |b.hashes| <= t.Hi() - t.Lo() && |b.hashes| <= |b.bits|
  {
    RangeIsNonempty(t);
    match t
    case Leaf(_) =>
    case One(c) => BuildIsSmall(hs, txids, match_, c);
    case Two(l, r) =>
      RangeIsNonempty(r);
      BuildIsSmall(hs, txids, match_, l);
      BuildIsSmall(hs, txids, match_, r);
  }

  // ----- what any encoding can claim

  ghost predicate TrueAt(txids: seq<Hash>, f: (Hash, nat), lo: nat, hi: nat) {
    lo <= f.1 < hi && f.1 < |txids| && txids[f.1] == f.0
  }

  /** Reported transactions stand at their reported positions, all in lo..hi and in order. */
  ghost predicate AllTrue(txids: seq<Hash>, found: seq<(Hash, nat)>, lo: nat, hi: nat) {
    && (forall k :: 0 <= k < |found| ==> TrueAt(txids, found[k], lo, hi))
    && (forall j, k :: 0 <= j < k < |found| ==> found[j].1 < found[k].1)
  }

  lemma AllTrueConcat(txids: seq<Hash>, a: seq<(Hash, nat)>, b: seq<(Hash, nat)>, lo: nat, mid: nat, hi: nat)
    requires lo <= mid <= hi && AllTrue(txids, a, lo, mid) && AllTrue(txids, b, mid, hi)
    ensures AllTrue(txids, a + b, lo, hi)
  {
    forall k | 0 <= k < |a + b|
      ensures TrueAt(txids, (a + b)[k], lo, hi)
    {
      assert if k < |a| then TrueAt(txids, a[k], lo, mid) else TrueAt(txids, b[k - |a|], mid, hi);
    }
    forall j, k | 0 <= j < k < |a + b|
      ensures (a + b)[j].1 < (a + b)[k].1
    {
      assert if j < |a| then TrueAt(txids, a[j], lo, mid) else TrueAt(txids, b[j - |a|], mid, hi);
      assert if k < |a| then TrueAt(txids, a[k], lo, mid) else TrueAt(txids, b[k - |a|], mid, hi);
    }
  }

  ghost predicate IsFlagged(match_: seq<bool>, p: nat) { p < |match_| && match_[p] }

  lemma {:induction false} FlaggedAt(txids: seq<Hash>, match_: seq<bool>, lo: nat, hi: nat, k: nat)
    requires lo <= hi <= |txids| == |match_| && k < |Flagged(txids, match_, lo, hi)|
    ensures IsFlagged(match_, Flagged(txids, match_, lo, hi)[k].1)
    decreases hi - lo
  {
    if match_[lo] {
      if k > 0 {
        FlaggedAt(txids, match_, lo + 1, hi, k - 1);
      }
    } else {
      FlaggedAt(txids, match_, lo + 1, hi, k);
    }
  }

  lemma {:induction false} FlaggedHas(txids: seq<Hash>, match_: seq<bool>, lo: nat, hi: nat, p: nat)
    requires lo <= p < hi <= |txids| == |match_| && match_[p]
    ensures (txids[p], p) in Flagged(txids, match_, lo, hi)
    decreases hi - lo
  {
    if lo < p {
      FlaggedHas(txids, match_, lo + 1, hi, p);
    }
  }

  lemma {:induction false} FlaggedAreTrue(txids: seq<Hash>, match_: seq<bool>, lo: nat, hi: nat)
    requires lo <= hi <= |txids| == |match_|
    ensures AllTrue(txids, Flagged(txids, match_, lo, hi), lo, hi)
    decreases hi - lo
  {
    if lo < hi {
      FlaggedAreTrue(txids, match_, lo + 1, hi);
      var head := if match_[lo] then [(txids[lo], lo)] else [];
      AllTrueConcat(txids, head, Flagged(txids, match_, lo + 1, hi), lo, lo + 1, hi);
    }
  }

  /** The list of flagged transactions is in order and has those that are flagged, at their positions, and no others. */
  lemma FlaggedExactly(txids: seq<Hash>, match_: seq<bool>, f: seq<(Hash, nat)>)
    requires |txids| == |match_| && f == Flagged(txids, match_, 0, |txids|)
    ensures AllTrue(txids, f, 0, |txids|)
    ensures forall k :: 0 <= k < |f| ==> IsFlagged(match_, f[k].1)
    ensures forall p :: 0 <= p < |txids| && IsFlagged(match_, p) ==> (txids[p], p) in f
  {
    FlaggedAreTrue(txids, match_, 0, |txids|);
    forall k | 0 <= k < |f|
      ensures IsFlagged(match_, f[k].1)
    {
      FlaggedAt(txids, match_, 0, |txids|, k);
    }
    forall p | 0 <= p < |txids| && IsFlagged(match_, p)
      ensures (txids[p], p) in f
    {
      FlaggedHas(txids, match_, 0, |txids|, p);
    }
  }

  /** However an encoding was made, if it decodes to the hash of a node then what it reports below is true. */
  lemma {:induction false} ExtractIsSound(hs: Hasher, txids: seq<Hash>, e: Encoded, t: Shape, nBits: nat, nHash: nat)
    requires hs.Injective() && t.Ordered() && t.Hi() <= |txids|
    requires var d := Extract(hs, e, t, nBits, nHash); !d.bad && d.hash == TreeHash(hs, txids, t)
    ensures AllTrue(txids, Extract(hs, e, t, nBits, nHash).found, t.Lo(), t.Hi())
  {
    if !t.Leaf? && e.bits[nBits] {
      match t
      case One(c) => ExtractIsSound(hs, txids, e, c, nBits + 1, nHash);
      case Two(l, r) =>
        RangeIsNonempty(l);
        RangeIsNonempty(r);
        var x := Extract(hs, e, l, nBits + 1, nHash);
        var y := Extract(hs, e, r, x.nBits, x.nHash);
        ExtractIsSound(hs, txids, e, l, nBits + 1, nHash);
        ExtractIsSound(hs, txids, e, r, x.nBits, x.nHash);
        AllTrueConcat(txids, x.found, y.found, t.Lo(), l.Hi(), t.Hi());
    }
  }
}
