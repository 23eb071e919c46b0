/**
 Compact blocks as values: where prefilled transactions go, which position
 belongs to which short id, and what offered transactions do to the positions.
 */
module CompactBlocks {
  import opened Basics

  type Hash(==, !new)
  type Content(==, !new)

  const MAX_BLOCK_WEIGHT := 4000000
  const MIN_SERIALIZABLE_TRANSACTION_WEIGHT := 40
  const MAX_UINT16 := 0xffff

  datatype Tx = Tx(witnessHash: Hash, isNull: bool, content: Content)

  /** A transaction, at an offset from the one before it. */
  datatype Prefilled = Prefilled(index: nat, tx: Tx)

  /** The keyed short hash is an arbitrary table that goes with the block. */
  datatype CompactBlock = CompactBlock(headerIsNull: bool, hashes: imap<Hash, nat>, shortIds: seq<nat>,
                                       prefilled: seq<Prefilled>)
  {
    function GetShortID(h: Hash): nat { if h in hashes then hashes[h] else 0 }
    function BlockTxCount(): nat { |shortIds| + |prefilled| }
  }

  /** The compact form of a block: the first transaction in full, short ids for the others. */
  function Compact(hashes: imap<Hash, nat>, vtx: seq<Tx>): CompactBlock
    requires |vtx| > 0
  {
    var empty := CompactBlock(false, hashes, [], []);
    var ids := seq(|vtx| - 1, i requires 0 <= i < |vtx| - 1 => empty.GetShortID(vtx[i + 1].witnessHash));
    CompactBlock(false, hashes, ids, [Prefilled(0, vtx[0])])
  }

  // ----- free positions

  type Slots = seq<Option<Tx>>

  function Empty(n: nat): (a: Slots)
    ensures |a| == n && forall p :: 0 <= p < n ==> a[p] == None
  {
    seq(n, p => None)
  }

  /** How many positions are free. */
  ghost function Free(a: Slots): (n: nat)
    ensures n <= |a|
  {
    if a == [] then 0 else Free(a[..|a| - 1]) + if a[|a| - 1].None? then 1 else 0
  }

  lemma FreeAppend(a: Slots, o: Option<Tx>)
    ensures Free(a + [o]) == Free(a) + if o.None? then 1 else 0
  {
    assert (a + [o])[..|a|] == a;
  }

  lemma {:induction false} FreeOfEmpty(n: nat)
    ensures Free(Empty(n)) == n
  {
    if n > 0 {
      FreeOfEmpty(n - 1);
      assert Empty(n) == Empty(n - 1) + [None];
      FreeAppend(Empty(n - 1), None);
    }
  }

  lemma {:induction false} FreeAfterFill(a: Slots, p: nat, tx: Tx)
    requires p < |a| && a[p].None?
    ensures Free(a[p := Some(tx)]) == Free(a) - 1
  {
    var b, n := a[p := Some(tx)], |a| - 1;
    if p < n {
      FreeAfterFill(a[..n], p, tx);
      assert b[..n] == a[..n][p := Some(tx)];
    } else {
      assert b[..n] == a[..n];
    }
  }

  lemma {:induction false} FreeIsMonotone(a: Slots, p: nat, q: nat)
    requires p <= q <= |a|
    ensures Free(a[..p]) <= Free(a[..q])
    decreases q
  {
    if p < q {
      FreeIsMonotone(a, p, q - 1);
      assert a[..q] == a[..q - 1] + [a[q - 1]];
      FreeAppend(a[..q - 1], a[q - 1]);
    }
  }

  /** The position is free, and so many free ones come before it. */
  ghost predicate IsNthFree(a: Slots, n: nat, p: nat) {
    p < |a| && a[p].None? && Free(a[..p]) == n
  }

  lemma NthFreeIsUnique(a: Slots, n: nat, p: nat, q: nat)
    requires IsNthFree(a, n, p) && IsNthFree(a, n, q)
    ensures p == q
  {
    if p < q {
      NextFree(a, p, q);
    } else if q < p {
      NextFree(a, q, p);
    }
  }

  lemma NextFree(a: Slots, p: nat, q: nat)
    requires p < q <= |a| && a[p].None?
    ensures Free(a[..q]) > Free(a[..p])
  {
    assert a[..p + 1] == a[..p] + [a[p]];
    FreeAppend(a[..p], a[p]);
    FreeIsMonotone(a, p + 1, q);
  }

  // ----- prefilled transactions

  /** The position of a prefilled transaction: every offset counts from after the one before. */
  ghost function Place(prefilled: seq<Prefilled>, i: int): int
    requires i < |prefilled|
    decreases i
  {
    if i < 0 then -1 else Place(prefilled, i - 1) + prefilled[i].index + 1
  }

  ghost predicate WellPlaced(cb: CompactBlock, i: nat)
    requires i < |cb.prefilled|
  {
    && !cb.prefilled[i].tx.isNull
    && Place(cb.prefilled, i) <= MAX_UINT16 && Place(cb.prefilled, i) <= |cb.shortIds| + i
  }

  /** Every transaction that comes with the block has a place such that enough short ids lie before it. */
  ghost predicate AllWellPlaced(cb: CompactBlock) {
    forall i :: 0 <= i < |cb.prefilled| ==> WellPlaced(cb, i)
  }

  lemma {:induction false} PlacesAscend(prefilled: seq<Prefilled>, i: int, j: int)
    requires -1 <= i < j < |prefilled|
    ensures Place(prefilled, i) < Place(prefilled, j)
    decreases j
  {
    if i < j - 1 {
      PlacesAscend(prefilled, i, j - 1);
    }
  }

  /** The first n offsets, added up. */
  ghost function Offsets(prefilled: seq<Prefilled>, n: nat): nat
    requires n <= |prefilled|
  {
    if n == 0 then 0 else Offsets(prefilled, n - 1) + prefilled[n - 1].index
  }

  /** A place is the offsets so far and the transactions before. */
  lemma {:induction false} PlaceIsSum(prefilled: seq<Prefilled>, i: nat)
    requires i < |prefilled|
    ensures Place(prefilled, i) == Offsets(prefilled, i + 1) + i
  {
    if i > 0 {
      PlaceIsSum(prefilled, i - 1);
    }
  }

  lemma {:induction false} PlacesSpread(prefilled: seq<Prefilled>, i: nat, j: nat)
    requires i <= j < |prefilled|
    ensures Place(prefilled, i) + (j - i) <= Place(prefilled, j)
    decreases j
  {
    if i < j {
      PlacesSpread(prefilled, i, j - 1);
    }
  }

  /** A transaction that is there, at a place within the block that fits 16 bits. */
  ghost predicate Within(cb: CompactBlock, i: nat)
    requires i < |cb.prefilled|
  {
    && !cb.prefilled[i].tx.isNull
    && Offsets(cb.prefilled, i + 1) + i <= 65535
    && Offsets(cb.prefilled, i + 1) + i < |cb.shortIds| + |cb.prefilled|
  }

  lemma PlaceWithin(cb: CompactBlock, i: nat)
    requires i < |cb.prefilled|
    ensures var last := |cb.prefilled| - 1;
      && (WellPlaced(cb, i) && WellPlaced(cb, last) ==> Within(cb, i))
      && (Within(cb, i) && Within(cb, last) ==> WellPlaced(cb, i))
  {
    var last := |cb.prefilled| - 1;
    PlaceIsSum(cb.prefilled, i);
    PlaceIsSum(cb.prefilled, last);
    PlacesSpread(cb.prefilled, i, last);
  }

  /** The test against the short ids before a place says just that all places are within the block. */
  lemma WellPlacedIsWithin(cb: CompactBlock)
    ensures AllWellPlaced(cb) <==> forall i :: 0 <= i < |cb.prefilled| ==> Within(cb, i)
  {
    if cb.prefilled != [] {
      var last := |cb.prefilled| - 1;
      forall i | 0 <= i < |cb.prefilled|
        ensures WellPlaced(cb, i) && WellPlaced(cb, last) ==> Within(cb, i)
        ensures Within(cb, i) && Within(cb, last) ==> WellPlaced(cb, i)
      {
        PlaceWithin(cb, i);
      }
      if AllWellPlaced(cb) {
        assert WellPlaced(cb, last);
      }
    }
  }

  /** The first n prefilled transactions are at their places. */
  ghost predicate Present(cb: CompactBlock, n: nat, a: Slots)
    requires n <= |cb.prefilled|
  {
    forall i :: 0 <= i < n ==>
      0 <= Place(cb.prefilled, i) < |a| && a[Place(cb.prefilled, i)] == Some(cb.prefilled[i].tx)
  }

  ghost predicate IsPlace(cb: CompactBlock, n: nat, p: nat)
    requires n <= |cb.prefilled|
  {
    exists i :: 0 <= i < n && p == Place(cb.prefilled, i)
  }

  /** Nothing else is there. */
  ghost predicate Otherwise(cb: CompactBlock, n: nat, a: Slots)
    requires n <= |cb.prefilled|
  {
    forall p :: 0 <= p < |a| && a[p].Some? ==> IsPlace(cb, n, p)
  }

  /** The positions after the first n prefilled transactions are placed. */
  ghost predicate Placed(cb: CompactBlock, n: nat, a: Slots) {
    && n <= |cb.prefilled| && |a| == cb.BlockTxCount()
    && Present(cb, n, a) && Otherwise(cb, n, a) && Free(a) == |a| - n
  }

  lemma NonePlaced(cb: CompactBlock)
    ensures Placed(cb, 0, Empty(cb.BlockTxCount()))
  {
    FreeOfEmpty(cb.BlockTxCount());
  }

  lemma PlaceIsNew(cb: CompactBlock, n: nat, a: Slots)
    requires n < |cb.prefilled| && Placed(cb, n, a) && WellPlaced(cb, n)
    ensures 0 <= Place(cb.prefilled, n) < |a| && a[Place(cb.prefilled, n)].None?
  {
    PlacesAscend(cb.prefilled, -1, n);
    forall i | 0 <= i < n
      ensures Place(cb.prefilled, i) < Place(cb.prefilled, n)
    {
      PlacesAscend(cb.prefilled, i, n);
    }
  }

  lemma PresentMore(cb: CompactBlock, n: nat, a: Slots, p: nat)
    requires n < |cb.prefilled| && Present(cb, n, a) && p == Place(cb.prefilled, n) && p < |a|
    ensures Present(cb, n + 1, a[p := Some(cb.prefilled[n].tx)])
  {
    forall i | 0 <= i < n
      ensures Place(cb.prefilled, i) != p
    {
      PlacesAscend(cb.prefilled, i, n);
    }
  }

  lemma OtherwiseMore(cb: CompactBlock, n: nat, a: Slots, p: nat)
    requires n < |cb.prefilled| && Otherwise(cb, n, a) && p == Place(cb.prefilled, n) && p < |a|
    ensures Otherwise(cb, n + 1, a[p := Some(cb.prefilled[n].tx)])
  {
    var b := a[p := Some(cb.prefilled[n].tx)];
    forall q | 0 <= q < |b| && b[q].Some?
      ensures IsPlace(cb, n + 1, q)
    {
      assert q != p ==> IsPlace(cb, n, q);
    }
  }

  lemma PlaceOneMore(cb: CompactBlock, n: nat, a: Slots)
    requires n < |cb.prefilled| && Placed(cb, n, a) && WellPlaced(cb, n)
    ensures var p := Place(cb.prefilled, n);
            0 <= p < |a| && Placed(cb, n + 1, a[p := Some(cb.prefilled[n].tx)])
  {
    PlaceIsNew(cb, n, a);
    var p := Place(cb.prefilled, n);
    FreeAfterFill(a, p, cb.prefilled[n].tx);
    PresentMore(cb, n, a, p);
    OtherwiseMore(cb, n, a, p);
  }

  // ----- short ids and their positions

  ghost function Elements(s: seq<nat>): set<nat> { set x | x in s }

  /** A list has as many elements as entries exactly when none repeats. */
  lemma {:induction false} DistinctByCount(s: seq<nat>)
    ensures |Elements(s)| <= |s| && (|Elements(s)| == |s| <==> Distinct(s))
  {
    if s != [] {
      var t, x := s[..|s| - 1], s[|s| - 1];
      DistinctByCount(t);
      assert Elements(s) == Elements(t) + {x};
      DistinctAppend(t, x);
      assert s == t + [x];
    }
  }

  lemma DistinctAppend(t: seq<nat>, x: nat)
    ensures Distinct(t + [x]) <==> Distinct(t) && x !in t
  {
    var s := t + [x];
    assert forall j :: 0 <= j < |t| ==> s[j] == t[j];
    if Distinct(s) {
      assert forall j :: 0 <= j < |t| ==> s[j] != s[|t|];
    }
  }

  /** The i-th short id has the i-th free position. */
  ghost predicate InOrder(s: seq<nat>, a: Slots, m: map<nat, nat>) {
    forall i :: 0 <= i < |s| ==> s[i] in m && IsNthFree(a, i, m[s[i]])
  }

  lemma InOrderMore(s: seq<nat>, a: Slots, m: map<nat, nat>, x: nat, p: nat)
    requires InOrder(s, a, m) && x !in s && IsNthFree(a, |s|, p)
    ensures InOrder(s + [x], a, m[x := p])
  {
  }

  /** The map after the first n short ids: in order, unless one repeats. */
  ghost predicate Mapped(cb: CompactBlock, a: Slots, n: nat, m: map<nat, nat>) {
    && n <= |cb.shortIds|
    && m.Keys == Elements(cb.shortIds[..n])
    && (Distinct(cb.shortIds[..n]) ==> InOrder(cb.shortIds[..n], a, m))
  }

  lemma MapNone(cb: CompactBlock, a: Slots)
    ensures Mapped(cb, a, 0, map[])
  {
    assert Elements([]) == {};
  }

  lemma MapOneMore(cb: CompactBlock, a: Slots, n: nat, m: map<nat, nat>, p: nat)
    requires n < |cb.shortIds| && Mapped(cb, a, n, m) && IsNthFree(a, n, p)
    ensures Mapped(cb, a, n + 1, m[cb.shortIds[n] := p])
  {
    var s, x := cb.shortIds[..n], cb.shortIds[n];
    assert cb.shortIds[..n + 1] == s + [x];
    assert Elements(s + [x]) == Elements(s) + {x};
    DistinctAppend(s, x);
    if Distinct(s + [x]) {
      InOrderMore(s, a, m, x, p);
    }
  }

  ghost predicate OneToOne(m: map<nat, nat>) {
    forall x, y :: x in m && y in m && x != y ==> m[x] != m[y]
  }

  /** The finished map: every short id has its own position, and that one is free. */
  ghost predicate Assigned(cb: CompactBlock, a: Slots, m: map<nat, nat>) {
    && m.Keys == Elements(cb.shortIds)
    && (forall id :: id in m ==> m[id] < |a| && a[m[id]].None?)
    && OneToOne(m)
    && (forall i :: 0 <= i < |cb.shortIds| ==> cb.shortIds[i] in m && IsNthFree(a, i, m[cb.shortIds[i]]))
  }

  lemma MappedIsAssigned(cb: CompactBlock, a: Slots, m: map<nat, nat>)
    requires Mapped(cb, a, |cb.shortIds|, m) && Distinct(cb.shortIds)
    ensures Assigned(cb, a, m)
  {
    var s := cb.shortIds;
    assert s[..|s|] == s;
    assert forall i :: 0 <= i < |s| ==> s[i] in m;
    forall x, y | x in m && y in m && x != y
      ensures m[x] != m[y]
    {
      var i :| 0 <= i < |s| && s[i] == x;
      var j :| 0 <= j < |s| && s[j] == y;
      assert IsNthFree(a, i, m[x]) && IsNthFree(a, j, m[y]);
    }
    forall id | id in m
      ensures m[id] < |a| && a[m[id]].None?
    {
      var i :| 0 <= i < |s| && s[i] == id;
      assert IsNthFree(a, i, m[id]);
    }
  }

  // ----- offering transactions

  datatype Matching = Matching(slots: Slots, have: seq<bool>, count: int)

  /** An offer: a witness hash and a transaction. */
  type Offered = (Hash, Tx)

  ghost predicate Sized(m: map<nat, nat>, s: Matching) {
    |s.slots| == |s.have| && forall id :: id in m ==> m[id] < |s.slots|
  }

  /**
   * The first match fills the position of the short id. A second one empties it again for good, unless
   * the offer is tolerated because it is the same transaction.
   */
  ghost function Offer(cb: CompactBlock, m: map<nat, nat>, s: Matching, o: Offered, tolerant: bool): (r: Matching)
    requires Sized(m, s)
    ensures Sized(m, r) && |r.slots| == |s.slots|
  {
    var id := cb.GetShortID(o.0);
    if id !in m then s
    else
      var p := m[id];
      if !s.have[p] then Matching(s.slots[p := Some(o.1)], s.have[p := true], s.count + 1)
      else if s.slots[p].Some? && !(tolerant && s.slots[p].value.witnessHash == o.1.witnessHash)
      then Matching(s.slots[p := None], s.have, s.count - 1)
      else s
  }

  /** Offers in order, until every short id is matched. */
  ghost function OfferAll(cb: CompactBlock, m: map<nat, nat>, s: Matching, list: seq<Offered>,
                          tolerant: bool): (r: Matching)
    requires Sized(m, s)
    ensures Sized(m, r) && |r.slots| == |s.slots|
    decreases |list|
  {
    if list == [] then s
    else
      var t := Offer(cb, m, s, list[0], tolerant);
      if t.count == |m| then t else OfferAll(cb, m, t, list[1..], tolerant)
  }

  /** The short ids whose position is filled. */
  ghost function Taken(m: map<nat, nat>, slots: Slots): set<nat>
    requires forall id :: id in m ==> m[id] < |slots|
  {
    set id | id in m && slots[m[id]].Some?
  }

  /** What was matched is counted on top of what the count was to begin with. */
  ghost predicate Counted(m: map<nat, nat>, s: Matching, count: int) {
    Sized(m, s) && s.count == count + |Taken(m, s.slots)|
  }

  /** A filled position is marked, and the positions of no short id are as they were. */
  ghost predicate Marked(m: map<nat, nat>, a: Slots, s: Matching) {
    && Sized(m, s) && |s.slots| == |a|
    && (forall id :: id in m && s.slots[m[id]].Some? ==> s.have[m[id]])
    && (forall p :: 0 <= p < |a| && p !in m.Values ==> s.slots[p] == a[p])
  }

  /** What every offer for a short id satisfies, every filled position satisfies. */
  ghost predicate AllHold(m: map<nat, nat>, slots: Slots, r: iset<(nat, Tx)>)
    requires forall id :: id in m ==> m[id] < |slots|
  {
    forall id :: id in m && slots[m[id]].Some? ==> (id, slots[m[id]].value) in r
  }

  lemma TakenMore(m: map<nat, nat>, slots: Slots, id: nat, tx: Tx)
    requires OneToOne(m) && (forall x :: x in m ==> m[x] < |slots|) && id in m && slots[m[id]].None?
    ensures |Taken(m, slots[m[id] := Some(tx)])| == |Taken(m, slots)| + 1
  {
    assert Taken(m, slots[m[id] := Some(tx)]) == Taken(m, slots) + {id};
  }

  lemma TakenLess(m: map<nat, nat>, slots: Slots, id: nat)
    requires OneToOne(m) && (forall x :: x in m ==> m[x] < |slots|) && id in m && slots[m[id]].Some?
    ensures |Taken(m, slots[m[id] := None])| == |Taken(m, slots)| - 1
  {
    assert Taken(m, slots[m[id] := None]) == Taken(m, slots) - {id};
  }

  lemma OfferKeeps(cb: CompactBlock, m: map<nat, nat>, a: Slots, s: Matching, o: Offered, tolerant: bool)
    requires OneToOne(m) && Marked(m, a, s)
    ensures Marked(m, a, Offer(cb, m, s, o, tolerant))
  {
    var id := cb.GetShortID(o.0);
    if id in m {
      assert m[id] in m.Values;
    }
  }

  lemma OfferCounts(cb: CompactBlock, m: map<nat, nat>, a: Slots, s: Matching, o: Offered, tolerant: bool, count: int)
    requires OneToOne(m) && Marked(m, a, s) && Counted(m, s, count)
    ensures Counted(m, Offer(cb, m, s, o, tolerant), count)
  {
    var id := cb.GetShortID(o.0);
    if id in m {
      if s.slots[m[id]].None? {
        TakenMore(m, s.slots, id, o.1);
      } else {
        TakenLess(m, s.slots, id);
      }
    }
  }

  lemma OfferHolds(cb: CompactBlock, m: map<nat, nat>, s: Matching, o: Offered, tolerant: bool, r: iset<(nat, Tx)>)
    requires OneToOne(m) && Sized(m, s) && AllHold(m, s.slots, r)
    requires cb.GetShortID(o.0) in m ==> (cb.GetShortID(o.0), o.1) in r
    ensures AllHold(m, Offer(cb, m, s, o, tolerant).slots, r)
  {
  }

  ghost predicate AllOffersHold(cb: CompactBlock, m: map<nat, nat>, list: seq<Offered>, r: iset<(nat, Tx)>) {
    forall k :: 0 <= k < |list| && cb.GetShortID(list[k].0) in m ==> (cb.GetShortID(list[k].0), list[k].1) in r
  }

  /** Over any list of offers, and whatever the count is to begin with. */
  lemma {:induction false} OffersKeep(cb: CompactBlock, m: map<nat, nat>, a: Slots, s: Matching, list: seq<Offered>,
                                      tolerant: bool, r: iset<(nat, Tx)>)
    requires OneToOne(m) && Marked(m, a, s) && AllHold(m, s.slots, r) && AllOffersHold(cb, m, list, r)
    ensures var t := OfferAll(cb, m, s, list, tolerant); Marked(m, a, t) && AllHold(m, t.slots, r)
    decreases |list|
  {
    if list != [] {
      OfferKeeps(cb, m, a, s, list[0], tolerant);
      OfferHolds(cb, m, s, list[0], tolerant, r);
      var t := Offer(cb, m, s, list[0], tolerant);
      if t.count != |m| {
        OffersKeep(cb, m, a, t, list[1..], tolerant, r);
      }
    }
  }

  /** The mempool, then the extra transactions. */
  ghost function OfferBoth(cb: CompactBlock, m: map<nat, nat>, s: Matching, pool: seq<Offered>,
                           extra: seq<Offered>): Matching
    requires Sized(m, s)
  {
    OfferAll(cb, m, OfferAll(cb, m, s, pool, false), extra, true)
  }

  lemma BothKeep(cb: CompactBlock, m: map<nat, nat>, a: Slots, s: Matching, pool: seq<Offered>, extra: seq<Offered>,
                 r: iset<(nat, Tx)>)
    requires OneToOne(m) && Marked(m, a, s) && AllHold(m, s.slots, r)
    requires AllOffersHold(cb, m, pool, r) && AllOffersHold(cb, m, extra, r)
    ensures Marked(m, a, OfferBoth(cb, m, s, pool, extra)) && AllHold(m, OfferBoth(cb, m, s, pool, extra).slots, r)
  {
    OffersKeep(cb, m, a, s, pool, false, r);
    OffersKeep(cb, m, a, OfferAll(cb, m, s, pool, false), extra, true, r);
  }

  // ----- what is found

  ghost predicate Matches(cb: CompactBlock, o: Offered, id: nat) { cb.GetShortID(o.0) == id }

  /** The position of the short id holds the transaction. */
  ghost predicate Found(m: map<nat, nat>, s: Matching, id: nat, tx: Tx) {
    Sized(m, s) && id in m && s.have[m[id]] && s.slots[m[id]] == Some(tx)
  }

  ghost predicate NotYet(m: map<nat, nat>, s: Matching, id: nat) {
    Sized(m, s) && id in m && !s.have[m[id]]
  }

  lemma OfferOfOther(cb: CompactBlock, m: map<nat, nat>, s: Matching, o: Offered, tolerant: bool, id: nat)
    requires OneToOne(m) && Sized(m, s) && id in m && !Matches(cb, o, id)
    ensures var t := Offer(cb, m, s, o, tolerant); t.slots[m[id]] == s.slots[m[id]] && t.have[m[id]] == s.have[m[id]]
  {
  }

  /** A scan stops early only when every short id is matched. */
  ghost predicate CountsRight(m: map<nat, nat>, count: int) { count <= 0 || count > |m| }

  /** All short ids are matched: then this one is. */
  lemma AllTaken(m: map<nat, nat>, a: Slots, s: Matching, count: int, id: nat)
    requires Marked(m, a, s) && Counted(m, s, count) && CountsRight(m, count) && s.count == |m| && id in m
    ensures s.have[m[id]]
  {
    var taken := Taken(m, s.slots);
    Smaller(taken, m.Keys);
    assert |taken| == |m.Keys|;
    if id !in taken {
      StrictlyLess(taken, m.Keys, id);
    }
  }

  lemma StrictlyLess(x: set<nat>, y: set<nat>, e: nat)
    requires x <= y && e in y && e !in x
    ensures |x| < |y|
  {
    assert x <= y - {e};
    Smaller(x, y - {e});
  }

  lemma {:induction false} Smaller(x: set<nat>, y: set<nat>)
    requires x <= y
    ensures |x| <= |y|
    decreases x
  {
    if x != {} {
      var e :| e in x;
      Smaller(x - {e}, y - {e});
    }
  }

  /** Further offers that do not match, or are tolerated, change nothing. */
  lemma {:induction false} StaysFound(cb: CompactBlock, m: map<nat, nat>, s: Matching, list: seq<Offered>,
                                      tolerant: bool, id: nat, tx: Tx)
    requires OneToOne(m) && Found(m, s, id, tx)
    requires forall k :: 0 <= k < |list| && Matches(cb, list[k], id) ==>
                           tolerant && list[k].1.witnessHash == tx.witnessHash
    ensures Found(m, OfferAll(cb, m, s, list, tolerant), id, tx)
    decreases |list|
  {
    if list != [] {
      if !Matches(cb, list[0], id) {
        OfferOfOther(cb, m, s, list[0], tolerant, id);
      }
      var t := Offer(cb, m, s, list[0], tolerant);
      assert Found(m, t, id, tx);
      if t.count != |m| {
        StaysFound(cb, m, t, list[1..], tolerant, id, tx);
      }
    }
  }

  /** The only match in a list of offers is found, wherever it is and although the scan may stop early. */
  lemma {:induction false} OnlyMatchIsFound(cb: CompactBlock, m: map<nat, nat>, a: Slots, s: Matching,
                                            list: seq<Offered>, tolerant: bool, count: int, id: nat, k: nat)
    requires OneToOne(m) && Marked(m, a, s) && Counted(m, s, count) && CountsRight(m, count) && NotYet(m, s, id)
    requires k < |list| && Matches(cb, list[k], id)
    requires forall j :: 0 <= j < |list| && j != k ==> !Matches(cb, list[j], id)
    ensures Found(m, OfferAll(cb, m, s, list, tolerant), id, list[k].1)
    decreases |list|
  {
    OfferKeeps(cb, m, a, s, list[0], tolerant);
    OfferCounts(cb, m, a, s, list[0], tolerant, count);
    var t, rest := Offer(cb, m, s, list[0], tolerant), list[1..];
    if k == 0 {
      assert Found(m, t, id, list[0].1);
      if t.count != |m| {
        StaysFound(cb, m, t, rest, tolerant, id, list[0].1);
      }
    } else {
      OfferOfOther(cb, m, s, list[0], tolerant, id);
      assert t.count != |m| by {
        if t.count == |m| {
          AllTaken(m, a, t, count, id);
        }
      }
      OnlyMatchIsFound(cb, m, a, t, rest, tolerant, count, id, k - 1);
    }
  }

  // ----- filling in the rest

  /** The block, with the missing transactions in order at the free positions. */
  ghost function Fill(a: Slots, missing: seq<Tx>): (vtx: seq<Tx>)
    requires |missing| == Free(a)
    ensures |vtx| == |a|
  {
    if a == [] then []
    else
      var n, k := |a| - 1, |missing| - 1;
      if a[n].None? then Fill(a[..n], missing[..k]) + [missing[k]] else Fill(a[..n], missing) + [a[n].value]
  }

  /** What to ask for: the transactions at the free positions, in order. */
  ghost function Missing(a: Slots, vtx: seq<Tx>): (missing: seq<Tx>)
    requires |a| == |vtx|
    ensures |missing| == Free(a)
  {
    if a == [] then []
    else
      var n := |a| - 1;
      Missing(a[..n], vtx[..n]) + if a[n].None? then [vtx[n]] else []
  }

  /** The k-th free position gets the k-th missing transaction. */
  lemma {:induction false} FillAt(a: Slots, missing: seq<Tx>, p: nat)
    requires |missing| == Free(a) && p < |a|
    ensures a[p].Some? ==> Fill(a, missing)[p] == a[p].value
    ensures a[p].None? ==> Free(a[..p]) < |missing| && Fill(a, missing)[p] == missing[Free(a[..p])]
  {
    var n, k := |a| - 1, |missing| - 1;
    if p < n {
      assert a[..n][..p] == a[..p];
      FillAt(a[..n], if a[n].None? then missing[..k] else missing, p);
    }
  }

  /** What is asked for first is what stands at the first free position, and so on. */
  lemma {:induction false} MissingAt(a: Slots, vtx: seq<Tx>, p: nat)
    requires |a| == |vtx| && p < |a| && a[p].None?
    ensures Free(a[..p]) < |Missing(a, vtx)| && Missing(a, vtx)[Free(a[..p])] == vtx[p]
  {
    var n := |a| - 1;
    if p < n {
      assert a[..n][..p] == a[..p];
      MissingAt(a[..n], vtx[..n], p);
    }
  }

  /** Every position that is filled has the block's own transaction. */
  ghost predicate Agrees(a: Slots, vtx: seq<Tx>) {
    |a| == |vtx| && forall p :: 0 <= p < |a| && a[p].Some? ==> a[p].value == vtx[p]
  }

  lemma {:induction false} FillRestores(a: Slots, vtx: seq<Tx>)
    requires Agrees(a, vtx)
    ensures Fill(a, Missing(a, vtx)) == vtx
  {
    if a != [] {
      var n := |a| - 1;
      FillRestores(a[..n], vtx[..n]);
      assert vtx == vtx[..n] + [vtx[n]];
      var rest := Missing(a[..n], vtx[..n]);
      if a[n].None? {
        assert (rest + [vtx[n]])[..|rest|] == rest;
      } else {
        assert rest + [] == rest;
      }
    }
  }

  // ----- a block through its compact form

  ghost function Short(hashes: imap<Hash, nat>, h: Hash): nat { if h in hashes then hashes[h] else 0 }

  /** Whatever is offered under the short id of a transaction of the block is that transaction. */
  ghost predicate NoCollisions(hashes: imap<Hash, nat>, vtx: seq<Tx>, list: seq<Offered>) {
    forall k, p :: 0 <= k < |list| && 0 < p < |vtx| && Short(hashes, list[k].0) == Short(hashes, vtx[p].witnessHash) ==>
                     list[k].1 == vtx[p]
  }

  /** In a compact block as it is built, the short id of a transaction has the transaction's own position. */
  lemma {:induction false} PositionsAreOwn(hashes: imap<Hash, nat>, vtx: seq<Tx>, a: Slots, p: nat)
    requires |vtx| > 0 && Placed(Compact(hashes, vtx), 1, a) && 0 < p <= |vtx|
    ensures |a| == |vtx| && Free(a[..p]) == p - 1
    decreases p
  {
    var cb := Compact(hashes, vtx);
    assert Place(cb.prefilled, 0) == 0;
    if p > 1 {
      PositionsAreOwn(hashes, vtx, a, p - 1);
      assert !IsPlace(cb, 1, p - 1);
      assert a[..p] == a[..p - 1] + [a[p - 1]];
      FreeAppend(a[..p - 1], a[p - 1]);
    } else {
      assert a[..1] == [] + [a[0]];
      FreeAppend([], a[0]);
    }
  }

  lemma OwnSlot(hashes: imap<Hash, nat>, vtx: seq<Tx>, a: Slots, m: map<nat, nat>, p: nat)
    requires |vtx| > 0 && Placed(Compact(hashes, vtx), 1, a) && Assigned(Compact(hashes, vtx), a, m) && 0 < p < |vtx|
    ensures Short(hashes, vtx[p].witnessHash) in m && m[Short(hashes, vtx[p].witnessHash)] == p
  {
    var cb := Compact(hashes, vtx);
    PositionsAreOwn(hashes, vtx, a, p);
    assert cb.shortIds[p - 1] == Short(hashes, vtx[p].witnessHash);
    assert Place(cb.prefilled, 0) == 0;
    assert !IsPlace(cb, 1, p);
    assert IsNthFree(a, p - 1, p);
    NthFreeIsUnique(a, p - 1, p, m[cb.shortIds[p - 1]]);
  }

  /** The transactions of the block, by short id. */
  ghost function Own(hashes: imap<Hash, nat>, vtx: seq<Tx>, m: map<nat, nat>): iset<(nat, Tx)> {
    iset id, tx | id in m && m[id] < |vtx| && tx == vtx[m[id]] :: (id, tx)
  }

  lemma SlotIsOwn(hashes: imap<Hash, nat>, vtx: seq<Tx>, a: Slots, m: map<nat, nat>, id: nat)
    requires |vtx| > 0 && Placed(Compact(hashes, vtx), 1, a) && Assigned(Compact(hashes, vtx), a, m) && id in m
    ensures 0 < m[id] < |vtx| && Short(hashes, vtx[m[id]].witnessHash) == id
  {
    var cb := Compact(hashes, vtx);
    assert id in cb.shortIds;
    var i :| 0 <= i < |cb.shortIds| && cb.shortIds[i] == id;
    OwnSlot(hashes, vtx, a, m, i + 1);
  }

  lemma OffersAreOwn(hashes: imap<Hash, nat>, vtx: seq<Tx>, a: Slots, m: map<nat, nat>, list: seq<Offered>)
    requires |vtx| > 0 && Placed(Compact(hashes, vtx), 1, a) && Assigned(Compact(hashes, vtx), a, m)
    requires NoCollisions(hashes, vtx, list)
    ensures AllOffersHold(Compact(hashes, vtx), m, list, Own(hashes, vtx, m))
  {
    var cb := Compact(hashes, vtx);
    forall k | 0 <= k < |list| && cb.GetShortID(list[k].0) in m
      ensures (cb.GetShortID(list[k].0), list[k].1) in Own(hashes, vtx, m)
    {
      SlotIsOwn(hashes, vtx, a, m, cb.GetShortID(list[k].0));
    }
  }

  lemma HeldAgrees(hashes: imap<Hash, nat>, vtx: seq<Tx>, a: Slots, m: map<nat, nat>, s: Matching)
    requires |vtx| > 0 && Placed(Compact(hashes, vtx), 1, a) && Assigned(Compact(hashes, vtx), a, m)
    requires Marked(m, a, s) && AllHold(m, s.slots, Own(hashes, vtx, m))
    ensures Agrees(s.slots, vtx)
  {
    var cb := Compact(hashes, vtx);
    assert Place(cb.prefilled, 0) == 0;
    PositionsAreOwn(hashes, vtx, a, 1);
    forall p | 0 <= p < |s.slots| && s.slots[p].Some?
      ensures s.slots[p].value == vtx[p]
    {
      if p == 0 {
        forall id | id in m
          ensures m[id] != 0
        {
          SlotIsOwn(hashes, vtx, a, m, id);
        }
        assert 0 !in m.Values;
      } else {
        OwnSlot(hashes, vtx, a, m, p);
      }
    }
  }

  ghost function Unmatched(a: Slots, count: int): (s: Matching)
    ensures |s.slots| == |s.have|
  {
    Matching(a, seq(|a|, i => false), count)
  }

  lemma UnmatchedIsMarked(cb: CompactBlock, a: Slots, m: map<nat, nat>, count: int)
    requires Assigned(cb, a, m)
    ensures Marked(m, a, Unmatched(a, count)) && Taken(m, a) == {}
    ensures forall r :: AllHold(m, a, r)
  {
  }

  /**
   * A block goes through its compact form: whatever the mempool and the extra transactions are, if no
   * short id collides, what is found there agrees with the block, and with the rest filled in it is the block.
   */
  lemma CompactBlocksRebuild(hashes: imap<Hash, nat>, vtx: seq<Tx>, a: Slots, m: map<nat, nat>, count: int,
                             pool: seq<Offered>, extra: seq<Offered>)
    requires |vtx| > 0 && Placed(Compact(hashes, vtx), 1, a) && Assigned(Compact(hashes, vtx), a, m)
    requires NoCollisions(hashes, vtx, pool) && NoCollisions(hashes, vtx, extra)
    ensures var s := Unmatched(a, count);
      && Sized(m, s)
      && var slots := OfferBoth(Compact(hashes, vtx), m, s, pool, extra).slots;
         Agrees(slots, vtx) && Fill(slots, Missing(slots, vtx)) == vtx
  {
    var cb, s, r := Compact(hashes, vtx), Unmatched(a, count), Own(hashes, vtx, m);
    UnmatchedIsMarked(cb, a, m, count);
    OffersAreOwn(hashes, vtx, a, m, pool);
    OffersAreOwn(hashes, vtx, a, m, extra);
    BothKeep(cb, m, a, s, pool, extra, r);
    var u := OfferBoth(cb, m, s, pool, extra);
    HeldAgrees(hashes, vtx, a, m, u);
    FillRestores(u.slots, vtx);
  }

  // ----- any accepted compact block

  ghost predicate OfferedAs(cb: CompactBlock, list: seq<Offered>, id: nat, tx: Tx) {
    exists k :: 0 <= k < |list| && Matches(cb, list[k], id) && list[k].1 == tx
  }

  ghost function OffersOf(cb: CompactBlock, list: seq<Offered>): iset<(nat, Tx)> {
    iset id, tx | OfferedAs(cb, list, id, tx) :: (id, tx)
  }

  lemma OffersAreOffers(cb: CompactBlock, m: map<nat, nat>, before: seq<Offered>, list: seq<Offered>,
                        after: seq<Offered>)
    ensures AllOffersHold(cb, m, list, OffersOf(cb, before + list + after))
  {
    var all := before + list + after;
    forall k | 0 <= k < |list|
      ensures OfferedAs(cb, all, cb.GetShortID(list[k].0), list[k].1)
    {
      assert all[|before| + k] == list[k];
    }
  }

  /** Whatever is found at the position of a short id was offered under that id; nothing else is touched. */
  lemma FoundWereOffered(cb: CompactBlock, a: Slots, m: map<nat, nat>, count: int, pool: seq<Offered>,
                         extra: seq<Offered>)
    requires Assigned(cb, a, m)
    ensures var s := Unmatched(a, count);
      && Sized(m, s)
      && var t := OfferBoth(cb, m, s, pool, extra);
         Marked(m, a, t) && AllHold(m, t.slots, OffersOf(cb, pool + extra))
  {
    UnmatchedIsMarked(cb, a, m, count);
    var s, r := Unmatched(a, count), OffersOf(cb, pool + extra);
    OffersAreOffers(cb, m, [], pool, extra);
    OffersAreOffers(cb, m, pool, extra, []);
    assert [] + pool + extra == pool + extra && pool + extra + [] == pool + extra;
    BothKeep(cb, m, a, s, pool, extra, r);
  }

  /**
   * A transaction that alone in the mempool has a short id of the block is found, unless the extra
   * transactions have a different one under the same id. The count may start anywhere but at 1 to |m|.
   */
  lemma MempoolMatchIsFound(cb: CompactBlock, a: Slots, m: map<nat, nat>, count: int, pool: seq<Offered>,
                            extra: seq<Offered>, id: nat, k: nat)
    requires Assigned(cb, a, m) && CountsRight(m, count) && id in m && k < |pool| && Matches(cb, pool[k], id)
    requires forall j :: 0 <= j < |pool| && j != k ==> !Matches(cb, pool[j], id)
    requires forall j :: 0 <= j < |extra| && Matches(cb, extra[j], id) ==>
             extra[j].1.witnessHash == pool[k].1.witnessHash
    ensures var s := Unmatched(a, count);
      && Sized(m, s)
      && Found(m, OfferBoth(cb, m, s, pool, extra), id, pool[k].1)
  {
    UnmatchedIsMarked(cb, a, m, count);
    var s := Unmatched(a, count);
    OnlyMatchIsFound(cb, m, a, s, pool, false, count, id, k);
    StaysFound(cb, m, OfferAll(cb, m, s, pool, false), extra, true, id, pool[k].1);
  }

  // ----- an object used again, with a count that is not zero

  ghost predicate HasHash(cb: CompactBlock, id: nat) { exists h :: cb.GetShortID(h) == id }

  /** The position of the short id is still free. */
  ghost predicate Missed(m: map<nat, nat>, s: Matching, id: nat) {
    Sized(m, s) && id in m && s.slots[m[id]].None?
  }

  /** Matches of other short ids bring the count to |m|, and what comes after them is not looked at. */
  lemma {:induction false} OthersStopTheScan(cb: CompactBlock, m: map<nat, nat>, s: Matching, id: nat, tx: Tx,
                                             others: set<nat>, tail: seq<Offered>)
    returns (list: seq<Offered>)
    requires OneToOne(m) && Missed(m, s, id) && id !in others && 0 < |m| - s.count <= |others|
    requires forall x :: x in others ==> NotYet(m, s, x) && HasHash(cb, x)
    ensures forall j :: 0 <= j < |list| ==> !Matches(cb, list[j], id)
    ensures Missed(m, OfferAll(cb, m, s, list + tail, false), id)
    decreases |others|
  {
    var x :| x in others;
    var h :| cb.GetShortID(h) == x;
    var t := Offer(cb, m, s, (h, tx), false);
    list := [];
    if t.count != |m| {
      list := OthersStopTheScan(cb, m, t, id, tx, others - {x}, tail);
    }
    var rest := list + tail;
    list := [(h, tx)] + list;
    assert (list + tail)[1..] == rest;
  }

  /**
   * For every other count there is a mempool whose only match of a short id is not found: the count
   * reaches |m| before it. (With count |m| one offer under no short id of the block is enough.)
   */
  lemma MempoolMatchIsMissed(cb: CompactBlock, a: Slots, m: map<nat, nat>, count: int, id: nat, tx: Tx)
    returns (pool: seq<Offered>, k: nat)
    requires Assigned(cb, a, m) && !CountsRight(m, count) && id in m
    requires forall x :: x in m ==> HasHash(cb, x)
    requires count == |m| ==> exists h :: cb.GetShortID(h) !in m
    ensures k < |pool| && Matches(cb, pool[k], id)
    ensures forall j :: 0 <= j < |pool| && j != k ==> !Matches(cb, pool[j], id)
    ensures var s := Unmatched(a, count);
      && Sized(m, s)
      && Missed(m, OfferBoth(cb, m, s, pool, []), id)
  {
    var s := Unmatched(a, count);
    var h :| cb.GetShortID(h) == id;
    var list: seq<Offered>;
    if count == |m| {
      var g :| cb.GetShortID(g) !in m;
      list := [(g, tx)];
    } else {
      var others := m.Keys - {id};
      assert |m.Keys| == |m| && |others| == |m.Keys| - 1;
      list := OthersStopTheScan(cb, m, s, id, tx, others, [(h, tx)]);
    }
    pool, k := list + [(h, tx)], |list|;
    assert Missed(m, OfferAll(cb, m, s, pool, false), id);
  }

  // ----- two matches

  /** Two candidates were seen for the position, and it stays free. */
  ghost predicate Spoiled(m: map<nat, nat>, s: Matching, id: nat) {
    Sized(m, s) && id in m && s.have[m[id]] && s.slots[m[id]].None?
  }

  lemma {:induction false} StaysSpoiled(cb: CompactBlock, m: map<nat, nat>, s: Matching, list: seq<Offered>,
                                        tolerant: bool, id: nat)
    requires OneToOne(m) && Spoiled(m, s, id)
    ensures Spoiled(m, OfferAll(cb, m, s, list, tolerant), id)
    decreases |list|
  {
    if list != [] {
      var t := Offer(cb, m, s, list[0], tolerant);
      if !Matches(cb, list[0], id) {
        OfferOfOther(cb, m, s, list[0], tolerant, id);
      }
      if t.count != |m| {
        StaysSpoiled(cb, m, t, list[1..], tolerant, id);
      }
    }
  }

  /** A short id that nothing matches, so that the scan goes on to the end. */
  ghost predicate Open(cb: CompactBlock, m: map<nat, nat>, a: Slots, s: Matching, count: int, list: seq<Offered>,
                       open: nat)
  {
    && OneToOne(m) && Marked(m, a, s) && Counted(m, s, count) && CountsRight(m, count) && NotYet(m, s, open)
    && forall j :: 0 <= j < |list| ==> !Matches(cb, list[j], open)
  }

  lemma StaysOpen(cb: CompactBlock, m: map<nat, nat>, a: Slots, s: Matching, count: int, list: seq<Offered>,
                  tolerant: bool, open: nat)
    requires Open(cb, m, a, s, count, list, open) && list != []
    ensures var t := Offer(cb, m, s, list[0], tolerant);
            Open(cb, m, a, t, count, list[1..], open) && t.count != |m|
  {
    var t := Offer(cb, m, s, list[0], tolerant);
    OfferKeeps(cb, m, a, s, list[0], tolerant);
    OfferCounts(cb, m, a, s, list[0], tolerant, count);
    OfferOfOther(cb, m, s, list[0], tolerant, open);
    if t.count == |m| {
      AllTaken(m, a, t, count, open);
    }
  }

  /** Whatever was found is given up at the first other candidate. */
  lemma {:induction false} FoundIsSpoiled(cb: CompactBlock, m: map<nat, nat>, a: Slots, s: Matching, count: int,
                                          list: seq<Offered>, tolerant: bool, id: nat, tx: Tx, k: nat, open: nat)
    requires Open(cb, m, a, s, count, list, open) && Found(m, s, id, tx)
    requires k < |list| && Matches(cb, list[k], id) && !(tolerant && list[k].1.witnessHash == tx.witnessHash)
    ensures Spoiled(m, OfferAll(cb, m, s, list, tolerant), id)
    decreases |list|
  {
    StaysOpen(cb, m, a, s, count, list, tolerant, open);
    var t := Offer(cb, m, s, list[0], tolerant);
    if !Matches(cb, list[0], id) {
      OfferOfOther(cb, m, s, list[0], tolerant, id);
    }
    if Spoiled(m, t, id) {
      StaysSpoiled(cb, m, t, list[1..], tolerant, id);
    } else {
      FoundIsSpoiled(cb, m, a, t, count, list[1..], tolerant, id, tx, k - 1, open);
    }
  }

  lemma {:induction false} TwoMatchesSpoil(cb: CompactBlock, m: map<nat, nat>, a: Slots, s: Matching, count: int,
                                           list: seq<Offered>, id: nat, j: nat, k: nat, open: nat)
    requires Open(cb, m, a, s, count, list, open) && NotYet(m, s, id)
    requires j < k < |list| && Matches(cb, list[j], id) && Matches(cb, list[k], id)
    ensures Spoiled(m, OfferAll(cb, m, s, list, false), id)
    decreases |list|
  {
    StaysOpen(cb, m, a, s, count, list, false, open);
    var t := Offer(cb, m, s, list[0], false);
    if Matches(cb, list[0], id) {
      assert Found(m, t, id, list[0].1);
      FoundIsSpoiled(cb, m, a, t, count, list[1..], false, id, list[0].1, k - 1, open);
    } else {
      OfferOfOther(cb, m, s, list[0], false, id);
      TwoMatchesSpoil(cb, m, a, t, count, list[1..], id, j - 1, k - 1, open);
    }
  }

  /** With two candidates in the mempool, and another short id without any, a position is left to be asked for. */
  lemma AmbiguousIsLeftOut(cb: CompactBlock, a: Slots, m: map<nat, nat>, count: int, pool: seq<Offered>,
                           extra: seq<Offered>, id: nat, j: nat, k: nat, open: nat)
    requires Assigned(cb, a, m) && CountsRight(m, count) && id in m && open in m
    requires j < k < |pool| && Matches(cb, pool[j], id) && Matches(cb, pool[k], id)
    requires forall i :: 0 <= i < |pool| ==> !Matches(cb, pool[i], open)
    ensures var s := Unmatched(a, count); Sized(m, s) && Missed(m, OfferBoth(cb, m, s, pool, extra), id)
  {
    UnmatchedIsMarked(cb, a, m, count);
    var s := Unmatched(a, count);
    TwoMatchesSpoil(cb, m, a, s, count, pool, id, j, k, open);
    StaysSpoiled(cb, m, OfferAll(cb, m, s, pool, false), extra, true, id);
  }

  lemma {:induction false} OffersCount(cb: CompactBlock, m: map<nat, nat>, a: Slots, s: Matching, count: int,
                                       list: seq<Offered>, tolerant: bool, open: nat)
    requires Open(cb, m, a, s, count, list, open)
    ensures Open(cb, m, a, OfferAll(cb, m, s, list, tolerant), count, [], open)
    decreases |list|
  {
    if list != [] {
      StaysOpen(cb, m, a, s, count, list, tolerant, open);
      OffersCount(cb, m, a, Offer(cb, m, s, list[0], tolerant), count, list[1..], tolerant, open);
    }
  }

  /** So it is when an extra transaction contradicts the only candidate in the mempool. */
  lemma ContradictedIsLeftOut(cb: CompactBlock, a: Slots, m: map<nat, nat>, count: int, pool: seq<Offered>,
                              extra: seq<Offered>, id: nat, k: nat, x: nat, open: nat)
    requires Assigned(cb, a, m) && CountsRight(m, count) && id in m && open in m
    requires k < |pool| && Matches(cb, pool[k], id)
    requires forall j :: 0 <= j < |pool| && j != k ==> !Matches(cb, pool[j], id)
    requires x < |extra| && Matches(cb, extra[x], id) && extra[x].1.witnessHash != pool[k].1.witnessHash
    requires forall i :: 0 <= i < |pool| ==> !Matches(cb, pool[i], open)
    requires forall i :: 0 <= i < |extra| ==> !Matches(cb, extra[i], open)
    ensures var s := Unmatched(a, count); Sized(m, s) && Missed(m, OfferBoth(cb, m, s, pool, extra), id)
  {
    UnmatchedIsMarked(cb, a, m, count);
    var s := Unmatched(a, count);
    OnlyMatchIsFound(cb, m, a, s, pool, false, count, id, k);
    OffersCount(cb, m, a, s, count, pool, false, open);
    var t := OfferAll(cb, m, s, pool, false);
    FoundIsSpoiled(cb, m, a, t, count, extra, true, id, pool[k].1, x, open);
  }
}
