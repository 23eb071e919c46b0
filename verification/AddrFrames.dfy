/** How each part of the address manager's invariant fares when entries and tables change. */
module AddrFrames {
  import opened AddrState

  // ----- counting

  function One(b: bool): int { if b then 1 else 0 }

  /** Two sets that agree but for i differ in size by whether they hold i. */
  lemma SizeDiffers(a: set<Id>, b: set<Id>, i: Id)
    requires forall j :: j != i ==> (j in a <==> j in b)
    ensures |b| - |a| == One(i in b) - One(i in a)
  {
    var c := a - {i};
    assert c == b - {i};
    assert i in a ==> a == c + {i};
    assert i in b ==> b == c + {i};
  }

  /** What counting one more entry with this tag adds to a counter. */
  lemma BumpAdds(counts: map<Network, Counts>, nNew: int, nTried: int, m: Network, dNew: int, dTried: int, q: Query)
    ensures Counter(nNew + dNew, nTried + dTried, Bump(counts, m, dNew, dTried), q) - Counter(nNew, nTried, counts, q)
         == dNew * One(Answers(IsNew(m), q)) + dTried * One(Answers(IsTried(m), q))
  {
  }

  ghost predicate SameTags(env: Env, info: map<Id, AddrInfo>, out: set<Id>, info': map<Id, AddrInfo>, out': set<Id>,
                           i: Id)
  {
    forall j :: j != i ==> TagOf(env, info, out, j) == TagOf(env, info', out', j)
  }

  /** The counters stay exact when they change by what the tag of one entry changes. */
  lemma Retagged(env: Env, info: map<Id, AddrInfo>, out: set<Id>, nNew: int, nTried: int, counts: map<Network, Counts>,
                 info': map<Id, AddrInfo>, out': set<Id>, i: Id, m: Network, dNew: int, dTried: int)
    requires Tallied(env, info, out, nNew, nTried, counts)
    requires SameTags(env, info, out, info', out', i)
    requires var t, t' := TagOf(env, info, out, i), TagOf(env, info', out', i);
             && (t == IsNew(m) || t == IsTried(m) || t == Uncounted)
             && (t' == IsNew(m) || t' == IsTried(m) || t' == Uncounted)
             && dNew == One(t' == IsNew(m)) - One(t == IsNew(m))
             && dTried == One(t' == IsTried(m)) - One(t == IsTried(m))
    ensures Tallied(env, info', out', nNew + dNew, nTried + dTried, Bump(counts, m, dNew, dTried))
  {
    forall q
      ensures Counter(nNew + dNew, nTried + dTried, Bump(counts, m, dNew, dTried), q) == |Matching(env, info', out', q)|
    {
      BumpAdds(counts, nNew, nTried, m, dNew, dTried, q);
      SizeDiffers(Matching(env, info, out, q), Matching(env, info', out', q), i);
      assert Counter(nNew, nTried, counts, q) == |Matching(env, info, out, q)|;
    }
  }

  lemma TagsUnchanged(env: Env, info: map<Id, AddrInfo>, out: set<Id>, nNew: int, nTried: int,
                      counts: map<Network, Counts>,
                      info': map<Id, AddrInfo>, out': set<Id>)
    requires Tallied(env, info, out, nNew, nTried, counts)
    requires forall j :: TagOf(env, info, out, j) == TagOf(env, info', out', j)
    ensures Tallied(env, info', out', nNew, nTried, counts)
  {
    forall q
      ensures Counter(nNew, nTried, counts, q) == |Matching(env, info', out', q)|
    {
      assert Matching(env, info', out', q) == Matching(env, info, out, q);
      assert Counter(nNew, nTried, counts, q) == |Matching(env, info, out, q)|;
    }
  }

  // ----- parts of the entries that a step leaves alone

  ghost predicate AgreeAddr(info: map<Id, AddrInfo>, info': map<Id, AddrInfo>) {
    info.Keys == info'.Keys && forall i :: i in info ==> info'[i].addr == info[i].addr
  }

  ghost predicate AgreePos(info: map<Id, AddrInfo>, info': map<Id, AddrInfo>) {
    info.Keys == info'.Keys && forall i :: i in info ==> info'[i].randomPos == info[i].randomPos
  }

  ghost predicate AgreeTried(info: map<Id, AddrInfo>, info': map<Id, AddrInfo>) {
    info.Keys == info'.Keys && forall i :: i in info ==> info'[i].inTried == info[i].inTried
  }

  ghost predicate AgreeRefs(info: map<Id, AddrInfo>, info': map<Id, AddrInfo>) {
    info.Keys == info'.Keys && forall i :: i in info ==> info'[i].refCount == info[i].refCount
  }

  ghost predicate AgreeDates(info: map<Id, AddrInfo>, info': map<Id, AddrInfo>) {
    && info.Keys == info'.Keys
    && (forall i :: i in info ==>
        info'[i].known.lastTry == info[i].known.lastTry && info'[i].known.lastSuccess == info[i].known.lastSuccess)
  }

  lemma Updated(info: map<Id, AddrInfo>, i: Id, x: AddrInfo)
    requires i in info
    ensures var info' := info[i := x];
            && (x.addr == info[i].addr ==> AgreeAddr(info, info'))
            && (x.randomPos == info[i].randomPos ==> AgreePos(info, info'))
            && (x.inTried == info[i].inTried ==> AgreeTried(info, info'))
            && (x.refCount == info[i].refCount ==> AgreeRefs(info, info'))
            && (x.known.lastTry == info[i].known.lastTry && x.known.lastSuccess == info[i].known.lastSuccess ==>
                AgreeDates(info, info'))
  {
  }

  // ----- the parts of the invariant, unaffected

  lemma IndexedFrame(info: map<Id, AddrInfo>, info': map<Id, AddrInfo>, ids: map<Service, Id>)
    requires Indexed(info, ids) && AgreeAddr(info, info')
    ensures Indexed(info', ids)
  {
  }

  lemma ShuffledFrame(info: map<Id, AddrInfo>, info': map<Id, AddrInfo>, random: seq<Id>)
    requires Shuffled(info, random) && AgreePos(info, info')
    ensures Shuffled(info', random)
  {
  }

  lemma TablesFrame(env: Env, info: map<Id, AddrInfo>, info': map<Id, AddrInfo>, news: map<Slot, Id>,
                    tried: map<Slot, Id>)
    requires NewPlaced(env, info, news) && TriedPlaced(env, info, tried) && AgreeAddr(info, info')
             && AgreeTried(info, info')
    ensures NewPlaced(env, info', news) && TriedPlaced(env, info', tried)
  {
  }

  lemma RefCountedFrame(info: map<Id, AddrInfo>, info': map<Id, AddrInfo>, news: map<Slot, Id>, zero: set<Id>)
    requires RefCounted(info, news, zero) && Slotless(info, zero) && AgreeRefs(info, info') && AgreeTried(info, info')
    ensures RefCounted(info', news, zero) && Slotless(info', zero)
  {
  }

  lemma TalliedFrame(env: Env, info: map<Id, AddrInfo>, info': map<Id, AddrInfo>, out: set<Id>,
                     nNew: int, nTried: int, counts: map<Network, Counts>)
    requires Tallied(env, info, out, nNew, nTried, counts) && AgreeAddr(info, info') && AgreeTried(info, info')
    ensures Tallied(env, info', out, nNew, nTried, counts)
  {
    TagsUnchanged(env, info, out, nNew, nTried, counts, info', out);
  }

  lemma DatedFrame(info: map<Id, AddrInfo>, info': map<Id, AddrInfo>, idCount: nat)
    requires Dated(info, idCount) && AgreeDates(info, info') && AgreeTried(info, info')
    ensures Dated(info', idCount)
  {
  }

  // ----- the random vector

  /** Only the positions in the random vector change. */
  ghost predicate AgreeButPos(info: map<Id, AddrInfo>, info': map<Id, AddrInfo>) {
    info.Keys == info'.Keys && forall i :: i in info ==> info'[i] == info[i].(randomPos := info'[i].randomPos)
  }

  lemma ButPos(info: map<Id, AddrInfo>, info': map<Id, AddrInfo>)
    requires AgreeButPos(info, info')
    ensures AgreeAddr(info, info') && AgreeTried(info, info') && AgreeRefs(info, info') && AgreeDates(info, info')
  {
  }

  lemma MoveOne(info: map<Id, AddrInfo>, i: Id, q: int)
    requires i in info
    ensures AgreeButPos(info, info[i := info[i].(randomPos := q)])
  {
  }

  lemma MoveTwo(info: map<Id, AddrInfo>, info1: map<Id, AddrInfo>, info2: map<Id, AddrInfo>)
    requires AgreeButPos(info, info1) && AgreeButPos(info1, info2)
    ensures AgreeButPos(info, info2)
  {
    forall i | i in info
      ensures info2[i] == info[i].(randomPos := info2[i].randomPos)
    {
      assert info1[i] == info[i].(randomPos := info1[i].randomPos);
    }
  }

  lemma SwapAgrees(s: State, p: int, q: int)
    requires CanSwap(s, p, q)
    ensures AgreeButPos(s.info, SwapRandom(s, p, q).info)
  {
    if p != q {
      var i, j := s.random[p], s.random[q];
      var info1 := s.info[i := s.info[i].(randomPos := q)];
      MoveOne(s.info, i, q);
      MoveOne(info1, j, p);
      MoveTwo(s.info, info1, info1[j := info1[j].(randomPos := p)]);
    }
  }

  lemma ShuffledMoved(info: map<Id, AddrInfo>, random: seq<Id>, info': map<Id, AddrInfo>, random': seq<Id>, p: int,
                      q: int)
    requires Shuffled(info, random) && 0 <= p < |random| && 0 <= q < |random| && p != q
    requires random' == random[p := random[q]][q := random[p]]
    requires info'.Keys == info.Keys && info'[random[p]].randomPos == q && info'[random[q]].randomPos == p
    requires forall k :: k in info && k != random[p] && k != random[q] ==> info'[k].randomPos == info[k].randomPos
    ensures Shuffled(info', random')
  {
    var i, j := random[p], random[q];
    assert info[i].randomPos == p && info[j].randomPos == q;
    forall k | k in info'
      ensures 0 <= info'[k].randomPos < |random'| && random'[info'[k].randomPos] == k
    {
    }
  }

  lemma ShuffledSwap(s: State, p: int, q: int)
    requires Shuffled(s.info, s.random) && CanSwap(s, p, q)
    ensures var t := SwapRandom(s, p, q);
            Shuffled(t.info, t.random) && |t.random| == |s.random| && t.random[q] == s.random[p]
  {
    if p != q {
      var t := SwapRandom(s, p, q);
      assert s.info[s.random[p]].randomPos == p && s.info[s.random[q]].randomPos == q;
      ShuffledMoved(s.info, s.random, t.info, t.random, p, q);
    }
  }

  // ----- slots of the new table

  lemma SlotsAfterDrop(news: map<Slot, Id>, slot: Slot, j: Id)
    requires slot in news
    ensures |SlotsOf(news - {slot}, j)| == |SlotsOf(news, j)| - One(news[slot] == j)
  {
    if news[slot] == j {
      assert SlotsOf(news - {slot}, j) == SlotsOf(news, j) - {slot};
    } else {
      assert SlotsOf(news - {slot}, j) == SlotsOf(news, j);
    }
  }

  lemma RefCountedDrop(info: map<Id, AddrInfo>, news: map<Slot, Id>, zero: set<Id>, slot: Slot)
    requires RefCounted(info, news, zero) && Slotless(info, zero) && slot in news && news[slot] in info
    ensures var i := news[slot];
            var x := info[i].(refCount := info[i].refCount - 1);
            var zero' := if x.refCount == 0 then zero + {i} else zero;
            && info[i].refCount >= 1 && i !in zero
            && RefCounted(info[i := x], news - {slot}, zero') && Slotless(info[i := x], zero')
  {
    var i := news[slot];
    assert slot in SlotsOf(news, i);
    forall j
      ensures |SlotsOf(news - {slot}, j)| == |SlotsOf(news, j)| - One(i == j)
    {
      SlotsAfterDrop(news, slot, j);
    }
  }

  lemma SlotsAfterFill(news: map<Slot, Id>, slot: Slot, i: Id, j: Id)
    requires slot !in news
    ensures |SlotsOf(news[slot := i], j)| == |SlotsOf(news, j)| + One(i == j)
  {
    if i == j {
      assert SlotsOf(news[slot := i], j) == SlotsOf(news, j) + {slot};
    } else {
      assert SlotsOf(news[slot := i], j) == SlotsOf(news, j);
    }
  }

  lemma RefCountedFill(info: map<Id, AddrInfo>, news: map<Slot, Id>, zero: set<Id>, slot: Slot, i: Id)
    requires RefCounted(info, news, zero) && Slotless(info, zero) && slot !in news
    requires i in info && !info[i].inTried && info[i].refCount < MAX_NEW_BUCKETS
    ensures var x := info[i].(refCount := info[i].refCount + 1);
            RefCounted(info[i := x], news[slot := i], zero - {i}) && Slotless(info[i := x], zero - {i})
  {
    forall j
      ensures |SlotsOf(news[slot := i], j)| == |SlotsOf(news, j)| + One(i == j)
    {
      SlotsAfterFill(news, slot, i, j);
    }
  }

  ghost predicate Submap(news': map<Slot, Id>, news: map<Slot, Id>) {
    forall t :: t in news' ==> t in news && news'[t] == news[t]
  }

  lemma RefCountedDetach(info: map<Id, AddrInfo>, news: map<Slot, Id>, news': map<Slot, Id>, zero: set<Id>, i: Id)
    requires RefCounted(info, news, zero) && Slotless(info, zero) && i in info && !info[i].inTried
    requires news' == map t | t in news && news[t] != i :: news[t]
    ensures var info' := info[i := info[i].(refCount := 0)];
            RefCounted(info', news', zero + {i}) && Slotless(info', zero + {i})
  {
    forall j
      ensures SlotsOf(news', j) == if j == i then {} else SlotsOf(news, j)
    {
    }
  }

  lemma NewPlacedSubmap(env: Env, info: map<Id, AddrInfo>, news: map<Slot, Id>, news': map<Slot, Id>)
    requires NewPlaced(env, info, news) && Submap(news', news)
    ensures NewPlaced(env, info, news')
  {
  }

  lemma NoSlots(env: Env, info: map<Id, AddrInfo>, news: map<Slot, Id>, zero: set<Id>, i: Id, slot: Slot)
    requires NewPlaced(env, info, news) && RefCounted(info, news, zero) && slot in news
    requires i in info ==> info[i].refCount == 0
    ensures news[slot] != i
  {
    assert slot in SlotsOf(news, news[slot]);
  }

  // ----- tried entries

  lemma TriedLeaves(env: Env, info: map<Id, AddrInfo>, tried: map<Slot, Id>, slot: Slot)
    requires TriedPlaced(env, info, tried) && slot in tried
    ensures var i := tried[slot];
            i in info && info[i].inTried && TriedPlaced(env, info[i := info[i].(inTried := false)], tried - {slot})
  {
  }

  lemma TriedEnters(env: Env, info: map<Id, AddrInfo>, tried: map<Slot, Id>, i: Id)
    requires TriedPlaced(env, info, tried) && i in info && !info[i].inTried && TriedSlot(env, info[i].addr) !in tried
    ensures TriedPlaced(env, info[i := info[i].(inTried := true)], tried[TriedSlot(env, info[i].addr) := i])
  {
  }

  /** Only entries without a slot in the new table change sides. */
  lemma NewPlacedAcross(env: Env, info: map<Id, AddrInfo>, info': map<Id, AddrInfo>, news: map<Slot, Id>,
                        zero: set<Id>, i: Id)
    requires NewPlaced(env, info, news) && RefCounted(info, news, zero) && i in info && info[i].refCount == 0
    requires AgreeAddr(info, info') && forall j :: j in info && j != i ==> info'[j].inTried == info[j].inTried
    ensures NewPlaced(env, info', news)
  {
    forall t | t in news
      ensures news[t] != i
    {
      NoSlots(env, info, news, zero, i, t);
    }
  }

  lemma RefCountedLeave(info: map<Id, AddrInfo>, news: map<Slot, Id>, zero: set<Id>, i: Id)
    requires RefCounted(info, news, zero) && Slotless(info, zero) && i in info && info[i].inTried
    ensures var info' := info[i := info[i].(inTried := false)];
            i !in zero && RefCounted(info', news, zero + {i}) && Slotless(info', zero + {i})
  {
  }

  lemma RefCountedEnter(info: map<Id, AddrInfo>, news: map<Slot, Id>, zero: set<Id>, i: Id)
    requires RefCounted(info, news, zero) && Slotless(info, zero) && i in zero
    ensures var info' := info[i := info[i].(inTried := true)];
            RefCounted(info', news, zero - {i}) && Slotless(info', zero - {i})
  {
  }

  lemma DatedUpdate(info: map<Id, AddrInfo>, idCount: nat, i: Id, x: AddrInfo)
    requires Dated(info, idCount) && i in info
    requires x.known.lastTry >= 0 && x.known.lastSuccess >= 0 && (x.inTried ==> x.known.lastSuccess != 0)
    ensures Dated(info[i := x], idCount)
  {
  }

  // ----- entries come and go

  lemma IndexedCreate(info: map<Id, AddrInfo>, ids: map<Service, Id>, i: Id, x: AddrInfo)
    requires Indexed(info, ids) && i !in info && x.addr !in ids
    ensures Indexed(info[i := x], ids[x.addr := i])
  {
  }

  lemma ShuffledCreate(info: map<Id, AddrInfo>, random: seq<Id>, i: Id, x: AddrInfo)
    requires Shuffled(info, random) && i !in info && x.randomPos == |random|
    ensures Shuffled(info[i := x], random + [i])
  {
  }

  lemma TablesCreate(env: Env, info: map<Id, AddrInfo>, news: map<Slot, Id>, tried: map<Slot, Id>, i: Id, x: AddrInfo)
    requires NewPlaced(env, info, news) && TriedPlaced(env, info, tried) && i !in info && !x.inTried
    ensures NewPlaced(env, info[i := x], news) && TriedPlaced(env, info[i := x], tried)
  {
  }

  lemma RefCountedCreate(env: Env, info: map<Id, AddrInfo>, news: map<Slot, Id>, zero: set<Id>, i: Id, x: AddrInfo)
    requires NewPlaced(env, info, news) && RefCounted(info, news, zero) && Slotless(info, zero)
    requires i !in info && !x.inTried && x.refCount == 0
    ensures RefCounted(info[i := x], news, zero + {i}) && Slotless(info[i := x], zero + {i})
  {
    assert SlotsOf(news, i) == {};
  }

  lemma IndexedDelete(info: map<Id, AddrInfo>, ids: map<Service, Id>, i: Id)
    requires Indexed(info, ids) && i in info
    ensures Indexed(info - {i}, ids - {info[i].addr})
  {
  }

  lemma ShuffledDelete(info: map<Id, AddrInfo>, random: seq<Id>, i: Id)
    requires Shuffled(info, random) && i in info && info[i].randomPos == |random| - 1
    ensures Shuffled(info - {i}, random[..|random| - 1])
  {
  }

  lemma TablesDelete(env: Env, info: map<Id, AddrInfo>, news: map<Slot, Id>, tried: map<Slot, Id>, zero: set<Id>, i: Id)
    requires NewPlaced(env, info, news) && TriedPlaced(env, info, tried) && RefCounted(info, news, zero)
    requires i in info && !info[i].inTried && info[i].refCount == 0
    ensures NewPlaced(env, info - {i}, news) && TriedPlaced(env, info - {i}, tried)
  {
    forall t | t in news
      ensures news[t] != i
    {
      NoSlots(env, info, news, zero, i, t);
    }
  }

  lemma RefCountedDelete(info: map<Id, AddrInfo>, news: map<Slot, Id>, zero: set<Id>, i: Id)
    requires RefCounted(info, news, zero) && Slotless(info, zero)
    ensures RefCounted(info - {i}, news, zero - {i}) && Slotless(info - {i}, zero - {i})
  {
  }

  lemma DatedCreate(info: map<Id, AddrInfo>, i: Id, x: AddrInfo)
    requires Dated(info, i) && x.known.lastTry >= 0 && x.known.lastSuccess >= 0 && !x.inTried
    ensures Dated(info[i := x], i + 1)
  {
  }

  lemma DatedDelete(info: map<Id, AddrInfo>, idCount: nat, i: Id)
    requires Dated(info, idCount)
    ensures Dated(info - {i}, idCount)
  {
  }

  /** The parts make the whole. */
  lemma Assemble(env: Env, t: State, zero: set<Id>, out: set<Id>)
    requires Indexed(t.info, t.ids)
    requires Shuffled(t.info, t.random)
    requires NewPlaced(env, t.info, t.news)
    requires TriedPlaced(env, t.info, t.tried)
    requires RefCounted(t.info, t.news, zero)
    requires Tallied(env, t.info, out, t.nNew, t.nTried, t.counts)
    requires Dated(t.info, t.idCount)
    requires Slotless(t.info, zero)
    requires out <= zero
    ensures Between(env, t, zero, out)
  {
  }
}
