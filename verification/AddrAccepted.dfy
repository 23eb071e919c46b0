/** Whatever a file says: if loading it passes the consistency check, the manager satisfies its whole invariant. */
module AddrAccepted {
  import opened AddrState
  import opened AddrSteps
  import opened AddrCheck
  import opened AddrFile
  import opened AddrLoad
  import opened AddrDisk

  /** No indexed address lacks its entry, although two entries may have the same address. */
  ghost predicate NoDangling(info: map<Id, AddrInfo>, ids: map<Service, Id>) {
    forall a :: a in ids ==> ids[a] in info && info[ids[a]].addr == a
  }

  /** Every network in use has counters. */
  ghost predicate Covered(env: Env, info: map<Id, AddrInfo>, counts: map<Network, Counts>) {
    forall i :: i in info ==> NetworkOf(env, info[i].addr) in counts
  }

  /** What loading keeps besides the order of the random vector, and the consistency check does not look at. */
  ghost predicate Tidy(env: Env, t: State) {
    NoDangling(t.info, t.ids) && Covered(env, t.info, t.counts) && t.collisions == {}
  }

  // ----- loading keeps tidy

  /** A new entry under an id of its own takes over its address. */
  lemma EntryTidy(env: Env, t: State, u: State, x: AddrInfo)
    requires Tidy(env, t) && t.idCount !in t.info
    requires u.info == t.info[t.idCount := x] && u.ids == t.ids[x.addr := t.idCount] && u.collisions == t.collisions
    requires u.counts.Keys == t.counts.Keys + {NetworkOf(env, x.addr)}
    ensures Tidy(env, u)
  {
  }

  lemma CreateTidy(env: Env, t: State, a: Service, k: Known)
    requires Tidy(env, t) && t.idCount !in t.info
    ensures Tidy(env, Create(env, t, a, k))
  {
    EntryTidy(env, t, Create(env, t, a, k), AddrInfo(a, k, 0, false, |t.random|));
  }

  lemma {:induction false} LoadNewTidy(env: Env, entries: seq<Entry>, k: nat)
    requires k <= |entries|
    ensures Tidy(env, LoadNew(env, entries, k))
  {
    if k > 0 {
      var t, e := LoadNew(env, entries, k - 1), entries[k - 1];
      LoadNewTidy(env, entries, k - 1);
      LoadNewOrdered(env, entries, k - 1);
      CreateTidy(env, t, e.addr, Recalled(e));
    }
  }

  lemma {:induction false} LoadTriedTidy(env: Env, t: State, entries: seq<Entry>, k: nat)
    requires Ordered(t) && InBounds(env, t.tried, t.news) && Tidy(env, t) && k <= |entries|
    ensures Tidy(env, LoadTried(env, t, entries, k))
  {
    if k > 0 {
      var u, e := LoadTried(env, t, entries, k - 1), entries[k - 1];
      LoadTriedTidy(env, t, entries, k - 1);
      LoadTriedOrdered(env, t, entries, k - 1);
      EntryTidy(env, u, AddTried(env, u, e), AddrInfo(e.addr, Recalled(e), 0, true, |u.random|));
    }
  }

  lemma PlaceTidy(env: Env, t: State, bucket: nat, index: int, restore: bool)
    requires Tidy(env, t)
    ensures Tidy(env, PlaceOne(env, t, bucket, index, restore))
  {
  }

  lemma {:induction false} BucketTidy(env: Env, t: State, bucket: nat, list: seq<int>, nNew: nat, restore: bool)
    requires Tidy(env, t)
    ensures Tidy(env, PlaceBucket(env, t, bucket, list, nNew, restore))
    decreases |list|
  {
    if list != [] {
      var last := |list| - 1;
      BucketTidy(env, t, bucket, list[..last], nNew, restore);
      PlaceTidy(env, PlaceBucket(env, t, bucket, list[..last], nNew, restore), bucket, list[last], restore);
    }
  }

  lemma {:induction false} BucketsTidy(env: Env, t: State, buckets: seq<seq<int>>, n: nat, nNew: nat, restore: bool)
    requires Tidy(env, t) && n <= |buckets|
    ensures Tidy(env, PlaceBuckets(env, t, buckets, n, nNew, restore))
  {
    if n > 0 {
      BucketsTidy(env, t, buckets, n - 1, nNew, restore);
      BucketTidy(env, PlaceBuckets(env, t, buckets, n - 1, nNew, restore), n - 1, buckets[n - 1], nNew, restore);
    }
  }

  lemma LoadTidy(env: Env, file: File, checksum: nat)
    ensures Tidy(env, Load(env, file, checksum))
  {
    var t := LoadNew(env, file.news, |file.news|);
    LoadNewTidy(env, file.news, |file.news|);
    LoadNewOrdered(env, file.news, |file.news|);
    LoadTriedTidy(env, t, file.tried, |file.tried|);
    BucketsTidy(env, LoadTried(env, t, file.tried, |file.tried|), file.buckets, |file.buckets|, |file.news|,
                |file.buckets| == env.newBuckets && file.checksum == checksum);
  }

  // ----- deleting keeps tidy

  lemma SwapTidy(env: Env, t: State, p: int, q: int)
    requires Tidy(env, t) && CanSwap(t, p, q)
    ensures Tidy(env, SwapRandom(t, p, q))
  {
  }

  /** Dropping an entry drops its address, also if another entry had taken it over. */
  lemma DropTidy(env: Env, t: State, i: Id)
    requires Tidy(env, t) && i in t.info && |t.random| > 0
    ensures Tidy(env, DropLast(env, t, i))
  {
  }

  lemma PruneOneTidy(env: Env, t: State, i: Id)
    requires Tidy(env, t)
    ensures Tidy(env, PruneOne(env, t, i))
  {
    if CanDelete(t, i) {
      var p, q := t.info[i].randomPos, |t.random| - 1;
      DeleteIsDropLast(env, t, i);
      SwapTidy(env, t, p, q);
      DropTidy(env, SwapRandom(t, p, q), i);
    }
  }

  lemma {:induction false} PruneTidy(env: Env, t: State, order: seq<Id>)
    requires Ordered(t) && InBounds(env, t.tried, t.news) && Tidy(env, t)
    ensures var u := Prune(env, t, order); Ordered(u) && InBounds(env, u.tried, u.news) && Tidy(env, u)
    decreases |order|
  {
    if order != [] {
      var init, last := order[..|order| - 1], order[|order| - 1];
      PruneTidy(env, t, init);
      PruneOrdered(env, Prune(env, t, init), last);
      PruneOneTidy(env, Prune(env, t, init), last);
    }
  }

  // ----- what the check adds

  lemma SlotsArePlaced(env: Env, info: map<Id, AddrInfo>, ids: map<Service, Id>, random: seq<Id>,
                       tried: map<Slot, Id>, news: map<Slot, Id>)
    requires EntriesPass(info, ids, random) && InBounds(env, tried, news)
    requires TriedPasses(env, info, tried) && NewPasses(env, info, news)
    ensures TriedPlaced(env, info, tried) && NewPlaced(env, info, news)
  {
    forall i | i in info && info[i].inTried
      ensures TriedSlot(env, info[i].addr) in tried && tried[TriedSlot(env, info[i].addr)] == i
    {
      assert i in TriedIds(info);
      var t :| t in tried && tried[t] == i;
      assert TriedSlotPasses(env, info, tried, t);
    }
    forall t | t in news
      ensures news[t] in info && !info[news[t]].inTried && t.pos == NewPos(env, info[news[t]].addr, t.bucket)
    {
      assert NewSlotPasses(env, info, news, t);
    }
  }

  lemma RefsAreCounted(env: Env, info: map<Id, AddrInfo>, ids: map<Service, Id>, random: seq<Id>, news: map<Slot, Id>)
    requires EntriesPass(info, ids, random) && NewPasses(env, info, news)
    ensures RefCounted(info, news, {})
  {
    forall i | i in info
      ensures info[i].refCount == |SlotsOf(news, i)| <= MAX_NEW_BUCKETS
      ensures info[i].inTried ==> info[i].refCount == 0
      ensures !info[i].inTried ==> info[i].refCount >= 1
    {
      assert EntryPasses(info, ids, random, i);
      if info[i].inTried {
        assert forall t :: t in news ==> NewSlotPasses(env, info, news, t);
        assert SlotsOf(news, i) == {};
      } else {
        assert i in NewIds(info);
      }
    }
  }

  lemma UnusedNetwork(env: Env, info: map<Id, AddrInfo>, counts: map<Network, Counts>, n: Network)
    requires Covered(env, info, counts) && n !in counts
    ensures Matching(env, info, {}, NewIn(n)) == {} && Matching(env, info, {}, TriedIn(n)) == {}
  {
  }

  lemma NetworkIsExact(env: Env, info: map<Id, AddrInfo>, counts: map<Network, Counts>, n: Network)
    requires CountsPass(env, info, counts) && Covered(env, info, counts)
    ensures CountsOf(counts, n) == Counts(|Matching(env, info, {}, NewIn(n))|, |Matching(env, info, {}, TriedIn(n))|)
  {
    if n !in counts {
      UnusedNetwork(env, info, counts, n);
    }
  }

  lemma TotalIsExact(env: Env, info: map<Id, AddrInfo>)
    ensures Matching(env, info, {}, AllNew) == NewIds(info) && Matching(env, info, {}, AllTried) == TriedIds(info)
  {
  }

  /** The counters that exist are exact, and those that do not exist are of networks without entries. */
  lemma CountersAreExact(env: Env, info: map<Id, AddrInfo>, nNew: int, nTried: int, counts: map<Network, Counts>)
    requires |TriedIds(info)| == nTried && |NewIds(info)| == nNew
    requires CountsPass(env, info, counts) && Covered(env, info, counts)
    ensures Tallied(env, info, {}, nNew, nTried, counts)
  {
    forall q
      ensures Counter(nNew, nTried, counts, q) == |Matching(env, info, {}, q)|
    {
      TotalIsExact(env, info);
      if q.NewIn? || q.TriedIn? {
        NetworkIsExact(env, info, counts, q.net);
      }
    }
  }

  lemma EntriesAreIndexed(t: State)
    requires EntriesPass(t.info, t.ids, t.random) && NoDangling(t.info, t.ids) && Ordered(t)
    ensures Indexed(t.info, t.ids) && Dated(t.info, t.idCount)
  {
    assert forall i :: i in t.info ==> EntryPasses(t.info, t.ids, t.random, i);
  }

  lemma Assembled(env: Env, t: State)
    requires Indexed(t.info, t.ids) && Shuffled(t.info, t.random)
    requires NewPlaced(env, t.info, t.news) && TriedPlaced(env, t.info, t.tried) && RefCounted(t.info, t.news, {})
    requires Tallied(env, t.info, {}, t.nNew, t.nTried, t.counts) && Dated(t.info, t.idCount) && t.collisions == {}
    ensures Inv(env, t)
  {
  }

  lemma ConsistentIsSound(env: Env, t: State)
    requires Ordered(t) && InBounds(env, t.tried, t.news) && Tidy(env, t) && Consistent(env, t)
    ensures Inv(env, t)
  {
    EntriesAreIndexed(t);
    SlotsArePlaced(env, t.info, t.ids, t.random, t.tried, t.news);
    RefsAreCounted(env, t.info, t.ids, t.random, t.news);
    CountersAreExact(env, t.info, t.nNew, t.nTried, t.counts);
    Assembled(env, t);
  }

  /** A file that is accepted, however it was made, leads to a state that satisfies the invariant. */
  lemma AcceptedIsSound(env: Env, file: File, checksum: nat, pruneOrder: seq<Id>)
    ensures var t := Prune(env, Load(env, file, checksum), pruneOrder); Consistent(env, t) <==> Inv(env, t)
  {
    LoadOrdered(env, file, checksum);
    LoadTidy(env, file, checksum);
    PruneTidy(env, Load(env, file, checksum), pruneOrder);
    var t := Prune(env, Load(env, file, checksum), pruneOrder);
    if Consistent(env, t) {
      ConsistentIsSound(env, t);
    } else if Inv(env, t) {
      SoundIsConsistent(env, t);
    }
  }
}
