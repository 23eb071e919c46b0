/** What holds of every file the address manager may read, well written or not, and of the sizes of those it writes. */
module AddrDisk {
  import opened Basics
  import opened AddrState
  import opened AddrFrames
  import opened AddrSteps
  import opened AddrOps
  import opened AddrBook
  import opened AddrCheck
  import opened AddrFile
  import opened AddrLoad

  /** The random vector is in order, and no id is used ahead of time. */
  ghost predicate Ordered(t: State) {
    Shuffled(t.info, t.random) && forall i :: i in t.info ==> i < t.idCount
  }

  lemma CreateOrdered(env: Env, t: State, a: Service, k: Known)
    requires Ordered(t)
    ensures Ordered(Create(env, t, a, k))
  {
    ShuffledCreate(t.info, t.random, t.idCount, AddrInfo(a, k, 0, false, |t.random|));
  }

  lemma {:induction false} LoadNewOrdered(env: Env, entries: seq<Entry>, k: nat)
    requires k <= |entries|
    ensures var t := LoadNew(env, entries, k); Ordered(t) && InBounds(env, t.tried, t.news)
    ensures LoadNew(env, entries, k).idCount == k
  {
    if k > 0 {
      LoadNewOrdered(env, entries, k - 1);
      CreateOrdered(env, LoadNew(env, entries, k - 1), entries[k - 1].addr, Recalled(entries[k - 1]));
    }
  }

  lemma AddTriedOrdered(env: Env, t: State, e: Entry)
    requires Ordered(t)
    ensures Ordered(AddTried(env, t, e))
  {
    ShuffledCreate(t.info, t.random, t.idCount, AddrInfo(e.addr, Recalled(e), 0, true, |t.random|));
  }

  lemma {:induction false} LoadTriedOrdered(env: Env, t: State, entries: seq<Entry>, k: nat)
    requires Ordered(t) && InBounds(env, t.tried, t.news) && k <= |entries|
    ensures var u := LoadTried(env, t, entries, k); Ordered(u) && InBounds(env, u.tried, u.news)
  {
    if k > 0 {
      LoadTriedOrdered(env, t, entries, k - 1);
      AddTriedOrdered(env, LoadTried(env, t, entries, k - 1), entries[k - 1]);
    }
  }

  lemma {:induction false} NewIdsLoaded(env: Env, entries: seq<Entry>, k: nat)
    requires k <= |entries|
    ensures forall i :: 0 <= i < k ==> i in LoadNew(env, entries, k).info
  {
    if k > 0 {
      NewIdsLoaded(env, entries, k - 1);
      LoadNewOrdered(env, entries, k - 1);
    }
  }

  lemma {:induction false} IdsStay(env: Env, t: State, entries: seq<Entry>, k: nat, i: Id)
    requires i in t.info && k <= |entries|
    ensures i in LoadTried(env, t, entries, k).info
  {
    if k > 0 {
      IdsStay(env, t, entries, k - 1, i);
    }
  }

  /** Every index below the number of new entries names an entry. */
  lemma LoadedIds(env: Env, file: File)
    ensures var t := LoadTried(env, LoadNew(env, file.news, |file.news|), file.tried, |file.tried|);
            forall i :: 0 <= i < |file.news| ==> i in t.info
  {
    NewIdsLoaded(env, file.news, |file.news|);
    forall i | 0 <= i < |file.news|
      ensures i in LoadTried(env, LoadNew(env, file.news, |file.news|), file.tried, |file.tried|).info
    {
      IdsStay(env, LoadNew(env, file.news, |file.news|), file.tried, |file.tried|, i);
    }
  }

  lemma FillOrdered(t: State, slot: Slot, i: Id)
    requires Ordered(t) && i in t.info
    ensures Ordered(FillSlot(t, slot, i))
  {
    Updated(t.info, i, FillSlot(t, slot, i).info[i]);
    ShuffledFrame(t.info, FillSlot(t, slot, i).info, t.random);
  }

  lemma PlaceOrdered(env: Env, t: State, bucket: nat, index: int, restore: bool)
    requires Ordered(t) && InBounds(env, t.tried, t.news) && (restore ==> bucket < env.newBuckets)
    ensures var u := PlaceOne(env, t, bucket, index, restore); Ordered(u) && InBounds(env, u.tried, u.news)
  {
    if index >= 0 && index in t.info {
      FillOrdered(t, Slot(bucket, NewPos(env, t.info[index].addr, bucket)), index);
      FillOrdered(t, HomeSlot(env, t.info[index]), index);
    }
  }

  lemma {:induction false} BucketOrdered(env: Env, t: State, bucket: nat, list: seq<int>, nNew: nat, restore: bool)
    requires Ordered(t) && InBounds(env, t.tried, t.news) && (restore ==> bucket < env.newBuckets)
    ensures var u := PlaceBucket(env, t, bucket, list, nNew, restore); Ordered(u) && InBounds(env, u.tried, u.news)
    decreases |list|
  {
    if list != [] {
      var last := |list| - 1;
      BucketOrdered(env, t, bucket, list[..last], nNew, restore);
      PlaceOrdered(env, PlaceBucket(env, t, bucket, list[..last], nNew, restore), bucket, list[last], restore);
    }
  }

  lemma {:induction false} BucketsOrdered(env: Env, t: State, buckets: seq<seq<int>>, n: nat, nNew: nat, restore: bool)
    requires Ordered(t) && InBounds(env, t.tried, t.news) && n <= |buckets| && (restore ==> |buckets| == env.newBuckets)
    ensures var u := PlaceBuckets(env, t, buckets, n, nNew, restore); Ordered(u) && InBounds(env, u.tried, u.news)
  {
    if n > 0 {
      BucketsOrdered(env, t, buckets, n - 1, nNew, restore);
      BucketOrdered(env, PlaceBuckets(env, t, buckets, n - 1, nNew, restore), n - 1, buckets[n - 1], nNew, restore);
    }
  }

  /** Whatever the file says, the entries read can be deleted again, and no slot lies beyond the tables. */
  lemma LoadOrdered(env: Env, file: File, checksum: nat)
    ensures var t := Load(env, file, checksum); Ordered(t) && InBounds(env, t.tried, t.news)
  {
    var t := LoadNew(env, file.news, |file.news|);
    LoadNewOrdered(env, file.news, |file.news|);
    LoadTriedOrdered(env, t, file.tried, |file.tried|);
    BucketsOrdered(env, LoadTried(env, t, file.tried, |file.tried|), file.buckets, |file.buckets|, |file.news|,
                   |file.buckets| == env.newBuckets && file.checksum == checksum);
  }

  /** Deleting an entry in neither table is always possible, and keeps the vector in order. */
  lemma PruneOrdered(env: Env, t: State, i: Id)
    requires Ordered(t) && InBounds(env, t.tried, t.news)
    ensures CanDelete(t, i) <==> i in Waiting(t)
    ensures var u := PruneOne(env, t, i); Ordered(u) && InBounds(env, u.tried, u.news)
  {
    if i in Waiting(t) {
      assert t.random[t.info[i].randomPos] == i;
      DeleteOrdered(env, t, i);
    }
  }

  lemma DropLastOrdered(env: Env, m: State, i: Id)
    requires Ordered(m) && |m.random| > 0 && m.random[|m.random| - 1] == i && i in m.info
    ensures var u := DropLast(env, m, i); Ordered(u) && u.tried == m.tried && u.news == m.news
  {
    ShuffledDelete(m.info, m.random, i);
  }

  lemma SwapOrdered(t: State, p: int, q: int)
    requires Ordered(t) && CanSwap(t, p, q)
    ensures var m := SwapRandom(t, p, q); Ordered(m) && m.tried == t.tried && m.news == t.news
  {
    ShuffledSwap(t, p, q);
  }

  lemma DeleteOrdered(env: Env, t: State, i: Id)
    requires Ordered(t) && CanDelete(t, i)
    ensures var u := Delete(env, t, i); Ordered(u) && u.tried == t.tried && u.news == t.news
  {
    var p, q := t.info[i].randomPos, |t.random| - 1;
    DeleteIsDropLast(env, t, i);
    SwapOrdered(t, p, q);
    SwapToEnd(t, i);
    DropLastOrdered(env, SwapRandom(t, p, q), i);
  }

  // ----- sizes

  /** The file names no more entries than the tables have slots. */
  predicate FitsTables(env: Env, file: File) {
    |file.news| <= env.newBuckets * env.bucketSize && |file.tried| <= env.triedBuckets * env.bucketSize
  }

  ghost function Row(bucket: nat, size: nat): set<Slot> { set p: nat | p < size :: Slot(bucket, p) }

  ghost function Grid(buckets: nat, size: nat): set<Slot> {
    if buckets == 0 then {} else Grid(buckets - 1, size) + Row(buckets - 1, size)
  }

  lemma {:induction false} RowSize(bucket: nat, size: nat)
    ensures |Row(bucket, size)| == size
  {
    if size > 0 {
      RowSize(bucket, size - 1);
      assert Row(bucket, size) == Row(bucket, size - 1) + {Slot(bucket, size - 1)};
    }
  }

  lemma {:induction false} GridIs(buckets: nat, size: nat, t: Slot)
    ensures t in Grid(buckets, size) <==> t.bucket < buckets && t.pos < size
  {
    if buckets > 0 {
      GridIs(buckets - 1, size, t);
      assert t in Row(buckets - 1, size) <==> t.bucket == buckets - 1 && t.pos < size;
    }
  }

  lemma DisjointSize(a: set<Slot>, b: set<Slot>)
    requires a !! b
    ensures |a + b| == |a| + |b|
  {
  }

  lemma RowIsApart(buckets: nat, size: nat)
    ensures Grid(buckets, size) !! Row(buckets, size)
  {
    forall t | t in Grid(buckets, size)
      ensures t !in Row(buckets, size)
    {
      GridIs(buckets, size, t);
    }
  }

  lemma {:induction false} GridSize(buckets: nat, size: nat)
    ensures |Grid(buckets, size)| == buckets * size
  {
    if buckets > 0 {
      GridSize(buckets - 1, size);
      RowSize(buckets - 1, size);
      RowIsApart(buckets - 1, size);
      DisjointSize(Grid(buckets - 1, size), Row(buckets - 1, size));
      assert buckets * size == (buckets - 1) * size + size;
    }
  }

  /** The id holds one of these slots. */
  ghost predicate HoldsOneOf(table: map<Slot, Id>, slots: set<Slot>, i: Id) {
    exists t :: t in slots && t in table && table[t] == i
  }

  /** A list of ids that each hold a slot is no longer than there are slots. */
  lemma {:induction false} ListFits(table: map<Slot, Id>, list: seq<Id>, slots: set<Slot>)
    requires Distinct(list) && forall k :: 0 <= k < |list| ==> HoldsOneOf(table, slots, list[k])
    ensures |list| <= |slots|
    decreases |list|
  {
    if list != [] {
      var last := |list| - 1;
      assert HoldsOneOf(table, slots, list[last]);
      var t :| t in slots && t in table && table[t] == list[last];
      forall k | 0 <= k < last
        ensures HoldsOneOf(table, slots - {t}, list[..last][k])
      {
        assert HoldsOneOf(table, slots, list[k]);
        var u :| u in slots && u in table && table[u] == list[k];
        assert u in slots - {t};
      }
      ListFits(table, list[..last], slots - {t});
    }
  }

  lemma NewFits(env: Env, s: State, list: seq<Id>)
    requires NewPlaced(env, s.info, s.news) && RefCounted(s.info, s.news, {}) && Distinct(list)
    requires forall k :: 0 <= k < |list| ==> list[k] in s.info && !s.info[list[k]].inTried
    ensures |list| <= env.newBuckets * env.bucketSize
  {
    var grid := Grid(env.newBuckets, env.bucketSize);
    forall k | 0 <= k < |list|
      ensures HoldsOneOf(s.news, grid, list[k])
    {
      assert |SlotsOf(s.news, list[k])| >= 1;
      var t :| t in SlotsOf(s.news, list[k]);
      GridIs(env.newBuckets, env.bucketSize, t);
    }
    ListFits(s.news, list, grid);
    GridSize(env.newBuckets, env.bucketSize);
  }

  lemma TriedFits(env: Env, s: State, list: seq<Id>)
    requires TriedPlaced(env, s.info, s.tried) && Distinct(list)
    requires forall k :: 0 <= k < |list| ==> list[k] in s.info && s.info[list[k]].inTried
    ensures |list| <= env.triedBuckets * env.bucketSize
  {
    var grid := Grid(env.triedBuckets, env.bucketSize);
    forall k | 0 <= k < |list|
      ensures HoldsOneOf(s.tried, grid, list[k])
    {
      var t := TriedSlot(env, s.info[list[k]].addr);
      GridIs(env.triedBuckets, env.bucketSize, t);
      assert t in s.tried && s.tried[t] == list[k];
    }
    ListFits(s.tried, list, grid);
    GridSize(env.triedBuckets, env.bucketSize);
  }

  /** A file that was written is never refused for its size. */
  lemma SavedFits(env: Env, s: State, order: seq<Id>, checksum: nat)
    requires Between(env, s, {}, {}) && Enumerates(order, s.info)
    ensures FitsTables(env, Save(env, s, order, checksum))
  {
    Written(env, s, order);
    var news, tried := Select(s.info, order, false), Select(s.info, order, true);
    NewIsListed(s, news, tried);
    TriedInList(s, news, tried);
    NewFits(env, s, news);
    TriedFits(env, s, tried);
  }

  lemma {:induction false} ListSize(list: seq<Id>, ids: set<Id>)
    requires Distinct(list) && forall i :: i in list <==> i in ids
    ensures |list| == |ids|
    decreases |list|
  {
    if list == [] {
      assert ids == {};
    } else {
      var last := |list| - 1;
      var i := list[last];
      assert i in list && i !in list[..last];
      forall j
        ensures j in list[..last] <==> j in ids - {i}
      {
        assert j in list <==> j in list[..last] || j == i;
      }
      ListSize(list[..last], ids - {i});
    }
  }

  /** As many entries are written as the manager counts. */
  lemma CountsAreWritten(env: Env, s: State, order: seq<Id>, checksum: nat)
    requires Between(env, s, {}, {}) && Enumerates(order, s.info)
    ensures var file := Save(env, s, order, checksum); |file.news| == s.nNew && |file.tried| == s.nTried
  {
    Written(env, s, order);
    ListSize(Select(s.info, order, false), NewIds(s.info));
    ListSize(Select(s.info, order, true), TriedIds(s.info));
    TotalsAreFine(env, s.info, s.nNew, s.nTried, s.counts);
  }

  /**
   * A file just written by a sound manager with valid addresses is accepted, nothing of it is pruned,
   * and the reloaded manager is sound and stands for the same book.
   */
  lemma SavedIsReloaded(env: Env, s: State, order: seq<Id>, checksum: nat, pruneOrder: seq<Id>)
    requires Inv(env, s) && Enumerates(order, s.info) && AllValid(env, s)
    ensures var file := Save(env, s, order, checksum);
            var t := Prune(env, Load(env, file, checksum), pruneOrder);
            && FitsTables(env, file) && Consistent(env, t) && Inv(env, t)
            && SameBook(Abs(s), Abs(t))
  {
    SavedFits(env, s, order, checksum);
    RoundTrip(env, s, order, checksum, pruneOrder);
  }
}
