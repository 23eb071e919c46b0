/** The address manager's own consistency check: what it tests, and that it finds exactly the states that fail it. */
module AddrCheck {
  import opened AddrState
  import opened AddrFrames

  // ----- what is tested

  /** One entry agrees with the indexes, and its own fields with each other. */
  predicate EntryPasses(info: map<Id, AddrInfo>, ids: map<Service, Id>, random: seq<Id>, i: Id)
    requires i in info
  {
    var x := info[i];
    && (if x.inTried then x.known.lastSuccess != 0 && x.refCount == 0 else 1 <= x.refCount <= MAX_NEW_BUCKETS)
    && x.addr in ids && ids[x.addr] == i
    && 0 <= x.randomPos < |random| && random[x.randomPos] == i
    && x.known.lastTry >= 0 && x.known.lastSuccess >= 0
  }

  ghost predicate EntriesPass(info: map<Id, AddrInfo>, ids: map<Service, Id>, random: seq<Id>) {
    forall i :: i in info ==> EntryPasses(info, ids, random, i)
  }

  function TriedIds(info: map<Id, AddrInfo>): set<Id> { set i | i in info && info[i].inTried }

  function NewIds(info: map<Id, AddrInfo>): set<Id> { set i | i in info && !info[i].inTried }

  /** Every occupied tried slot is the computed slot of a tried entry, and every tried entry has its slot. */
  ghost predicate TriedPasses(env: Env, info: map<Id, AddrInfo>, tried: map<Slot, Id>) {
    && (forall t :: t in tried ==> TriedSlotPasses(env, info, tried, t))
    && (forall i :: i in TriedIds(info) ==> exists t :: t in tried && tried[t] == i)
  }

  predicate TriedSlotPasses(env: Env, info: map<Id, AddrInfo>, tried: map<Slot, Id>, t: Slot)
    requires t in tried
  {
    tried[t] in info && info[tried[t]].inTried && t == TriedSlot(env, info[tried[t]].addr)
  }

  /** Every occupied new slot is a computed slot of a new entry, and each entry has as many as it counts. */
  ghost predicate NewPasses(env: Env, info: map<Id, AddrInfo>, news: map<Slot, Id>) {
    && (forall t :: t in news ==> NewSlotPasses(env, info, news, t))
    && (forall i :: i in NewIds(info) ==> |SlotsOf(news, i)| == info[i].refCount)
  }

  predicate NewSlotPasses(env: Env, info: map<Id, AddrInfo>, news: map<Slot, Id>, t: Slot)
    requires t in news
  {
    news[t] in info && !info[news[t]].inTried && t.pos == NewPos(env, info[news[t]].addr, t.bucket)
  }

  ghost function UsedNetworks(env: Env, info: map<Id, AddrInfo>): set<Network> {
    set i | i in info :: NetworkOf(env, info[i].addr)
  }

  /** Every recorded counter is exact, and there are at least as many as networks in use. */
  ghost predicate CountsPass(env: Env, info: map<Id, AddrInfo>, counts: map<Network, Counts>) {
    && |counts| >= |UsedNetworks(env, info)|
    && (forall n :: n in counts ==>
          counts[n] == Counts(|Matching(env, info, {}, NewIn(n))|, |Matching(env, info, {}, TriedIn(n))|))
  }

  /** What the check promises when it returns zero. */
  ghost predicate Consistent(env: Env, s: State) {
    && |s.random| == s.nTried + s.nNew
    && EntriesPass(s.info, s.ids, s.random)
    && |TriedIds(s.info)| == s.nTried
    && |NewIds(s.info)| == s.nNew
    && TriedPasses(env, s.info, s.tried)
    && NewPasses(env, s.info, s.news)
    && CountsPass(env, s.info, s.counts)
  }

  /** The tables are arrays: there are no slots beyond their bounds. */
  ghost predicate InBounds(env: Env, tried: map<Slot, Id>, news: map<Slot, Id>) {
    && (forall t :: t in tried ==> t.bucket < env.triedBuckets && t.pos < env.bucketSize)
    && (forall t :: t in news ==> t.bucket < env.newBuckets && t.pos < env.bucketSize)
  }

  // ----- the entries

  /** Looks at every entry once, in any order. */
  method CheckEntries(info: map<Id, AddrInfo>, ids: map<Service, Id>, random: seq<Id>) returns (err: int)
    ensures err == 0 <==> EntriesPass(info, ids, random)
  {
    var todo := info.Keys;
    while todo != {}
      invariant todo <= info.Keys
      invariant forall i :: i in info && i !in todo ==> EntryPasses(info, ids, random, i)
      decreases |todo|
    {
      var n :| n in todo;
      var x := info[n];
      if x.inTried {
        if x.known.lastSuccess == 0 {
          return -1;
        }
        if x.refCount != 0 {
          return -2;
        }
      } else {
        if x.refCount < 0 || x.refCount > MAX_NEW_BUCKETS {
          return -3;
        }
        if x.refCount == 0 {
          return -4;
        }
      }
      if x.addr !in ids || ids[x.addr] != n {
        return -5;
      }
      if x.randomPos < 0 || x.randomPos >= |random| || random[x.randomPos] != n {
        return -14;
      }
      if x.known.lastTry < 0 {
        return -6;
      }
      if x.known.lastSuccess < 0 {
        return -8;
      }
      todo := todo - {n};
    }
    err := 0;
  }

  // ----- the tables, slot by slot

  /** The slots that come before a bucket and position. */
  predicate Before(t: Slot, bucket: nat, pos: nat) { t.bucket < bucket || (t.bucket == bucket && t.pos < pos) }

  /** The tried table as far as it has been looked at: slots pass, and their ids have been struck off. */
  ghost predicate TriedSoFar(env: Env, info: map<Id, AddrInfo>, tried: map<Slot, Id>, left: set<Id>, bucket: nat,
                             pos: nat)
  {
    && (forall t :: t in tried && Before(t, bucket, pos) ==> TriedSlotPasses(env, info, tried, t))
    && (forall i :: i in left <==> i in TriedIds(info) && Unseen(tried, i, bucket, pos))
  }

  /** No slot looked at holds this id. */
  ghost predicate Unseen(tried: map<Slot, Id>, i: Id, bucket: nat, pos: nat) {
    forall t :: t in tried && Before(t, bucket, pos) ==> tried[t] != i
  }

  lemma TriedSlotEmpty(env: Env, info: map<Id, AddrInfo>, tried: map<Slot, Id>, left: set<Id>, bucket: nat, pos: nat)
    requires TriedSoFar(env, info, tried, left, bucket, pos) && Slot(bucket, pos) !in tried
    ensures TriedSoFar(env, info, tried, left, bucket, pos + 1)
  {
    assert forall t :: t in tried && Before(t, bucket, pos + 1) ==> Before(t, bucket, pos);
    forall i
      ensures Unseen(tried, i, bucket, pos + 1) <==> Unseen(tried, i, bucket, pos)
    {
    }
  }

  lemma TriedSlotTaken(env: Env, info: map<Id, AddrInfo>, tried: map<Slot, Id>, left: set<Id>, bucket: nat, pos: nat)
    requires TriedSoFar(env, info, tried, left, bucket, pos) && Slot(bucket, pos) in tried
    requires TriedSlotPasses(env, info, tried, Slot(bucket, pos))
    ensures tried[Slot(bucket, pos)] in left
    ensures TriedSoFar(env, info, tried, left - {tried[Slot(bucket, pos)]}, bucket, pos + 1)
  {
    var slot := Slot(bucket, pos);
    var id := tried[slot];
    assert forall t :: t in tried && Before(t, bucket, pos + 1) ==> Before(t, bucket, pos) || t == slot;
    assert Unseen(tried, id, bucket, pos);
    forall i
      ensures Unseen(tried, i, bucket, pos + 1) <==> Unseen(tried, i, bucket, pos) && i != id
    {
      assert Before(slot, bucket, pos + 1);
    }
  }

  lemma NextTriedBucket(env: Env, info: map<Id, AddrInfo>, tried: map<Slot, Id>, left: set<Id>, bucket: nat, size: nat)
    requires TriedSoFar(env, info, tried, left, bucket, size) && forall t :: t in tried ==> t.pos < size
    ensures TriedSoFar(env, info, tried, left, bucket + 1, 0)
  {
    assert forall t :: t in tried ==> (Before(t, bucket + 1, 0) <==> Before(t, bucket, size));
    forall i
      ensures Unseen(tried, i, bucket + 1, 0) <==> Unseen(tried, i, bucket, size)
    {
    }
  }

  /** Strikes off the tried entries slot by slot. */
  method CheckTried(env: Env, info: map<Id, AddrInfo>, tried: map<Slot, Id>) returns (err: int)
    requires forall t :: t in tried ==> t.bucket < env.triedBuckets && t.pos < env.bucketSize
    ensures err == 0 <==> TriedPasses(env, info, tried)
  {
    var setTried := TriedIds(info);
    for n := 0 to env.triedBuckets
      invariant TriedSoFar(env, info, tried, setTried, n, 0)
    {
      for i := 0 to env.bucketSize
        invariant TriedSoFar(env, info, tried, setTried, n, i)
      {
        var slot := Slot(n, i);
        if slot in tried {
          if TriedSlotPasses(env, info, tried, slot) {
            TriedSlotTaken(env, info, tried, setTried, n, i);
          }
          if tried[slot] !in setTried {
            return -11;
          }
          if TriedSlot(env, info[tried[slot]].addr).bucket != n {
            return -17;
          }
          if TriedSlot(env, info[tried[slot]].addr).pos != i {
            return -18;
          }
          setTried := setTried - {tried[slot]};
        } else {
          TriedSlotEmpty(env, info, tried, setTried, n, i);
        }
      }
      NextTriedBucket(env, info, tried, setTried, n, env.bucketSize);
    }
    assert forall t :: t in tried ==> Before(t, env.triedBuckets, 0);
    if setTried != {} {
      ghost var i :| i in setTried;
      assert Unseen(tried, i, env.triedBuckets, 0);
      return -13;
    }
    forall i | i in TriedIds(info)
      ensures exists t :: t in tried && tried[t] == i
    {
      assert i !in setTried;
    }
    err := 0;
  }

  /** The slots of an id among those looked at. */
  ghost function SeenSlots(news: map<Slot, Id>, i: Id, bucket: nat, pos: nat): set<Slot> {
    set t | t in news && news[t] == i && Before(t, bucket, pos)
  }

  /** The new table as far as it has been looked at: slots pass, and `left` holds what each entry is still owed. */
  ghost predicate NewSoFar(env: Env, info: map<Id, AddrInfo>, news: map<Slot, Id>, left: map<Id, int>, bucket: nat,
                           pos: nat)
  {
    && (forall t :: t in news && Before(t, bucket, pos) ==> NewSlotPasses(env, info, news, t))
    && (forall i :: i in left ==>
        i in info && !info[i].inTried && left[i] > 0 && left[i] == info[i].refCount - |SeenSlots(news, i, bucket, pos)|)
    && (forall i :: i in info && !info[i].inTried && i !in left ==>
        info[i].refCount == |SeenSlots(news, i, bucket, pos)|)
  }

  lemma SeenNext(news: map<Slot, Id>, i: Id, bucket: nat, pos: nat)
    ensures var slot := Slot(bucket, pos);
            |SeenSlots(news, i, bucket, pos + 1)|
              == |SeenSlots(news, i, bucket, pos)| + One(slot in news && news[slot] == i)
  {
    var slot := Slot(bucket, pos);
    assert forall t :: Before(t, bucket, pos + 1) <==> Before(t, bucket, pos) || t == slot;
    if slot in news && news[slot] == i {
      assert SeenSlots(news, i, bucket, pos + 1) == SeenSlots(news, i, bucket, pos) + {slot};
    } else {
      assert SeenSlots(news, i, bucket, pos + 1) == SeenSlots(news, i, bucket, pos);
    }
  }

  lemma NewSlotEmpty(env: Env, info: map<Id, AddrInfo>, news: map<Slot, Id>, left: map<Id, int>, bucket: nat, pos: nat)
    requires NewSoFar(env, info, news, left, bucket, pos) && Slot(bucket, pos) !in news
    ensures NewSoFar(env, info, news, left, bucket, pos + 1)
  {
    assert forall t :: Before(t, bucket, pos + 1) <==> Before(t, bucket, pos) || t == Slot(bucket, pos);
    forall i
      ensures |SeenSlots(news, i, bucket, pos + 1)| == |SeenSlots(news, i, bucket, pos)|
    {
      SeenNext(news, i, bucket, pos);
    }
  }

  /** What the entries are owed after one more slot. */
  function Paid(left: map<Id, int>, i: Id): map<Id, int>
    requires i in left
  {
    if left[i] == 1 then left - {i} else left[i := left[i] - 1]
  }

  lemma NewSlotTaken(env: Env, info: map<Id, AddrInfo>, news: map<Slot, Id>, left: map<Id, int>, bucket: nat, pos: nat)
    requires NewSoFar(env, info, news, left, bucket, pos) && Slot(bucket, pos) in news
    requires NewSlotPasses(env, info, news, Slot(bucket, pos)) && news[Slot(bucket, pos)] in left
    ensures NewSoFar(env, info, news, Paid(left, news[Slot(bucket, pos)]), bucket, pos + 1)
  {
    assert forall t :: Before(t, bucket, pos + 1) <==> Before(t, bucket, pos) || t == Slot(bucket, pos);
    forall i
      ensures |SeenSlots(news, i, bucket, pos + 1)|
              == |SeenSlots(news, i, bucket, pos)| + One(news[Slot(bucket, pos)] == i)
    {
      SeenNext(news, i, bucket, pos);
    }
  }

  /** A slot of an entry that is owed nothing is one too many. */
  lemma Overpaid(env: Env, info: map<Id, AddrInfo>, news: map<Slot, Id>, left: map<Id, int>, bucket: nat, pos: nat)
    requires NewSoFar(env, info, news, left, bucket, pos) && Slot(bucket, pos) in news
             && news[Slot(bucket, pos)] !in left
    ensures !NewPasses(env, info, news)
  {
    var slot := Slot(bucket, pos);
    var i := news[slot];
    if i in info && !info[i].inTried {
      assert i in NewIds(info);
      assert SeenSlots(news, i, bucket, pos) + {slot} <= SlotsOf(news, i);
      Larger(SeenSlots(news, i, bucket, pos), SlotsOf(news, i), slot);
    } else {
      assert !NewSlotPasses(env, info, news, slot);
    }
  }

  lemma Larger(a: set<Slot>, b: set<Slot>, t: Slot)
    requires t !in a && a + {t} <= b
    ensures |a| < |b|
  {
    Smaller(a + {t}, b);
  }

  lemma Smaller<T>(a: set<T>, b: set<T>)
    requires a <= b
    ensures |a| <= |b|
  {
    var c := b - a;
    assert b == a + c;
  }

  lemma NextNewBucket(env: Env, info: map<Id, AddrInfo>, news: map<Slot, Id>, left: map<Id, int>, bucket: nat,
                      size: nat)
    requires NewSoFar(env, info, news, left, bucket, size) && forall t :: t in news ==> t.pos < size
    ensures NewSoFar(env, info, news, left, bucket + 1, 0)
  {
    assert forall t :: t in news ==> (Before(t, bucket + 1, 0) <==> Before(t, bucket, size));
    forall i
      ensures SeenSlots(news, i, bucket + 1, 0) == SeenSlots(news, i, bucket, size)
    {
    }
  }

  lemma NewStarts(env: Env, info: map<Id, AddrInfo>, ids: map<Service, Id>, random: seq<Id>, news: map<Slot, Id>)
    requires EntriesPass(info, ids, random)
    ensures NewSoFar(env, info, news, map i | i in NewIds(info) :: info[i].refCount, 0, 0)
  {
    forall i
      ensures SeenSlots(news, i, 0, 0) == {}
    {
    }
    forall i | i in info && !info[i].inTried
      ensures info[i].refCount > 0
    {
      assert EntryPasses(info, ids, random, i);
    }
  }

  lemma NewEnds(env: Env, info: map<Id, AddrInfo>, news: map<Slot, Id>, left: map<Id, int>, buckets: nat)
    requires NewSoFar(env, info, news, left, buckets, 0) && forall t :: t in news ==> t.bucket < buckets
    ensures NewPasses(env, info, news) <==> left == map[]
  {
    assert forall t :: t in news ==> Before(t, buckets, 0);
    forall i
      ensures SeenSlots(news, i, buckets, 0) == SlotsOf(news, i)
    {
    }
    if left != map[] {
      var i :| i in left;
      assert i in NewIds(info) && |SlotsOf(news, i)| != info[i].refCount;
    }
  }

  /** Looks at one slot of the new table. */
  method CheckNewSlot(env: Env, info: map<Id, AddrInfo>, news: map<Slot, Id>, mapNew: map<Id, int>, n: nat, i: nat)
    returns (err: int, left: map<Id, int>)
    requires NewSoFar(env, info, news, mapNew, n, i)
    ensures err == 0 ==> NewSoFar(env, info, news, left, n, i + 1)
    ensures err != 0 ==> !NewPasses(env, info, news)
  {
    var slot := Slot(n, i);
    if slot !in news {
      NewSlotEmpty(env, info, news, mapNew, n, i);
      return 0, mapNew;
    }
    var id := news[slot];
    if id !in mapNew {
      Overpaid(env, info, news, mapNew, n, i);
      return -12, mapNew;
    }
    if NewPos(env, info[id].addr, n) != i {
      assert !NewSlotPasses(env, info, news, slot);
      return -19, mapNew;
    }
    NewSlotTaken(env, info, news, mapNew, n, i);
    err, left := 0, Paid(mapNew, id);
  }

  /** Counts down the reference counts slot by slot. */
  method CheckNew(env: Env, info: map<Id, AddrInfo>, ghost ids: map<Service, Id>, ghost random: seq<Id>,
                  news: map<Slot, Id>)
    returns (err: int)
    requires EntriesPass(info, ids, random)
    requires forall t :: t in news ==> t.bucket < env.newBuckets && t.pos < env.bucketSize
    ensures err == 0 <==> NewPasses(env, info, news)
  {
    var mapNew := map i | i in NewIds(info) :: info[i].refCount;
    NewStarts(env, info, ids, random, news);
    for n := 0 to env.newBuckets
      invariant NewSoFar(env, info, news, mapNew, n, 0)
    {
      for i := 0 to env.bucketSize
        invariant NewSoFar(env, info, news, mapNew, n, i)
      {
        err, mapNew := CheckNewSlot(env, info, news, mapNew, n, i);
        if err != 0 {
          return;
        }
      }
      NextNewBucket(env, info, news, mapNew, n, env.bucketSize);
    }
    NewEnds(env, info, news, mapNew, env.newBuckets);
    err := if mapNew == map[] then 0 else -15;
  }

  // ----- the counters

  /** What the counters of a network come to over some of the entries. */
  ghost function Expected(env: Env, info: map<Id, AddrInfo>, done: set<Id>, n: Network): Counts {
    Counts(|Matching(env, info, {}, NewIn(n)) * done|, |Matching(env, info, {}, TriedIn(n)) * done|)
  }

  ghost function UsedBy(env: Env, info: map<Id, AddrInfo>, done: set<Id>): set<Network> {
    set i | i in done && i in info :: NetworkOf(env, info[i].addr)
  }

  /** The counters of the entries looked at. */
  ghost predicate CountedSoFar(env: Env, info: map<Id, AddrInfo>, done: set<Id>, local: map<Network, Counts>) {
    local.Keys == UsedBy(env, info, done) && forall n :: CountsOf(local, n) == Expected(env, info, done, n)
  }

  lemma CountNone(env: Env, info: map<Id, AddrInfo>)
    ensures CountedSoFar(env, info, {}, map[])
  {
    forall n
      ensures CountsOf(map[], n) == Expected(env, info, {}, n)
    {
      assert Matching(env, info, {}, NewIn(n)) * {} == {} && Matching(env, info, {}, TriedIn(n)) * {} == {};
    }
  }

  lemma MoreMatching(a: set<Id>, done: set<Id>, i: Id)
    requires i !in done
    ensures |a * (done + {i})| == |a * done| + One(i in a)
  {
    if i in a {
      assert a * (done + {i}) == a * done + {i};
    } else {
      assert a * (done + {i}) == a * done;
    }
  }

  lemma ExpectMore(env: Env, info: map<Id, AddrInfo>, done: set<Id>, i: Id, n: Network)
    requires i in info && i !in done
    ensures var c, here := Expected(env, info, done, n), NetworkOf(env, info[i].addr) == n;
            Expected(env, info, done + {i}, n)
              == Counts(c.nNew + One(here && !info[i].inTried), c.nTried + One(here && info[i].inTried))
  {
    MoreMatching(Matching(env, info, {}, NewIn(n)), done, i);
    MoreMatching(Matching(env, info, {}, TriedIn(n)), done, i);
  }

  lemma UsedMore(env: Env, info: map<Id, AddrInfo>, done: set<Id>, i: Id)
    requires i in info
    ensures UsedBy(env, info, done + {i}) == UsedBy(env, info, done) + {NetworkOf(env, info[i].addr)}
  {
  }

  lemma BumpOne(env: Env, info: map<Id, AddrInfo>, done: set<Id>, local: map<Network, Counts>, i: Id, n: Network)
    requires CountsOf(local, n) == Expected(env, info, done, n) && i in info && i !in done
    ensures CountsOf(Bump(local, NetworkOf(env, info[i].addr), One(!info[i].inTried), One(info[i].inTried)), n)
         == Expected(env, info, done + {i}, n)
  {
    ExpectMore(env, info, done, i, n);
  }

  lemma BumpKeys(counts: map<Network, Counts>, m: Network, dNew: int, dTried: int)
    ensures Bump(counts, m, dNew, dTried).Keys == counts.Keys + {m}
  {
  }

  lemma CountOne(env: Env, info: map<Id, AddrInfo>, done: set<Id>, local: map<Network, Counts>, i: Id)
    requires CountedSoFar(env, info, done, local) && i in info && i !in done
    ensures var m := NetworkOf(env, info[i].addr);
            CountedSoFar(env, info, done + {i}, Bump(local, m, One(!info[i].inTried), One(info[i].inTried)))
  {
    var m := NetworkOf(env, info[i].addr);
    var local' := Bump(local, m, One(!info[i].inTried), One(info[i].inTried));
    UsedMore(env, info, done, i);
    BumpKeys(local, m, One(!info[i].inTried), One(info[i].inTried));
    forall n
      ensures CountsOf(local', n) == Expected(env, info, done + {i}, n)
    {
      BumpOne(env, info, done, local, i, n);
    }
  }

  lemma CountAll(env: Env, info: map<Id, AddrInfo>, local: map<Network, Counts>)
    requires CountedSoFar(env, info, info.Keys, local)
    ensures local.Keys == UsedNetworks(env, info)
    ensures forall n :: CountsOf(local, n) == Counts(|Matching(env, info, {}, NewIn(n))|,
                                                     |Matching(env, info, {}, TriedIn(n))|)
  {
    forall n
      ensures CountsOf(local, n) == Counts(|Matching(env, info, {}, NewIn(n))|, |Matching(env, info, {}, TriedIn(n))|)
    {
      assert Matching(env, info, {}, NewIn(n)) * info.Keys == Matching(env, info, {}, NewIn(n));
      assert Matching(env, info, {}, TriedIn(n)) * info.Keys == Matching(env, info, {}, TriedIn(n));
      assert CountsOf(local, n) == Expected(env, info, info.Keys, n);
    }
  }

  /** Counts the entries of each network. */
  method CountNetworks(env: Env, info: map<Id, AddrInfo>) returns (local: map<Network, Counts>)
    ensures CountedSoFar(env, info, info.Keys, local)
  {
    local := map[];
    var todo := info.Keys;
    ghost var done: set<Id> := {};
    CountNone(env, info);
    while todo != {}
      invariant done !! todo && done + todo == info.Keys
      invariant CountedSoFar(env, info, done, local)
      decreases |todo|
    {
      var i :| i in todo;
      CountOne(env, info, done, local, i);
      local := Bump(local, NetworkOf(env, info[i].addr), One(!info[i].inTried), One(info[i].inTried));
      todo, done := todo - {i}, done + {i};
    }
    assert done == info.Keys;
  }

  lemma PassIff(env: Env, info: map<Id, AddrInfo>, counts: map<Network, Counts>, local: map<Network, Counts>)
    requires CountedSoFar(env, info, info.Keys, local)
    ensures CountsPass(env, info, counts) <==> |counts| >= |local| && forall n :: n in counts ==>
            counts[n] == CountsOf(local, n)
  {
    CountAll(env, info, local);
    assert |local| == |local.Keys|;
  }

  /** Compares the recorded counters with the entries. */
  method CheckCounts(env: Env, info: map<Id, AddrInfo>, counts: map<Network, Counts>) returns (err: int)
    ensures err == 0 <==> CountsPass(env, info, counts)
  {
    var local := CountNetworks(env, info);
    PassIff(env, info, counts, local);
    if |counts| < |local| {
      return -20;
    }
    var same := SameCounts(counts, local);
    err := if same then 0 else -21;
  }

  method SameCounts(counts: map<Network, Counts>, local: map<Network, Counts>) returns (same: bool)
    ensures same <==> forall n :: n in counts ==> counts[n] == CountsOf(local, n)
  {
    var todo := counts.Keys;
    while todo != {}
      invariant todo <= counts.Keys
      invariant forall n :: n in counts && n !in todo ==> counts[n] == CountsOf(local, n)
      decreases |todo|
    {
      var n :| n in todo;
      if counts[n] != CountsOf(local, n) {
        return false;
      }
      todo := todo - {n};
    }
    same := true;
  }

  // ----- the whole check

  /** The consistency check. It returns zero exactly for consistent states. */
  method CheckAddrman(env: Env, s: State) returns (err: int)
    requires InBounds(env, s.tried, s.news)
    ensures err == 0 <==> Consistent(env, s)
  {
    if |s.random| != s.nTried + s.nNew {
      return -7;
    }
    err := CheckEntries(s.info, s.ids, s.random);
    if err != 0 {
      return;
    }
    if |TriedIds(s.info)| != s.nTried {
      return -9;
    }
    if |NewIds(s.info)| != s.nNew {
      return -10;
    }
    err := CheckTried(env, s.info, s.tried);
    if err != 0 {
      return;
    }
    err := CheckNew(env, s.info, s.ids, s.random, s.news);
    if err != 0 {
      return;
    }
    err := CheckCounts(env, s.info, s.counts);
  }

  // ----- sound states pass

  lemma EntriesAreFine(env: Env, s: State)
    requires Between(env, s, {}, {})
    ensures EntriesPass(s.info, s.ids, s.random)
  {
  }

  lemma SlotsAreFine(env: Env, info: map<Id, AddrInfo>, tried: map<Slot, Id>, news: map<Slot, Id>)
    requires NewPlaced(env, info, news) && TriedPlaced(env, info, tried) && RefCounted(info, news, {})
    ensures TriedPasses(env, info, tried) && NewPasses(env, info, news) && InBounds(env, tried, news)
  {
  }

  lemma TotalsAreFine(env: Env, info: map<Id, AddrInfo>, nNew: int, nTried: int, counts: map<Network, Counts>)
    requires Tallied(env, info, {}, nNew, nTried, counts)
    ensures |TriedIds(info)| == nTried && |NewIds(info)| == nNew
  {
    assert Matching(env, info, {}, AllNew) == NewIds(info);
    assert Matching(env, info, {}, AllTried) == TriedIds(info);
    assert Counter(nNew, nTried, counts, AllNew) == |Matching(env, info, {}, AllNew)|;
    assert Counter(nNew, nTried, counts, AllTried) == |Matching(env, info, {}, AllTried)|;
  }

  lemma CountsAreFine(env: Env, info: map<Id, AddrInfo>, nNew: int, nTried: int, counts: map<Network, Counts>)
    requires Tallied(env, info, {}, nNew, nTried, counts)
    ensures CountsPass(env, info, counts)
  {
    forall n | n in UsedNetworks(env, info)
      ensures n in counts
    {
      var i :| i in info && NetworkOf(env, info[i].addr) == n;
      assert i in Matching(env, info, {}, NewIn(n)) || i in Matching(env, info, {}, TriedIn(n));
      assert Counter(nNew, nTried, counts, NewIn(n)) == |Matching(env, info, {}, NewIn(n))|;
      assert Counter(nNew, nTried, counts, TriedIn(n)) == |Matching(env, info, {}, TriedIn(n))|;
    }
    Smaller(UsedNetworks(env, info), counts.Keys);
    forall n | n in counts
      ensures counts[n] == Counts(|Matching(env, info, {}, NewIn(n))|, |Matching(env, info, {}, TriedIn(n))|)
    {
      assert Counter(nNew, nTried, counts, NewIn(n)) == |Matching(env, info, {}, NewIn(n))|;
      assert Counter(nNew, nTried, counts, TriedIn(n)) == |Matching(env, info, {}, TriedIn(n))|;
    }
  }

  lemma VectorIsFull(s: State)
    requires Shuffled(s.info, s.random)
    ensures |s.random| == |TriedIds(s.info)| + |NewIds(s.info)|
  {
    PlacesAre(s, |s.random|);
    assert Placed(s, |s.random|) == TriedIds(s.info) + NewIds(s.info);
  }

  ghost function Placed(s: State, n: nat): set<Id> { set i | i in s.info && s.info[i].randomPos < n }

  lemma {:induction false} PlacesAre(s: State, n: nat)
    requires Shuffled(s.info, s.random) && n <= |s.random|
    ensures |Placed(s, n)| == n
  {
    if n == 0 {
      assert Placed(s, 0) == {};
    } else {
      PlacesAre(s, n - 1);
      var i := s.random[n - 1];
      assert s.info[i].randomPos == n - 1;
      assert Placed(s, n) == Placed(s, n - 1) + {i};
    }
  }

  /** Whenever the invariant holds, the check would return zero. */
  lemma SoundIsConsistent(env: Env, s: State)
    requires Inv(env, s)
    ensures InBounds(env, s.tried, s.news) && Consistent(env, s)
  {
    EntriesAreFine(env, s);
    SlotsAreFine(env, s.info, s.tried, s.news);
    TotalsAreFine(env, s.info, s.nNew, s.nTried, s.counts);
    CountsAreFine(env, s.info, s.nNew, s.nTried, s.counts);
    VectorIsFull(s);
  }
}
