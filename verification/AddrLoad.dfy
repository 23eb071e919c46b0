/** Reading the address manager's file, and that a file just written is read back to the same book. */
module AddrLoad {
  import opened Basics
  import opened AddrState
  import opened AddrSteps
  import opened AddrOps
  import opened AddrBook
  import opened AddrCheck
  import opened AddrFile

  // ----- reading

  /** The first k new entries become ids 0 to k - 1, in no slot yet. */
  function LoadNew(env: Env, entries: seq<Entry>, k: nat): State
    requires k <= |entries|
  {
    if k == 0 then EMPTY else Create(env, LoadNew(env, entries, k - 1), entries[k - 1].addr, Recalled(entries[k - 1]))
  }

  /** Adds an entry in its slot of the tried table. */
  function AddTried(env: Env, t: State, e: Entry): State {
    t.(idCount := t.idCount + 1,
       info := t.info[t.idCount := AddrInfo(e.addr, Recalled(e), 0, true, |t.random|)],
       ids := t.ids[e.addr := t.idCount],
       random := t.random + [t.idCount],
       tried := t.tried[TriedSlot(env, e.addr) := t.idCount],
       nTried := t.nTried + 1,
       counts := Bump(t.counts, NetworkOf(env, e.addr), 0, 1))
  }

  /** A tried entry is kept if its address is valid and its slot is free. */
  function LoadTriedOne(env: Env, t: State, e: Entry): State {
    if e.addr.ip in env.valid && TriedSlot(env, e.addr) !in t.tried then AddTried(env, t, e) else t
  }

  function LoadTried(env: Env, t: State, entries: seq<Entry>, k: nat): State
    requires k <= |entries|
  {
    if k == 0 then t else LoadTriedOne(env, LoadTried(env, t, entries, k - 1), entries[k - 1])
  }

  /** Gives a new entry the slot of a bucket it was in, or else the slot its source gives it. */
  function PlaceOne(env: Env, t: State, bucket: nat, index: int, restore: bool): State {
    if index < 0 || index !in t.info then t
    else
      var x := t.info[index];
      if x.addr.ip !in env.valid || x.refCount >= MAX_NEW_BUCKETS then t
      else
        var slot := Slot(bucket, NewPos(env, x.addr, bucket));
        if restore && slot !in t.news then FillSlot(t, slot, index)
        else if HomeSlot(env, x) !in t.news then FillSlot(t, HomeSlot(env, x), index)
        else t
  }

  /** The first k indexes of a bucket; those that name no new entry are ignored. */
  function PlaceBucket(env: Env, t: State, bucket: nat, list: seq<int>, nNew: nat, restore: bool): State {
    if list == [] then t
    else
      var last := |list| - 1;
      var u := PlaceBucket(env, t, bucket, list[..last], nNew, restore);
      if 0 <= list[last] < nNew then PlaceOne(env, u, bucket, list[last], restore) else u
  }

  function PlaceBuckets(env: Env, t: State, buckets: seq<seq<int>>, n: nat, nNew: nat, restore: bool): State
    requires n <= |buckets|
  {
    if n == 0 then t else PlaceBucket(env, PlaceBuckets(env, t, buckets, n - 1, nNew, restore), n - 1, buckets[n - 1],
                                      nNew, restore)
  }

  /** Everything in the file; the old buckets are used if their number and the address map have not changed. */
  function Load(env: Env, file: File, checksum: nat): State {
    var restore := |file.buckets| == env.newBuckets && file.checksum == checksum;
    var t := LoadTried(env, LoadNew(env, file.news, |file.news|), file.tried, |file.tried|);
    PlaceBuckets(env, t, file.buckets, |file.buckets|, |file.news|, restore)
  }

  /** The entries in neither table. */
  ghost function Waiting(t: State): set<Id> {
    set i | i in t.info && !t.info[i].inTried && t.info[i].refCount == 0
  }

  /** Deletes an entry that ended up in neither table. */
  function PruneOne(env: Env, t: State, i: Id): State { if CanDelete(t, i) then Delete(env, t, i) else t }

  /** Visits the entries in some order and deletes those in neither table. */
  function Prune(env: Env, t: State, order: seq<Id>): State {
    if order == [] then t else PruneOne(env, Prune(env, t, order[..|order| - 1]), order[|order| - 1])
  }

  // ----- reading back what was written

  /** Entry j of state t has the address of entry src[j] of state s, and what the file holds about it. */
  ghost predicate Mirrors(s: State, src: seq<Id>, t: State) {
    && t.idCount == |src|
    && (forall j :: j in t.info <==> 0 <= j < |src|)
    && (forall j :: 0 <= j < |src| ==> MirrorsAt(s, src, t, j))
  }

  ghost predicate MirrorsAt(s: State, src: seq<Id>, t: State, j: Id)
    requires j < |src|
  {
    && src[j] in s.info && j in t.info
    && t.info[j].addr == s.info[src[j]].addr && t.info[j].known == OnDisk(s.info[src[j]].known)
    && t.info[j].inTried == s.info[src[j]].inTried
  }

  /** An address that has an entry is mirrored. */
  lemma Owner(s: State, src: seq<Id>, t: State, a: Service)
    requires Indexed(s.info, s.ids) && Indexed(t.info, t.ids) && Mirrors(s, src, t)
    ensures a in t.ids ==> a in s.ids && s.ids[a] in src
  {
    if a in t.ids {
      var j := t.ids[a];
      assert MirrorsAt(s, src, t, j);
      assert s.info[src[j]].addr == a;
    }
  }

  lemma MirrorsMore(s: State, src: seq<Id>, src': seq<Id>, t: State, i: Id, t': State)
    requires Mirrors(s, src, t) && i in s.info && |src| in t'.info && src' == src + [i]
    requires t'.info == t.info[|src| := t'.info[|src|]] && t'.idCount == |src| + 1
    requires t'.info[|src|].addr == s.info[i].addr && t'.info[|src|].known == OnDisk(s.info[i].known)
    requires t'.info[|src|].inTried == s.info[i].inTried
    ensures Mirrors(s, src', t')
  {
    forall j | 0 <= j < |src| + 1
      ensures MirrorsAt(s, src', t', j)
    {
      if j < |src| {
        assert MirrorsAt(s, src, t, j);
      }
    }
  }

  /** A list of entries of s, with what the file says about them. */
  ghost predicate Lists(s: State, list: seq<Id>, entries: seq<Entry>) {
    && Distinct(list) && |entries| == |list|
    && (forall j :: 0 <= j < |list| ==> list[j] in s.info && entries[j] == ToEntry(s.info[list[j]]))
  }

  lemma WaitingAfterCreate(env: Env, t: State, a: Service, k: Known)
    requires t.idCount !in t.info
    ensures Waiting(Create(env, t, a, k)) == Waiting(t) + {t.idCount}
  {
  }

  lemma CreateWaits(env: Env, t: State, a: Service, k: Known)
    requires Between(env, t, Waiting(t), {}) && a !in t.ids && k.lastTry >= 0 && k.lastSuccess >= 0
    ensures Between(env, Create(env, t, a, k), Waiting(Create(env, t, a, k)), {})
  {
    assert t.idCount !in t.info;
    CreateKeeps(env, t, Waiting(t), {}, a, k);
    WaitingAfterCreate(env, t, a, k);
  }

  /** One entry more is a new address with a date. */
  lemma NextEntry(env: Env, s: State, src: seq<Id>, t: State, i: Id)
    requires Indexed(s.info, s.ids) && Dated(s.info, s.idCount) && Indexed(t.info, t.ids) && Mirrors(s, src, t)
    requires i in s.info && i !in src
    ensures s.info[i].addr !in t.ids && s.info[i].known.lastSuccess >= 0 && t.idCount == |src|
    ensures s.info[i].inTried ==> s.info[i].known.lastSuccess > 0
  {
    Owner(s, src, t, s.info[i].addr);
    assert s.ids[s.info[i].addr] == i;
  }

  lemma LoadNewStep(env: Env, s: State, src: seq<Id>, t: State, i: Id, e: Entry, t': State)
    requires Indexed(s.info, s.ids) && Dated(s.info, s.idCount) && Between(env, t, Waiting(t), {}) && Mirrors(s, src, t)
    requires i in s.info && i !in src && e == ToEntry(s.info[i]) && t' == Create(env, t, e.addr, Recalled(e))
    ensures Between(env, t', Waiting(t'), {})
  {
    NextEntry(env, s, src, t, i);
    CreateWaits(env, t, e.addr, Recalled(e));
  }

  lemma EmptyWaits(env: Env)
    ensures Between(env, EMPTY, Waiting(EMPTY), {})
  {
    EmptyIsSound(env);
    assert Waiting(EMPTY) == {};
  }

  /** The state while the new entries are read. */
  ghost predicate LoadingNew(s: State, list: seq<Id>, t: State) {
    Mirrors(s, list, t) && t.news == map[] && t.tried == map[] && t.collisions == {}
  }

  lemma LoadNewMore(env: Env, s: State, list: seq<Id>, list': seq<Id>, t: State, i: Id, e: Entry, t': State)
    requires LoadingNew(s, list, t) && i in s.info && !s.info[i].inTried && e == ToEntry(s.info[i])
             && list' == list + [i]
    requires t' == Create(env, t, e.addr, Recalled(e))
    ensures LoadingNew(s, list', t')
  {
    MirrorsMore(s, list, list', t, i, t');
  }

  lemma NothingLoaded(s: State)
    ensures LoadingNew(s, [], EMPTY)
  {
  }

  /** The new entries of s that a list names, with what the file says about them. */
  ghost predicate ListsNew(s: State, list: seq<Id>, entries: seq<Entry>) {
    Lists(s, list, entries) && forall j :: 0 <= j < |list| ==> !s.info[list[j]].inTried
  }

  lemma {:induction false} LoadNewMirrors(env: Env, s: State, list: seq<Id>, entries: seq<Entry>, k: nat)
    requires ListsNew(s, list, entries) && k <= |list|
    ensures LoadingNew(s, list[..k], LoadNew(env, entries, k))
  {
    if k == 0 {
      NothingLoaded(s);
      assert list[..0] == [];
    } else {
      LoadNewMirrors(env, s, list, entries, k - 1);
      assert list[..k] == list[..k - 1] + [list[k - 1]];
      LoadNewMore(env, s, list[..k - 1], list[..k], LoadNew(env, entries, k - 1), list[k - 1], entries[k - 1],
                  LoadNew(env, entries, k));
    }
  }

  lemma {:induction false} LoadNewKeeps(env: Env, s: State, list: seq<Id>, entries: seq<Entry>, k: nat)
    requires Indexed(s.info, s.ids) && Dated(s.info, s.idCount) && ListsNew(s, list, entries) && k <= |list|
    ensures Between(env, LoadNew(env, entries, k), Waiting(LoadNew(env, entries, k)), {})
  {
    if k == 0 {
      EmptyWaits(env);
    } else {
      LoadNewKeeps(env, s, list, entries, k - 1);
      LoadNewKeepsStep(env, s, list, entries, k - 1);
    }
  }

  lemma LoadNewKeepsStep(env: Env, s: State, list: seq<Id>, entries: seq<Entry>, k: nat)
    requires Indexed(s.info, s.ids) && Dated(s.info, s.idCount) && ListsNew(s, list, entries) && k < |list|
    requires Between(env, LoadNew(env, entries, k), Waiting(LoadNew(env, entries, k)), {})
    ensures Between(env, LoadNew(env, entries, k + 1), Waiting(LoadNew(env, entries, k + 1)), {})
  {
    LoadNewMirrors(env, s, list, entries, k);
    Fresh(list, k);
    LoadNewStep(env, s, list[..k], LoadNew(env, entries, k), list[k], entries[k], LoadNew(env, entries, k + 1));
  }

  lemma Fresh(list: seq<Id>, k: nat)
    requires Distinct(list) && k < |list|
    ensures list[k] !in list[..k] && list[..k + 1] == list[..k] + [list[k]]
  {
  }

  // ----- the tried entries

  lemma AddTriedIs(env: Env, t: State, e: Entry)
    ensures var c := Create(env, t, e.addr, Recalled(e));
            AddTried(env, t, e) == EnterTried(env, CountNew(env, c, t.idCount, -1), t.idCount)
  {
    var n := NetworkOf(env, e.addr);
    assert Bump(Bump(Bump(t.counts, n, 1, 0), n, -1, 0), n, 0, 1) == Bump(t.counts, n, 0, 1);
  }

  lemma AddTriedKeeps(env: Env, t: State, zero: set<Id>, e: Entry)
    requires Between(env, t, zero, {}) && e.addr !in t.ids && TriedSlot(env, e.addr) !in t.tried && e.lastSuccess > 0
    ensures Between(env, AddTried(env, t, e), zero, {})
  {
    var i, c := t.idCount, Create(env, t, e.addr, Recalled(e));
    assert i !in t.info && i !in zero;
    CreateKeeps(env, t, zero, {}, e.addr, Recalled(e));
    EnterNew(env, c, zero, i);
    AddTriedIs(env, t, e);
  }

  /** An entry that has just been created goes straight to the tried table. */
  lemma EnterNew(env: Env, c: State, zero: set<Id>, i: Id)
    requires i !in zero && i in c.info && c.info[i].known.lastSuccess != 0 && TriedSlot(env, c.info[i].addr) !in c.tried
    requires Between(env, c, zero + {i}, {})
    ensures Between(env, EnterTried(env, CountNew(env, c, i, -1), i), zero, {})
  {
    UncountKeeps(env, c, zero + {i}, {}, i);
    EnterTriedKeeps(env, CountNew(env, c, i, -1), zero + {i}, {} + {i}, i);
    assert zero + {i} - {i} == zero && {} + {i} - {i} == {};
  }

  lemma WaitingAfterTried(env: Env, t: State, e: Entry)
    requires t.idCount !in t.info
    ensures Waiting(AddTried(env, t, e)) == Waiting(t)
  {
  }

  lemma AddTriedWaits(env: Env, t: State, e: Entry)
    requires Between(env, t, Waiting(t), {}) && e.addr !in t.ids && TriedSlot(env, e.addr) !in t.tried
             && e.lastSuccess > 0
    ensures Between(env, AddTried(env, t, e), Waiting(AddTried(env, t, e)), {})
  {
    assert t.idCount !in t.info;
    AddTriedKeeps(env, t, Waiting(t), e);
    WaitingAfterTried(env, t, e);
  }

  /** The tried slots taken in t are those that entries of a list have in s, by the same addresses. */
  ghost predicate TriedMirrors(s: State, list: seq<Id>, t: State) {
    && (forall x :: x in t.tried <==> x in s.tried && s.tried[x] in list)
    && (forall x :: x in t.tried ==> SameName(s.info, s.tried, t.info, t.tried, x))
  }

  ghost predicate SameName(info: map<Id, AddrInfo>, table: map<Slot, Id>, info': map<Id, AddrInfo>,
                           table': map<Slot, Id>, x: Slot)
  {
    && x in table && x in table' && table[x] in info && table'[x] in info'
    && info[table[x]].addr == info'[table'[x]].addr
  }

  /** The slot of an entry that is not in the list yet is free. */
  lemma SlotStillFree(env: Env, s: State, list: seq<Id>, t: State, i: Id)
    requires TriedPlaced(env, s.info, s.tried) && TriedMirrors(s, list, t) && i in s.info && s.info[i].inTried
             && i !in list
    ensures TriedSlot(env, s.info[i].addr) !in t.tried
  {
    assert s.tried[TriedSlot(env, s.info[i].addr)] == i;
  }

  lemma TriedMirrorsMore(env: Env, s: State, list: seq<Id>, list': seq<Id>, t: State, i: Id, e: Entry, t': State)
    requires TriedPlaced(env, s.info, s.tried) && TriedMirrors(s, list, t) && i in s.info && s.info[i].inTried
             && i !in list
    requires e == ToEntry(s.info[i]) && t.idCount !in t.info && list' == list + [i] && t' == AddTried(env, t, e)
    ensures TriedMirrors(s, list', t')
  {
    var slot := TriedSlot(env, e.addr);
    assert s.tried[slot] == i;
    forall x | x in t'.tried
      ensures SameName(s.info, s.tried, t'.info, t'.tried, x)
    {
      if x != slot {
        assert SameName(s.info, s.tried, t.info, t.tried, x);
      }
    }
    forall x
      ensures x in t'.tried <==> x in s.tried && s.tried[x] in list'
    {
      if x in s.tried && s.tried[x] == i {
        assert x == slot;
      }
    }
  }

  /** All structures agree but for entries that wait for a slot. */
  ghost predicate Healthy(env: Env, t: State) {
    Between(env, t, Waiting(t), {})
  }

  /** While the tried entries are read: what has been read of them mirrors what was written. */
  ghost predicate LoadingTried(env: Env, s: State, news: seq<Id>, list: seq<Id>, t: State) {
    && Mirrors(s, news + list, t) && TriedMirrors(s, list, t) && t.news == map[] && t.collisions == {}
  }

  lemma LoadTriedStep(env: Env, s: State, news: seq<Id>, list: seq<Id>, list': seq<Id>, t: State, i: Id, e: Entry,
                      t': State)
    requires TriedPlaced(env, s.info, s.tried) && LoadingTried(env, s, news, list, t)
    requires i in s.info && s.info[i].inTried && i !in list && e == ToEntry(s.info[i]) && e.addr.ip in env.valid
    requires t' == LoadTriedOne(env, t, e) && list' == list + [i]
    ensures t' == AddTried(env, t, e) && LoadingTried(env, s, news, list', t')
  {
    SlotStillFree(env, s, list, t, i);
    assert t.idCount !in t.info;
    TriedMirrorsMore(env, s, list, list', t, i, e, t');
    assert news + list' == news + list + [i];
    MirrorsMore(s, news + list, news + list', t, i, t');
  }

  lemma LoadTriedWaits(env: Env, s: State, news: seq<Id>, list: seq<Id>, t: State, i: Id, e: Entry, t': State)
    requires Indexed(s.info, s.ids) && Dated(s.info, s.idCount) && TriedPlaced(env, s.info, s.tried)
    requires LoadingTried(env, s, news, list, t) && Between(env, t, Waiting(t), {})
    requires i in s.info && s.info[i].inTried && i !in news && i !in list && e == ToEntry(s.info[i])
    requires t' == AddTried(env, t, e)
    ensures Between(env, t', Waiting(t'), {})
  {
    SlotStillFree(env, s, list, t, i);
    assert i !in news + list;
    NextEntry(env, s, news + list, t, i);
    AddTriedWaits(env, t, e);
  }

  /** Every address can be stored. */
  ghost predicate AllValid(env: Env, s: State) { forall i :: i in s.info ==> s.info[i].addr.ip in env.valid }

  /** The tried entries of s that a list names, with what the file says about them. */
  ghost predicate ListsTried(s: State, news: seq<Id>, list: seq<Id>, entries: seq<Entry>) {
    Lists(s, list, entries) && forall j :: 0 <= j < |list| ==> s.info[list[j]].inTried && list[j] !in news
  }

  /** The state that was written, and the list of its tried entries. */
  ghost predicate SourceOf(env: Env, s: State, news: seq<Id>, list: seq<Id>, entries: seq<Entry>) {
    && Indexed(s.info, s.ids) && Dated(s.info, s.idCount) && TriedPlaced(env, s.info, s.tried)
    && AllValid(env, s) && ListsTried(s, news, list, entries)
  }

  lemma LoadTriedMirrorsStep(env: Env, s: State, news: seq<Id>, t: State, list: seq<Id>, entries: seq<Entry>, k: nat)
    requires SourceOf(env, s, news, list, entries) && k < |list| == |entries|
    requires LoadingTried(env, s, news, list[..k], LoadTried(env, t, entries, k))
    ensures LoadTried(env, t, entries, k + 1) == AddTried(env, LoadTried(env, t, entries, k), entries[k])
    ensures LoadingTried(env, s, news, list[..k + 1], LoadTried(env, t, entries, k + 1))
  {
    Fresh(list, k);
    LoadTriedStep(env, s, news, list[..k], list[..k + 1], LoadTried(env, t, entries, k), list[k], entries[k],
                  LoadTried(env, t, entries, k + 1));
  }

  lemma LoadTriedKeepsStep(env: Env, s: State, news: seq<Id>, t: State, list: seq<Id>, entries: seq<Entry>, k: nat)
    requires SourceOf(env, s, news, list, entries) && k < |list| == |entries|
    requires LoadingTried(env, s, news, list[..k], LoadTried(env, t, entries, k))
    requires Healthy(env, LoadTried(env, t, entries, k))
    requires LoadTried(env, t, entries, k + 1) == AddTried(env, LoadTried(env, t, entries, k), entries[k])
    ensures Healthy(env, LoadTried(env, t, entries, k + 1))
  {
    Fresh(list, k);
    LoadTriedWaits(env, s, news, list[..k], LoadTried(env, t, entries, k), list[k], entries[k],
                   LoadTried(env, t, entries, k + 1));
  }

  lemma {:induction false} LoadTriedUpTo(env: Env, s: State, news: seq<Id>, t: State, list: seq<Id>,
                                         entries: seq<Entry>, k: nat)
    requires SourceOf(env, s, news, list, entries) && k <= |list| == |entries|
    requires Healthy(env, t) && LoadingTried(env, s, news, [], t)
    ensures Healthy(env, LoadTried(env, t, entries, k))
    ensures LoadingTried(env, s, news, list[..k], LoadTried(env, t, entries, k))
    decreases k
  {
    if k == 0 {
      assert list[..0] == [];
    } else {
      LoadTriedUpTo(env, s, news, t, list, entries, k - 1);
      LoadTriedMirrorsStep(env, s, news, t, list, entries, k - 1);
      LoadTriedKeepsStep(env, s, news, t, list, entries, k - 1);
    }
  }

  /** Every tried entry of the file is taken in. */
  lemma LoadTriedKeeps(env: Env, s: State, news: seq<Id>, t: State, list: seq<Id>, entries: seq<Entry>)
    requires SourceOf(env, s, news, list, entries) && |list| == |entries|
    requires Healthy(env, t) && LoadingTried(env, s, news, [], t)
    ensures Healthy(env, LoadTried(env, t, entries, |list|))
    ensures LoadingTried(env, s, news, list, LoadTried(env, t, entries, |list|))
  {
    LoadTriedUpTo(env, s, news, t, list, entries, |list|);
    assert list[..|list|] == list;
  }

  // ----- the slots of the new table

  /** The new slots taken in t are those before (bucket, n) that are taken in s, by the same addresses. */
  ghost predicate NewsMirror(s: State, t: State, bucket: nat, n: nat) {
    && (forall x :: x in t.news <==> x in s.news && Before(x, bucket, n))
    && (forall x :: x in t.news ==> SameName(s.info, s.news, t.info, t.news, x))
  }

  /** What has been restored of the new table mirrors what was written, and so does all the rest. */
  ghost predicate Restored(s: State, news: seq<Id>, tried: seq<Id>, t: State, bucket: nat, n: nat) {
    Mirrors(s, news + tried, t) && TriedMirrors(s, tried, t) && NewsMirror(s, t, bucket, n) && t.collisions == {}
  }

  /** The state that was written, and the list of its new entries. */
  ghost predicate NewSourceOf(env: Env, s: State, news: seq<Id>) {
    && Indexed(s.info, s.ids) && NewPlaced(env, s.info, s.news) && RefCounted(s.info, s.news, {}) && AllValid(env, s)
    && (forall i :: i in news <==> i in s.info && !s.info[i].inTried)
  }

  /** The entry of t that a written index names, and the slot it came from. */
  ghost predicate Names1(env: Env, s: State, t: State, bucket: nat, n: nat, index: Id) {
    var slot := Slot(bucket, n);
    && slot in s.news && s.news[slot] in s.info && index in t.info
    && t.info[index].addr == s.info[s.news[slot]].addr && !t.info[index].inTried
    && t.info[index].addr.ip in env.valid && n == NewPos(env, t.info[index].addr, bucket) && bucket < env.newBuckets
  }

  lemma IndexNames(env: Env, s: State, news: seq<Id>, tried: seq<Id>, t: State, bucket: nat, n: nat)
    requires NewSourceOf(env, s, news) && Restored(s, news, tried, t, bucket, n)
             && Slot(bucket, n) in s.news
    ensures s.news[Slot(bucket, n)] in news
    ensures Names1(env, s, t, bucket, n, IndexOf(news, s.news[Slot(bucket, n)]))
  {
    var id := s.news[Slot(bucket, n)];
    assert id in s.info && !s.info[id].inTried;
    var j := IndexOf(news, id);
    assert (news + tried)[j] == id && MirrorsAt(s, news + tried, t, j);
  }

  /** The slots that an entry already has in t are some of those it has in s, but not this one. */
  lemma RoomLeft(env: Env, s: State, t: State, bucket: nat, n: nat, index: Id)
    requires Indexed(s.info, s.ids) && NewsMirror(s, t, bucket, n) && Names1(env, s, t, bucket, n, index)
    ensures |SlotsOf(t.news, index)| < |SlotsOf(s.news, s.news[Slot(bucket, n)])|
  {
    var slot := Slot(bucket, n);
    var id := s.news[slot];
    forall x | x in SlotsOf(t.news, index)
      ensures x in SlotsOf(s.news, id)
    {
      assert SameName(s.info, s.news, t.info, t.news, x);
      OneEntry(s, s.news[x], id);
    }
    Larger(SlotsOf(t.news, index), SlotsOf(s.news, id), slot);
  }

  lemma PlaceIsFill(env: Env, s: State, t: State, bucket: nat, n: nat, index: Id)
    requires Names1(env, s, t, bucket, n, index) && t.info[index].refCount < MAX_NEW_BUCKETS
             && Slot(bucket, n) !in t.news
    ensures PlaceOne(env, t, bucket, index, true) == FillSlot(t, Slot(bucket, n), index)
  {
  }

  lemma NewsMirrorFill(env: Env, s: State, t: State, bucket: nat, n: nat, index: Id, t': State)
    requires NewsMirror(s, t, bucket, n) && Names1(env, s, t, bucket, n, index)
             && t' == FillSlot(t, Slot(bucket, n), index)
    ensures NewsMirror(s, t', bucket, n + 1)
  {
    var slot := Slot(bucket, n);
    forall x
      ensures x in t'.news <==> x in s.news && Before(x, bucket, n + 1)
    {
      assert Before(x, bucket, n + 1) <==> Before(x, bucket, n) || x == slot;
    }
    forall x | x in t'.news
      ensures SameName(s.info, s.news, t'.info, t'.news, x)
    {
      if x != slot {
        assert SameName(s.info, s.news, t.info, t.news, x);
      }
    }
  }

  lemma NewsMirrorSkip(s: State, t: State, bucket: nat, n: nat)
    requires NewsMirror(s, t, bucket, n) && Slot(bucket, n) !in s.news
    ensures NewsMirror(s, t, bucket, n + 1)
  {
    forall x | x in s.news
      ensures Before(x, bucket, n + 1) <==> Before(x, bucket, n)
    {
      assert x != Slot(bucket, n);
    }
  }

  lemma MirrorsFill(s: State, src: seq<Id>, t: State, slot: Slot, index: Id, t': State)
    requires Mirrors(s, src, t) && index in t.info && t' == FillSlot(t, slot, index)
    ensures Mirrors(s, src, t')
  {
    forall j | 0 <= j < |src|
      ensures MirrorsAt(s, src, t', j)
    {
      assert MirrorsAt(s, src, t, j);
    }
  }

  lemma TriedMirrorsFill(s: State, list: seq<Id>, t: State, slot: Slot, index: Id, t': State)
    requires TriedMirrors(s, list, t) && index in t.info && t' == FillSlot(t, slot, index)
    ensures TriedMirrors(s, list, t')
  {
    forall x | x in t'.tried
      ensures SameName(s.info, s.tried, t'.info, t'.tried, x)
    {
      assert SameName(s.info, s.tried, t.info, t.tried, x);
    }
  }

  lemma RestoreFill(env: Env, s: State, news: seq<Id>, tried: seq<Id>, t: State, bucket: nat, n: nat, index: Id,
                    t': State)
    requires Restored(s, news, tried, t, bucket, n) && Names1(env, s, t, bucket, n, index)
    requires t' == FillSlot(t, Slot(bucket, n), index)
    ensures Restored(s, news, tried, t', bucket, n + 1)
  {
    MirrorsFill(s, news + tried, t, Slot(bucket, n), index, t');
    TriedMirrorsFill(s, tried, t, Slot(bucket, n), index, t');
    NewsMirrorFill(env, s, t, bucket, n, index, t');
  }

  lemma WaitingAfterFill(t: State, slot: Slot, index: Id)
    requires index in t.info && t.info[index].refCount >= 0
    ensures Waiting(FillSlot(t, slot, index)) == Waiting(t) - {index}
  {
  }

  lemma HealthAfterFill(env: Env, t: State, slot: Slot, index: Id, t': State)
    requires index in t.info && !t.info[index].inTried && 0 <= t.info[index].refCount < MAX_NEW_BUCKETS
    requires Healthy(env, t) && slot !in t.news && t' == FillSlot(t, slot, index)
    requires slot.bucket < env.newBuckets && slot.pos == NewPos(env, t.info[index].addr, slot.bucket)
    ensures Healthy(env, t')
  {
    FillSlotKeeps(env, t, Waiting(t), {}, slot, index);
    WaitingAfterFill(t, slot, index);
  }

  /** The reference count of an entry that is about to get its slot back. */
  lemma CountBelow(env: Env, s: State, news: seq<Id>, tried: seq<Id>, t: State, bucket: nat, n: nat, index: Id)
    requires NewSourceOf(env, s, news) && Healthy(env, t)
    requires Restored(s, news, tried, t, bucket, n) && Names1(env, s, t, bucket, n, index)
    ensures 0 <= t.info[index].refCount < MAX_NEW_BUCKETS && Slot(bucket, n) !in t.news
  {
    RoomLeft(env, s, t, bucket, n, index);
    assert |SlotsOf(s.news, s.news[Slot(bucket, n)])| <= MAX_NEW_BUCKETS;
    assert t.info[index].refCount == |SlotsOf(t.news, index)|;
  }

  /** The state after the index written for one position of a bucket, if any, has been read. */
  ghost function AtPosition(env: Env, s: State, news: seq<Id>, t: State, bucket: nat, n: nat): State {
    var slot := Slot(bucket, n);
    if slot in s.news && s.news[slot] in news then PlaceOne(env, t, bucket, IndexOf(news, s.news[slot]), true) else t
  }

  /** One position of a bucket. */
  lemma RestoreStep(env: Env, s: State, news: seq<Id>, tried: seq<Id>, t: State, bucket: nat, n: nat, t': State)
    requires NewSourceOf(env, s, news) && Healthy(env, t)
             && Restored(s, news, tried, t, bucket, n)
    requires t' == AtPosition(env, s, news, t, bucket, n)
    ensures Healthy(env, t') && Restored(s, news, tried, t', bucket, n + 1)
  {
    var slot := Slot(bucket, n);
    if slot in s.news {
      IndexNames(env, s, news, tried, t, bucket, n);
      var index := IndexOf(news, s.news[slot]);
      CountBelow(env, s, news, tried, t, bucket, n, index);
      PlaceIsFill(env, s, t, bucket, n, index);
      HealthAfterFill(env, t, slot, index, t');
      RestoreFill(env, s, news, tried, t, bucket, n, index, t');
    } else {
      NewsMirrorSkip(s, t, bucket, n);
    }
  }

  lemma PlaceBucketMore(env: Env, t: State, bucket: nat, list: seq<int>, x: int, nNew: nat)
    requires 0 <= x < nNew
    ensures PlaceBucket(env, t, bucket, list + [x], nNew, true)
         == PlaceOne(env, PlaceBucket(env, t, bucket, list, nNew, true), bucket, x, true)
  {
    assert (list + [x])[..|list|] == list;
  }

  lemma BucketStep(env: Env, s: State, news: seq<Id>, t: State, bucket: nat, n: nat)
    ensures var u := PlaceBucket(env, t, bucket, BucketUpTo(s.news, news, bucket, n), |news|, true);
            var u' := PlaceBucket(env, t, bucket, BucketUpTo(s.news, news, bucket, n + 1), |news|, true);
            u' == AtPosition(env, s, news, u, bucket, n)
  {
    var list := BucketUpTo(s.news, news, bucket, n);
    if Slot(bucket, n) in s.news && s.news[Slot(bucket, n)] in news {
      PlaceBucketMore(env, t, bucket, list, IndexOf(news, s.news[Slot(bucket, n)]), |news|);
    } else {
      assert BucketUpTo(s.news, news, bucket, n + 1) == list;
    }
  }

  /** The first n positions of a bucket. */
  ghost function UpTo(env: Env, s: State, news: seq<Id>, t: State, bucket: nat, n: nat): State {
    PlaceBucket(env, t, bucket, BucketUpTo(s.news, news, bucket, n), |news|, true)
  }

  lemma PositionKeeps(env: Env, s: State, news: seq<Id>, tried: seq<Id>, t: State, bucket: nat, n: nat)
    requires NewSourceOf(env, s, news)
    requires Healthy(env, UpTo(env, s, news, t, bucket, n))
    requires Restored(s, news, tried, UpTo(env, s, news, t, bucket, n), bucket, n)
    ensures Healthy(env, UpTo(env, s, news, t, bucket, n + 1))
    ensures Restored(s, news, tried, UpTo(env, s, news, t, bucket, n + 1), bucket, n + 1)
  {
    BucketStep(env, s, news, t, bucket, n);
    RestoreStep(env, s, news, tried, UpTo(env, s, news, t, bucket, n), bucket, n, UpTo(env, s, news, t, bucket, n + 1));
  }

  lemma {:induction false} PlaceBucketKeeps(env: Env, s: State, news: seq<Id>, tried: seq<Id>, t: State, bucket: nat,
                                            n: nat)
    requires NewSourceOf(env, s, news)
    requires Healthy(env, t) && Restored(s, news, tried, t, bucket, 0)
    ensures Healthy(env, UpTo(env, s, news, t, bucket, n))
    ensures Restored(s, news, tried, UpTo(env, s, news, t, bucket, n), bucket, n)
  {
    if n > 0 {
      PlaceBucketKeeps(env, s, news, tried, t, bucket, n - 1);
      PositionKeeps(env, s, news, tried, t, bucket, n - 1);
    }
  }

  lemma NextBucket(env: Env, s: State, news: seq<Id>, tried: seq<Id>, t: State, bucket: nat)
    requires NewSourceOf(env, s, news) && Restored(s, news, tried, t, bucket, env.bucketSize)
    ensures Restored(s, news, tried, t, bucket + 1, 0)
  {
    forall x | x in s.news
      ensures Before(x, bucket + 1, 0) <==> Before(x, bucket, env.bucketSize)
    {
      assert x.pos < env.bucketSize;
    }
  }

  /** The buckets as they are written. */
  ghost predicate BucketsOf(env: Env, s: State, news: seq<Id>, buckets: seq<seq<int>>) {
    && NewSourceOf(env, s, news)
    && (forall b :: 0 <= b < |buckets| ==> buckets[b] == BucketUpTo(s.news, news, b, env.bucketSize))
  }

  /** The state after the first b buckets. */
  ghost function Buckets(env: Env, news: seq<Id>, t: State, buckets: seq<seq<int>>, b: nat): State
    requires b <= |buckets|
  {
    PlaceBuckets(env, t, buckets, b, |news|, true)
  }

  /** Both sides of reading the buckets. */
  ghost predicate Reading(env: Env, s: State, news: seq<Id>, tried: seq<Id>, t: State, bucket: nat) {
    Healthy(env, t) && Restored(s, news, tried, t, bucket, 0)
  }

  lemma BucketKeeps(env: Env, s: State, news: seq<Id>, tried: seq<Id>, t: State, buckets: seq<seq<int>>, b: nat)
    requires BucketsOf(env, s, news, buckets) && b < |buckets|
    requires Reading(env, s, news, tried, Buckets(env, news, t, buckets, b), b)
    ensures Reading(env, s, news, tried, Buckets(env, news, t, buckets, b + 1), b + 1)
  {
    var u := Buckets(env, news, t, buckets, b);
    PlaceBucketKeeps(env, s, news, tried, u, b, env.bucketSize);
    NextBucket(env, s, news, tried, UpTo(env, s, news, u, b, env.bucketSize), b);
  }

  /** Every slot of the new table is taken again by the same address. */
  lemma {:induction false} PlaceBucketsKeeps(env: Env, s: State, news: seq<Id>, tried: seq<Id>, t: State,
                                             buckets: seq<seq<int>>, b: nat)
    requires BucketsOf(env, s, news, buckets) && b <= |buckets|
    requires Reading(env, s, news, tried, Buckets(env, news, t, buckets, b), b)
    ensures Reading(env, s, news, tried, Buckets(env, news, t, buckets, |buckets|), |buckets|)
    decreases |buckets| - b
  {
    if b < |buckets| {
      BucketKeeps(env, s, news, tried, t, buckets, b);
      PlaceBucketsKeeps(env, s, news, tried, t, buckets, b + 1);
    }
  }

  // ----- what has been read

  /** Nothing waits for a slot any more. */
  lemma NoneWaiting(env: Env, s: State, news: seq<Id>, tried: seq<Id>, t: State)
    requires NewSourceOf(env, s, news) && Healthy(env, t)
    requires Restored(s, news, tried, t, env.newBuckets, 0)
    ensures Waiting(t) == {}
  {
    forall j | j in t.info && !t.info[j].inTried
      ensures t.info[j].refCount != 0
    {
      HasSlot(env, s, news, tried, t, j);
      assert t.info[j].refCount == |SlotsOf(t.news, j)|;
    }
  }

  lemma HasSlot(env: Env, s: State, news: seq<Id>, tried: seq<Id>, t: State, j: Id)
    requires NewSourceOf(env, s, news) && Indexed(t.info, t.ids)
    requires Restored(s, news, tried, t, env.newBuckets, 0) && j in t.info && !t.info[j].inTried
    ensures SlotsOf(t.news, j) != {}
  {
    var src := news + tried;
    assert MirrorsAt(s, src, t, j);
    var id := src[j];
    assert |SlotsOf(s.news, id)| >= 1;
    var x :| x in SlotsOf(s.news, id);
    assert Before(x, env.newBuckets, 0) && SameName(s.info, s.news, t.info, t.news, x);
    OneEntry(t, t.news[x], j);
    assert x in SlotsOf(t.news, j);
  }

  /** The same book but for what is kept in memory only. */
  ghost predicate SameBook(b: Book, c: Book) {
    && c.news == b.news && c.tried == b.tried
    && c.known.Keys == b.known.Keys
    && (forall a :: a in b.known ==> c.known[a] == b.known[a].(lastTry := 0, lastCountAttempt := 0))
  }

  lemma NamesMirror(s: State, table: map<Slot, Id>, t: State, table': map<Slot, Id>)
    requires forall x :: x in table' <==> x in table
    requires forall x :: x in table' ==> SameName(s.info, table, t.info, table', x)
    ensures Names(t.info, table') == Names(s.info, table)
  {
    forall x
      ensures x in Names(t.info, table') <==> x in Names(s.info, table)
      ensures x in Names(s.info, table) ==> Names(t.info, table')[x] == Names(s.info, table)[x]
    {
      if x in table {
        assert SameName(s.info, table, t.info, table', x);
      }
    }
  }

  lemma KnownMirrors(s: State, src: seq<Id>, t: State, a: Service)
    requires Indexed(s.info, s.ids) && Indexed(t.info, t.ids) && Mirrors(s, src, t)
    requires forall i :: i in s.info ==> i in src
    ensures a in Abs(t).known <==> a in Abs(s).known
    ensures a in Abs(s).known ==> a in Abs(t).known && Abs(t).known[a] == OnDisk(Abs(s).known[a])
  {
    Owner(s, src, t, a);
    if a in s.ids {
      var i := s.ids[a];
      var j :| 0 <= j < |src| && src[j] == i;
      assert MirrorsAt(s, src, t, j);
      assert t.ids[a] == j;
    }
  }

  // ----- the round trip

  lemma NewIsListed(s: State, news: seq<Id>, tried: seq<Id>)
    requires Splits(s, news, tried)
    ensures forall k :: 0 <= k < |news| ==> news[k] in s.info
    ensures ListsNew(s, news, Entries(s.info, news))
  {
    forall k | 0 <= k < |news|
      ensures news[k] in s.info && !s.info[news[k]].inTried
    {
      assert news[k] in news;
    }
  }

  lemma TriedIsListed(env: Env, s: State, news: seq<Id>, tried: seq<Id>)
    requires Splits(s, news, tried) && AllValid(env, s)
    requires Indexed(s.info, s.ids) && Dated(s.info, s.idCount) && TriedPlaced(env, s.info, s.tried)
    ensures forall k :: 0 <= k < |tried| ==> tried[k] in s.info
    ensures SourceOf(env, s, news, tried, Entries(s.info, tried))
  {
    TriedInList(s, news, tried);
  }

  lemma TriedInList(s: State, news: seq<Id>, tried: seq<Id>)
    requires Splits(s, news, tried)
    ensures forall k :: 0 <= k < |tried| ==> tried[k] in s.info
    ensures ListsTried(s, news, tried, Entries(s.info, tried))
  {
    forall k | 0 <= k < |tried|
      ensures tried[k] in s.info && s.info[tried[k]].inTried && tried[k] !in news
    {
      assert tried[k] in tried;
    }
  }

  lemma BucketsAreWritten(env: Env, s: State, news: seq<Id>, tried: seq<Id>)
    requires Splits(s, news, tried) && AllValid(env, s)
    requires Indexed(s.info, s.ids) && NewPlaced(env, s.info, s.news) && RefCounted(s.info, s.news, {})
    ensures BucketsOf(env, s, news, BucketsUpTo(s.news, news, env.bucketSize, env.newBuckets))
  {
  }

  /** What is written. */
  lemma SavedLists(env: Env, s: State, order: seq<Id>, checksum: nat)
    requires Between(env, s, {}, {}) && Enumerates(order, s.info) && AllValid(env, s)
    ensures var news, tried := Select(s.info, order, false), Select(s.info, order, true);
            var file := Save(env, s, order, checksum);
            && Splits(s, news, tried)
            && ListsNew(s, news, file.news) && |news| == |file.news|
            && SourceOf(env, s, news, tried, file.tried) && |tried| == |file.tried|
            && BucketsOf(env, s, news, file.buckets) && |file.buckets| == env.newBuckets
  {
    Written(env, s, order);
    var news, tried := Select(s.info, order, false), Select(s.info, order, true);
    NewIsListed(s, news, tried);
    TriedIsListed(env, s, news, tried);
    BucketsAreWritten(env, s, news, tried);
  }

  /** After the entries and before the slots. */
  lemma EntriesRead(env: Env, s: State, news: seq<Id>, tried: seq<Id>, file: File)
    requires ListsNew(s, news, file.news) && |news| == |file.news|
    requires SourceOf(env, s, news, tried, file.tried) && |tried| == |file.tried|
    ensures var t := LoadTried(env, LoadNew(env, file.news, |news|), file.tried, |tried|);
            Reading(env, s, news, tried, t, 0)
  {
    var t := LoadNew(env, file.news, |news|);
    LoadNewKeeps(env, s, news, file.news, |news|);
    LoadNewMirrors(env, s, news, file.news, |news|);
    assert news[..|news|] == news && news + [] == news;
    assert LoadingTried(env, s, news, [], t);
    LoadTriedKeeps(env, s, news, t, tried, file.tried);
    NothingRestored(env, s, news, tried, LoadTried(env, t, file.tried, |tried|));
  }

  lemma NothingRestored(env: Env, s: State, news: seq<Id>, tried: seq<Id>, t: State)
    requires Healthy(env, t) && LoadingTried(env, s, news, tried, t)
    ensures Reading(env, s, news, tried, t, 0)
  {
    assert NewsMirror(s, t, 0, 0);
  }

  lemma RestoredTables(env: Env, s: State, news: seq<Id>, tried: seq<Id>, t: State)
    requires NewPlaced(env, s.info, s.news) && TriedPlaced(env, s.info, s.tried) && Splits(s, news, tried)
    requires Restored(s, news, tried, t, env.newBuckets, 0)
    ensures Abs(t).news == Abs(s).news && Abs(t).tried == Abs(s).tried
  {
    assert forall x :: x in s.news ==> Before(x, env.newBuckets, 0);
    NamesMirror(s, s.news, t, t.news);
    assert forall x :: x in s.tried ==> s.tried[x] in tried;
    NamesMirror(s, s.tried, t, t.tried);
  }

  lemma RestoredKnown(s: State, news: seq<Id>, tried: seq<Id>, t: State)
    requires Indexed(s.info, s.ids) && Indexed(t.info, t.ids) && Splits(s, news, tried) && Mirrors(s, news + tried, t)
    ensures Abs(t).known.Keys == Abs(s).known.Keys
    ensures forall a :: a in Abs(s).known ==> Abs(t).known[a] == OnDisk(Abs(s).known[a])
  {
    assert forall i :: i in s.info ==> i in news + tried;
    forall a
      ensures a in Abs(t).known <==> a in Abs(s).known
      ensures a in Abs(s).known ==> Abs(t).known[a] == OnDisk(Abs(s).known[a])
    {
      KnownMirrors(s, news + tried, t, a);
    }
  }

  lemma LoadIs(env: Env, s: State, news: seq<Id>, tried: seq<Id>, file: File, checksum: nat)
    requires |news| == |file.news| && |tried| == |file.tried| && |file.buckets| == env.newBuckets
             && file.checksum == checksum
    ensures Load(env, file, checksum) ==
            Buckets(env, news, LoadTried(env, LoadNew(env, file.news, |news|), file.tried, |tried|), file.buckets,
                    env.newBuckets)
  {
  }

  lemma ReadBack(env: Env, s: State, order: seq<Id>, checksum: nat)
    requires Between(env, s, {}, {}) && Enumerates(order, s.info) && AllValid(env, s)
    ensures var t := Load(env, Save(env, s, order, checksum), checksum);
            Reading(env, s, Select(s.info, order, false), Select(s.info, order, true), t, env.newBuckets)
  {
    var news, tried := Select(s.info, order, false), Select(s.info, order, true);
    var file := Save(env, s, order, checksum);
    SavedLists(env, s, order, checksum);
    EntriesRead(env, s, news, tried, file);
    LoadIs(env, s, news, tried, file, checksum);
    PlaceBucketsKeeps(env, s, news, tried, LoadTried(env, LoadNew(env, file.news, |news|), file.tried, |tried|),
                      file.buckets, 0);
  }

  /** Nothing is left over, and all structures agree again. */
  lemma ReadBackSound(env: Env, s: State, news: seq<Id>, tried: seq<Id>, buckets: seq<seq<int>>, t: State)
    requires BucketsOf(env, s, news, buckets) && Reading(env, s, news, tried, t, env.newBuckets)
    ensures Waiting(t) == {} && Inv(env, t)
  {
    NoneWaiting(env, s, news, tried, t);
    assert Between(env, t, {}, {});
    assert t.collisions == {};
  }

  lemma {:induction false} NothingToPrune(env: Env, t: State, order: seq<Id>)
    requires Waiting(t) == {}
    ensures Prune(env, t, order) == t
  {
    if order != [] {
      NothingToPrune(env, t, order[..|order| - 1]);
      var i := order[|order| - 1];
      assert i !in Waiting(t);
    }
  }

  /**
   * A file just written is read back without loss: the reloaded manager is sound, prunes nothing,
   * passes the consistency check, and stands for the same book, whatever the order in which entries
   * were visited.
   */
  lemma RoundTrip(env: Env, s: State, order: seq<Id>, checksum: nat, pruneOrder: seq<Id>)
    requires Inv(env, s) && Enumerates(order, s.info) && AllValid(env, s)
    ensures var t := Load(env, Save(env, s, order, checksum), checksum);
            && Prune(env, t, pruneOrder) == t
            && Inv(env, t) && Consistent(env, t)
            && SameBook(Abs(s), Abs(t))
  {
    var news, tried := Select(s.info, order, false), Select(s.info, order, true);
    var t := Load(env, Save(env, s, order, checksum), checksum);
    ReadBack(env, s, order, checksum);
    SavedLists(env, s, order, checksum);
    ReadBackSound(env, s, news, tried, Save(env, s, order, checksum).buckets, t);
    NothingToPrune(env, t, pruneOrder);
    SoundIsConsistent(env, t);
    SameAgain(env, s, news, tried, t);
  }

  lemma SameAgain(env: Env, s: State, news: seq<Id>, tried: seq<Id>, t: State)
    requires Between(env, s, {}, {}) && Splits(s, news, tried) && Indexed(t.info, t.ids)
    requires Reading(env, s, news, tried, t, env.newBuckets)
    ensures SameBook(Abs(s), Abs(t))
  {
    RestoredTables(env, s, news, tried, t);
    RestoredKnown(s, news, tried, t);
  }
}
