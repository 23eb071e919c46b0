/** What the address manager's loops have done so far. */
module AddrLoops {
  import opened Basics
  import opened Numbers
  import opened AddrState
  import opened AddrFrames
  import opened AddrRules
  import opened AddrEvents
  import opened AddrBook
  import opened AddrRuns
  import opened AddrCheck

  // ----- the loop over the new buckets, which starts anywhere and wraps around

  /** How far a bucket lies after the start. */
  function Ahead(start: nat, bucket: nat, count: Positive): int {
    if bucket >= start then bucket - start else bucket - start + count
  }

  lemma WrapAround(start: nat, n: nat, count: Positive)
    requires start < count && n < count
    ensures (start + n) % count < count && Ahead(start, (start + n) % count, count) == n
  {
    if start + n < count {
      DivModUnique(start + n, count, 0, start + n);
    } else {
      DivModUnique(start + n, count, 1, start + n - count);
    }
  }

  /** The new table after the first n buckets have been searched for an id. */
  ghost predicate Swept(news0: map<Slot, Id>, news: map<Slot, Id>, i: Id, start: nat, n: nat, count: Positive) {
    && Submap(news, news0)
    && (forall t :: t in news0 ==> (t in news <==> news0[t] != i || Ahead(start, t.bucket, count) >= n))
  }

  lemma SweepStarts(news: map<Slot, Id>, i: Id, start: nat, count: Positive)
    requires start < count && forall t :: t in news ==> t.bucket < count
    ensures Swept(news, news, i, start, 0, count)
  {
  }

  /** One bucket: the only slot of the entry there is the computed one. */
  lemma SweepStep(env: Env, info: map<Id, AddrInfo>, news0: map<Slot, Id>, news: map<Slot, Id>, i: Id, start: nat,
                  n: nat, slot: Slot)
    requires NewPlaced(env, info, news0) && i in info && start < env.newBuckets && n < env.newBuckets
    requires Swept(news0, news, i, start, n, env.newBuckets)
    requires slot.bucket < env.newBuckets && Ahead(start, slot.bucket, env.newBuckets) == n
    requires slot.pos == NewPos(env, info[i].addr, slot.bucket)
    ensures var after := if slot in news && news[slot] == i then news - {slot} else news;
            Swept(news0, after, i, start, n + 1, env.newBuckets)
  {
    forall t | t in news0 && news0[t] == i && Ahead(start, t.bucket, env.newBuckets) == n
      ensures t == slot
    {
      assert t.bucket < env.newBuckets;
    }
  }

  ghost function WithoutId(news: map<Slot, Id>, i: Id): map<Slot, Id> { map t | t in news && news[t] != i :: news[t] }

  lemma SweptAll(news0: map<Slot, Id>, news: map<Slot, Id>, i: Id, start: nat, n: nat, count: Positive)
    requires Swept(news0, news, i, start, n, count) && start < count
    requires n == count || SlotsOf(news, i) == {}
    requires forall t :: t in news0 ==> t.bucket < count
    ensures news == WithoutId(news0, i) && SlotsOf(news, i) == {}
  {
    forall t | t in news
      ensures news[t] != i
    {
      assert n != count ==> t !in SlotsOf(news, i);
    }
    forall t
      ensures t in news <==> t in WithoutId(news0, i)
    {
    }
  }

  /** State t is state s after the first n buckets have been searched for entry i. */
  ghost predicate Leaving(env: Env, s: State, t: State, i: Id, start: nat, n: nat) {
    && i in s.info && i in t.info && start < env.newBuckets
    && t == s.(info := s.info[i := s.info[i].(refCount := t.info[i].refCount)], news := t.news)
    && t.info[i].refCount == |SlotsOf(t.news, i)|
    && Swept(s.news, t.news, i, start, n, env.newBuckets)
  }

  lemma LeavingStarts(env: Env, s: State, i: Id, start: nat)
    requires NewPlaced(env, s.info, s.news) && i in s.info && s.info[i].refCount == |SlotsOf(s.news, i)|
             && start < env.newBuckets
    ensures Leaving(env, s, s, i, start, 0)
  {
    SweepStarts(s.news, i, start, env.newBuckets);
    assert s.info[i := s.info[i].(refCount := s.info[i].refCount)] == s.info;
  }

  /** The state after one bucket has been searched. */
  function LeftBucket(t: State, i: Id, slot: Slot): State
    requires i in t.info
  {
    if slot in t.news && t.news[slot] == i then DropSlot(t, slot) else t
  }

  lemma LeavingStep(env: Env, s: State, t: State, i: Id, start: nat, n: nat, slot: Slot)
    requires NewPlaced(env, s.info, s.news) && Leaving(env, s, t, i, start, n) && n < env.newBuckets
    requires slot.bucket == (start + n) % env.newBuckets && slot.pos == NewPos(env, s.info[i].addr, slot.bucket)
    ensures Leaving(env, s, LeftBucket(t, i, slot), i, start, n + 1)
  {
    WrapAround(start, n, env.newBuckets);
    SweepStep(env, s.info, s.news, t.news, i, start, n, slot);
    if slot in t.news && t.news[slot] == i {
      SlotsAfterDrop(t.news, slot, i);
    }
  }

  lemma LeavingEnds(env: Env, s: State, t: State, i: Id, start: nat, n: nat)
    requires NewPlaced(env, s.info, s.news) && Leaving(env, s, t, i, start, n)
    requires n == env.newBuckets || t.info[i].refCount == 0
    ensures t == Detach(s, i)
  {
    SweptAll(s.news, t.news, i, start, n, env.newBuckets);
  }

  // ----- adding a list of addresses

  /** The first n additions of a list, each with its own clock reading and random draw. */
  ghost function Adds(list: seq<Announced>, source: NetAddr, penalty: int, clock: seq<int>, rolls: seq<nat>,
                      n: nat): (ops: seq<Op>)
    requires n <= |list| == |clock| == |rolls|
    ensures |ops| == n && AllTimely(ops)
  {
    if n == 0 then []
    else Adds(list, source, penalty, clock, rolls, n - 1)
           + [Op.Add(list[n - 1], source, penalty, clock[n - 1], rolls[n - 1])]
  }

  /** Whether one of the first n additions inserts an address. */
  ghost predicate AnyInserted(env: Env, s: State, list: seq<Announced>, source: NetAddr, penalty: int, clock: seq<int>,
                              rolls: seq<nat>, n: nat)
    requires n <= |list| == |clock| == |rolls| && Inv(env, s)
  {
    n > 0 &&
    (AnyInserted(env, s, list, source, penalty, clock, rolls, n - 1) ||
     InsertsNow(env, Run(env, s, Adds(list, source, penalty, clock, rolls, n - 1)), list[n - 1], source, penalty,
                clock[n - 1], rolls[n - 1]))
  }

  ghost predicate InsertsNow(env: Env, s: State, a: Announced, source: NetAddr, penalty: int, now: int, roll: nat)
    requires Inv(env, s)
  {
    AddSingleKeeps(env, s, a, source, penalty, now, roll);
    AddSingle(env, s, a, source, penalty, now, roll).1
  }

  // ----- pending collisions in ascending order

  ghost predicate Ascending(order: seq<Id>, ids: set<Id>) {
    && (forall j, k :: 0 <= j < k < |order| ==> order[j] < order[k])
    && (forall i :: i in order <==> i in ids)
  }

  lemma {:induction false} SmallestOf(ids: set<Id>) returns (i: Id)
    requires ids != {}
    ensures i in ids && forall j :: j in ids ==> i <= j
  {
    var x :| x in ids;
    var rest := ids - {x};
    i := x;
    if rest != {} {
      var k := SmallestOf(rest);
      i := if k < x then k else x;
    }
    assert forall j :: j in ids ==> j == x || j in rest;
  }

  lemma PrependSmallest(order: seq<Id>, ids: set<Id>, i: Id)
    requires i in ids && Ascending(order, ids - {i}) && forall j :: j in ids ==> i <= j
    ensures Ascending([i] + order, ids)
  {
    forall k | 0 <= k < |order|
      ensures i < order[k]
    {
      assert order[k] in order;
    }
    forall j
      ensures j in [i] + order <==> j in ids
    {
      assert j in [i] + order <==> j in order || j == i;
    }
  }

  /** The ids of a set, smallest first, as an ordered set is walked. */
  method InOrder(ids: set<Id>) returns (order: seq<Id>)
    ensures Ascending(order, ids) && |order| == |ids|
    decreases |ids|
  {
    if ids == {} {
      return [];
    }
    ghost var least := SmallestOf(ids);
    var i :| i in ids && forall j :: j in ids ==> i <= j;
    order := InOrder(ids - {i});
    PrependSmallest(order, ids, i);
    order := [i] + order;
  }

  ghost function Settles(order: seq<Id>, clock: seq<int>, n: nat): (ops: seq<Op>)
    requires n <= |order| == |clock| && forall k :: 0 <= k < |clock| ==> clock[k] > 0
    ensures |ops| == n && AllTimely(ops)
  {
    if n == 0 then [] else Settles(order, clock, n - 1) + [Settle(order[n - 1], clock[n - 1])]
  }

  lemma RunNothing(env: Env, s: State)
    requires Inv(env, s)
    ensures Run(env, s, []) == s
  {
  }

  /** After n collisions have been settled: the state, and that the others are still pending. */
  ghost predicate SettledSoFar(env: Env, s: State, order: seq<Id>, clock: seq<int>, n: nat, t: State) {
    && n <= |order| == |clock| && (forall k :: 0 <= k < |clock| ==> clock[k] > 0) && Inv(env, s)
    && t == Run(env, s, Settles(order, clock, n))
    && Distinct(order) && (forall k :: n <= k < |order| ==> order[k] in t.collisions)
  }

  lemma SettlesStart(env: Env, s: State, order: seq<Id>, clock: seq<int>)
    requires Inv(env, s) && Ascending(order, s.collisions) && |order| == |clock| && forall k :: 0 <= k < |clock| ==>
             clock[k] > 0
    ensures SettledSoFar(env, s, order, clock, 0, s)
  {
    RunNothing(env, s);
    assert forall k :: 0 <= k < |order| ==> order[k] in order;
  }

  lemma SettlesOpen(env: Env, s: State, order: seq<Id>, clock: seq<int>, n: nat, t: State)
    requires SettledSoFar(env, s, order, clock, n, t) && n < |order|
    ensures Inv(env, t) && |order| == |clock| && clock[n] > 0 && order[n] in t.collisions
  {
  }

  lemma SettlesStep(env: Env, s: State, order: seq<Id>, clock: seq<int>, n: nat, t: State, u: State)
    requires SettledSoFar(env, s, order, clock, n, t) && n < |order| == |clock|
    requires CanResolve(env, t, order[n], clock[n]) && u == ResolveOne(env, t, order[n], clock[n])
    requires t.collisions - {order[n]} <= u.collisions
    ensures SettledSoFar(env, s, order, clock, n + 1, u)
  {
    RunAppend(env, s, Settles(order, clock, n), Settle(order[n], clock[n]));
    StepOfSettle(env, t, order[n], clock[n]);
    StillPending(order, n, t.collisions, u.collisions);
  }

  lemma StillPending(order: seq<Id>, n: nat, before: set<Id>, after: set<Id>)
    requires Distinct(order) && n < |order| && before - {order[n]} <= after
    requires forall k :: n <= k < |order| ==> order[k] in before
    ensures forall k :: n + 1 <= k < |order| ==> order[k] in after
  {
  }

  lemma SettlesEnd(env: Env, s: State, order: seq<Id>, clock: seq<int>, t: State)
    requires SettledSoFar(env, s, order, clock, |order|, t)
    ensures Inv(env, s) && |order| == |clock| && forall k :: 0 <= k < |clock| ==> clock[k] > 0
    ensures Inv(env, t) && t == Run(env, s, Settles(order, clock, |order|))
  {
  }

  // ----- a random selection of good addresses

  predicate Fits(env: Env, a: Service, k: Known, network: Option<Network>, now: int) {
    (network.None? || NetClassOf(env, a) == network.value) && !IsTerrible(k, now)
  }

  /** The addresses of the entries in a list of ids that fit. */
  ghost function Picks(env: Env, info: map<Id, AddrInfo>, ids: seq<Id>, network: Option<Network>,
                       now: int): seq<Service>
    decreases |ids|
  {
    if ids == [] then []
    else
      var last := |ids| - 1;
      var i := ids[last];
      Picks(env, info, ids[..last], network, now) +
      if i in info && Fits(env, info[i].addr, info[i].known, network, now) then [info[i].addr] else []
  }

  lemma {:induction false} PicksFrame(env: Env, info: map<Id, AddrInfo>, info': map<Id, AddrInfo>, ids: seq<Id>,
                                      network: Option<Network>, now: int)
    requires AgreeButPos(info, info')
    ensures Picks(env, info', ids, network, now) == Picks(env, info, ids, network, now)
    decreases |ids|
  {
    if ids != [] {
      var last := |ids| - 1;
      PicksFrame(env, info, info', ids[..last], network, now);
      assert ids[last] in info ==> info'[ids[last]] == info[ids[last]].(randomPos := info'[ids[last]].randomPos);
    }
  }

  /** Every picked address comes from an id of the list, and every id that fits is picked. */
  lemma {:induction false} PicksAre(env: Env, info: map<Id, AddrInfo>, ids: seq<Id>, network: Option<Network>,
                                    now: int, a: Service)
    ensures a in Picks(env, info, ids, network, now) <==>
            exists k :: 0 <= k < |ids| && ids[k] in info && info[ids[k]].addr == a
              && Fits(env, a, info[ids[k]].known, network, now)
    decreases |ids|
  {
    if ids != [] {
      var last := |ids| - 1;
      var init := ids[..last];
      PicksAre(env, info, init, network, now, a);
      var tail := if ids[last] in info && Fits(env, info[ids[last]].addr, info[ids[last]].known, network, now)
        then [info[ids[last]].addr] else [];
      assert a in Picks(env, info, ids, network, now) <==> a in Picks(env, info, init, network, now) || a in tail;
      if k :| 0 <= k < |ids| && ids[k] in info && info[ids[k]].addr == a
              && Fits(env, a, info[ids[k]].known, network, now) {
        assert k < last ==> init[k] == ids[k];
      }
    }
  }

  lemma {:induction false} PicksDistinct(env: Env, s: State, n: nat, network: Option<Network>, now: int)
    requires Indexed(s.info, s.ids) && Shuffled(s.info, s.random) && n <= |s.random|
    ensures Distinct(Picks(env, s.info, s.random[..n], network, now))
  {
    if n > 0 {
      var ids, i := s.random[..n - 1], s.random[n - 1];
      PicksDistinct(env, s, n - 1, network, now);
      assert s.random[..n][..n - 1] == ids;
      forall k | 0 <= k < |ids|
        ensures s.info[ids[k]].addr != s.info[i].addr
      {
        assert s.info[ids[k]].randomPos == k && s.info[i].randomPos == n - 1;
        assert s.ids[s.info[ids[k]].addr] == ids[k] && s.ids[s.info[i].addr] == i;
      }
      PicksAre(env, s.info, ids, network, now, s.info[i].addr);
    }
  }

  /** The addresses of a book that fit. */
  predicate FitsIn(env: Env, b: Book, a: Service, network: Option<Network>, now: int) {
    a in b.known && Fits(env, a, b.known[a], network, now)
  }

  lemma PicksFit(env: Env, s: State, n: nat, network: Option<Network>, now: int, a: Service)
    requires Indexed(s.info, s.ids) && Shuffled(s.info, s.random) && n <= |s.random|
    ensures a in Picks(env, s.info, s.random[..n], network, now) ==> FitsIn(env, Abs(s), a, network, now)
    ensures n == |s.random| && FitsIn(env, Abs(s), a, network, now) ==>
            a in Picks(env, s.info, s.random[..n], network, now)
  {
    var ids := s.random[..n];
    PicksAre(env, s.info, ids, network, now, a);
    if k :| 0 <= k < |ids| && ids[k] in s.info && s.info[ids[k]].addr == a
            && Fits(env, a, s.info[ids[k]].known, network, now) {
      assert s.ids[a] == ids[k];
    }
    if n == |s.random| && a in Abs(s).known {
      var i := s.ids[a];
      assert ids[s.info[i].randomPos] == i;
    }
  }

  /** How many addresses may be returned. */
  function Quota(size: nat, maxAddresses: nat, maxPct: nat): nat {
    var part := if maxPct != 0 then maxPct * size / 100 else size;
    if maxAddresses != 0 && maxAddresses < part then maxAddresses else part
  }

  /** After n draws: the addresses picked so far, in a state that stands for the same book. */
  ghost predicate Selecting(env: Env, b: Book, s: State, n: nat, network: Option<Network>, now: int, list: seq<Service>)
  {
    && Inv(env, s) && Abs(s) == b && n <= |s.random|
    && list == Picks(env, s.info, s.random[..n], network, now)
  }

  lemma SelectStarts(env: Env, s: State, network: Option<Network>, now: int)
    requires Inv(env, s)
    ensures Selecting(env, Abs(s), s, 0, network, now, [])
  {
    assert s.random[..0] == [];
  }

  lemma SelectSwap(env: Env, b: Book, s: State, n: nat, drawn: nat, network: Option<Network>, now: int,
                   list: seq<Service>)
    requires Selecting(env, b, s, n, network, now, list) && n <= drawn < |s.random|
    ensures CanSwap(s, n, drawn) && Selecting(env, b, SwapRandom(s, n, drawn), n, network, now, list)
  {
    assert s.random[n] in s.info && s.random[drawn] in s.info;
    ShuffleKeeps(env, s, n, drawn);
    AbsSwap(s, n, drawn);
    SwapAgrees(s, n, drawn);
    SwapPrefix(s, n, drawn);
    PicksFrame(env, s.info, SwapRandom(s, n, drawn).info, s.random[..n], network, now);
  }

  lemma SwapPrefix(s: State, n: nat, drawn: nat)
    requires CanSwap(s, n, drawn) && n <= drawn
    ensures SwapRandom(s, n, drawn).random[..n] == s.random[..n]
  {
  }

  lemma PicksOneMore(env: Env, b: Book, s: State, n: nat, network: Option<Network>, now: int, list: seq<Service>)
    requires Selecting(env, b, s, n, network, now, list) && n < |s.random|
    ensures s.random[n] in s.info
    ensures var x := s.info[s.random[n]];
            Selecting(env, b, s, n + 1, network, now, if Fits(env, x.addr, x.known, network, now) then list + [x.addr]
                      else list)
  {
    assert s.random[n] in s.info;
    PicksNext(env, s.info, s.random, n, network, now);
  }

  lemma PicksNext(env: Env, info: map<Id, AddrInfo>, ids: seq<Id>, n: nat, network: Option<Network>, now: int)
    requires n < |ids| && ids[n] in info
    ensures var x := info[ids[n]];
            var list := Picks(env, info, ids[..n], network, now);
            Picks(env, info, ids[..n + 1], network, now) == if Fits(env, x.addr, x.known, network, now)
              then list + [x.addr] else list
  {
    assert ids[..n + 1][..n] == ids[..n];
  }

  /** What the selection is good for when it ends. */
  lemma Selected(env: Env, b: Book, s: State, n: nat, network: Option<Network>, now: int, list: seq<Service>)
    requires Selecting(env, b, s, n, network, now, list)
    ensures Distinct(list)
    ensures forall a :: a in list ==> FitsIn(env, b, a, network, now)
    ensures n == |s.random| ==> forall a :: FitsIn(env, b, a, network, now) ==> a in list
  {
    PicksDistinct(env, s, n, network, now);
    forall a
      ensures a in list ==> FitsIn(env, b, a, network, now)
      ensures n == |s.random| && FitsIn(env, b, a, network, now) ==> a in list
    {
      PicksFit(env, s, n, network, now, a);
    }
  }

  // ----- sizes

  /** The entries of a network, or of all, in one of the tables, or in both. */
  ghost function Section(env: Env, info: map<Id, AddrInfo>, net: Option<Network>, inNew: Option<bool>): set<Id> {
    set i | i in info && (net.None? || NetworkOf(env, info[i].addr) == net.value)
      && (inNew.None? || inNew.value != info[i].inTried)
  }

  /** The totals are the sizes of the tables. */
  lemma TotalsAre(env: Env, s: State)
    requires Shuffled(s.info, s.random) && Tallied(env, s.info, {}, s.nNew, s.nTried, s.counts)
    ensures s.nNew == |Section(env, s.info, None, Some(true))|
    ensures s.nTried == |Section(env, s.info, None, Some(false))|
    ensures |s.random| == |Section(env, s.info, None, None)|
  {
    SectionIs(env, s.info, AllNew, Section(env, s.info, None, Some(true)));
    SectionIs(env, s.info, AllTried, Section(env, s.info, None, Some(false)));
    assert Counter(s.nNew, s.nTried, s.counts, AllNew) == |Matching(env, s.info, {}, AllNew)|;
    assert Counter(s.nNew, s.nTried, s.counts, AllTried) == |Matching(env, s.info, {}, AllTried)|;
    PlacesAre(s, |s.random|);
    assert Section(env, s.info, None, None) == Placed(s, |s.random|);
  }

  /** The counters of a network are the sizes of its sections. */
  lemma CountsAre(env: Env, s: State, n: Network)
    requires Tallied(env, s.info, {}, s.nNew, s.nTried, s.counts)
    ensures var c := CountsOf(s.counts, n);
            && c.nNew == |Section(env, s.info, Some(n), Some(true))|
            && c.nTried == |Section(env, s.info, Some(n), Some(false))|
            && c.nNew + c.nTried == |Section(env, s.info, Some(n), None)|
  {
    var news, tried := Section(env, s.info, Some(n), Some(true)), Section(env, s.info, Some(n), Some(false));
    SectionIs(env, s.info, NewIn(n), news);
    SectionIs(env, s.info, TriedIn(n), tried);
    assert Counter(s.nNew, s.nTried, s.counts, NewIn(n)) == |Matching(env, s.info, {}, NewIn(n))|;
    assert Counter(s.nNew, s.nTried, s.counts, TriedIn(n)) == |Matching(env, s.info, {}, TriedIn(n))|;
    assert Section(env, s.info, Some(n), None) == news + tried;
  }

  lemma SectionIs(env: Env, info: map<Id, AddrInfo>, q: Query, ids: set<Id>)
    requires match q
             case NewIn(n) => ids == Section(env, info, Some(n), Some(true))
             case TriedIn(n) => ids == Section(env, info, Some(n), Some(false))
             case AllNew => ids == Section(env, info, None, Some(true))
             case AllTried => ids == Section(env, info, None, Some(false))
    ensures Matching(env, info, {}, q) == ids
  {
  }
}
