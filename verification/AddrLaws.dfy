/**
 * What the operations of the address manager do to the address book, in plain numbers: seconds, slots and
 * counts, without the functions by which the operations are defined.
 */
module AddrLaws {
  import opened Basics
  import opened AddrState
  import opened AddrOps
  import opened AddrRules
  import opened AddrEvents
  import opened AddrBook
  import opened AddrRefines
  import opened AddrLoops

  // ----- colliding entries

  /** A move to the tried table changes one tried slot, and the address that moved has no new slot any more. */
  lemma MovedIsTried(env: Env, b: Book, a: Service)
    requires TriedSlot(env, a) in b.tried ==> b.tried[TriedSlot(env, a)] in b.known
    ensures MoveToTried(env, b, a).tried == b.tried[TriedSlot(env, a) := a]
  {
  }

  lemma ReplacedIsTried(env: Env, b: Book, a: Service, now: int)
    requires Complete(b) && a in b.known && TriedSlot(env, a) in b.tried
    requires HoldsTried(env, b, a) || Refs(b, a) > 0
    ensures GoodIn(env, b, a, false, now).0.tried == b.tried[TriedSlot(env, a) := a]
  {
    if !HoldsTried(env, b, a) {
      MovedIsTried(env, Annotate(b.(lastGood := now), a, Succeeded(b.known[a], now)), a);
    }
  }

  /** What happened to a pending entry: its slot keeps its holder, or the entry takes it, or nothing changes yet. */
  ghost predicate SettledRightly(env: Env, s: State, t: State, i: Id, a: Service, now: int) {
    var b, c, slot := Abs(s), Abs(t), TriedSlot(env, a);
    && slot in b.tried && b.tried[slot] in b.known && a in b.known
    && var holder := b.known[b.tried[slot]];
       // reached within four hours: the holder stays
       if now - holder.lastSuccess < 14400 then c == b && t.collisions == s.collisions - {i}
       // tried and not reached since, with a minute to answer; or not tested for forty minutes: it is replaced
       else if 60 < now - holder.lastTry < 14400
            || (14400 <= now - holder.lastTry && 2400 < now - b.known[a].lastSuccess)
       then c.tried == b.tried[slot := a] && t.collisions == s.collisions - {i}
       // the test is still to come
       else t == s
  }

  lemma VerdictInSeconds(holder: Known, wanting: Known, now: int)
    ensures Judge(holder, wanting, now) ==
            if now - holder.lastSuccess < 14400 then Drop
            else if 60 < now - holder.lastTry < 14400
                 || (14400 <= now - holder.lastTry && 2400 < now - wanting.lastSuccess) then Replace
            else Wait
  {
  }

  lemma DropIsRemoval(env: Env, s: State, i: Id, now: int)
    requires CanResolve(env, s, i, now) && VerdictOn(env, s, i, now) == Drop
    ensures ResolveOne(env, s, i, now) == s.(collisions := s.collisions - {i})
  {
  }

  lemma DropIsSettled(env: Env, s: State, i: Id, now: int)
    requires CanResolve(env, s, i, now) && VerdictOn(env, s, i, now) == Drop
    ensures var t := ResolveOne(env, s, i, now); Abs(t) == Abs(s) && t.collisions == s.collisions - {i}
  {
    DropIsRemoval(env, s, i, now);
    SameBookAfter(s, i);
  }

  lemma PendingIsReached(env: Env, s: State, i: Id, now: int)
    requires Inv(env, s) && now > 0 && i in s.collisions && i in s.info
    ensures CanGood(env, s, s.info[i].addr, false, now)
    ensures var t, slot := Good(env, s, s.info[i].addr, false, now).0, TriedSlot(env, s.info[i].addr);
            Abs(t).tried == Abs(s).tried[slot := s.info[i].addr]
  {
    var a := s.info[i].addr;
    TargetIsHeld(env, s, i);
    TriedIsNamed(env, s, TriedSlot(env, a));
    EntryIsPage(env, s, {}, i);
    AbsGood(env, s, a, false, now);
    ReplacedIsTried(env, Abs(s), a, now);
  }

  lemma ReplaceIsGood(env: Env, s: State, i: Id, now: int, g: State)
    requires i in s.info && CanResolve(env, s, i, now) && VerdictOn(env, s, i, now) == Replace
    requires g == Good(env, s, s.info[i].addr, false, now).0
    ensures ResolveOne(env, s, i, now) == g.(collisions := g.collisions - {i})
  {
  }

  lemma ReplaceIsSettled(env: Env, s: State, i: Id, now: int)
    requires Inv(env, s) && now > 0 && i in s.collisions && i in s.info && CanResolve(env, s, i, now)
    requires VerdictOn(env, s, i, now) == Replace
    ensures var t, slot := ResolveOne(env, s, i, now), TriedSlot(env, s.info[i].addr);
            Abs(t).tried == Abs(s).tried[slot := s.info[i].addr] && t.collisions == s.collisions - {i}
  {
    PendingIsReached(env, s, i, now);
    GoodKeeps(env, s, s.info[i].addr, false, now);
    var g := Good(env, s, s.info[i].addr, false, now).0;
    ReplaceIsGood(env, s, i, now, g);
    SameBookAfter(g, i);
  }

  lemma SameBookAfter(t: State, i: Id)
    ensures Abs(t.(collisions := t.collisions - {i})) == Abs(t)
  {
  }

  /** The rule for a pending entry whose address is valid. */
  lemma CollisionIsSettled(env: Env, s: State, i: Id, now: int)
    requires Inv(env, s) && now > 0 && i in s.collisions && i in s.info && s.info[i].addr.ip in env.valid
    ensures CanResolve(env, s, i, now)
    ensures SettledRightly(env, s, ResolveOne(env, s, i, now), i, s.info[i].addr, now)
  {
    var slot := TriedSlot(env, s.info[i].addr);
    PendingIsJudged(env, s, i, now);
    ResolvePages(env, s, i);
    VerdictInSeconds(s.info[s.tried[slot]].known, s.info[i].known, now);
    match VerdictOn(env, s, i, now)
    case Wait =>
    case Drop => DropIsSettled(env, s, i, now);
    case Replace => ReplaceIsSettled(env, s, i, now);
  }

  /** An entry that is gone, or whose address is not valid any more, is no longer pending, and that is all. */
  lemma GoneIsDropped(env: Env, s: State, i: Id, now: int)
    requires Inv(env, s) && now > 0 && (i in s.info ==> s.info[i].addr.ip !in env.valid)
    ensures CanResolve(env, s, i, now)
    ensures var t := ResolveOne(env, s, i, now); Abs(t) == Abs(s) && t.collisions == s.collisions - {i}
  {
    MayResolve(env, s, i, now);
    DropIsSettled(env, s, i, now);
  }

  // ----- announcements

  /**
   * Not worth its slot: untried for a minute, and either dated in the future, not seen for thirty days, never
   * reached in three attempts, or not reached in seven days and ten attempts.
   */
  ghost predicate Useless(k: Known, now: int) {
    && now - k.lastTry > 60
    && (k.time > now + 600 || now - k.time > 2592000 || (k.lastSuccess == 0 && k.attempts >= 3)
        || (now - k.lastSuccess > 604800 && k.attempts >= 10))
  }

  lemma TerribleIsUseless(k: Known, now: int)
    ensures IsTerrible(k, now) <==> Useless(k, now)
  {
  }

  /** The slots of the new table that an address holds. */
  ghost function Holdings(b: Book, a: Service): set<Slot> { set t | t in b.news && b.news[t] == a }

  /** What the announcement of an unknown address leads to: its entry in its slot, or nothing. */
  ghost predicate EnteredRightly(env: Env, b: Book, c: Book, ok: bool, a: Announced, source: NetAddr, penalty: int,
                                 now: int)
  {
    var slot := NewSlot(env, a.addr, source);
    var time := a.time - if a.addr.ip == source then 0 else penalty;
    var entry := Known(a.services, if time > 0 then time else 0, source, 0, 0, 0, 0);
    if slot !in b.news then ok && c == b.(news := b.news[slot := a.addr], known := b.known[a.addr := entry])
    else
      var holder := b.news[slot];
      && holder in b.known
      && (ok <==> Useless(b.known[holder], now) || |Holdings(b, holder)| > 1)
      && (ok ==> c.news == b.news[slot := a.addr] && c.tried == b.tried && c.lastGood == b.lastGood)
      && (ok ==> c.known == (if |Holdings(b, holder)| > 1 then b.known else b.known - {holder})[a.addr := entry])
      && (!ok ==> c == b)
  }

  lemma HoldingsAfter(b: Book, slot: Slot)
    requires slot in b.news
    ensures |Holdings(b, b.news[slot])| > 1 <==> Listed(b.news - {slot}, b.news[slot])
  {
    var a := b.news[slot];
    var rest := Holdings(b, a) - {slot};
    assert Holdings(b, a) == rest + {slot};
    if rest != {} {
      var x :| x in rest;
      assert x in b.news - {slot} && (b.news - {slot})[x] == a;
    }
  }

  /** The rule for an address of which nothing is known yet. */
  lemma UnknownIsEntered(env: Env, s: State, a: Announced, source: NetAddr, penalty: int, now: int, roll: nat)
    requires Inv(env, s) && a.addr.ip in env.routable && a.addr !in s.ids
    ensures CanAdd(env, s, a, source, Penalty(a, source, penalty), now, roll)
    ensures var (t, ok) := AddSingle(env, s, a, source, penalty, now, roll);
            EnteredRightly(env, Abs(s), Abs(t), ok, a, source, penalty, now)
  {
    AbsAddSingle(env, s, a, source, penalty, now, roll);
    UnknownHoldsNothing(env, s, a.addr);
    EnteredInBook(env, Abs(s), a, source, penalty, now, roll);
  }

  lemma NewsAreKnown(env: Env, s: State)
    requires Inv(env, s)
    ensures forall t :: t in Abs(s).news ==> Abs(s).news[t] in Abs(s).known
  {
    forall t | t in Abs(s).news
      ensures Abs(s).news[t] in Abs(s).known
    {
      assert s.news[t] in s.info && s.ids[s.info[s.news[t]].addr] == s.news[t];
    }
  }

  lemma UnknownHoldsNothing(env: Env, s: State, a: Service)
    requires Inv(env, s) && a !in s.ids
    ensures a !in Abs(s).known && Holdings(Abs(s), a) == {}
    ensures forall t :: t in Abs(s).news ==> Abs(s).news[t] in Abs(s).known
  {
    NewsAreKnown(env, s);
    assert a !in Abs(s).known;
  }

  lemma EnteredInBook(env: Env, b: Book, a: Announced, source: NetAddr, penalty: int, now: int, roll: nat)
    requires a.addr.ip in env.routable && a.addr !in b.known && Holdings(b, a.addr) == {}
    requires forall t :: t in b.news ==> b.news[t] in b.known
    ensures var (c, ok) := AddTo(env, b, a, source, penalty, now, roll);
            EnteredRightly(env, b, c, ok, a, source, penalty, now)
  {
    var slot := NewSlot(env, a.addr, source);
    var d := b.(known := b.known[a.addr := FirstHeard(a, source, Penalty(a, source, penalty))]);
    assert Refs(d, a.addr) == |Holdings(b, a.addr)|;
    if slot in b.news {
      assert Refs(d, b.news[slot]) == |Holdings(b, b.news[slot])|;
      TerribleIsUseless(b.known[b.news[slot]], now);
      HoldingsAfter(b, slot);
      assert slot in Holdings(b, b.news[slot]);
      assert b.known[a.addr := d.known[a.addr]] - {a.addr} == b.known;
    }
  }

  /** What a known address is known for after an announcement: more services, and perhaps a later time. */
  ghost function Updated(k: Known, a: Announced, source: NetAddr, penalty: int, now: int): Known {
    var time := a.time - if a.addr.ip == source then 0 else penalty;
    var late := time - if now - a.time < 86400 then 3600 else 86400;
    k.(services := k.services + a.services, time := if k.time >= late then k.time else if time > 0 then time else 0)
  }

  /** What the announcement of a known address leads to: its update, and perhaps one more slot. */
  ghost predicate HeardRightly(env: Env, b: Book, c: Book, ok: bool, a: Announced, source: NetAddr, penalty: int,
                               now: int, roll: nat)
  {
    var slot, n := NewSlot(env, a.addr, source), |Holdings(b, a.addr)|;
    && a.addr in b.known
    && var k := Updated(b.known[a.addr], a, source, penalty, now);
       && (ok <==>
             && a.time > k.time && !HoldsTried(env, b, a.addr) && n != 8 && roll == 0
             && (slot in b.news ==> b.news[slot] != a.addr && b.news[slot] in b.known
                                    && Useless(b.known[b.news[slot]], now)))
       && c.tried == b.tried && c.lastGood == b.lastGood
       && c.news == (if ok then b.news[slot := a.addr] else b.news)
       && c.known == (if ok && slot in b.news && |Holdings(b, b.news[slot])| == 1 then b.known - {b.news[slot]}
                      else b.known)[a.addr := k]
  }

  lemma KnownHoldsSomething(env: Env, s: State, a: Service)
    requires Inv(env, s) && a in s.ids
    ensures a in Abs(s).known && (HoldsTried(env, Abs(s), a) || |Holdings(Abs(s), a)| > 0)
    ensures forall t :: t in Abs(s).news ==> Abs(s).news[t] in Abs(s).known
  {
    var i := s.ids[a];
    assert i in s.info && s.info[i].addr == a;
    EntryIsPage(env, s, {}, i);
    assert Refs(Abs(s), a) == |Holdings(Abs(s), a)|;
    NewsAreKnown(env, s);
  }

  lemma HeardIsUpdated(k: Known, a: Announced, source: NetAddr, penalty: int, now: int)
    ensures Heard(k, a, Penalty(a, source, penalty), now) == Updated(k, a, source, penalty, now)
  {
  }

  lemma HeardInBook(env: Env, b: Book, a: Announced, source: NetAddr, penalty: int, now: int, roll: nat)
    requires a.addr.ip in env.routable && a.addr in b.known
    requires HoldsTried(env, b, a.addr) || |Holdings(b, a.addr)| > 0
    requires forall t :: t in b.news ==> b.news[t] in b.known
    ensures var (c, ok) := AddTo(env, b, a, source, penalty, now, roll);
            HeardRightly(env, b, c, ok, a, source, penalty, now, roll)
  {
    HeardIsUpdated(b.known[a.addr], a, source, penalty, now);
    var slot := NewSlot(env, a.addr, source);
    var k := Updated(b.known[a.addr], a, source, penalty, now);
    var d := b.(known := b.known[a.addr := k]);
    assert Refs(b, a.addr) == |Holdings(b, a.addr)| && Refs(d, a.addr) == |Holdings(b, a.addr)|;
    if slot in b.news {
      TerribleIsUseless(d.known[b.news[slot]], now);
      HoldingsAfter(b, slot);
      assert slot in Holdings(b, b.news[slot]);
      if b.news[slot] != a.addr {
        assert d.known - {b.news[slot]} == (b.known - {b.news[slot]})[a.addr := k];
      }
    }
  }

  /** The rule for an address that is known. */
  lemma KnownIsHeard(env: Env, s: State, a: Announced, source: NetAddr, penalty: int, now: int, roll: nat)
    requires Inv(env, s) && a.addr.ip in env.routable && a.addr in s.ids
    ensures CanAdd(env, s, a, source, Penalty(a, source, penalty), now, roll)
    ensures var (t, ok) := AddSingle(env, s, a, source, penalty, now, roll);
            HeardRightly(env, Abs(s), Abs(t), ok, a, source, penalty, now, roll)
  {
    AbsAddSingle(env, s, a, source, penalty, now, roll);
    KnownHoldsSomething(env, s, a.addr);
    HeardInBook(env, Abs(s), a, source, penalty, now, roll);
  }

  // ----- connections

  /** What a successful connection leads to. */
  ghost predicate ReachedRightly(env: Env, b: Book, c: Book, ok: bool, a: Service, test: bool, time: int) {
    var slot := TriedSlot(env, a);
    && c.lastGood == time
    && (a !in b.known ==> !ok && c == b.(lastGood := time))
    && (a in b.known ==>
          && (ok <==> !HoldsTried(env, b, a) && !(test && slot in b.tried))
          && a in c.known && c.known[a] == b.known[a].(lastSuccess := time, lastTry := time, attempts := 0)
          && c.tried == (if ok then b.tried[slot := a] else b.tried)
          && (!ok ==> c.news == b.news && c.known.Keys == b.known.Keys)
          && (ok ==> Holdings(c, a) == {})
          // whoever held the slot is back in the new table, where its source puts it
          && (ok && slot in b.tried ==>
                && b.tried[slot] in b.known
                && var home := NewSlot(env, b.tried[slot], b.known[b.tried[slot]].source);
                   && home in c.news && c.news[home] == b.tried[slot]
                   && forall t :: t in b.news && b.news[t] != a && t != home ==> t in c.news && c.news[t] == b.news[t])
          && (ok && slot !in b.tried ==>
                forall t :: t in b.news && b.news[t] != a ==> t in c.news && c.news[t] == b.news[t]))
  }

  lemma MovedInBook(env: Env, b: Book, a: Service)
    requires Complete(b) && a in b.known && !HoldsTried(env, b, a)
    ensures var c, slot := MoveToTried(env, b, a), TriedSlot(env, a);
      && c.tried == b.tried[slot := a] && c.lastGood == b.lastGood && Holdings(c, a) == {}
      && a in c.known && c.known[a] == b.known[a]
      && (slot in b.tried ==>
            var home := NewSlot(env, b.tried[slot], b.known[b.tried[slot]].source);
            && home in c.news && c.news[home] == b.tried[slot]
            && forall t :: t in b.news && b.news[t] != a && t != home ==> t in c.news && c.news[t] == b.news[t])
      && (slot !in b.tried ==> forall t :: t in b.news && b.news[t] != a ==> t in c.news && c.news[t] == b.news[t])
  {
  }

  lemma ReachedInBook(env: Env, b: Book, a: Service, test: bool, time: int)
    requires Complete(b) && (a in b.known ==> HoldsTried(env, b, a) || |Holdings(b, a)| > 0)
    ensures var (c, ok) := GoodIn(env, b, a, test, time); ReachedRightly(env, b, c, ok, a, test, time)
  {
    if a in b.known {
      assert Refs(b, a) == |Holdings(b, a)|;
      var d := Annotate(b.(lastGood := time), a, Succeeded(b.known[a], time));
      if !HoldsTried(env, b, a) && !(test && TriedSlot(env, a) in b.tried) {
        MovedInBook(env, d, a);
      }
    }
  }

  /** The rule for an address that has been reached. */
  lemma ReachedIsMoved(env: Env, s: State, a: Service, test: bool, time: int)
    requires Inv(env, s) && time > 0
    ensures CanGood(env, s, a, test, time)
    ensures var (t, ok) := Good(env, s, a, test, time); ReachedRightly(env, Abs(s), Abs(t), ok, a, test, time)
  {
    AbsGood(env, s, a, test, time);
    if a in s.ids {
      KnownHoldsSomething(env, s, a);
    } else {
      assert a !in Abs(s).known;
    }
    ReachedInBook(env, Abs(s), a, test, time);
  }

  lemma WaitsOrNot(env: Env, s: State, a: Service, test: bool, time: int)
    requires CanGood(env, s, a, test, time) && a in s.ids && s.ids[a] in s.info
    requires s.info[s.ids[a]].inTried || s.info[s.ids[a]].refCount > 0
    ensures Good(env, s, a, test, time).0.collisions ==
            if test && TriedSlot(env, a) in s.tried && !s.info[s.ids[a]].inTried && |s.collisions| < 10
            then s.collisions + {s.ids[a]} else s.collisions
  {
    if !s.info[s.ids[a]].inTried && !(test && TriedSlot(env, a) in s.tried) {
      MakeTriedOnward(env, NoteGood(s, a, time), s.ids[a]);
    }
  }

  lemma PageIsSame(env: Env, s: State, a: Service)
    requires Inv(env, s) && a in s.ids
    ensures SamePage(env, s, a) && (s.info[s.ids[a]].inTried || s.info[s.ids[a]].refCount > 0)
  {
    var i := s.ids[a];
    assert i in s.info && s.info[i].addr == a;
    EntryIsPage(env, s, {}, i);
    TriedIsNamed(env, s, TriedSlot(env, a));
  }

  /** An address that may not take its tried slot yet waits for it, among at most ten. */
  lemma ReachedIsPending(env: Env, s: State, a: Service, test: bool, time: int)
    requires Inv(env, s) && time > 0 && a in s.ids
    ensures CanGood(env, s, a, test, time)
    ensures Good(env, s, a, test, time).0.collisions ==
            if test && TriedSlot(env, a) in Abs(s).tried && !HoldsTried(env, Abs(s), a) && |s.collisions| < 10
            then s.collisions + {s.ids[a]} else s.collisions
  {
    GoodKeeps(env, s, a, test, time);
    PageIsSame(env, s, a);
    WaitsOrNot(env, s, a, test, time);
  }

  /** The address to be tested is the one in the tried slot that a pending entry waits for. */
  lemma PickedIsHolder(env: Env, s: State, i: Id)
    requires Inv(env, s) && i in s.collisions && i in s.info
    ensures var b, slot := Abs(s), TriedSlot(env, s.info[i].addr);
            && slot in b.tried && b.tried[slot] in b.known
            && HolderFor(env, s, i) == Holder(b.tried[slot], b.known[b.tried[slot]].lastTry)
  {
    TargetIsHeld(env, s, i);
    TriedIsNamed(env, s, TriedSlot(env, s.info[i].addr));
    EntryIsPage(env, s, {}, s.tried[TriedSlot(env, s.info[i].addr)]);
  }

  /** Attempts are counted at most once between two successes of anybody. */
  lemma AttemptIsNoted(env: Env, s: State, a: Service, countFailure: bool, time: int)
    requires Inv(env, s)
    ensures var b := Abs(s);
            Abs(Attempt(s, a, countFailure, time)) ==
            if a !in b.known then b
            else
              var once := countFailure && b.known[a].lastCountAttempt < b.lastGood;
              b.(known := b.known[a := b.known[a].(lastTry := time,
                   lastCountAttempt := if once then time else b.known[a].lastCountAttempt,
                   attempts := b.known[a].attempts + if once then 1 else 0)])
  {
    AbsAttempt(env, s, a, countFailure, time);
  }

  /** A connected address is dated at most every twenty minutes. */
  lemma ConnectionIsNoted(env: Env, s: State, a: Service, time: int)
    requires Inv(env, s)
    ensures var b := Abs(s);
            Abs(Connected(s, a, time)) ==
            if a in b.known && time - b.known[a].time > 1200
            then b.(known := b.known[a := b.known[a].(time := time)]) else b
  {
    AbsConnected(env, s, a, time);
    SeenInBook(Abs(s), a, time);
  }

  lemma SeenInBook(b: Book, a: Service, time: int)
    ensures SeeIn(b, a, time) == if a in b.known && time - b.known[a].time > 1200
                                 then b.(known := b.known[a := b.known[a].(time := time)]) else b
  {
    if a in b.known {
      assert b.known[a := b.known[a]] == b.known;
    }
  }

  /** The services of a known address are replaced. */
  lemma ServicesAreNoted(env: Env, s: State, a: Service, services: Services)
    requires Inv(env, s)
    ensures var b := Abs(s);
            Abs(SetServices(s, a, services)) ==
            if a in b.known then b.(known := b.known[a := b.known[a].(services := services)]) else b
  {
    AbsSetServices(env, s, a, services);
  }

  // ----- giving addresses away

  /** The most that both limits allow: a number of addresses, and a percentage of all; zero is no limit. */
  lemma QuotaInNumbers(size: nat, maxAddresses: nat, maxPct: nat)
    ensures var q, pct := Quota(size, maxAddresses, maxPct), if maxPct == 0 then 100 else maxPct;
      && 100 * q <= pct * size && (maxAddresses != 0 ==> q <= maxAddresses)
      && (100 * (q + 1) > pct * size || q == maxAddresses)
  {
  }

  /** Addresses worth giving away: not useless, and of the network that is asked for, if any. */
  lemma FittingIsUseful(env: Env, b: Book, a: Service, network: Option<Network>, now: int)
    ensures FitsIn(env, b, a, network, now) <==>
      a in b.known && !Useless(b.known[a], now) && (network.Some? ==> NetClassOf(env, a) == network.value)
  {
    if a in b.known {
      TerribleIsUseless(b.known[a], now);
    }
  }
}
