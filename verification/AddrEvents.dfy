/** What connections tell the address manager: successes, attempts, and the test of colliding entries. */
module AddrEvents {
  import opened AddrState
  import opened AddrFrames
  import opened AddrSteps
  import opened AddrOps
  import opened AddrRules

  // ----- notes on an entry

  lemma NoteKeepsInv(env: Env, s: State, i: Id, x: AddrInfo)
    requires Inv(env, s) && i in s.info && SamePlace(s.info[i], x)
    requires x.known.lastTry >= 0 && x.known.lastSuccess >= 0 && (x.inTried ==> x.known.lastSuccess != 0)
    ensures Inv(env, Note(s, i, x))
  {
    NoteKeeps(env, s, {}, {}, i, x);
    HearOnward(s, i, x);
    CollidingOnward(env, s, Note(s, i, x));
  }

  function Attempted(k: Known, lastGood: int, countFailure: bool, time: int): Known {
    if countFailure && k.lastCountAttempt < lastGood
    then k.(lastTry := time, lastCountAttempt := time, attempts := k.attempts + 1)
    else k.(lastTry := time)
  }

  function SeenConnected(k: Known, time: int): Known {
    if time - k.time > 20 * MINUTE then k.(time := time) else k
  }

  /** Notes something about an address, if it has an entry. */
  function NoteAbout(s: State, a: Service, k: Known): State {
    if a in s.ids && s.ids[a] in s.info then Note(s, s.ids[a], s.info[s.ids[a]].(known := k)) else s
  }

  /** What is known about an address that has an entry. */
  function KnownOf(s: State, a: Service): Known
    requires a in s.ids && s.ids[a] in s.info
  {
    s.info[s.ids[a]].known
  }

  function Attempt(s: State, a: Service, countFailure: bool, time: int): State {
    if a in s.ids && s.ids[a] in s.info then NoteAbout(s, a, Attempted(KnownOf(s, a), s.lastGood, countFailure, time))
      else s
  }

  function Connected(s: State, a: Service, time: int): State {
    if a in s.ids && s.ids[a] in s.info then NoteAbout(s, a, SeenConnected(KnownOf(s, a), time)) else s
  }

  function SetServices(s: State, a: Service, services: Services): State {
    if a in s.ids && s.ids[a] in s.info then NoteAbout(s, a, KnownOf(s, a).(services := services)) else s
  }

  lemma NoteAboutKeeps(env: Env, s: State, a: Service, k: Known)
    requires Inv(env, s) && a in s.ids
    requires s.ids[a] in s.info ==> k.lastTry >= 0 && k.lastSuccess == KnownOf(s, a).lastSuccess
    ensures s.ids[a] in s.info && Inv(env, NoteAbout(s, a, k)) && NoteAbout(s, a, k).tried == s.tried
  {
    var i := s.ids[a];
    assert i in s.info;
    assert s.info[i].known.lastSuccess >= 0 && (s.info[i].inTried ==> s.info[i].known.lastSuccess != 0);
    NoteKeepsInv(env, s, i, s.info[i].(known := k));
  }

  lemma AttemptKeeps(env: Env, s: State, a: Service, countFailure: bool, time: int)
    requires Inv(env, s) && time >= 0
    ensures Inv(env, Attempt(s, a, countFailure, time)) && Attempt(s, a, countFailure, time).tried == s.tried
  {
    if a in s.ids {
      assert s.ids[a] in s.info;
      NoteAboutKeeps(env, s, a, Attempted(KnownOf(s, a), s.lastGood, countFailure, time));
    }
  }

  lemma ConnectedKeeps(env: Env, s: State, a: Service, time: int)
    requires Inv(env, s)
    ensures Inv(env, Connected(s, a, time)) && Connected(s, a, time).tried == s.tried
  {
    if a in s.ids {
      assert s.ids[a] in s.info;
      assert s.info[s.ids[a]].known.lastTry >= 0;
      NoteAboutKeeps(env, s, a, SeenConnected(KnownOf(s, a), time));
    }
  }

  lemma SetServicesKeeps(env: Env, s: State, a: Service, services: Services)
    requires Inv(env, s)
    ensures Inv(env, SetServices(s, a, services)) && SetServices(s, a, services).tried == s.tried
  {
    if a in s.ids {
      assert s.ids[a] in s.info;
      assert s.info[s.ids[a]].known.lastTry >= 0;
      NoteAboutKeeps(env, s, a, KnownOf(s, a).(services := services));
    }
  }

  // ----- a successful connection

  function Succeeded(k: Known, time: int): Known { k.(lastSuccess := time, lastTry := time, attempts := 0) }

  /** The success is noted before anything is moved. */
  function NoteGood(s: State, a: Service, time: int): State
    requires a in s.ids && s.ids[a] in s.info
  {
    NoteAbout(s.(lastGood := time), a, Succeeded(KnownOf(s, a), time))
  }

  predicate CanGood(env: Env, s: State, a: Service, test: bool, time: int) {
    a in s.ids ==>
      && s.ids[a] in s.info
      && (!s.info[s.ids[a]].inTried && s.info[s.ids[a]].refCount > 0 && !(test && TriedSlot(env, a) in s.tried) ==>
            CanMakeTried(env, NoteGood(s, a, time), s.ids[a]))
  }

  /** Marks an address as reachable and moves it to the tried table, or defers the move if it would evict another. */
  function Good(env: Env, s: State, a: Service, test: bool, time: int): (State, bool)
    requires CanGood(env, s, a, test, time)
  {
    if a !in s.ids then (s.(lastGood := time), false)
    else
      var i := s.ids[a];
      var t := NoteGood(s, a, time);
      if s.info[i].inTried || s.info[i].refCount <= 0 then (t, false)
      else if test && TriedSlot(env, a) in s.tried then
        (if |s.collisions| < MAX_COLLISIONS then t.(collisions := s.collisions + {i}) else t, false)
      else (MakeTried(env, t, i), true)
  }

  lemma LastGoodKeeps(env: Env, s: State, time: int)
    requires Inv(env, s)
    ensures Inv(env, s.(lastGood := time))
  {
    Assemble(env, s.(lastGood := time), {}, {});
  }

  lemma NoteGoodKeeps(env: Env, s: State, a: Service, time: int)
    requires Inv(env, s) && a in s.ids && time > 0
    ensures s.ids[a] in s.info && s.info[s.ids[a]].addr == a
    ensures var t := NoteGood(s, a, time);
            && Inv(env, t) && t.tried == s.tried && t.collisions == s.collisions
            && s.ids[a] in t.info && t.info[s.ids[a]].known.lastSuccess != 0 && t.info[s.ids[a]].addr == a
            && t.info[s.ids[a]].inTried == s.info[s.ids[a]].inTried
  {
    var i := s.ids[a];
    assert i in s.info && s.info[i].addr == a;
    LastGoodKeeps(env, s, time);
    NoteKeepsInv(env, s.(lastGood := time), i, s.info[i].(known := Succeeded(s.info[i].known, time)));
  }

  lemma MoveKeeps(env: Env, t: State, i: Id)
    requires Inv(env, t) && i in t.info && !t.info[i].inTried && t.info[i].known.lastSuccess != 0
    ensures CanMakeTried(env, t, i) && Inv(env, MakeTried(env, t, i)) && t.tried.Keys <= MakeTried(env, t, i).tried.Keys
  {
    MakeTriedKeeps(env, t, i);
    MakeTriedOnward(env, t, i);
    CollidingOnward(env, t, MakeTried(env, t, i));
  }

  lemma CollidingMore(env: Env, info: map<Id, AddrInfo>, tried: map<Slot, Id>, collisions: set<Id>, idCount: nat, i: Id)
    requires Colliding(env, info, tried, collisions, idCount) && |collisions| < MAX_COLLISIONS && i < idCount
    requires i in info && TriedSlot(env, info[i].addr) in tried
    ensures Colliding(env, info, tried, collisions + {i}, idCount)
  {
  }

  /** Only the pending collisions change. */
  lemma WithCollisions(env: Env, t: State, collisions: set<Id>)
    requires Between(env, t, {}, {}) && Colliding(env, t.info, t.tried, collisions, t.idCount)
    ensures Inv(env, t.(collisions := collisions))
  {
    Assemble(env, t.(collisions := collisions), {}, {});
  }

  lemma DeferKeeps(env: Env, t: State, i: Id)
    requires Inv(env, t) && i in t.info && TriedSlot(env, t.info[i].addr) in t.tried && |t.collisions| < MAX_COLLISIONS
    ensures Inv(env, t.(collisions := t.collisions + {i}))
  {
    assert i < t.idCount;
    CollidingMore(env, t.info, t.tried, t.collisions, t.idCount, i);
    WithCollisions(env, t, t.collisions + {i});
  }

  /** What a successful connection may lead to. */
  ghost predicate GoodOutcome(env: Env, s: State, t: State, test: bool) {
    Inv(env, t) && s.tried.Keys <= t.tried.Keys && (!test ==> t.collisions == s.collisions)
  }

  lemma GoodNoted(env: Env, s: State, a: Service, test: bool, time: int)
    requires Inv(env, s) && time > 0 && a in s.ids && s.ids[a] in s.info
    requires s.info[s.ids[a]].inTried || s.info[s.ids[a]].refCount <= 0
    ensures CanGood(env, s, a, test, time) && GoodOutcome(env, s, Good(env, s, a, test, time).0, test)
  {
    NoteGoodKeeps(env, s, a, time);
  }

  lemma GoodDeferred(env: Env, s: State, a: Service, time: int)
    requires Inv(env, s) && time > 0 && a in s.ids && s.ids[a] in s.info && TriedSlot(env, a) in s.tried
    requires !s.info[s.ids[a]].inTried && s.info[s.ids[a]].refCount > 0
    ensures CanGood(env, s, a, true, time) && GoodOutcome(env, s, Good(env, s, a, true, time).0, true)
  {
    NoteGoodKeeps(env, s, a, time);
    if |s.collisions| < MAX_COLLISIONS {
      DeferKeeps(env, NoteGood(s, a, time), s.ids[a]);
    }
  }

  lemma GoodMoved(env: Env, s: State, a: Service, test: bool, time: int)
    requires Inv(env, s) && time > 0 && a in s.ids && s.ids[a] in s.info && !(test && TriedSlot(env, a) in s.tried)
    requires !s.info[s.ids[a]].inTried && s.info[s.ids[a]].refCount > 0
    ensures CanGood(env, s, a, test, time) && GoodOutcome(env, s, Good(env, s, a, test, time).0, test)
  {
    NoteGoodKeeps(env, s, a, time);
    MoveKeeps(env, NoteGood(s, a, time), s.ids[a]);
    MakeTriedOnward(env, NoteGood(s, a, time), s.ids[a]);
  }

  /** What Good does about an address that has an entry, each case with its own outcome. */
  lemma GoodKnown(env: Env, s: State, a: Service, test: bool, time: int)
    requires Inv(env, s) && time > 0 && a in s.ids
    ensures CanGood(env, s, a, test, time) && GoodOutcome(env, s, Good(env, s, a, test, time).0, test)
  {
    var i := s.ids[a];
    assert i in s.info;
    if s.info[i].inTried || s.info[i].refCount <= 0 {
      GoodNoted(env, s, a, test, time);
    } else if test && TriedSlot(env, a) in s.tried {
      GoodDeferred(env, s, a, time);
    } else {
      GoodMoved(env, s, a, test, time);
    }
  }

  lemma GoodKeeps(env: Env, s: State, a: Service, test: bool, time: int)
    requires Inv(env, s) && time > 0
    ensures CanGood(env, s, a, test, time)
    ensures var t := Good(env, s, a, test, time).0; Inv(env, t) && s.tried.Keys <= t.tried.Keys
    ensures !test ==> Good(env, s, a, test, time).0.collisions == s.collisions
  {
    if a in s.ids {
      GoodKnown(env, s, a, test, time);
    } else {
      LastGoodKeeps(env, s, time);
    }
  }

  /** A move to the tried table meets everything the move relies on. */
  lemma GoodIsClean(env: Env, s: State, a: Service, time: int)
    requires Inv(env, s) && time > 0 && a in s.ids
    ensures s.ids[a] in s.info
    ensures !s.info[s.ids[a]].inTried ==> MovesCleanly(env, NoteGood(s, a, time), s.ids[a])
  {
    NoteGoodKeeps(env, s, a, time);
    if !s.info[s.ids[a]].inTried {
      MoveIsClean(env, NoteGood(s, a, time), s.ids[a]);
    }
  }

  // ----- colliding entries

  datatype Verdict = Wait | Drop | Replace

  /** The address to be tested before it is evicted, if any. */
  datatype Picked = Nobody | Holder(addr: Service, lastTry: int)

  /** What becomes of a pending collision, judged by the entry that holds the slot and the one that wants it. */
  function Judge(holder: Known, wanting: Known, now: int): Verdict {
    if now - holder.lastSuccess < REPLACEMENT then Drop
    else if now - holder.lastTry < REPLACEMENT then (if now - holder.lastTry > MINUTE then Replace else Wait)
    else if now - wanting.lastSuccess > TEST_WINDOW then Replace
    else Wait
  }

  predicate CanResolve(env: Env, s: State, i: Id, now: int) {
    i in s.info ==>
      && (TriedSlot(env, s.info[i].addr) in s.tried ==> s.tried[TriedSlot(env, s.info[i].addr)] in s.info)
      && CanGood(env, s, s.info[i].addr, false, now)
  }

  function VerdictOn(env: Env, s: State, i: Id, now: int): Verdict
    requires CanResolve(env, s, i, now)
  {
    if i !in s.info || s.info[i].addr.ip !in env.valid then Drop
    else
      var slot := TriedSlot(env, s.info[i].addr);
      if slot in s.tried then Judge(s.info[s.tried[slot]].known, s.info[i].known, now)
      else Replace
  }

  /** Handles one pending collision. */
  function ResolveOne(env: Env, s: State, i: Id, now: int): State
    requires CanResolve(env, s, i, now)
  {
    match VerdictOn(env, s, i, now)
    case Wait => s
    case Drop => s.(collisions := s.collisions - {i})
    case Replace =>
      var t := Good(env, s, s.info[i].addr, false, now).0;
      t.(collisions := t.collisions - {i})
  }

  lemma CollidingLess(env: Env, info: map<Id, AddrInfo>, tried: map<Slot, Id>, collisions: set<Id>, idCount: nat, i: Id)
    requires Colliding(env, info, tried, collisions, idCount)
    ensures Colliding(env, info, tried, collisions - {i}, idCount)
  {
    if i in collisions {
      assert |collisions| == |collisions - {i}| + 1;
    } else {
      assert collisions - {i} == collisions;
    }
  }

  lemma DropKeeps(env: Env, s: State, i: Id)
    requires Inv(env, s)
    ensures Inv(env, s.(collisions := s.collisions - {i}))
  {
    CollidingLess(env, s.info, s.tried, s.collisions, s.idCount, i);
    WithCollisions(env, s, s.collisions - {i});
  }

  lemma MayResolve(env: Env, s: State, i: Id, now: int)
    requires Inv(env, s) && now > 0
    ensures CanResolve(env, s, i, now)
  {
    if i in s.info {
      GoodKeeps(env, s, s.info[i].addr, false, now);
      if TriedSlot(env, s.info[i].addr) in s.tried {
        assert s.tried[TriedSlot(env, s.info[i].addr)] in s.info;
      }
    }
  }

  lemma ReplaceKeeps(env: Env, s: State, a: Service, i: Id, now: int)
    requires Inv(env, s) && now > 0
    ensures CanGood(env, s, a, false, now)
    ensures var t := Good(env, s, a, false, now).0;
            Inv(env, t.(collisions := t.collisions - {i})) && s.tried.Keys <= t.tried.Keys
              && t.collisions == s.collisions
  {
    GoodKeeps(env, s, a, false, now);
    DropKeeps(env, Good(env, s, a, false, now).0, i);
  }

  lemma ResolveKeeps(env: Env, s: State, i: Id, now: int)
    requires Inv(env, s) && now > 0
    ensures CanResolve(env, s, i, now)
    ensures var t := ResolveOne(env, s, i, now);
            Inv(env, t) && s.tried.Keys <= t.tried.Keys && t.collisions <= s.collisions
  {
    MayResolve(env, s, i, now);
    match VerdictOn(env, s, i, now)
    case Wait =>
    case Drop => DropKeeps(env, s, i);
    case Replace => ReplaceKeeps(env, s, s.info[i].addr, i, now);
  }

  lemma OnlyThisOne(env: Env, s: State, i: Id, now: int)
    requires CanResolve(env, s, i, now)
    requires VerdictOn(env, s, i, now).Replace? ==>
             Good(env, s, s.info[i].addr, false, now).0.collisions == s.collisions
    ensures s.collisions - {i} <= ResolveOne(env, s, i, now).collisions
  {
  }

  /** Settling one collision leaves every other pending one pending. */
  lemma OthersStayPending(env: Env, s: State, i: Id, now: int)
    requires Inv(env, s) && now > 0
    ensures CanResolve(env, s, i, now) && s.collisions - {i} <= ResolveOne(env, s, i, now).collisions
  {
    MayResolve(env, s, i, now);
    if VerdictOn(env, s, i, now).Replace? {
      ReplaceKeeps(env, s, s.info[i].addr, i, now);
    }
    OnlyThisOne(env, s, i, now);
  }

  /**
   * A pending collision is always one with the holder of the wanted slot: the case that the slot has
   * become free never arises.
   */
  lemma PendingIsJudged(env: Env, s: State, i: Id, now: int)
    requires Inv(env, s) && now > 0 && i in s.collisions && i in s.info && s.info[i].addr.ip in env.valid
    ensures CanResolve(env, s, i, now)
    ensures var slot := TriedSlot(env, s.info[i].addr);
            && slot in s.tried && s.tried[slot] in s.info
            && VerdictOn(env, s, i, now) == Judge(s.info[s.tried[slot]].known, s.info[i].known, now)
  {
    MayResolve(env, s, i, now);
    TargetIsHeld(env, s, i);
  }

  /** The target slot of a pending collision is never vacant, so no look-up of a vacant slot can happen. */
  lemma TargetIsHeld(env: Env, s: State, i: Id)
    requires Inv(env, s) && i in s.collisions && i in s.info
    ensures var slot := TriedSlot(env, s.info[i].addr);
            slot in s.tried && s.tried[slot] in s.info && s.info[s.tried[slot]].inTried
  {
    assert TriedSlot(env, s.info[i].addr) in s.tried;
  }

  /** The address that holds the tried slot which entry i wants. */
  function HolderFor(env: Env, s: State, i: Id): Picked {
    if i !in s.info then Nobody
    else
      var slot := TriedSlot(env, s.info[i].addr);
      if slot !in s.tried || s.tried[slot] !in s.info then Nobody
      else Holder(s.info[s.tried[slot]].addr, s.info[s.tried[slot]].known.lastTry)
  }
}
