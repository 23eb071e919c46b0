/** Every operation of the address manager does to the book it stands for what the book's own rules say. */
module AddrRefines {
  import opened AddrState
  import opened AddrSteps
  import opened AddrOps
  import opened AddrRules
  import opened AddrEvents
  import opened AddrBook

  // ----- moving to the tried table

  lemma AbsEvict(env: Env, s: State, zero: set<Id>, out: set<Id>, slot: Slot)
    requires Between(env, s, zero, out) && slot in s.tried
    ensures CanEvict(env, s, slot) && slot in Abs(s).tried && Abs(s).tried[slot] in Abs(s).known
    ensures Abs(Evict(env, s, slot)) == MoveBack(env, Abs(s), slot)
  {
    var prev := s.tried[slot];
    assert prev in s.info && s.ids[s.info[prev].addr] == prev;
    MakeRoom(env, s, zero, out, slot);
    LeaveTriedKeeps(env, s, zero, out, slot);
    var t := LeaveTried(env, s, slot);
    var home := HomeSlot(env, s.info[prev]);
    AbsLeaveTried(env, s, slot);
    AbsClear(env, t, zero + {prev}, out + {prev}, home);
    var u := ClearNew(env, t, home);
    AbsCount(env, u, prev, 1);
    AbsFillSlot(CountNew(env, u, prev, 1), home, prev);
  }

  lemma AbsMakeTried(env: Env, s: State, i: Id)
    requires Between(env, s, {}, {}) && i in s.info && !s.info[i].inTried
    ensures CanMakeTried(env, s, i)
    ensures var a := s.info[i].addr;
            && (TriedSlot(env, a) in Abs(s).tried ==> Abs(s).tried[TriedSlot(env, a)] in Abs(s).known)
            && Abs(MakeTried(env, s, i)) == MoveToTried(env, Abs(s), a)
  {
    ReadyToEnter(env, s, i);
    FreeKeeps(env, s, {}, {}, i);
    AbsFree(env, s, {}, {}, i);
    var f := Free(env, s, i);
    var slot := TriedSlot(env, s.info[i].addr);
    if slot in s.tried {
      AbsEvict(env, f, {} + {i}, {} + {i}, slot);
      AbsEnterTried(env, Evict(env, f, slot), i);
    } else {
      AbsEnterTried(env, f, i);
    }
  }

  // ----- adding

  /** Enters an address into a slot of the book if the slot is free or may be overwritten. */
  ghost function PlaceIn(env: Env, b: Book, a: Service, slot: Slot, now: int): (Book, bool) {
    if slot !in b.news then (b.(news := b.news[slot := a]), true)
    else if b.news[slot] == a then (b, false)
    else if b.news[slot] in b.known && (IsTerrible(b.known[b.news[slot]], now)
                                        || (Refs(b, b.news[slot]) > 1 && Refs(b, a) == 0)) then
      var c := ClearSlot(b, slot);
      (c.(news := c.news[slot := a]), true)
    else (if Refs(b, a) == 0 then b.(known := b.known - {a}) else b, false)
  }

  /** Adding an announced address to the book. */
  ghost function AddTo(env: Env, b: Book, a: Announced, source: NetAddr, penalty: int, now: int,
                       roll: nat): (Book, bool)
  {
    var p := Penalty(a, source, penalty);
    var slot := NewSlot(env, a.addr, source);
    if a.addr.ip !in env.routable then (b, false)
    else if a.addr in b.known then
      var k := Heard(b.known[a.addr], a, p, now);
      var c := b.(known := b.known[a.addr := k]);
      var n := Refs(b, a.addr);
      if a.time <= k.time || HoldsTried(env, b, a.addr) || n == MAX_NEW_BUCKETS || (n > 0 && roll != 0) then (c, false)
      else PlaceIn(env, c, a.addr, slot, now)
    else PlaceIn(env, b.(known := b.known[a.addr := FirstHeard(a, source, p)]), a.addr, slot, now)
  }

  /** What the entries say is what the book says. */
  lemma EntryIsPage(env: Env, s: State, zero: set<Id>, i: Id)
    requires Between(env, s, zero, {}) && i in s.info
    ensures var a := s.info[i].addr;
            && a in Abs(s).known && Abs(s).known[a] == s.info[i].known
            && Refs(Abs(s), a) == s.info[i].refCount
            && (HoldsTried(env, Abs(s), a) <==> s.info[i].inTried)
  {
    assert s.ids[s.info[i].addr] == i;
    RefsAre(s, i);
    TriedIs(env, s, i);
  }

  lemma SlotIsNamed(env: Env, s: State, zero: set<Id>, i: Id, slot: Slot)
    requires Between(env, s, zero, {}) && i in s.info
    ensures slot in Abs(s).news <==> slot in s.news
    ensures slot in s.news ==>
              && s.news[slot] in s.info
              && Abs(s).news[slot] == s.info[s.news[slot]].addr
              && (Abs(s).news[slot] == s.info[i].addr <==> s.news[slot] == i)
  {
    if slot in s.news {
      assert s.news[slot] in s.info;
      if s.info[s.news[slot]].addr == s.info[i].addr {
        OneEntry(s, i, s.news[slot]);
      }
    }
  }

  lemma AbsPlace(env: Env, s: State, zero: set<Id>, i: Id, slot: Slot, now: int)
    requires Placeable(env, s, zero, i, slot)
    ensures CanPlace(env, s, i, slot)
    ensures var (t, ok) := Place(env, s, i, slot, now); (Abs(t), ok) == PlaceIn(env, Abs(s), s.info[i].addr, slot, now)
  {
    MayPlace(env, s, zero, i, slot);
    SlotIsNamed(env, s, zero, i, slot);
    EntryIsPage(env, s, zero, i);
    if slot !in s.news {
      AbsFillSlot(s, slot, i);
    } else if s.news[slot] != i {
      EntryIsPage(env, s, zero, s.news[slot]);
      if MayOverwrite(s, slot, i, now) {
        AbsOverwrite(env, s, zero, i, slot);
      } else if s.info[i].refCount == 0 {
        AbsDelete(env, s, zero, {}, i);
      }
    }
  }

  lemma AbsOverwrite(env: Env, s: State, zero: set<Id>, i: Id, slot: Slot)
    requires Placeable(env, s, zero, i, slot) && slot in s.news && s.news[slot] != i && CanClear(s, slot)
    ensures i in ClearNew(env, s, slot).info
    ensures var c := ClearSlot(Abs(s), slot);
            Abs(FillSlot(ClearNew(env, s, slot), slot, i)) == c.(news := c.news[slot := s.info[i].addr])
  {
    AbsClear(env, s, zero, {}, slot);
    ClearShrinks(env, s, slot);
    AbsFillSlot(ClearNew(env, s, slot), slot, i);
  }

  lemma AbsAddKnown(env: Env, s: State, a: Announced, source: NetAddr, p: int, now: int, roll: nat)
    requires Between(env, s, {}, {}) && a.addr in s.ids
    ensures s.ids[a.addr] in s.info
    ensures var i := s.ids[a.addr];
            var t := Hear(s, i, a, p, now);
            var slot := NewSlot(env, a.addr, source);
            && a.addr in Abs(s).known
            && Abs(t) == Abs(s).(known := Abs(s).known[a.addr := Heard(Abs(s).known[a.addr], a, p, now)])
            && (!NothingNew(t.info[i], a, roll) ==>
                  && CanPlace(env, t, i, slot)
                  && var (u, ok) := Place(env, t, i, slot, now);
                     (Abs(u), ok) == PlaceIn(env, Abs(t), a.addr, slot, now))
  {
    var i := s.ids[a.addr];
    assert i in s.info && s.info[i].addr == a.addr;
    EntryIsPage(env, s, {}, i);
    var t := Hear(s, i, a, p, now);
    AbsNote(s, i, t.info[i]);
    NoteKeeps(env, s, {}, {}, i, t.info[i]);
    if !NothingNew(t.info[i], a, roll) {
      assert t.info[i].refCount >= 1;
      AbsPlace(env, t, {}, i, NewSlot(env, a.addr, source), now);
    }
  }

  lemma CreatedIsPlaceable(env: Env, s: State, a: Service, k: Known, source: NetAddr)
    requires Between(env, s, {}, {}) && a !in s.ids && k.lastTry >= 0 && k.lastSuccess >= 0
    ensures Placeable(env, Create(env, s, a, k), {s.idCount}, s.idCount, NewSlot(env, a, source))
  {
    CreateKeeps(env, s, {}, {}, a, k);
    assert {} + {s.idCount} == {s.idCount};
  }

  lemma AbsAddUnknown(env: Env, s: State, a: Announced, source: NetAddr, p: int, now: int)
    requires Between(env, s, {}, {}) && a.addr !in s.ids
    ensures var t := Create(env, s, a.addr, FirstHeard(a, source, p));
            var slot := NewSlot(env, a.addr, source);
            && a.addr !in Abs(s).known
            && CanPlace(env, t, s.idCount, slot)
            && var (u, ok) := Place(env, t, s.idCount, slot, now);
               (Abs(u), ok) == PlaceIn(env, Abs(s).(known := Abs(s).known[a.addr := FirstHeard(a, source, p)]), a.addr,
                                       slot, now)
  {
    var t := Create(env, s, a.addr, FirstHeard(a, source, p));
    CreatedIsPlaceable(env, s, a.addr, FirstHeard(a, source, p), source);
    AbsCreate(env, s, {}, {}, a.addr, FirstHeard(a, source, p));
    AbsPlace(env, t, {s.idCount}, s.idCount, NewSlot(env, a.addr, source), now);
  }

  /** Adding an address. */
  lemma AbsAddSingle(env: Env, s: State, a: Announced, source: NetAddr, penalty: int, now: int, roll: nat)
    requires Inv(env, s)
    ensures a.addr.ip in env.routable ==> CanAdd(env, s, a, source, Penalty(a, source, penalty), now, roll)
    ensures var (t, ok) := AddSingle(env, s, a, source, penalty, now, roll);
            (Abs(t), ok) == AddTo(env, Abs(s), a, source, penalty, now, roll)
  {
    AddSingleKeeps(env, s, a, source, penalty, now, roll);
    var p := Penalty(a, source, penalty);
    if a.addr.ip in env.routable {
      if a.addr in s.ids {
        AbsAddKnown(env, s, a, source, p, now, roll);
        EntryIsPage(env, s, {}, s.ids[a.addr]);
      } else {
        AbsAddUnknown(env, s, a, source, p, now);
      }
    }
  }

  // ----- connections

  /** Notes something about an address of the book. */
  function Annotate(b: Book, a: Service, k: Known): Book {
    if a in b.known then b.(known := b.known[a := k]) else b
  }

  lemma AbsNoteAbout(env: Env, s: State, a: Service, k: Known)
    requires Between(env, s, {}, {})
    ensures a in s.ids <==> a in Abs(s).known
    ensures a in s.ids ==> s.ids[a] in s.info && s.info[s.ids[a]].addr == a && Abs(s).known[a] == KnownOf(s, a)
    ensures Abs(NoteAbout(s, a, k)) == Annotate(Abs(s), a, k)
  {
    if a in s.ids {
      var i := s.ids[a];
      assert i in s.info && s.info[i].addr == a;
      AbsNote(s, i, s.info[i].(known := k));
    }
  }

  function TryIn(b: Book, a: Service, countFailure: bool, time: int): Book {
    if a in b.known then Annotate(b, a, Attempted(b.known[a], b.lastGood, countFailure, time)) else b
  }

  function SeeIn(b: Book, a: Service, time: int): Book {
    if a in b.known then Annotate(b, a, SeenConnected(b.known[a], time)) else b
  }

  function ServeIn(b: Book, a: Service, services: Services): Book {
    if a in b.known then Annotate(b, a, b.known[a].(services := services)) else b
  }

  lemma AbsAttempt(env: Env, s: State, a: Service, countFailure: bool, time: int)
    requires Inv(env, s)
    ensures Abs(Attempt(s, a, countFailure, time)) == TryIn(Abs(s), a, countFailure, time)
  {
    AbsNoteAbout(env, s, a, Known({}, 0, a.ip, 0, 0, 0, 0));
    if a in s.ids {
      AbsNoteAbout(env, s, a, Attempted(KnownOf(s, a), s.lastGood, countFailure, time));
    }
  }

  lemma AbsConnected(env: Env, s: State, a: Service, time: int)
    requires Inv(env, s)
    ensures Abs(Connected(s, a, time)) == SeeIn(Abs(s), a, time)
  {
    AbsNoteAbout(env, s, a, Known({}, 0, a.ip, 0, 0, 0, 0));
    if a in s.ids {
      AbsNoteAbout(env, s, a, SeenConnected(KnownOf(s, a), time));
    }
  }

  lemma AbsSetServices(env: Env, s: State, a: Service, services: Services)
    requires Inv(env, s)
    ensures Abs(SetServices(s, a, services)) == ServeIn(Abs(s), a, services)
  {
    AbsNoteAbout(env, s, a, Known({}, 0, a.ip, 0, 0, 0, 0));
    if a in s.ids {
      AbsNoteAbout(env, s, a, KnownOf(s, a).(services := services));
    }
  }

  /** A book in which every tried address is known. */
  predicate Complete(b: Book) { forall t :: t in b.tried ==> b.tried[t] in b.known }

  /** Marking an address of the book as reachable. */
  ghost function GoodIn(env: Env, b: Book, a: Service, test: bool, time: int): (Book, bool)
    requires Complete(b)
  {
    var c := b.(lastGood := time);
    if a !in b.known then (c, false)
    else
      var d := Annotate(c, a, Succeeded(b.known[a], time));
      if HoldsTried(env, b, a) || Refs(b, a) == 0 then (d, false)
      else if test && TriedSlot(env, a) in b.tried then (d, false)
      else (MoveToTried(env, d, a), true)
  }

  lemma AbsIsComplete(env: Env, s: State)
    requires Between(env, s, {}, {})
    ensures Complete(Abs(s))
  {
    forall t | t in Abs(s).tried
      ensures Abs(s).tried[t] in Abs(s).known
    {
      assert s.ids[s.info[s.tried[t]].addr] == s.tried[t];
    }
  }

  lemma AbsNoteGood(env: Env, s: State, a: Service, time: int)
    requires Inv(env, s) && a in s.ids && time > 0
    ensures s.ids[a] in s.info && a in Abs(s).known
    ensures Abs(NoteGood(s, a, time)) == Annotate(Abs(s).(lastGood := time), a, Succeeded(Abs(s).known[a], time))
  {
    AbsNoteAbout(env, s, a, Known({}, 0, a.ip, 0, 0, 0, 0));
    LastGoodKeeps(env, s, time);
    AbsNoteAbout(env, s.(lastGood := time), a, Succeeded(KnownOf(s, a), time));
  }

  lemma AbsGoodMoves(env: Env, s: State, a: Service, time: int)
    requires Inv(env, s) && a in s.ids && time > 0 && s.ids[a] in s.info && !s.info[s.ids[a]].inTried
    ensures var t := NoteGood(s, a, time);
            && CanMakeTried(env, t, s.ids[a])
            && Complete(Abs(t))
            && Abs(MakeTried(env, t, s.ids[a])) == MoveToTried(env, Abs(t), a)
  {
    NoteGoodKeeps(env, s, a, time);
    AbsMakeTried(env, NoteGood(s, a, time), s.ids[a]);
    AbsIsComplete(env, NoteGood(s, a, time));
  }

  /** The page of an address says what its entry says. */
  ghost predicate SamePage(env: Env, s: State, a: Service) {
    && a in s.ids && s.ids[a] in s.info && a in Abs(s).known
    && Refs(Abs(s), a) == s.info[s.ids[a]].refCount
    && (HoldsTried(env, Abs(s), a) <==> s.info[s.ids[a]].inTried)
    && (TriedSlot(env, a) in s.tried <==> TriedSlot(env, a) in Abs(s).tried)
  }

  lemma PageStays(env: Env, b: Book, a: Service, test: bool, time: int)
    requires Complete(b) && a in b.known && (HoldsTried(env, b, a) || Refs(b, a) == 0
                                             || (test && TriedSlot(env, a) in b.tried))
    ensures GoodIn(env, b, a, test, time) == (Annotate(b.(lastGood := time), a, Succeeded(b.known[a], time)), false)
  {
  }

  lemma GoodStays(env: Env, s: State, a: Service, test: bool, time: int)
    requires CanGood(env, s, a, test, time) && a in s.ids && s.ids[a] in s.info
    requires s.info[s.ids[a]].inTried || s.info[s.ids[a]].refCount <= 0 || (test && TriedSlot(env, a) in s.tried)
    ensures Abs(Good(env, s, a, test, time).0) == Abs(NoteGood(s, a, time)) && !Good(env, s, a, test, time).1
  {
  }

  lemma GoodGoes(env: Env, s: State, a: Service, test: bool, time: int)
    requires CanGood(env, s, a, test, time) && Complete(Abs(s)) && SamePage(env, s, a)
    requires !s.info[s.ids[a]].inTried && s.info[s.ids[a]].refCount > 0 && !(test && TriedSlot(env, a) in s.tried)
    ensures var b := Annotate(Abs(s).(lastGood := time), a, Succeeded(Abs(s).known[a], time));
            Complete(b) && GoodIn(env, Abs(s), a, test, time) == (MoveToTried(env, b, a), true)
    ensures CanMakeTried(env, NoteGood(s, a, time), s.ids[a])
    ensures Good(env, s, a, test, time) == (MakeTried(env, NoteGood(s, a, time), s.ids[a]), true)
  {
  }

  lemma AbsGoodKnown(env: Env, s: State, a: Service, test: bool, time: int)
    requires Inv(env, s) && time > 0 && a in s.ids && CanGood(env, s, a, test, time) && Complete(Abs(s))
    ensures var (t, ok) := Good(env, s, a, test, time); (Abs(t), ok) == GoodIn(env, Abs(s), a, test, time)
  {
    var i := s.ids[a];
    assert s.info[i].addr == a;
    EntryIsPage(env, s, {}, i);
    TriedIsNamed(env, s, TriedSlot(env, a));
    GoodOnPage(env, s, a, test, time);
  }

  lemma GoodOnPage(env: Env, s: State, a: Service, test: bool, time: int)
    requires Inv(env, s) && time > 0 && CanGood(env, s, a, test, time) && Complete(Abs(s)) && SamePage(env, s, a)
    ensures var (t, ok) := Good(env, s, a, test, time); (Abs(t), ok) == GoodIn(env, Abs(s), a, test, time)
  {
    var i := s.ids[a];
    AbsNoteGood(env, s, a, time);
    if s.info[i].inTried || s.info[i].refCount <= 0 || (test && TriedSlot(env, a) in s.tried) {
      GoodStays(env, s, a, test, time);
      PageStays(env, Abs(s), a, test, time);
    } else {
      GoodGoes(env, s, a, test, time);
      AbsGoodMoves(env, s, a, time);
    }
  }

  lemma TriedIsNamed(env: Env, s: State, slot: Slot)
    requires Between(env, s, {}, {})
    ensures slot in s.tried <==> slot in Abs(s).tried
    ensures slot in s.tried ==> s.tried[slot] in s.info && Abs(s).tried[slot] == s.info[s.tried[slot]].addr
  {
    if slot in s.tried {
      assert s.tried[slot] in s.info;
    }
  }

  /** A successful connection. */
  lemma AbsGood(env: Env, s: State, a: Service, test: bool, time: int)
    requires Inv(env, s) && time > 0
    ensures CanGood(env, s, a, test, time) && Complete(Abs(s))
    ensures var (t, ok) := Good(env, s, a, test, time); (Abs(t), ok) == GoodIn(env, Abs(s), a, test, time)
  {
    GoodKeeps(env, s, a, test, time);
    AbsIsComplete(env, s);
    if a in s.ids {
      AbsGoodKnown(env, s, a, test, time);
    }
  }

  // ----- colliding entries

  /** What becomes of an address of the book that wants a tried slot held by another. */
  function VerdictIn(env: Env, b: Book, a: Service, now: int): Verdict
    requires Complete(b)
  {
    var slot := TriedSlot(env, a);
    if a !in b.known || a.ip !in env.valid then Drop
    else if slot in b.tried then Judge(b.known[b.tried[slot]], b.known[a], now)
    else Replace
  }

  /** Resolving the collision of an address replaces the holder of its slot or leaves the book alone. */
  ghost function ResolveIn(env: Env, b: Book, a: Service, now: int): Book
    requires Complete(b)
  {
    if VerdictIn(env, b, a, now).Replace? then GoodIn(env, b, a, false, now).0 else b
  }

  lemma ResolveMatches(env: Env, s: State, i: Id, now: int)
    requires CanResolve(env, s, i, now) && Complete(Abs(s)) && i in s.info
    requires VerdictOn(env, s, i, now) == VerdictIn(env, Abs(s), s.info[i].addr, now)
    requires Abs(Good(env, s, s.info[i].addr, false, now).0) == GoodIn(env, Abs(s), s.info[i].addr, false, now).0
    ensures Abs(ResolveOne(env, s, i, now)) == ResolveIn(env, Abs(s), s.info[i].addr, now)
  {
  }

  lemma VerdictsMatch(env: Env, s: State, i: Id, now: int)
    requires Inv(env, s) && CanResolve(env, s, i, now) && Complete(Abs(s)) && i in s.info
    ensures VerdictOn(env, s, i, now) == VerdictIn(env, Abs(s), s.info[i].addr, now)
  {
    ResolvePages(env, s, i);
  }

  lemma AbsResolve(env: Env, s: State, i: Id, now: int)
    requires Inv(env, s) && now > 0
    ensures CanResolve(env, s, i, now) && Complete(Abs(s))
    ensures Abs(ResolveOne(env, s, i, now)) == if i in s.info then ResolveIn(env, Abs(s), s.info[i].addr, now)
            else Abs(s)
  {
    MayResolve(env, s, i, now);
    AbsIsComplete(env, s);
    if i in s.info {
      VerdictsMatch(env, s, i, now);
      AbsGood(env, s, s.info[i].addr, false, now);
      ResolveMatches(env, s, i, now);
    }
  }

  lemma ResolvePages(env: Env, s: State, i: Id)
    requires Between(env, s, {}, {}) && i in s.info
    ensures var a := s.info[i].addr;
            && a in Abs(s).known && Abs(s).known[a] == s.info[i].known
            && (TriedSlot(env, a) in s.tried <==> TriedSlot(env, a) in Abs(s).tried)
            && (TriedSlot(env, a) in s.tried ==>
                  && s.tried[TriedSlot(env, a)] in s.info
                  && Abs(s).tried[TriedSlot(env, a)] in Abs(s).known
                  && Abs(s).known[Abs(s).tried[TriedSlot(env, a)]] == s.info[s.tried[TriedSlot(env, a)]].known)
  {
    var slot := TriedSlot(env, s.info[i].addr);
    EntryIsPage(env, s, {}, i);
    TriedIsNamed(env, s, slot);
    if slot in s.tried {
      EntryIsPage(env, s, {}, s.tried[slot]);
    }
  }
}
