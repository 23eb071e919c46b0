/** The public operations of the address manager as functions of its state, and that each keeps the invariant. */
module AddrRules {
  import opened Basics
  import opened AddrState
  import opened AddrSteps
  import opened AddrOps

  /** An address as a peer announces it. */
  datatype Announced = Announced(addr: Service, services: Services, time: int)

  const MINUTE: int := 60
  const HOUR: int := 3600
  const DAY: int := 86400
  const HORIZON: int := 30 * DAY
  const RETRIES: int := 3
  const MAX_FAILURES: int := 10
  const MIN_FAIL: int := 7 * DAY
  const REPLACEMENT: int := 4 * HOUR
  const TEST_WINDOW: int := 40 * MINUTE

  /** Whether the statistics are bad enough for an entry to be dropped. */
  predicate IsTerrible(k: Known, now: int) {
    if now - k.lastTry <= MINUTE then false
    else if k.time > now + 10 * MINUTE then true
    else if now - k.time > HORIZON then true
    else if k.lastSuccess == 0 && k.attempts >= RETRIES then true
    else now - k.lastSuccess > MIN_FAIL && k.attempts >= MAX_FAILURES
  }

  // ----- adding an address

  /** What an announcement adds to what is known; an entry's own announcement carries no penalty. */
  function Heard(k: Known, a: Announced, penalty: int, now: int): Known {
    var interval := if now - a.time < DAY then HOUR else DAY;
    var time := if k.time < a.time - interval - penalty then Max(0, a.time - penalty) else k.time;
    k.(time := time, services := k.services + a.services)
  }

  function FirstHeard(a: Announced, source: NetAddr, penalty: int): Known {
    Known(a.services, Max(0, a.time - penalty), source, 0, 0, 0, 0)
  }

  /** Whether an entry may take a slot of the new table from its holder. */
  predicate MayOverwrite(s: State, slot: Slot, i: Id, now: int)
    requires i in s.info && slot in s.news && s.news[slot] in s.info
  {
    var x := s.info[s.news[slot]];
    IsTerrible(x.known, now) || (x.refCount > 1 && s.info[i].refCount == 0)
  }

  predicate CanPlace(env: Env, s: State, i: Id, slot: Slot) {
    && i in s.info
    && CanClear(s, slot)
    && (slot in s.news && s.news[slot] != i ==> i in ClearNew(env, s, slot).info)
    && (s.info[i].refCount == 0 ==> CanDelete(s, i))
  }

  /** Enters an entry into a slot if the slot is free or may be overwritten; else a slotless entry is forgotten. */
  function Place(env: Env, s: State, i: Id, slot: Slot, now: int): (State, bool)
    requires CanPlace(env, s, i, slot)
  {
    if slot !in s.news then (FillSlot(s, slot, i), true)
    else if s.news[slot] == i then (s, false)
    else if MayOverwrite(s, slot, i, now) then (FillSlot(ClearNew(env, s, slot), slot, i), true)
    else (if s.info[i].refCount == 0 then Delete(env, s, i) else s, false)
  }

  /** The entry to be placed is whole but for having no slot yet. */
  ghost predicate Placeable(env: Env, s: State, zero: set<Id>, i: Id, slot: Slot) {
    && Between(env, s, zero, {})
    && i in s.info && !s.info[i].inTried && s.info[i].refCount < MAX_NEW_BUCKETS
    && zero == (if s.info[i].refCount == 0 then {i} else {})
    && slot.bucket < env.newBuckets && slot.pos == NewPos(env, s.info[i].addr, slot.bucket)
  }

  lemma MayPlace(env: Env, s: State, zero: set<Id>, i: Id, slot: Slot)
    requires Placeable(env, s, zero, i, slot)
    ensures CanPlace(env, s, i, slot)
  {
    ClearKeeps(env, s, zero, {}, slot);
    if i in zero {
      MayDelete(env, s, zero, {}, i);
    }
    if slot in s.news {
      ClearShrinks(env, s, slot);
    }
  }

  lemma FreeSlotKeeps(env: Env, s: State, zero: set<Id>, i: Id, slot: Slot)
    requires Placeable(env, s, zero, i, slot) && slot !in s.news
    ensures Between(env, FillSlot(s, slot, i), {}, {})
  {
    FillSlotKeeps(env, s, zero, {}, slot, i);
    assert zero - {i} == {};
  }

  lemma OwnSlotKeeps(env: Env, s: State, zero: set<Id>, i: Id, slot: Slot)
    requires Placeable(env, s, zero, i, slot) && slot in s.news && s.news[slot] == i
    ensures Between(env, s, {}, {})
  {
    assert slot in SlotsOf(s.news, i);
  }

  lemma NoSlotKeeps(env: Env, s: State, zero: set<Id>, i: Id, slot: Slot)
    requires Placeable(env, s, zero, i, slot) && CanPlace(env, s, i, slot)
    ensures Between(env, if s.info[i].refCount == 0 then Delete(env, s, i) else s, {}, {})
  {
    if i in zero {
      DeleteKeeps(env, s, zero, {}, i);
      assert zero - {i} == {};
    }
  }

  lemma PlaceKeeps(env: Env, s: State, zero: set<Id>, i: Id, slot: Slot, now: int)
    requires Placeable(env, s, zero, i, slot)
    ensures CanPlace(env, s, i, slot) && Between(env, Place(env, s, i, slot, now).0, {}, {})
  {
    MayPlace(env, s, zero, i, slot);
    if slot !in s.news {
      FreeSlotKeeps(env, s, zero, i, slot);
    } else if s.news[slot] == i {
      OwnSlotKeeps(env, s, zero, i, slot);
    } else if MayOverwrite(s, slot, i, now) {
      OverwriteKeeps(env, s, zero, i, slot);
    } else {
      NoSlotKeeps(env, s, zero, i, slot);
    }
  }

  lemma OverwriteKeeps(env: Env, s: State, zero: set<Id>, i: Id, slot: Slot)
    requires Placeable(env, s, zero, i, slot) && slot in s.news && s.news[slot] != i && CanClear(s, slot)
    ensures i in ClearNew(env, s, slot).info && Between(env, FillSlot(ClearNew(env, s, slot), slot, i), {}, {})
  {
    var t := ClearNew(env, s, slot);
    ClearKeeps(env, s, zero, {}, slot);
    ClearShrinks(env, s, slot);
    ClearLeaves(env, s, slot);
    FillSlotKeeps(env, t, zero, {}, slot, i);
    assert zero - {i} == {};
  }

  lemma FillOnward(s: State, slot: Slot, i: Id)
    requires i in s.info
    ensures Onward(s, FillSlot(s, slot, i))
  {
  }

  lemma DeleteOnward(env: Env, s: State, i: Id)
    requires CanDelete(s, i)
    ensures var t := Delete(env, s, i);
            Onward(s, t) && t.tried == s.tried && t.collisions == s.collisions && t.lastGood == s.lastGood
  {
    DeleteShrinks(env, s, i);
    ShrinksOnward(s, Delete(env, s, i), {i}, i);
  }

  lemma PlaceOnward(env: Env, s: State, i: Id, slot: Slot, now: int)
    requires CanPlace(env, s, i, slot)
    ensures var t := Place(env, s, i, slot, now).0;
            Onward(s, t) && t.tried == s.tried && t.collisions == s.collisions && t.lastGood == s.lastGood
  {
    if slot !in s.news {
      FillOnward(s, slot, i);
    } else if s.news[slot] != i && MayOverwrite(s, slot, i, now) {
      var t := ClearNew(env, s, slot);
      ClearOnward(env, s, slot);
      ClearLeaves(env, s, slot);
      FillOnward(t, slot, i);
      OnwardTwice(s, t, FillSlot(t, slot, i));
    } else if s.info[i].refCount == 0 {
      DeleteOnward(env, s, i);
    }
  }

  predicate CanAdd(env: Env, s: State, a: Announced, source: NetAddr, penalty: int, now: int, roll: nat) {
    var slot := NewSlot(env, a.addr, source);
    if a.addr in s.ids then
      s.ids[a.addr] in s.info && CanAddKnown(env, Hear(s, s.ids[a.addr], a, penalty, now), s.ids[a.addr], a, slot, roll)
    else CanPlace(env, Create(env, s, a.addr, FirstHeard(a, source, penalty)), s.idCount, slot)
  }

  predicate CanAddKnown(env: Env, t: State, i: Id, a: Announced, slot: Slot, roll: nat) {
    i in t.info && (NothingNew(t.info[i], a, roll) || CanPlace(env, t, i, slot))
  }

  function Hear(s: State, i: Id, a: Announced, penalty: int, now: int): State
    requires i in s.info
  {
    Note(s, i, s.info[i].(known := Heard(s.info[i].known, a, penalty, now)))
  }

  /** Whether an announcement of a known address leads no further than to its statistics. */
  predicate NothingNew(x: AddrInfo, a: Announced, roll: nat) {
    a.time <= x.known.time || x.inTried || x.refCount == MAX_NEW_BUCKETS || (x.refCount > 0 && roll != 0)
  }

  /** The penalty does not apply to what an address says about itself. */
  function Penalty(a: Announced, source: NetAddr, penalty: int): int { if a.addr.ip == source then 0 else penalty }

  /**
   * Adds one announced address from a source. `roll` is the random number drawn below 2^n for an
   * entry that has n slots.
   */
  function AddSingle(env: Env, s: State, a: Announced, source: NetAddr, penalty: int, now: int,
                     roll: nat): (State, bool)
    requires a.addr.ip in env.routable ==> CanAdd(env, s, a, source, Penalty(a, source, penalty), now, roll)
  {
    var p := Penalty(a, source, penalty);
    var slot := NewSlot(env, a.addr, source);
    if a.addr.ip !in env.routable then (s, false)
    else if a.addr in s.ids then
      var i := s.ids[a.addr];
      var t := Hear(s, i, a, p, now);
      if NothingNew(t.info[i], a, roll) then (t, false) else Place(env, t, i, slot, now)
    else Place(env, Create(env, s, a.addr, FirstHeard(a, source, p)), s.idCount, slot, now)
  }

  lemma KnownPlaceKeeps(env: Env, t: State, i: Id, a: Announced, slot: Slot, now: int, roll: nat)
    requires Between(env, t, {}, {}) && i in t.info && !NothingNew(t.info[i], a, roll)
    requires slot.bucket < env.newBuckets && slot.pos == NewPos(env, t.info[i].addr, slot.bucket)
    ensures CanPlace(env, t, i, slot) && Between(env, Place(env, t, i, slot, now).0, {}, {})
  {
    assert t.info[i].refCount >= 1;
    PlaceKeeps(env, t, {}, i, slot, now);
  }

  lemma AddKnownKeeps(env: Env, s: State, a: Announced, source: NetAddr, p: int, now: int, roll: nat)
    requires Between(env, s, {}, {}) && a.addr in s.ids
    ensures s.ids[a.addr] in s.info
    ensures var i := s.ids[a.addr];
            var t := Hear(s, i, a, p, now);
            var slot := NewSlot(env, a.addr, source);
            && CanAddKnown(env, t, i, a, slot, roll)
            && Between(env, t, {}, {})
            && (!NothingNew(t.info[i], a, roll) ==> Between(env, Place(env, t, i, slot, now).0, {}, {}))
  {
    var i := s.ids[a.addr];
    assert i in s.info && s.info[i].addr == a.addr;
    var t := Hear(s, i, a, p, now);
    NoteKeeps(env, s, {}, {}, i, t.info[i]);
    if !NothingNew(t.info[i], a, roll) {
      KnownPlaceKeeps(env, t, i, a, NewSlot(env, a.addr, source), now, roll);
    }
  }

  lemma AddUnknownKeeps(env: Env, s: State, a: Announced, source: NetAddr, p: int, now: int)
    requires Between(env, s, {}, {}) && a.addr !in s.ids
    ensures var t := Create(env, s, a.addr, FirstHeard(a, source, p));
            var slot := NewSlot(env, a.addr, source);
            CanPlace(env, t, s.idCount, slot) && Between(env, Place(env, t, s.idCount, slot, now).0, {}, {})
  {
    var t := Create(env, s, a.addr, FirstHeard(a, source, p));
    CreateKeeps(env, s, {}, {}, a.addr, FirstHeard(a, source, p));
    assert {} + {s.idCount} == {s.idCount};
    PlaceKeeps(env, t, {s.idCount}, s.idCount, NewSlot(env, a.addr, source), now);
  }

  lemma HearOnward(s: State, i: Id, x: AddrInfo)
    requires i in s.info && x.addr == s.info[i].addr
    ensures Onward(s, Note(s, i, x))
  {
  }

  lemma CreateOnward(env: Env, s: State, a: Service, k: Known)
    ensures Onward(s, Create(env, s, a, k))
  {
  }

  lemma PlacedInv(env: Env, s: State, t: State, i: Id, slot: Slot, now: int)
    requires Inv(env, s) && Onward(s, t) && t.tried == s.tried && t.collisions == s.collisions
             && CanPlace(env, t, i, slot)
    requires Between(env, Place(env, t, i, slot, now).0, {}, {})
    ensures Inv(env, Place(env, t, i, slot, now).0) && Place(env, t, i, slot, now).0.tried == s.tried
  {
    var u := Place(env, t, i, slot, now).0;
    PlaceOnward(env, t, i, slot, now);
    OnwardTwice(s, t, u);
    CollidingOnward(env, s, u);
  }

  lemma AddKnownInv(env: Env, s: State, a: Announced, source: NetAddr, p: int, now: int, roll: nat)
    requires Inv(env, s) && a.addr in s.ids
    ensures s.ids[a.addr] in s.info
    ensures var i := s.ids[a.addr];
            var t := Hear(s, i, a, p, now);
            var slot := NewSlot(env, a.addr, source);
            && CanAddKnown(env, t, i, a, slot, roll) && Inv(env, t) && t.tried == s.tried
            && (!NothingNew(t.info[i], a, roll) ==>
                Inv(env, Place(env, t, i, slot, now).0) && Place(env, t, i, slot, now).0.tried == s.tried)
  {
    AddKnownKeeps(env, s, a, source, p, now, roll);
    var i := s.ids[a.addr];
    var t := Hear(s, i, a, p, now);
    HearOnward(s, i, t.info[i]);
    CollidingOnward(env, s, t);
    if !NothingNew(t.info[i], a, roll) {
      PlacedInv(env, s, t, i, NewSlot(env, a.addr, source), now);
    }
  }

  lemma AddUnknownInv(env: Env, s: State, a: Announced, source: NetAddr, p: int, now: int)
    requires Inv(env, s) && a.addr !in s.ids
    ensures var t := Create(env, s, a.addr, FirstHeard(a, source, p));
            var slot := NewSlot(env, a.addr, source);
            CanPlace(env, t, s.idCount, slot) && Inv(env, Place(env, t, s.idCount, slot, now).0)
            && Place(env, t, s.idCount, slot, now).0.tried == s.tried
  {
    AddUnknownKeeps(env, s, a, source, p, now);
    var t := Create(env, s, a.addr, FirstHeard(a, source, p));
    CreateOnward(env, s, a.addr, FirstHeard(a, source, p));
    PlacedInv(env, s, t, s.idCount, NewSlot(env, a.addr, source), now);
  }

  lemma AddSingleKeeps(env: Env, s: State, a: Announced, source: NetAddr, penalty: int, now: int, roll: nat)
    requires Inv(env, s)
    ensures a.addr.ip in env.routable ==> CanAdd(env, s, a, source, Penalty(a, source, penalty), now, roll)
    ensures Inv(env, AddSingle(env, s, a, source, penalty, now, roll).0)
    ensures AddSingle(env, s, a, source, penalty, now, roll).0.tried == s.tried
  {
    var p := Penalty(a, source, penalty);
    if a.addr in s.ids {
      AddKnownInv(env, s, a, source, p, now, roll);
    } else {
      AddUnknownInv(env, s, a, source, p, now);
    }
  }
}
