/** The operations of the address manager on its state, and what each of them keeps. */
module AddrOps {
  import opened AddrState
  import opened AddrFrames
  import opened AddrSteps

  // ----- what survives a step

  /** An entry is the same but for its place in the random vector and, if it is the one at i, its count. */
  predicate Survives(x: AddrInfo, y: AddrInfo, recounted: bool) {
    x.addr == y.addr && x.known == y.known && x.inTried == y.inTried && (recounted || x.refCount == y.refCount)
  }

  /** Some entries are gone, none is new, and only the count of entry i may have changed. */
  ghost predicate Shrinks(info: map<Id, AddrInfo>, info': map<Id, AddrInfo>, gone: set<Id>, i: Id) {
    info'.Keys == info.Keys - gone && forall j :: j in info' ==> Survives(info[j], info'[j], j == i)
  }

  lemma ShrinksAfterMove(info: map<Id, AddrInfo>, info1: map<Id, AddrInfo>, info2: map<Id, AddrInfo>, gone: set<Id>,
                         i: Id)
    requires AgreeButPos(info, info1) && Shrinks(info1, info2, gone, i)
    ensures Shrinks(info, info2, gone, i)
  {
    forall j | j in info2
      ensures Survives(info[j], info2[j], j == i)
    {
      assert info1[j] == info[j].(randomPos := info1[j].randomPos);
    }
  }

  lemma DropLastShrinks(env: Env, s: State, i: Id)
    requires i in s.info && |s.random| > 0
    ensures Shrinks(s.info, DropLast(env, s, i).info, {i}, i)
  {
  }

  lemma DeleteShrinks(env: Env, s: State, i: Id)
    requires CanDelete(s, i)
    ensures var t := Delete(env, s, i); Shrinks(s.info, t.info, {i}, i) && t.news == s.news && t.tried == s.tried
  {
    var p, q := s.info[i].randomPos, |s.random| - 1;
    DeleteIsDropLast(env, s, i);
    SwapAgrees(s, p, q);
    DropLastShrinks(env, SwapRandom(s, p, q), i);
    ShrinksAfterMove(s.info, SwapRandom(s, p, q).info, Delete(env, s, i).info, {i}, i);
  }

  lemma DropSlotShrinks(s: State, slot: Slot)
    requires slot in s.news && s.news[slot] in s.info
    ensures Shrinks(s.info, DropSlot(s, slot).info, {}, s.news[slot])
  {
  }

  lemma ShrinksTwice(info: map<Id, AddrInfo>, info1: map<Id, AddrInfo>, info2: map<Id, AddrInfo>, i: Id)
    requires Shrinks(info, info1, {}, i) && Shrinks(info1, info2, {i}, i)
    ensures Shrinks(info, info2, {i}, i)
  {
  }

  /** Clearing a slot can only remove the entry that held it. */
  lemma ClearShrinks(env: Env, s: State, slot: Slot)
    requires CanClear(s, slot) && slot in s.news
    ensures var t := ClearNew(env, s, slot);
            var i := s.news[slot];
            && t.news == s.news - {slot} && t.tried == s.tried
            && Shrinks(s.info, t.info, if s.info[i].refCount == 1 then {i} else {}, i)
  {
    var i := s.news[slot];
    DropSlotShrinks(s, slot);
    if s.info[i].refCount == 1 {
      DeleteShrinks(env, DropSlot(s, slot), i);
      ShrinksTwice(s.info, DropSlot(s, slot).info, ClearNew(env, s, slot).info, i);
    }
  }

  lemma ClearLeaves(env: Env, s: State, slot: Slot)
    requires CanClear(s, slot)
    ensures var t := ClearNew(env, s, slot);
            t.collisions == s.collisions && t.idCount == s.idCount && t.lastGood == s.lastGood && slot !in t.news
  {
  }

  /** No id is reused, no entry changes its address. */
  ghost predicate Onward(s: State, t: State) {
    && s.idCount <= t.idCount
    && (forall i :: i in t.info && i < s.idCount ==> i in s.info && t.info[i].addr == s.info[i].addr)
  }

  lemma OnwardTwice(s: State, t: State, u: State)
    requires Onward(s, t) && Onward(t, u)
    ensures Onward(s, u)
  {
  }

  /** Pending collisions stay collisions while tried slots stay occupied. */
  lemma CollidingOnward(env: Env, s: State, t: State)
    requires Colliding(env, s.info, s.tried, s.collisions, s.idCount) && Onward(s, t)
    requires s.tried.Keys <= t.tried.Keys && t.collisions <= s.collisions && |t.collisions| <= MAX_COLLISIONS
    ensures Colliding(env, t.info, t.tried, t.collisions, t.idCount)
  {
    forall i | i in t.collisions && i in t.info
      ensures TriedSlot(env, t.info[i].addr) in t.tried
    {
      assert i in s.collisions;
      assert TriedSlot(env, s.info[i].addr) in s.tried.Keys;
    }
  }

  lemma ShrinksOnward(s: State, t: State, gone: set<Id>, i: Id)
    requires Shrinks(s.info, t.info, gone, i) && s.idCount == t.idCount
    ensures Onward(s, t)
  {
  }

  lemma ClearOnward(env: Env, s: State, slot: Slot)
    requires CanClear(s, slot)
    ensures Onward(s, ClearNew(env, s, slot)) && ClearNew(env, s, slot).tried == s.tried
  {
    ClearLeaves(env, s, slot);
    if slot in s.news {
      var i := s.news[slot];
      ClearShrinks(env, s, slot);
      ShrinksOnward(s, ClearNew(env, s, slot), if s.info[i].refCount == 1 then {i} else {}, i);
    }
  }

  // ----- moving an entry to the tried table

  /** The slot of the new table an entry goes to by its own source. */
  function HomeSlot(env: Env, x: AddrInfo): Slot { NewSlot(env, x.addr, x.known.source) }

  predicate CanEvict(env: Env, s: State, slot: Slot) {
    && slot in s.tried && s.tried[slot] in s.info
    && var t := LeaveTried(env, s, slot);
       var home := HomeSlot(env, s.info[s.tried[slot]]);
       CanClear(t, home) && s.tried[slot] in ClearNew(env, t, home).info
  }

  /** Moves the entry in a slot of the tried table back to the new table, over whatever is there. */
  function Evict(env: Env, s: State, slot: Slot): State
    requires CanEvict(env, s, slot)
  {
    var prev := s.tried[slot];
    var home := HomeSlot(env, s.info[prev]);
    FillSlot(CountNew(env, ClearNew(env, LeaveTried(env, s, slot), home), prev, 1), home, prev)
  }

  /** An entry outside all tables: not counted as new any more, not yet counted as tried. */
  function Free(env: Env, s: State, i: Id): State
    requires i in s.info
  {
    CountNew(env, Detach(s, i), i, -1)
  }

  predicate CanMakeTried(env: Env, s: State, i: Id) {
    && i in s.info
    && var slot := TriedSlot(env, s.info[i].addr);
       (slot in s.tried ==> CanEvict(env, Free(env, s, i), slot) && i in Evict(env, Free(env, s, i), slot).info)
  }

  /** Moves an entry from the new to the tried table, evicting the entry in its slot. */
  function MakeTried(env: Env, s: State, i: Id): State
    requires CanMakeTried(env, s, i)
  {
    var t := Free(env, s, i);
    var slot := TriedSlot(env, s.info[i].addr);
    EnterTried(env, if slot in s.tried then Evict(env, t, slot) else t, i)
  }

  lemma FreeKeeps(env: Env, s: State, zero: set<Id>, out: set<Id>, i: Id)
    requires Between(env, s, zero, out) && i in s.info && !s.info[i].inTried && i !in out
    ensures Between(env, Free(env, s, i), zero + {i}, out + {i})
  {
    DetachKeeps(env, s, zero, out, i);
    UncountKeeps(env, Detach(s, i), zero + {i}, out, i);
  }

  /** After the evicted entry has left the tried table and its home is clear. */
  lemma MakeRoom(env: Env, s: State, zero: set<Id>, out: set<Id>, slot: Slot)
    requires Between(env, s, zero, out) && slot in s.tried
    ensures CanEvict(env, s, slot)
    ensures var prev := s.tried[slot];
            var home := HomeSlot(env, s.info[prev]);
            var u := ClearNew(env, LeaveTried(env, s, slot), home);
            && prev !in zero && home !in u.news && u.info[prev].addr == s.info[prev].addr
            && Between(env, u, zero + {prev}, out + {prev})
  {
    var prev := s.tried[slot];
    LeaveTriedKeeps(env, s, zero, out, slot);
    var t := LeaveTried(env, s, slot);
    var home := HomeSlot(env, s.info[prev]);
    ClearKeeps(env, t, zero + {prev}, out + {prev}, home);
    var u := ClearNew(env, t, home);
    ClearLeaves(env, t, home);
    assert prev in zero + {prev};
    if home in t.news {
      ClearShrinks(env, t, home);
    }
  }

  lemma EvictKeeps(env: Env, s: State, zero: set<Id>, out: set<Id>, slot: Slot)
    requires Between(env, s, zero, out) && slot in s.tried
    ensures CanEvict(env, s, slot) && Between(env, Evict(env, s, slot), zero, out)
  {
    MakeRoom(env, s, zero, out, slot);
    var prev := s.tried[slot];
    var home := HomeSlot(env, s.info[prev]);
    var u := ClearNew(env, LeaveTried(env, s, slot), home);
    CountKeeps(env, u, zero + {prev}, out + {prev}, prev);
    Refill(env, u, zero, out, prev, home);
  }

  lemma Refill(env: Env, u: State, zero: set<Id>, out: set<Id>, prev: Id, home: Slot)
    requires prev !in zero && out <= zero && prev in u.info && home !in u.news
    requires home.bucket < env.newBuckets && home.pos == NewPos(env, u.info[prev].addr, home.bucket)
    requires Between(env, CountNew(env, u, prev, 1), zero + {prev}, out + {prev} - {prev})
    ensures Between(env, FillSlot(CountNew(env, u, prev, 1), home, prev), zero, out)
  {
    var v := CountNew(env, u, prev, 1);
    assert out + {prev} - {prev} == out && zero + {prev} - {prev} == zero;
    assert prev in zero + {prev};
    FillSlotKeeps(env, v, zero + {prev}, out, home, prev);
  }

  /** The tables and the entries that remain, after an eviction. */
  lemma EvictShrinks(env: Env, s: State, slot: Slot)
    requires CanEvict(env, s, slot)
    ensures var t := Evict(env, s, slot);
            && t.tried == s.tried - {slot} && t.idCount == s.idCount && t.collisions == s.collisions
               && t.lastGood == s.lastGood
            && (forall j :: j in t.info ==>
                j in s.info && t.info[j].addr == s.info[j].addr && t.info[j].known == s.info[j].known)
  {
    var prev := s.tried[slot];
    var home := HomeSlot(env, s.info[prev]);
    var t := LeaveTried(env, s, slot);
    ClearLeaves(env, t, home);
    if home in t.news {
      ClearShrinks(env, t, home);
    }
  }

  /** An eviction in which the evicted entry comes back to the new table with no slot there. */
  predicate CleanEvict(env: Env, s: State, slot: Slot) {
    && CanEvict(env, s, slot)
    && var prev := s.tried[slot];
       ClearNew(env, LeaveTried(env, s, slot), HomeSlot(env, s.info[prev])).info[prev].refCount == 0
  }

  lemma EvictIsClean(env: Env, s: State, zero: set<Id>, out: set<Id>, slot: Slot)
    requires Between(env, s, zero, out) && slot in s.tried
    ensures CleanEvict(env, s, slot)
  {
    MakeRoom(env, s, zero, out, slot);
    assert s.tried[slot] in zero + {s.tried[slot]};
  }

  /** What enters the tried table is ready for it, and its slot is free. */
  lemma ReadyToEnter(env: Env, s: State, i: Id)
    requires Between(env, s, {}, {}) && i in s.info && !s.info[i].inTried
    ensures CanMakeTried(env, s, i)
    ensures var slot := TriedSlot(env, s.info[i].addr);
            var t := if slot in s.tried then Evict(env, Free(env, s, i), slot) else Free(env, s, i);
            && i in t.info && t.info[i].addr == s.info[i].addr && t.info[i].known == s.info[i].known && slot !in t.tried
            && Between(env, t, {} + {i}, {} + {i})
  {
    FreeKeeps(env, s, {}, {}, i);
    var f := Free(env, s, i);
    var slot := TriedSlot(env, s.info[i].addr);
    if slot in s.tried {
      EvictKeeps(env, f, {} + {i}, {} + {i}, slot);
      EvictShrinks(env, f, slot);
      assert i in {} + {i};
    }
  }

  /** Everything a move to the tried table relies on. */
  ghost predicate MovesCleanly(env: Env, s: State, i: Id) {
    && CanMakeTried(env, s, i)
    && NewPlaced(env, s.info, s.news)
    && s.info[i].refCount == |SlotsOf(s.news, i)|
    && (TriedSlot(env, s.info[i].addr) in s.tried ==> CleanEvict(env, Free(env, s, i), TriedSlot(env, s.info[i].addr)))
  }

  lemma MoveStages(env: Env, s: State, i: Id)
    requires CanMakeTried(env, s, i)
    ensures var f := Free(env, s, i);
            var slot := TriedSlot(env, s.info[i].addr);
            && i in f.info && f.info[i].addr == s.info[i].addr && f.tried == s.tried
            && (slot in s.tried ==> i in Evict(env, f, slot).info && Evict(env, f, slot).info[i].addr == s.info[i].addr)
            && MakeTried(env, s, i) == EnterTried(env, if slot in s.tried then Evict(env, f, slot) else f, i)
  {
    if TriedSlot(env, s.info[i].addr) in s.tried {
      EvictShrinks(env, Free(env, s, i), TriedSlot(env, s.info[i].addr));
    }
  }

  lemma MoveIsClean(env: Env, s: State, i: Id)
    requires Between(env, s, {}, {}) && i in s.info && !s.info[i].inTried
    ensures MovesCleanly(env, s, i)
  {
    ReadyToEnter(env, s, i);
    if TriedSlot(env, s.info[i].addr) in s.tried {
      FreeKeeps(env, s, {}, {}, i);
      EvictIsClean(env, Free(env, s, i), {} + {i}, {} + {i}, TriedSlot(env, s.info[i].addr));
    }
  }

  lemma MakeTriedKeeps(env: Env, s: State, i: Id)
    requires Between(env, s, {}, {}) && i in s.info && !s.info[i].inTried && s.info[i].known.lastSuccess != 0
    ensures CanMakeTried(env, s, i) && Between(env, MakeTried(env, s, i), {}, {})
  {
    ReadyToEnter(env, s, i);
    var slot := TriedSlot(env, s.info[i].addr);
    var t := if slot in s.tried then Evict(env, Free(env, s, i), slot) else Free(env, s, i);
    EnterTriedKeeps(env, t, {} + {i}, {} + {i}, i);
    assert {} + {i} - {i} == {};
  }

  lemma FreeOnward(env: Env, s: State, i: Id)
    requires i in s.info
    ensures Onward(s, Free(env, s, i)) && Free(env, s, i).info.Keys == s.info.Keys
  {
  }

  lemma EnterOnward(env: Env, s: State, i: Id)
    requires i in s.info
    ensures Onward(s, EnterTried(env, s, i))
  {
  }

  /** Moving to tried keeps every occupied tried slot occupied. */
  lemma MakeTriedOnward(env: Env, s: State, i: Id)
    requires CanMakeTried(env, s, i)
    ensures var t := MakeTried(env, s, i);
            && Onward(s, t) && t.tried.Keys == s.tried.Keys + {TriedSlot(env, s.info[i].addr)}
            && t.collisions == s.collisions && t.lastGood == s.lastGood
  {
    var slot := TriedSlot(env, s.info[i].addr);
    var f := Free(env, s, i);
    FreeOnward(env, s, i);
    if slot in s.tried {
      EvictShrinks(env, f, slot);
      var u := Evict(env, f, slot);
      EnterOnward(env, u, i);
      OnwardTwice(s, f, u);
      OnwardTwice(s, u, EnterTried(env, u, i));
    } else {
      EnterOnward(env, f, i);
      OnwardTwice(s, f, EnterTried(env, f, i));
    }
  }

  // ----- the empty manager

  lemma EmptyIsSound(env: Env)
    ensures Inv(env, EMPTY)
  {
    forall q
      ensures Counter(0, 0, map[], q) == |Matching(env, map[], {}, q)|
    {
      assert Matching(env, map[], {}, q) == {};
    }
    Assemble(env, EMPTY, {}, {});
  }
}
