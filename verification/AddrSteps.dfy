/** What each elementary step of the address manager keeps. */
module AddrSteps {
  import opened AddrState
  import opened AddrFrames

  // ----- entries come and go

  lemma CreateParts(env: Env, s: State, t: State, zero: set<Id>, out: set<Id>, x: AddrInfo)
    requires t == Create(env, s, x.addr, x.known) && x == t.info[s.idCount]
    requires x.known.lastTry >= 0 && x.known.lastSuccess >= 0
    requires Indexed(s.info, s.ids) && Shuffled(s.info, s.random) && Dated(s.info, s.idCount) && x.addr !in s.ids
    requires NewPlaced(env, s.info, s.news) && TriedPlaced(env, s.info, s.tried)
    requires RefCounted(s.info, s.news, zero) && Slotless(s.info, zero)
    ensures Indexed(t.info, t.ids) && Shuffled(t.info, t.random) && Dated(t.info, t.idCount)
    ensures NewPlaced(env, t.info, t.news) && TriedPlaced(env, t.info, t.tried)
    ensures RefCounted(t.info, t.news, zero + {s.idCount}) && Slotless(t.info, zero + {s.idCount})
  {
    var i := s.idCount;
    IndexedCreate(s.info, s.ids, i, x);
    ShuffledCreate(s.info, s.random, i, x);
    DatedCreate(s.info, i, x);
    TablesCreate(env, s.info, s.news, s.tried, i, x);
    RefCountedCreate(env, s.info, s.news, zero, i, x);
  }

  lemma CreateTallied(env: Env, s: State, t: State, out: set<Id>, a: Service, k: Known)
    requires Tallied(env, s.info, out, s.nNew, s.nTried, s.counts) && s.idCount !in s.info && s.idCount !in out
    requires t == Create(env, s, a, k)
    ensures Tallied(env, t.info, out, t.nNew, t.nTried, t.counts)
  {
    Retagged(env, s.info, out, s.nNew, s.nTried, s.counts, t.info, out, s.idCount, NetworkOf(env, a), 1, 0);
  }

  lemma CreateKeeps(env: Env, s: State, zero: set<Id>, out: set<Id>, a: Service, k: Known)
    requires Between(env, s, zero, out) && a !in s.ids && k.lastTry >= 0 && k.lastSuccess >= 0
    ensures Between(env, Create(env, s, a, k), zero + {s.idCount}, out)
  {
    var t := Create(env, s, a, k);
    assert s.idCount !in s.info;
    CreateParts(env, s, t, zero, out, t.info[s.idCount]);
    CreateTallied(env, s, t, out, a, k);
    Assemble(env, t, zero + {s.idCount}, out);
  }

  lemma SwapKeeps(env: Env, s: State, zero: set<Id>, out: set<Id>, p: int, q: int)
    requires Between(env, s, zero, out) && CanSwap(s, p, q)
    ensures Between(env, SwapRandom(s, p, q), zero, out)
  {
    var t := SwapRandom(s, p, q);
    SwapAgrees(s, p, q);
    ButPos(s.info, t.info);
    IndexedFrame(s.info, t.info, s.ids);
    ShuffledSwap(s, p, q);
    TablesFrame(env, s.info, t.info, s.news, s.tried);
    RefCountedFrame(s.info, t.info, s.news, zero);
    TalliedFrame(env, s.info, t.info, out, s.nNew, s.nTried, s.counts);
    DatedFrame(s.info, t.info, s.idCount);
    Assemble(env, t, zero, out);
  }

  lemma MayDelete(env: Env, s: State, zero: set<Id>, out: set<Id>, i: Id)
    requires Between(env, s, zero, out) && i in zero
    ensures CanDelete(s, i)
  {
    assert i in s.info;
  }

  lemma DropLastParts(env: Env, t: State, u: State, zero: set<Id>, out: set<Id>, i: Id)
    requires i in zero && i !in out && |t.random| > 0 && t.random[|t.random| - 1] == i && i in t.info
             && u == DropLast(env, t, i)
    requires Indexed(t.info, t.ids) && Shuffled(t.info, t.random) && Dated(t.info, t.idCount)
    requires NewPlaced(env, t.info, t.news) && TriedPlaced(env, t.info, t.tried)
    requires RefCounted(t.info, t.news, zero) && Slotless(t.info, zero)
    ensures Indexed(u.info, u.ids) && Shuffled(u.info, u.random) && Dated(u.info, u.idCount)
    ensures NewPlaced(env, u.info, u.news) && TriedPlaced(env, u.info, u.tried)
    ensures RefCounted(u.info, u.news, zero - {i}) && Slotless(u.info, zero - {i})
  {
    IndexedDelete(t.info, t.ids, i);
    ShuffledDelete(t.info, t.random, i);
    DatedDelete(t.info, t.idCount, i);
    TablesDelete(env, t.info, t.news, t.tried, zero, i);
    RefCountedDelete(t.info, t.news, zero, i);
  }

  lemma DropLastTallied(env: Env, t: State, u: State, out: set<Id>, i: Id)
    requires Tallied(env, t.info, out, t.nNew, t.nTried, t.counts)
    requires i in t.info && !t.info[i].inTried && i !in out && |t.random| > 0 && u == DropLast(env, t, i)
    ensures Tallied(env, u.info, out, u.nNew, u.nTried, u.counts)
  {
    Retagged(env, t.info, out, t.nNew, t.nTried, t.counts, t.info - {i}, out, i, NetworkOf(env, t.info[i].addr), -1, 0);
  }

  lemma Shrink(out: set<Id>, zero: set<Id>, i: Id)
    requires out <= zero && i !in out
    ensures out <= zero - {i}
  {
  }

  /** The random vector ends with entry i. */
  ghost predicate Ending(t: State, i: Id) {
    |t.random| > 0 && t.random[|t.random| - 1] == i && i in t.info
  }

  lemma DropLastKeeps(env: Env, t: State, zero: set<Id>, out: set<Id>, i: Id)
    requires Between(env, t, zero, out) && i in zero && i !in out && Ending(t, i)
    ensures Between(env, DropLast(env, t, i), zero - {i}, out)
  {
    var u := DropLast(env, t, i);
    DropLastParts(env, t, u, zero, out, i);
    DropLastTallied(env, t, u, out, i);
    Shrink(out, zero, i);
    Assemble(env, u, zero - {i}, out);
  }

  lemma SwapToEnd(s: State, i: Id)
    requires Shuffled(s.info, s.random) && CanDelete(s, i)
    ensures Ending(SwapRandom(s, s.info[i].randomPos, |s.random| - 1), i)
  {
    ShuffledSwap(s, s.info[i].randomPos, |s.random| - 1);
  }

  lemma EndOfSound(env: Env, s: State, zero: set<Id>, out: set<Id>, i: Id)
    requires Between(env, s, zero, out) && CanDelete(s, i)
    ensures Ending(SwapRandom(s, s.info[i].randomPos, |s.random| - 1), i)
  {
    SwapToEnd(s, i);
  }

  lemma DeleteIsDropLast(env: Env, s: State, i: Id)
    requires CanDelete(s, i)
    ensures Delete(env, s, i) == DropLast(env, SwapRandom(s, s.info[i].randomPos, |s.random| - 1), i)
  {
  }

  lemma DeleteKeeps(env: Env, s: State, zero: set<Id>, out: set<Id>, i: Id)
    requires Between(env, s, zero, out) && i in zero && i !in out && CanDelete(s, i)
    ensures Between(env, Delete(env, s, i), zero - {i}, out)
  {
    DeleteIsDropLast(env, s, i);
    SwapKeeps(env, s, zero, out, s.info[i].randomPos, |s.random| - 1);
    EndOfSound(env, s, zero, out, i);
    DropLastKeeps(env, SwapRandom(s, s.info[i].randomPos, |s.random| - 1), zero, out, i);
  }

  // ----- slots of the new table

  /** A change of a reference count touches nothing but the reference counts. */
  lemma RefChanges(env: Env, s: State, t: State, out: set<Id>, i: Id)
    requires i in s.info && i in t.info
    requires t == s.(info := s.info[i := s.info[i].(refCount := t.info[i].refCount)], news := t.news)
    requires Indexed(s.info, s.ids) && Shuffled(s.info, s.random) && Dated(s.info, s.idCount)
    requires NewPlaced(env, s.info, s.news) && TriedPlaced(env, s.info, s.tried)
    requires Tallied(env, s.info, out, s.nNew, s.nTried, s.counts)
    ensures Indexed(t.info, t.ids) && Shuffled(t.info, t.random) && Dated(t.info, t.idCount)
    ensures NewPlaced(env, t.info, s.news) && TriedPlaced(env, t.info, t.tried)
    ensures Tallied(env, t.info, out, t.nNew, t.nTried, t.counts)
  {
    Updated(s.info, i, t.info[i]);
    IndexedFrame(s.info, t.info, s.ids);
    ShuffledFrame(s.info, t.info, s.random);
    TablesFrame(env, s.info, t.info, s.news, s.tried);
    TalliedFrame(env, s.info, t.info, out, s.nNew, s.nTried, s.counts);
    DatedFrame(s.info, t.info, s.idCount);
  }

  lemma DropSlotRefs(s: State, t: State, zero: set<Id>, zero': set<Id>, slot: Slot)
    requires RefCounted(s.info, s.news, zero) && Slotless(s.info, zero) && slot in s.news && s.news[slot] in s.info
    requires t == DropSlot(s, slot) && zero' == if s.info[s.news[slot]].refCount == 1 then zero + {s.news[slot]}
             else zero
    ensures s.news[slot] !in zero && s.info[s.news[slot]].refCount >= 1
    ensures RefCounted(t.info, t.news, zero') && Slotless(t.info, zero')
  {
    RefCountedDrop(s.info, s.news, zero, slot);
  }

  lemma DropSlotKeeps(env: Env, s: State, zero: set<Id>, out: set<Id>, slot: Slot)
    requires Between(env, s, zero, out) && slot in s.news
    ensures var i := s.news[slot];
            && i !in zero && i in s.info && s.info[i].refCount >= 1
            && Between(env, DropSlot(s, slot), if s.info[i].refCount == 1 then zero + {i} else zero, out)
  {
    var i := s.news[slot];
    assert i in s.info;
    var t := DropSlot(s, slot);
    var zero' := if s.info[i].refCount == 1 then zero + {i} else zero;
    RefChanges(env, s, t, out, i);
    DropSlotRefs(s, t, zero, zero', slot);
    NewPlacedSubmap(env, t.info, s.news, t.news);
    Assemble(env, t, zero', out);
  }

  lemma ClearKeeps(env: Env, s: State, zero: set<Id>, out: set<Id>, slot: Slot)
    requires Between(env, s, zero, out)
    ensures CanClear(s, slot) && Between(env, ClearNew(env, s, slot), zero, out)
  {
    if slot in s.news {
      DropSlotKeeps(env, s, zero, out, slot);
      var i := s.news[slot];
      if s.info[i].refCount == 1 {
        ClearLast(env, s, zero, out, slot);
      }
    }
  }

  /** Clearing the only slot of an entry deletes it. */
  lemma ClearLast(env: Env, s: State, zero: set<Id>, out: set<Id>, slot: Slot)
    requires slot in s.news && s.news[slot] in s.info && s.news[slot] !in zero && out <= zero
    requires Between(env, DropSlot(s, slot), zero + {s.news[slot]}, out)
    ensures CanDelete(DropSlot(s, slot), s.news[slot])
    ensures Between(env, Delete(env, DropSlot(s, slot), s.news[slot]), zero, out)
  {
    var i := s.news[slot];
    MayDelete(env, DropSlot(s, slot), zero + {i}, out, i);
    DeleteKeeps(env, DropSlot(s, slot), zero + {i}, out, i);
    assert zero + {i} - {i} == zero;
  }

  lemma FillSlotRefs(env: Env, s: State, t: State, zero: set<Id>, slot: Slot, i: Id)
    requires RefCounted(s.info, s.news, zero) && Slotless(s.info, zero) && slot !in s.news
    requires i in s.info && !s.info[i].inTried && s.info[i].refCount < MAX_NEW_BUCKETS && t == FillSlot(s, slot, i)
    requires slot.bucket < env.newBuckets && slot.pos == NewPos(env, s.info[i].addr, slot.bucket)
    ensures RefCounted(t.info, t.news, zero - {i}) && Slotless(t.info, zero - {i})
    ensures NewPlaced(env, t.info, s.news) ==> NewPlaced(env, t.info, t.news)
  {
    RefCountedFill(s.info, s.news, zero, slot, i);
  }

  lemma FillSlotKeeps(env: Env, s: State, zero: set<Id>, out: set<Id>, slot: Slot, i: Id)
    requires Between(env, s, zero, out) && slot !in s.news
    requires i in s.info && i !in out && !s.info[i].inTried && s.info[i].refCount < MAX_NEW_BUCKETS
    requires slot.bucket < env.newBuckets && slot.pos == NewPos(env, s.info[i].addr, slot.bucket)
    ensures Between(env, FillSlot(s, slot, i), zero - {i}, out)
  {
    var t := FillSlot(s, slot, i);
    RefChanges(env, s, t, out, i);
    FillSlotRefs(env, s, t, zero, slot, i);
    Shrink(out, zero, i);
    Assemble(env, t, zero - {i}, out);
  }

  lemma DetachKeeps(env: Env, s: State, zero: set<Id>, out: set<Id>, i: Id)
    requires Between(env, s, zero, out) && i in s.info && !s.info[i].inTried
    ensures Between(env, Detach(s, i), zero + {i}, out)
  {
    var t := Detach(s, i);
    RefChanges(env, s, t, out, i);
    NewPlacedSubmap(env, t.info, s.news, t.news);
    RefCountedDetach(s.info, s.news, t.news, zero, i);
    Assemble(env, t, zero + {i}, out);
  }

  // ----- moving between the tables

  lemma UncountKeeps(env: Env, s: State, zero: set<Id>, out: set<Id>, i: Id)
    requires Between(env, s, zero, out) && i in zero && i !in out
    ensures i in s.info && Between(env, CountNew(env, s, i, -1), zero, out + {i})
  {
    assert i in s.info;
    CountTallied(env, s, out, out + {i}, i, -1);
    Assemble(env, CountNew(env, s, i, -1), zero, out + {i});
  }

  lemma CountTallied(env: Env, s: State, out: set<Id>, out': set<Id>, i: Id, d: int)
    requires Tallied(env, s.info, out, s.nNew, s.nTried, s.counts) && i in s.info && !s.info[i].inTried
    requires (d == -1 && i !in out && out' == out + {i}) || (d == 1 && i in out && out' == out - {i})
    ensures var t := CountNew(env, s, i, d); Tallied(env, t.info, out', t.nNew, t.nTried, t.counts)
  {
    Retagged(env, s.info, out, s.nNew, s.nTried, s.counts, s.info, out', i, NetworkOf(env, s.info[i].addr), d, 0);
  }

  lemma CountKeeps(env: Env, s: State, zero: set<Id>, out: set<Id>, i: Id)
    requires Between(env, s, zero, out) && i in out
    ensures i in s.info && Between(env, CountNew(env, s, i, 1), zero, out - {i})
  {
    assert i in zero;
    assert i in s.info;
    CountTallied(env, s, out, out - {i}, i, 1);
    Assemble(env, CountNew(env, s, i, 1), zero, out - {i});
  }

  /** A change of sides touches neither the indexes nor the dates of the other entries. */
  lemma SideChanges(env: Env, s: State, t: State, zero: set<Id>, i: Id)
    requires i in s.info && i in t.info && s.info[i].refCount == 0
    requires t == s.(info := s.info[i := s.info[i].(inTried := t.info[i].inTried)], tried := t.tried,
                     nTried := t.nTried, counts := t.counts)
    requires Indexed(s.info, s.ids) && Shuffled(s.info, s.random) && Dated(s.info, s.idCount)
    requires t.info[i].inTried ==> s.info[i].known.lastSuccess != 0
    requires NewPlaced(env, s.info, s.news) && RefCounted(s.info, s.news, zero)
    ensures Indexed(t.info, t.ids) && Shuffled(t.info, t.random) && Dated(t.info, t.idCount)
    ensures NewPlaced(env, t.info, t.news)
  {
    Updated(s.info, i, t.info[i]);
    IndexedFrame(s.info, t.info, s.ids);
    ShuffledFrame(s.info, t.info, s.random);
    DatedUpdate(s.info, s.idCount, i, t.info[i]);
    NewPlacedAcross(env, s.info, t.info, s.news, zero, i);
  }

  lemma LeaveTriedParts(env: Env, s: State, t: State, zero: set<Id>, slot: Slot, i: Id)
    requires slot in s.tried && s.tried[slot] == i && i in s.info && t == LeaveTried(env, s, slot)
    requires TriedPlaced(env, s.info, s.tried) && RefCounted(s.info, s.news, zero) && Slotless(s.info, zero)
    ensures i !in zero && TriedPlaced(env, t.info, t.tried)
    ensures RefCounted(t.info, t.news, zero + {i}) && Slotless(t.info, zero + {i})
  {
    TriedLeaves(env, s.info, s.tried, slot);
    RefCountedLeave(s.info, s.news, zero, i);
  }

  lemma LeaveTriedTallied(env: Env, s: State, t: State, out: set<Id>, slot: Slot, i: Id)
    requires slot in s.tried && s.tried[slot] == i && i in s.info && s.info[i].inTried && i !in out
    requires t == LeaveTried(env, s, slot) && Tallied(env, s.info, out, s.nNew, s.nTried, s.counts)
    ensures Tallied(env, t.info, out + {i}, t.nNew, t.nTried, t.counts)
  {
    Retagged(env, s.info, out, s.nNew, s.nTried, s.counts, t.info, out + {i}, i, NetworkOf(env, s.info[i].addr), 0, -1);
  }

  lemma LeaveTriedKeeps(env: Env, s: State, zero: set<Id>, out: set<Id>, slot: Slot)
    requires Between(env, s, zero, out) && slot in s.tried
    ensures var i := s.tried[slot];
            && i in s.info && i !in zero
            && Between(env, LeaveTried(env, s, slot), zero + {i}, out + {i})
  {
    var i := s.tried[slot];
    assert i in s.info && s.info[i].refCount == 0;
    var t := LeaveTried(env, s, slot);
    SideChanges(env, s, t, zero, i);
    LeaveTriedParts(env, s, t, zero, slot, i);
    LeaveTriedTallied(env, s, t, out, slot, i);
    Assemble(env, t, zero + {i}, out + {i});
  }

  lemma EnterTriedParts(env: Env, s: State, t: State, zero: set<Id>, i: Id)
    requires i in zero && i in s.info && TriedSlot(env, s.info[i].addr) !in s.tried && t == EnterTried(env, s, i)
    requires TriedPlaced(env, s.info, s.tried) && RefCounted(s.info, s.news, zero) && Slotless(s.info, zero)
    ensures TriedPlaced(env, t.info, t.tried)
    ensures RefCounted(t.info, t.news, zero - {i}) && Slotless(t.info, zero - {i})
  {
    TriedEnters(env, s.info, s.tried, i);
    RefCountedEnter(s.info, s.news, zero, i);
  }

  lemma EnterTriedTallied(env: Env, s: State, t: State, out: set<Id>, i: Id)
    requires i in out && i in s.info && t == EnterTried(env, s, i)
             && Tallied(env, s.info, out, s.nNew, s.nTried, s.counts)
    ensures Tallied(env, t.info, out - {i}, t.nNew, t.nTried, t.counts)
  {
    Retagged(env, s.info, out, s.nNew, s.nTried, s.counts, t.info, out - {i}, i, NetworkOf(env, s.info[i].addr), 0, 1);
  }

  lemma EnterTriedKeeps(env: Env, s: State, zero: set<Id>, out: set<Id>, i: Id)
    requires Between(env, s, zero, out) && i in out && i in s.info && s.info[i].known.lastSuccess != 0
    requires TriedSlot(env, s.info[i].addr) !in s.tried
    ensures Between(env, EnterTried(env, s, i), zero - {i}, out - {i})
  {
    assert i in zero;
    var t := EnterTried(env, s, i);
    SideChanges(env, s, t, zero, i);
    EnterTriedParts(env, s, t, zero, i);
    EnterTriedTallied(env, s, t, out, i);
    Assemble(env, t, zero - {i}, out - {i});
  }

  lemma NoteKeeps(env: Env, s: State, zero: set<Id>, out: set<Id>, i: Id, x: AddrInfo)
    requires Between(env, s, zero, out) && i in s.info && SamePlace(s.info[i], x)
    requires x.known.lastTry >= 0 && x.known.lastSuccess >= 0 && (x.inTried ==> x.known.lastSuccess != 0)
    ensures Between(env, Note(s, i, x), zero, out)
  {
    var info' := s.info[i := x];
    Updated(s.info, i, x);
    IndexedFrame(s.info, info', s.ids);
    ShuffledFrame(s.info, info', s.random);
    TablesFrame(env, s.info, info', s.news, s.tried);
    RefCountedFrame(s.info, info', s.news, zero);
    TalliedFrame(env, s.info, info', out, s.nNew, s.nTried, s.counts);
    DatedUpdate(s.info, s.idCount, i, x);
    Assemble(env, Note(s, i, x), zero, out);
  }
}
