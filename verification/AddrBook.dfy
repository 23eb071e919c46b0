/**
 * The address manager without its machinery: an address book with the addresses, what is known about
 * them and the slots they hold, but without ids, reference counts, counters and the random vector; and
 * the effect of the elementary steps on it.
 */
module AddrBook {
  import opened AddrState
  import opened AddrFrames
  import opened AddrSteps
  import opened AddrOps

  datatype Book = Book(known: map<Service, Known>, news: map<Slot, Service>, tried: map<Slot, Service>, lastGood: int)

  /** A table with addresses in place of ids. */
  ghost function Names(info: map<Id, AddrInfo>, table: map<Slot, Id>): map<Slot, Service> {
    map t | t in table && table[t] in info :: info[table[t]].addr
  }

  ghost function KnownMap(info: map<Id, AddrInfo>, ids: map<Service, Id>): map<Service, Known> {
    map a | a in ids && ids[a] in info :: info[ids[a]].known
  }

  /** The book that a state stands for. */
  ghost function Abs(s: State): Book {
    Book(KnownMap(s.info, s.ids), Names(s.info, s.news), Names(s.info, s.tried), s.lastGood)
  }

  // ----- the operations of a book

  ghost predicate Listed(news: map<Slot, Service>, a: Service) {
    exists t :: t in news && news[t] == a
  }

  /** Empties a slot, and forgets an address that loses its last slot. */
  ghost function ClearSlot(b: Book, slot: Slot): Book {
    if slot !in b.news then b
    else
      var news := b.news - {slot};
      b.(news := news, known := if Listed(news, b.news[slot]) then b.known else b.known - {b.news[slot]})
  }

  function Unlist(b: Book, a: Service): Book {
    b.(news := map t | t in b.news && b.news[t] != a :: b.news[t])
  }

  /** Moves the address in a tried slot to the new slot its source gives it, over whatever is there. */
  ghost function MoveBack(env: Env, b: Book, slot: Slot): Book
    requires slot in b.tried && b.tried[slot] in b.known
  {
    var a := b.tried[slot];
    var home := NewSlot(env, a, b.known[a].source);
    var c := ClearSlot(b.(tried := b.tried - {slot}), home);
    c.(news := c.news[home := a])
  }

  /** Moves an address to the tried table, and whatever holds its slot back to the new table. */
  ghost function MoveToTried(env: Env, b: Book, a: Service): Book
    requires TriedSlot(env, a) in b.tried ==> b.tried[TriedSlot(env, a)] in b.known
  {
    var slot := TriedSlot(env, a);
    var f := Unlist(b, a);
    var c := if slot in b.tried then MoveBack(env, f, slot) else f;
    c.(tried := c.tried[slot := a])
  }

  /** The number of new slots an address holds. */
  ghost function Refs(b: Book, a: Service): nat { |set t | t in b.news && b.news[t] == a| }

  predicate HoldsTried(env: Env, b: Book, a: Service) {
    TriedSlot(env, a) in b.tried && b.tried[TriedSlot(env, a)] == a
  }

  // ----- tables with names

  /** A table reads the same when the entries it names keep their addresses. */
  lemma NamesFrame(info: map<Id, AddrInfo>, info': map<Id, AddrInfo>, table: map<Slot, Id>)
    requires forall t :: t in table ==>
             table[t] in info && table[t] in info' && info'[table[t]].addr == info[table[t]].addr
    ensures Names(info', table) == Names(info, table)
  {
  }

  lemma NamesAgree(info: map<Id, AddrInfo>, info': map<Id, AddrInfo>, table: map<Slot, Id>)
    requires AgreeAddr(info, info')
    ensures Names(info', table) == Names(info, table)
  {
  }

  lemma NamesWithout(info: map<Id, AddrInfo>, table: map<Slot, Id>, slot: Slot)
    ensures Names(info, table - {slot}) == Names(info, table) - {slot}
  {
  }

  lemma NamesWith(info: map<Id, AddrInfo>, table: map<Slot, Id>, slot: Slot, i: Id)
    requires i in info
    ensures Names(info, table[slot := i]) == Names(info, table)[slot := info[i].addr]
  {
  }

  lemma KnownFrame(info: map<Id, AddrInfo>, info': map<Id, AddrInfo>, ids: map<Service, Id>)
    requires info.Keys == info'.Keys && forall i :: i in info ==> info'[i].known == info[i].known
    ensures KnownMap(info', ids) == KnownMap(info, ids)
  {
  }

  /** An address names one entry. */
  lemma OneEntry(s: State, i: Id, j: Id)
    requires Indexed(s.info, s.ids) && i in s.info && j in s.info && s.info[i].addr == s.info[j].addr
    ensures i == j
  {
    assert s.ids[s.info[i].addr] == i;
  }

  // ----- what an id-based state says about an address

  lemma RefsAre(s: State, i: Id)
    requires Indexed(s.info, s.ids) && i in s.info && forall t :: t in s.news ==> s.news[t] in s.info
    ensures Refs(Abs(s), s.info[i].addr) == |SlotsOf(s.news, i)|
  {
    var a, news := s.info[i].addr, Names(s.info, s.news);
    forall t
      ensures t in news && news[t] == a <==> t in s.news && s.news[t] == i
    {
      if t in news && news[t] == a {
        OneEntry(s, i, s.news[t]);
      }
    }
    assert (set t | t in news && news[t] == a) == SlotsOf(s.news, i);
  }

  lemma TriedIs(env: Env, s: State, i: Id)
    requires Indexed(s.info, s.ids) && TriedPlaced(env, s.info, s.tried) && i in s.info
    ensures HoldsTried(env, Abs(s), s.info[i].addr) <==> s.info[i].inTried
  {
    var slot := TriedSlot(env, s.info[i].addr);
    if slot in s.tried && s.tried[slot] in s.info && s.info[s.tried[slot]].addr == s.info[i].addr {
      OneEntry(s, i, s.tried[slot]);
    }
  }

  // ----- the elementary steps seen from the book

  lemma AbsCreate(env: Env, s: State, zero: set<Id>, out: set<Id>, a: Service, k: Known)
    requires Between(env, s, zero, out) && a !in s.ids
    ensures Abs(Create(env, s, a, k)) == Abs(s).(known := Abs(s).known[a := k])
  {
    var t := Create(env, s, a, k);
    assert s.idCount !in s.info;
    NamesAfterCreate(env, s.info, s.news, s.tried, s.idCount, t.info[s.idCount]);
    KnownCreate(s.info, s.ids, s.idCount, t.info[s.idCount]);
  }

  lemma NamesAfterCreate(env: Env, info: map<Id, AddrInfo>, news: map<Slot, Id>, tried: map<Slot, Id>, i: Id,
                         x: AddrInfo)
    requires NewPlaced(env, info, news) && TriedPlaced(env, info, tried) && i !in info
    ensures Names(info[i := x], news) == Names(info, news) && Names(info[i := x], tried) == Names(info, tried)
  {
    NamesFrame(info, info[i := x], news);
    NamesFrame(info, info[i := x], tried);
  }

  lemma NamesAfterDelete(env: Env, info: map<Id, AddrInfo>, news: map<Slot, Id>, tried: map<Slot, Id>, zero: set<Id>,
                         i: Id)
    requires NewPlaced(env, info, news) && TriedPlaced(env, info, tried) && RefCounted(info, news, zero)
    requires i in info && !info[i].inTried && info[i].refCount == 0
    ensures Names(info - {i}, news) == Names(info, news) && Names(info - {i}, tried) == Names(info, tried)
  {
    forall x | x in news
      ensures news[x] != i
    {
      NoSlots(env, info, news, zero, i, x);
    }
    NamesFrame(info, info - {i}, news);
    NamesFrame(info, info - {i}, tried);
  }

  lemma KnownCreate(info: map<Id, AddrInfo>, ids: map<Service, Id>, i: Id, x: AddrInfo)
    requires Indexed(info, ids) && i !in info
    ensures KnownMap(info[i := x], ids[x.addr := i]) == KnownMap(info, ids)[x.addr := x.known]
  {
  }

  lemma AbsSwap(s: State, p: int, q: int)
    requires CanSwap(s, p, q)
    ensures Abs(SwapRandom(s, p, q)) == Abs(s)
  {
    var t := SwapRandom(s, p, q);
    SwapAgrees(s, p, q);
    ButPos(s.info, t.info);
    NamesAgree(s.info, t.info, s.news);
    NamesAgree(s.info, t.info, s.tried);
    KnownFrame(s.info, t.info, s.ids);
  }

  lemma KnownDelete(info: map<Id, AddrInfo>, ids: map<Service, Id>, i: Id)
    requires Indexed(info, ids) && i in info
    ensures KnownMap(info - {i}, ids - {info[i].addr}) == KnownMap(info, ids) - {info[i].addr}
  {
  }

  lemma AbsDropLast(env: Env, s: State, zero: set<Id>, out: set<Id>, i: Id)
    requires Between(env, s, zero, out) && i in zero && i in s.info && |s.random| > 0
    ensures Abs(DropLast(env, s, i)) == Abs(s).(known := Abs(s).known - {s.info[i].addr})
  {
    NamesAfterDelete(env, s.info, s.news, s.tried, zero, i);
    KnownDelete(s.info, s.ids, i);
  }

  lemma AbsDelete(env: Env, s: State, zero: set<Id>, out: set<Id>, i: Id)
    requires Between(env, s, zero, out) && i in zero && CanDelete(s, i)
    ensures Abs(Delete(env, s, i)) == Abs(s).(known := Abs(s).known - {s.info[i].addr})
  {
    var p, q := s.info[i].randomPos, |s.random| - 1;
    DeleteIsDropLast(env, s, i);
    SwapKeeps(env, s, zero, out, p, q);
    AbsSwap(s, p, q);
    SwapAgrees(s, p, q);
    AbsDropLast(env, SwapRandom(s, p, q), zero, out, i);
  }

  lemma AbsRefChange(s: State, t: State, i: Id)
    requires i in s.info && i in t.info && t.ids == s.ids
    requires t.info == s.info[i := s.info[i].(refCount := t.info[i].refCount)]
    ensures KnownMap(t.info, t.ids) == KnownMap(s.info, s.ids)
    ensures forall table: map<Slot, Id> :: Names(t.info, table) == Names(s.info, table)
  {
    Updated(s.info, i, t.info[i]);
    KnownFrame(s.info, t.info, s.ids);
    forall table: map<Slot, Id>
      ensures Names(t.info, table) == Names(s.info, table)
    {
      NamesAgree(s.info, t.info, table);
    }
  }

  lemma AbsDropSlot(s: State, slot: Slot)
    requires slot in s.news && s.news[slot] in s.info
    ensures Abs(DropSlot(s, slot)) == Abs(s).(news := Abs(s).news - {slot})
  {
    AbsRefChange(s, DropSlot(s, slot), s.news[slot]);
    NamesWithout(s.info, s.news, slot);
  }

  lemma AbsFillSlot(s: State, slot: Slot, i: Id)
    requires i in s.info
    ensures Abs(FillSlot(s, slot, i)) == Abs(s).(news := Abs(s).news[slot := s.info[i].addr])
  {
    AbsRefChange(s, FillSlot(s, slot, i), i);
    NamesWith(s.info, s.news, slot, i);
  }

  /** An entry's last slot is the last place its address is listed. */
  lemma LastSlot(env: Env, s: State, zero: set<Id>, out: set<Id>, slot: Slot)
    requires Between(env, s, zero, out) && slot in s.news
    ensures s.news[slot] in s.info
    ensures var i := s.news[slot]; s.info[i].refCount != 1 <==> Listed(Names(s.info, s.news) - {slot}, s.info[i].addr)
  {
    var i := s.news[slot];
    assert i in s.info && slot in SlotsOf(s.news, i);
    var names := Names(s.info, s.news) - {slot};
    if Listed(names, s.info[i].addr) {
      var t :| t in names && names[t] == s.info[i].addr;
      OneEntry(s, i, s.news[t]);
      assert t in SlotsOf(s.news, i);
      Two(SlotsOf(s.news, i), t, slot);
    }
    if s.info[i].refCount != 1 {
      var t := Another(SlotsOf(s.news, i), slot);
      assert t in names && names[t] == s.info[i].addr;
    }
  }

  lemma Two(a: set<Slot>, t: Slot, u: Slot)
    requires t in a && u in a && t != u
    ensures |a| >= 2
  {
    assert |a - {t}| == |a| - 1 && u in a - {t};
  }

  lemma Another(a: set<Slot>, u: Slot) returns (t: Slot)
    requires u in a && |a| != 1
    ensures t in a && t != u
  {
    assert |a - {u}| == |a| - 1;
    t :| t in a - {u};
  }

  lemma AbsClear(env: Env, s: State, zero: set<Id>, out: set<Id>, slot: Slot)
    requires Between(env, s, zero, out)
    ensures CanClear(s, slot) && Abs(ClearNew(env, s, slot)) == ClearSlot(Abs(s), slot)
  {
    ClearKeeps(env, s, zero, out, slot);
    if slot in s.news {
      var i := s.news[slot];
      LastSlot(env, s, zero, out, slot);
      AbsDropSlot(s, slot);
      if s.info[i].refCount == 1 {
        DropSlotKeeps(env, s, zero, out, slot);
        AbsDelete(env, DropSlot(s, slot), zero + {i}, out, i);
      }
    }
  }

  lemma AbsCount(env: Env, s: State, i: Id, d: int)
    requires i in s.info
    ensures Abs(CountNew(env, s, i, d)) == Abs(s)
  {
  }

  lemma AbsFree(env: Env, s: State, zero: set<Id>, out: set<Id>, i: Id)
    requires Between(env, s, zero, out) && i in s.info
    ensures Abs(Free(env, s, i)) == Unlist(Abs(s), s.info[i].addr)
  {
    var t := Detach(s, i);
    AbsRefChange(s, t, i);
    AbsCount(env, t, i, -1);
    NamesDetach(s, t.news, i);
  }

  lemma NamesDetach(s: State, news': map<Slot, Id>, i: Id)
    requires Indexed(s.info, s.ids) && i in s.info && news' == map t | t in s.news && s.news[t] != i :: s.news[t]
    ensures var news := Names(s.info, s.news);
            Names(s.info, news') == map t | t in news && news[t] != s.info[i].addr :: news[t]
  {
    forall t | t in s.news && s.news[t] in s.info && s.info[s.news[t]].addr == s.info[i].addr
      ensures s.news[t] == i
    {
      OneEntry(s, i, s.news[t]);
    }
  }

  lemma SideKeepsNames(s: State, i: Id, side: bool, table: map<Slot, Id>)
    requires i in s.info
    ensures var info' := s.info[i := s.info[i].(inTried := side)];
            KnownMap(info', s.ids) == KnownMap(s.info, s.ids) && Names(info', table) == Names(s.info, table)
  {
    var x := s.info[i].(inTried := side);
    Updated(s.info, i, x);
    KnownFrame(s.info, s.info[i := x], s.ids);
    NamesAgree(s.info, s.info[i := x], table);
  }

  lemma AbsLeaveTried(env: Env, s: State, slot: Slot)
    requires slot in s.tried && s.tried[slot] in s.info
    ensures Abs(LeaveTried(env, s, slot)) == Abs(s).(tried := Abs(s).tried - {slot})
  {
    SideKeepsNames(s, s.tried[slot], false, s.news);
    SideKeepsNames(s, s.tried[slot], false, s.tried - {slot});
    NamesWithout(s.info, s.tried, slot);
  }

  lemma AbsEnterTried(env: Env, s: State, i: Id)
    requires i in s.info
    ensures var a := s.info[i].addr;
            Abs(EnterTried(env, s, i)) == Abs(s).(tried := Abs(s).tried[TriedSlot(env, a) := a])
  {
    var slot := TriedSlot(env, s.info[i].addr);
    SideKeepsNames(s, i, true, s.news);
    SideKeepsNames(s, i, true, s.tried[slot := i]);
    NamesWith(s.info, s.tried, slot, i);
  }

  lemma AbsNote(s: State, i: Id, x: AddrInfo)
    requires Indexed(s.info, s.ids) && i in s.info && x.addr == s.info[i].addr
    ensures Abs(Note(s, i, x)) == Abs(s).(known := Abs(s).known[x.addr := x.known])
  {
    var info' := s.info[i := x];
    Updated(s.info, i, x);
    NamesAgree(s.info, info', s.news);
    NamesAgree(s.info, info', s.tried);
    KnownNote(s, i, x);
  }

  lemma KnownNote(s: State, i: Id, x: AddrInfo)
    requires Indexed(s.info, s.ids) && i in s.info && x.addr == s.info[i].addr
    ensures KnownMap(s.info[i := x], s.ids) == KnownMap(s.info, s.ids)[x.addr := x.known]
  {
  }
}
