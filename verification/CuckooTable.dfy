/**
 The contents of a cuckoo cache as values: slots, garbage flags and epoch flags,
 and what one placement does to them.
 */
module CuckooTable {
  import opened Basics
  import opened Numbers

  newtype uint32 = x: int | 0 <= x < 0x1_0000_0000

  type Content(==, !new)

  /** A cached element with what the eight hash functions return for it. */
  datatype Element = Element(content: Content, h0: uint32, h1: uint32, h2: uint32, h3: uint32,
                             h4: uint32, h5: uint32, h6: uint32, h7: uint32)

  /** Maps a 32-bit hash evenly onto [0, n). */
  function FastRange32(x: uint32, n: nat): (r: nat)
    ensures n > 0 ==> r < n
  {
    FastRangeBound(x as int, n);
    x as int * n / 0x1_0000_0000
  }

  lemma FastRangeBound(x: nat, n: nat)
    requires x < 0x1_0000_0000
    ensures n > 0 ==> x * n / 0x1_0000_0000 < n
  {
    if n > 0 {
      assert x * n <= 0xffff_ffff * n by { MulMonotone(x, 0xffff_ffff, n); }
    }
  }

  /** The eight locations of an element in a table of `size` slots. */
  function Locs(size: nat, e: Element): (locs: seq<nat>)
    ensures |locs| == 8 && (size > 0 ==> forall k :: 0 <= k < 8 ==> locs[k] < size)
  {
    [FastRange32(e.h0, size), FastRange32(e.h1, size), FastRange32(e.h2, size), FastRange32(e.h3, size),
     FastRange32(e.h4, size), FastRange32(e.h5, size), FastRange32(e.h6, size), FastRange32(e.h7, size)]
  }

  /** What the k-th hash function returns. */
  ghost function HashOf(e: Element, k: nat): nat
    requires k < 8
  {
    [e.h0, e.h1, e.h2, e.h3, e.h4, e.h5, e.h6, e.h7][k] as int
  }

  /** Each location is its hash, a fraction of 2^32, of the size, rounded down. */
  lemma LocsAreFractions(size: nat, e: Element, k: nat)
    requires k < 8
    ensures Locs(size, e)[k] * 0x1_0000_0000 <= HashOf(e, k) * size < (Locs(size, e)[k] + 1) * 0x1_0000_0000
  {
  }

  /** Slots, the flags that allow a slot to be overwritten, and the flags of the current epoch. */
  datatype Table = Table(slots: seq<Element>, garbage: seq<bool>, recent: seq<bool>) {
    ghost predicate Shaped() { |slots| > 0 && |garbage| == |slots| && |recent| == |slots| }
  }

  /** Kept slots of the current epoch. */
  ghost function Live(garbage: seq<bool>, recent: seq<bool>): set<nat>
    requires |garbage| == |recent|
  {
    set i | 0 <= i < |garbage| && !garbage[i] && recent[i]
  }

  /** Kept slots of the epoch before. */
  ghost function Aging(garbage: seq<bool>, recent: seq<bool>): set<nat>
    requires |garbage| == |recent|
  {
    set i | 0 <= i < |garbage| && !garbage[i] && !recent[i]
  }

  /** The elements of the slots, each with the flag of its epoch. */
  ghost function Tagged(t: Table): (r: seq<(Element, bool)>)
    requires t.Shaped()
    ensures |r| == |t.slots|
  {
    seq(|t.slots|, i requires 0 <= i < |t.slots| => (t.slots[i], t.recent[i]))
  }

  /** What is in kept slots. */
  ghost function Kept<T>(slots: seq<T>, garbage: seq<bool>): multiset<T>
    requires |slots| == |garbage|
  {
    if slots == [] then multiset{}
    else Copy(slots[0], garbage[0]) + Kept(slots[1..], garbage[1..])
  }

  /** The kept elements, each with its epoch. */
  ghost function KeptElements(t: Table): multiset<(Element, bool)>
    requires t.Shaped()
  {
    Kept(Tagged(t), t.garbage)
  }

  lemma {:induction false} KeptIsInSlot<T>(slots: seq<T>, garbage: seq<bool>, x: T)
    requires |slots| == |garbage|
    ensures x in Kept(slots, garbage) <==> exists i :: 0 <= i < |slots| && !garbage[i] && slots[i] == x
  {
    if slots != [] {
      KeptIsInSlot(slots[1..], garbage[1..], x);
      if i :| 0 <= i < |slots| && !garbage[i] && slots[i] == x {
        assert i > 0 ==> !garbage[1..][i - 1] && slots[1..][i - 1] == x;
      }
      if i :| 0 <= i < |slots| - 1 && !garbage[1..][i] && slots[1..][i] == x {
        assert !garbage[i + 1] && slots[i + 1] == x;
      }
    }
  }

  /** The element is in a kept slot of the current epoch. */
  ghost predicate IsCurrent(t: Table, e: Element) {
    t.Shaped() && exists i :: 0 <= i < |t.slots| && t.slots[i] == e && !t.garbage[i] && t.recent[i]
  }

  lemma KeptIsCurrent(t: Table, e: Element)
    requires t.Shaped() && (e, true) in KeptElements(t)
    ensures IsCurrent(t, e)
  {
    KeptIsInSlot(Tagged(t), t.garbage, (e, true));
    var i :| 0 <= i < |t.slots| && !t.garbage[i] && Tagged(t)[i] == (e, true);
    assert t.slots[i] == e && t.recent[i];
  }

  ghost predicate HomedAt(t: Table, blank: Element, i: nat)
    requires t.Shaped() && i < |t.slots|
  {
    (t.garbage[i] && t.slots[i] == blank) || i in Locs(|t.slots|, t.slots[i])
  }

  /** Every slot holds an element at one of its own locations, or has never been written. */
  ghost predicate Homed(t: Table, blank: Element)
    requires t.Shaped()
  {
    forall i :: 0 <= i < |t.slots| ==> HomedAt(t, blank, i)
  }

  /** No element but the default one is in two slots. */
  ghost predicate Unique(slots: seq<Element>, blank: Element) {
    forall i, j :: 0 <= i < j < |slots| && slots[i] == slots[j] ==> slots[i] == blank
  }

  ghost predicate Well(t: Table, blank: Element) {
    t.Shaped() && Homed(t, blank) && Unique(t.slots, blank)
  }

  /** An element not found at its eight locations is nowhere in the table. */
  lemma AbsentEverywhere(t: Table, blank: Element, e: Element)
    requires Well(t, blank) && e != blank
    requires forall k :: 0 <= k < 8 ==> t.slots[Locs(|t.slots|, e)[k]] != e
    ensures e !in t.slots
  {
    forall i | 0 <= i < |t.slots|
      ensures t.slots[i] != e
    {
      assert HomedAt(t, blank, i);
    }
  }

  // ----- updates

  lemma LiveUpdate(garbage: seq<bool>, recent: seq<bool>, i: nat, g: bool, r: bool)
    requires |garbage| == |recent| && i < |garbage|
    ensures var was, now := Live(garbage, recent), Live(garbage[i := g], recent[i := r]);
      && now == (if !g && r then was + {i} else was - {i})
      && |now| == |was| - (if !garbage[i] && recent[i] then 1 else 0) + (if !g && r then 1 else 0)
  {
    var was, now := Live(garbage, recent), Live(garbage[i := g], recent[i := r]);
    assert i in was <==> !garbage[i] && recent[i];
    assert forall j :: 0 <= j < |garbage| && j != i ==>
           garbage[i := g][j] == garbage[j] && recent[i := r][j] == recent[j];
    assert now == if !g && r then was + {i} else was - {i};
  }

  lemma AgingUpdate(garbage: seq<bool>, recent: seq<bool>, i: nat, g: bool, r: bool)
    requires |garbage| == |recent| && i < |garbage|
    ensures var was, now := Aging(garbage, recent), Aging(garbage[i := g], recent[i := r]);
      && now == (if !g && !r then was + {i} else was - {i})
      && |now| == |was| - (if !garbage[i] && !recent[i] then 1 else 0) + (if !g && !r then 1 else 0)
  {
    var was, now := Aging(garbage, recent), Aging(garbage[i := g], recent[i := r]);
    assert i in was <==> !garbage[i] && !recent[i];
    assert forall j :: 0 <= j < |garbage| && j != i ==>
           garbage[i := g][j] == garbage[j] && recent[i := r][j] == recent[j];
    assert now == if !g && !r then was + {i} else was - {i};
  }

  ghost function Copy<T>(e: T, g: bool): multiset<T> { if g then multiset{} else multiset{e} }

  lemma Exchange<T>(a: multiset<T>, b: multiset<T>, c: multiset<T>, d: multiset<T>, f: multiset<T>)
    requires b + c == d + f
    ensures (a + b) + c == (a + d) + f
  {
    assert (a + b) + c == a + (b + c);
    assert (a + d) + f == a + (d + f);
  }

  lemma {:induction false} KeptUpdate<T>(slots: seq<T>, garbage: seq<bool>, i: nat, e: T, g: bool)
    requires |slots| == |garbage| && i < |slots|
    ensures Kept(slots[i := e], garbage[i := g]) + Copy(slots[i], garbage[i]) == Kept(slots, garbage) + Copy(e, g)
  {
    var slots', garbage' := slots[i := e], garbage[i := g];
    var rest, rest' := Kept(slots[1..], garbage[1..]), Kept(slots'[1..], garbage'[1..]);
    assert Kept(slots, garbage) == Copy(slots[0], garbage[0]) + rest;
    assert Kept(slots', garbage') == Copy(slots'[0], garbage'[0]) + rest';
    if i == 0 {
      assert slots'[1..] == slots[1..] && garbage'[1..] == garbage[1..];
    } else {
      assert slots'[1..] == slots[1..][i - 1 := e] && garbage'[1..] == garbage[1..][i - 1 := g];
      KeptUpdate(slots[1..], garbage[1..], i - 1, e, g);
      Exchange(Copy(slots[0], garbage[0]), rest', Copy(slots[i], garbage[i]), rest, Copy(e, g));
    }
  }

  lemma PlacedTags(t: Table, e: Element, i: nat, epoch: bool)
    requires t.Shaped() && i < |t.slots|
    ensures Tagged(Placed(t, e, i, epoch)) == Tagged(t)[i := (e, epoch)]
    ensures Tagged(t)[i] == (t.slots[i], t.recent[i])
  {
  }

  lemma PlacedKept(t: Table, e: Element, i: nat, epoch: bool)
    requires t.Shaped() && i < |t.slots|
    ensures KeptElements(Placed(t, e, i, epoch)) + Copy((t.slots[i], t.recent[i]), t.garbage[i])
         == KeptElements(t) + multiset{(e, epoch)}
  {
    KeptUpdate(Tagged(t), t.garbage, i, (e, epoch), false);
    PlacedTags(t, e, i, epoch);
  }

  lemma SlotsUpdate(slots: seq<Element>, i: nat, e: Element)
    requires i < |slots|
    ensures multiset(slots[i := e]) + multiset{slots[i]} == multiset(slots) + multiset{e}
  {
  }

  /** Putting an absent element at one of its locations keeps the table well formed. */
  lemma PlaceKeepsWell(t: Table, blank: Element, e: Element, i: nat, r: bool)
    requires Well(t, blank) && i < |t.slots| && i in Locs(|t.slots|, e)
    requires e == blank || e !in t.slots
    ensures Well(Table(t.slots[i := e], t.garbage[i := false], t.recent[i := r]), blank)
  {
    var t' := Table(t.slots[i := e], t.garbage[i := false], t.recent[i := r]);
    forall j | 0 <= j < |t.slots|
      ensures HomedAt(t', blank, j)
    {
      assert HomedAt(t, blank, j);
    }
  }

  /** What leaves a kept slot is absent from the rest. */
  lemma SwapOutAbsent(slots: seq<Element>, blank: Element, e: Element, i: nat)
    requires Unique(slots, blank) && i < |slots| && (e == blank || e !in slots)
    ensures slots[i] == blank || slots[i] !in slots[i := e]
  {
  }

  // ----- the carried element of an insert

  /** Along an insert into `t0`: `e` is out of the table, everything else of `t0` plus `e0` is in it. */
  ghost predicate Carrying(t0: Table, e0: Element, t: Table, e: Element, epoch: bool, blank: Element)
    requires t0.Shaped()
  {
    && Well(t, blank) && |t.slots| == |t0.slots| && t.garbage == t0.garbage
    && (e == blank || e !in t.slots)
    && multiset(t.slots) + multiset{e} == multiset(t0.slots) + multiset{e0}
    && KeptElements(t) + multiset{(e, epoch)} == KeptElements(t0) + multiset{(e0, true)}
    && |Live(t.garbage, t.recent)| + (if epoch then 1 else 0) == |Live(t0.garbage, t0.recent)| + 1
    && |Aging(t.garbage, t.recent)| + (if epoch then 0 else 1) == |Aging(t0.garbage, t0.recent)|
  }

  ghost function Swapped(t: Table, e: Element, i: nat, epoch: bool): Table
    requires t.Shaped() && i < |t.slots|
  {
    Table(t.slots[i := e], t.garbage, t.recent[i := epoch])
  }

  ghost function Placed(t: Table, e: Element, i: nat, epoch: bool): Table
    requires t.Shaped() && i < |t.slots|
  {
    Table(t.slots[i := e], t.garbage[i := false], t.recent[i := epoch])
  }

  lemma SwapCarries(t0: Table, e0: Element, t: Table, e: Element, epoch: bool, blank: Element, i: nat)
    requires t0.Shaped() && Carrying(t0, e0, t, e, epoch, blank)
    requires i < |t.slots| && i in Locs(|t.slots|, e) && !t.garbage[i]
    ensures Carrying(t0, e0, Swapped(t, e, i, epoch), t.slots[i], t.recent[i], blank)
  {
    assert t.garbage[i := false] == t.garbage;
    PlaceKeepsWell(t, blank, e, i, epoch);
    SwapOutAbsent(t.slots, blank, e, i);
    SlotsUpdate(t.slots, i, e);
    PlacedKept(t, e, i, epoch);
    LiveUpdate(t.garbage, t.recent, i, false, epoch);
    AgingUpdate(t.garbage, t.recent, i, false, epoch);
  }

  /** What an insert of an element that was not stored does: it comes in, in the current epoch, and `dropped`
      goes out; `lost` says whether what went out was a kept element, of the epoch `age`. */
  ghost predicate Inserted(t0: Table, e0: Element, t: Table, dropped: Element, age: bool, lost: bool, blank: Element)
    requires t0.Shaped()
  {
    && Well(t, blank) && |t.slots| == |t0.slots|
    && multiset(t.slots) + multiset{dropped} == multiset(t0.slots) + multiset{e0}
    && KeptElements(t) + (if lost then multiset{(dropped, age)} else multiset{})
       == KeptElements(t0) + multiset{(e0, true)}
    && |Live(t.garbage, t.recent)| <= |Live(t0.garbage, t0.recent)| + 1
    && |Aging(t.garbage, t.recent)| <= |Aging(t0.garbage, t0.recent)|
  }

  lemma PlaceInserts(t0: Table, e0: Element, t: Table, e: Element, epoch: bool, blank: Element, i: nat)
    requires t0.Shaped() && Carrying(t0, e0, t, e, epoch, blank)
    requires i < |t.slots| && i in Locs(|t.slots|, e) && t.garbage[i]
    ensures Inserted(t0, e0, Placed(t, e, i, epoch), t.slots[i], t.recent[i], false, blank)
  {
    PlaceKeepsWell(t, blank, e, i, epoch);
    SlotsUpdate(t.slots, i, e);
    PlacedKept(t, e, i, epoch);
    LiveUpdate(t.garbage, t.recent, i, false, epoch);
    AgingUpdate(t.garbage, t.recent, i, false, epoch);
  }

  /** Unless it is itself what is dropped, the new element is kept, in the current epoch. */
  lemma InsertedIsCurrent(t0: Table, e0: Element, t: Table, dropped: Element, age: bool, lost: bool, blank: Element)
    requires t0.Shaped() && Inserted(t0, e0, t, dropped, age, lost, blank) && (!lost || dropped != e0)
    ensures IsCurrent(t, e0)
  {
    assert (e0, true) in KeptElements(t0) + multiset{(e0, true)};
    KeptIsCurrent(t, e0);
  }

  // ----- where an insert begins

  ghost predicate HasGarbage(t: Table, e: Element)
    requires t.Shaped()
  {
    exists k :: 0 <= k < 8 && t.garbage[Locs(|t.slots|, e)[k]]
  }

  /** The k-th location of the element may be overwritten, and none before it. */
  ghost predicate FirstGarbage(t: Table, e: Element, k: int)
    requires t.Shaped()
  {
    && 0 <= k < 8 && t.garbage[Locs(|t.slots|, e)[k]]
    && forall j :: 0 <= j < k ==> !t.garbage[Locs(|t.slots|, e)[j]]
  }

  /** The element is put at the first of its locations that may be overwritten. */
  ghost predicate PutFirst(t0: Table, e: Element, epoch: bool, t: Table)
    requires t0.Shaped()
  {
    exists k :: FirstGarbage(t0, e, k) && t == Placed(t0, e, Locs(|t0.slots|, e)[k], epoch)
  }

  /**
   * How an insert begins, with at most `depth` rounds. If a location of the new element may be overwritten,
   * the first such one is. Otherwise the new element takes the place of the one at its second location. If a
   * location of that one may be overwritten, it goes there; with one round only, it is dropped.
   */
  ghost predicate Begun(t0: Table, e0: Element, t: Table, dropped: Element, lost: bool, depth: nat)
    requires t0.Shaped()
  {
    var at := Locs(|t0.slots|, e0)[1];
    if HasGarbage(t0, e0) then depth >= 1 ==> !lost && PutFirst(t0, e0, true, t)
    else
      && (HasGarbage(t0, t0.slots[at]) && depth >= 2 ==>
            !lost && PutFirst(Swapped(t0, e0, at, true), t0.slots[at], t0.recent[at], t))
      && (depth == 1 ==> lost && dropped == t0.slots[at] && t == Swapped(t0, e0, at, true))
  }

  /** What an insert of a stored element does: nothing but mark one copy as kept and current. */
  ghost predicate Refreshed(t0: Table, e0: Element, t: Table, i: nat, blank: Element)
    requires t0.Shaped()
  {
    && i < |t0.slots| && i in Locs(|t0.slots|, e0) && t0.slots[i] == e0
    && t == Placed(t0, e0, i, true) && Well(t, blank) && t.slots == t0.slots
    && |Live(t.garbage, t.recent)| <= |Live(t0.garbage, t0.recent)| + 1
    && |Aging(t.garbage, t.recent)| <= |Aging(t0.garbage, t0.recent)|
  }

  lemma RefreshHolds(t: Table, e: Element, i: nat, blank: Element)
    requires Well(t, blank) && i < |t.slots| && i in Locs(|t.slots|, e) && t.slots[i] == e
    ensures Refreshed(t, e, Placed(t, e, i, true), i, blank)
  {
    var t' := Placed(t, e, i, true);
    assert t'.slots == t.slots;
    forall j | 0 <= j < |t.slots|
      ensures HomedAt(t', blank, j)
    {
      assert HomedAt(t, blank, j);
    }
    LiveUpdate(t.garbage, t.recent, i, false, true);
    AgingUpdate(t.garbage, t.recent, i, false, true);
  }

  lemma RefreshedIsCurrent(t0: Table, e0: Element, t: Table, i: nat, blank: Element)
    requires t0.Shaped() && Refreshed(t0, e0, t, i, blank)
    ensures IsCurrent(t, e0)
  {
    assert t.slots[i] == e0 && !t.garbage[i] && t.recent[i];
  }

  // ----- epochs

  /** The next epoch: what was aging may be overwritten, what was current is aging. */
  ghost function Aged(t: Table): (r: Table)
    requires t.Shaped()
    ensures r.Shaped()
  {
    Table(t.slots,
          seq(|t.slots|, i requires 0 <= i < |t.slots| => t.garbage[i] || !t.recent[i]),
          seq(|t.slots|, i => false))
  }

  lemma AgedHolds(t: Table, blank: Element)
    requires Well(t, blank)
    ensures Well(Aged(t), blank)
    ensures Live(Aged(t).garbage, Aged(t).recent) == {}
    ensures Aging(Aged(t).garbage, Aged(t).recent) == Live(t.garbage, t.recent)
  {
    forall i | 0 <= i < |t.slots|
      ensures HomedAt(Aged(t), blank, i)
    {
      assert HomedAt(t, blank, i);
    }
  }

  /** One epoch may grow to a sixteenth more than its nominal size. */
  function EpochBound(epochSize: nat): nat {
    epochSize + if epochSize / 16 > 1 then epochSize / 16 else 1
  }

  /** Room left before the next scan plus the current epoch stays within one epoch's bound; so does the epoch before. */
  ghost predicate Bounded(t: Table, counter: nat, epochSize: nat)
    requires t.Shaped()
  {
    && |Live(t.garbage, t.recent)| + counter <= EpochBound(epochSize)
    && |Aging(t.garbage, t.recent)| <= EpochBound(epochSize)
  }

  /** The entries that are not garbage, of either epoch. */
  ghost function KeptSlots(garbage: seq<bool>): set<nat> {
    set i | 0 <= i < |garbage| && !garbage[i]
  }

  /** Kept entries overall never exceed two epochs' bounds. */
  lemma TwoEpochsAreKept(t: Table, counter: nat, epochSize: nat)
    requires t.Shaped() && Bounded(t, counter, epochSize)
    ensures |KeptSlots(t.garbage)| <= 2 * EpochBound(epochSize)
  {
    assert KeptSlots(t.garbage) == Live(t.garbage, t.recent) + Aging(t.garbage, t.recent);
  }

  /** Table and counter after the check that precedes every insert. */
  ghost function EpochStep(t: Table, counter: nat, epochSize: nat): (r: (Table, nat))
    requires t.Shaped()
    ensures r.0.Shaped() && r.0.slots == t.slots
  {
    var live := |Live(t.garbage, t.recent)|;
    if counter != 0 then (t, counter - 1)
    else if live >= epochSize then (Aged(t), epochSize)
    else (t, Max(1, Max(epochSize / 16, epochSize - live)))
  }

  /**
   * The table is scanned only when the counter has run out. A full epoch ends; otherwise the next scan is due when
   * the epoch can be full, but not before a sixteenth of it and at least one insert.
   */
  lemma EpochStepInNumbers(t: Table, counter: nat, epochSize: nat)
    requires t.Shaped()
    ensures var r, live := EpochStep(t, counter, epochSize), |Live(t.garbage, t.recent)|;
      && (counter > 0 ==> r.0 == t && r.1 == counter - 1)
      && (counter == 0 && live >= epochSize ==> r.1 == epochSize && Live(r.0.garbage, r.0.recent) == {}
                                                && Aging(r.0.garbage, r.0.recent) == Live(t.garbage, t.recent))
      && (counter == 0 && live < epochSize ==>
            && r.0 == t && r.1 >= 1 && r.1 >= epochSize / 16 && live + r.1 >= epochSize
            && (r.1 == 1 || r.1 == epochSize / 16 || live + r.1 == epochSize))
  {
  }

  /** After the check there is room for one more element in the current epoch. */
  lemma EpochStepLeavesRoom(t: Table, counter: nat, epochSize: nat, blank: Element)
    requires Well(t, blank) && Bounded(t, counter, epochSize) && epochSize > 0
    ensures var (t', counter') := EpochStep(t, counter, epochSize);
      && Well(t', blank)
      && |Live(t'.garbage, t'.recent)| + 1 + counter' <= EpochBound(epochSize)
      && |Aging(t'.garbage, t'.recent)| <= EpochBound(epochSize)
  {
    AgedHolds(t, blank);
  }

  ghost predicate Stored(slots: seq<Element>, e: Element)
    requires |slots| > 0
  {
    exists k :: 0 <= k < 8 && slots[Locs(|slots|, e)[k]] == e
  }

  /** Looking at the eight locations decides membership of every element but the default one. */
  lemma StoredIsMember(t: Table, blank: Element, e: Element)
    requires Well(t, blank) && e != blank
    ensures Stored(t.slots, e) <==> e in t.slots
  {
    if !Stored(t.slots, e) {
      AbsentEverywhere(t, blank, e);
    }
  }

  /** Erasing marks a slot that holds one of its own elements, and can only shrink the epochs. */
  lemma EraseKeeps(t: Table, blank: Element, i: nat, counter: nat, epochSize: nat)
    requires Well(t, blank) && Bounded(t, counter, epochSize) && i < |t.slots|
    ensures var t' := Table(t.slots, t.garbage[i := true], t.recent);
            Well(t', blank) && Bounded(t', counter, epochSize)
  {
    var t' := Table(t.slots, t.garbage[i := true], t.recent);
    forall j | 0 <= j < |t.slots|
      ensures HomedAt(t', blank, j)
    {
      assert HomedAt(t, blank, j);
    }
    assert t.recent[i := t.recent[i]] == t.recent;
    LiveUpdate(t.garbage, t.recent, i, true, t.recent[i]);
    AgingUpdate(t.garbage, t.recent, i, true, t.recent[i]);
  }
}
