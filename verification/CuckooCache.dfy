/** The cuckoo cache object: bounded eviction with lazy erasure and two epochs. */
module CuckooCache {
  import opened Basics
  import opened CuckooTable
  import opened BitFlags

  /** 45 percent of the slots, computed in 32 bits: the product wraps for large caches. */
  function EpochSize(size: nat): (r: nat)
    ensures r >= 1
  {
    Max(1, (45 * size) % 0x1_0000_0000 / 100)
  }

  /** The nominal 45 percent, but at least one, is met exactly up to 95443717 slots. */
  lemma EpochSizeIsNominalIff(size: nat)
    requires size < 0x1_0000_0000
    ensures EpochSize(size) == Max(1, 45 * size / 100) <==> size <= 95443717
  {
    var p := 45 * size;
    if size > 95443717 {
      assert p >= 0x1_0000_0000;
      var w := p % 0x1_0000_0000;
      assert w <= p - 0x1_0000_0000;
      assert w / 100 < p / 100;
    }
  }

  class Cache {
    const blank: Element
    const size: nat
    const epochSize: nat
    const depthLimit: nat
    const flags: BitPackedAtomicFlags
    var table: seq<Element>
    var epochFlags: seq<bool>
    var counter: nat

    ghost function Contents(): Table
      reads this, flags
    {
      Table(table, flags.bits, epochFlags)
    }

    ghost predicate Sized()
      reads this, flags, flags.mem
    {
      && flags.Valid() && size >= 2 && depthLimit >= 1 && epochSize >= 1
      && |table| == |epochFlags| == |flags.bits| == size
    }

    ghost predicate Valid()
      reads this, flags, flags.mem
    {
      Sized() && Well(Contents(), blank) && Bounded(Contents(), counter, epochSize)
    }

    /** Never more than two epochs are kept. */
    lemma KeptAreFew()
      requires Valid()
      ensures |KeptSlots(flags.bits)| <= 2 * EpochBound(epochSize)
    {
      TwoEpochsAreKept(Contents(), counter, epochSize);
    }

    /** The cache after setup; `depth` is the base-2 logarithm of the size, which floating point computes. */
    constructor (newSize: nat, depth: nat, blank: Element)
      requires depth >= 1
      ensures Valid() && size == Max(2, newSize) && epochSize == EpochSize(size) && counter == epochSize
      ensures fresh(flags) && fresh(flags.mem)
      ensures forall i :: 0 <= i < size ==> table[i] == blank && flags.bits[i]
    {
      var n := Max(2, newSize);
      var f := new BitPackedAtomicFlags(n);
      this.blank, size, depthLimit := blank, n, depth;
      flags := f;
      table := seq(n, i => blank);
      epochFlags := seq(n, i => false);
      epochSize := EpochSize(n);
      counter := EpochSize(n);
      new;
      assert forall i :: 0 <= i < n ==> HomedAt(Contents(), blank, i);
      assert Live(flags.bits, epochFlags) == {} && Aging(flags.bits, epochFlags) == {};
    }

    /** The scan that counts the kept elements of the current epoch. */
    method CountLive() returns (count: nat)
      requires Sized()
      ensures count == |Live(flags.bits, epochFlags)|
    {
      count := 0;
      ghost var seen: set<nat> := {};
      for i := 0 to size
        invariant seen == (set j | 0 <= j < i && !flags.bits[j] && epochFlags[j])
        invariant count == |seen|
      {
        var set_ := flags.BitIsSet(i);
        if epochFlags[i] && !set_ {
          count := count + 1;
          seen := seen + {i};
        }
      }
      assert seen == Live(flags.bits, epochFlags);
    }

    /** The scan that starts a new epoch. */
    method StartEpoch()
      requires Sized()
      modifies this`epochFlags, flags`bits, flags.mem
      ensures Sized() && Contents() == Aged(old(Contents()))
    {
      for i := 0 to size
        invariant Sized()
        invariant forall j :: 0 <= j < i ==>
                  !epochFlags[j] && flags.bits[j] == (old(flags.bits[j]) || !old(epochFlags[j]))
        invariant forall j :: i <= j < size ==>
                  epochFlags[j] == old(epochFlags[j]) && flags.bits[j] == old(flags.bits[j])
      {
        if epochFlags[i] {
          epochFlags := epochFlags[i := false];
        } else {
          flags.BitSet(i);
        }
      }
      assert flags.bits == Aged(old(Contents())).garbage;
      assert epochFlags == Aged(old(Contents())).recent;
    }

    method EpochCheck()
      requires Sized()
      modifies this`epochFlags, this`counter, flags`bits, flags.mem
      ensures Sized() && (Contents(), counter) == EpochStep(old(Contents()), old(counter), epochSize)
    {
      if counter != 0 {
        counter := counter - 1;
        return;
      }
      var unused := CountLive();
      if unused >= epochSize {
        StartEpoch();
        counter := epochSize;
      } else {
        counter := Max(1, Max(epochSize / 16, epochSize - unused));
      }
    }

    /** The first of the eight locations that holds `e`; 8 if none does. */
    method FindCopy(e: Element) returns (k: nat)
      requires Sized()
      ensures k <= 8 && (k < 8 <==> Stored(table, e))
      ensures k < 8 ==> table[Locs(size, e)[k]] == e
    {
      var locs := Locs(size, e);
      k := 0;
      while k < 8 && table[locs[k]] != e
        invariant k <= 8 && forall j :: 0 <= j < k ==> table[locs[j]] != e
      {
        k := k + 1;
      }
    }

    /** The first of the eight locations that may be overwritten; 8 if none may. */
    method FindGarbage(locs: seq<nat>) returns (k: nat)
      requires Sized() && |locs| == 8 && forall j :: 0 <= j < 8 ==> locs[j] < size
      ensures k <= 8 && (forall j :: 0 <= j < k ==> !flags.bits[locs[j]]) && (k < 8 ==> flags.bits[locs[k]])
    {
      k := 0;
      while k < 8
        invariant k <= 8 && forall j :: 0 <= j < k ==> !flags.bits[locs[j]]
      {
        var collectable := flags.BitIsSet(locs[k]);
        if collectable {
          return;
        }
        k := k + 1;
      }
    }

    /** The location to swap with: the one after the first location equal to `lastLoc`.
        When there is none the search ends at 8 and the index wraps to 1. */
    static method NextLoc(locs: seq<nat>, lastLoc: int) returns (at: nat)
      requires |locs| == 8
      ensures at in locs
      ensures lastLoc !in locs ==> at == locs[1]
      ensures forall k :: 0 <= k < 8 && locs[k] == lastLoc && lastLoc !in locs[..k] ==> at == locs[(k + 1) % 8]
    {
      var found := 0;
      while found < 8 && locs[found] != lastLoc
        invariant found <= 8 && lastLoc !in locs[..found]
      {
        found := found + 1;
      }
      at := locs[(1 + found) % 8];
    }

    /** Exchanges `e` with the element in a kept slot. */
    method Exchange(e: Element, at: nat, epoch: bool) returns (out: Element, outEpoch: bool)
      requires Sized() && at < size
      modifies this`table, this`epochFlags
      ensures Sized() && Contents() == Swapped(old(Contents()), e, at, epoch)
      ensures out == old(table)[at] && outEpoch == old(epochFlags)[at]
    {
      out, outEpoch := table[at], epochFlags[at];
      table := table[at := e];
      epochFlags := epochFlags[at := epoch];
    }

    /** Stores `e` in a slot and marks it as kept. */
    method Place(e: Element, loc: nat, epoch: bool)
      requires Sized() && loc < size
      modifies this`table, this`epochFlags, flags`bits, flags.mem
      ensures Sized() && Contents() == Placed(old(Contents()), e, loc, epoch)
    {
      table := table[loc := e];
      flags.BitUnset(loc);
      epochFlags := epochFlags[loc := epoch];
    }

    /** One round: place the carried element in a slot that may be overwritten, or exchange it for the next one. */
    method TryOnce(ghost t0: Table, ghost e0: Element, e: Element, lastLoc: int, lastEpoch: bool)
      returns (done: bool, e': Element, lastLoc': int, lastEpoch': bool)
      requires Sized() && t0.Shaped() && Carrying(t0, e0, Contents(), e, lastEpoch, blank)
      modifies this`table, this`epochFlags, flags`bits, flags.mem
      ensures Sized() && done == old(HasGarbage(Contents(), e))
      ensures if done then Inserted(t0, e0, Contents(), e', lastEpoch', false, blank)
              else Carrying(t0, e0, Contents(), e', lastEpoch', blank)
      ensures done ==> PutFirst(old(Contents()), e, lastEpoch, Contents())
      ensures !done && lastLoc == -1 ==>
        var at := Locs(size, e)[1];
        && Contents() == Swapped(old(Contents()), e, at, lastEpoch)
        && e' == old(table)[at] && lastEpoch' == old(epochFlags)[at]
    {
      var locs := Locs(size, e);
      var k := FindGarbage(locs);
      if k < 8 {
        assert FirstGarbage(Contents(), e, k);
        PlaceInserts(t0, e0, Contents(), e, lastEpoch, blank, locs[k]);
        done, e', lastLoc', lastEpoch' := true, table[locs[k]], lastLoc, epochFlags[locs[k]];
        Place(e, locs[k], lastEpoch);
      } else {
        done := false;
        var at := NextLoc(locs, lastLoc);
        lastLoc' := at;
        SwapCarries(t0, e0, Contents(), e, lastEpoch, blank, at);
        e', lastEpoch' := Exchange(e, at, lastEpoch);
      }
    }

    /** The eviction loop; what it still carries when it runs out of depth is dropped. */
    method Evict(e0: Element) returns (ghost dropped: Element, ghost age: bool, ghost lost: bool)
      requires Sized() && Well(Contents(), blank)
      requires e0 == blank || e0 !in table
      modifies this`table, this`epochFlags, flags`bits, flags.mem
      ensures Sized() && Inserted(old(Contents()), e0, Contents(), dropped, age, lost, blank)
      ensures Begun(old(Contents()), e0, Contents(), dropped, lost, depthLimit)
    {
      var e, lastEpoch := e0, true;
      var lastLoc: int := -1;
      ghost var t0 := Contents();
      ghost var at := Locs(size, e0)[1];
      for depth := 0 to depthLimit
        invariant Sized() && Carrying(t0, e0, Contents(), e, lastEpoch, blank)
        invariant depth == 0 ==> Contents() == t0 && e == e0 && lastEpoch && lastLoc == -1
        invariant depth > 0 ==> !HasGarbage(t0, e0)
        invariant depth == 1 ==>
                  Contents() == Swapped(t0, e0, at, true) && e == t0.slots[at] && lastEpoch == t0.recent[at]
        invariant depth > 1 ==> !HasGarbage(t0, t0.slots[at])
      {
        var done;
        done, e, lastLoc, lastEpoch := TryOnce(t0, e0, e, lastLoc, lastEpoch);
        if done {
          return e, lastEpoch, false;
        }
      }
      dropped, age, lost := e, lastEpoch, true;
    }

    /** One insert: the epoch check, then either a refresh of the stored copy or an eviction run. */
    method Insert(e: Element) returns (ghost slot: nat, ghost dropped: Element, ghost age: bool, ghost lost: bool)
      requires Valid()
      modifies this`table, this`epochFlags, this`counter, flags`bits, flags.mem
      ensures Valid()
      ensures var (t, c) := EpochStep(old(Contents()), old(counter), epochSize);
        && counter == c
        && if Stored(old(table), e) then Refreshed(t, e, Contents(), slot, blank)
           else Inserted(t, e, Contents(), dropped, age, lost, blank)
                && Begun(t, e, Contents(), dropped, lost, depthLimit)
      ensures !lost || dropped != e || depthLimit == 1 ==> IsCurrent(Contents(), e)
      ensures lost ==> !HasGarbage(EpochStep(old(Contents()), old(counter), epochSize).0, e)
    {
      EpochStepLeavesRoom(Contents(), counter, epochSize, blank);
      EpochCheck();
      slot, dropped, age, lost := InsertOrRefresh(e);
    }

    /** What follows the epoch check. */
    method InsertOrRefresh(e: Element)
      returns (ghost slot: nat, ghost dropped: Element, ghost age: bool, ghost lost: bool)
      requires Sized() && Well(Contents(), blank)
      modifies this`table, this`epochFlags, flags`bits, flags.mem
      ensures Sized()
      ensures if Stored(old(table), e) then Refreshed(old(Contents()), e, Contents(), slot, blank)
              else Inserted(old(Contents()), e, Contents(), dropped, age, lost, blank)
                   && Begun(old(Contents()), e, Contents(), dropped, lost, depthLimit)
      ensures !lost || dropped != e || depthLimit == 1 ==> IsCurrent(Contents(), e)
      ensures lost ==> !HasGarbage(old(Contents()), e)
    {
      ghost var t := Contents();
      slot, dropped, age, lost := 0, e, true, false;
      var k := FindCopy(e);
      if k < 8 {
        slot := Locs(size, e)[k];
        RefreshHolds(t, e, Locs(size, e)[k], blank);
        Place(e, Locs(size, e)[k], true);
        RefreshedIsCurrent(t, e, Contents(), slot, blank);
      } else {
        if e != blank {
          StoredIsMember(t, blank, e);
        }
        dropped, age, lost := Evict(e);
        assert depthLimit == 1 && lost ==> dropped == t.slots[Locs(size, e)[1]];
        if !lost || dropped != e {
          InsertedIsCurrent(t, e, Contents(), dropped, age, lost, blank);
        }
      }
    }

    /** Finds every stored element; with `erase`, allows its slot to be overwritten later. */
    method Contains(e: Element, erase: bool) returns (found: bool)
      requires Valid()
      modifies flags`bits, flags.mem
      ensures Valid()
      ensures found <==> Stored(table, e)
      ensures e != blank ==> (found <==> e in table)
      ensures if found && erase then exists k :: 0 <= k < 8 && table[Locs(size, e)[k]] == e &&
                                       flags.bits == old(flags.bits)[Locs(size, e)[k] := true]
              else flags.bits == old(flags.bits)
    {
      var k := FindCopy(e);
      found := k < 8;
      if e != blank {
        StoredIsMember(Contents(), blank, e);
      }
      if found && erase {
        var loc := Locs(size, e)[k];
        EraseKeeps(Contents(), blank, loc, counter, epochSize);
        flags.BitSet(loc);
      }
    }
  }
}
