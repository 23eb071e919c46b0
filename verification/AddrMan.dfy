/** The address manager: its tables, indexes and counters, updated in place. */
module AddrMan {
  import opened Basics
  import opened Numbers
  import opened AddrState
  import opened AddrSteps
  import opened AddrOps
  import opened AddrRules
  import opened AddrEvents
  import opened AddrLaws
  import opened AddrBook
  import opened AddrRefines
  import opened AddrRuns
  import opened AddrLoops
  import opened AddrCheck
  import opened AddrFile
  import opened AddrLoad
  import opened AddrDisk
  import opened AddrAccepted

  class AddrManImpl {
    const env: Env
    var nIdCount: nat
    var mapInfo: map<Id, AddrInfo>
    var mapAddr: map<Service, Id>
    var vRandom: seq<Id>
    var nTried: int
    var vvTried: map<Slot, Id>
    var nNew: int
    var vvNew: map<Slot, Id>
    var lastGood: int
    var triedCollisions: set<Id>
    var networkCounts: map<Network, Counts>

    /** All fields as one value; an empty slot, -1 in the tables, is absent from the maps. */
    ghost function S(): State
      reads this
    {
      State(nIdCount, mapInfo, mapAddr, vRandom, vvTried, nTried, vvNew, nNew, lastGood, triedCollisions, networkCounts)
    }

    constructor (env: Env)
      ensures this.env == env && S() == EMPTY
    {
      this.env := env;
      nIdCount, mapInfo, mapAddr, vRandom := 0, map[], map[], [];
      nTried, vvTried, nNew, vvNew := 0, map[], 0, map[];
      lastGood, triedCollisions, networkCounts := 1, {}, map[];
    }

    // ----- elementary steps

    method Find(addr: Service) returns (found: bool, nId: Id)
      ensures found <==> addr in mapAddr && mapAddr[addr] in mapInfo
      ensures found ==> nId == mapAddr[addr]
    {
      if addr !in mapAddr {
        return false, 0;
      }
      return mapAddr[addr] in mapInfo, mapAddr[addr];
    }

    method CountNetwork(n: Network, dNew: int, dTried: int)
      modifies this
      ensures S() == old(S()).(counts := Bump(old(networkCounts), n, dNew, dTried))
    {
      var c := if n in networkCounts then networkCounts[n] else Counts(0, 0);
      networkCounts := networkCounts[n := Counts(c.nNew + dNew, c.nTried + dTried)];
    }

    method Create(addr: Service, known: Known) returns (nId: Id)
      modifies this
      ensures S() == AddrState.Create(env, old(S()), addr, known) && nId == old(nIdCount)
    {
      nId := nIdCount;
      nIdCount := nIdCount + 1;
      mapInfo := mapInfo[nId := AddrInfo(addr, known, 0, false, |vRandom|)];
      mapAddr := mapAddr[addr := nId];
      vRandom := vRandom + [nId];
      nNew := nNew + 1;
      CountNetwork(NetworkOf(env, addr), 1, 0);
    }

    method SwapRandom(nRndPos1: nat, nRndPos2: nat)
      requires CanSwap(S(), nRndPos1, nRndPos2)
      modifies this
      ensures S() == AddrState.SwapRandom(old(S()), nRndPos1, nRndPos2)
    {
      if nRndPos1 == nRndPos2 {
        return;
      }
      var nId1, nId2 := vRandom[nRndPos1], vRandom[nRndPos2];
      mapInfo := mapInfo[nId1 := mapInfo[nId1].(randomPos := nRndPos2)];
      mapInfo := mapInfo[nId2 := mapInfo[nId2].(randomPos := nRndPos1)];
      vRandom := vRandom[nRndPos1 := nId2];
      vRandom := vRandom[nRndPos2 := nId1];
    }

    method PopLast(nId: Id)
      requires nId in mapInfo && |vRandom| > 0
      modifies this
      ensures S() == DropLast(env, old(S()), nId)
    {
      var addr := mapInfo[nId].addr;
      CountNetwork(NetworkOf(env, addr), -1, 0);
      vRandom := vRandom[..|vRandom| - 1];
      mapAddr := mapAddr - {addr};
      mapInfo := mapInfo - {nId};
      nNew := nNew - 1;
    }

    method Delete(nId: Id)
      requires CanDelete(S(), nId)
      modifies this
      ensures S() == AddrState.Delete(env, old(S()), nId)
    {
      ghost var s := S();
      DeleteIsDropLast(env, s, nId);
      SwapRandom(mapInfo[nId].randomPos, |vRandom| - 1);
      PopLast(nId);
    }

    method ClearNew(slot: Slot)
      requires CanClear(S(), slot)
      modifies this
      ensures S() == AddrState.ClearNew(env, old(S()), slot)
    {
      if slot in vvNew {
        var nIdDelete := vvNew[slot];
        ghost var s := S();
        mapInfo := mapInfo[nIdDelete := mapInfo[nIdDelete].(refCount := mapInfo[nIdDelete].refCount - 1)];
        vvNew := vvNew - {slot};
        assert S() == DropSlot(s, slot);
        if mapInfo[nIdDelete].refCount == 0 {
          Delete(nIdDelete);
        }
      }
    }

    // ----- moving to the tried table

    /** Takes an entry out of one bucket of the new table, if it is there. */
    method LeaveBucket(nId: Id, slot: Slot) returns (found: bool)
      requires nId in mapInfo
      modifies this
      ensures S() == LeftBucket(old(S()), nId, slot)
      ensures found <==> slot in old(vvNew) && old(vvNew)[slot] == nId
    {
      found := slot in vvNew && vvNew[slot] == nId;
      if found {
        vvNew := vvNew - {slot};
        mapInfo := mapInfo[nId := mapInfo[nId].(refCount := mapInfo[nId].refCount - 1)];
      }
    }

    /** Takes an entry out of all buckets of the new table, starting with that of its own source. */
    method LeaveBuckets(nId: Id)
      requires NewPlaced(env, mapInfo, vvNew) && nId in mapInfo && mapInfo[nId].refCount == |SlotsOf(vvNew, nId)|
      modifies this
      ensures S() == Detach(old(S()), nId)
    {
      ghost var s := S();
      var addr := mapInfo[nId].addr;
      var start := NewBucket(env, addr, mapInfo[nId].known.source);
      var n := 0;
      LeavingStarts(env, s, nId, start);
      while n < env.newBuckets
        invariant n <= env.newBuckets && Leaving(env, s, S(), nId, start, n)
      {
        var bucket := (start + n) % env.newBuckets;
        var slot := Slot(bucket, NewPos(env, addr, bucket));
        LeavingStep(env, s, S(), nId, start, n, slot);
        n := n + 1;
        var found := LeaveBucket(nId, slot);
        if found && mapInfo[nId].refCount == 0 {
          break;
        }
      }
      LeavingEnds(env, s, S(), nId, start, n);
    }

    /** Moves the entry in a tried slot back to the new table. */
    method EvictFrom(slot: Slot)
      requires CleanEvict(env, S(), slot)
      modifies this
      ensures S() == Evict(env, old(S()), slot)
    {
      var nIdEvict := vvTried[slot];
      var home := HomeSlot(env, mapInfo[nIdEvict]);
      TakeFromTried(nIdEvict, slot);
      ClearNew(home);
      PutBack(nIdEvict, home);
    }

    method PutBack(nIdEvict: Id, home: Slot)
      requires nIdEvict in mapInfo && mapInfo[nIdEvict].refCount == 0
      modifies this
      ensures S() == FillSlot(CountNew(env, old(S()), nIdEvict, 1), home, nIdEvict)
    {
      mapInfo := mapInfo[nIdEvict := mapInfo[nIdEvict].(refCount := 1)];
      vvNew := vvNew[home := nIdEvict];
      nNew := nNew + 1;
      CountNetwork(NetworkOf(env, mapInfo[nIdEvict].addr), 1, 0);
    }

    method TakeFromTried(nIdEvict: Id, slot: Slot)
      requires slot in vvTried && vvTried[slot] == nIdEvict && nIdEvict in mapInfo
      modifies this
      ensures S() == LeaveTried(env, old(S()), slot)
    {
      mapInfo := mapInfo[nIdEvict := mapInfo[nIdEvict].(inTried := false)];
      vvTried := vvTried - {slot};
      nTried := nTried - 1;
      CountNetwork(NetworkOf(env, mapInfo[nIdEvict].addr), 0, -1);
    }

    method PutInTried(nId: Id, slot: Slot)
      requires nId in mapInfo && slot == TriedSlot(env, mapInfo[nId].addr)
      modifies this
      ensures S() == EnterTried(env, old(S()), nId)
    {
      vvTried := vvTried[slot := nId];
      nTried := nTried + 1;
      mapInfo := mapInfo[nId := mapInfo[nId].(inTried := true)];
      CountNetwork(NetworkOf(env, mapInfo[nId].addr), 0, 1);
    }

    /** Moves an entry from the new to the tried table. */
    method MakeTried(nId: Id)
      requires MovesCleanly(env, S(), nId)
      modifies this
      ensures S() == AddrOps.MakeTried(env, old(S()), nId)
    {
      MoveStages(env, S(), nId);
      var slot := TriedSlot(env, mapInfo[nId].addr);
      LeaveNew(nId);
      if slot in vvTried {
        EvictFrom(slot);
      }
      PutInTried(nId, slot);
    }

    method LeaveNew(nId: Id)
      requires NewPlaced(env, mapInfo, vvNew) && nId in mapInfo && mapInfo[nId].refCount == |SlotsOf(vvNew, nId)|
      modifies this
      ensures S() == Free(env, old(S()), nId)
    {
      LeaveBuckets(nId);
      nNew := nNew - 1;
      CountNetwork(NetworkOf(env, mapInfo[nId].addr), -1, 0);
    }

    // ----- adding addresses

    /** Notes what an announcement says about an entry. */
    method HearAbout(nId: Id, addr: Announced, penalty: int, now: int)
      requires nId in mapInfo
      modifies this
      ensures S() == Hear(old(S()), nId, addr, penalty, now)
    {
      var info := mapInfo[nId];
      var currentlyOnline := now - addr.time < DAY;
      var updateInterval := if currentlyOnline then HOUR else DAY;
      var time := info.known.time;
      if time < addr.time - updateInterval - penalty {
        time := Max(0, addr.time - penalty);
      }
      mapInfo := mapInfo[nId := info.(known := info.known.(time := time,
                                                           services := info.known.services + addr.services))];
    }

    /** Enters an entry into a slot of the new table, or forgets an entry that gets none. */
    method PlaceInNew(nId: Id, slot: Slot, now: int) returns (fInsert: bool)
      requires CanPlace(env, S(), nId, slot)
      modifies this
      ensures (S(), fInsert) == Place(env, old(S()), nId, slot, now)
    {
      fInsert := slot !in vvNew;
      if slot !in vvNew || vvNew[slot] != nId {
        if !fInsert {
          var existing := mapInfo[vvNew[slot]];
          if IsTerrible(existing.known, now) || (existing.refCount > 1 && mapInfo[nId].refCount == 0) {
            fInsert := true;
          }
        }
        if fInsert {
          ClearNew(slot);
          mapInfo := mapInfo[nId := mapInfo[nId].(refCount := mapInfo[nId].refCount + 1)];
          vvNew := vvNew[slot := nId];
        } else if mapInfo[nId].refCount == 0 {
          Delete(nId);
        }
      }
    }

    /** Creates an entry with the penalty taken off its time. */
    method CreatePenalised(addr: Announced, source: NetAddr, penalty: int) returns (nId: Id)
      modifies this
      ensures S() == AddrState.Create(env, old(S()), addr.addr, FirstHeard(addr, source, penalty))
              && nId == old(nIdCount)
    {
      nId := Create(addr.addr, Known(addr.services, addr.time, source, 0, 0, 0, 0));
      var info := mapInfo[nId];
      mapInfo := mapInfo[nId := info.(known := info.known.(time := Max(0, info.known.time - penalty)))];
    }

    /** Whether the stochastic test against further slots fails; `roll` is drawn below two to the number of slots. */
    method Unlucky(refCount: int, roll: nat) returns (unlucky: bool)
      ensures unlucky <==> refCount > 0 && roll != 0
    {
      var nFactor := 1;
      var n := 0;
      while n < refCount
        invariant 0 <= n && (n <= refCount || n == 0) && nFactor == Pow2(n)
      {
        nFactor := nFactor * 2;
        n := n + 1;
      }
      unlucky := nFactor > 1 && roll != 0;
    }

    /** Adds one announced address. The clock and the random draw are parameters. */
    method AddSingle(addr: Announced, source: NetAddr, timePenalty: int, now: int, roll: nat) returns (fInsert: bool)
      requires Inv(env, S())
      modifies this
      ensures Inv(env, S()) && vvTried == old(vvTried)
      ensures addr.addr.ip in env.routable ==>
              CanAdd(env, old(S()), addr, source, Penalty(addr, source, timePenalty), now, roll)
      ensures (S(), fInsert) == AddrRules.AddSingle(env, old(S()), addr, source, timePenalty, now, roll)
      ensures (Abs(S()), fInsert) == AddTo(env, old(Abs(S())), addr, source, timePenalty, now, roll)
    {
      AddSingleKeeps(env, S(), addr, source, timePenalty, now, roll);
      AbsAddSingle(env, S(), addr, source, timePenalty, now, roll);
      fInsert := AddOne(addr, source, timePenalty, now, roll);
    }

    method AddOne(addr: Announced, source: NetAddr, timePenalty: int, now: int, roll: nat) returns (fInsert: bool)
      requires addr.addr.ip in env.routable ==>
               CanAdd(env, S(), addr, source, Penalty(addr, source, timePenalty), now, roll)
      modifies this
      ensures (S(), fInsert) == AddrRules.AddSingle(env, old(S()), addr, source, timePenalty, now, roll)
    {
      if addr.addr.ip !in env.routable {
        return false;
      }
      var found, nId := Find(addr.addr);
      var penalty := if addr.addr.ip == source then 0 else timePenalty;
      if found {
        HearAbout(nId, addr, penalty, now);
        var info := mapInfo[nId];
        if addr.time <= info.known.time || info.inTried || info.refCount == MAX_NEW_BUCKETS {
          return false;
        }
        var unlucky := Unlucky(info.refCount, roll);
        if unlucky {
          return false;
        }
      } else {
        nId := CreatePenalised(addr, source, penalty);
      }
      fInsert := PlaceInNew(nId, NewSlot(env, addr.addr, source), now);
    }

    /** Adds a list of announced addresses; whether any of them was inserted. */
    method Add_(vAddr: seq<Announced>, source: NetAddr, timePenalty: int, clock: seq<int>, rolls: seq<nat>)
      returns (any: bool)
      requires Inv(env, S()) && |vAddr| == |clock| == |rolls|
      modifies this
      ensures Inv(env, S()) && S() == Run(env, old(S()), Adds(vAddr, source, timePenalty, clock, rolls, |vAddr|))
      ensures any <==> AnyInserted(env, old(S()), vAddr, source, timePenalty, clock, rolls, |vAddr|)
    {
      ghost var s := S();
      var added := 0;
      var n := 0;
      RunNothing(env, s);
      while n < |vAddr|
        invariant n <= |vAddr| && Inv(env, S()) && S() == Run(env, s, Adds(vAddr, source, timePenalty, clock, rolls, n))
        invariant added >= 0 && (added > 0 <==> AnyInserted(env, s, vAddr, source, timePenalty, clock, rolls, n))
      {
        RunAppend(env, s, Adds(vAddr, source, timePenalty, clock, rolls, n),
                  Op.Add(vAddr[n], source, timePenalty, clock[n], rolls[n]));
        var inserted := AddSingle(vAddr[n], source, timePenalty, clock[n], rolls[n]);
        if inserted {
          added := added + 1;
        }
        n := n + 1;
      }
      any := added > 0;
    }

    // ----- connections

    /** Marks an address as reachable. */
    method Good_(addr: Service, testBeforeEvict: bool, time: int) returns (moved: bool)
      requires Inv(env, S()) && time > 0
      modifies this
      ensures Inv(env, S()) && old(vvTried).Keys <= vvTried.Keys
      ensures CanGood(env, old(S()), addr, testBeforeEvict, time) && Complete(old(Abs(S())))
      ensures (S(), moved) == Good(env, old(S()), addr, testBeforeEvict, time)
      ensures (Abs(S()), moved) == GoodIn(env, old(Abs(S())), addr, testBeforeEvict, time)
    {
      GoodKeeps(env, S(), addr, testBeforeEvict, time);
      AbsGood(env, S(), addr, testBeforeEvict, time);
      if addr in mapAddr {
        GoodIsClean(env, S(), addr, time);
      }
      moved := MoveIfGood(addr, testBeforeEvict, time);
    }

    method NoteSuccess(nId: Id, time: int)
      requires nId in mapInfo
      modifies this
      ensures S() == Note(old(S()), nId, old(mapInfo)[nId].(known := Succeeded(old(mapInfo)[nId].known, time)))
    {
      var info := mapInfo[nId];
      mapInfo := mapInfo[nId := info.(known := info.known.(lastSuccess := time, lastTry := time, attempts := 0))];
    }

    method MoveIfGood(addr: Service, testBeforeEvict: bool, time: int) returns (moved: bool)
      requires CanGood(env, S(), addr, testBeforeEvict, time)
      requires addr in mapAddr && !mapInfo[mapAddr[addr]].inTried ==>
               MovesCleanly(env, NoteGood(S(), addr, time), mapAddr[addr])
      modifies this
      ensures (S(), moved) == Good(env, old(S()), addr, testBeforeEvict, time)
    {
      lastGood := time;
      var found, nId := Find(addr);
      if !found {
        return false;
      }
      NoteSuccess(nId, time);
      if mapInfo[nId].inTried || mapInfo[nId].refCount <= 0 {
        return false;
      }
      if testBeforeEvict && TriedSlot(env, addr) in vvTried {
        if |triedCollisions| < MAX_COLLISIONS {
          triedCollisions := triedCollisions + {nId};
        }
        return false;
      }
      MakeTried(nId);
      moved := true;
    }

    /** Notes a connection attempt. */
    method Attempt_(addr: Service, fCountFailure: bool, time: int)
      requires Inv(env, S()) && time >= 0
      modifies this
      ensures Inv(env, S()) && S() == Attempt(old(S()), addr, fCountFailure, time)
    {
      AttemptKeeps(env, S(), addr, fCountFailure, time);
      NoteAttempt(addr, fCountFailure, time);
    }

    method NoteAttempt(addr: Service, fCountFailure: bool, time: int)
      modifies this
      ensures S() == Attempt(old(S()), addr, fCountFailure, time)
    {
      var found, nId := Find(addr);
      if found {
        var known := mapInfo[nId].known.(lastTry := time);
        if fCountFailure && known.lastCountAttempt < lastGood {
          known := known.(lastCountAttempt := time, attempts := known.attempts + 1);
        }
        mapInfo := mapInfo[nId := mapInfo[nId].(known := known)];
      }
    }

    /** Notes that a connection to an address ended. */
    method Connected_(addr: Service, time: int)
      requires Inv(env, S())
      modifies this
      ensures Inv(env, S()) && S() == Connected(old(S()), addr, time)
    {
      ConnectedKeeps(env, S(), addr, time);
      NoteConnected(addr, time);
    }

    method NoteConnected(addr: Service, time: int)
      modifies this
      ensures S() == Connected(old(S()), addr, time)
    {
      var found, nId := Find(addr);
      if found {
        var known := mapInfo[nId].known;
        if time - known.time > 20 * MINUTE {
          known := known.(time := time);
        }
        mapInfo := mapInfo[nId := mapInfo[nId].(known := known)];
      }
    }

    method SetServices_(addr: Service, services: Services)
      requires Inv(env, S())
      modifies this
      ensures Inv(env, S()) && S() == SetServices(old(S()), addr, services)
    {
      SetServicesKeeps(env, S(), addr, services);
      NoteServices(addr, services);
    }

    method NoteServices(addr: Service, services: Services)
      modifies this
      ensures S() == SetServices(old(S()), addr, services)
    {
      var found, nId := Find(addr);
      if found {
        mapInfo := mapInfo[nId := mapInfo[nId].(known := mapInfo[nId].known.(services := services))];
      }
    }

    // ----- pending collisions

    /** Handles one pending collision, by the rule in seconds. */
    method Settle(idNew: Id, currentTime: int)
      requires Inv(env, S()) && currentTime > 0 && idNew in triedCollisions
      modifies this
      ensures old(triedCollisions) - {idNew} <= triedCollisions
      ensures Inv(env, S()) && CanResolve(env, old(S()), idNew, currentTime)
              && S() == ResolveOne(env, old(S()), idNew, currentTime)
      ensures idNew in old(mapInfo) && old(mapInfo)[idNew].addr.ip in env.valid ==>
                SettledRightly(env, old(S()), S(), idNew, old(mapInfo)[idNew].addr, currentTime)
    {
      ghost var s := S();
      SettleOne(idNew, currentTime);
      if idNew in s.info && s.info[idNew].addr.ip in env.valid {
        CollisionIsSettled(env, s, idNew, currentTime);
      }
    }

    /** The work of Settle. */
    method SettleOne(idNew: Id, currentTime: int)
      requires Inv(env, S()) && currentTime > 0 && idNew in triedCollisions
      modifies this
      ensures old(triedCollisions) - {idNew} <= triedCollisions
      ensures idNew in old(mapInfo) ==> TriedSlot(env, old(mapInfo)[idNew].addr) in old(vvTried)
      ensures Inv(env, S()) && CanResolve(env, old(S()), idNew, currentTime)
              && S() == ResolveOne(env, old(S()), idNew, currentTime)
    {
      ghost var s := S();
      ResolveKeeps(env, s, idNew, currentTime);
      OthersStayPending(env, s, idNew, currentTime);
      if idNew in mapInfo {
        TargetIsHeld(env, s, idNew);
      }
      var verdict := VerdictFor(idNew, currentTime);
      if verdict.Replace? {
        var moved := Good_(mapInfo[idNew].addr, false, currentTime);
      }
      if !verdict.Wait? {
        triedCollisions := triedCollisions - {idNew};
      }
    }

    /** What the holder of the wanted slot and the entry that wants it have to show for themselves. */
    method VerdictFor(idNew: Id, currentTime: int) returns (verdict: Verdict)
      requires CanResolve(env, S(), idNew, currentTime)
      ensures verdict == VerdictOn(env, S(), idNew, currentTime)
    {
      if idNew !in mapInfo {
        return Drop;
      }
      var infoNew := mapInfo[idNew];
      var slot := TriedSlot(env, infoNew.addr);
      if infoNew.addr.ip !in env.valid {
        return Drop;
      }
      if slot in vvTried {
        var infoOld := mapInfo[vvTried[slot]];
        if currentTime - infoOld.known.lastSuccess < REPLACEMENT {
          return Drop;
        } else if currentTime - infoOld.known.lastTry < REPLACEMENT {
          return if currentTime - infoOld.known.lastTry > MINUTE then Replace else Wait;
        } else if currentTime - infoNew.known.lastSuccess > TEST_WINDOW {
          return Replace;
        }
        return Wait;
      }
      verdict := Replace;
    }

    /** Walks the pending collisions in order, with one clock reading for each. */
    method ResolveCollisions_(clock: seq<int>) returns (ghost order: seq<Id>)
      requires Inv(env, S()) && |clock| == |triedCollisions| && forall k :: 0 <= k < |clock| ==> clock[k] > 0
      modifies this
      ensures Ascending(order, old(triedCollisions)) && |order| == |clock|
      ensures Inv(env, S()) && S() == Run(env, old(S()), Settles(order, clock, |order|))
    {
      ghost var s := S();
      var ids := InOrder(triedCollisions);
      order := ids;
      SettlesStart(env, s, ids, clock);
      var n := 0;
      while n < |ids|
        invariant n <= |ids| && SettledSoFar(env, s, ids, clock, n, S())
      {
        SettlesOpen(env, s, ids, clock, n, S());
        ghost var t := S();
        Settle(ids[n], clock[n]);
        SettlesStep(env, s, ids, clock, n, t, S());
        n := n + 1;
      }
      SettlesEnd(env, s, ids, clock, S());
    }

    /**
     * Picks a pending collision by a random draw and returns the address it would evict. The slot
     * looked up is never empty; an entry that is gone is dropped from the pending ones.
     */
    method SelectTriedCollision_(draw: nat) returns (picked: Picked, ghost i: Id)
      requires Inv(env, S()) && (triedCollisions != {} ==> draw < |triedCollisions|)
      modifies this
      ensures Inv(env, S())
      ensures old(triedCollisions) == {} ==> picked == Nobody && S() == old(S())
      ensures old(triedCollisions) != {} ==>
                && i in old(triedCollisions)
                && picked == HolderFor(env, old(S()), i)
                && (picked.Nobody? <==> i !in mapInfo)
                && S() == if i in mapInfo then old(S()) else old(S()).(collisions := old(triedCollisions) - {i})
    {
      i := 0;
      if triedCollisions == {} {
        return Nobody, i;
      }
      var ids := InOrder(triedCollisions);
      var idNew := ids[draw];
      i := idNew;
      assert idNew in triedCollisions;
      if idNew !in mapInfo {
        DropKeeps(env, S(), idNew);
        triedCollisions := triedCollisions - {idNew};
        return Nobody, i;
      }
      TargetIsHeld(env, S(), idNew);
      var infoOld := mapInfo[vvTried[TriedSlot(env, mapInfo[idNew].addr)]];
      picked := Holder(infoOld.addr, infoOld.known.lastTry);
    }

    // ----- reading

    /**
     * Returns randomly chosen addresses that fit; draw n picks a position from n on. Nothing but the
     * order of the random vector changes.
     */
    method GetAddr_(maxAddresses: nat, maxPct: nat, network: Option<Network>, now: int, draws: seq<nat>)
      returns (addresses: seq<Service>)
      requires Inv(env, S()) && |draws| == |vRandom| && forall n :: 0 <= n < |draws| ==> n + draws[n] < |vRandom|
      modifies this
      ensures Inv(env, S()) && Abs(S()) == old(Abs(S())) && |vRandom| == old(|vRandom|)
      ensures |addresses| <= Quota(|vRandom|, maxAddresses, maxPct) && Distinct(addresses)
      ensures forall a :: a in addresses ==> FitsIn(env, Abs(S()), a, network, now)
      ensures |addresses| < Quota(|vRandom|, maxAddresses, maxPct) ==>
                forall a :: FitsIn(env, Abs(S()), a, network, now) ==> a in addresses
    {
      ghost var b := Abs(S());
      SelectStarts(env, S(), network, now);
      var n;
      addresses, n := Gather(b, Quota(|vRandom|, maxAddresses, maxPct), network, now, draws);
      Selected(env, b, S(), n, network, now, addresses);
    }

    /** Draws ids until the list is long enough or all have been drawn. */
    method Gather(ghost b: Book, nNodes: nat, network: Option<Network>, now: int, draws: seq<nat>)
      returns (addresses: seq<Service>, n: nat)
      requires Selecting(env, b, S(), 0, network, now, [])
      requires |draws| == |vRandom| && forall k :: 0 <= k < |draws| ==> k + draws[k] < |vRandom|
      modifies this
      ensures Selecting(env, b, S(), n, network, now, addresses) && |vRandom| == |draws|
      ensures |addresses| <= nNodes && (|addresses| < nNodes ==> n == |vRandom|)
    {
      addresses := [];
      n := 0;
      while n < |vRandom|
        invariant n <= |vRandom| == |draws| && |addresses| <= nNodes
        invariant Selecting(env, b, S(), n, network, now, addresses)
      {
        if |addresses| >= nNodes {
          break;
        }
        addresses := Draw(b, n, n + draws[n], network, now, addresses);
        n := n + 1;
      }
    }

    /** Draws the next id, and adds its address to the list if it fits. */
    method Draw(ghost b: Book, n: nat, drawn: nat, network: Option<Network>, now: int, list: seq<Service>)
      returns (more: seq<Service>)
      requires Selecting(env, b, S(), n, network, now, list) && n <= drawn < |vRandom|
      modifies this
      ensures Selecting(env, b, S(), n + 1, network, now, more)
      ensures |vRandom| == old(|vRandom|) && |more| <= |list| + 1
    {
      SelectSwap(env, b, S(), n, drawn, network, now, list);
      SwapRandom(n, drawn);
      PicksOneMore(env, b, S(), n, network, now, list);
      var info := mapInfo[vRandom[n]];
      if network.Some? && NetClassOf(env, info.addr) != network.value {
        return list;
      }
      if IsTerrible(info.known, now) {
        return list;
      }
      more := list + [info.addr];
    }

    /** The number of entries of a network, or of all, in one of the tables, or in both. */
    method Size_(net: Option<Network>, inNew: Option<bool>) returns (n: int)
      requires Inv(env, S())
      ensures n == |Section(env, mapInfo, net, inNew)|
    {
      if net.None? {
        TotalsAre(env, S());
        if inNew.Some? {
          return if inNew.value then nNew else nTried;
        }
        return |vRandom|;
      }
      CountsAre(env, S(), net.value);
      if net.value in networkCounts {
        var c := networkCounts[net.value];
        if inNew.Some? {
          return if inNew.value then c.nNew else c.nTried;
        }
        return c.nNew + c.nTried;
      }
      n := 0;
    }

    // ----- writing and reading the file

    /** The consistency check on this manager. */
    method CheckAddrman() returns (err: int)
      requires InBounds(env, vvTried, vvNew)
      ensures err == 0 <==> Consistent(env, S())
    {
      err := AddrCheck.CheckAddrman(env, State(nIdCount, mapInfo, mapAddr, vRandom, vvTried, nTried, vvNew, nNew,
                                               lastGood, triedCollisions, networkCounts));
    }

    /** Writes the entries of one table in the order of a walk over all; no more than the manager counts. */
    method WriteEntries(order: seq<Id>, tried: bool)
      returns (entries: seq<Entry>, unk: map<Id, int>, ghost list: seq<Id>)
      requires Enumerates(order, mapInfo)
      ensures list == Select(mapInfo, order, tried) && (forall k :: 0 <= k < |list| ==> list[k] in mapInfo)
      ensures entries == Entries(mapInfo, list) && Indexes(unk, list)
    {
      entries, unk, list := [], map[], [];
      assert order[..0] == [] && order[..|order|] == order;
      for k := 0 to |order|
        invariant Writing(mapInfo, order, tried, k, list, entries, unk)
      {
        var i := order[k];
        WritingNext(mapInfo, order, tried, k, list, entries, unk);
        unk := unk[i := |entries|];
        if Belongs(mapInfo[i], tried) {
          assert |entries| != |Select(mapInfo, order, tried)|;
          entries, list := entries + [ToEntry(mapInfo[i])], list + [i];
        }
      }
      DescribesIs(mapInfo, list, entries);
    }

    /** Writes the indexes of the entries of a bucket. */
    method WriteBucket(bucket: nat, unk: map<Id, int>, ghost list: seq<Id>) returns (indexes: seq<int>)
      requires Indexes(unk, list) && forall t :: t in vvNew ==> vvNew[t] in list
      ensures indexes == BucketUpTo(vvNew, list, bucket, env.bucketSize)
    {
      indexes := [];
      for i := 0 to env.bucketSize
        invariant indexes == BucketUpTo(vvNew, list, bucket, i)
      {
        var slot := Slot(bucket, i);
        if slot in vvNew {
          indexes := indexes + [unk[vvNew[slot]]];
        }
      }
    }

    /** Writes the manager to a file. */
    method Serialize(order: seq<Id>, checksum: nat) returns (file: File)
      requires Inv(env, S()) && Enumerates(order, mapInfo)
      ensures file == Save(env, S(), order, checksum) && |file.news| == nNew && |file.tried| == nTried
    {
      CountsAreWritten(env, S(), order, checksum);
      Written(env, S(), order);
      var news, unk, list := WriteEntries(order, false);
      var tried, _, _ := WriteEntries(order, true);
      var buckets := WriteBuckets(unk, list);
      file := File(news, tried, buckets, checksum);
    }

    method WriteBuckets(unk: map<Id, int>, ghost list: seq<Id>) returns (buckets: seq<seq<int>>)
      requires Indexes(unk, list) && forall t :: t in vvNew ==> vvNew[t] in list
      ensures buckets == BucketsUpTo(vvNew, list, env.bucketSize, env.newBuckets)
    {
      buckets := [];
      for b := 0 to env.newBuckets
        invariant buckets == BucketsUpTo(vvNew, list, env.bucketSize, b)
      {
        var indexes := WriteBucket(b, unk, list);
        buckets := buckets + [indexes];
      }
    }

    /** Takes in a tried entry, unless its address is not valid or its slot is taken. */
    method ReadTried(e: Entry)
      modifies this
      ensures S() == LoadTriedOne(env, old(S()), e)
    {
      var slot := TriedSlot(env, e.addr);
      if e.addr.ip in env.valid && slot !in vvTried {
        mapInfo := mapInfo[nIdCount := AddrInfo(e.addr, Recalled(e), 0, true, |vRandom|)];
        vRandom := vRandom + [nIdCount];
        mapAddr := mapAddr[e.addr := nIdCount];
        vvTried := vvTried[slot := nIdCount];
        nIdCount := nIdCount + 1;
        nTried := nTried + 1;
        CountNetwork(NetworkOf(env, e.addr), 0, 1);
      }
    }

    method ReadEntries(file: File)
      requires S() == EMPTY
      modifies this
      ensures S() == LoadTried(env, LoadNew(env, file.news, |file.news|), file.tried, |file.tried|)
    {
      for n := 0 to |file.news|
        invariant S() == LoadNew(env, file.news, n)
      {
        var nId := Create(file.news[n].addr, Recalled(file.news[n]));
      }
      ghost var t := S();
      for n := 0 to |file.tried|
        invariant S() == LoadTried(env, t, file.tried, n)
      {
        ReadTried(file.tried[n]);
      }
    }

    /** Gives an entry a slot of the bucket it was in, or else the slot its source gives it. */
    method ReadSlot(bucket: nat, index: nat, restore: bool)
      requires index in mapInfo
      modifies this
      ensures S() == PlaceOne(env, old(S()), bucket, index, restore)
    {
      var info := mapInfo[index];
      if info.addr.ip !in env.valid || info.refCount >= MAX_NEW_BUCKETS {
        return;
      }
      var slot := Slot(bucket, NewPos(env, info.addr, bucket));
      if !(restore && slot !in vvNew) {
        slot := HomeSlot(env, info);
        if slot in vvNew {
          return;
        }
      }
      vvNew := vvNew[slot := index];
      mapInfo := mapInfo[index := info.(refCount := info.refCount + 1)];
    }

    method ReadBucket(bucket: nat, indexes: seq<int>, count: nat, restore: bool)
      requires forall i :: 0 <= i < count ==> i in mapInfo
      modifies this
      ensures S() == PlaceBucket(env, old(S()), bucket, indexes, count, restore)
      ensures mapInfo.Keys == old(mapInfo.Keys)
    {
      ghost var t := S();
      assert indexes[..0] == [];
      for n := 0 to |indexes|
        invariant S() == PlaceBucket(env, t, bucket, indexes[..n], count, restore) && mapInfo.Keys == t.info.Keys
      {
        assert indexes[..n + 1][..n] == indexes[..n];
        if 0 <= indexes[n] < count {
          ReadSlot(bucket, indexes[n], restore);
        }
      }
      assert indexes[..|indexes|] == indexes;
    }

    method ReadBuckets(buckets: seq<seq<int>>, count: nat, restore: bool)
      requires forall i :: 0 <= i < count ==> i in mapInfo
      modifies this
      ensures S() == PlaceBuckets(env, old(S()), buckets, |buckets|, count, restore)
    {
      ghost var t := S();
      for b := 0 to |buckets|
        invariant S() == PlaceBuckets(env, t, buckets, b, count, restore) && mapInfo.Keys == t.info.Keys
      {
        ReadBucket(b, buckets[b], count, restore);
      }
    }

    /** Deletes the entries that ended up in neither table. */
    method PruneAll(order: seq<Id>)
      requires Ordered(S()) && InBounds(env, vvTried, vvNew)
      modifies this
      ensures S() == Prune(env, old(S()), order) && InBounds(env, vvTried, vvNew)
    {
      ghost var t := S();
      assert order[..0] == [];
      for n := 0 to |order|
        invariant S() == Prune(env, t, order[..n]) && Ordered(S()) && InBounds(env, vvTried, vvNew)
      {
        assert order[..n + 1][..n] == order[..n];
        PruneOrdered(env, S(), order[n]);
        if order[n] in mapInfo && !mapInfo[order[n]].inTried && mapInfo[order[n]].refCount == 0 {
          Delete(order[n]);
        }
      }
      assert order[..|order|] == order;
    }

    /**
     * Reads a file, whatever it says, into a new manager. It is refused if it is too large or if what
     * it leads to is not consistent; a manager that comes out satisfies the invariant.
     */
    method Unserialize(file: File, checksum: nat, pruneOrder: seq<Id>) returns (ok: bool)
      requires S() == EMPTY
      modifies this
      ensures ok <==> FitsTables(env, file) && Consistent(env, Prune(env, Load(env, file, checksum), pruneOrder))
      ensures FitsTables(env, file) ==> S() == Prune(env, Load(env, file, checksum), pruneOrder)
      ensures ok ==> Inv(env, S())
    {
      if |file.news| > env.newBuckets * env.bucketSize || |file.tried| > env.triedBuckets * env.bucketSize {
        return false;
      }
      ReadEntries(file);
      LoadedIds(env, file);
      ReadBuckets(file.buckets, |file.news|, |file.buckets| == env.newBuckets && file.checksum == checksum);
      LoadOrdered(env, file, checksum);
      PruneAll(pruneOrder);
      AcceptedIsSound(env, file, checksum, pruneOrder);
      var err := CheckAddrman();
      ok := err == 0;
    }
  }
}
