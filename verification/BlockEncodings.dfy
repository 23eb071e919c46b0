/** Rebuilding a block from its compact form, the mempool and what the peer sends on request. */
module BlockEncodings {
  import opened Basics
  import opened CompactBlocks

  datatype ReadStatus = OK | INVALID | FAILED | CHECKBLOCK_FAILED

  /** What checking the finished block says. */
  datatype Verdict = Fine | Mutated | Wrong

  lemma FirstFree(a: Slots, n: nat, p: nat)
    requires p <= |a| && Free(a[..p]) == n < Free(a)
    ensures p < |a|
  {
    assert a[..|a|] == a;
  }

  lemma SkipTaken(a: Slots, p: nat)
    requires p < |a| && a[p].Some?
    ensures Free(a[..p + 1]) == Free(a[..p])
  {
    assert a[..p + 1] == a[..p] + [a[p]];
    FreeAppend(a[..p], a[p]);
  }

  lemma TakeFree(a: Slots, p: nat)
    requires p < |a| && a[p].None?
    ensures Free(a[..p + 1]) == Free(a[..p]) + 1
  {
    assert a[..p + 1] == a[..p] + [a[p]];
    FreeAppend(a[..p], a[p]);
  }

  /** The inner scan: on to the next free position, which there is. */
  method SkipFilled(a: Slots, i: nat, offset: nat) returns (indexOffset: nat)
    requires |a| <= MAX_UINT16 && i + offset <= |a| && Free(a[..i + offset]) == i < Free(a)
    ensures IsNthFree(a, i, i + indexOffset)
  {
    indexOffset := offset;
    FirstFree(a, i, i + indexOffset);
    while a[i + indexOffset].Some?
      invariant i + indexOffset < |a| && Free(a[..i + indexOffset]) == i
      decreases |a| - indexOffset
    {
      SkipTaken(a, i + indexOffset);
      FirstFree(a, i, i + indexOffset + 1);
      indexOffset := (indexOffset + 1) % 0x1_0000;
    }
  }

  /** Whether the bucket of some short id is too full when that id is entered. */
  ghost predicate Crowded(cb: CompactBlock, crowded: set<nat>, n: nat) {
    exists i :: 0 <= i < n && i < |cb.shortIds| && i in crowded
  }

  lemma CrowdedMore(cb: CompactBlock, crowded: set<nat>, n: nat)
    requires n < |cb.shortIds|
    ensures Crowded(cb, crowded, n + 1) <==> Crowded(cb, crowded, n) || n in crowded
  {
  }

  lemma CrowdedBefore(cb: CompactBlock, crowded: set<nat>, n: nat)
    requires n < |cb.shortIds| && n in crowded
    ensures Crowded(cb, crowded, |cb.shortIds|)
  {
  }

  /** Enters one short id at the next free position; 16 bits are enough for it. */
  method MapOne(cb: CompactBlock, a: Slots, i: nat, offset: nat, m: map<nat, nat>)
    returns (indexOffset: nat, m': map<nat, nat>)
    requires |a| <= MAX_UINT16 && i < |cb.shortIds| == Free(a)
    requires i + offset <= |a| && Free(a[..i + offset]) == i && Mapped(cb, a, i, m)
    ensures i + 1 + indexOffset <= |a| && Free(a[..i + 1 + indexOffset]) == i + 1 && Mapped(cb, a, i + 1, m')
  {
    indexOffset := SkipFilled(a, i, offset);
    var p := (i + indexOffset) % 0x1_0000;
    TakeFree(a, p);
    MapOneMore(cb, a, i, m, p);
    assert p + 1 == i + 1 + indexOffset;
    m' := m[cb.shortIds[i] := p];
  }

  /** The scan for free positions never leaves the list. */
  method MapShortIds(cb: CompactBlock, a: Slots, crowded: set<nat>) returns (ok: bool, m: map<nat, nat>)
    requires |a| <= MAX_UINT16 && Free(a) == |cb.shortIds|
    ensures ok <==> !Crowded(cb, crowded, |cb.shortIds|)
    ensures ok ==> Mapped(cb, a, |cb.shortIds|, m)
  {
    MapNone(cb, a);
    m := map[];
    var indexOffset: nat := 0;
    for i := 0 to |cb.shortIds|
      invariant i + indexOffset <= |a| && Free(a[..i + indexOffset]) == i
      invariant Mapped(cb, a, i, m) && !Crowded(cb, crowded, i)
    {
      indexOffset, m := MapOne(cb, a, i, indexOffset, m);
      CrowdedMore(cb, crowded, i);
      if i in crowded {
        CrowdedBefore(cb, crowded, i);
        return false, m;
      }
    }
    ok := true;
  }

  class PartiallyDownloadedBlock {
    var headerIsNull: bool
    var txnAvailable: Slots
    var mempoolCount: int

    constructor ()
      ensures headerIsNull && txnAvailable == [] && mempoolCount == 0
    {
      headerIsNull, txnAvailable, mempoolCount := true, [], 0;
    }

    /** Places the transactions that come with the block. */
    method PlacePrefilled(cb: CompactBlock) returns (ok: bool)
      requires txnAvailable == Empty(cb.BlockTxCount())
      modifies this`txnAvailable
      ensures ok <==> AllWellPlaced(cb)
      ensures ok ==> Placed(cb, |cb.prefilled|, txnAvailable)
    {
      NonePlaced(cb);
      var lastprefilledindex := -1;
      for i := 0 to |cb.prefilled|
        invariant lastprefilledindex == Place(cb.prefilled, i - 1)
        invariant forall k :: 0 <= k < i ==> WellPlaced(cb, k)
        invariant Placed(cb, i, txnAvailable)
      {
        if cb.prefilled[i].tx.isNull {
          assert !WellPlaced(cb, i);
          return false;
        }
        lastprefilledindex := lastprefilledindex + cb.prefilled[i].index + 1;
        if lastprefilledindex > MAX_UINT16 || lastprefilledindex > |cb.shortIds| + i {
          assert !WellPlaced(cb, i);
          return false;
        }
        PlaceOneMore(cb, i, txnAvailable);
        txnAvailable := txnAvailable[lastprefilledindex := Some(cb.prefilled[i].tx)];
      }
      ok := true;
    }

    /** One list of candidates: the mempool, or the extra transactions. */
    method MatchOffers(cb: CompactBlock, m: map<nat, nat>, list: seq<Offered>, tolerant: bool, have0: seq<bool>)
      returns (have: seq<bool>)
      requires Sized(m, Matching(txnAvailable, have0, mempoolCount))
      modifies this`txnAvailable, this`mempoolCount
      ensures Matching(txnAvailable, have, mempoolCount)
           == OfferAll(cb, m, old(Matching(txnAvailable, have0, mempoolCount)), list, tolerant)
    {
      have := have0;
      ghost var result := OfferAll(cb, m, Matching(txnAvailable, have, mempoolCount), list, tolerant);
      for i := 0 to |list|
        invariant Sized(m, Matching(txnAvailable, have, mempoolCount))
        invariant OfferAll(cb, m, Matching(txnAvailable, have, mempoolCount), list[i..], tolerant) == result
      {
        ghost var s := Matching(txnAvailable, have, mempoolCount);
        var id := cb.GetShortID(list[i].0);
        if id in m {
          var p := m[id];
          if !have[p] {
            txnAvailable := txnAvailable[p := Some(list[i].1)];
            have := have[p := true];
            mempoolCount := mempoolCount + 1;
          } else if txnAvailable[p].Some? && !(tolerant && txnAvailable[p].value.witnessHash == list[i].1.witnessHash) {
            txnAvailable := txnAvailable[p := None];
            mempoolCount := mempoolCount - 1;
          }
        }
        assert Matching(txnAvailable, have, mempoolCount) == Offer(cb, m, s, list[i], tolerant);
        assert list[i..][1..] == list[i + 1..];
        if mempoolCount == |m| {
          return;
        }
      }
    }

    /** The conditions under which a compact block is refused as invalid. */
    ghost predicate Refuses(cb: CompactBlock)
      reads this
    {
      || cb.headerIsNull || cb.BlockTxCount() == 0
      || |cb.shortIds| + |cb.prefilled| > 100000
      || !headerIsNull || txnAvailable != []
      || !AllWellPlaced(cb)
    }

    /**
     * A block from the wire has at most 65535 transactions. `a` is what the prefilled transactions leave
     * free, and `m` the position of every short id.
     */
    method InitData(cb: CompactBlock, pool: seq<Offered>, extra: seq<Offered>, crowded: set<nat>)
      returns (status: ReadStatus, ghost a: Slots, ghost m: map<nat, nat>)
      requires cb.BlockTxCount() <= MAX_UINT16
      modifies this
      ensures status == INVALID <==> old(Refuses(cb))
      ensures status == FAILED <==>
                !old(Refuses(cb)) && (Crowded(cb, crowded, |cb.shortIds|) || !Distinct(cb.shortIds))
      ensures status != CHECKBLOCK_FAILED
      ensures status == OK ==>
        && !headerIsNull && Placed(cb, |cb.prefilled|, a) && Assigned(cb, a, m)
        && var s := Unmatched(a, old(mempoolCount));
           && Sized(m, s)
           && txnAvailable == OfferBoth(cb, m, s, pool, extra).slots
    {
      a, m := [], map[];
      if cb.headerIsNull || (|cb.shortIds| == 0 && |cb.prefilled| == 0) {
        return INVALID, a, m;
      }
      if |cb.shortIds| + |cb.prefilled| > MAX_BLOCK_WEIGHT / MIN_SERIALIZABLE_TRANSACTION_WEIGHT {
        return INVALID, a, m;
      }
      if !headerIsNull || txnAvailable != [] {
        return INVALID, a, m;
      }
      headerIsNull := false;
      txnAvailable := Empty(cb.BlockTxCount());
      var placed := PlacePrefilled(cb);
      if !placed {
        return INVALID, a, m;
      }
      a := txnAvailable;
      status, m := FindTransactions(cb, pool, extra, crowded);
    }

    /** What follows once the prefilled transactions are placed. */
    method FindTransactions(cb: CompactBlock, pool: seq<Offered>, extra: seq<Offered>, crowded: set<nat>)
      returns (status: ReadStatus, ghost m: map<nat, nat>)
      requires cb.BlockTxCount() <= MAX_UINT16 && Placed(cb, |cb.prefilled|, txnAvailable)
      modifies this`txnAvailable, this`mempoolCount
      ensures status == FAILED || status == OK
      ensures status == FAILED <==> Crowded(cb, crowded, |cb.shortIds|) || !Distinct(cb.shortIds)
      ensures status == OK ==>
        && Assigned(cb, old(txnAvailable), m)
        && var s := Unmatched(old(txnAvailable), old(mempoolCount));
           && Sized(m, s)
           && txnAvailable == OfferBoth(cb, m, s, pool, extra).slots
    {
      var uncrowded, ids := MapShortIds(cb, txnAvailable, crowded);
      m := ids;
      if !uncrowded {
        return FAILED, m;
      }
      MappedByCount(cb, txnAvailable, ids);
      if |ids| != |cb.shortIds| {
        return FAILED, m;
      }
      MappedIsAssigned(cb, txnAvailable, ids);
      var have := seq(|txnAvailable|, i => false);
      have := MatchOffers(cb, ids, pool, false, have);
      have := MatchOffers(cb, ids, extra, true, have);
      status := OK;
    }

    predicate IsTxAvailable(index: nat)
      requires headerIsNull || index < |txnAvailable|
      reads this
    {
      !headerIsNull && txnAvailable[index].Some?
    }

    /**
     * Needs exactly as many transactions as are free. With too few the object stays in use, but what
     * comes before the first position that could not be filled has been moved out of it into the block.
     */
    method FillBlock(missing: seq<Tx>, verdict: Verdict) returns (status: ReadStatus, vtx: seq<Tx>, ghost stop: nat)
      modifies this
      ensures old(headerIsNull) ==>
                status == INVALID && headerIsNull && txnAvailable == old(txnAvailable)
      ensures !old(headerIsNull) && |missing| < Free(old(txnAvailable)) ==>
                && status == INVALID && !headerIsNull && IsNthFree(old(txnAvailable), |missing|, stop)
                && txnAvailable == Empty(stop) + old(txnAvailable)[stop..]
                && vtx == Fill(old(txnAvailable)[..stop], missing)
      ensures !old(headerIsNull) && |missing| >= Free(old(txnAvailable)) ==> headerIsNull && txnAvailable == []
      ensures !old(headerIsNull) && |missing| > Free(old(txnAvailable)) ==>
                status == INVALID && vtx == Fill(old(txnAvailable), missing[..Free(old(txnAvailable))])
      ensures !old(headerIsNull) && |missing| == Free(old(txnAvailable)) ==>
                && vtx == Fill(old(txnAvailable), missing)
                && status == match verdict case Fine => OK case Mutated => FAILED case Wrong => CHECKBLOCK_FAILED
    {
      vtx, stop := [], 0;
      if headerIsNull {
        return INVALID, vtx, stop;
      }
      var enough, offset;
      enough, vtx, offset, stop := MoveTransactions(missing);
      if !enough {
        return INVALID, vtx, stop;
      }
      headerIsNull := true;
      txnAvailable := [];
      if |missing| != offset {
        return INVALID, vtx, stop;
      }
      assert missing[..offset] == missing;
      match verdict
      case Fine => status := OK;
      case Mutated => status := FAILED;
      case Wrong => status := CHECKBLOCK_FAILED;
    }

    /** The loop over the positions: takes what is there, and a missing transaction where nothing is. */
    method MoveTransactions(missing: seq<Tx>) returns (enough: bool, vtx: seq<Tx>, offset: nat, ghost stop: nat)
      modifies this`txnAvailable
      ensures enough <==> |missing| >= Free(old(txnAvailable))
      ensures enough ==> offset == Free(old(txnAvailable)) && vtx == Fill(old(txnAvailable), missing[..offset])
      ensures !enough ==> IsNthFree(old(txnAvailable), |missing|, stop)
                          && txnAvailable == Empty(stop) + old(txnAvailable)[stop..]
                          && vtx == Fill(old(txnAvailable)[..stop], missing)
    {
      ghost var was := txnAvailable;
      offset, vtx, stop := 0, [], 0;
      for i := 0 to |txnAvailable|
        invariant |txnAvailable| == |was| && txnAvailable == MovedOut(was, i)
        invariant offset == Free(was[..i]) <= |missing| && vtx == Fill(was[..i], missing[..offset])
      {
        FillOneMore(was, i, missing);
        MovesOut(was, i);
        if txnAvailable[i].None? {
          if |missing| <= offset {
            stop := i;
            NotEnough(was, i);
            AllOf(missing);
            return false, vtx, offset, stop;
          }
          vtx := vtx + [missing[offset]];
          offset := offset + 1;
        } else {
          vtx := vtx + [txnAvailable[i].value];
          txnAvailable := txnAvailable[i := None];
        }
      }
      assert was[..|was|] == was;
      enough := true;
    }
  }

  ghost function MovedOut(a: Slots, i: nat): (b: Slots)
    requires i <= |a|
    ensures |b| == |a|
  {
    Empty(i) + a[i..]
  }

  lemma MovesOut(a: Slots, i: nat)
    requires i < |a|
    ensures MovedOut(a, i)[i] == a[i] && MovedOut(a, i + 1) == MovedOut(a, i)[i := None]
    ensures a[i].None? ==> MovedOut(a, i + 1) == MovedOut(a, i)
  {
  }

  lemma AllOf(missing: seq<Tx>)
    ensures missing[..|missing|] == missing
  {
  }

  lemma NotEnough(a: Slots, i: nat)
    requires i < |a| && a[i].None?
    ensures Free(a[..i]) < Free(a)
  {
    NextFree(a, i, |a|);
    assert a[..|a|] == a;
  }

  lemma MappedByCount(cb: CompactBlock, a: Slots, m: map<nat, nat>)
    requires Mapped(cb, a, |cb.shortIds|, m)
    ensures |m| == |cb.shortIds| <==> Distinct(cb.shortIds)
  {
    assert cb.shortIds[..|cb.shortIds|] == cb.shortIds;
    DistinctByCount(cb.shortIds);
    assert |m| == |m.Keys|;
  }

  lemma FillOneMore(a: Slots, i: nat, missing: seq<Tx>)
    requires i < |a| && Free(a[..i]) <= |missing|
    ensures var k := Free(a[..i]);
      && Free(a[..i + 1]) == k + (if a[i].None? then 1 else 0)
      && (a[i].Some? ==> Fill(a[..i + 1], missing[..k]) == Fill(a[..i], missing[..k]) + [a[i].value])
      && (a[i].None? && k < |missing| ==>
            Fill(a[..i + 1], missing[..k + 1]) == Fill(a[..i], missing[..k]) + [missing[k]])
  {
    var k := Free(a[..i]);
    assert a[..i + 1] == a[..i] + [a[i]];
    FreeAppend(a[..i], a[i]);
    assert a[..i + 1][..i] == a[..i];
    if k < |missing| {
      assert missing[..k + 1][..k] == missing[..k];
    }
  }

  /** What a node asks its peer for: the transactions at the positions that are not available. */
  method Request(partial: PartiallyDownloadedBlock, vtx: seq<Tx>) returns (missing: seq<Tx>)
    requires !partial.headerIsNull && |partial.txnAvailable| == |vtx|
    ensures missing == Missing(partial.txnAvailable, vtx)
  {
    missing := [];
    for i := 0 to |vtx|
      invariant missing == Missing(partial.txnAvailable[..i], vtx[..i])
    {
      assert partial.txnAvailable[..i + 1][..i] == partial.txnAvailable[..i] && vtx[..i + 1][..i] == vtx[..i];
      if !partial.IsTxAvailable(i) {
        missing := missing + [vtx[i]];
      }
    }
    assert partial.txnAvailable[..|vtx|] == partial.txnAvailable && vtx[..|vtx|] == vtx;
  }

  /**
   * A block sent in compact form, matched against any mempool and any extra transactions without a
   * collision, completed on request, is the block that was sent, unless a bucket of short ids is too full.
   */
  method SendAndRebuild(hashes: imap<Hash, nat>, block: seq<Tx>, pool: seq<Offered>, extra: seq<Offered>,
                        crowded: set<nat>)
    returns (status: ReadStatus, vtx: seq<Tx>)
    requires 0 < |block| <= MAX_UINT16 && !block[0].isNull && Distinct(Compact(hashes, block).shortIds)
    requires NoCollisions(hashes, block, pool) && NoCollisions(hashes, block, extra)
    ensures Crowded(Compact(hashes, block), crowded, |block| - 1) ==> status == FAILED
    ensures !Crowded(Compact(hashes, block), crowded, |block| - 1) ==> status == OK && vtx == block
  {
    var cb := Compact(hashes, block);
    var partial := new PartiallyDownloadedBlock();
    BuiltIsWellPlaced(hashes, block);
    ghost var a, m, stop;
    status, a, m := partial.InitData(cb, pool, extra, crowded);
    vtx := [];
    if status == OK {
      CompactBlocksRebuild(hashes, block, a, m, 0, pool, extra);
      var missing := Request(partial, block);
      status, vtx, stop := partial.FillBlock(missing, Fine);
    }
  }

  lemma BuiltIsWellPlaced(hashes: imap<Hash, nat>, block: seq<Tx>)
    requires 0 < |block| && !block[0].isNull
    ensures AllWellPlaced(Compact(hashes, block))
  {
    assert Place(Compact(hashes, block).prefilled, 0) == 0;
  }
}
