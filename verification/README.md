# Verified models of the node's core data structures

Dafny models of eleven components of Blakecoin Core (a Bitcoin Core 25 derivative), with proofs of the
properties that the rest of the node relies on. `dafny verify dfyconfig.toml` checks the whole project.

| component | files | what is proved |
|---|---|---|
| Coin cache tower (`src/coins.cpp`) | Coins, CoinsCache | Any tower of caches over a database, through any run of adds, spends, flushes, syncs and uncaches at any level, answers like one plain map per level and never throws; the memory counter is exact. |
| Address manager (`src/addrman.cpp`) | Addr* | Six redundant structures stay consistent over every run; every run refines an address book without ids, counters or random order, whose rules are also given in plain seconds and slots; the consistency check is exact; saving and reloading any reachable state gives back the same book; whatever file is loaded with success gives a consistent manager. |
| Script check queue (`src/checkqueue.h`) | CheckQueue | Over every interleaving of the master and any number of workers, Wait returns true exactly when every check of its round ran once and none failed, no check runs twice, nobody is stuck, and Wait ends within a bound. |
| Header synchronisation (`src/headerssync.cpp`) | HeadersSync | Exactly which batches each phase takes, in terms of the chain and its summed work; nothing is released that is not linked, permitted and covered by 23 checked commitments or by enough work; compressing loses nothing. |
| Cuckoo cache (`src/cuckoocache.h`) | BitFlags, CuckooTable, CuckooCache | An insert conserves the multiset of kept elements with their epochs up to one dropped element, and puts the new one where the rule says; lookups are exact and erasure is lazy; no element is stored twice and the epoch bounds hold after every operation. |
| Partial Merkle trees (`src/merkleblock.cpp`, `src/consensus/merkle.cpp`) | MerkleShape, MerkleTree, MerkleRoots, MerkleBlock | Build, pack, unpack and extract gives the root that consensus computes by rounds over the list, and exactly the flagged transactions; any tree that extracts to the right root reports only true positions. |
| Block work (`src/arith_uint256.cpp`, `src/chain.cpp`) | Limbs, LimbShifts, LimbProducts, LongDivision, ArithUint256, CompactForm, BlockProof | In-place 256-bit arithmetic is arithmetic modulo 2^256, division is exact, the compact form rounds down, flags overflow exactly and is unique where it is canonical, and the work of a target is floor(2^256 / (target + 1)). |
| Block tree (`src/chain.cpp`) | Chain | Skip pointers reach the ancestor that parents would; SetTip leaves the path to the tip despite stopping early; FindFork and LastCommonAncestor return the highest common entry. |
| Base58 (`src/base58.cpp`) | Radix, Base58, Base58Coder | Encoding and decoding are inverse to each other, with and without a checksum, and the digit buffers never overflow. |
| Bech32 and Bech32m (`src/bech32.cpp`) | GaloisField, Bech32Code, Bech32Roots, Bech32Errors, Bech32Text, Bech32, Bech32Coder, Bech32Vectors | Exactly which messages survive encoding and decoding; the checksum is unique; e has order 1023 in GF(1024) and e^997, e^998 and e^999 are roots of the generator, so up to three wrong symbols within 1023 are seen, and every burst of up to six. |
| Compact blocks (`src/blockencodings.cpp`) | CompactBlocks, BlockEncodings | The i-th short id has the i-th free position; what is found was offered under its id; exactly which initial counts let a search miss its match; without collisions the rebuilt block is the block that was sent. |

Objects of the source that change in place are classes here, with the fields of the source; their methods are
proved against functions on a value that holds those fields, and the laws are proved about these functions. Hashes,
random draws, clocks and foreign rules are arbitrary tables or parameters, so every statement holds for all of them.
The invariant of the address manager is the outcome, `Sound` or `Broken`, of examining its state (module `AddrState`).

## Findings

- `epoch_size` of the cuckoo cache is computed as `45 * size / 100` in 32 bits. The product wraps, and the nominal
  45 percent, or one, is met exactly for sizes up to 95443717 (`CuckooCache.EpochSizeIsNominalIff`). The cache stays sound for
  every size; only the epoch is shorter.
- At the first eviction of an insert, when there is no last location yet, the cuckoo cache takes the second location, although the comment at `src/cuckoocache.h:425-427` speaks of the first (`CuckooCache.Cache.NextLoc`).
- Adding a coin with the promise that nothing is overwritten keeps the coherence of the caches exactly when the promise
  is true (`Coins.AddKeepsIff`): the code can only detect a broken promise for coins in its own cache.
- `SpendCoin` returns true for a coin that is cached but already spent; the coin it moves out is then the spent one
  (`CoinsCache.CoinsViewCache.SpendCoin`).
- `AddCoin` lowers the memory counter before it throws (`CoinsCache.CoinsViewCache.AddCoin`; the specification function
  `Coins.Add` shows the state after the throw).
- `ExtractMatches` clears the matched hashes but appends to the positions it is given
  (`MerkleBlock.PartialMerkleTree.ExtractMatches`).
- Division by zero throws only after the number itself has been cleared (`ArithUint256.DivAssign`).
- The branch of collision settling for "no longer a collision" cannot be reached for a valid address
  (`AddrEvents.PendingIsJudged`): the slot a pending entry waits for is always held.
- With too few transactions `FillBlock` refuses, but it has already moved out what came before the first gap; the
  object still looks usable (`BlockEncodings.PartiallyDownloadedBlock.FillBlock`).
- `FillBlock` never resets the mempool counter. An object used again whose counter is between 1 and the number of short
  ids may stop its search before the only match of a short id: for every such counter there is a mempool with which it
  does (`CompactBlocks.MempoolMatchIsMissed`), and for every other counter it does not
  (`CompactBlocks.MempoolMatchIsFound`). It then asks for more but never rebuilds a wrong block
  (`CompactBlocks.CompactBlocksRebuild` holds for every initial count).
- `DecodeBase58` does not look at its length limit for a text without letters, so an empty text decodes even under a
  negative limit (`Base58.Decodable`).

## Model

| member | source | states |
|---|---|---|
| Coins.UsageUpdate | src/coins.cpp:70-108 | Changing one entry changes the memory total by exactly the difference of the two coins' sizes. |
| Coins.FetchKeeps | src/coins.cpp:44-59 | Fetching keeps every level coherent, changes no view, and answers exactly what the view has, which is then cached. |
| Coins.AddKeeps | src/coins.cpp:70-108 | When the no-overwrite promise is true, adding is not refused, keeps the invariant, and sets the coin in the view unless its script has more than 10000 bytes or begins with 0x6a. |
| Coins.AddKeepsIff | src/coins.cpp:70-108 | Without overwriting, the invariant survives and nothing is refused exactly when the coin is absent from the view; otherwise a later spend brings the old coin back. |
| Coins.SpendKeeps | src/coins.cpp:129-149 | Spending removes exactly that coin from the view, also when the entry is fresh and disappears. |
| Coins.MergeCoherent | src/coins.cpp:182-252 | Merging a coherent child cache into its parent leaves a coherent parent. |
| Coins.MergeOverlays | src/coins.cpp:182-252 | The merged parent shows what the child showed over the parent. |
| Coins.WriteMoves | src/coins.cpp:182-252 | Writing a coherent child never hits the misapplied-flag error, and moves the child's view down. |
| Coins.FlushKeeps | src/coins.cpp:254-262 | Flush leaves the view as it was and makes the view below equal to it. |
| Coins.SyncKeeps | src/coins.cpp:264-279 | Sync does the same and keeps the cached coins, without flags. |
| Coins.UncacheKeeps | src/coins.cpp:281-294 | Uncaching never changes a view, whatever the flags are. |
| Coins.StepRefines | src/coins.cpp:44-294 | Every allowed operation at any level of a tower acts on the stack of views as the plain-map operation does, keeps the invariant and does not throw. |
| Coins.RunRefines | src/coins.cpp:44-294 | So does every allowed run, from any sound tower. |
| Coins.FreshHolds | src/coins.cpp:35-38 | A tower of empty caches over a database of unspent coins is sound and shows the database. |
| Coins.TopMapIsPlain | src/coins.cpp:44-294 | The top map of a run is that of its adds and spends alone, whatever is flushed, synced, fetched or uncached anywhere. |
| Coins.LookupsAnswerAsPlainMap | src/coins.cpp:44-294 | After any allowed run on any number of caches, a lookup at the top answers like a single map, and nothing has thrown. |
| CoinsCache.CoinsDb.BatchWrite | src/txdb.cpp:115-171 | The database applies exactly the dirty entries: spent ones are erased, others stored. |
| CoinsCache.CoinsViewCache.FetchCoin | src/coins.cpp:44-59 | The loop down the caches does what fetching specifies, and says whether the coin is cached. |
| CoinsCache.CoinsViewCache.GetCoin | src/coins.cpp:61-68 | Returns the coin of the view, or nothing. |
| CoinsCache.CoinsViewCache.HaveCoin | src/coins.cpp:162-165 | True exactly when the view has the coin. |
| CoinsCache.CoinsViewCache.AddCoin | src/coins.cpp:70-108 | The new tower is that of adding; it throws exactly when an unspent cached coin would be overwritten against the promise; in a sound tower with a true promise the view gains the coin, unless its script has more than 10000 bytes or begins with 0x6a. |
| CoinsCache.CoinsViewCache.SpendCoin | src/coins.cpp:129-149 | The new tower is that of spending; success and the moved-out coin say exactly whether the view had the coin. |
| CoinsCache.CoinsViewCache.BatchWrite | src/coins.cpp:182-252 | Merges every dirty entry; throws exactly on a fresh entry over an unspent one; empties the child or not. |
| CoinsCache.CoinsViewCache.Flush | src/coins.cpp:254-262 | The tower after it is the flushed one with an empty cache of no memory, or it throws as the write would. |
| CoinsCache.CoinsViewCache.Sync | src/coins.cpp:264-279 | The tower after it is the synced one: the unspent entries stay, with both flags cleared, and the spent ones are gone. |
| CoinsCache.CoinsViewCache.Uncache | src/coins.cpp:281-294 | An entry with neither flag is dropped with its memory; any other stays. |
| CoinsCache.CoinsViewCache.SanityCheck | src/coins.cpp:320-335 | Passes exactly when all flags are legal and the memory counter is the sum of the entries. |
| AddrOps.EmptyIsSound | src/addrman.cpp:107-123 | The empty manager satisfies the invariant. |
| AddrSteps.CreateKeeps | src/addrman.cpp:421-435 | A new entry joins all indexes and counters, and is one more without a slot. |
| AddrSteps.SwapKeeps | src/addrman.cpp:437-459 | Swapping two positions of the random vector keeps the cross indexes. |
| AddrOps.MakeTriedKeeps | src/addrman.cpp:496-553 | Moving an entry to tried, evicting the holder of its slot back to new, keeps every structure and counter. |
| AddrRules.AddSingleKeeps | src/addrman.cpp:555-629 | Adding an announced address keeps the invariant and leaves the tried table alone. |
| AddrEvents.GoodKeeps | src/addrman.cpp:631-683 | Marking an address good keeps the invariant; tried slots once held stay held. |
| AddrEvents.TargetIsHeld | src/addrman.cpp:922-948 | The tried slot a pending collision waits for is held by a tried entry. |
| AddrEvents.PendingIsJudged | src/addrman.cpp:859-920 | A pending collision with a valid address is always judged against the present holder of its slot. |
| AddrEvents.OthersStayPending | src/addrman.cpp:859-920 | Settling one collision leaves the others pending. |
| AddrRefines.AbsAddSingle | src/addrman.cpp:555-629 | On the book: an announcement is ignored, refreshes what is known, fills a free slot, or replaces a terrible or well-referenced address. |
| AddrRefines.AbsGood | src/addrman.cpp:631-683 | On the book: a reached address gives up its new slots and takes its tried slot, whose holder moves back to new. |
| AddrRefines.AbsResolve | src/addrman.cpp:859-920 | On the book: a challenge replaces the holder exactly when the verdict says so. |
| AddrLaws.UnknownIsEntered | src/addrman.cpp:555-629 | In seconds and slots: an unknown address is entered with its penalised time exactly when its slot is free or held by a useless address or one with another slot, which loses it and is forgotten with its last; otherwise nothing changes. |
| AddrLaws.KnownIsHeard | src/addrman.cpp:555-629 | In seconds and slots: which time and services a known address then has, and exactly when it gets one more slot. |
| AddrLaws.TerribleIsUseless | src/addrman.cpp:67-89 | The rule for useless addresses in seconds and attempts. |
| AddrLaws.ReachedIsMoved | src/addrman.cpp:631-683 | Exactly when a reached address moves to its tried slot; it then has no new slot, the holder of the slot is back where its source puts it, and all other slots are as they were. |
| AddrLaws.ReachedIsPending | src/addrman.cpp:631-683 | Exactly when a reached address has to wait instead, among at most ten. |
| AddrLaws.CollisionIsSettled | src/addrman.cpp:859-920 | In seconds: the holder stays if it was reached within 14400; it is replaced if it was tried more than 60 and less than 14400 ago without success, or not tried for 14400 while the other waits for more than 2400; otherwise nothing changes yet. |
| AddrLaws.GoneIsDropped | src/addrman.cpp:859-920 | An entry that is gone or not valid any more stops being pending, and nothing else changes. |
| AddrLaws.AttemptIsNoted | src/addrman.cpp:697-715 | An attempt is counted as failed at most once between two successes of any address. |
| AddrLaws.ConnectionIsNoted | src/addrman.cpp:824-841 | A connected address is dated again after 1200 seconds. |
| AddrLaws.ServicesAreNoted | src/addrman.cpp:843-857 | Setting the services of a known address replaces them and nothing else. |
| AddrLaws.PickedIsHolder | src/addrman.cpp:922-948 | The address picked for a test is the one in the slot a pending entry waits for. |
| AddrLaws.QuotaInNumbers | src/addrman.cpp:790-796 | The number of addresses to give away is the most that both limits allow. |
| AddrLaws.FittingIsUseful | src/addrman.cpp:812-816 | They are of the network asked for, if any, and not useless, in seconds and attempts. |
| AddrRuns.StepKeeps | src/addrman.cpp:421-948 | Every operation keeps the invariant, and every tried slot that was held. |
| AddrRuns.EveryRunIsSound | src/addrman.cpp:1010-1113 | After every run from an empty manager the consistency check passes. |
| AddrRuns.CollisionsAreReal | src/addrman.cpp:631-683 | Over every run at most ten collisions are pending, and each waits for a slot held by a tried entry. |
| AddrRuns.StepRefines | src/addrman.cpp:421-948 | Every operation does to the book, which has no ids, counts or order, what the rule for addresses says. |
| AddrRuns.RunRefines | src/addrman.cpp:421-948 | Every run of the manager is the run of the book by its deeds. |
| AddrCheck.CheckAddrman | src/addrman.cpp:1010-1113 | Returns zero exactly when all the structures agree. |
| AddrCheck.SoundIsConsistent | src/addrman.cpp:1010-1113 | The invariant implies that the check passes. |
| AddrLoad.RoundTrip | src/addrman.cpp:131-404 | Loading what was saved prunes nothing and gives a sound manager with the same slots, addresses and saved fields. |
| AddrDisk.CountsAreWritten | src/addrman.cpp:183-222 | As many new and tried entries are written as the counters say. |
| AddrDisk.SavedFits | src/addrman.cpp:131-404 | A saved file never exceeds the table sizes that loading checks. |
| AddrDisk.SavedIsReloaded | src/addrman.cpp:131-404 | A saved file is accepted, and the reloaded manager is consistent and stands for the same book. |
| AddrAccepted.AcceptedIsSound | src/addrman.cpp:229-404 | For every file, the consistency check after loading passes exactly when the whole invariant holds. |
| AddrSaved.RunsAreValid | src/addrman.cpp:555-629 | Over every run only routable addresses get in, so none is pruned as invalid. |
| AddrSaved.EveryRunIsReloaded | src/addrman.cpp:131-404 | Every state that a run can reach survives saving and loading, in whatever order entries are written and pruned. |
| AddrSaved.EveryRunAfterLoadIsSound | src/addrman.cpp:229-404 | So every run from any file that is loaded with success keeps the manager sound. |
| AddrMan.AddrManImpl.Find | src/addrman.cpp:406-419 | Finds an entry exactly when the address is indexed and its entry exists. |
| AddrMan.AddrManImpl.Create | src/addrman.cpp:421-435 | The fields after it are those of creating, under the next id. |
| AddrMan.AddrManImpl.SwapRandom | src/addrman.cpp:437-459 | The fields after it are those of swapping. |
| AddrMan.AddrManImpl.Delete | src/addrman.cpp:461-476 | The fields after it are those of swapping to the end and dropping. |
| AddrMan.AddrManImpl.ClearNew | src/addrman.cpp:478-494 | Empties a slot and deletes its entry if that was its last reference. |
| AddrMan.AddrManImpl.MakeTried | src/addrman.cpp:496-553 | The loop over the buckets and the eviction amount to moving to tried. |
| AddrMan.AddrManImpl.AddSingle | src/addrman.cpp:555-629 | Does what adding specifies, on the fields and on the book, and says whether a slot was filled. |
| AddrMan.AddrManImpl.Add_ | src/addrman.cpp:685-695 | Adding a list is the run of its additions; true exactly when one filled a slot. |
| AddrMan.AddrManImpl.Good_ | src/addrman.cpp:631-683 | Does what marking good specifies, on the fields and on the book. |
| AddrMan.AddrManImpl.Attempt_ | src/addrman.cpp:697-715 | Records an attempt, and a failure only once per last success of the manager. |
| AddrMan.AddrManImpl.Connected_ | src/addrman.cpp:824-841 | Refreshes the time of a known address when it is older than twenty minutes. |
| AddrMan.AddrManImpl.SetServices_ | src/addrman.cpp:843-857 | Sets the services of a known address. |
| AddrMan.AddrManImpl.ResolveCollisions_ | src/addrman.cpp:859-920 | Settles every pending collision once, in order of the ids, each by the method below. |
| AddrMan.AddrManImpl.Settle | src/addrman.cpp:859-920 | One pending collision is settled by the rule in seconds, and the others stay pending. |
| AddrMan.AddrManImpl.SelectTriedCollision_ | src/addrman.cpp:922-948 | Returns the holder that a drawn pending entry would evict; drops the collision if the entry is gone. |
| AddrMan.AddrManImpl.GetAddr_ | src/addrman.cpp:786-822 | Distinct, fitting addresses within the quota, all fitting ones if the quota is not reached, and no change but shuffling. |
| AddrMan.AddrManImpl.Size_ | src/addrman.cpp:973-993 | The counters give the number of entries of the asked network and table. |
| AddrMan.AddrManImpl.CheckAddrman | src/addrman.cpp:1010-1113 | Zero exactly when the fields are consistent. |
| AddrMan.AddrManImpl.Serialize | src/addrman.cpp:131-227 | Writes the new and tried entries and, bucket by bucket, the indexes of the new ones. |
| AddrMan.AddrManImpl.Unserialize | src/addrman.cpp:229-404 | Rebuilds, re-buckets and prunes as specified, succeeds exactly when sizes fit and the result is consistent, and then, whatever the file was, the whole invariant holds. |
| CheckQueue.BatchSize | src/checkqueue.h:107-114 | A batch is not empty, not larger than the queue, and within the limit. |
| CheckQueue.BatchIsShare | src/checkqueue.h:107-114 | The batch is the largest that leaves as much for every other thread, within the limit, but at least one. |
| CheckQueue.NextKeeps | src/checkqueue.h:70-182 | Every atomic step keeps the counters, the place of every check and the judgement of what ran. |
| CheckQueue.RunKeeps | src/checkqueue.h:70-182 | So does every possible run. |
| CheckQueue.EveryRunIsRight | src/checkqueue.h:70-182 | Every Wait returned true exactly when every check of its round ran once and none failed; no check runs twice; todo counts exactly what is queued or in flight; the master sleeps only while something is to do. |
| CheckQueue.NeverStuck | src/checkqueue.h:70-182 | While the master waits for a result, some thread can lock or execute. |
| CheckQueue.StepShrinks | src/checkqueue.h:70-182 | Every step but a wakeup lowers a measure until Wait returns. |
| CheckQueue.WaitIsBounded | src/checkqueue.h:70-182 | So while Wait is pending a run has at most as many steps as the measure plus twice its wakeups. |
| HeaderChains.CountInClosedForm | src/headerssync.cpp:196-208 | The number of commitment heights in a stretch, in closed form. |
| HeaderChains.WorkIsSum | src/headerssync.cpp:166-249 | However often it wraps, the chain work is the work of the start plus the sum of the proofs, modulo 2^256. |
| HeaderChains.PresyncTakesExactly | src/headerssync.cpp:140-214 | PRESYNC takes exactly the headers that continue the chain link by link with no more commitments than are allowed. |
| HeaderChains.SameChainIsTaken | src/headerssync.cpp:216-279 | REDOWNLOAD never refuses the chain of PRESYNC. |
| HeaderChains.ReachedByWork | src/headerssync.cpp:244-249 | REDOWNLOAD stops checking exactly when the summed work reaches the minimum after one of the headers. |
| HeaderChains.BufferCoversCommitments | src/headerssync.cpp:12-20 | A full redownload buffer always spans at least 23 commitment heights, wherever it lies. |
| HeaderChains.DecompressUndoesCompress | src/headerssync.h:21-53 | Compressed headers of a linked chain are rebuilt from the first previous hash alone. |
| HeaderChains.FrontIsPresyncBit | src/headerssync.cpp:251-269 | The front of the commitment queue is the presync bit of the same height, and it is empty exactly when presync was shorter. |
| HeaderChains.QueueExtends | src/headerssync.cpp:251-269 | Taking one more header keeps queue and heights in step. |
| HeaderChains.TakenAreAppended | src/headerssync.cpp:101-135 | A batch that is taken is taken whole. |
| HeadersSync.HeadersSyncState.Finalize | src/headerssync.cpp:52-64 | Frees the buffers and leaves the history as it was. |
| HeadersSync.HeadersSyncState.ValidateAndProcessSingleHeader | src/headerssync.cpp:178-214 | Takes a header exactly when its difficulty step is permitted and a commitment slot is left where one is needed. |
| HeadersSync.HeadersSyncState.ValidateAndStoreHeadersCommitments | src/headerssync.cpp:140-176 | Takes a batch exactly when it continues the chain link by link with no more commitments than are allowed; goes to REDOWNLOAD exactly when the work of the start and the proofs of the chain, summed modulo 2^256, reach the minimum. |
| HeadersSync.HeadersSyncState.ValidateAndStoreRedownloadedHeader | src/headerssync.cpp:216-279 | Takes a header exactly when it extends the chain with a permitted difficulty and, below the minimum work, has the presync bit at a commitment height. |
| HeadersSync.HeadersSyncState.PopHeadersReadyForAcceptance | src/headerssync.cpp:281-295 | Releases all headers once the work is reached, and otherwise all but a full buffer. |
| HeadersSync.HeadersSyncState.ProcessPresync | src/headerssync.cpp:80-101 | Exact outcome, next phase and request of a PRESYNC call, in terms of the chain and its summed work. |
| HeadersSync.HeadersSyncState.ProcessRedownload | src/headerssync.cpp:101-135 | Exact outcome of a REDOWNLOAD call; unless the work is reached, everything ever released lies below 23 checked commitments, also when the peer ends early or fails. |
| HeadersSync.HeadersSyncState.ProcessNextHeaders | src/headerssync.cpp:69-138 | Both of these, with an empty batch or a finished sync answered without effect. |
| HeadersSync.HeadersSyncState.NothingLost | src/headerssync.cpp:216-295 | Released headers and the rebuilt buffer are exactly the headers accepted. |
| HeadersSync.HeadersSyncState.ReleasedAreCovered | src/headerssync.cpp:281-295 | Between calls, every released header has at least 23 checked commitments above it. |
| BitFlags.BitPackedAtomicFlags.constructor | src/cuckoocache.h:64-71 | All flags start set. |
| BitFlags.BitPackedAtomicFlags.BitSet | src/cuckoocache.h:94-97 | Sets one flag and no other. |
| BitFlags.BitPackedAtomicFlags.BitUnset | src/cuckoocache.h:105-108 | Clears one flag and no other. |
| BitFlags.BitPackedAtomicFlags.BitIsSet | src/cuckoocache.h:115-118 | Reads one flag. |
| BitFlags.MaskIsShift | src/cuckoocache.h:94-118 | The bit of a flag within its byte is one shifted by its index. |
| CuckooTable.FastRangeBound | src/util/fastrange.h:19-22 | A 32-bit hash is mapped below the size. |
| CuckooTable.LocsAreFractions | src/cuckoocache.h:241-251 | Each of the eight locations is the fraction of the size that its hash is of 2^32, rounded down. |
| CuckooTable.SwapCarries | src/cuckoocache.h:437-442 | One swap of the eviction loop keeps track of the single displaced element. |
| CuckooTable.PlaceInserts | src/cuckoocache.h:414-421 | Overwriting garbage stores the carried element and loses nothing that is kept. |
| CuckooTable.EpochStepLeavesRoom | src/cuckoocache.h:287-320 | After the epoch check there is room for one more element in the current epoch. |
| CuckooTable.EpochStepInNumbers | src/cuckoocache.h:287-320 | Exactly when an epoch ends, what ages and what is given up then, and when the next scan is due. |
| CuckooTable.EraseKeeps | src/cuckoocache.h:476-486 | Marking an element as garbage keeps the cache sound. |
| CuckooCache.EpochSizeIsNominalIff | src/cuckoocache.h:345-346 | The epoch is 45 percent of the size, and at least one, exactly up to 95443717 slots. |
| CuckooCache.Cache.KeptAreFew | src/cuckoocache.h:287-320 | At any time no more than two epochs of elements are kept, each with its sixteenth more. |
| CuckooCache.Cache.constructor | src/cuckoocache.h:337-351 | A new cache is sound, with every slot garbage. |
| CuckooCache.Cache.EpochCheck | src/cuckoocache.h:287-320 | Counts down, or ages the table when the current epoch is full, or sets the counter to when it can be full. |
| CuckooCache.Cache.NextLoc | src/cuckoocache.h:422-437 | The location after the last one, cyclically, and the second one if there is none. |
| CuckooCache.Cache.Insert | src/cuckoocache.h:399-447 | A stored element is refreshed in place. Otherwise it goes to the first of its locations that may be overwritten; if none may, the element at its second location makes room and goes on. The kept elements, each with its epoch, are the old ones and the new one, less at most one dropped element; nothing is lost if a location of the new element may be overwritten, and what is not dropped is kept in the current epoch. |
| CuckooCache.Cache.Contains | src/cuckoocache.h:476-486 | Found exactly when stored, also if erased before; erasing only marks its slot. |
| MerkleShape.CalcTreeWidthFormula | src/merkleblock.h:70-72 | The shift formula for the width is the number of nodes obtained by halving upwards. |
| MerkleTree.SiblingsDiffer | src/merkleblock.cpp:115-125 | Over distinct transactions the two children of a node never have equal hashes. |
| MerkleTree.ExtractUndoesBuild | src/merkleblock.cpp:77-131 | Decoding the encoding of any subtree, wherever it stands, gives its hash and its flagged leaves, and finds fault exactly if two children above a flagged leaf have the same hash. |
| MerkleTree.BuildTiles | src/merkleblock.cpp:77-93 | The hashes sent belong to subtrees that cover the leaves from left to right: flagged leaves, and subtrees without any. |
| MerkleTree.FlaggedExactly | src/merkleblock.cpp:95-131 | The list of matches has the flagged transactions, at their positions and in order, and no others. |
| MerkleRoots.ComputeMerkleRoot | src/consensus/merkle.cpp:45-63 | The rounds over the list give the root, and report exactly if two equal neighbours were paired. |
| MerkleRoots.RepeatedTailIsReported | src/consensus/merkle.cpp:8-42 | Repeating the last of an odd number of hashes does not change the root, but is reported. |
| MerkleRoots.DistinctIsNotMutated | src/consensus/merkle.cpp:45-63 | Nothing is reported for different transactions. |
| MerkleBlock.CalcHashIsRoot | src/merkleblock.cpp:57-75 | The hash at the top of the tree is the root that consensus computes by rounds over the list. |
| MerkleBlock.TwinsAreRefused | src/merkleblock.cpp:115-125 | A tree with two equal children above a flagged transaction is refused. |
| MerkleTree.BuildIsSmall | src/merkleblock.cpp:77-93 | An encoding has no more hashes than leaves and no fewer bits than hashes. |
| MerkleTree.ExtractIsSound | src/merkleblock.cpp:95-131 | A clean decoding with the true hash of a subtree reports only its true leaves. |
| MerkleBlock.PartialMerkleTree.FromTransactions | src/merkleblock.cpp:133-145 | The object built from a list and flags holds the encoding of the tree. |
| MerkleBlock.PartialMerkleTree.TraverseAndBuild | src/merkleblock.cpp:77-93 | Appends exactly the encoding of the subtree. |
| MerkleBlock.PartialMerkleTree.TraverseAndExtract | src/merkleblock.cpp:95-131 | Yields exactly what decoding the subtree yields, and marks the object bad in the same cases. |
| MerkleBlock.PartialMerkleTree.ExtractMatches | src/merkleblock.cpp:149-180 | Returns the root exactly when the counts are plausible, the decoding is clean, and all bits and hashes are used. |
| MerkleBlock.BitsToBytes | src/merkleblock.cpp:12-19 | Packs eight bits to a byte, zero-padded, so that unpacking returns the bits and packing what was unpacked returns the bytes. |
| MerkleBlock.BytesToBitsIsInjective | src/merkleblock.cpp:21-28 | Different bytes unpack to different bits. |
| MerkleBlock.BuiltTreesExtract | src/merkleblock.cpp:77-180 | A built tree, with any padding of its bits, extracts to the root that consensus computes and exactly the flagged transactions. |
| MerkleBlock.SendAndExtract | src/merkleblock.h:88-96 | The same through the wire: build, pack, read back, extract. |
| MerkleBlock.ExtractionsAreTrue | src/merkleblock.cpp:149-180 | Whoever made it, a tree that extracts to the root of a list reports only transactions at their true positions. |
| ArithUint256.AddAssign | src/arith_uint256.h:127-137 | Addition modulo 2^256. |
| ArithUint256.Increment | src/arith_uint256.h:165-172 | Adds one modulo 2^256. |
| ArithUint256.Negate | src/arith_uint256.h:69-76 | The additive inverse modulo 2^256. |
| ArithUint256.SubAssign | src/arith_uint256.h:139-143 | Subtraction modulo 2^256. |
| ArithUint256.CompareTo | src/arith_uint256.cpp:109-118 | Orders as the numbers do. |
| ArithUint256.Bits | src/arith_uint256.cpp:179-191 | The number of bits of the number. |
| ArithUint256.ShiftLeft | src/arith_uint256.cpp:21-35 | Multiplies by a power of two modulo 2^256, for every shift. |
| ArithUint256.ShiftRight | src/arith_uint256.cpp:38-52 | Divides by a power of two, rounding down, for every shift. |
| ArithUint256.MulAssign | src/arith_uint256.cpp:67-80 | Multiplication modulo 2^256. |
| ArithUint256.DivAssign | src/arith_uint256.cpp:83-106 | Exact division rounding down; division by zero is reported and leaves zero. |
| CompactForm.OverflowIsExact | src/arith_uint256.cpp:212-215 | The overflow test on size and word holds exactly when the value does not fit into 256 bits. |
| CompactForm.CompactInNumbers | src/arith_uint256.cpp:198-216 | The value in one formula: the low 23 bits times 256 to the power of the top byte, divided by 2^24, rounded down. |
| CompactForm.ProofIdentity | src/chain.cpp:139-143 | The detour over the complement computes the quotient of 2^256. |
| BlockProof.SetCompact | src/arith_uint256.cpp:198-216 | The value modulo 2^256; overflow flagged exactly when it does not fit, negative exactly for a sign bit on a nonzero value. |
| BlockProof.GetCompact | src/arith_uint256.cpp:218-239 | The compact form stands for the number rounded down to whole bytes below its mantissa, is canonical, and has the sign. |
| CompactForm.CanonicalIsUnique | src/arith_uint256.cpp:198-239 | The form found for the value of a canonical number is that number. |
| BlockProof.Recode | src/arith_uint256.cpp:198-239 | Decoding and encoding again returns a compact number exactly when it is canonical and its value fits. |
| BlockProof.GetBlockProof | src/chain.cpp:131-144 | floor(2^256 / (target + 1)), where the target is that formula, for a nonzero target below 2^256 without the sign bit, and zero for the others. |
| Chain.GetSkipHeight | src/chain.cpp:83-91 | Leads strictly down. |
| Chain.SkipFromEven | src/chain.cpp:83-91 | From an even height, to the height without its lowest one bit. |
| Chain.SkipFromOdd | src/chain.cpp:83-91 | From an odd height, to the height without the two lowest of its other one bits. |
| Chain.InvertsLowestOne | src/chain.cpp:80 | Clears exactly the lowest one bit. |
| Chain.BlockIndex.GetAncestor | src/chain.cpp:93-118 | Ends exactly where walking by parents would, or nowhere for a height out of range. |
| Chain.BlockIndex.BuildSkip | src/chain.cpp:125-129 | The new pointer leads to the ancestor at the skip height. |
| Chain.BlockManager.AddToBlockIndex | src/node/blockstorage.cpp:84-116 | Every tree grown this way has correct heights and skip pointers throughout. |
| Chain.CChain.SetTip | src/chain.cpp:21-29 | Afterwards every entry of the vector is the tip's ancestor at that height, although the loop stops at the first entry in place. |
| Chain.CChain.FindFork | src/chain.cpp:60-69 | The highest common entry of a block's path and the chain, or null. |
| Chain.LastCommonAncestor | src/chain.cpp:165-180 | The highest common entry of two paths; null when the roots differ. |
| Chain.HighestCommonIsUnique | src/chain.cpp:60-180 | There is only one, so FindFork and LastCommonAncestor with the tip agree. |
| Base58.DecodeUndoesEncode | src/base58.cpp:38-125 | Every byte string is decoded from its encoding, exactly when the limit admits its length. |
| Base58.EncodeUndoesDecode | src/base58.cpp:38-125 | Every decoded text is, without surrounding spaces, the encoding of the result. |
| Base58.CheckDecodeUndoesEncode | src/base58.cpp:135-168 | The same with the four-byte checksum of any hash, and the limit that saturates. |
| Base58.CheckEncodeUndoesDecode | src/base58.cpp:149-168 | Nothing else is accepted with a checksum. |
| Base58.LettersSuffice | src/base58.cpp:97 | 138 letters per hundred bytes and one more are enough for every length. |
| Base58.BytesSuffice | src/base58.cpp:52 | 733 bytes per thousand letters and one more are enough for every length. |
| Base58.AlphabetIs | src/base58.cpp:18 | The 58 letters, as one string. |
| Base58.SpacesAre | src/util/strencodings.h:168-170 | The spaces by their codes. |
| Base58.TrimSplits | src/base58.cpp:40-75 | What is trimmed is all the spaces on both sides. |
| Base58.EncodingVector | src/base58.cpp:87-125 | Three letters b are written a3gV. |
| Base58Coder.Carry | src/base58.cpp:62-66 | The carry loop multiplies and adds in place, carries nothing out, and leaves no leading zero. |
| Base58Coder.EncodeBase58 | src/base58.cpp:87-125 | One '1' per leading zero byte, then the number in 58 letters. |
| Base58Coder.DecodeBase58 | src/base58.cpp:38-85 | Exactly the specified bytes, or failure for a NUL, a wrong letter, inner spaces or too long a result. |
| Base58Coder.EncodeBase58Check | src/base58.cpp:135-147 | Appends the checksum and encodes. |
| Base58Coder.DecodeBase58Check | src/base58.cpp:149-168 | Decodes, verifies and removes the checksum. |
| Bech32Code.StepXor | src/bech32.cpp:194-213 | One step of the remainder is linear. |
| Bech32Code.StepInjective | src/bech32.cpp:194-213 | And loses nothing. |
| Bech32Code.BurstsAreSeen | src/bech32.cpp:130-216 | Two lists of any length that differ only within six neighbouring symbols have different remainders. |
| Bech32Code.OneErrorIsSeen | src/bech32.cpp:130-216 | So have two that differ in one symbol. |
| GaloisField.TimesEIsProduct | src/bech32.cpp:86-112 | Multiplying by e, in terms of 9 and 23 times the upper half in GF(32). |
| GaloisField.OrderIs1023 | src/bech32.cpp:158-175 | A power of e is one exactly for the multiples of 1023. |
| GaloisField.EveryNonzeroIsPower | src/bech32.cpp:37-44 | Every nonzero element of GF(1024) is a power of e. |
| Bech32Roots.StepValue | src/bech32.cpp:158-216 | At e^997, e^998 and e^999, a step of the remainder multiplies its value and adds the symbol: they are roots of the generator, and the five constants are its multiples. |
| Bech32Errors.PolyValue | src/bech32.cpp:218-239 | There the remainder of a list has the value of the list as a polynomial. |
| Bech32Errors.Vandermonde | src/bech32.cpp:172-175 | Three terms weighted by three consecutive powers of two distinct factors vanish only if each does. |
| Bech32Errors.ThreeErrorsAreSeen | src/bech32.cpp:130-216 | Two lists of any length that differ in one, two or three places, less than 1023 apart, have different remainders. |
| Bech32Errors.OneErrorIsLocated | src/bech32.cpp:456-471 | Of a single error in at most 1023 symbols, the place is the only exponent p with s_998 = e^p s_997, and then s_999 = e^p s_998. |
| Bech32Code.ClosingIsUnique | src/bech32.cpp:341-352 | Exactly one list of six symbols brings the remainder to a given constant. |
| Bech32Code.PolyMod | src/bech32.cpp:130-216 | The loop computes the remainder. |
| Bech32Text.CharIsFound | src/bech32.cpp:22-35 | Every symbol is read back from its character, which is printable, not upper case and not the separator. |
| Bech32Text.SymbolIsFound | src/bech32.cpp:22-35 | A character that is read as a symbol is, in lower case, the symbol's character. |
| Bech32Vectors.CharsetIs | src/bech32.cpp:22-23 | The character set, as one string. |
| Bech32Vectors.AcceptableInBytes | src/bech32.cpp:287-309 | Acceptable text in byte values. |
| Bech32Vectors.Bech32Vector | src/bech32.cpp:373-397 | The string a12uel5l of BIP 173 decodes to the readable part a without data. |
| Bech32Vectors.Bech32mVector | src/bech32.cpp:373-397 | The string a1lqfn3a of BIP 350 does, with the other constant. |
| Bech32.ChecksumIsUnique | src/bech32.cpp:327-352 | The checksum verifies for its encoding, and no other six symbols do. |
| Bech32.DecodeUndoesEncode | src/bech32.cpp:357-397 | A message without upper case survives exactly when its readable part is printable and not empty and the string has at most 90 characters. |
| Bech32.EncodeUndoesDecode | src/bech32.cpp:357-397 | Every decoded string is, in lower case, the encoding of the result. |
| Bech32.CheckCharacters | src/bech32.cpp:287-309 | Lists exactly the unprintable characters and those not in the case of the first letter; passes exactly for printable text of one case. |
| Bech32Coder.ExpandHRP | src/bech32.cpp:312-324 | High bits, zero, low bits. |
| Bech32Coder.VerifyChecksum | src/bech32.cpp:327-338 | The encoding whose constant the remainder is, if any. |
| Bech32Coder.CreateChecksum | src/bech32.cpp:341-352 | The six groups of five bits are the unique checksum. |
| Bech32Coder.Encode | src/bech32.cpp:357-370 | Readable part, separator, data and checksum. |
| Bech32Coder.Decode | src/bech32.cpp:373-397 | Exactly the specified message, or nothing. |
| Bech32Coder.WrongBurstsAreRejected | src/bech32.cpp:327-338 | Data with up to six neighbouring symbols replaced does not verify for the same encoding. |
| Bech32Coder.WrongSymbolsAreRejected | src/bech32.cpp:327-338 | Nor does data and readable part with up to three symbols replaced. |
| Bech32Coder.WrongCharacterIsRejected | src/bech32.cpp:312-338 | Nor with one character of the readable part replaced, which changes two symbols. |
| Bech32Coder.StringsAreFarApart | src/bech32.cpp:130-216 | Strings that verify with the same readable part and encoding differ in at least four places. |
| CompactBlocks.PlaceOneMore | src/blockencodings.cpp:60-75 | Each prefilled transaction gets a free place within the list. |
| CompactBlocks.WellPlacedIsWithin | src/blockencodings.cpp:60-75 | The tests say exactly that every prefilled transaction is there, at the sum of the offsets and the transactions before it, within the block and within 16 bits. |
| CompactBlocks.MapOneMore | src/blockencodings.cpp:83-87 | The next short id is entered at the next free position. |
| CompactBlocks.DistinctByCount | src/blockencodings.cpp:103-104 | The map has as many entries as short ids exactly when none repeats. |
| CompactBlocks.FoundWereOffered | src/blockencodings.cpp:106-164 | Whatever ends up at a short id's position was offered under that id, and no other position changes. |
| CompactBlocks.MempoolMatchIsFound | src/blockencodings.cpp:106-164 | A unique match in the mempool is found, although the scan may stop early, unless the extra transactions contradict it, from every initial count that is not between 1 and the number of short ids. |
| CompactBlocks.MempoolMatchIsMissed | src/blockencodings.cpp:106-164 | From every such count there is a mempool whose only match of a short id is not found. |
| CompactBlocks.AmbiguousIsLeftOut | src/blockencodings.cpp:106-164 | With two candidates in the mempool, and another short id without any, a position is left to be asked for. |
| CompactBlocks.ContradictedIsLeftOut | src/blockencodings.cpp:137-164 | So it is when an extra transaction differs from the only candidate in the mempool. |
| CompactBlocks.FillRestores | src/blockencodings.cpp:187-196 | With the missing transactions in order, positions that agree with a block become the block. |
| CompactBlocks.FillAt | src/blockencodings.cpp:187-196 | The k-th free position gets the k-th missing transaction, and every other keeps its own. |
| CompactBlocks.MissingAt | src/net_processing.cpp:4374-4378 | The k-th transaction asked for is the one at the k-th free position. |
| CompactBlocks.CompactBlocksRebuild | src/blockencodings.cpp:19-29 | A block survives its compact form for any mempool and any extra transactions without collisions. |
| BlockEncodings.SkipFilled | src/blockencodings.cpp:85-86 | The scan stays within the list and stops at the i-th free position. |
| BlockEncodings.MapShortIds | src/blockencodings.cpp:82-100 | Every short id gets its position, or a bucket is too full. |
| BlockEncodings.PartiallyDownloadedBlock.PlacePrefilled | src/blockencodings.cpp:60-75 | Succeeds exactly when every prefilled transaction is well placed, and then they are all in place. |
| BlockEncodings.PartiallyDownloadedBlock.MatchOffers | src/blockencodings.cpp:106-164 | The loop over one list does what offering specifies, with the early stop. |
| BlockEncodings.PartiallyDownloadedBlock.InitData | src/blockencodings.cpp:49-169 | Exactly when a compact block is invalid, fails or is accepted, and what is then available. |
| BlockEncodings.PartiallyDownloadedBlock.FillBlock | src/blockencodings.cpp:179-224 | Exactly when a block is completed, what it consists of, complete or not, and what is left of the object. |
| BlockEncodings.Request | src/net_processing.cpp:4374-4378 | Asks for the transactions at the unavailable positions, in order. |
| BlockEncodings.SendAndRebuild | src/blockencodings.cpp:19-224 | Compact form, matching, request and filling give back the block that was sent, and fail exactly when a bucket of short ids is too full. |

## Left out

- The network, files, threads and locks as such; randomness, clocks and hashes are parameters, and all of it is one atomic step per critical section.
- Machine widths where the code cannot reach them in practice: ids, counters and buffer-size products are unbounded integers; widths are modelled for chain work, 256-bit numbers, the epoch size, compact targets, checksums and 16-bit positions.
- CoinsCache.CoinsViewCache.AddCoin: the memory of a script counts its length, not the capacity its container has allocated.
- CoinsCache.CoinsViewCache.BatchWrite: the state of a partly merged cache after the throw is not stated, and the best-block hash is not modelled.
- CoinsCache.CoinsViewCache.Flush: a base whose write returns false, and the best-block hash, are not modelled.
- CoinsCache.CoinsViewCache.Sync: a base whose write returns false, and the best-block hash, are not modelled.
- `EmplaceCoinInternalDANGER`, `AddCoins`, `AccessByTxid` and cache reallocation.
- AddrCheck.CheckAddrman: the test that the secret key is not null (error -16) is missing, because keys are not modelled; which negative code a failure gives is not stated, only when the result is zero.
- AddrMan.AddrManImpl.CheckAddrman: like AddrCheck.CheckAddrman, says nothing of the secret key and of which negative code a failure gives.
- AddrMan.AddrManImpl.Serialize: the byte encoding, the format version and the key are not modelled; the file is a value with entries, buckets and the address-map checksum.
- AddrMan.AddrManImpl.Unserialize: the format versions, their older layouts and the exceptions of a short or damaged stream are not modelled.
- AddrRuns.StepRefines: the address book has no pending collisions, so which of them are pending shows only in which challenges are settled.
- AddrMan.AddrManImpl.GetAddr_: the pseudo-random draws are a parameter; nothing is said about their distribution.
- `Select_`, `GetChance` and `FindAddressEntry_`: random choice by weight, and a read-only query that would only add easy members.
- Bucket and position hashes of the address manager are arbitrary tables within range, so nothing is said about how they spread; times have the resolution of seconds; the tables of buckets are maps where an absent slot stands for -1.
- `StopWorkerThreads` and the notification of single workers: a waiting worker may wake at any time.
- HeadersSync.HeadersSyncState.Finalize: does not null the last header and the two hashes kept for the buffer, which are not read afterwards.
- HeadersSync.HeadersSyncState.constructor: the bound on commitments, which the source derives from times, is a parameter; `NextHeadersRequestLocator` is not modelled.
- CuckooCache.Cache.constructor: the depth limit, a floating-point logarithm, is a parameter of at least one; `setup_bytes` is not modelled.
- The constructor of `CMerkleBlock` with its bloom filter, the Merkle root of witness hashes, and reading the transactions of a block.
- `GetBlockProofEquivalentTime`, `LocatorEntries`, `FindEarliestAtLeast` and the comparison of chains by work.
- Chain.BlockManager.AddToBlockIndex: the lookup by hash, the time maximum and the chain work of an entry are not modelled.
- Chain.InvertsLowestOne: the bitwise form `n & (n - 1)` is modelled by halving.
- Base58Coder.EncodeBase58: the C string is a sequence of characters, and its end stands for the terminating NUL.
- `LocateErrors` as an operation, with its two candidate encodings and the search for two errors, the packed constants of `Syndrome` and the loops that fill the logarithm tables; detection of four errors within 89 symbols, which rests on the choice of this generator among many.
- BlockEncodings.MapShortIds: which buckets are too full is an arbitrary set of positions.
- BlockEncodings.SendAndRebuild: the same set is a parameter.
- BlockEncodings.PartiallyDownloadedBlock.InitData: the size of a hash-map bucket is given as a set of positions; a block from the wire has at most 65535 transactions, which reading it checks.
- BlockEncodings.PartiallyDownloadedBlock.FillBlock: checking the finished block is a verdict given from outside; the counters that only feed the log (`prefilled_count`, `extra_count`) are not modelled.
- Script interpretation, wallets, mempool policy, block filters, ban lists, compression and the RPC interface.
