/** Every state that a run can reach is saved and reloaded without loss. */
module AddrSaved {
  import opened AddrState
  import opened AddrBook
  import opened AddrRules
  import opened AddrRefines
  import opened AddrRuns
  import opened AddrOps
  import opened AddrCheck
  import opened AddrFile
  import opened AddrLoad
  import opened AddrDisk
  import opened AddrAccepted

  /** Only routable addresses are known. */
  ghost predicate KnowsRoutable(env: Env, b: Book) {
    forall a :: a in b.known ==> a.ip in env.routable
  }

  lemma PlaceKeepsRoutable(env: Env, b: Book, a: Service, slot: Slot, now: int)
    requires KnowsRoutable(env, b)
    ensures KnowsRoutable(env, PlaceIn(env, b, a, slot, now).0)
  {
  }

  lemma AddKeepsRoutable(env: Env, b: Book, a: Announced, source: NetAddr, penalty: int, now: int, roll: nat)
    requires KnowsRoutable(env, b)
    ensures KnowsRoutable(env, AddTo(env, b, a, source, penalty, now, roll).0)
  {
    var slot, p := NewSlot(env, a.addr, source), Penalty(a, source, penalty);
    if a.addr.ip in env.routable && a.addr in b.known {
      PlaceKeepsRoutable(env, b.(known := b.known[a.addr := Heard(b.known[a.addr], a, p, now)]), a.addr, slot, now);
    } else if a.addr.ip in env.routable {
      PlaceKeepsRoutable(env, b.(known := b.known[a.addr := FirstHeard(a, source, p)]), a.addr, slot, now);
    }
  }

  lemma GoodKeepsRoutable(env: Env, b: Book, a: Service, test: bool, time: int)
    requires KnowsRoutable(env, b) && Complete(b)
    ensures KnowsRoutable(env, GoodIn(env, b, a, test, time).0)
  {
  }

  /** Only an announcement makes an address known, and only a routable one. */
  lemma DeedKeepsRoutable(env: Env, b: Book, deed: Deed)
    requires KnowsRoutable(env, b)
    ensures KnowsRoutable(env, Do(env, b, deed))
  {
    match deed
    case Announce(a, source, penalty, now, roll) => AddKeepsRoutable(env, b, a, source, penalty, now, roll);
    case Reach(a, test, time) =>
      if Complete(b) {
        GoodKeepsRoutable(env, b, a, test, time);
      }
    case Challenge(a, now) =>
      if Complete(b) {
        GoodKeepsRoutable(env, b, a, false, now);
      }
    case _ =>
  }

  lemma {:induction false} DeedsKeepRoutable(env: Env, b: Book, deeds: seq<Deed>)
    requires KnowsRoutable(env, b)
    ensures KnowsRoutable(env, DoAll(env, b, deeds))
    decreases |deeds|
  {
    if deeds != [] {
      DeedsKeepRoutable(env, b, deeds[..|deeds| - 1]);
      DeedKeepsRoutable(env, DoAll(env, b, deeds[..|deeds| - 1]), deeds[|deeds| - 1]);
    }
  }

  lemma EntriesAreRoutable(env: Env, s: State, b: Book)
    requires Inv(env, s) && Reads(s, b) && KnowsRoutable(env, b) && env.routable <= env.valid
    ensures AllValid(env, s)
  {
    forall i | i in s.info
      ensures s.info[i].addr.ip in env.valid
    {
      EntryIsKnown(env, s, i);
    }
  }

  lemma EntryIsKnown(env: Env, s: State, i: Id)
    requires Inv(env, s) && i in s.info
    ensures s.info[i].addr in Abs(s).known
  {
    EntryIsPage(env, s, {}, i);
  }

  lemma RunsAreValid(env: Env, ops: seq<Op>)
    requires AllTimely(ops) && env.routable <= env.valid
    ensures Inv(env, EMPTY) && AllValid(env, Run(env, EMPTY, ops))
  {
    EmptyIsSound(env);
    RunRefines(env, EMPTY, ops);
    DeedsKeepRoutable(env, Abs(EMPTY), Deeds(env, EMPTY, ops));
    EntriesAreRoutable(env, Run(env, EMPTY, ops), DoAll(env, Abs(EMPTY), Deeds(env, EMPTY, ops)));
  }

  /**
   * After any run from an empty manager, in whatever order the entries are written and pruned, the file is
   * accepted, the reloaded manager passes its consistency check, and it stands for the same book.
   */
  lemma EveryRunIsReloaded(env: Env, ops: seq<Op>, order: seq<Id>, checksum: nat, pruneOrder: seq<Id>)
    requires AllTimely(ops) && env.routable <= env.valid && Inv(env, EMPTY)
    requires Enumerates(order, Run(env, EMPTY, ops).info)
    ensures var s := Run(env, EMPTY, ops);
            var file := Save(env, s, order, checksum);
            var t := Prune(env, Load(env, file, checksum), pruneOrder);
            && FitsTables(env, file) && Consistent(env, t) && Inv(env, t)
            && SameBook(Abs(s), Abs(t))
  {
    RunsAreValid(env, ops);
    SavedIsReloaded(env, Run(env, EMPTY, ops), order, checksum, pruneOrder);
  }

  /** Every run that starts from an accepted file, well written or not, is sound throughout. */
  lemma EveryRunAfterLoadIsSound(env: Env, file: File, checksum: nat, pruneOrder: seq<Id>, ops: seq<Op>)
    requires AllTimely(ops) && Consistent(env, Prune(env, Load(env, file, checksum), pruneOrder))
    ensures var t := Prune(env, Load(env, file, checksum), pruneOrder);
            Inv(env, t) && Consistent(env, Run(env, t, ops))
  {
    AcceptedIsSound(env, file, checksum, pruneOrder);
    SoundIsConsistent(env, Run(env, Prune(env, Load(env, file, checksum), pruneOrder), ops));
  }
}
