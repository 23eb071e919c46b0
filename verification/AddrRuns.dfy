/** Whole runs of the address manager: whatever is done to it, in whatever order, its invariant holds. */
module AddrRuns {
  import opened AddrState
  import opened AddrFrames
  import opened AddrSteps
  import opened AddrOps
  import opened AddrRules
  import opened AddrEvents
  import opened AddrBook
  import opened AddrRefines
  import opened AddrCheck

  /** One step of a public operation, with the clock readings and the random draws it uses. */
  datatype Op =
    | Add(announced: Announced, source: NetAddr, penalty: int, now: int, roll: nat)
    | MarkGood(addr: Service, test: bool, time: int)
    | NoteAttempt(addr: Service, countFailure: bool, time: int)
    | NoteConnected(addr: Service, time: int)
    | NoteServices(addr: Service, services: Services)
    | Settle(id: Id, now: int)
    | DropCollision(id: Id)
    | Shuffle(p: nat, q: nat)

  /** Times lie after the epoch. */
  predicate Timely(op: Op) {
    match op
    case MarkGood(_, _, time) => time > 0
    case NoteAttempt(_, _, time) => time > 0
    case Settle(_, now) => now > 0
    case _ => true
  }

  /** The random vector with two places exchanged, if there are such places. */
  function Swapped(s: State, p: nat, q: nat): State { if CanSwap(s, p, q) then SwapRandom(s, p, q) else s }

  ghost function Step(env: Env, s: State, op: Op): State
    requires Inv(env, s) && Timely(op)
  {
    match op
    case Add(a, source, penalty, now, roll) =>
      AddSingleKeeps(env, s, a, source, penalty, now, roll);
      AddSingle(env, s, a, source, penalty, now, roll).0
    case MarkGood(a, test, time) =>
      GoodKeeps(env, s, a, test, time);
      Good(env, s, a, test, time).0
    case NoteAttempt(a, count, time) => Attempt(s, a, count, time)
    case NoteConnected(a, time) => Connected(s, a, time)
    case NoteServices(a, services) => SetServices(s, a, services)
    case Settle(i, now) =>
      ResolveKeeps(env, s, i, now);
      ResolveOne(env, s, i, now)
    case DropCollision(i) => s.(collisions := s.collisions - {i})
    case Shuffle(p, q) => Swapped(s, p, q)
  }

  lemma ShuffleKeeps(env: Env, s: State, p: nat, q: nat)
    requires Inv(env, s) && CanSwap(s, p, q)
    ensures Inv(env, SwapRandom(s, p, q)) && SwapRandom(s, p, q).tried == s.tried
  {
    var t := SwapRandom(s, p, q);
    SwapKeeps(env, s, {}, {}, p, q);
    SwapOnward(s, p, q);
    CollidingOnward(env, s, t);
  }

  lemma SwapOnward(s: State, p: nat, q: nat)
    requires CanSwap(s, p, q)
    ensures var t := SwapRandom(s, p, q); Onward(s, t) && t.tried == s.tried && t.collisions == s.collisions
  {
    var t := SwapRandom(s, p, q);
    SwapAgrees(s, p, q);
    ButPos(s.info, t.info);
    AgreeOnward(s, t);
  }

  lemma AgreeOnward(s: State, t: State)
    requires AgreeAddr(s.info, t.info) && s.idCount == t.idCount
    ensures Onward(s, t)
  {
  }

  /** Every step keeps the invariant, and keeps every occupied slot of the tried table occupied. */
  lemma StepKeeps(env: Env, s: State, op: Op)
    requires Inv(env, s) && Timely(op)
    ensures Inv(env, Step(env, s, op)) && s.tried.Keys <= Step(env, s, op).tried.Keys
  {
    match op
    case Add(a, source, penalty, now, roll) => AddSingleKeeps(env, s, a, source, penalty, now, roll);
    case MarkGood(a, test, time) => GoodKeeps(env, s, a, test, time);
    case NoteAttempt(a, count, time) => AttemptKeeps(env, s, a, count, time);
    case NoteConnected(a, time) => ConnectedKeeps(env, s, a, time);
    case NoteServices(a, services) => SetServicesKeeps(env, s, a, services);
    case Settle(i, now) => ResolveKeeps(env, s, i, now);
    case DropCollision(i) => DropKeeps(env, s, i);
    case Shuffle(p, q) =>
      if CanSwap(s, p, q) {
        ShuffleKeeps(env, s, p, q);
      }
  }

  ghost predicate AllTimely(ops: seq<Op>) { forall k :: 0 <= k < |ops| ==> Timely(ops[k]) }

  lemma SubsetTwice(a: set<Slot>, b: set<Slot>, c: set<Slot>)
    requires a <= b && b <= c
    ensures a <= c
  {
  }

  /** The state after a run: sound, and with every tried slot still occupied that was occupied at its start. */
  ghost function Run(env: Env, s: State, ops: seq<Op>): (t: State)
    requires Inv(env, s) && AllTimely(ops)
    ensures Inv(env, t) && s.tried.Keys <= t.tried.Keys
    decreases |ops|
  {
    if ops == [] then s
    else
      var last := |ops| - 1;
      var mid := Run(env, s, ops[..last]);
      StepKeeps(env, mid, ops[last]);
      SubsetTwice(s.tried.Keys, mid.tried.Keys, Step(env, mid, ops[last]).tried.Keys);
      Step(env, mid, ops[last])
  }

  lemma RunAppend(env: Env, s: State, ops: seq<Op>, op: Op)
    requires Inv(env, s) && AllTimely(ops) && Timely(op)
    ensures AllTimely(ops + [op]) && Run(env, s, ops + [op]) == Step(env, Run(env, s, ops), op)
  {
    assert (ops + [op])[..|ops|] == ops;
  }

  /** From an empty manager, every run leads to a state for which the consistency check returns zero. */
  lemma EveryRunIsSound(env: Env, ops: seq<Op>)
    requires AllTimely(ops)
    ensures Inv(env, EMPTY) && Consistent(env, Run(env, EMPTY, ops))
  {
    EmptyIsSound(env);
    SoundIsConsistent(env, Run(env, EMPTY, ops));
  }

  /**
   * Over every run, at most ten collisions are pending and the tried slot that each of them waits
   * for is held by a tried entry.
   */
  lemma CollisionsAreReal(env: Env, ops: seq<Op>, i: Id)
    requires AllTimely(ops) && Inv(env, EMPTY)
    ensures var s := Run(env, EMPTY, ops);
            && |s.collisions| <= 10
            && (i in s.collisions && i in s.info ==>
                  var slot := TriedSlot(env, s.info[i].addr);
                  slot in s.tried && s.tried[slot] in s.info && s.info[s.tried[slot]].inTried)
  {
    var s := Run(env, EMPTY, ops);
    if i in s.collisions && i in s.info {
      TargetIsHeld(env, s, i);
    }
  }

  // ----- runs of the book

  /** What a step means for the book: addresses only, no ids. */
  datatype Deed =
    | Announce(announced: Announced, source: NetAddr, penalty: int, now: int, roll: nat)
    | Reach(addr: Service, test: bool, time: int)
    | Try(addr: Service, countFailure: bool, time: int)
    | See(addr: Service, time: int)
    | Serve(addr: Service, services: Services)
    | Challenge(addr: Service, now: int)
    | Nothing

  /** Settling a collision is about the address of the entry, if it still exists. */
  function DeedOf(s: State, op: Op): Deed {
    match op
    case Add(a, source, penalty, now, roll) => Announce(a, source, penalty, now, roll)
    case MarkGood(a, test, time) => Reach(a, test, time)
    case NoteAttempt(a, count, time) => Try(a, count, time)
    case NoteConnected(a, time) => See(a, time)
    case NoteServices(a, services) => Serve(a, services)
    case Settle(i, now) => if i in s.info then Challenge(s.info[i].addr, now) else Nothing
    case DropCollision(i) => Nothing
    case Shuffle(p, q) => Nothing
  }

  /** The rules of the book. A book that knows every tried address stays one. */
  ghost function Do(env: Env, b: Book, deed: Deed): Book {
    match deed
    case Announce(a, source, penalty, now, roll) => AddTo(env, b, a, source, penalty, now, roll).0
    case Reach(a, test, time) => if Complete(b) then GoodIn(env, b, a, test, time).0 else b
    case Try(a, count, time) => TryIn(b, a, count, time)
    case See(a, time) => SeeIn(b, a, time)
    case Serve(a, services) => ServeIn(b, a, services)
    case Challenge(a, now) => if Complete(b) then ResolveIn(env, b, a, now) else b
    case Nothing => b
  }

  /** A state that stands for a book. */
  ghost predicate Reads(s: State, b: Book) { Abs(s) == b }

  lemma ReadsWhere(t: State, b: Book, t': State, b': Book)
    requires t' == t && b' == b && Abs(t) == b
    ensures Reads(t', b')
  {
  }

  /** A step that only rewrites an entry, and the rule of the book for it. */
  lemma EntryStep(env: Env, s: State, op: Op)
    requires Inv(env, s) && (op.NoteConnected? || op.NoteServices?)
    ensures Step(env, s, op) == if op.NoteConnected? then Connected(s, op.addr, op.time)
                                else SetServices(s, op.addr, op.services)
  {
  }

  lemma EntryDeed(env: Env, s: State, b: Book, op: Op)
    requires op.NoteConnected? || op.NoteServices?
    ensures Do(env, b, DeedOf(s, op)) == if op.NoteConnected? then SeeIn(b, op.addr, op.time)
                                         else ServeIn(b, op.addr, op.services)
  {
  }

  lemma AddIsDeed(env: Env, s: State, a: Announced, source: NetAddr, penalty: int, now: int, roll: nat)
    requires Inv(env, s)
    ensures var op := Op.Add(a, source, penalty, now, roll);
            Reads(Step(env, s, op), Do(env, Abs(s), DeedOf(s, op)))
  {
    AbsAddSingle(env, s, a, source, penalty, now, roll);
  }

  lemma GoodIsDeed(env: Env, s: State, a: Service, test: bool, time: int)
    requires Inv(env, s) && time > 0
    ensures var op := MarkGood(a, test, time); Reads(Step(env, s, op), Do(env, Abs(s), DeedOf(s, op)))
  {
    AbsGood(env, s, a, test, time);
  }

  lemma AttemptIsDeed(env: Env, s: State, a: Service, count: bool, time: int)
    requires Inv(env, s) && time > 0
    ensures var op := NoteAttempt(a, count, time); Reads(Step(env, s, op), Do(env, Abs(s), DeedOf(s, op)))
  {
    AbsAttempt(env, s, a, count, time);
    var op := NoteAttempt(a, count, time);
    ReadsWhere(Attempt(s, a, count, time), TryIn(Abs(s), a, count, time), Step(env, s, op),
               Do(env, Abs(s), DeedOf(s, op)));
  }

  lemma ConnectedIsDeed(env: Env, s: State, a: Service, time: int)
    requires Inv(env, s)
    ensures var op := NoteConnected(a, time); Reads(Step(env, s, op), Do(env, Abs(s), DeedOf(s, op)))
  {
    AbsConnected(env, s, a, time);
    var op := NoteConnected(a, time);
    EntryStep(env, s, op);
    EntryDeed(env, s, Abs(s), op);
    ReadsWhere(Connected(s, a, time), SeeIn(Abs(s), a, time), Step(env, s, op), Do(env, Abs(s), DeedOf(s, op)));
  }

  lemma ServicesIsDeed(env: Env, s: State, a: Service, services: Services)
    requires Inv(env, s)
    ensures var op := NoteServices(a, services); Reads(Step(env, s, op), Do(env, Abs(s), DeedOf(s, op)))
  {
    AbsSetServices(env, s, a, services);
    var op := NoteServices(a, services);
    EntryStep(env, s, op);
    EntryDeed(env, s, Abs(s), op);
    ReadsWhere(SetServices(s, a, services), ServeIn(Abs(s), a, services), Step(env, s, op),
               Do(env, Abs(s), DeedOf(s, op)));
  }

  lemma StepOfSettle(env: Env, s: State, i: Id, now: int)
    requires Inv(env, s) && now > 0
    ensures CanResolve(env, s, i, now) && Step(env, s, Settle(i, now)) == ResolveOne(env, s, i, now)
  {
    ResolveKeeps(env, s, i, now);
  }

  lemma ChallengeIs(env: Env, s: State, i: Id, now: int)
    requires i in s.info ==> Complete(Abs(s))
    ensures Do(env, Abs(s), DeedOf(s, Settle(i, now))) ==
            if i in s.info then ResolveIn(env, Abs(s), s.info[i].addr, now) else Abs(s)
  {
  }

  lemma SettleIsDeed(env: Env, s: State, i: Id, now: int)
    requires Inv(env, s) && now > 0
    ensures Reads(Step(env, s, Settle(i, now)), Do(env, Abs(s), DeedOf(s, Settle(i, now))))
  {
    StepOfSettle(env, s, i, now);
    AbsResolve(env, s, i, now);
    ChallengeIs(env, s, i, now);
    var b := if i in s.info then ResolveIn(env, Abs(s), s.info[i].addr, now) else Abs(s);
    ReadsWhere(ResolveOne(env, s, i, now), b, Step(env, s, Settle(i, now)), Do(env, Abs(s), DeedOf(s, Settle(i, now))));
  }

  lemma AbsShuffled(s: State, p: nat, q: nat)
    ensures Abs(Swapped(s, p, q)) == Abs(s)
  {
    if CanSwap(s, p, q) {
      AbsSwap(s, p, q);
    }
  }

  lemma QuietDeed(env: Env, s: State, op: Op, t: State)
    requires (op.Shuffle? || op.DropCollision?) && Abs(t) == Abs(s)
    ensures Reads(t, Do(env, Abs(s), DeedOf(s, op)))
  {
  }

  lemma StepOfShuffle(env: Env, s: State, p: nat, q: nat)
    requires Inv(env, s)
    ensures Step(env, s, Shuffle(p, q)) == Swapped(s, p, q)
  {
  }

  lemma ShuffleIsDeed(env: Env, s: State, p: nat, q: nat)
    requires Inv(env, s)
    ensures Reads(Step(env, s, Shuffle(p, q)), Do(env, Abs(s), DeedOf(s, Shuffle(p, q))))
  {
    AbsShuffled(s, p, q);
    StepOfShuffle(env, s, p, q);
    QuietDeed(env, s, Shuffle(p, q), Step(env, s, Shuffle(p, q)));
  }

  lemma AbsDropped(s: State, collisions: set<Id>)
    ensures Abs(s.(collisions := collisions)) == Abs(s)
  {
  }

  lemma DropIsDeed(env: Env, s: State, i: Id)
    requires Inv(env, s)
    ensures Reads(Step(env, s, DropCollision(i)), Do(env, Abs(s), DeedOf(s, DropCollision(i))))
  {
    AbsDropped(s, s.collisions - {i});
    QuietDeed(env, s, DropCollision(i), Step(env, s, DropCollision(i)));
  }

  /** Every step does to the book what the book's rules say. */
  lemma StepRefines(env: Env, s: State, op: Op)
    requires Inv(env, s) && Timely(op)
    ensures Reads(Step(env, s, op), Do(env, Abs(s), DeedOf(s, op)))
  {
    match op
    case Add(a, source, penalty, now, roll) => AddIsDeed(env, s, a, source, penalty, now, roll);
    case MarkGood(a, test, time) => GoodIsDeed(env, s, a, test, time);
    case NoteAttempt(a, count, time) => AttemptIsDeed(env, s, a, count, time);
    case NoteConnected(a, time) => ConnectedIsDeed(env, s, a, time);
    case NoteServices(a, services) => ServicesIsDeed(env, s, a, services);
    case Settle(i, now) => SettleIsDeed(env, s, i, now);
    case DropCollision(i) => DropIsDeed(env, s, i);
    case Shuffle(p, q) => ShuffleIsDeed(env, s, p, q);
  }

  /** The deeds of a run. */
  ghost function Deeds(env: Env, s: State, ops: seq<Op>): (deeds: seq<Deed>)
    requires Inv(env, s) && AllTimely(ops)
    ensures |deeds| == |ops|
    decreases |ops|
  {
    if ops == [] then []
    else
      var init := ops[..|ops| - 1];
      Deeds(env, s, init) + [DeedOf(Run(env, s, init), ops[|ops| - 1])]
  }

  ghost function DoAll(env: Env, b: Book, deeds: seq<Deed>): Book {
    if deeds == [] then b else Do(env, DoAll(env, b, deeds[..|deeds| - 1]), deeds[|deeds| - 1])
  }

  lemma OneDeedMore(env: Env, b: Book, deeds: seq<Deed>, deed: Deed, s: State, t: State)
    requires Reads(s, DoAll(env, b, deeds)) && Reads(t, Do(env, Abs(s), deed))
    ensures Reads(t, DoAll(env, b, deeds + [deed]))
  {
    assert (deeds + [deed])[..|deeds|] == deeds;
  }

  lemma DeedsAppend(env: Env, s: State, ops: seq<Op>, op: Op)
    requires Inv(env, s) && AllTimely(ops) && AllTimely(ops + [op])
    ensures Deeds(env, s, ops + [op]) == Deeds(env, s, ops) + [DeedOf(Run(env, s, ops), op)]
  {
    assert (ops + [op])[..|ops|] == ops;
  }

  /** A whole run of the manager, with its ids, counters and vectors, is a run of the book by its deeds. */
  lemma {:induction false} RunRefines(env: Env, s: State, ops: seq<Op>)
    requires Inv(env, s) && AllTimely(ops)
    ensures Reads(Run(env, s, ops), DoAll(env, Abs(s), Deeds(env, s, ops)))
    decreases |ops|
  {
    if ops == [] {
      NoDeeds(env, s);
    } else {
      var init, op := ops[..|ops| - 1], ops[|ops| - 1];
      assert init + [op] == ops;
      RunRefines(env, s, init);
      LastDeed(env, s, init, op);
    }
  }

  lemma NoDeeds(env: Env, s: State)
    requires Inv(env, s)
    ensures Reads(Run(env, s, []), DoAll(env, Abs(s), Deeds(env, s, [])))
  {
  }

  lemma LastDeed(env: Env, s: State, init: seq<Op>, op: Op)
    requires Inv(env, s) && AllTimely(init) && AllTimely(init + [op]) && Timely(op)
    requires Reads(Run(env, s, init), DoAll(env, Abs(s), Deeds(env, s, init)))
    ensures Reads(Run(env, s, init + [op]), DoAll(env, Abs(s), Deeds(env, s, init + [op])))
  {
    RunAppend(env, s, init, op);
    DeedsAppend(env, s, init, op);
    StepRefines(env, Run(env, s, init), op);
    OneDeedMore(env, Abs(s), Deeds(env, s, init), DeedOf(Run(env, s, init), op), Run(env, s, init),
                Run(env, s, init + [op]));
  }
}
