/**
 * The address manager's state as one value: its six redundant structures, what each elementary step
 * does to them, and the invariant that ties them together.
 */
module AddrState {

  type NetAddr(==, !new)
  type Network(==, !new)
  type Positive = n: nat | n > 0 witness 1
  type Id = nat

  /** Service flags, as the set of their bits. */
  type Services = set<nat>

  datatype Service = Service(ip: NetAddr, port: nat)
  datatype Slot = Slot(bucket: nat, pos: nat)
  datatype Counts = Counts(nNew: int, nTried: int)

  /** What is known about an address. */
  datatype Known = Known(
    services: Services, time: int, source: NetAddr,
    lastTry: int, lastCountAttempt: int, lastSuccess: int, attempts: int)

  /** An entry: the address, what is known about it, and how the structures hold it. */
  datatype AddrInfo = AddrInfo(addr: Service, known: Known, refCount: int, inTried: bool, randomPos: int)

  /** The table sizes, and as look-up tables the hash-derived buckets and the facts about an IP address. */
  datatype Env = Env(
    newBuckets: Positive, triedBuckets: Positive, bucketSize: Positive,
    newBucketOf: imap<(Service, NetAddr), nat>, triedBucketOf: imap<Service, nat>,
    newPosOf: imap<(Service, nat), nat>, triedPosOf: imap<(Service, nat), nat>,
    networkOf: imap<NetAddr, Network>, classOf: imap<NetAddr, Network>, noNetwork: Network,
    routable: iset<NetAddr>, valid: iset<NetAddr>)

  const MAX_NEW_BUCKETS: nat := 8
  const MAX_COLLISIONS: nat := 10

  // ----- buckets and positions

  function Below<K(!new)>(table: imap<K, nat>, k: K, n: Positive): (r: nat)
    ensures r < n
  {
    if k in table && table[k] < n then table[k] else 0
  }

  function NewBucket(env: Env, a: Service, source: NetAddr): nat { Below(env.newBucketOf, (a, source), env.newBuckets) }

  function NewPos(env: Env, a: Service, bucket: nat): nat { Below(env.newPosOf, (a, bucket), env.bucketSize) }

  function NewSlot(env: Env, a: Service, source: NetAddr): Slot {
    var b := NewBucket(env, a, source);
    Slot(b, NewPos(env, a, b))
  }

  function TriedSlot(env: Env, a: Service): Slot {
    var b := Below(env.triedBucketOf, a, env.triedBuckets);
    Slot(b, Below(env.triedPosOf, (a, b), env.bucketSize))
  }

  function NetworkOf(env: Env, a: Service): Network {
    if a.ip in env.networkOf then env.networkOf[a.ip] else env.noNetwork
  }

  function NetClassOf(env: Env, a: Service): Network {
    if a.ip in env.classOf then env.classOf[a.ip] else env.noNetwork
  }

  // ----- the state

  datatype State = State(
    idCount: nat, info: map<Id, AddrInfo>, ids: map<Service, Id>, random: seq<Id>,
    tried: map<Slot, Id>, nTried: int, news: map<Slot, Id>, nNew: int,
    lastGood: int, collisions: set<Id>, counts: map<Network, Counts>)

  const EMPTY := State(0, map[], map[], [], map[], 0, map[], 0, 1, {}, map[])

  function CountsOf(counts: map<Network, Counts>, n: Network): Counts {
    if n in counts then counts[n] else Counts(0, 0)
  }

  /** Adds to the counters of one network, starting them at zero when it is met for the first time. */
  function Bump(counts: map<Network, Counts>, n: Network, dNew: int, dTried: int): map<Network, Counts> {
    var c := CountsOf(counts, n);
    counts[n := Counts(c.nNew + dNew, c.nTried + dTried)]
  }

  // ----- the invariant, structure by structure

  /** The slots of a table that hold an id. */
  ghost function SlotsOf(table: map<Slot, Id>, i: Id): set<Slot> {
    set s | s in table && table[s] == i
  }

  /** The address index and the entries are inverse to each other. */
  ghost predicate Indexed(info: map<Id, AddrInfo>, ids: map<Service, Id>) {
    && (forall a :: a in ids ==> ids[a] in info && info[ids[a]].addr == a)
    && (forall i :: i in info ==> info[i].addr in ids && ids[info[i].addr] == i)
  }

  /** The random vector holds every id once, at the position its entry names. */
  ghost predicate Shuffled(info: map<Id, AddrInfo>, random: seq<Id>) {
    && (forall i :: i in info ==> 0 <= info[i].randomPos < |random| && random[info[i].randomPos] == i)
    && (forall p :: 0 <= p < |random| ==> random[p] in info && info[random[p]].randomPos == p)
  }

  /** Every occupied slot of the new table is the computed slot of an entry that is not tried. */
  ghost predicate NewPlaced(env: Env, info: map<Id, AddrInfo>, news: map<Slot, Id>) {
    forall s :: s in news ==>
      && s.bucket < env.newBuckets
      && news[s] in info
      && !info[news[s]].inTried
      && s.pos == NewPos(env, info[news[s]].addr, s.bucket)
  }

  /** The tried entries and the occupied slots of the tried table are in one-to-one correspondence. */
  ghost predicate TriedPlaced(env: Env, info: map<Id, AddrInfo>, tried: map<Slot, Id>) {
    && (forall s :: s in tried ==>
        tried[s] in info && info[tried[s]].inTried && s == TriedSlot(env, info[tried[s]].addr))
    && (forall i :: i in info && info[i].inTried ==>
          TriedSlot(env, info[i].addr) in tried && tried[TriedSlot(env, info[i].addr)] == i)
  }

  /** The reference counts are right: 0 for tried entries, 1 to 8 for the others, but for ids in `zero`. */
  ghost predicate RefCounted(info: map<Id, AddrInfo>, news: map<Slot, Id>, zero: set<Id>) {
    forall i :: i in info ==>
      && info[i].refCount == |SlotsOf(news, i)| <= MAX_NEW_BUCKETS
      && (info[i].inTried ==> info[i].refCount == 0)
      && (!info[i].inTried && i !in zero ==> info[i].refCount >= 1)
  }

  /** How an entry is counted: as new or as tried in its network, or not at all. */
  datatype Tag = IsNew(net: Network) | IsTried(net: Network) | Uncounted

  /** What the counters answer: the new or the tried entries of one network, or of all. */
  datatype Query = NewIn(net: Network) | TriedIn(net: Network) | AllNew | AllTried

  function TagOf(env: Env, info: map<Id, AddrInfo>, out: set<Id>, i: Id): Tag {
    if i !in info || i in out then Uncounted
    else if info[i].inTried then IsTried(NetworkOf(env, info[i].addr))
    else IsNew(NetworkOf(env, info[i].addr))
  }

  predicate Answers(t: Tag, q: Query) {
    match q
    case NewIn(n) => t == IsNew(n)
    case TriedIn(n) => t == IsTried(n)
    case AllNew => t.IsNew?
    case AllTried => t.IsTried?
  }

  ghost function Matching(env: Env, info: map<Id, AddrInfo>, out: set<Id>, q: Query): set<Id> {
    set i | i in info && Answers(TagOf(env, info, out, i), q)
  }

  function Counter(nNew: int, nTried: int, counts: map<Network, Counts>, q: Query): int {
    match q
    case NewIn(n) => CountsOf(counts, n).nNew
    case TriedIn(n) => CountsOf(counts, n).nTried
    case AllNew => nNew
    case AllTried => nTried
  }

  /** The totals and the counters of every network are exact. */
  ghost predicate Tallied(env: Env, info: map<Id, AddrInfo>, out: set<Id>, nNew: int, nTried: int,
                          counts: map<Network, Counts>)
  {
    forall q :: Counter(nNew, nTried, counts, q) == |Matching(env, info, out, q)|
  }

  ghost predicate Dated(info: map<Id, AddrInfo>, idCount: nat) {
    forall i :: i in info ==>
      && i < idCount
      && info[i].known.lastTry >= 0
      && info[i].known.lastSuccess >= 0
      && (info[i].inTried ==> info[i].known.lastSuccess != 0)
  }

  /** At most ten collisions are pending, and each colliding entry that still exists has an occupied target. */
  ghost predicate Colliding(env: Env, info: map<Id, AddrInfo>, tried: map<Slot, Id>, collisions: set<Id>, idCount: nat)
  {
    && |collisions| <= MAX_COLLISIONS
    && (forall i :: i in collisions ==> i < idCount)
    && (forall i :: i in collisions && i in info ==> TriedSlot(env, info[i].addr) in tried)
  }

  ghost predicate Slotless(info: map<Id, AddrInfo>, zero: set<Id>) {
    forall i :: i in zero ==> i in info && !info[i].inTried && info[i].refCount == 0
  }

  /**
   * The outcome of examining a whole state. Unlike a truth value it is not taken apart wherever it is
   * asserted, but only where a lemma does so.
   */
  datatype Health = Sound | Broken

  /** All structures agree with each other. */
  ghost function Examine(env: Env, s: State, zero: set<Id>, out: set<Id>): Health {
    if && Indexed(s.info, s.ids)
       && Shuffled(s.info, s.random)
       && NewPlaced(env, s.info, s.news)
       && TriedPlaced(env, s.info, s.tried)
       && RefCounted(s.info, s.news, zero)
       && Tallied(env, s.info, out, s.nNew, s.nTried, s.counts)
       && Dated(s.info, s.idCount)
       && Slotless(s.info, zero)
       && out <= zero
    then Sound else Broken
  }

  /**
   * The invariant in the middle of an operation: ids in `zero` may be without a slot, and ids in
   * `out` are not counted as new.
   */
  ghost predicate Between(env: Env, s: State, zero: set<Id>, out: set<Id>) { Examine(env, s, zero, out) == Sound }

  ghost function ExamineAll(env: Env, s: State): Health {
    if Between(env, s, {}, {}) && Colliding(env, s.info, s.tried, s.collisions, s.idCount) then Sound else Broken
  }

  /** The invariant of the address manager. */
  ghost predicate Inv(env: Env, s: State) { ExamineAll(env, s) == Sound }

  // ----- elementary steps

  /** Adds an entry that is in no table yet; it is counted as new at once. */
  function Create(env: Env, s: State, a: Service, k: Known): State {
    var x := AddrInfo(a, k, 0, false, |s.random|);
    s.(idCount := s.idCount + 1,
       info := s.info[s.idCount := x],
       ids := s.ids[a := s.idCount],
       random := s.random + [s.idCount],
       nNew := s.nNew + 1,
       counts := Bump(s.counts, NetworkOf(env, a), 1, 0))
  }

  predicate CanSwap(s: State, p: int, q: int) {
    && 0 <= p < |s.random| && 0 <= q < |s.random|
    && s.random[p] in s.info && s.random[q] in s.info
  }

  function SwapRandom(s: State, p: int, q: int): (t: State)
    requires CanSwap(s, p, q)
    ensures t.info.Keys == s.info.Keys && |t.random| == |s.random|
  {
    if p == q then s
    else
      var i, j := s.random[p], s.random[q];
      var info := s.info[i := s.info[i].(randomPos := q)];
      s.(info := info[j := info[j].(randomPos := p)], random := s.random[p := j][q := i])
  }

  predicate CanDelete(s: State, i: Id) {
    && i in s.info && !s.info[i].inTried && s.info[i].refCount == 0
    && CanSwap(s, s.info[i].randomPos, |s.random| - 1)
  }

  /** Cuts off the end of the random vector, and the entry named there. */
  function DropLast(env: Env, s: State, i: Id): State
    requires i in s.info && |s.random| > 0
  {
    var a := s.info[i].addr;
    s.(info := s.info - {i},
       ids := s.ids - {a},
       random := s.random[..|s.random| - 1],
       nNew := s.nNew - 1,
       counts := Bump(s.counts, NetworkOf(env, a), -1, 0))
  }

  function Delete(env: Env, s: State, i: Id): State
    requires CanDelete(s, i)
  {
    DropLast(env, SwapRandom(s, s.info[i].randomPos, |s.random| - 1), i)
  }

  /** Takes one slot of the new table away from its entry. */
  function DropSlot(s: State, slot: Slot): State
    requires slot in s.news && s.news[slot] in s.info
  {
    var i := s.news[slot];
    s.(info := s.info[i := s.info[i].(refCount := s.info[i].refCount - 1)], news := s.news - {slot})
  }

  predicate CanClear(s: State, slot: Slot) {
    slot in s.news ==>
      && s.news[slot] in s.info && s.info[s.news[slot]].refCount > 0
      && (s.info[s.news[slot]].refCount == 1 ==> CanDelete(DropSlot(s, slot), s.news[slot]))
  }

  /** Empties a slot of the new table, and forgets an entry that loses its last slot. */
  function ClearNew(env: Env, s: State, slot: Slot): State
    requires CanClear(s, slot)
  {
    if slot !in s.news then s
    else
      var t := DropSlot(s, slot);
      if t.info[s.news[slot]].refCount == 0 then Delete(env, t, s.news[slot]) else t
  }

  /** Enters an entry into one more slot of the new table. */
  function FillSlot(s: State, slot: Slot, i: Id): State
    requires i in s.info
  {
    s.(info := s.info[i := s.info[i].(refCount := s.info[i].refCount + 1)], news := s.news[slot := i])
  }

  /** Takes all slots of the new table away from an entry. */
  function Detach(s: State, i: Id): State
    requires i in s.info
  {
    s.(info := s.info[i := s.info[i].(refCount := 0)], news := map t | t in s.news && s.news[t] != i :: s.news[t])
  }

  /** Stops or starts counting an entry as new. */
  function CountNew(env: Env, s: State, i: Id, d: int): State
    requires i in s.info
  {
    s.(nNew := s.nNew + d, counts := Bump(s.counts, NetworkOf(env, s.info[i].addr), d, 0))
  }

  /** Takes an entry out of its slot of the tried table. */
  function LeaveTried(env: Env, s: State, slot: Slot): State
    requires slot in s.tried && s.tried[slot] in s.info
  {
    var i := s.tried[slot];
    s.(info := s.info[i := s.info[i].(inTried := false)],
       tried := s.tried - {slot},
       nTried := s.nTried - 1,
       counts := Bump(s.counts, NetworkOf(env, s.info[i].addr), 0, -1))
  }

  /** Enters an entry into its slot of the tried table. */
  function EnterTried(env: Env, s: State, i: Id): State
    requires i in s.info
  {
    s.(info := s.info[i := s.info[i].(inTried := true)],
       tried := s.tried[TriedSlot(env, s.info[i].addr) := i],
       nTried := s.nTried + 1,
       counts := Bump(s.counts, NetworkOf(env, s.info[i].addr), 0, 1))
  }

  /** Replaces what is known about an entry. */
  function Note(s: State, i: Id, x: AddrInfo): State { s.(info := s.info[i := x]) }

  /** Two versions of an entry that differ in the statistics only. */
  predicate SamePlace(x: AddrInfo, y: AddrInfo) {
    x.addr == y.addr && x.refCount == y.refCount && x.inTried == y.inTried && x.randomPos == y.randomPos
  }
}
