/**
 The UTXO cache tower: write-back caches with DIRTY/FRESH flags, stacked on a
 coin database. Value-level description of one cache, of a tower of caches and
 of the plain map that a tower stands for.
 */
module Coins {
  import opened Basics

  type OutPoint(==, !new)

  newtype Byte = x: int | 0 <= x < 256

  const OP_RETURN: Byte := 0x6a
  const MAX_SCRIPT_SIZE := 10000
  const DIRECT_SCRIPT_BYTES := 28

  /** A transaction output with its height and coinbase mark. A null output (value -1) is a spent coin. */
  datatype Coin = Coin(value: int, script: seq<Byte>, coinBase: bool, height: nat) {
    predicate IsSpent() { value == -1 }

    predicate IsUnspendable() {
      (|script| > 0 && script[0] == OP_RETURN) || |script| > MAX_SCRIPT_SIZE
    }

    /** Up to 28 bytes are kept in place; otherwise whole units of 16 bytes, with at least 16 to spare. */
    function DynamicMemoryUsage(): (r: nat)
      ensures if |script| <= 28 then r == 0 else r % 16 == 0 && |script| + 16 <= r < |script| + 32
    {
      if |script| <= DIRECT_SCRIPT_BYTES then 0 else (|script| + 31) / 16 * 16
    }
  }

  const CLEARED: Coin := Coin(-1, [], false, 0)

  datatype Entry = Entry(coin: Coin, isDirty: bool, isFresh: bool) {
    /** One of the five combinations that the entry documentation allows. */
    predicate Legal() {
      if coin.IsSpent() then isDirty != isFresh else isFresh ==> isDirty
    }
  }

  type CoinMap = map<OutPoint, Coin>
  type Cache = map<OutPoint, Entry>

  datatype Tower = Db(coins: CoinMap) | Level(cache: Cache, usage: int, base: Tower)

  // ----- what a tower means

  ghost predicate AllUnspent(m: CoinMap) {
    forall o <- m :: m[o].value != -1
  }

  /** The coins visible through `c` when `base` is visible below it. */
  ghost function Overlay(c: Cache, base: CoinMap): (m: CoinMap) {
    map o | o in c.Keys + base.Keys && (o in c ==> !c[o].coin.IsSpent()) :: if o in c then c[o].coin else base[o]
  }

  ghost function View(t: Tower): CoinMap {
    match t
    case Db(m) => m
    case Level(c, _, b) => Overlay(c, View(b))
  }

  /** Flags are truthful about `base`: FRESH hides nothing unspent, and a clean entry equals what is below. */
  ghost predicate Truthful(e: Entry, o: OutPoint, base: CoinMap) {
    && e.Legal()
    && (e.isFresh ==> o !in base)
    && (!e.isDirty && !e.coin.IsSpent() ==> o in base && base[o] == e.coin)
  }

  ghost predicate Coherent(c: Cache, base: CoinMap) {
    forall o <- c :: Truthful(c[o], o, base)
  }

  ghost function Usage(c: Cache): nat {
    if c == map[] then 0 else
    var o :| o in c;
    c[o].coin.DynamicMemoryUsage() + Usage(c - {o})
  }

  ghost predicate Inv(t: Tower) {
    match t
    case Db(m) => AllUnspent(m)
    case Level(c, u, b) => Coherent(c, View(b)) && u == Usage(c) && Inv(b)
  }

  lemma {:induction false} UsageWithout(c: Cache, o: OutPoint)
    requires o in c
    ensures Usage(c) == c[o].coin.DynamicMemoryUsage() + Usage(c - {o})
    decreases |c|
  {
    var p :| p in c && Usage(c) == c[p].coin.DynamicMemoryUsage() + Usage(c - {p});
    if p != o {
      UsageWithout(c - {p}, o);
      UsageWithout(c - {o}, p);
      assert c - {p} - {o} == c - {o} - {p};
    }
  }

  lemma UsageUpdate(c: Cache, o: OutPoint, e: Entry)
    ensures Usage(c[o := e]) == e.coin.DynamicMemoryUsage() + Usage(c - {o})
    ensures Usage(c[o := e]) == e.coin.DynamicMemoryUsage()
            + Usage(c) - (if o in c then c[o].coin.DynamicMemoryUsage() else 0)
  {
    UsageWithout(c[o := e], o);
    assert c[o := e] - {o} == c - {o};
    if o in c {
      UsageWithout(c, o);
    } else {
      assert c - {o} == c;
    }
  }

  lemma OverlayUpdate(c: Cache, base: CoinMap, o: OutPoint, e: Entry)
    ensures Overlay(c[o := e], base) == if e.coin.IsSpent() then Overlay(c, base) - {o}
            else Overlay(c, base)[o := e.coin]
  {
  }

  lemma OverlayRemove(c: Cache, base: CoinMap, o: OutPoint)
    requires o !in base
    ensures Overlay(c - {o}, base) == Overlay(c, base) - {o}
  {
  }

  lemma ViewUnspent(t: Tower)
    requires Inv(t)
    ensures AllUnspent(View(t))
  {
  }

  // ----- the operations, as functions of the tower

  /** What a lookup answers without asking the base: the cached coin if unspent. */
  ghost function Cached(t: Tower, o: OutPoint): (r: Option<Coin>) {
    match t
    case Db(m) => if o in m then Some(m[o]) else None
    case Level(c, _, _) => if o in c && !c[o].coin.IsSpent() then Some(c[o].coin) else None
  }

  /** FetchCoin: the tower after making `o` resident in every cache that had to ask below. */
  ghost function Fetch(t: Tower, o: OutPoint): Tower {
    match t
    case Db(_) => t
    case Level(c, u, b) =>
      if o in c then t else
      var b' := Fetch(b, o);
      match Cached(b', o)
      case None => Level(c, u, b')
      case Some(coin) => Level(c[o := Entry(coin, false, coin.IsSpent())], u + coin.DynamicMemoryUsage(), b')
  }

  ghost predicate Refused(t: Tower, o: OutPoint, coin: Coin, overwrite: bool)
    requires t.Level?
  {
    !coin.IsUnspendable() && !overwrite && o in t.cache && !t.cache[o].coin.IsSpent()
  }

  /** AddCoin. A refused call has already lowered the usage when it throws. */
  ghost function Add(t: Tower, o: OutPoint, coin: Coin, overwrite: bool): Tower
    requires t.Level?
  {
    if coin.IsUnspendable() then t else
    var e := if o in t.cache then t.cache[o] else Entry(CLEARED, false, false);
    var u := if o in t.cache then t.usage - e.coin.DynamicMemoryUsage() else t.usage;
    if Refused(t, o, coin, overwrite) then t.(usage := u) else
    t.(cache := t.cache[o := Entry(coin, true, e.isFresh || (!overwrite && !e.isDirty))],
       usage := u + coin.DynamicMemoryUsage())
  }

  /** SpendCoin: FRESH entries vanish, others are kept as a spent record to be written down. */
  ghost function Spend(t: Tower, o: OutPoint): Tower
    requires t.Level?
  {
    var f := Fetch(t, o);
    if o !in f.cache then f else
    var e := f.cache[o];
    var u := f.usage - e.coin.DynamicMemoryUsage();
    if e.isFresh then f.(cache := f.cache - {o}, usage := u)
    else f.(cache := f.cache[o := Entry(CLEARED, true, e.isFresh)], usage := u)
  }

  /** The entry of the receiving cache after one batch entry has been merged; None when it ends up absent. */
  ghost function Merge(us: Option<Entry>, e: Entry): Option<Entry> {
    if !e.isDirty then us else
    match us
    case None => if e.isFresh && e.coin.IsSpent() then None else Some(Entry(e.coin, true, e.isFresh))
    case Some(p) => if p.isFresh && e.coin.IsSpent() then None else Some(Entry(e.coin, true, p.isFresh))
  }

  ghost function Find(c: Cache, o: OutPoint): Option<Entry> {
    if o in c then Some(c[o]) else None
  }

  ghost function MergeAll(c: Cache, child: Cache): Cache {
    map o | o in c.Keys + child.Keys && (o in child ==> Merge(Find(c, o), child[o]).Some?)
      :: if o in child then Merge(Find(c, o), child[o]).value else c[o]
  }

  /** The error BatchWrite throws: FRESH in the child, unspent in the parent cache. */
  ghost predicate Clash(c: Cache, o: OutPoint, e: Entry) {
    e.isDirty && e.isFresh && o in c && !c[o].coin.IsSpent()
  }

  ghost predicate Misapplied(parent: Tower, child: Cache) {
    parent.Level? && exists o <- child :: Clash(parent.cache, o, child[o])
  }

  ghost function DbWrite(m: CoinMap, child: Cache): CoinMap {
    map o | o in m.Keys + child.Keys && (o in child && child[o].isDirty ==> !child[o].coin.IsSpent())
      && (o !in m ==> child[o].isDirty)
      :: if o in child && child[o].isDirty then child[o].coin else m[o]
  }

  ghost function Write(parent: Tower, child: Cache): Tower {
    match parent
    case Db(m) => Db(DbWrite(m, child))
    case Level(c, u, b) => Level(MergeAll(c, child), u + Usage(MergeAll(c, child)) - Usage(c), b)
  }

  ghost function Flush(t: Tower): Tower
    requires t.Level?
  {
    Level(map[], 0, Write(t.base, t.cache))
  }

  ghost function Cleaned(c: Cache): Cache {
    map o | o in c && !c[o].coin.IsSpent() :: Entry(c[o].coin, false, false)
  }

  ghost function Sync(t: Tower): Tower
    requires t.Level?
  {
    Level(Cleaned(t.cache), t.usage + Usage(Cleaned(t.cache)) - Usage(t.cache), Write(t.base, t.cache))
  }

  ghost function Uncache(t: Tower, o: OutPoint): Tower
    requires t.Level?
  {
    if o in t.cache && !t.cache[o].isDirty && !t.cache[o].isFresh
    then t.(cache := t.cache - {o}, usage := t.usage - t.cache[o].coin.DynamicMemoryUsage())
    else t
  }

  // ----- each operation against the plain map

  lemma {:induction false} FetchKeeps(t: Tower, o: OutPoint)
    requires Inv(t)
    ensures Inv(Fetch(t, o)) && View(Fetch(t, o)) == View(t)
    ensures Cached(Fetch(t, o), o) == (if o in View(t) then Some(View(t)[o]) else None)
    ensures t.Level? ==> Fetch(t, o).Level? && (o in View(t) ==> o in Fetch(t, o).cache)
  {
    match t
    case Db(_) =>
    case Level(c, u, b) =>
      FetchKeeps(b, o);
      ViewUnspent(b);
      if o !in c && o in View(b) {
        UsageUpdate(c, o, Entry(View(b)[o], false, false));
        OverlayUpdate(c, View(b), o, Entry(View(b)[o], false, false));
      }
  }

  /**
   * An output that can never be spent is not added: a script of more than 10000 bytes, or one that
   * begins with 0x6a.
   */
  lemma AddKeeps(t: Tower, o: OutPoint, coin: Coin, overwrite: bool)
    requires t.Level? && Inv(t) && coin.value != -1
    requires !overwrite ==> o !in View(t)
    ensures !Refused(t, o, coin, overwrite)
    ensures Inv(Add(t, o, coin, overwrite))
    ensures View(Add(t, o, coin, overwrite)) ==
            if |coin.script| > 10000 || (coin.script != [] && coin.script[0] == 0x6a) then View(t)
            else View(t)[o := coin]
  {
    if !coin.IsUnspendable() {
      var e := Add(t, o, coin, overwrite).cache[o];
      UsageUpdate(t.cache, o, e);
      OverlayUpdate(t.cache, View(t.base), o, e);
      assert Truthful(e, o, View(t.base));
    }
  }

  /** The overwrite rule is exact: breaking it undetected always leaves a lying FRESH flag behind. */
  lemma AddKeepsIff(t: Tower, o: OutPoint, coin: Coin)
    requires t.Level? && Inv(t) && coin.value != -1
    requires |coin.script| <= 10000 && (coin.script != [] ==> coin.script[0] != 0x6a)
    ensures Inv(Add(t, o, coin, false)) && !Refused(t, o, coin, false) <==> o !in View(t)
    ensures o in View(t) && !Refused(t, o, coin, false) ==>
              o in View(Spend(Add(t, o, coin, false), o))
  {
    if o !in View(t) {
      AddKeeps(t, o, coin, false);
    }
  }

  lemma SpendKeeps(t: Tower, o: OutPoint)
    requires t.Level? && Inv(t)
    ensures Inv(Spend(t, o)) && View(Spend(t, o)) == View(t) - {o}
  {
    FetchKeeps(t, o);
    var f := Fetch(t, o);
    if o in f.cache {
      var e := f.cache[o];
      assert Truthful(e, o, View(f.base));
      if e.isFresh {
        UsageWithout(f.cache, o);
        OverlayRemove(f.cache, View(f.base), o);
      } else {
        UsageUpdate(f.cache, o, Entry(CLEARED, true, false));
        OverlayUpdate(f.cache, View(f.base), o, Entry(CLEARED, true, false));
      }
    }
  }

  lemma MergeCoherent(c: Cache, child: Cache, base: CoinMap)
    requires Coherent(c, base) && Coherent(child, Overlay(c, base))
    ensures Coherent(MergeAll(c, child), base)
  {
    forall o <- MergeAll(c, child)
      ensures Truthful(MergeAll(c, child)[o], o, base)
    {
      assert o in c ==> Truthful(c[o], o, base);
      assert o in child ==> Truthful(child[o], o, Overlay(c, base));
    }
  }

  lemma MergeOverlays(c: Cache, child: Cache, base: CoinMap)
    requires Coherent(c, base) && Coherent(child, Overlay(c, base))
    ensures Overlay(MergeAll(c, child), base) == Overlay(child, Overlay(c, base))
  {
    var v, w := Overlay(MergeAll(c, child), base), Overlay(child, Overlay(c, base));
    forall o
      ensures o in v <==> o in w
      ensures o in v ==> v[o] == w[o]
    {
      assert o in c ==> Truthful(c[o], o, base);
      assert o in child ==> Truthful(child[o], o, Overlay(c, base));
    }
  }

  /** Writing a coherent child down makes the parent's view the child's view, and never hits the error. */
  lemma WriteMoves(parent: Tower, child: Cache)
    requires Inv(parent) && Coherent(child, View(parent))
    ensures !Misapplied(parent, child)
    ensures Inv(Write(parent, child))
    ensures View(Write(parent, child)) == Overlay(child, View(parent))
  {
    match parent
    case Db(m) =>
    case Level(c, u, b) =>
      MergeCoherent(c, child, View(b));
      MergeOverlays(c, child, View(b));
  }

  lemma FlushKeeps(t: Tower)
    requires t.Level? && Inv(t)
    ensures Inv(Flush(t)) && View(Flush(t)) == View(t) && View(Flush(t).base) == View(t)
    ensures !Misapplied(t.base, t.cache)
  {
    WriteMoves(t.base, t.cache);
    assert Overlay(map[], View(t)) == View(t);
  }

  lemma CleanedChangesNothing(c: Cache, base: CoinMap)
    ensures Coherent(Cleaned(c), Overlay(c, base))
    ensures Overlay(Cleaned(c), Overlay(c, base)) == Overlay(c, base)
  {
  }

  lemma SyncKeeps(t: Tower)
    requires t.Level? && Inv(t)
    ensures Inv(Sync(t)) && View(Sync(t)) == View(t) && View(Sync(t).base) == View(t)
    ensures !Misapplied(t.base, t.cache)
  {
    WriteMoves(t.base, t.cache);
    CleanedChangesNothing(t.cache, View(t.base));
  }

  lemma UncacheKeeps(t: Tower, o: OutPoint)
    requires t.Level? && Inv(t)
    ensures Inv(Uncache(t, o)) && View(Uncache(t, o)) == View(t)
  {
    if o in t.cache {
      UsageWithout(t.cache, o);
    }
  }

  // ----- whole runs against a stack of plain maps

  /** One plain outpoint-to-coin map per cache, over the map of the database. */
  datatype Stack = Bottom(m: CoinMap) | Over(m: CoinMap, below: Stack)

  /** AddCoin and SpendCoin act on the top cache; the others on the cache with `above` caches above it. */
  datatype Op =
    | AddCoin(o: OutPoint, coin: Coin, overwrite: bool)
    | SpendCoin(o: OutPoint)
    | GetCoin(above: nat, o: OutPoint)
    | FlushCache(above: nat)
    | SyncCache(above: nat)
    | UncacheCoin(above: nat, o: OutPoint)

  ghost function Views(t: Tower): Stack {
    match t
    case Db(m) => Bottom(m)
    case Level(_, _, b) => Over(View(t), Views(b))
  }

  ghost function StepHere(t: Tower, op: Op): Tower
    requires t.Level?
  {
    match op
    case AddCoin(o, coin, overwrite) => Add(t, o, coin, overwrite)
    case SpendCoin(o) => Spend(t, o)
    case GetCoin(_, o) => Fetch(t, o)
    case FlushCache(_) => Flush(t)
    case SyncCache(_) => Sync(t)
    case UncacheCoin(_, o) => Uncache(t, o)
  }

  function Above(op: Op): nat {
    match op
    case AddCoin(_, _, _) => 0
    case SpendCoin(_) => 0
    case GetCoin(k, _) => k
    case FlushCache(k) => k
    case SyncCache(k) => k
    case UncacheCoin(k, _) => k
  }

  /** `op` on the cache below `k` others; addressing a cache that does not exist does nothing. */
  ghost function StepAt(t: Tower, op: Op, k: nat): Tower {
    if t.Db? then t
    else if k == 0 then StepHere(t, op)
    else t.(base := StepAt(t.base, op, k - 1))
  }

  /**
   * The one map a user of the top cache has in mind: adds and spends, nothing else. Scripts of more than
   * 10000 bytes, and those that begin with the byte 0x6a, do not count as coins.
   */
  ghost function PlainStep(m: CoinMap, op: Op): CoinMap {
    match op
    case AddCoin(o, coin, _) =>
      if |coin.script| > 10000 || (coin.script != [] && coin.script[0] == 0x6a) then m else m[o := coin]
    case SpendCoin(o) => m - {o}
    case _ => m
  }

  /** The same operation on plain maps: writes change the top map, Flush and Sync copy a map one down. */
  ghost function RefAt(s: Stack, op: Op, k: nat): Stack {
    if s.Bottom? then s
    else if k > 0 then s.(below := RefAt(s.below, op, k - 1))
    else match op
      case AddCoin(_, _, _) => s.(m := PlainStep(s.m, op))
      case SpendCoin(_) => s.(m := PlainStep(s.m, op))
      case GetCoin(_, _) => s
      case FlushCache(_) => s.(below := s.below.(m := s.m))
      case SyncCache(_) => s.(below := s.below.(m := s.m))
      case UncacheCoin(_, _) => s
  }

  /** The caller's duties: never add a spent coin, and promise no overwrite only when nothing is there. */
  ghost predicate Allowed(m: CoinMap, op: Op) {
    op.AddCoin? ==> op.coin.value != -1 && (!op.overwrite ==> op.o !in m)
  }

  ghost predicate Throws(t: Tower, op: Op, k: nat) {
    if t.Db? then false
    else if k > 0 then Throws(t.base, op, k - 1)
    else match op
      case AddCoin(o, coin, overwrite) => Refused(t, o, coin, overwrite)
      case FlushCache(_) => Misapplied(t.base, t.cache)
      case SyncCache(_) => Misapplied(t.base, t.cache)
      case _ => false
  }

  lemma {:induction false} QuietStepRefines(t: Tower, op: Op, k: nat)
    requires Inv(t) && !op.AddCoin? && !op.SpendCoin?
    ensures Inv(StepAt(t, op, k)) && !Throws(t, op, k)
    ensures View(StepAt(t, op, k)) == View(t)
    ensures Views(StepAt(t, op, k)) == RefAt(Views(t), op, k)
  {
    match t
    case Db(_) =>
    case Level(c, u, b) =>
      if k > 0 {
        QuietStepRefines(b, op, k - 1);
      } else {
        match op
        case GetCoin(_, o) => FetchKeeps(t, o); FetchKeepsBelow(t, o);
        case FlushCache(_) => FlushKeeps(t); WriteKeepsBelow(b, c);
        case SyncCache(_) => SyncKeeps(t); WriteKeepsBelow(b, c);
        case UncacheCoin(_, o) => UncacheKeeps(t, o);
      }
  }

  lemma {:induction false} FetchKeepsBelow(t: Tower, o: OutPoint)
    requires Inv(t)
    ensures Views(Fetch(t, o)) == Views(t)
  {
    FetchKeeps(t, o);
    if t.Level? {
      FetchKeepsBelow(t.base, o);
    }
  }

  lemma WriteKeepsBelow(parent: Tower, child: Cache)
    requires Inv(parent) && Coherent(child, View(parent))
    ensures Views(Write(parent, child)) == Views(parent).(m := Overlay(child, View(parent)))
  {
    WriteMoves(parent, child);
  }

  ghost function Step(t: Tower, op: Op): Tower { StepAt(t, op, Above(op)) }

  ghost function Ref(s: Stack, op: Op): Stack { RefAt(s, op, Above(op)) }

  lemma StepRefines(t: Tower, op: Op)
    requires Inv(t) && Allowed(View(t), op)
    ensures Inv(Step(t, op)) && !Throws(t, op, Above(op))
    ensures Views(Step(t, op)) == Ref(Views(t), op)
  {
    if t.Level? && op.AddCoin? {
      AddKeeps(t, op.o, op.coin, op.overwrite);
    } else if t.Level? && op.SpendCoin? {
      SpendKeeps(t, op.o);
      FetchKeepsBelow(t, op.o);
    } else if t.Level? {
      QuietStepRefines(t, op, Above(op));
    }
  }

  ghost function Run(t: Tower, ops: seq<Op>): Tower
    decreases |ops|
  {
    if ops == [] then t else Run(Step(t, ops[0]), ops[1..])
  }

  ghost function RefRun(s: Stack, ops: seq<Op>): Stack
    decreases |ops|
  {
    if ops == [] then s else RefRun(Ref(s, ops[0]), ops[1..])
  }

  ghost predicate AllAllowed(s: Stack, ops: seq<Op>)
    decreases |ops|
  {
    ops != [] ==> Allowed(s.m, ops[0]) && AllAllowed(Ref(s, ops[0]), ops[1..])
  }

  ghost predicate NeverThrows(t: Tower, ops: seq<Op>)
    decreases |ops|
  {
    ops != [] ==> !Throws(t, ops[0], Above(ops[0])) && NeverThrows(Step(t, ops[0]), ops[1..])
  }

  /** Every run of every tower is a run of plain maps, level by level, without an error and with exact accounting. */
  lemma {:induction false} RunRefines(t: Tower, ops: seq<Op>)
    requires Inv(t) && AllAllowed(Views(t), ops)
    ensures Inv(Run(t, ops)) && NeverThrows(t, ops)
    ensures Views(Run(t, ops)) == RefRun(Views(t), ops)
    decreases |ops|
  {
    if ops != [] {
      StepRefines(t, ops[0]);
      RunRefines(Step(t, ops[0]), ops[1..]);
    }
  }

  /** A tower of `n` empty caches over a database. */
  ghost function Fresh(m: CoinMap, n: nat): Tower {
    if n == 0 then Db(m) else Level(map[], 0, Fresh(m, n - 1))
  }

  lemma {:induction false} FreshHolds(m: CoinMap, n: nat)
    requires AllUnspent(m)
    ensures Inv(Fresh(m, n)) && View(Fresh(m, n)) == m
  {
    if n > 0 {
      FreshHolds(m, n - 1);
      assert Overlay(map[], m) == m;
    }
  }

  ghost function PlainRun(m: CoinMap, ops: seq<Op>): CoinMap
    decreases |ops|
  {
    if ops == [] then m else PlainRun(PlainStep(m, ops[0]), ops[1..])
  }

  ghost predicate PlainAllowed(m: CoinMap, ops: seq<Op>)
    decreases |ops|
  {
    ops != [] ==> Allowed(m, ops[0]) && PlainAllowed(PlainStep(m, ops[0]), ops[1..])
  }

  lemma {:induction false} TopMapIsPlain(s: Stack, ops: seq<Op>)
    requires s.Over? && PlainAllowed(s.m, ops)
    ensures AllAllowed(s, ops) && RefRun(s, ops).m == PlainRun(s.m, ops)
    decreases |ops|
  {
    if ops != [] {
      TopMapIsPlain(Ref(s, ops[0]), ops[1..]);
    }
  }

  /** Lookups after any run from empty caches answer as the one plain map that only the adds and spends describe. */
  lemma LookupsAnswerAsPlainMap(m: CoinMap, n: nat, ops: seq<Op>, o: OutPoint)
    requires AllUnspent(m) && n > 0 && PlainAllowed(m, ops)
    ensures Cached(Fetch(Run(Fresh(m, n), ops), o), o) ==
            var plain := PlainRun(m, ops); if o in plain then Some(plain[o]) else None
    ensures NeverThrows(Fresh(m, n), ops)
  {
    FreshHolds(m, n);
    TopMapIsPlain(Views(Fresh(m, n)), ops);
    RunRefines(Fresh(m, n), ops);
    FetchKeeps(Run(Fresh(m, n), ops), o);
  }
}
