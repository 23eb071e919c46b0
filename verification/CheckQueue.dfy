/**
 The script-check queue: one master and any number of workers share a queue
 under one mutex and two condition variables. Each critical section of the
 loop, each executed check and each wakeup is one atomic step. Thread 0 is the
 master. No stop request is ever made.
 */
module CheckQueue {
  import opened Basics
  import opened Numbers

  /** A check, named by the order in which it was added. */
  type Check = nat

  /** Where a thread is in the loop. `Inside` is the middle of the critical section, so no step starts there;
      `Working` remembers how many checks of its batch it has passed. */
  datatype Thread =
    | Outside
    | Entering
    | Waiting
    | Woken
    | Inside
    | Working(batch: seq<Check>, done: nat, ok: bool)

  datatype Place = InQueue | InBatch(thread: nat) | Settled

  /** What one Wait returned, with the checks it was about, how often each ran, and which returned false. */
  datatype Verdict = Verdict(result: bool, round: set<Check>, runs: multiset<Check>, failed: set<Check>)

  /** The first five fields are the queue object's; the last five record
      the history: where each check added since the last Wait is, how often each ran, which failed.  */
  datatype State = State(
    queue: seq<Check>, nIdle: int, nTotal: int, fAllOk: bool, nTodo: int,
    threads: seq<Thread>,
    added: nat, place: map<Check, Place>, runs: multiset<Check>, failed: set<Check>,
    verdicts: seq<Verdict>)

  datatype Event =
    | Add(count: nat)
    | Enter(thread: nat)
    | Wake(thread: nat)
    | Lock(thread: nat)
    | Exec(thread: nat, result: bool)

  predicate Enabled(s: State, e: Event) {
    match e
    case Add(_) => |s.threads| > 0 && s.threads[0].Outside?
    case Enter(i) => i < |s.threads| && s.threads[i].Outside?
    case Wake(i) => i < |s.threads| && s.threads[i].Waiting?
    case Lock(i) => i < |s.threads| && !s.threads[i].Outside? && !s.threads[i].Waiting? && !s.threads[i].Inside?
                    && (s.threads[i].Working? ==> s.threads[i].done >= |s.threads[i].batch|)
    case Exec(i, _) => i < |s.threads| && s.threads[i].Working? && s.threads[i].done < |s.threads[i].batch|
  }

  function Init(workers: nat): State {
    State([], 0, 0, true, 0, seq(workers + 1, _ => Outside), 0, map[], multiset{}, {}, [])
  }

  // ----- the steps

  /** The names given to `count` newly added checks. */
  function Names(start: Check, count: nat): (ids: seq<Check>)
    ensures |ids| == count && forall k :: 0 <= k < count ==> ids[k] == start + k
  {
    seq(count, k requires 0 <= k => start + k)
  }

  function AddChecks(s: State, count: nat): State {
    var ids := Names(s.added, count);
    s.(queue := s.queue + ids, nTodo := s.nTodo + count,
       added := s.added + count, place := s.place + map c | c in ids :: InQueue)
  }

  /** The clean-up of the previous batch, with the wakeup of the master by the worker that finished last. */
  function CleanUp(s: State, i: nat): (r: State)
    requires i < |s.threads|
    ensures |r.threads| == |s.threads| && r.queue == s.queue
    ensures forall j :: 0 <= j < |s.threads| && j != i ==> r.threads[j] == s.threads[j] || r.threads[j] == Woken
  {
    var ts := s.threads[i := Inside];
    match s.threads[i]
    case Entering => s.(nTotal := s.nTotal + 1, threads := ts)
    case Woken => s.(nIdle := s.nIdle - 1, threads := ts)
    case Working(batch, _, ok) =>
      var nTodo := s.nTodo - |batch|;
      s.(fAllOk := s.fAllOk && ok, nTodo := nTodo,
         place := s.place + map c | c in batch :: Settled,
         threads := if nTodo == 0 && i != 0 && ts[0].Waiting? then ts[0 := Woken] else ts)
    case _ => s
  }

  /** How many checks to take; the divisor is positive in every counted state. */
  function BatchSize(s: State, nBatchSize: nat): (n: nat)
    ensures s.queue != [] ==> 1 <= n <= |s.queue|
    ensures n <= nBatchSize || n == 1
  {
    var d := s.nTotal + s.nIdle + 1;
    assert d > 0 ==> |s.queue| / d <= |s.queue| by { if d > 0 { MulMonotone(1, d, |s.queue| / d); } }
    var share := if d > 0 then |s.queue| / d else 0;
    var m := if share < nBatchSize then share else nBatchSize;
    if m < 1 then 1 else m
  }

  lemma ShareInNumbers(q: nat, d: nat, nBatchSize: nat, n: nat)
    requires d > 0 && n == (var m := if q / d < nBatchSize then q / d else nBatchSize; if m < 1 then 1 else m)
    ensures n == 1 || n * d <= q
    ensures n >= nBatchSize || (n + 1) * d > q
  {
    DivMod(q, d);
    MulMonotone(n, if n <= q / d then q / d else n, d);
    assert (q / d + 1) * d == q / d * d + d;
    MulMonotone(q / d + 1, if q / d <= n then n + 1 else q / d + 1, d);
  }

  /** The batch is the largest that leaves as much for every other thread, within the limit, but at least one. */
  lemma BatchIsShare(s: State, nBatchSize: nat, d: nat)
    requires d == s.nTotal + s.nIdle + 1 && d > 0
    ensures var n := BatchSize(s, nBatchSize);
            (n == 1 || n * d <= |s.queue|) && (n >= nBatchSize || (n + 1) * d > |s.queue|)
  {
    ShareInNumbers(|s.queue|, d, nBatchSize, BatchSize(s, nBatchSize));
  }

  function Return(s: State): State
    requires |s.threads| > 0
  {
    s.(nTotal := s.nTotal - 1, fAllOk := true, threads := s.threads[0 := Outside],
       place := map[], runs := multiset{}, failed := {},
       verdicts := s.verdicts + [Verdict(s.fAllOk, s.place.Keys, s.runs, s.failed)])
  }

  function Take(s: State, i: nat, k: nat): State
    requires i < |s.threads| && k < |s.queue|
  {
    var taken := s.queue[k..];
    s.(queue := s.queue[..k], place := s.place + map c | c in taken :: InBatch(i),
       threads := s.threads[i := Working(taken, 0, s.fAllOk)])
  }

  /** The rest of the critical section: return, sleep, or take a batch from the end of the queue. */
  function Proceed(s: State, i: nat, nBatchSize: nat): (r: State)
    requires i < |s.threads|
    ensures |r.threads| == |s.threads| && !r.threads[i].Inside?
    ensures forall j :: 0 <= j < |s.threads| && j != i ==> r.threads[j] == s.threads[j]
  {
    if s.queue == [] then
      if i == 0 && s.nTodo == 0 then Return(s)
      else s.(nIdle := s.nIdle + 1, threads := s.threads[i := Waiting])
    else Take(s, i, |s.queue| - BatchSize(s, nBatchSize))
  }

  function Execute(s: State, i: nat, result: bool): State
    requires Enabled(s, Exec(i, result))
  {
    var Working(batch, done, ok) := s.threads[i];
    if !ok then s.(threads := s.threads[i := Working(batch, done + 1, false)])
    else s.(threads := s.threads[i := Working(batch, done + 1, result)],
            runs := s.runs + multiset{batch[done]},
            failed := if result then s.failed else s.failed + {batch[done]})
  }

  function Next(s: State, e: Event, nBatchSize: nat): (r: State)
    requires Enabled(s, e)
    ensures |r.threads| == |s.threads|
  {
    match e
    case Add(count) => AddChecks(s, count)
    case Enter(i) => s.(threads := s.threads[i := Entering])
    case Wake(i) => s.(threads := s.threads[i := Woken])
    case Lock(i) => Proceed(CleanUp(s, i), i, nBatchSize)
    case Exec(i, result) => Execute(s, i, result)
  }

  // ----- sums over the threads

  function Total(ts: seq<Thread>, weight: Thread -> int): int {
    if ts == [] then 0 else weight(ts[0]) + Total(ts[1..], weight)
  }

  lemma {:induction false} TotalUpdate(ts: seq<Thread>, weight: Thread -> int, i: nat, t: Thread)
    requires i < |ts|
    ensures Total(ts[i := t], weight) == Total(ts, weight) - weight(ts[i]) + weight(t)
  {
    if i == 0 {
      assert ts[0 := t][1..] == ts[1..];
    } else {
      assert ts[i := t][1..] == ts[1..][i - 1 := t];
      TotalUpdate(ts[1..], weight, i - 1, t);
    }
  }

  lemma {:induction false} TotalAtLeast(ts: seq<Thread>, weight: Thread -> int, i: nat)
    requires i < |ts|
    requires forall t: Thread :: weight(t) >= 0
    ensures Total(ts, weight) >= weight(ts[i])
  {
    TotalNonNegative(ts[1..], weight);
    if i > 0 {
      TotalAtLeast(ts[1..], weight, i - 1);
    }
  }

  lemma {:induction false} TotalNonNegative(ts: seq<Thread>, weight: Thread -> int)
    requires forall t: Thread :: weight(t) >= 0
    ensures Total(ts, weight) >= 0
  {
    if ts != [] {
      TotalNonNegative(ts[1..], weight);
    }
  }

  lemma {:induction false} TotalPositive(ts: seq<Thread>, weight: Thread -> int)
    requires Total(ts, weight) > 0
    ensures exists i :: 0 <= i < |ts| && weight(ts[i]) > 0
  {
    if weight(ts[0]) > 0 {
    } else {
      TotalPositive(ts[1..], weight);
      var j :| 0 <= j < |ts[1..]| && weight(ts[1..][j]) > 0;
      assert ts[j + 1] == ts[1..][j];
    }
  }

  function InFlight(t: Thread): int { if t.Working? then |t.batch| else 0 }
  function Idle(t: Thread): int { if t.Waiting? || t.Woken? then 1 else 0 }
  function Joined(t: Thread): int { if t.Outside? || t.Entering? then 0 else 1 }

  // ----- the invariant

  /** The counters are exact. */
  predicate Counted(s: State) {
    && s.nTodo == |s.queue| + Total(s.threads, InFlight)
    && s.nIdle == Total(s.threads, Idle)
    && s.nTotal == Total(s.threads, Joined)
  }

  /** Every check of the round is in exactly one place: the queue, one batch, or settled. */
  predicate Placed(s: State) {
    && QueuePlaced(s.place, s.queue)
    && (forall c <- s.place :: c < s.added && (s.place[c].InBatch? ==> s.place[c].thread < |s.threads|))
    && (forall i :: 0 <= i < |s.threads| ==> BatchPlaced(s.place, s.threads[i], i))
  }

  predicate QueuePlaced(place: map<Check, Place>, queue: seq<Check>) {
    && Distinct(queue)
    && (forall k :: 0 <= k < |queue| ==> queue[k] in place && place[queue[k]].InQueue?)
    && (forall c <- place :: place[c].InQueue? ==> c in queue)
  }

  /** Thread `i` holds exactly the checks that are placed in its batch. */
  predicate BatchPlaced(place: map<Check, Place>, t: Thread, i: nat) {
    && (t.Working? ==> Distinct(t.batch) && |t.batch| > 0 &&
                       (forall k :: 0 <= k < |t.batch| ==> t.batch[k] in place && place[t.batch[k]] == InBatch(i)))
    && (forall c <- place :: place[c] == InBatch(i) ==> t.Working? && c in t.batch)
  }

  predicate Passed(runs: multiset<Check>, failed: set<Check>, c: Check) { runs[c] == 1 && c !in failed }

  /** How far the checks have run agrees with where they are, and flags agree with failures. */
  predicate Judged(s: State) {
    && (forall c <- s.failed :: c in s.runs)
    && (forall c <- s.runs :: c in s.place && s.runs[c] == 1)
    && (forall c <- s.place :: PlaceJudged(s.place[c], s.fAllOk, s.runs, s.failed, c))
    && (!s.fAllOk ==> s.failed != {})
    && (forall i :: 0 <= i < |s.threads| ==> BatchJudged(s.runs, s.failed, s.threads[i]))
  }

  predicate PlaceJudged(p: Place, fAllOk: bool, runs: multiset<Check>, failed: set<Check>, c: Check) {
    && (p.InQueue? ==> runs[c] == 0)
    && (p.Settled? && fAllOk ==> Passed(runs, failed, c))
  }

  predicate BatchJudged(runs: multiset<Check>, failed: set<Check>, t: Thread) {
    t.Working? ==>
      && t.done <= |t.batch|
      && (forall k :: t.done <= k < |t.batch| ==> runs[t.batch[k]] == 0)
      && (if t.ok then forall k :: 0 <= k < t.done ==> Passed(runs, failed, t.batch[k]) else failed != {})
  }

  /** The master only sleeps while work is in flight and none is queued. */
  predicate Awake(s: State) {
    |s.threads| > 0 && (s.threads[0].Waiting? ==> s.nTodo > 0 && s.queue == [])
  }

  /** A verdict is true exactly when every check of its round ran once and returned true. */
  predicate Right(v: Verdict) {
    v.result <==> forall c <- v.round :: v.runs[c] == 1 && c !in v.failed
  }

  predicate Inv(s: State) {
    && Counted(s) && Placed(s) && Judged(s) && Awake(s)
    && forall v <- s.verdicts :: Right(v)
  }

  // ----- every step keeps the invariant

  lemma AddPlaces(s: State, count: nat)
    requires Placed(s)
    ensures Placed(AddChecks(s, count))
  {
    var ids := Names(s.added, count);
    assert forall c <- ids :: c >= s.added;
    var s' := AddChecks(s, count);
    assert forall k :: 0 <= k < |s.queue| ==> s'.queue[k] == s.queue[k] && s.queue[k] < s.added;
    assert forall k :: |s.queue| <= k < |s'.queue| ==> s'.queue[k] == s.added + (k - |s.queue|);
    forall i | 0 <= i < |s.threads|
      ensures BatchPlaced(s'.place, s.threads[i], i)
    {
      assert BatchPlaced(s.place, s.threads[i], i);
    }
  }

  lemma AddJudges(s: State, count: nat)
    requires Placed(s) && Judged(s)
    ensures Judged(AddChecks(s, count))
  {
    var ids := Names(s.added, count);
    assert forall c <- ids :: c >= s.added && c !in s.place;
    var s' := AddChecks(s, count);
  }

  lemma AddKeeps(s: State, count: nat)
    requires Inv(s) && Enabled(s, Add(count))
    ensures Inv(AddChecks(s, count))
  {
    AddPlaces(s, count);
    AddJudges(s, count);
  }

  lemma CountedAfter(s: State, i: nat, t: Thread)
    requires i < |s.threads|
    ensures var ts := s.threads[i := t];
      && Total(ts, InFlight) == Total(s.threads, InFlight) - InFlight(s.threads[i]) + InFlight(t)
      && Total(ts, Idle) == Total(s.threads, Idle) - Idle(s.threads[i]) + Idle(t)
      && Total(ts, Joined) == Total(s.threads, Joined) - Joined(s.threads[i]) + Joined(t)
  {
    TotalUpdate(s.threads, InFlight, i, t);
    TotalUpdate(s.threads, Idle, i, t);
    TotalUpdate(s.threads, Joined, i, t);
  }

  /** A thread that holds no batch may change to another such state. */
  lemma SwapKeeps(s: State, i: nat, t: Thread)
    requires Placed(s) && Judged(s) && i < |s.threads| && !s.threads[i].Working? && !t.Working?
    ensures Placed(s.(threads := s.threads[i := t])) && Judged(s.(threads := s.threads[i := t]))
  {
    assert BatchPlaced(s.place, s.threads[i], i);
  }

  lemma EnterOrWakeKeeps(s: State, i: nat, t: Thread)
    requires Inv(s) && i < |s.threads|
    requires (s.threads[i].Outside? && t == Entering) || (s.threads[i].Waiting? && t == Woken)
    ensures Inv(s.(threads := s.threads[i := t]))
  {
    SwapKeeps(s, i, t);
    CountedAfter(s, i, t);
  }

  /** What a check does to the records leaves every batch that does not hold it judged. */
  lemma OthersStayJudged(runs: multiset<Check>, failed: set<Check>, c: Check, failed': set<Check>, t: Thread)
    requires BatchJudged(runs, failed, t) && failed <= failed' <= failed + {c}
    requires t.Working? ==> c !in t.batch
    ensures BatchJudged(runs + multiset{c}, failed', t)
  {
    if t.Working? {
      forall k | 0 <= k < |t.batch|
        ensures t.batch[k] != c
      {
        assert t.batch[k] in t.batch;
      }
    }
  }

  lemma OwnStaysJudged(runs: multiset<Check>, failed: set<Check>, batch: seq<Check>, done: nat, result: bool)
    requires done < |batch| && Distinct(batch) && batch[done] !in failed
    requires BatchJudged(runs, failed, Working(batch, done, true))
    ensures BatchJudged(runs + multiset{batch[done]}, if result then failed else failed + {batch[done]},
                        Working(batch, done + 1, result))
  {
    assert !result ==> batch[done] in failed + {batch[done]};
  }

  lemma ExecuteJudges(s: State, i: nat, result: bool)
    requires Placed(s) && Judged(s) && Enabled(s, Exec(i, result))
    ensures Judged(Execute(s, i, result))
  {
    var s' := Execute(s, i, result);
    var Working(batch, done, ok) := s.threads[i];
    var c := batch[done];
    assert BatchPlaced(s.place, s.threads[i], i) && BatchJudged(s.runs, s.failed, s.threads[i]);
    if ok {
      assert !result ==> c in s'.failed;
      forall j | 0 <= j < |s.threads|
        ensures BatchJudged(s'.runs, s'.failed, s'.threads[j])
      {
        if j == i {
          OwnStaysJudged(s.runs, s.failed, batch, done, result);
        } else {
          assert BatchPlaced(s.place, s.threads[j], j);
          OthersStayJudged(s.runs, s.failed, c, s'.failed, s.threads[j]);
        }
      }
    }
  }

  lemma ExecutePlaces(s: State, i: nat, result: bool)
    requires Placed(s) && Enabled(s, Exec(i, result))
    ensures Placed(Execute(s, i, result))
  {
    assert BatchPlaced(s.place, s.threads[i], i);
  }

  lemma ExecuteCounts(s: State, i: nat, result: bool)
    requires Counted(s) && Enabled(s, Exec(i, result))
    ensures Counted(Execute(s, i, result))
  {
    CountedAfter(s, i, Execute(s, i, result).threads[i]);
  }

  lemma ExecuteKeeps(s: State, i: nat, result: bool)
    requires Inv(s) && Enabled(s, Exec(i, result))
    ensures Inv(Execute(s, i, result))
  {
    ExecuteCounts(s, i, result);
    ExecuteJudges(s, i, result);
    ExecutePlaces(s, i, result);
  }

  // The critical section, first half: an awake thread comes inside.

  lemma ArriveCounts(s: State, i: nat)
    requires Counted(s) && i < |s.threads| && (s.threads[i].Entering? || s.threads[i].Woken?)
    ensures Counted(CleanUp(s, i))
  {
    CountedAfter(s, i, Inside);
  }

  lemma ArriveKeeps(s: State, i: nat)
    requires Inv(s) && i < |s.threads| && (s.threads[i].Entering? || s.threads[i].Woken?)
    ensures Inv(CleanUp(s, i))
  {
    ArriveCounts(s, i);
    SwapKeeps(s, i, Inside);
  }

  lemma SettleCounts(s: State, i: nat)
    requires Counted(s) && i < |s.threads| && s.threads[i].Working?
    ensures Counted(CleanUp(s, i))
  {
    CountedAfter(s, i, Inside);
    CountedAfter(s.(threads := s.threads[i := Inside]), 0, Woken);
  }

  lemma SettlePlaces(s: State, i: nat)
    requires Placed(s) && i < |s.threads| && s.threads[i].Working?
    ensures Placed(CleanUp(s, i))
  {
    var s' := CleanUp(s, i);
    var batch := s.threads[i].batch;
    assert BatchPlaced(s.place, s.threads[i], i);
    assert forall c <- batch :: c in s.place && s.place[c] == InBatch(i);
    forall j | 0 <= j < |s.threads|
      ensures BatchPlaced(s'.place, s'.threads[j], j)
    {
      assert BatchPlaced(s.place, s.threads[j], j);
    }
  }

  lemma SettleJudges(s: State, i: nat)
    requires Placed(s) && Judged(s) && Enabled(s, Lock(i)) && s.threads[i].Working?
    ensures Judged(CleanUp(s, i))
  {
    var s' := CleanUp(s, i);
    var batch := s.threads[i].batch;
    assert BatchPlaced(s.place, s.threads[i], i) && BatchJudged(s.runs, s.failed, s.threads[i]);
    forall c <- s'.place
      ensures PlaceJudged(s'.place[c], s'.fAllOk, s'.runs, s'.failed, c)
    {
      if c !in batch {
        assert PlaceJudged(s.place[c], s.fAllOk, s.runs, s.failed, c);
      }
    }
  }

  lemma SettleKeeps(s: State, i: nat)
    requires Inv(s) && Enabled(s, Lock(i)) && s.threads[i].Working?
    ensures Inv(CleanUp(s, i))
  {
    SettleCounts(s, i);
    SettlePlaces(s, i);
    SettleJudges(s, i);
    TotalNonNegative(CleanUp(s, i).threads, InFlight);
  }

  // Second half: the thread inside returns, sleeps or takes a batch.

  lemma ReturnIsRight(s: State)
    requires Inv(s) && s.threads[0].Inside? && s.queue == [] && s.nTodo == 0
    ensures Right(Verdict(s.fAllOk, s.place.Keys, s.runs, s.failed))
    ensures forall i :: 0 <= i < |s.threads| ==> !s.threads[i].Working?
  {
    forall c <- s.place | s.place[c].InBatch?
      ensures s.threads[s.place[c].thread].Working?
    {
      assert BatchPlaced(s.place, s.threads[s.place[c].thread], s.place[c].thread);
    }
    forall i | 0 <= i < |s.threads|
      ensures !s.threads[i].Working?
    {
      TotalAtLeast(s.threads, InFlight, i);
      assert BatchPlaced(s.place, s.threads[i], i);
    }
    assert forall c <- s.place :: s.place[c].Settled?;
    if !s.fAllOk {
      var c :| c in s.failed;
      assert c in s.place.Keys;
    }
  }

  lemma ReturnKeeps(s: State)
    requires Inv(s) && s.threads[0].Inside? && s.queue == [] && s.nTodo == 0
    ensures Inv(Return(s))
  {
    ReturnIsRight(s);
    SwapKeeps(s, 0, Outside);
    CountedAfter(s, 0, Outside);
  }

  lemma SleepKeeps(s: State, i: nat)
    requires Inv(s) && i < |s.threads| && s.threads[i].Inside? && s.queue == [] && !(i == 0 && s.nTodo == 0)
    ensures Inv(s.(nIdle := s.nIdle + 1, threads := s.threads[i := Waiting]))
  {
    CountedAfter(s, i, Waiting);
    SwapKeeps(s, i, Waiting);
    TotalNonNegative(s.threads, InFlight);
  }

  lemma TakeCounts(s: State, i: nat, k: nat)
    requires Counted(s) && i < |s.threads| && s.threads[i].Inside? && k < |s.queue|
    ensures Counted(Take(s, i, k))
  {
    CountedAfter(s, i, Take(s, i, k).threads[i]);
  }

  /** Moving the tail `taken` of the queue into batch `i` leaves the checks of thread `j` where they were. */
  lemma TakeLeavesOthers(place: map<Check, Place>, taken: seq<Check>, i: nat, t: Thread, j: nat)
    requires forall k :: 0 <= k < |taken| ==> taken[k] in place && place[taken[k]].InQueue?
    requires BatchPlaced(place, t, j) && i != j
    ensures BatchPlaced(place + map c | c in taken :: InBatch(i), t, j)
  {
    assert forall c <- taken :: place[c].InQueue?;
  }

  lemma TakeFromQueue(place: map<Check, Place>, queue: seq<Check>, k: nat, i: nat, ok: bool)
    requires QueuePlaced(place, queue) && k < |queue|
    requires forall c <- place :: place[c] != InBatch(i)
    ensures var place' := place + map c | c in queue[k..] :: InBatch(i);
            QueuePlaced(place', queue[..k]) && BatchPlaced(place', Working(queue[k..], 0, ok), i)
  {
    assert queue == queue[..k] + queue[k..];
    assert forall j :: k <= j < |queue| ==> queue[j] == queue[k..][j - k];
    assert forall j :: 0 <= j < k ==> queue[j] !in queue[k..];
  }

  lemma TakePlaces(s: State, i: nat, k: nat)
    requires Placed(s) && i < |s.threads| && s.threads[i].Inside? && k < |s.queue|
    ensures Placed(Take(s, i, k))
  {
    var s' := Take(s, i, k);
    var taken := s.queue[k..];
    assert BatchPlaced(s.place, s.threads[i], i);
    assert forall c <- taken :: c in s.queue && c in s.place;
    TakeFromQueue(s.place, s.queue, k, i, s.fAllOk);
    forall j | 0 <= j < |s.threads|
      ensures BatchPlaced(s'.place, s'.threads[j], j)
    {
      if i != j {
        TakeLeavesOthers(s.place, taken, i, s.threads[j], j);
      }
    }
  }

  lemma TakeJudges(s: State, i: nat, k: nat)
    requires Placed(s) && Judged(s) && i < |s.threads| && s.threads[i].Inside? && k < |s.queue|
    ensures Judged(Take(s, i, k))
  {
    var s' := Take(s, i, k);
    forall c <- s.queue[k..]
      ensures s.runs[c] == 0
    {
      assert PlaceJudged(s.place[c], s.fAllOk, s.runs, s.failed, c);
    }
    assert BatchJudged(s.runs, s.failed, s'.threads[i]);
  }

  lemma TakeKeeps(s: State, i: nat, k: nat)
    requires Inv(s) && i < |s.threads| && s.threads[i].Inside? && k < |s.queue|
    ensures Inv(Take(s, i, k))
  {
    TakeCounts(s, i, k);
    TakePlaces(s, i, k);
    TakeJudges(s, i, k);
  }

  lemma CleanUpKeeps(s: State, i: nat)
    requires Inv(s) && Enabled(s, Lock(i))
    ensures Inv(CleanUp(s, i)) && CleanUp(s, i).threads[i].Inside?
  {
    if s.threads[i].Working? {
      SettleKeeps(s, i);
    } else {
      ArriveKeeps(s, i);
    }
  }

  lemma ProceedKeeps(s: State, i: nat, nBatchSize: nat)
    requires Inv(s) && i < |s.threads| && s.threads[i].Inside?
    ensures Inv(Proceed(s, i, nBatchSize))
  {
    if s.queue != [] {
      TakeKeeps(s, i, |s.queue| - BatchSize(s, nBatchSize));
    } else if i == 0 && s.nTodo == 0 {
      ReturnKeeps(s);
    } else {
      SleepKeeps(s, i);
    }
  }

  lemma NextKeeps(s: State, e: Event, nBatchSize: nat)
    requires Inv(s) && Enabled(s, e)
    ensures Inv(Next(s, e, nBatchSize))
  {
    match e
    case Add(count) => AddKeeps(s, count);
    case Enter(i) => EnterOrWakeKeeps(s, i, Entering);
    case Wake(i) => EnterOrWakeKeeps(s, i, Woken);
    case Exec(i, result) => ExecuteKeeps(s, i, result);
    case Lock(i) =>
      CleanUpKeeps(s, i);
      ProceedKeeps(CleanUp(s, i), i, nBatchSize);
  }

  // ----- whole runs

  ghost predicate Possible(s: State, events: seq<Event>, nBatchSize: nat)
    decreases |events|
  {
    events != [] ==> Enabled(s, events[0]) && Possible(Next(s, events[0], nBatchSize), events[1..], nBatchSize)
  }

  ghost function Run(s: State, events: seq<Event>, nBatchSize: nat): State
    requires Possible(s, events, nBatchSize)
    decreases |events|
  {
    if events == [] then s else Run(Next(s, events[0], nBatchSize), events[1..], nBatchSize)
  }

  lemma {:induction false} RunKeeps(s: State, events: seq<Event>, nBatchSize: nat)
    requires Inv(s) && Possible(s, events, nBatchSize)
    ensures Inv(Run(s, events, nBatchSize))
    decreases |events|
  {
    if events != [] {
      NextKeeps(s, events[0], nBatchSize);
      RunKeeps(Next(s, events[0], nBatchSize), events[1..], nBatchSize);
    }
  }

  lemma {:induction false} TotalOfOutside(ts: seq<Thread>)
    requires forall i :: 0 <= i < |ts| ==> ts[i].Outside?
    ensures Total(ts, InFlight) == Total(ts, Idle) == Total(ts, Joined) == 0
  {
    if ts != [] {
      TotalOfOutside(ts[1..]);
    }
  }

  /** In every interleaving every verdict is right, nTodo is exact, and the master never sleeps on finished work. */
  lemma EveryRunIsRight(workers: nat, events: seq<Event>, nBatchSize: nat)
    requires Possible(Init(workers), events, nBatchSize)
    ensures var s := Run(Init(workers), events, nBatchSize);
      && (forall v <- s.verdicts :: Right(v))
      && s.nTodo == |s.queue| + Total(s.threads, InFlight)
      && (forall c <- s.runs :: s.runs[c] == 1)
      && (|s.threads| > 0 && s.threads[0].Waiting? ==> s.nTodo > 0)
  {
    TotalOfOutside(Init(workers).threads);
    RunKeeps(Init(workers), events, nBatchSize);
  }

  // ----- progress: while the master is in Wait, something can always run, and only finitely much can

  predicate NoneInside(s: State) { forall i :: 0 <= i < |s.threads| ==> !s.threads[i].Inside? }

  lemma NextLeavesNoneInside(s: State, e: Event, nBatchSize: nat)
    requires NoneInside(s) && Enabled(s, e)
    ensures NoneInside(Next(s, e, nBatchSize))
  {
    var s' := Next(s, e, nBatchSize);
    forall j | 0 <= j < |s.threads|
      ensures !s'.threads[j].Inside?
    {
      if e.Lock? && j != e.thread {
        assert s'.threads[j] == CleanUp(s, e.thread).threads[j];
      }
    }
  }

  lemma {:induction false} RunLeavesNoneInside(s: State, events: seq<Event>, nBatchSize: nat)
    requires NoneInside(s) && Possible(s, events, nBatchSize)
    ensures NoneInside(Run(s, events, nBatchSize))
    decreases |events|
  {
    if events != [] {
      NextLeavesNoneInside(s, events[0], nBatchSize);
      RunLeavesNoneInside(Next(s, events[0], nBatchSize), events[1..], nBatchSize);
    }
  }

  /** No deadlock: after any run, if the master is in Wait, some thread can take a step that is not a wakeup. */
  lemma NeverStuck(workers: nat, events: seq<Event>, nBatchSize: nat) returns (e: Event)
    requires Possible(Init(workers), events, nBatchSize)
    requires var s := Run(Init(workers), events, nBatchSize); |s.threads| > 0 && !s.threads[0].Outside?
    ensures Enabled(Run(Init(workers), events, nBatchSize), e) && (e.Lock? || e.Exec?)
  {
    TotalOfOutside(Init(workers).threads);
    RunKeeps(Init(workers), events, nBatchSize);
    RunLeavesNoneInside(Init(workers), events, nBatchSize);
    var s := Run(Init(workers), events, nBatchSize);
    var i: nat := 0;
    if s.threads[0].Waiting? {
      TotalPositive(s.threads, InFlight);
      i :| 0 <= i < |s.threads| && InFlight(s.threads[i]) > 0;
    }
    e := if s.threads[i].Working? && s.threads[i].done < |s.threads[i].batch| then Exec(i, true) else Lock(i);
  }

  function Left(t: Thread): int { if t.Working? && t.done < |t.batch| then |t.batch| - t.done else 0 }
  function Roused(t: Thread): int { if t.Outside? then 2 else if t.Entering? || t.Woken? then 1 else 0 }

  /** An upper bound on the steps left, not counting the wakeups still to come. */
  function Measure(s: State): int {
    2 * (s.nTodo + 2 * |s.queue| + Total(s.threads, Left)) + Total(s.threads, Roused)
  }

  lemma MeasureAfter(s: State, i: nat, t: Thread)
    requires i < |s.threads|
    ensures var ts := s.threads[i := t];
      && Total(ts, Left) == Total(s.threads, Left) - Left(s.threads[i]) + Left(t)
      && Total(ts, Roused) == Total(s.threads, Roused) - Roused(s.threads[i]) + Roused(t)
  {
    TotalUpdate(s.threads, Left, i, t);
    TotalUpdate(s.threads, Roused, i, t);
  }

  lemma CleanUpShrinks(s: State, i: nat)
    requires Inv(s) && Enabled(s, Lock(i))
    ensures Measure(CleanUp(s, i)) < Measure(s)
  {
    MeasureAfter(s, i, Inside);
    MeasureAfter(s.(threads := s.threads[i := Inside]), 0, Woken);
    assert BatchPlaced(s.place, s.threads[i], i);
  }

  lemma ProceedShrinks(s: State, i: nat, nBatchSize: nat)
    requires i < |s.threads| && s.threads[i].Inside?
    ensures (i == 0 && Proceed(s, 0, nBatchSize).threads[0].Outside?)
            || Measure(Proceed(s, i, nBatchSize)) <= Measure(s)
  {
    if s.queue != [] {
      MeasureAfter(s, i, Proceed(s, i, nBatchSize).threads[i]);
    } else {
      MeasureAfter(s, i, Waiting);
    }
  }

  lemma LockShrinks(s: State, i: nat, nBatchSize: nat)
    requires Inv(s) && Enabled(s, Lock(i))
    ensures var s' := Next(s, Lock(i), nBatchSize); s'.threads[0].Outside? || Measure(s') < Measure(s)
  {
    CleanUpKeeps(s, i);
    CleanUpShrinks(s, i);
    ProceedShrinks(CleanUp(s, i), i, nBatchSize);
  }

  lemma ExecShrinks(s: State, i: nat, result: bool)
    requires Enabled(s, Exec(i, result))
    ensures Measure(Execute(s, i, result)) < Measure(s)
  {
    MeasureAfter(s, i, Execute(s, i, result).threads[i]);
  }

  /** While the master is in Wait, every step but a wakeup uses up measure, and a wakeup adds only one. */
  lemma StepShrinks(s: State, e: Event, nBatchSize: nat)
    requires Inv(s) && Enabled(s, e) && !s.threads[0].Outside?
    ensures var s' := Next(s, e, nBatchSize);
            s'.threads[0].Outside? || Measure(s') < Measure(s) || (e.Wake? && Measure(s') == Measure(s) + 1)
  {
    match e
    case Add(_) =>
    case Enter(i) => MeasureAfter(s, i, Entering);
    case Wake(i) => MeasureAfter(s, i, Woken);
    case Exec(i, result) => ExecShrinks(s, i, result);
    case Lock(i) => LockShrinks(s, i, nBatchSize);
  }

  /** The master is inside one and the same Wait all along the run. */
  ghost predicate StaysInWait(s: State, events: seq<Event>, nBatchSize: nat)
    requires Possible(s, events, nBatchSize)
    decreases |events|
  {
    && |s.threads| > 0 && !s.threads[0].Outside?
    && (events != [] ==> StaysInWait(Next(s, events[0], nBatchSize), events[1..], nBatchSize))
  }

  ghost function Wakeups(events: seq<Event>): nat {
    if events == [] then 0 else (if events[0].Wake? then 1 else 0) + Wakeups(events[1..])
  }

  /** One Wait takes boundedly many steps: a number fixed when it begins, plus two for each wakeup. */
  lemma {:induction false} WaitIsBounded(s: State, events: seq<Event>, nBatchSize: nat)
    requires Inv(s) && Possible(s, events, nBatchSize) && StaysInWait(s, events, nBatchSize)
    ensures |events| <= Measure(s) + 2 * Wakeups(events)
    decreases |events|
  {
    if events == [] {
      TotalNonNegative(s.threads, InFlight);
      TotalNonNegative(s.threads, Left);
      TotalNonNegative(s.threads, Roused);
    } else {
      NextKeeps(s, events[0], nBatchSize);
      StepShrinks(s, events[0], nBatchSize);
      WaitIsBounded(Next(s, events[0], nBatchSize), events[1..], nBatchSize);
    }
  }
}
