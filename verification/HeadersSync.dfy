/**
 Download-twice header synchronisation with one peer. PRESYNC keeps one salted
 bit per commitment height; REDOWNLOAD checks the second download against those
 bits and releases headers once enough checked ones lie above them.
 */
module HeaderChains {
  import opened Basics

  type Hash(==, !new)

  const HEADER_COMMITMENT_PERIOD := 584
  const REDOWNLOAD_BUFFER_SIZE := 13959
  /** Chain work is a 256-bit number and wraps. */
  const WORK_MODULUS := 0x1_0000000000000000_0000000000000000_0000000000000000_0000000000000000

  datatype Header = Header(version: int, prev: Hash, merkleRoot: Hash, time: nat, bits: nat, nonce: nat)

  /** A header without its previous hash. */
  datatype Compressed = Compressed(version: int, merkleRoot: Hash, time: nat, bits: nat, nonce: nat) {
    function GetFullHeader(prev: Hash): Header {
      Header(version, prev, merkleRoot, time, bits, nonce)
    }
  }

  function Compress(h: Header): Compressed {
    Compressed(h.version, h.merkleRoot, h.time, h.bits, h.nonce)
  }

  /** The foreign code as arbitrary tables: header hash, salted commitment bit, difficulty rule and block proof. */
  datatype Env = Env(
    hashes: imap<Header, Hash>, otherHash: Hash,
    oneBits: iset<Hash>,
    permittedSteps: iset<(int, nat, nat)>,
    proofs: imap<nat, nat>)
  {
    function hash(h: Header): Hash { if h in hashes then hashes[h] else otherHash }
    predicate bit(x: Hash) { x in oneBits }
    predicate permitted(height: int, oldBits: nat, newBits: nat) { (height, oldBits, newBits) in permittedSteps }
    function proof(bits: nat): nat { if bits in proofs then proofs[bits] else 0 }
  }

  /** The block index entry the peer's chain builds on; its block hash is the hash of its header. */
  datatype Start = Start(height: nat, work: nat, header: Header)

  // ----- what a chain of headers on top of the start means

  /** The block before `chain[k]`. */
  ghost function Parent(start: Start, chain: seq<Header>, k: nat): Header
    requires k <= |chain|
  {
    if k == 0 then start.header else chain[k - 1]
  }

  ghost predicate ChainedAt(env: Env, start: Start, chain: seq<Header>, k: nat)
    requires k < |chain|
  {
    && chain[k].prev == env.hash(Parent(start, chain, k))
    && env.permitted(start.height + 1 + k, Parent(start, chain, k).bits, chain[k].bits)
  }

  /** Hash-linked from the start, each difficulty step permitted with respect to the true parent. */
  ghost predicate Chained(env: Env, start: Start, chain: seq<Header>) {
    forall k :: 0 <= k < |chain| ==> ChainedAt(env, start, chain, k)
  }

  lemma ChainedExtends(env: Env, start: Start, chain: seq<Header>, h: Header)
    requires Chained(env, start, chain)
    requires h.prev == env.hash(Parent(start, chain, |chain|))
    requires env.permitted(start.height + 1 + |chain|, Parent(start, chain, |chain|).bits, h.bits)
    ensures Chained(env, start, chain + [h])
  {
    forall k | 0 <= k < |chain + [h]|
      ensures ChainedAt(env, start, chain + [h], k)
    {
      assert k < |chain| ==> ChainedAt(env, start, chain, k);
      assert Parent(start, chain + [h], k) == Parent(start, chain, k);
    }
  }

  ghost function Work(env: Env, start: Start, chain: seq<Header>): nat {
    if chain == [] then start.work
    else (Work(env, start, chain[..|chain| - 1]) + env.proof(chain[|chain| - 1].bits)) % WORK_MODULUS
  }

  /** The proofs of a chain, added up. */
  ghost function ProofSum(env: Env, chain: seq<Header>): nat {
    if chain == [] then 0 else ProofSum(env, chain[..|chain| - 1]) + env.proof(chain[|chain| - 1].bits)
  }

  /** The work of the start and the proofs of the chain, modulo 2^256, reach a minimum. */
  ghost predicate Reaches(env: Env, start: Start, chain: seq<Header>, minimumWork: nat) {
    (start.work + ProofSum(env, chain)) % 0x1_0000000000000000_0000000000000000_0000000000000000_0000000000000000
    >= minimumWork
  }

  lemma AddWraps(a: nat, b: nat)
    ensures (a % WORK_MODULUS + b) % WORK_MODULUS == (a + b) % WORK_MODULUS
  {
  }

  /** However often the sum wraps on the way, it is the sum modulo 2^256. */
  lemma {:induction false} WorkIsSum(env: Env, start: Start, chain: seq<Header>)
    requires start.work < WORK_MODULUS
    ensures Work(env, start, chain) == (start.work + ProofSum(env, chain)) %
            0x1_0000000000000000_0000000000000000_0000000000000000_0000000000000000
  {
    if chain != [] {
      var rest, proof := chain[..|chain| - 1], env.proof(chain[|chain| - 1].bits);
      WorkIsSum(env, start, rest);
      AddWraps(start.work + ProofSum(env, rest), proof);
    }
  }

  predicate IsCommitHeight(offset: nat, height: nat) {
    height % HEADER_COMMITMENT_PERIOD == offset
  }

  /** How many of the first `n` heights above `base` are commitment heights. */
  ghost function Count(offset: nat, base: nat, n: nat): nat {
    if n == 0 then 0
    else Count(offset, base, n - 1) + (if IsCommitHeight(offset, base + n) then 1 else 0)
  }

  /** The commitment bits of a chain, lowest height first. */
  ghost function Bits(env: Env, offset: nat, base: nat, chain: seq<Header>): seq<bool> {
    if chain == [] then []
    else Bits(env, offset, base, chain[..|chain| - 1]) +
         (if IsCommitHeight(offset, base + |chain|) then [env.bit(env.hash(chain[|chain| - 1]))] else [])
  }

  lemma {:induction false} CountIsMonotone(offset: nat, base: nat, m: nat, n: nat)
    requires m <= n
    ensures Count(offset, base, m) <= Count(offset, base, n) <= Count(offset, base, m) + (n - m)
    decreases n
  {
    if m < n {
      CountIsMonotone(offset, base, m, n - 1);
    }
  }

  /** Counting in closed form: one commitment height per period. */
  lemma {:induction false} CountInClosedForm(offset: nat, base: nat, n: nat)
    requires offset < HEADER_COMMITMENT_PERIOD
    ensures Count(offset, base, n) ==
            (base + n + 584 - offset) / 584 - (base + 584 - offset) / 584
  {
    if n > 0 {
      CountInClosedForm(offset, base, n - 1);
      OneMore(offset, base + n);
    }
  }

  lemma OneMore(offset: nat, x: nat)
    requires offset < HEADER_COMMITMENT_PERIOD && x > 0
    ensures (x + HEADER_COMMITMENT_PERIOD - offset) / HEADER_COMMITMENT_PERIOD
            == (x - 1 + HEADER_COMMITMENT_PERIOD - offset) / HEADER_COMMITMENT_PERIOD
              + (if IsCommitHeight(offset, x) then 1 else 0)
  {
    var q, r := x / HEADER_COMMITMENT_PERIOD, x % HEADER_COMMITMENT_PERIOD;
    assert x == q * HEADER_COMMITMENT_PERIOD + r;
  }

  /** A full redownload buffer always covers at least 23 commitment heights. */
  lemma BufferCoversCommitments(offset: nat, base: nat, m: nat, n: nat)
    requires offset < HEADER_COMMITMENT_PERIOD && m + REDOWNLOAD_BUFFER_SIZE <= n
    ensures Count(offset, base, n) >= Count(offset, base, m) + 23
  {
    CountInClosedForm(offset, base, m);
    CountInClosedForm(offset, base, n);
  }

  /** At least 23 commitment heights lie above the k-th header, within the first `checked` ones. */
  ghost predicate Covered(offset: nat, base: nat, checked: nat, k: nat) {
    Count(offset, base, checked) >= Count(offset, base, k + 1) + 23
  }

  ghost predicate AllCovered(offset: nat, base: nat, checked: nat, gone: nat) {
    forall k :: 0 <= k < gone ==> Covered(offset, base, checked, k)
  }

  lemma BehindTheBuffer(offset: nat, base: nat, gone: nat, seen: nat, checked: nat)
    requires offset < HEADER_COMMITMENT_PERIOD && (gone == 0 || gone + REDOWNLOAD_BUFFER_SIZE <= seen)
             && seen <= checked
    ensures AllCovered(offset, base, checked, gone)
  {
    forall k | 0 <= k < gone
      ensures Covered(offset, base, checked, k)
    {
      BufferCoversCommitments(offset, base, k + 1, checked);
    }
  }

  lemma {:induction false} BitsAreCounted(env: Env, offset: nat, base: nat, chain: seq<Header>)
    ensures |Bits(env, offset, base, chain)| == Count(offset, base, |chain|)
  {
    if chain != [] {
      BitsAreCounted(env, offset, base, chain[..|chain| - 1]);
    }
  }

  /** The bit at index Count(k) is the one seen at the height of `chain[k]`. */
  lemma {:induction false} BitAt(env: Env, offset: nat, base: nat, chain: seq<Header>, k: nat)
    requires k < |chain| && IsCommitHeight(offset, base + k + 1)
    ensures Count(offset, base, k) < |Bits(env, offset, base, chain)|
    ensures Bits(env, offset, base, chain)[Count(offset, base, k)] == env.bit(env.hash(chain[k]))
  {
    var rest := chain[..|chain| - 1];
    BitsAreCounted(env, offset, base, rest);
    if k < |chain| - 1 {
      BitAt(env, offset, base, rest, k);
    }
  }

  /** With commitments left, the next commitment height lies within the presynced chain. */
  lemma NotOverrun(offset: nat, base: nat, m: nat, n: nat)
    requires offset < HEADER_COMMITMENT_PERIOD
    ensures Count(offset, base, m) < Count(offset, base, n) ==> m < n
    ensures Count(offset, base, m) <= Count(offset, base, n) ==> m < n + HEADER_COMMITMENT_PERIOD
  {
    CountInClosedForm(offset, base, m);
    CountInClosedForm(offset, base, n);
  }

  /** Rebuilds the buffered headers, feeding each one's hash to the next. */
  ghost function Decompress(env: Env, buffer: seq<Compressed>, prev: Hash): seq<Header> {
    if buffer == [] then []
    else var h := buffer[0].GetFullHeader(prev);
         [h] + Decompress(env, buffer[1..], env.hash(h))
  }

  /** `buffer` is the chain after its first `gone` headers, without the previous hashes. */
  ghost predicate Compresses(buffer: seq<Compressed>, chain: seq<Header>, gone: nat) {
    && gone + |buffer| == |chain|
    && forall k :: 0 <= k < |buffer| ==> buffer[k] == Compress(chain[gone + k])
  }

  /** Nothing is lost by dropping the previous hashes of a linked chain. */
  lemma {:induction false} DecompressUndoesCompress(env: Env, start: Start, chain: seq<Header>, gone: nat,
                                                    buffer: seq<Compressed>)
    requires Chained(env, start, chain) && Compresses(buffer, chain, gone)
    ensures Decompress(env, buffer, env.hash(Parent(start, chain, gone))) == chain[gone..]
    decreases |buffer|
  {
    if buffer != [] {
      assert ChainedAt(env, start, chain, gone);
      assert buffer[0].GetFullHeader(env.hash(Parent(start, chain, gone))) == chain[gone];
      DecompressUndoesCompress(env, start, chain, gone + 1, buffer[1..]);
      assert chain[gone..] == [chain[gone]] + chain[gone + 1..];
    }
  }

  /** The redownloaded header at a commitment height has the bit that PRESYNC saw at that height. */
  ghost predicate MatchesAt(env: Env, offset: nat, base: nat, presync: seq<Header>, accepted: seq<Header>, k: nat) {
    IsCommitHeight(offset, base + 1 + k) ==>
      k < |accepted| && k < |presync| && env.bit(env.hash(accepted[k])) == env.bit(env.hash(presync[k]))
  }

  ghost predicate MatchesUpTo(env: Env, offset: nat, base: nat, presync: seq<Header>, accepted: seq<Header>, n: nat) {
    && n <= |accepted| && n < |presync| + HEADER_COMMITMENT_PERIOD
    && forall k :: 0 <= k < n ==> MatchesAt(env, offset, base, presync, accepted, k)
  }

  /** Everything accepted matches, and `queue` is exactly the presync bits for the heights still to come. */
  ghost predicate Queued(env: Env, offset: nat, base: nat, presync: seq<Header>, accepted: seq<Header>,
                         queue: seq<bool>)
  {
    var bits, n := Bits(env, offset, base, presync), Count(offset, base, |accepted|);
    && n + |queue| == |bits| && (forall k :: 0 <= k < |queue| ==> queue[k] == bits[n + k])
    && MatchesUpTo(env, offset, base, presync, accepted, |accepted|)
  }

  lemma MatchesExtends(env: Env, offset: nat, base: nat, presync: seq<Header>, accepted: seq<Header>, n: nat, h: Header)
    requires MatchesUpTo(env, offset, base, presync, accepted, n)
    ensures MatchesUpTo(env, offset, base, presync, accepted + [h], n)
  {
    forall k | 0 <= k < n
      ensures MatchesAt(env, offset, base, presync, accepted + [h], k)
    {
      assert MatchesAt(env, offset, base, presync, accepted, k);
    }
  }

  /**
   * At a commitment height the front of the queue is the presync bit of that height; it is empty iff
   * presync was shorter.
   */
  lemma FrontIsPresyncBit(env: Env, offset: nat, base: nat, presync: seq<Header>, accepted: seq<Header>,
                          queue: seq<bool>)
    requires offset < HEADER_COMMITMENT_PERIOD && Queued(env, offset, base, presync, accepted, queue)
    requires IsCommitHeight(offset, base + 1 + |accepted|)
    ensures queue == [] <==> |accepted| >= |presync|
    ensures queue != [] ==> queue[0] == env.bit(env.hash(presync[|accepted|]))
  {
    BitsAreCounted(env, offset, base, presync);
    NotOverrun(offset, base, |accepted|, |presync|);
    if |accepted| < |presync| {
      BitAt(env, offset, base, presync, |accepted|);
    }
  }

  lemma QueueExtends(env: Env, offset: nat, base: nat, presync: seq<Header>, accepted: seq<Header>, queue: seq<bool>,
                     h: Header)
    requires offset < HEADER_COMMITMENT_PERIOD && Queued(env, offset, base, presync, accepted, queue)
    requires IsCommitHeight(offset, base + 1 + |accepted|) ==> queue != [] && queue[0] == env.bit(env.hash(h))
    ensures Queued(env, offset, base, presync, accepted + [h],
                   if IsCommitHeight(offset, base + 1 + |accepted|) then queue[1..] else queue)
  {
    var n := |accepted|;
    assert Count(offset, base, n + 1) == Count(offset, base, n) + if IsCommitHeight(offset, base + (n + 1)) then 1
           else 0;
    if IsCommitHeight(offset, base + 1 + n) {
      FrontIsPresyncBit(env, offset, base, presync, accepted, queue);
    }
    MatchesExtends(env, offset, base, presync, accepted, n, h);
    BitsAreCounted(env, offset, base, presync);
    NotOverrun(offset, base, n + 1, |presync|);
    assert (accepted + [h])[n] == h;
  }

  /** `buffer` is the accepted headers after the first `gone`, without their previous hashes. */
  ghost predicate BufferOf(env: Env, start: Start, accepted: seq<Header>, gone: nat, buffer: seq<Compressed>,
                           firstPrev: Hash, lastHash: Hash, work: nat)
  {
    && Compresses(buffer, accepted, gone)
    && firstPrev == env.hash(Parent(start, accepted, gone))
    && lastHash == env.hash(Parent(start, accepted, |accepted|))
    && work == Work(env, start, accepted)
  }

  lemma BufferExtends(env: Env, start: Start, accepted: seq<Header>, gone: nat, buffer: seq<Compressed>,
                      firstPrev: Hash, lastHash: Hash, work: nat, h: Header)
    requires BufferOf(env, start, accepted, gone, buffer, firstPrev, lastHash, work)
    ensures BufferOf(env, start, accepted + [h], gone, buffer + [Compress(h)], firstPrev, env.hash(h),
                     (work + env.proof(h.bits)) % WORK_MODULUS)
  {
    WorkExtends(env, start, accepted, h);
  }

  lemma BufferPops(env: Env, start: Start, accepted: seq<Header>, gone: nat, buffer: seq<Compressed>,
                   firstPrev: Hash, lastHash: Hash, work: nat)
    requires Chained(env, start, accepted) && buffer != []
    requires BufferOf(env, start, accepted, gone, buffer, firstPrev, lastHash, work)
    ensures gone < |accepted| && buffer[0].GetFullHeader(firstPrev) == accepted[gone]
    ensures BufferOf(env, start, accepted, gone + 1, buffer[1..], env.hash(accepted[gone]), lastHash, work)
  {
    assert ChainedAt(env, start, accepted, gone);
  }

  // ----- the whole state between two headers, as predicates on values

  /** How many headers are out after a release, with the work below the minimum: all but a full buffer. */
  function OutAfter(accepted: nat, before: nat): nat {
    if accepted - 13959 > before then accepted - 13959 else before
  }

  /** What holds of the history in every phase. */
  ghost predicate HistoryOf(env: Env, start: Start, offset: nat, presync: seq<Header>, accepted: seq<Header>,
                            checked: nat, released: seq<Header>)
  {
    && offset < HEADER_COMMITMENT_PERIOD && start.work < WORK_MODULUS
    && Chained(env, start, presync)
    && Chained(env, start, accepted)
    && released <= accepted
    && MatchesUpTo(env, offset, start.height, presync, accepted, checked)
  }

  /** PRESYNC holds nothing of the chain but its height, work, last header and commitment bits. */
  ghost predicate PresyncOf(env: Env, start: Start, offset: nat, presync: seq<Header>, height: nat, last: Header,
                            work: nat, queue: seq<bool>)
  {
    && height == start.height + |presync|
    && last == Parent(start, presync, |presync|)
    && work == Work(env, start, presync)
    && queue == Bits(env, offset, start.height, presync)
  }

  lemma PresyncExtends(env: Env, start: Start, offset: nat, presync: seq<Header>, height: nat, last: Header, work: nat,
                       queue: seq<bool>, h: Header)
    requires PresyncOf(env, start, offset, presync, height, last, work, queue)
    requires Chained(env, start, presync)
    requires h.prev == env.hash(last) && env.permitted(height + 1, last.bits, h.bits)
    ensures Chained(env, start, presync + [h])
    ensures PresyncOf(env, start, offset, presync + [h], height + 1, h, (work + env.proof(h.bits)) % WORK_MODULUS,
                      queue + if IsCommitHeight(offset, height + 1) then [env.bit(env.hash(h))] else [])
  {
    ChainedExtends(env, start, presync, h);
    assert (presync + [h])[..|presync|] == presync;
  }

  ghost predicate RedownloadOf(env: Env, start: Start, offset: nat, presync: seq<Header>, accepted: seq<Header>,
                               checked: nat, gone: nat, buffer: seq<Compressed>, firstPrev: Hash,
                               lastHash: Hash, lastHeight: nat, work: nat,
                               processAll: bool, queue: seq<bool>)
  {
    && BufferOf(env, start, accepted, gone, buffer, firstPrev, lastHash, work)
    && lastHeight == start.height + |accepted|
    && (buffer == [] ==> accepted == [])
    && (!processAll ==>
          && checked == |accepted| && Queued(env, offset, start.height, presync, accepted, queue)
          && (gone == 0 || gone + REDOWNLOAD_BUFFER_SIZE <= |accepted|))
  }

  /** `h` extends the chain: it names the tip's hash, and its difficulty is permitted after the tip's. */
  ghost predicate ConnectsTo(env: Env, start: Start, chain: seq<Header>, h: Header) {
    var tip := Parent(start, chain, |chain|);
    h.prev == env.hash(tip) && env.permitted(start.height + 1 + |chain|, tip.bits, h.bits)
  }

  /** At a commitment height, `h` has the bit that the presync chain had at the same height. */
  ghost predicate Commits(env: Env, start: Start, offset: nat, presync: seq<Header>, n: nat, h: Header) {
    IsCommitHeight(offset, start.height + 1 + n) ==>
      n < |presync| && env.bit(env.hash(h)) == env.bit(env.hash(presync[n]))
  }

  /** The exact conditions under which REDOWNLOAD takes one more header, in terms of the two chains. */
  ghost predicate RedownloadTakes(env: Env, start: Start, offset: nat, minimumWork: nat, presync: seq<Header>,
                                  accepted: seq<Header>, processAll: bool, h: Header)
  {
    && ConnectsTo(env, start, accepted, h)
    && (processAll || Work(env, start, accepted + [h]) >= minimumWork
        || Commits(env, start, offset, presync, |accepted|, h))
  }

  lemma WorkExtends(env: Env, start: Start, chain: seq<Header>, h: Header)
    ensures Work(env, start, chain + [h]) == (Work(env, start, chain) + env.proof(h.bits)) % WORK_MODULUS
  {
    assert (chain + [h])[..|chain|] == chain;
  }

  lemma RedownloadExtends(env: Env, start: Start, offset: nat, presync: seq<Header>, accepted: seq<Header>,
                          checked: nat, released: seq<Header>, buffer: seq<Compressed>,
                          firstPrev: Hash, lastHash: Hash, lastHeight: nat, work: nat,
                          processAll: bool, queue: seq<bool>, h: Header, processAll': bool, queue': seq<bool>)
    requires HistoryOf(env, start, offset, presync, accepted, checked, released)
    requires RedownloadOf(env, start, offset, presync, accepted, checked, |released|, buffer, firstPrev, lastHash,
                          lastHeight, work, processAll, queue)
    requires ConnectsTo(env, start, accepted, h) && (processAll ==> processAll')
    requires !processAll' ==> Queued(env, offset, start.height, presync, accepted + [h], queue')
    ensures var checked' := if processAll' then checked else |accepted| + 1;
      && HistoryOf(env, start, offset, presync, accepted + [h], checked', released)
      && RedownloadOf(env, start, offset, presync, accepted + [h], checked', |released|, buffer + [Compress(h)],
                      firstPrev, env.hash(h), lastHeight + 1, (work + env.proof(h.bits)) % WORK_MODULUS,
                      processAll', queue')
  {
    ChainedExtends(env, start, accepted, h);
    MatchesExtends(env, offset, start.height, presync, accepted, checked, h);
    BufferExtends(env, start, accepted, |released|, buffer, firstPrev, lastHash, work, h);
  }

  /** The headers and the flag after REDOWNLOAD took `headers[i..]`, or None if it refuses one of them. */
  ghost function RedownloadFrom(env: Env, start: Start, offset: nat, minimumWork: nat, presync: seq<Header>,
                                accepted: seq<Header>, processAll: bool, headers: seq<Header>,
                                  i: nat): Option<(seq<Header>, bool)>
    requires i <= |headers|
    decreases |headers| - i
  {
    if i == |headers| then Some((accepted, processAll))
    else if !RedownloadTakes(env, start, offset, minimumWork, presync, accepted, processAll, headers[i]) then None
    else var next := accepted + [headers[i]];
         RedownloadFrom(env, start, offset, minimumWork, presync, next,
                        processAll || Work(env, start, next) >= minimumWork, headers, i + 1)
  }

  /** What REDOWNLOAD takes of a batch it takes whole is the batch. */
  lemma {:induction false} TakenAreAppended(env: Env, start: Start, offset: nat, minimumWork: nat,
                                            presync: seq<Header>, accepted: seq<Header>, processAll: bool,
                                            headers: seq<Header>, i: nat)
    requires i <= |headers|
    ensures var taken := RedownloadFrom(env, start, offset, minimumWork, presync, accepted, processAll, headers, i);
            taken.Some? ==> taken.value.0 == accepted + headers[i..]
    decreases |headers| - i
  {
    if i < |headers| && RedownloadTakes(env, start, offset, minimumWork, presync, accepted, processAll, headers[i]) {
      var next := accepted + [headers[i]];
      var reached := processAll || Work(env, start, next) >= minimumWork;
      TakenAreAppended(env, start, offset, minimumWork, presync, next, reached, headers, i + 1);
      assert next + headers[i + 1..] == accepted + headers[i..];
    }
  }

  ghost predicate FollowsAt(env: Env, headers: seq<Header>, i: nat) {
    i + 1 < |headers| ==> headers[i + 1].prev == env.hash(headers[i])
  }

  /** What the caller has checked of a batch before handing it over. */
  ghost predicate Continuous(env: Env, headers: seq<Header>) {
    forall i :: 0 <= i < |headers| ==> FollowsAt(env, headers, i)
  }

  /** PRESYNC takes `headers[i..]` on top of `last` at `height`, with `stored` commitments so far. */
  ghost predicate PresyncTakesFrom(env: Env, offset: nat, max: nat, height: nat, last: Header, stored: nat,
                                   headers: seq<Header>, i: nat)
    requires i <= |headers|
    decreases |headers| - i
  {
    i < |headers| ==>
      var here := IsCommitHeight(offset, height + 1);
      && env.permitted(height + 1, last.bits, headers[i].bits)
      && (here ==> stored < max)
      && PresyncTakesFrom(env, offset, max, height + 1, headers[i], if here then stored + 1 else stored, headers, i + 1)
  }

  lemma NotChained(env: Env, start: Start, chain: seq<Header>, rest: seq<Header>)
    requires rest != [] && Chained(env, start, chain + rest)
    ensures ConnectsTo(env, start, chain, rest[0])
  {
    assert ChainedAt(env, start, chain + rest, |chain|);
    assert Parent(start, chain + rest, |chain|) == Parent(start, chain, |chain|);
  }

  /** PRESYNC takes exactly what continues the chain, link by link, with no more commitments than allowed. */
  lemma {:induction false} PresyncTakesExactly(env: Env, start: Start, offset: nat, max: nat, presync: seq<Header>,
                                               headers: seq<Header>, i: nat)
    requires Chained(env, start, presync) && Count(offset, start.height, |presync|) <= max
    requires Continuous(env, headers) && i <= |headers|
    requires i < |headers| ==> headers[i].prev == env.hash(Parent(start, presync, |presync|))
    ensures PresyncTakesFrom(env, offset, max, start.height + |presync|, Parent(start, presync, |presync|),
                             Count(offset, start.height, |presync|), headers, i)
       <==> Chained(env, start, presync + headers[i..]) && Count(offset, start.height, |presync| + |headers| - i) <= max
    decreases |headers| - i
  {
    var n, total := |presync|, |presync| + |headers| - i;
    if i == |headers| {
      assert presync + headers[i..] == presync;
    } else {
      var h := headers[i];
      var next := presync + [h];
      assert next + headers[i + 1..] == presync + headers[i..];
      assert FollowsAt(env, headers, i);
      if !env.permitted(start.height + 1 + n, Parent(start, presync, n).bits, h.bits) {
        if Chained(env, start, presync + headers[i..]) {
          NotChained(env, start, presync, headers[i..]);
        }
      } else if Count(offset, start.height, n + 1) > max {
        CountIsMonotone(offset, start.height, n + 1, total);
      } else {
        ChainedExtends(env, start, presync, h);
        PresyncTakesExactly(env, start, offset, max, next, headers, i + 1);
      }
    }
  }

  /** The headers continue the chain link by link, and it has no more commitments than are allowed. */
  ghost predicate Continues(env: Env, start: Start, offset: nat, max: nat, chain: seq<Header>, headers: seq<Header>) {
    Chained(env, start, chain + headers) && Count(offset, start.height, |chain| + |headers|) <= max
  }

  lemma BatchContinues(env: Env, start: Start, offset: nat, max: nat, presync: seq<Header>, headers: seq<Header>,
                       height: nat, last: Header, queue: seq<bool>)
    requires Chained(env, start, presync) && |headers| > 0 && Continuous(env, headers)
    requires height == start.height + |presync| && last == Parent(start, presync, |presync|)
    requires queue == Bits(env, offset, start.height, presync) && |queue| <= max
    ensures Continues(env, start, offset, max, presync, headers) <==>
      headers[0].prev == env.hash(last) && PresyncTakesFrom(env, offset, max, height, last, |queue|, headers, 0)
  {
    BitsAreCounted(env, offset, start.height, presync);
    if Chained(env, start, presync + headers) {
      NotChained(env, start, presync, headers);
    }
    if headers[0].prev == env.hash(last) {
      PresyncTakesExactly(env, start, offset, max, presync, headers, 0);
      assert headers[0..] == headers;
    }
  }

  /** A peer that sends the first chain again is not refused. */
  lemma {:induction false} SameChainIsTaken(env: Env, start: Start, offset: nat, minimumWork: nat, presync: seq<Header>,
                                            accepted: seq<Header>, processAll: bool, headers: seq<Header>, i: nat)
    requires i <= |headers| && Chained(env, start, presync) && accepted + headers[i..] <= presync
    ensures RedownloadFrom(env, start, offset, minimumWork, presync, accepted, processAll, headers, i).Some?
    decreases |headers| - i
  {
    if i < |headers| {
      var next := accepted + [headers[i]];
      assert next + headers[i + 1..] == accepted + headers[i..];
      assert headers[i] == (accepted + headers[i..])[|accepted|] == presync[|accepted|];
      assert ChainedAt(env, start, presync, |accepted|);
      assert Parent(start, presync, |accepted|) == Parent(start, accepted, |accepted|);
      SameChainIsTaken(env, start, offset, minimumWork, presync, next,
                       processAll || Work(env, start, next) >= minimumWork, headers, i + 1);
    }
  }

  /** After the chain and some of the headers from the i-th on, the work reaches the minimum. */
  ghost predicate ReachesWith(env: Env, start: Start, chain: seq<Header>, headers: seq<Header>, i: nat,
                              minimumWork: nat)
  {
    exists k :: i < k <= |headers| && Reaches(env, start, chain + headers[i..k], minimumWork)
  }

  lemma ReachesStep(env: Env, start: Start, chain: seq<Header>, headers: seq<Header>, i: nat, minimumWork: nat)
    requires i < |headers|
    ensures ReachesWith(env, start, chain, headers, i, minimumWork)
       <==> Reaches(env, start, chain + [headers[i]], minimumWork)
            || ReachesWith(env, start, chain + [headers[i]], headers, i + 1, minimumWork)
  {
    var next := chain + [headers[i]];
    assert chain + headers[i..i + 1] == next;
    if ReachesWith(env, start, chain, headers, i, minimumWork) {
      var k :| i < k <= |headers| && Reaches(env, start, chain + headers[i..k], minimumWork);
      assert next + headers[i + 1..k] == chain + headers[i..k];
    }
    if ReachesWith(env, start, next, headers, i + 1, minimumWork) {
      var k :| i + 1 < k <= |headers| && Reaches(env, start, next + headers[i + 1..k], minimumWork);
      assert next + headers[i + 1..k] == chain + headers[i..k];
    }
  }

  lemma WorkReaches(env: Env, start: Start, chain: seq<Header>, minimumWork: nat)
    requires start.work < WORK_MODULUS
    ensures Work(env, start, chain) >= minimumWork <==> Reaches(env, start, chain, minimumWork)
  {
    WorkIsSum(env, start, chain);
  }

  /** The flag is set exactly when the work reaches the minimum after one of the headers. */
  lemma {:induction false} ReachedByWork(env: Env, start: Start, offset: nat, minimumWork: nat, presync: seq<Header>,
                                         accepted: seq<Header>, processAll: bool, headers: seq<Header>, i: nat)
    requires i <= |headers| && start.work < WORK_MODULUS
    ensures var taken := RedownloadFrom(env, start, offset, minimumWork, presync, accepted, processAll, headers, i);
            taken.Some? ==>
              (taken.value.1 <==> processAll || ReachesWith(env, start, accepted, headers, i, minimumWork))
    decreases |headers| - i
  {
    if i < |headers| && RedownloadTakes(env, start, offset, minimumWork, presync, accepted, processAll, headers[i]) {
      var next := accepted + [headers[i]];
      WorkReaches(env, start, next, minimumWork);
      ReachesStep(env, start, accepted, headers, i, minimumWork);
      ReachedByWork(env, start, offset, minimumWork, presync, next,
                    processAll || Work(env, start, next) >= minimumWork, headers, i + 1);
    }
  }
}

/** The synchronisation object itself. */
module HeadersSync {
  import opened Basics
  import opened HeaderChains

  datatype Phase = PRESYNC | REDOWNLOAD | FINAL

  datatype ProcessingResult = ProcessingResult(powValidated: seq<Header>, success: bool, requestMore: bool)

  class HeadersSyncState {
    const env: Env
    const start: Start
    const minimumWork: nat
    const commitOffset: nat
    const maxCommitments: nat

    var phase: Phase
    var currentWork: nat
    var commitments: seq<bool>
    var lastHeader: Header
    var currentHeight: nat
    var buffer: seq<Compressed>
    var bufferLastHeight: nat
    var bufferLastHash: Hash
    var bufferFirstPrev: Hash
    var redownloadWork: nat
    var processAll: bool

    /** History: the headers taken in PRESYNC, those taken in REDOWNLOAD, how many of these came before the
        work reached the minimum, and the headers handed to the caller so far. */
    ghost var presync: seq<Header>
    ghost var accepted: seq<Header>
    ghost var checkedCount: nat
    ghost var released: seq<Header>

    ghost predicate History() reads this {
      HistoryOf(env, start, commitOffset, presync, accepted, checkedCount, released)
    }

    ghost predicate Presyncing() reads this {
      && accepted == released == [] && checkedCount == 0 && !processAll
      && PresyncOf(env, start, commitOffset, presync, currentHeight, lastHeader, currentWork, commitments)
      && |commitments| <= maxCommitments
    }

    ghost predicate Redownloading() reads this {
      RedownloadOf(env, start, commitOffset, presync, accepted, checkedCount, |released|, buffer, bufferFirstPrev,
                   bufferLastHash, bufferLastHeight, redownloadWork, processAll, commitments)
    }

    /** Between calls. */
    ghost predicate Valid() reads this {
      && History()
      && (phase == PRESYNC ==> Presyncing())
      && (phase == REDOWNLOAD ==> Redownloading() && !processAll)
    }

    constructor (env: Env, start: Start, minimumWork: nat, commitOffset: nat, maxCommitments: nat)
      requires commitOffset < HEADER_COMMITMENT_PERIOD && start.work < WORK_MODULUS
      ensures Valid() && phase == PRESYNC && presync == []
      ensures this.env == env && this.start == start && this.minimumWork == minimumWork
      ensures this.commitOffset == commitOffset && this.maxCommitments == maxCommitments
    {
      this.env, this.start, this.minimumWork := env, start, minimumWork;
      this.commitOffset, this.maxCommitments := commitOffset, maxCommitments;
      phase := PRESYNC;
      currentWork, lastHeader, currentHeight := start.work, start.header, start.height;
      commitments, buffer := [], [];
      bufferLastHeight, redownloadWork, processAll := 0, 0, false;
      bufferLastHash, bufferFirstPrev := start.header.prev, start.header.prev;
      presync, accepted, checkedCount, released := [], [], 0, [];
    }

    method Finalize()
      requires History()
      modifies this
      ensures Valid() && phase == FINAL
      ensures buffer == [] && commitments == []
      ensures presync == old(presync) && accepted == old(accepted) && released == old(released)
      ensures checkedCount == old(checkedCount)
    {
      commitments, buffer := [], [];
      processAll := false;
      currentHeight := 0;
      phase := FINAL;
    }

    /** The exact conditions under which PRESYNC takes one more header. */
    ghost predicate PresyncTakes(h: Header) reads this {
      && env.permitted(currentHeight + 1, lastHeader.bits, h.bits)
      && (IsCommitHeight(commitOffset, currentHeight + 1) ==> |commitments| < maxCommitments)
    }

    method ValidateAndProcessSingleHeader(current: Header) returns (ok: bool)
      requires History() && phase == PRESYNC && Presyncing()
      requires current.prev == env.hash(lastHeader)
      modifies this
      ensures ok <==> old(PresyncTakes(current))
      ensures History() && phase == PRESYNC && accepted == released == []
      ensures ok ==> Presyncing() && presync == old(presync) + [current]
      ensures ok ==> currentHeight == old(currentHeight) + 1 && lastHeader == current
      ensures ok ==> |commitments| == |old(commitments)| + if IsCommitHeight(commitOffset, currentHeight) then 1 else 0
      ensures !ok ==> presync == old(presync)
    {
      var nextHeight := currentHeight + 1;
      if !env.permitted(nextHeight, lastHeader.bits, current.bits) {
        return false;
      }
      PresyncExtends(env, start, commitOffset, presync, currentHeight, lastHeader, currentWork, commitments, current);
      if IsCommitHeight(commitOffset, nextHeight) {
        commitments := commitments + [env.bit(env.hash(current))];
        if |commitments| > maxCommitments {
          return false;
        }
      } else {
        assert commitments + [] == commitments;
      }
      currentWork := (currentWork + env.proof(current.bits)) % WORK_MODULUS;
      lastHeader := current;
      currentHeight := nextHeight;
      presync := presync + [current];
      ok := true;
    }

    /** The loop over a batch in PRESYNC. */
    method ProcessBatch(headers: seq<Header>) returns (ok: bool)
      requires History() && phase == PRESYNC && Presyncing()
      requires |headers| > 0 && Continuous(env, headers) && headers[0].prev == env.hash(lastHeader)
      modifies this
      ensures ok <==> PresyncTakesFrom(env, commitOffset, maxCommitments, old(currentHeight), old(lastHeader),
                                       |old(commitments)|, headers, 0)
      ensures History() && accepted == released == [] && phase == PRESYNC
      ensures ok ==> Presyncing() && presync == old(presync) + headers
    {
      ghost var verdict := PresyncTakesFrom(env, commitOffset, maxCommitments, currentHeight, lastHeader, |commitments|,
                                            headers, 0);
      for i := 0 to |headers|
        invariant History() && phase == PRESYNC && Presyncing()
        invariant presync == old(presync) + headers[..i]
        invariant i < |headers| ==> headers[i].prev == env.hash(lastHeader)
        invariant verdict == PresyncTakesFrom(env, commitOffset, maxCommitments, currentHeight, lastHeader,
                                              |commitments|, headers, i)
      {
        assert FollowsAt(env, headers, i);
        ok := ValidateAndProcessSingleHeader(headers[i]);
        if !ok {
          return;
        }
        assert headers[..i + 1] == headers[..i] + [headers[i]];
      }
      assert headers[..|headers|] == headers;
      ok := true;
    }

    method ValidateAndStoreHeadersCommitments(headers: seq<Header>) returns (ok: bool)
      requires History() && phase == PRESYNC && Presyncing()
      requires |headers| > 0 && Continuous(env, headers)
      modifies this
      ensures ok <==> Continues(env, start, commitOffset, maxCommitments, old(presync), headers)
      ensures History() && accepted == released == []
      ensures ok ==> Valid() && presync == old(presync) + headers
      ensures ok ==> phase == if Reaches(env, start, presync, minimumWork) then REDOWNLOAD else PRESYNC
    {
      BatchContinues(env, start, commitOffset, maxCommitments, presync, headers, currentHeight, lastHeader,
                     commitments);
      if headers[0].prev != env.hash(lastHeader) {
        return false;
      }
      ok := ProcessBatch(headers);
      WorkReaches(env, start, presync, minimumWork);
      if ok && currentWork >= minimumWork {
        buffer := [];
        bufferLastHeight := start.height;
        bufferFirstPrev := env.hash(start.header);
        bufferLastHash := env.hash(start.header);
        redownloadWork := start.work;
        phase := REDOWNLOAD;
      }
    }

    /** The commitment check of one redownloaded header; skipped once the work suffices. */
    method CheckCommitment(header: Header, nextHeight: nat) returns (ok: bool)
      requires commitOffset < HEADER_COMMITMENT_PERIOD && nextHeight == start.height + 1 + |accepted|
      requires !processAll ==> Queued(env, commitOffset, start.height, presync, accepted, commitments)
      modifies this`commitments
      ensures ok <==> processAll || Commits(env, start, commitOffset, presync, |accepted|, header)
      ensures ok && !processAll ==> Queued(env, commitOffset, start.height, presync, accepted + [header], commitments)
    {
      ghost var queue := commitments;
      if !processAll && IsCommitHeight(commitOffset, nextHeight) {
        FrontIsPresyncBit(env, commitOffset, start.height, presync, accepted, queue);
        if |commitments| == 0 {
          return false;
        }
        var commitment := env.bit(env.hash(header));
        var expected := commitments[0];
        commitments := commitments[1..];
        if commitment != expected {
          return false;
        }
      }
      if !processAll {
        QueueExtends(env, commitOffset, start.height, presync, accepted, queue, header);
      }
      ok := true;
    }

    /** Tracks the work of one redownloaded header, then checks its commitment. */
    method Admit(header: Header, nextHeight: nat) returns (ok: bool)
      requires commitOffset < HEADER_COMMITMENT_PERIOD && nextHeight == start.height + 1 + |accepted|
      requires !processAll ==> Queued(env, commitOffset, start.height, presync, accepted, commitments)
      modifies this`commitments, this`redownloadWork, this`processAll
      ensures redownloadWork == (old(redownloadWork) + env.proof(header.bits)) % WORK_MODULUS
      ensures processAll == (old(processAll) || redownloadWork >= minimumWork)
      ensures ok <==> processAll || Commits(env, start, commitOffset, presync, |accepted|, header)
      ensures ok && !processAll ==> Queued(env, commitOffset, start.height, presync, accepted + [header], commitments)
    {
      redownloadWork := (redownloadWork + env.proof(header.bits)) % WORK_MODULUS;
      if redownloadWork >= minimumWork {
        processAll := true;
      }
      ok := CheckCommitment(header, nextHeight);
    }

    /** Stores a header that passed every check. */
    method Store(header: Header, nextHeight: nat)
      modifies this`buffer, this`bufferLastHeight, this`bufferLastHash, this`accepted, this`checkedCount
      ensures buffer == old(buffer) + [Compress(header)]
      ensures bufferLastHeight == nextHeight && bufferLastHash == env.hash(header)
      ensures accepted == old(accepted) + [header]
      ensures checkedCount == if processAll then old(checkedCount) else |old(accepted)| + 1
    {
      buffer := buffer + [Compress(header)];
      bufferLastHeight := nextHeight;
      bufferLastHash := env.hash(header);
      checkedCount := if processAll then checkedCount else |accepted| + 1;
      accepted := accepted + [header];
    }

    /** The header extends the redownloaded chain, by the cached hash and difficulty of its tip. */
    method Connects(header: Header) returns (ok: bool)
      requires Redownloading()
      ensures ok <==> ConnectsTo(env, start, accepted, header)
    {
      if header.prev != bufferLastHash {
        return false;
      }
      var previousBits := if buffer != [] then buffer[|buffer| - 1].bits else start.header.bits;
      ok := env.permitted(bufferLastHeight + 1, previousBits, header.bits);
    }

    method AcceptConnected(header: Header) returns (ok: bool)
      requires History() && phase == REDOWNLOAD && Redownloading() && ConnectsTo(env, start, accepted, header)
      modifies this
      ensures processAll == (old(processAll) || Work(env, start, old(accepted) + [header]) >= minimumWork)
      ensures ok <==> processAll || Commits(env, start, commitOffset, presync, |old(accepted)|, header)
      ensures History() && phase == REDOWNLOAD && presync == old(presync) && released == old(released)
      ensures ok ==> Redownloading() && accepted == old(accepted) + [header]
      ensures checkedCount >= old(checkedCount)
    {
      ghost var work, wasAll, queue := redownloadWork, processAll, commitments;
      WorkExtends(env, start, accepted, header);
      ghost var reached := Work(env, start, accepted + [header]);
      assert reached == (work + env.proof(header.bits)) % WORK_MODULUS;
      var nextHeight := bufferLastHeight + 1;
      ok := Admit(header, nextHeight);
      assert processAll == (wasAll || reached >= minimumWork);
      if ok {
        RedownloadExtends(env, start, commitOffset, presync, accepted, checkedCount, released, buffer, bufferFirstPrev,
                          bufferLastHash, bufferLastHeight, work, wasAll, queue, header, processAll, commitments);
        Store(header, nextHeight);
      }
    }

    method ValidateAndStoreRedownloadedHeader(header: Header) returns (ok: bool)
      requires History() && phase == REDOWNLOAD && Redownloading()
      modifies this
      ensures ok <==> RedownloadTakes(env, start, commitOffset, minimumWork, presync, old(accepted), old(processAll),
                                      header)
      ensures History() && phase == REDOWNLOAD && presync == old(presync) && released == old(released)
      ensures ok ==> Redownloading() && accepted == old(accepted) + [header]
      ensures ok ==> processAll == (old(processAll) || Work(env, start, accepted) >= minimumWork)
      ensures checkedCount >= old(checkedCount)
    {
      ok := Connects(header);
      if ok {
        ok := AcceptConnected(header);
      }
    }

    /** The loop over a batch in REDOWNLOAD. */
    method StoreBatch(headers: seq<Header>) returns (ok: bool)
      requires Valid() && phase == REDOWNLOAD
      modifies this
      ensures History() && phase == REDOWNLOAD && released == old(released) && presync == old(presync)
      ensures var r := RedownloadFrom(env, start, commitOffset, minimumWork, presync, old(accepted), false, headers, 0);
              if ok then Redownloading() && r == Some((accepted, processAll)) else r == None
      ensures checkedCount >= |old(accepted)|
    {
      for i := 0 to |headers|
        invariant History() && phase == REDOWNLOAD && Redownloading() && released == old(released)
                  && presync == old(presync)
        invariant checkedCount >= |old(accepted)|
        invariant RedownloadFrom(env, start, commitOffset, minimumWork, presync, old(accepted), false, headers, 0)
               == RedownloadFrom(env, start, commitOffset, minimumWork, presync, accepted, processAll, headers, i)
      {
        ok := ValidateAndStoreRedownloadedHeader(headers[i]);
        if !ok {
          return;
        }
      }
      ok := true;
    }

    /** Rebuilds the first header of the buffer and hands it over. */
    method PopFront() returns (h: Header)
      requires buffer != [] && Chained(env, start, accepted) && released <= accepted
      requires BufferOf(env, start, accepted, |released|, buffer, bufferFirstPrev, bufferLastHash, redownloadWork)
      modifies this`buffer, this`bufferFirstPrev, this`released
      ensures released == old(released) + [h] && released <= accepted && |buffer| == |old(buffer)| - 1
      ensures BufferOf(env, start, accepted, |released|, buffer, bufferFirstPrev, bufferLastHash, redownloadWork)
    {
      BufferPops(env, start, accepted, |released|, buffer, bufferFirstPrev, bufferLastHash, redownloadWork);
      h := buffer[0].GetFullHeader(bufferFirstPrev);
      buffer := buffer[1..];
      bufferFirstPrev := env.hash(h);
      released := released + [h];
    }

    /** Releases everything once the work suffices, and otherwise all but the last REDOWNLOAD_BUFFER_SIZE headers. */
    method PopHeadersReadyForAcceptance() returns (ret: seq<Header>)
      requires History() && phase == REDOWNLOAD && Redownloading()
      modifies this`buffer, this`bufferFirstPrev, this`released
      ensures History() && released == old(released) + ret
      ensures |released| == if processAll then |accepted| else OutAfter(|accepted|, |old(released)|)
      ensures if processAll then buffer == [] else Redownloading()
    {
      ret := [];
      while |buffer| > REDOWNLOAD_BUFFER_SIZE || (|buffer| > 0 && processAll)
        invariant Chained(env, start, accepted) && released <= accepted && released == old(released) + ret
        invariant BufferOf(env, start, accepted, |released|, buffer, bufferFirstPrev, bufferLastHash, redownloadWork)
        invariant !processAll ==> released == old(released) || |buffer| >= REDOWNLOAD_BUFFER_SIZE
        decreases |buffer|
      {
        var h := PopFront();
        ret := ret + [h];
      }
    }

    lemma RedownloadLaws(presync: seq<Header>, accepted: seq<Header>, headers: seq<Header>)
      ensures var taken := RedownloadFrom(env, start, commitOffset, minimumWork, presync, accepted, false, headers, 0);
        && (start.work < WORK_MODULUS && taken.Some? ==>
              (taken.value.1 <==> ReachesWith(env, start, accepted, headers, 0, minimumWork)))
        && (Chained(env, start, presync) && accepted + headers <= presync ==> taken.Some?)
    {
      if start.work < WORK_MODULUS {
        ReachedByWork(env, start, commitOffset, minimumWork, presync, accepted, false, headers, 0);
      }
      if Chained(env, start, presync) && accepted + headers <= presync {
        assert headers[0..] == headers;
        SameChainIsTaken(env, start, commitOffset, minimumWork, presync, accepted, false, headers, 0);
      }
    }

    /**
     * What REDOWNLOAD makes of a batch after the headers `accepted`: whether it reaches the work, or
     * None if it fails. Sending the first chain again does not fail.
     */
    ghost function Redownloads(presync: seq<Header>, accepted: seq<Header>,
                               headers: seq<Header>): (reached: Option<bool>)
      ensures var taken := RedownloadFrom(env, start, commitOffset, minimumWork, presync, accepted, false, headers, 0);
              if reached.None? then taken.None? else taken == Some((accepted + headers, reached.value))
      ensures start.work < WORK_MODULUS && reached.Some? ==>
                (reached.value <==> ReachesWith(env, start, accepted, headers, 0, minimumWork))
      ensures Chained(env, start, presync) && accepted + headers <= presync ==> reached.Some?
    {
      var taken := RedownloadFrom(env, start, commitOffset, minimumWork, presync, accepted, false, headers, 0);
      TakenAreAppended(env, start, commitOffset, minimumWork, presync, accepted, false, headers, 0);
      RedownloadLaws(presync, accepted, headers);
      if taken.None? then None else Some(taken.value.1)
    }

    method ProcessPresync(headers: seq<Header>, full: bool) returns (r: ProcessingResult)
      requires Valid() && phase == PRESYNC && headers != [] && Continuous(env, headers)
      modifies this
      ensures Valid() && r.powValidated == released == []
      ensures r.success <==> Continues(env, start, commitOffset, maxCommitments, old(presync), headers)
      ensures r.success ==> presync == old(presync) + headers
      ensures r.success ==> (r.requestMore <==> full || Reaches(env, start, presync, minimumWork))
      ensures phase == if r.success && Reaches(env, start, presync, minimumWork) then REDOWNLOAD
                       else if r.success && full then PRESYNC else FINAL
    {
      var success := ValidateAndStoreHeadersCommitments(headers);
      var requestMore := success && (full || phase == REDOWNLOAD);
      r := ProcessingResult([], success, requestMore);
      if !(success && requestMore) {
        Finalize();
      }
    }

    /**
     * Unless the work is reached, everything released so far lies below 23 checked commitments: also
     * when the peer's last message is not full, and when a header is refused.
     */
    method ProcessRedownload(headers: seq<Header>, full: bool) returns (r: ProcessingResult)
      requires Valid() && phase == REDOWNLOAD
      modifies this
      ensures Valid() && presync == old(presync) && released == old(released) + r.powValidated
      ensures var reached := Redownloads(presync, old(accepted), headers);
        && r.success == reached.Some?
        && (r.requestMore <==> reached == Some(false) && full)
        && phase == (if r.requestMore then REDOWNLOAD else FINAL)
        && (r.success ==> accepted == old(accepted) + headers)
        && (reached == None ==> r.powValidated == [])
        && (reached == Some(true) ==> released == accepted)
        && (reached == Some(false) ==> |released| == OutAfter(|accepted|, |old(released)|))
        && (reached != Some(true) ==> AllCovered(commitOffset, start.height, checkedCount, |released|))
    {
      ghost var seen, gone := |accepted|, |released|;
      var success := StoreBatch(headers);
      var requestMore, ret := false, [];
      if success {
        ret := PopHeadersReadyForAcceptance();
        if !(buffer == [] && processAll) && full {
          requestMore := true;
        }
        if !processAll {
          BehindTheBuffer(commitOffset, start.height, |released|, |accepted|, checkedCount);
        }
      } else {
        BehindTheBuffer(commitOffset, start.height, gone, seen, checkedCount);
      }
      r := ProcessingResult(ret, success, requestMore);
      if !(success && requestMore) {
        Finalize();
      }
    }

    /** An empty batch, or one that comes after the end, is answered without effect. */
    method ProcessNextHeaders(headers: seq<Header>, full: bool) returns (r: ProcessingResult)
      requires Valid() && Continuous(env, headers)
      modifies this
      ensures Valid() && released == old(released) + r.powValidated
      ensures headers == [] || old(phase) == FINAL ==>
                r == ProcessingResult([], false, false) && phase == old(phase) && presync == old(presync)
                  && accepted == old(accepted)
      ensures headers != [] ==> (phase == FINAL <==> !(r.success && r.requestMore))
      ensures headers != [] && old(phase) == PRESYNC ==>
        && r.powValidated == []
        && (r.success <==> Continues(env, start, commitOffset, maxCommitments, old(presync), headers))
        && (r.success ==> presync == old(presync) + headers)
        && (r.success ==> (r.requestMore <==> full || Reaches(env, start, presync, minimumWork)))
        && (phase == REDOWNLOAD <==> r.success && Reaches(env, start, presync, minimumWork))
      ensures headers != [] && old(phase) == REDOWNLOAD ==>
        var reached := Redownloads(presync, old(accepted), headers);
        && presync == old(presync)
        && r.success == reached.Some?
        && (r.requestMore <==> reached == Some(false) && full)
        && (r.success ==> accepted == old(accepted) + headers)
        && (reached == None ==> r.powValidated == [])
        && (reached == Some(true) ==> released == accepted)
        && (reached == Some(false) ==> |released| == OutAfter(|accepted|, |old(released)|))
        && (reached != Some(true) ==> AllCovered(commitOffset, start.height, checkedCount, |released|))
    {
      r := ProcessingResult([], false, false);
      if headers == [] || phase == FINAL {
        return;
      }
      if phase == PRESYNC {
        r := ProcessPresync(headers, full);
      } else {
        r := ProcessRedownload(headers, full);
      }
    }

    /** Released headers followed by the rebuilt buffer are exactly the headers accepted so far. */
    lemma NothingLost()
      requires Valid() && phase == REDOWNLOAD
      ensures released + Decompress(env, buffer, bufferFirstPrev) == accepted
    {
      DecompressUndoesCompress(env, start, accepted, |released|, buffer);
    }

    /** Between two calls of REDOWNLOAD, every header released so far lies below 23 checked commitments. */
    lemma ReleasedAreCovered(k: nat)
      requires Valid() && phase == REDOWNLOAD && k < |released|
      ensures checkedCount == |accepted| && Covered(commitOffset, start.height, checkedCount, k)
    {
      BehindTheBuffer(commitOffset, start.height, |released|, |accepted|, checkedCount);
    }
  }
}
