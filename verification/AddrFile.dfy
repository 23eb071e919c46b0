/** The address manager's file: what is written, and in which order. */
module AddrFile {
  import opened Basics
  import opened AddrState

  /** What the file holds about an entry. */
  datatype Entry = Entry(addr: Service, services: Services, time: int, source: NetAddr, lastSuccess: int, attempts: int)

  /**
   * The new entries, the tried entries, for each bucket the indexes of its new entries, and the checksum
   * of the address map.
   */
  datatype File = File(news: seq<Entry>, tried: seq<Entry>, buckets: seq<seq<int>>, checksum: nat)

  function ToEntry(x: AddrInfo): Entry {
    Entry(x.addr, x.known.services, x.known.time, x.known.source, x.known.lastSuccess, x.known.attempts)
  }

  function Recalled(e: Entry): Known { Known(e.services, e.time, e.source, 0, 0, e.lastSuccess, e.attempts) }

  /** What remains of what is known about an address: the last attempts are kept in memory only. */
  function OnDisk(k: Known): Known { k.(lastTry := 0, lastCountAttempt := 0) }

  // ----- writing

  /** The order in which the entries are visited: each once. */
  ghost predicate Enumerates(order: seq<Id>, info: map<Id, AddrInfo>) {
    && (forall i :: i in order <==> i in info)
    && (forall j, k :: 0 <= j < k < |order| ==> order[j] != order[k])
  }

  /** The ids that hold slots of the new table, or that are tried, in the order of a list. */
  function Select(info: map<Id, AddrInfo>, order: seq<Id>, tried: bool): seq<Id> {
    if order == [] then []
    else
      var last := |order| - 1;
      Select(info, order[..last], tried) +
      if order[last] in info && Belongs(info[order[last]], tried) then [order[last]] else []
  }

  predicate Belongs(x: AddrInfo, tried: bool) { if tried then x.inTried else x.refCount != 0 }

  function Entries(info: map<Id, AddrInfo>, list: seq<Id>): (entries: seq<Entry>)
    requires forall k :: 0 <= k < |list| ==> list[k] in info
    ensures |entries| == |list| && forall k :: 0 <= k < |list| ==> entries[k] == ToEntry(info[list[k]])
  {
    if list == [] then [] else Entries(info, list[..|list| - 1]) + [ToEntry(info[list[|list| - 1]])]
  }

  function IndexOf(list: seq<Id>, i: Id): (k: nat)
    requires i in list
    ensures k < |list| && list[k] == i
  {
    if list[|list| - 1] == i then |list| - 1 else IndexOf(list[..|list| - 1], i)
  }

  /** The indexes of the entries in the first n positions of a bucket. */
  function BucketUpTo(news: map<Slot, Id>, list: seq<Id>, bucket: nat, n: nat): seq<int> {
    if n == 0 then []
    else
      var slot := Slot(bucket, n - 1);
      BucketUpTo(news, list, bucket, n - 1) +
      if slot in news && news[slot] in list then [IndexOf(list, news[slot])] else []
  }

  function BucketsUpTo(news: map<Slot, Id>, list: seq<Id>, size: nat, n: nat): (r: seq<seq<int>>)
    ensures |r| == n && forall b :: 0 <= b < n ==> r[b] == BucketUpTo(news, list, b, size)
  {
    if n == 0 then [] else BucketsUpTo(news, list, size, n - 1) + [BucketUpTo(news, list, n - 1, size)]
  }

  lemma {:induction false} SelectIs(info: map<Id, AddrInfo>, order: seq<Id>, tried: bool, i: Id)
    ensures i in Select(info, order, tried) <==> i in order && i in info && Belongs(info[i], tried)
  {
    if order != [] {
      var last := |order| - 1;
      SelectIs(info, order[..last], tried, i);
      var tail := if order[last] in info && Belongs(info[order[last]], tried) then [order[last]] else [];
      assert i in Select(info, order, tried) <==> i in Select(info, order[..last], tried) || i in tail;
      assert i in order <==> i in order[..last] || i == order[last];
    }
  }

  lemma {:induction false} SelectDistinct(info: map<Id, AddrInfo>, order: seq<Id>, tried: bool)
    requires Distinct(order)
    ensures Distinct(Select(info, order, tried))
  {
    if order != [] {
      var last := |order| - 1;
      SelectDistinct(info, order[..last], tried);
      SelectIs(info, order[..last], tried, order[last]);
      assert order[last] !in order[..last];
      forall k | 0 <= k < |Select(info, order[..last], tried)|
        ensures Select(info, order[..last], tried)[k] in Select(info, order[..last], tried)
      {
      }
    }
  }

  lemma SelectIn(info: map<Id, AddrInfo>, order: seq<Id>, tried: bool)
    ensures forall k :: 0 <= k < |Select(info, order, tried)| ==> Select(info, order, tried)[k] in info
  {
    forall k | 0 <= k < |Select(info, order, tried)|
      ensures Select(info, order, tried)[k] in info
    {
      SelectIs(info, order, tried, Select(info, order, tried)[k]);
    }
  }

  /** The file that is written when the entries are visited in the given order. */
  function Save(env: Env, s: State, order: seq<Id>, checksum: nat): File {
    var news, tried := Select(s.info, order, false), Select(s.info, order, true);
    SelectIn(s.info, order, false);
    SelectIn(s.info, order, true);
    File(Entries(s.info, news), Entries(s.info, tried), BucketsUpTo(s.news, news, env.bucketSize, env.newBuckets),
         checksum)
  }

  /** The entries of a state, listed once each as new or as tried. */
  ghost predicate Splits(s: State, news: seq<Id>, tried: seq<Id>) {
    && Distinct(news) && Distinct(tried)
    && (forall i :: i in news <==> i in s.info && !s.info[i].inTried)
    && (forall i :: i in tried <==> i in s.info && s.info[i].inTried)
  }

  /** Every entry is written once, as new or as tried. */
  lemma Written(env: Env, s: State, order: seq<Id>)
    requires Between(env, s, {}, {}) && Enumerates(order, s.info)
    ensures Splits(s, Select(s.info, order, false), Select(s.info, order, true))
  {
    SelectDistinct(s.info, order, false);
    SelectDistinct(s.info, order, true);
    forall i
      ensures i in Select(s.info, order, false) <==> i in s.info && !s.info[i].inTried
      ensures i in Select(s.info, order, true) <==> i in s.info && s.info[i].inTried
    {
      SelectIs(s.info, order, false, i);
      SelectIs(s.info, order, true, i);
    }
  }

  // ----- how far the writing loops have come

  lemma SelectNext(info: map<Id, AddrInfo>, order: seq<Id>, tried: bool, k: nat)
    requires k < |order|
    ensures var list := Select(info, order[..k], tried);
            Select(info, order[..k + 1], tried) ==
            if order[k] in info && Belongs(info[order[k]], tried) then list + [order[k]] else list
  {
    assert order[..k + 1][..k] == order[..k];
  }

  lemma {:induction false} SelectShorter(info: map<Id, AddrInfo>, order: seq<Id>, tried: bool, k: nat)
    requires k <= |order|
    ensures |Select(info, order[..k], tried)| <= |Select(info, order, tried)|
    decreases |order| - k
  {
    if k == |order| {
      assert order[..k] == order;
    } else {
      SelectShorter(info, order, tried, k + 1);
      SelectNext(info, order, tried, k);
    }
  }

  /** Ids to indexes, as far as they have been given out. */
  ghost predicate Indexes(unk: map<Id, int>, list: seq<Id>) {
    forall i :: i in list ==> i in unk && unk[i] == IndexOf(list, i)
  }

  lemma IndexesNext(unk: map<Id, int>, list: seq<Id>, i: Id)
    requires Indexes(unk, list) && i !in list
    ensures Indexes(unk[i := |list|], list) && Indexes(unk[i := |list|], list + [i])
  {
    forall j | j in list
      ensures IndexOf(list + [i], j) == IndexOf(list, j)
    {
      assert (list + [i])[..|list|] == list;
    }
    assert (list + [i])[|list|] == i;
  }

  ghost predicate Describes(info: map<Id, AddrInfo>, list: seq<Id>, entries: seq<Entry>) {
    |entries| == |list| && forall k :: 0 <= k < |list| ==> list[k] in info && entries[k] == ToEntry(info[list[k]])
  }

  lemma DescribesIs(info: map<Id, AddrInfo>, list: seq<Id>, entries: seq<Entry>)
    requires Describes(info, list, entries)
    ensures (forall k :: 0 <= k < |list| ==> list[k] in info) && entries == Entries(info, list)
  {
  }

  /** The first k entries of the walk have been looked at. */
  ghost predicate Writing(info: map<Id, AddrInfo>, order: seq<Id>, tried: bool, k: nat,
                          list: seq<Id>, entries: seq<Entry>, unk: map<Id, int>)
    requires k <= |order|
  {
    list == Select(info, order[..k], tried) && Describes(info, list, entries) && Indexes(unk, list)
  }

  /** The next entry: it gets the next index, and is written if it belongs to the table; there is room for it. */
  lemma WritingNext(info: map<Id, AddrInfo>, order: seq<Id>, tried: bool, k: nat,
                    list: seq<Id>, entries: seq<Entry>, unk: map<Id, int>)
    requires Enumerates(order, info) && k < |order| && Writing(info, order, tried, k, list, entries, unk)
    ensures order[k] in info
    ensures var i, unk' := order[k], unk[order[k] := |entries|];
            if Belongs(info[i], tried) then
              && |entries| < |Select(info, order, tried)|
              && Writing(info, order, tried, k + 1, list + [i], entries + [ToEntry(info[i])], unk')
            else Writing(info, order, tried, k + 1, list, entries, unk')
  {
    var i := order[k];
    assert i in order && i !in order[..k];
    SelectIs(info, order[..k], tried, i);
    SelectNext(info, order, tried, k);
    SelectShorter(info, order, tried, k + 1);
    IndexesNext(unk, list, i);
  }
}
