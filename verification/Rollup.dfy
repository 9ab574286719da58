/**
The UFOs rollup store as a value: live counts and the account-deletion queue
waiting behind a rollup cursor, and the counters and rank indexes they feed.
*/
module Rollup {
  import opened Accounts
  import opened Options
  import opened CountValues
  import opened Buckets
  import Lex

  /** One live-counts entry; the partition holds them in key order. */
  datatype Entry = Entry(cursor: nat, nsid: Nsid, counts: Counts)
  datatype Key = Key(bucket: Bucket, nsid: Nsid)
  datatype RankKey = RankKey(bucket: Bucket, rank: nat, nsid: Nsid)

  /** Counters and their two rank indexes, with the number of times each rank key was ever inserted. */
  datatype Tables = Tables(
    counters: map<Key, Counts>,
    recordRanks: set<RankKey>, didRanks: set<RankKey>,
    recordLog: multiset<RankKey>, didLog: multiset<RankKey>)

  datatype Store = Store(live: seq<Entry>, queue: seq<Removal>, rollupCursor: nat, jsCursor: nat, tables: Tables)

  const MAX_ROLLUP: nat := 256
  const EMPTY_TABLES := Tables(map[], {}, {}, multiset{}, multiset{})
  const EMPTY_STORE := Store([], [], 0, 0, EMPTY_TABLES)

  predicate Before(a: Entry, b: Entry) {
    a.cursor < b.cursor || (a.cursor == b.cursor && Lex.Less(a.nsid, b.nsid))
  }

  function CounterAt(t: Tables, k: Key): Counts {
    if k in t.counters then t.counters[k] else ZERO
  }

  /* ---- totals over entries ---- */

  predicate Feeds(e: Entry, k: Key) {
    e.nsid == k.nsid && InBucket(e.cursor, k.bucket)
  }

  function TotalOf(entries: seq<Entry>, k: Key): Counts {
    if entries == [] then ZERO
    else
      var e := entries[|entries| - 1];
      var init := TotalOf(entries[..|entries| - 1], k);
      if Feeds(e, k) then Merge(init, e.counts) else init
  }

  function KeysFor(e: Entry): set<Key> {
    {Key(Hour(HourOf(e.cursor)), e.nsid), Key(Week(WeekOf(e.cursor)), e.nsid), Key(AllTime, e.nsid)}
  }

  function Touched(entries: seq<Entry>): set<Key> {
    if entries == [] then {} else Touched(entries[..|entries| - 1]) + KeysFor(entries[|entries| - 1])
  }

  /** The in-memory buffer of `rollup_live_counts`: one total per touched counter. */
  function Totals(entries: seq<Entry>): map<Key, Counts> {
    map k | k in Touched(entries) :: TotalOf(entries, k)
  }

  /* ---- writing one counter and its ranks ---- */

  function Reranked(ranks: set<RankKey>, k: Key, before: nat, after: nat): set<RankKey> {
    if after == before then ranks
    else ranks - {RankKey(k.bucket, before, k.nsid)} + {RankKey(k.bucket, after, k.nsid)}
  }

  function Logged(log: multiset<RankKey>, k: Key, before: nat, after: nat): multiset<RankKey> {
    if after == before then log else log + multiset{RankKey(k.bucket, after, k.nsid)}
  }

  /** Merge `delta` into counter `k`, reading its value from `read`. `est` is the sketch estimate. */
  function RollOne(read: Tables, pend: Tables, k: Key, delta: Counts, est: set<Did> -> nat): Tables {
    var old0 := CounterAt(read, k);
    var new0 := Merge(old0, delta);
    Tables(
      pend.counters[k := new0],
      Reranked(pend.recordRanks, k, old0.creates, new0.creates),
      Reranked(pend.didRanks, k, est(old0.dids), est(new0.dids)),
      Logged(pend.recordLog, k, old0.creates, new0.creates),
      Logged(pend.didLog, k, est(old0.dids), est(new0.dids)))
  }

  /** All touched counters, in the order the hash map yields them. */
  function RollAll(read: Tables, totals: map<Key, Counts>, order: seq<Key>, est: set<Did> -> nat): Tables
    requires forall i :: 0 <= i < |order| ==> order[i] in totals
  {
    if order == [] then read
    else
      var k := order[|order| - 1];
      RollOne(read, RollAll(read, totals, order[..|order| - 1], est), k, totals[k], est)
  }

  ghost predicate Enumerates(order: seq<Key>, keys: set<Key>) {
    && (forall i :: 0 <= i < |order| ==> order[i] in keys)
    && (forall i, j :: 0 <= i < j < |order| ==> order[i] != order[j])
    && (forall k :: k in keys ==> k in order)
  }

  /* ---- one background step ---- */

  /** Position of the first entry at or after the cursor (the start of the range scan). */
  function LiveStart(live: seq<Entry>, cursor: nat): (i: nat)
    ensures i <= |live|
    ensures forall j :: 0 <= j < i ==> live[j].cursor < cursor
    ensures i < |live| ==> live[i].cursor >= cursor
  {
    if live == [] || live[0].cursor >= cursor then 0 else 1 + LiveStart(live[1..], cursor)
  }

  function QueueStart(queue: seq<Removal>, cursor: nat): (i: nat)
    ensures i <= |queue|
    ensures forall j :: 0 <= j < i ==> queue[j].cursor < cursor
    ensures i < |queue| ==> queue[i].cursor >= cursor
  {
    if queue == [] || queue[0].cursor >= cursor then 0 else 1 + QueueStart(queue[1..], cursor)
  }

  /** How many of the scanned entries one step consumes: at most `max`, none beyond `limit`. */
  function TakeCount(entries: seq<Entry>, limit: Option<nat>, max: nat): (n: nat)
    ensures n <= |entries| && n <= max
    ensures forall i :: 0 <= i < n && limit.Some? ==> entries[i].cursor <= limit.value
    ensures n < |entries| && n < max ==> limit.Some? && entries[n].cursor > limit.value
  {
    if entries == [] || max == 0 || (limit.Some? && entries[0].cursor > limit.value) then 0
    else 1 + TakeCount(entries[1..], limit, max - 1)
  }

  /** `rollup_live_counts` on the scan starting at position `start`. */
  function RollLive(s: Store, start: nat, limit: Option<nat>, order: seq<Key>, est: set<Did> -> nat): Store
    requires start <= |s.live|
    requires Enumerates(order, Touched(s.live[start..][..TakeCount(s.live[start..], limit, MAX_ROLLUP)]))
  {
    var n := TakeCount(s.live[start..], limit, MAX_ROLLUP);
    var taken := s.live[start..][..n];
    s.(live := s.live[..start] + s.live[start + n..],
       rollupCursor := if n == 0 then 0 else taken[n - 1].cursor,
       tables := RollAll(s.tables, Totals(taken), order, est))
  }

  function RollRemoval(s: Store, i: nat): Store
    requires i < |s.queue|
  {
    s.(queue := s.queue[..i] + s.queue[i + 1..], rollupCursor := s.queue[i].cursor)
  }

  datatype Move = Live(start: nat, limit: Option<nat>) | Remove(i: nat) | Idle

  /** What `step_rollup` decides to do: live counts strictly before the next account deletion go first. */
  function NextMove(s: Store): Move {
    var i := LiveStart(s.live, s.rollupCursor);
    var j := QueueStart(s.queue, s.rollupCursor);
    if i < |s.live| && j < |s.queue| then
      if s.live[i].cursor < s.queue[j].cursor then Live(i, Some(s.queue[j].cursor)) else Remove(j)
    else if i < |s.live| then Live(i, None)
    else if j < |s.queue| then Remove(j)
    else Idle
  }

  /** The entries the step rolls up. */
  function StepTaken(s: Store): seq<Entry> {
    match NextMove(s)
    case Live(start, limit) => s.live[start..][..TakeCount(s.live[start..], limit, MAX_ROLLUP)]
    case _ => []
  }

  /** The count `step_rollup` returns. */
  function StepCount(s: Store): nat {
    match NextMove(s)
    case Live(_, _) => |StepTaken(s)|
    case Remove(_) => 1
    case Idle => 0
  }

  function StepRollup(s: Store, order: seq<Key>, est: set<Did> -> nat): Store
    requires Enumerates(order, Touched(StepTaken(s)))
  {
    match NextMove(s)
    case Live(start, limit) => RollLive(s, start, limit, order, est)
    case Remove(i) => RollRemoval(s, i)
    case Idle => s
  }

  /* ---- inserting a batch ---- */

  /** The batch's entries in key order, all at its latest cursor, and its removals in arrival order. */
  datatype Batch = Batch(latest: nat, entries: seq<Entry>, removals: seq<Removal>)

  function InsertBatch(s: Store, b: Batch): Store {
    if b.entries == [] && b.removals == [] then s
    else s.(live := s.live + b.entries, queue := s.queue + b.removals, jsCursor := b.latest)
  }

  /** Batches come in strictly increasing cursor order, and a batch's events lie after the previous batch. */
  ghost predicate BatchFollows(s: Store, b: Batch) {
    && s.jsCursor < b.latest
    && (forall i :: 0 <= i < |b.entries| ==> b.entries[i].cursor == b.latest)
    && (forall i, j :: 0 <= i < j < |b.entries| ==> Lex.Less(b.entries[i].nsid, b.entries[j].nsid))
    && (forall i :: 0 <= i < |b.removals| ==> s.jsCursor < b.removals[i].cursor <= b.latest)
    && (forall i, j :: 0 <= i < j < |b.removals| ==> b.removals[i].cursor < b.removals[j].cursor)
  }
}
