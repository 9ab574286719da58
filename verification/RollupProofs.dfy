/** What every run of the rollup store keeps: conservation, ranks, and the cursor. */
module RollupProofs {
  import opened Accounts
  import opened Options
  import opened CountValues
  import opened Buckets
  import opened Rollup

  /* ---- totals ---- */

  lemma {:induction false} TotalAppend(a: seq<Entry>, b: seq<Entry>, k: Key)
    ensures TotalOf(a + b, k) == Merge(TotalOf(a, k), TotalOf(b, k))
  {
    if b == [] {
      assert a + b == a;
      MergeLaws(TotalOf(a, k), ZERO, ZERO);
    } else {
      var n := |b| - 1;
      assert (a + b)[..|a + b| - 1] == a + b[..n];
      TotalAppend(a, b[..n], k);
      MergeLaws(TotalOf(a, k), TotalOf(b[..n], k), b[n].counts);
    }
  }

  lemma {:induction false} TouchedAppend(a: seq<Entry>, b: seq<Entry>)
    ensures Touched(a + b) == Touched(a) + Touched(b)
  {
    if b == [] {
      assert a + b == a;
    } else {
      var n := |b| - 1;
      assert (a + b)[..|a + b| - 1] == a + b[..n];
      TouchedAppend(a, b[..n]);
    }
  }

  lemma {:induction false} TotalUntouched(entries: seq<Entry>, k: Key)
    requires k !in Touched(entries)
    ensures TotalOf(entries, k) == ZERO
  {
    if entries != [] {
      TotalUntouched(entries[..|entries| - 1], k);
    }
  }

  /* ---- counters after one roll ---- */

  ghost predicate Distinct(order: seq<Key>) {
    forall i, j :: 0 <= i < j < |order| ==> order[i] != order[j]
  }

  ghost function OrderSet(order: seq<Key>): set<Key> {
    set k | k in order
  }

  lemma {:induction false} RollAllCounters(read: Tables, totals: map<Key, Counts>, order: seq<Key>,
                                           est: set<Did> -> nat)
    requires Distinct(order) && forall i :: 0 <= i < |order| ==> order[i] in totals
    ensures var t := RollAll(read, totals, order, est);
            && t.counters.Keys == read.counters.Keys + OrderSet(order)
            && (forall k ::
                  CounterAt(t, k) == if k in order then Merge(CounterAt(read, k), totals[k]) else CounterAt(read, k))
  {
    if order != [] {
      var n := |order| - 1;
      RollAllCounters(read, totals, order[..n], est);
      InOrder(order, n);
      RollOneCounters(read, RollAll(read, totals, order[..n], est), order[n], totals[order[n]], est);
    }
  }

  lemma InOrder(order: seq<Key>, n: nat)
    requires |order| == n + 1 && Distinct(order)
    ensures forall k :: k in order <==> k in order[..n] || k == order[n]
    ensures order[n] !in order[..n] && OrderSet(order) == OrderSet(order[..n]) + {order[n]}
  {
    assert order == order[..n] + [order[n]];
  }

  lemma RollOneCounters(read: Tables, pend: Tables, key: Key, delta: Counts, est: set<Did> -> nat)
    ensures var t := RollOne(read, pend, key, delta, est);
            && t.counters.Keys == pend.counters.Keys + {key}
            && forall k :: CounterAt(t, k) == if k == key then Merge(CounterAt(read, k), delta) else CounterAt(pend, k)
  {
  }

  /* ---- rank indexes ---- */

  function KeyOfRank(rk: RankKey): Key {
    Key(rk.bucket, rk.nsid)
  }

  /** A rank key is present exactly when it holds its counter's current, positive rank. */
  ghost predicate RanksMatch(ranks: set<RankKey>, counters: map<Key, Counts>, val: Counts -> nat) {
    forall rk :: rk in ranks <==>
      KeyOfRank(rk) in counters && rk.rank > 0 && rk.rank == val(counters[KeyOfRank(rk)])
  }

  /** No rank key was inserted twice, and none was inserted above its counter's current rank. */
  ghost predicate LogOk(log: multiset<RankKey>, counters: map<Key, Counts>, val: Counts -> nat) {
    forall rk :: log[rk] <= 1 &&
      (log[rk] > 0 ==> KeyOfRank(rk) in counters && rk.rank <= val(counters[KeyOfRank(rk)]))
  }

  ghost function Creates(): Counts -> nat {
    (c: Counts) => c.creates
  }

  ghost function Estimate(est: set<Did> -> nat): Counts -> nat {
    (c: Counts) => est(c.dids)
  }

  /** An estimate is zero for the empty sketch and never falls when sketches are merged. */
  ghost predicate SketchOk(est: set<Did> -> nat) {
    est({}) == 0 && forall a, b :: est(a) <= est(a + b)
  }

  lemma RerankKeeps(ranks: set<RankKey>, log: multiset<RankKey>, counters: map<Key, Counts>, k: Key, before: Counts,
                    after: Counts, val: Counts -> nat)
    requires RanksMatch(ranks, counters, val) && LogOk(log, counters, val)
    requires val(ZERO) == 0 && before == (if k in counters then counters[k] else ZERO) && val(before) <= val(after)
    ensures RanksMatch(Reranked(ranks, k, val(before), val(after)), counters[k := after], val)
    ensures LogOk(Logged(log, k, val(before), val(after)), counters[k := after], val)
  {
    var ranks', counters' := Reranked(ranks, k, val(before), val(after)), counters[k := after];
    forall rk ensures rk in ranks' <==>
      KeyOfRank(rk) in counters' && rk.rank > 0 && rk.rank == val(counters'[KeyOfRank(rk)])
    {
      if KeyOfRank(rk) == k {
        assert rk == RankKey(k.bucket, rk.rank, k.nsid);
      }
    }
    forall rk ensures Logged(log, k, val(before), val(after))[rk] <= 1 {
      if rk == RankKey(k.bucket, val(after), k.nsid) && val(after) != val(before) {
        assert KeyOfRank(rk) == k;
        assert log[rk] == 0;
      }
    }
  }

  ghost predicate TablesOk(t: Tables, est: set<Did> -> nat) {
    && RanksMatch(t.recordRanks, t.counters, Creates()) && LogOk(t.recordLog, t.counters, Creates())
    && RanksMatch(t.didRanks, t.counters, Estimate(est)) && LogOk(t.didLog, t.counters, Estimate(est))
  }

  lemma RollOneKeeps(read: Tables, pend: Tables, k: Key, delta: Counts, est: set<Did> -> nat)
    requires SketchOk(est) && TablesOk(pend, est) && CounterAt(pend, k) == CounterAt(read, k)
    ensures TablesOk(RollOne(read, pend, k, delta, est), est)
  {
    var before := CounterAt(read, k);
    RerankKeeps(pend.recordRanks, pend.recordLog, pend.counters, k, before, Merge(before, delta), Creates());
    RerankKeeps(pend.didRanks, pend.didLog, pend.counters, k, before, Merge(before, delta), Estimate(est));
  }

  lemma {:induction false} RollAllKeeps(read: Tables, totals: map<Key, Counts>, order: seq<Key>, est: set<Did> -> nat)
    requires SketchOk(est) && TablesOk(read, est)
    requires Distinct(order) && forall i :: 0 <= i < |order| ==> order[i] in totals
    ensures TablesOk(RollAll(read, totals, order, est), est)
  {
    if order != [] {
      var n := |order| - 1;
      RollAllKeeps(read, totals, order[..n], est);
      RollAllCounters(read, totals, order[..n], est);
      assert order[n] !in order[..n];
      RollOneKeeps(read, RollAll(read, totals, order[..n], est), order[n], totals[order[n]], est);
    }
  }

  /* ---- the invariant of every run ---- */

  /** The store with the history of what was ever inserted and what was rolled up, in order. */
  datatype Sys = Sys(store: Store, inserted: seq<Entry>, rolled: seq<Entry>)

  const START := Sys(EMPTY_STORE, [], [])

  /** Pending work is sorted and lies between the rollup cursor and the newest batch. */
  ghost predicate PendingOk(live: seq<Entry>, queue: seq<Removal>, lo: nat, hi: nat) {
    && (forall i, j :: 0 <= i < j < |live| ==> Before(live[i], live[j]))
    && (forall i, j :: 0 <= i < j < |queue| ==> queue[i].cursor < queue[j].cursor)
    && (forall i :: 0 <= i < |live| ==> lo <= live[i].cursor <= hi)
    && (forall i :: 0 <= i < |queue| ==> lo <= queue[i].cursor <= hi)
    && lo <= hi
  }

  ghost predicate CursorsOk(s: Store) {
    PendingOk(s.live, s.queue, s.rollupCursor, s.jsCursor)
  }

  /** Every counter is the total of the entries rolled into it so far. */
  ghost predicate CountersMatch(t: Tables, rolled: seq<Entry>) {
    forall k :: CounterAt(t, k) == TotalOf(rolled, k)
  }

  /** A counter exists exactly when something was rolled into it. */
  ghost predicate KeysMatch(t: Tables, rolled: seq<Entry>) {
    t.counters.Keys == Touched(rolled)
  }

  ghost predicate Below(entries: seq<Entry>, hi: nat) {
    forall i :: 0 <= i < |entries| ==> entries[i].cursor <= hi
  }

  ghost predicate Inv(y: Sys, est: set<Did> -> nat) {
    && CursorsOk(y.store)
    && y.inserted == y.rolled + y.store.live
    && Below(y.inserted, y.store.jsCursor)
    && CountersMatch(y.store.tables, y.rolled)
    && KeysMatch(y.store.tables, y.rolled)
    && TablesOk(y.store.tables, est)
  }

  function Insert(y: Sys, b: Batch): Sys {
    y.(store := InsertBatch(y.store, b), inserted := y.inserted + b.entries)
  }

  function Step(y: Sys, order: seq<Key>, est: set<Did> -> nat): Sys
    requires Enumerates(order, Touched(StepTaken(y.store)))
  {
    y.(store := StepRollup(y.store, order, est), rolled := y.rolled + StepTaken(y.store))
  }

  lemma InsertKeepsInv(y: Sys, b: Batch, est: set<Did> -> nat)
    requires Inv(y, est) && BatchFollows(y.store, b)
    ensures Inv(Insert(y, b), est)
  {
    assert y.rolled + y.store.live + b.entries == y.rolled + (y.store.live + b.entries);
    if b.entries == [] && b.removals == [] {
      assert y.store.live + [] == y.store.live;
    } else {
      AppendedOk(y.store, b);
    }
  }

  lemma AppendedOk(s: Store, b: Batch)
    requires CursorsOk(s) && BatchFollows(s, b)
    ensures PendingOk(s.live + b.entries, s.queue + b.removals, s.rollupCursor, b.latest)
  {
    var live, queue := s.live + b.entries, s.queue + b.removals;
    forall i, j | 0 <= i < j < |live| ensures Before(live[i], live[j]) {
      if j >= |s.live| && i < |s.live| {
        assert s.live[i].cursor <= s.jsCursor;
      }
    }
  }

  /** Nothing pending lies before the cursor, so both scans start at the front. */
  lemma ScansStartAtFront(s: Store)
    requires CursorsOk(s)
    ensures LiveStart(s.live, s.rollupCursor) == 0 && QueueStart(s.queue, s.rollupCursor) == 0
  {
  }

  /** The only moves left: some live entries from the front, the first removal, or nothing. */
  lemma MoveFromFront(s: Store)
    requires CursorsOk(s)
    ensures match NextMove(s)
            case Live(start, limit) =>
              && start == 0 && s.live != [] && s.live[0..] == s.live
              && limit == (if s.queue == [] then None else Some(s.queue[0].cursor))
              && 0 < TakeCount(s.live, limit, MAX_ROLLUP)
            case Remove(i) => i == 0 && s.queue != [] && (s.live == [] || s.queue[0].cursor <= s.live[0].cursor)
            case Idle => s.live == [] && s.queue == []
  {
    ScansStartAtFront(s);
    assert s.live[0..] == s.live;
  }

  lemma TakeFront(s: Store, n: nat)
    requires CursorsOk(s) && 0 < n <= |s.live| && (s.queue == [] || s.live[n - 1].cursor <= s.queue[0].cursor)
    ensures PendingOk(s.live[n..], s.queue, s.live[n - 1].cursor, s.jsCursor)
  {
    var live := s.live[n..];
    forall i | 0 <= i < |live| ensures s.live[n - 1].cursor <= live[i].cursor {
      assert Before(s.live[n - 1], s.live[n + i]);
    }
  }

  lemma DropFront(s: Store)
    requires CursorsOk(s) && s.queue != [] && (s.live == [] || s.queue[0].cursor <= s.live[0].cursor)
    ensures PendingOk(s.live, s.queue[1..], s.queue[0].cursor, s.jsCursor)
  {
    forall i | 0 <= i < |s.live| ensures s.queue[0].cursor <= s.live[i].cursor {
      assert i > 0 ==> Before(s.live[0], s.live[i]);
    }
  }

  /** Rolling up live entries takes them from the front, and advances the cursor to the last one. */
  lemma LiveShape(s: Store, order: seq<Key>, est: set<Did> -> nat)
    requires CursorsOk(s) && NextMove(s).Live? && Enumerates(order, Touched(StepTaken(s)))
    ensures var s', n := StepRollup(s, order, est), |StepTaken(s)|;
            && 0 < n <= |s.live| && StepTaken(s) == s.live[..n]
            && (s.queue == [] || s.live[n - 1].cursor <= s.queue[0].cursor)
            && s' == s.(live := s.live[n..], rollupCursor := s.live[n - 1].cursor, tables := s'.tables)
  {
    MoveFromFront(s);
    var n := TakeCount(s.live, NextMove(s).limit, MAX_ROLLUP);
    assert StepTaken(s) == s.live[..n];
    FromFront(s.live, n);
  }

  lemma FromFront<T>(s: seq<T>, n: nat)
    requires n <= |s|
    ensures s[..0] + s[0 + n..] == s[n..] && s[0..] == s
  {
  }

  lemma RemoveShape(s: Store, order: seq<Key>, est: set<Did> -> nat)
    requires CursorsOk(s) && NextMove(s).Remove? && Enumerates(order, Touched(StepTaken(s)))
    ensures s.queue != [] && StepRollup(s, order, est) == s.(queue := s.queue[1..], rollupCursor := s.queue[0].cursor)
  {
    MoveFromFront(s);
    FromFront(s.queue, 1);
  }

  /** One step takes work from the front of the two queues, and advances the cursor to what it took last. */
  lemma StepShape(s: Store, order: seq<Key>, est: set<Did> -> nat)
    requires CursorsOk(s) && Enumerates(order, Touched(StepTaken(s)))
    ensures var s' := StepRollup(s, order, est);
            match NextMove(s)
            case Live(start, limit) =>
              var n := |StepTaken(s)|;
              && 0 < n <= |s.live| && StepTaken(s) == s.live[..n]
              && (s.queue == [] || s.live[n - 1].cursor <= s.queue[0].cursor)
              && s' == s.(live := s.live[n..], rollupCursor := s.live[n - 1].cursor, tables := s'.tables)
            case Remove(_) => s.queue != [] && s' == s.(queue := s.queue[1..], rollupCursor := s.queue[0].cursor)
            case Idle => s' == s
  {
    match NextMove(s)
    case Live(start, limit) => LiveShape(s, order, est);
    case Remove(i) => RemoveShape(s, order, est);
    case Idle =>
  }

  lemma StepCursors(s: Store, order: seq<Key>, est: set<Did> -> nat)
    requires CursorsOk(s) && Enumerates(order, Touched(StepTaken(s)))
    ensures CursorsOk(StepRollup(s, order, est))
    ensures s.rollupCursor <= StepRollup(s, order, est).rollupCursor
  {
    MoveFromFront(s);
    StepShape(s, order, est);
    match NextMove(s)
    case Live(start, limit) => TakeFront(s, |StepTaken(s)|);
    case Remove(i) => DropFront(s);
    case Idle =>
  }

  lemma StepKeepsInv(y: Sys, order: seq<Key>, est: set<Did> -> nat)
    requires Inv(y, est) && SketchOk(est) && Enumerates(order, Touched(StepTaken(y.store)))
    ensures Inv(Step(y, order, est), est)
  {
    StepHistory(y, order, est);
    StepCursors(y.store, order, est);
    if NextMove(y.store).Live? {
      StepTables(y, order, est);
    } else {
      assert y.rolled + [] == y.rolled;
    }
  }

  /** What leaves the live entries joins the rolled ones; the newest cursor stays. */
  lemma StepHistory(y: Sys, order: seq<Key>, est: set<Did> -> nat)
    requires CursorsOk(y.store) && Enumerates(order, Touched(StepTaken(y.store)))
    ensures y.rolled + y.store.live == y.rolled + StepTaken(y.store) + StepRollup(y.store, order, est).live
    ensures StepRollup(y.store, order, est).jsCursor == y.store.jsCursor
    ensures NextMove(y.store).Live? || StepRollup(y.store, order, est).tables == y.store.tables
  {
    TakenBound(y.store);
    SplitAt(y.rolled, y.store.live, |StepTaken(y.store)|);
    StepShape(y.store, order, est);
  }

  lemma SplitAt<T>(a: seq<T>, b: seq<T>, n: nat)
    requires n <= |b|
    ensures a + b == a + b[..n] + b[n..]
    ensures n == 0 ==> b[..n] == [] && b[n..] == b
  {
  }

  lemma TakenBound(s: Store)
    ensures |StepTaken(s)| <= |s.live|
  {
  }

  lemma StepTables(y: Sys, order: seq<Key>, est: set<Did> -> nat)
    requires CountersMatch(y.store.tables, y.rolled) && KeysMatch(y.store.tables, y.rolled)
    requires TablesOk(y.store.tables, est) && SketchOk(est)
    requires NextMove(y.store).Live? && Enumerates(order, Touched(StepTaken(y.store)))
    ensures var t := StepRollup(y.store, order, est).tables;
            CountersMatch(t, y.rolled + StepTaken(y.store)) && KeysMatch(t, y.rolled + StepTaken(y.store))
            && TablesOk(t, est)
  {
    RollAllKeeps(y.store.tables, Totals(StepTaken(y.store)), order, est);
    RolledCounters(y.store.tables, y.rolled, StepTaken(y.store), order, est);
    RolledKeys(y.store.tables, y.rolled, StepTaken(y.store), order, est);
  }

  lemma RolledCounters(t: Tables, rolled: seq<Entry>, taken: seq<Entry>, order: seq<Key>, est: set<Did> -> nat)
    requires CountersMatch(t, rolled) && Enumerates(order, Touched(taken))
    ensures CountersMatch(RollAll(t, Totals(taken), order, est), rolled + taken)
  {
    RollAllCounters(t, Totals(taken), order, est);
    var t' := RollAll(t, Totals(taken), order, est);
    forall k ensures CounterAt(t', k) == TotalOf(rolled + taken, k) {
      TotalAppend(rolled, taken, k);
      if k !in Touched(taken) {
        TotalUntouched(taken, k);
        MergeLaws(TotalOf(rolled, k), ZERO, ZERO);
      }
    }
  }

  lemma RolledKeys(t: Tables, rolled: seq<Entry>, taken: seq<Entry>, order: seq<Key>, est: set<Did> -> nat)
    requires KeysMatch(t, rolled) && Enumerates(order, Touched(taken))
    ensures KeysMatch(RollAll(t, Totals(taken), order, est), rolled + taken)
  {
    RollAllCounters(t, Totals(taken), order, est);
    TouchedAppend(rolled, taken);
    assert OrderSet(order) == Touched(taken);
  }

  /* ---- runs ---- */

  datatype Act = DoInsert(b: Batch) | DoStep(order: seq<Key>) | DoReroll

  ghost predicate Can(y: Sys, a: Act) {
    match a
    case DoInsert(b) => BatchFollows(y.store, b)
    case DoStep(order) => Enumerates(order, Touched(StepTaken(y.store)))
    case DoReroll => true
  }

  function Do(y: Sys, a: Act, est: set<Did> -> nat): Sys
    requires a.DoStep? ==> Enumerates(a.order, Touched(StepTaken(y.store)))
  {
    match a
    case DoInsert(b) => Insert(y, b)
    case DoStep(order) => Step(y, order, est)
    case DoReroll => y.(store := y.store.(rollupCursor := 0))
  }

  ghost predicate IsRun(states: seq<Sys>, acts: seq<Act>, est: set<Did> -> nat) {
    && |states| == |acts| + 1
    && states[0] == START
    && forall i :: 0 <= i < |acts| ==> Can(states[i], acts[i]) && states[i + 1] == Do(states[i], acts[i], est)
  }

  /** Every state of every interleaving of inserts, steps and rerolls satisfies the invariant. */
  lemma {:induction false} RunInv(states: seq<Sys>, acts: seq<Act>, est: set<Did> -> nat, i: nat)
    requires IsRun(states, acts, est) && SketchOk(est) && i <= |acts|
    ensures Inv(states[i], est)
  {
    if i > 0 {
      RunInv(states, acts, est, i - 1);
      match acts[i - 1]
      case DoInsert(b) => InsertKeepsInv(states[i - 1], b, est);
      case DoStep(order) => StepKeepsInv(states[i - 1], order, est);
      case DoReroll => RerollKeepsInv(states[i - 1], est);
    }
  }

  lemma RerollKeepsInv(y: Sys, est: set<Did> -> nat)
    requires Inv(y, est)
    ensures Inv(y.(store := y.store.(rollupCursor := 0)), est)
  {
  }

  /* ---- conservation ---- */

  /** All-time counter and unrolled live entries together are everything ever inserted: nothing lost, nothing twice. */
  lemma NothingLost(y: Sys, est: set<Did> -> nat, nsid: Nsid)
    requires Inv(y, est)
    ensures var k := Key(AllTime, nsid);
            Merge(CounterAt(y.store.tables, k), TotalOf(y.store.live, k)) == TotalOf(y.inserted, k)
  {
    var k := Key(AllTime, nsid);
    assert CounterAt(y.store.tables, k) == TotalOf(y.rolled, k);
    assert y.inserted == y.rolled + y.store.live;
    TotalAppend(y.rolled, y.store.live, k);
  }

  /** Totals over an interval of hours. */
  function TotalIn(entries: seq<Entry>, nsid: Nsid, lo: nat, hi: nat): Counts {
    if entries == [] then ZERO
    else
      var e := entries[|entries| - 1];
      var init := TotalIn(entries[..|entries| - 1], nsid, lo, hi);
      if e.nsid == nsid && lo <= HourOf(e.cursor) < hi then Merge(init, e.counts) else init
  }

  lemma {:induction false} TotalInSplits(entries: seq<Entry>, nsid: Nsid, a: nat, b: nat, c: nat)
    requires a <= b <= c
    ensures TotalIn(entries, nsid, a, c) == Merge(TotalIn(entries, nsid, a, b), TotalIn(entries, nsid, b, c))
  {
    if entries == [] {
      MergeLaws(ZERO, ZERO, ZERO);
    } else {
      var init, e := entries[..|entries| - 1], entries[|entries| - 1];
      TotalInSplits(init, nsid, a, b, c);
      var x, y := TotalIn(init, nsid, a, b), TotalIn(init, nsid, b, c);
      MergeLaws(x, y, e.counts);
      MergeLaws(y, e.counts, x);
      MergeLaws(x, e.counts, y);
    }
  }

  lemma {:induction false} TotalOfBucket(entries: seq<Entry>, nsid: Nsid, b: Bucket)
    requires !b.AllTime?
    ensures TotalOf(entries, Key(b, nsid)) == TotalIn(entries, nsid, Start(b), End(b))
  {
    if entries != [] {
      TotalOfBucket(entries[..|entries| - 1], nsid, b);
      InBucketHours(entries[|entries| - 1].cursor, b);
    }
  }

  lemma {:induction false} TotalOfAllTime(entries: seq<Entry>, nsid: Nsid, until: nat)
    requires BelowHour(entries, until)
    ensures TotalOf(entries, Key(AllTime, nsid)) == TotalIn(entries, nsid, 0, until)
  {
    if entries != [] {
      TotalOfAllTime(entries[..|entries| - 1], nsid, until);
    }
  }

  ghost predicate BelowHour(entries: seq<Entry>, until: nat) {
    forall i :: 0 <= i < |entries| ==> HourOf(entries[i].cursor) < until
  }

  lemma {:induction false} TotalInEmpty(entries: seq<Entry>, nsid: Nsid, a: nat)
    ensures TotalIn(entries, nsid, a, a) == ZERO
  {
    if entries != [] {
      TotalInEmpty(entries[..|entries| - 1], nsid, a);
    }
  }

  /** The merge of all hourly counters from hour `since` up to hour `until`. */
  function HoursMerged(t: Tables, nsid: Nsid, since: nat, until: nat): Counts {
    if until <= since then ZERO
    else Merge(HoursMerged(t, nsid, since, until - 1), CounterAt(t, Key(Hour(until - 1), nsid)))
  }

  lemma OneMoreHour(t: Tables, rolled: seq<Entry>, nsid: Nsid, since: nat, last: nat)
    requires CountersMatch(t, rolled) && since <= last
    ensures Merge(TotalIn(rolled, nsid, since, last), CounterAt(t, Key(Hour(last), nsid))) ==
              TotalIn(rolled, nsid, since, last + 1)
  {
    assert CounterAt(t, Key(Hour(last), nsid)) == TotalOf(rolled, Key(Hour(last), nsid));
    TotalOfBucket(rolled, nsid, Hour(last));
    TotalInSplits(rolled, nsid, since, last, last + 1);
  }

  lemma HoursMergedMore(t: Tables, nsid: Nsid, since: nat, until: nat)
    requires since < until
    ensures HoursMerged(t, nsid, since, until) ==
              Merge(HoursMerged(t, nsid, since, until - 1), CounterAt(t, Key(Hour(until - 1), nsid)))
  {
  }

  lemma AddHour(sum: Counts, before: Counts, t: Tables, rolled: seq<Entry>, nsid: Nsid, since: nat, until: nat)
    requires CountersMatch(t, rolled) && since < until
    requires before == TotalIn(rolled, nsid, since, until - 1)
    requires sum == Merge(before, CounterAt(t, Key(Hour(until - 1), nsid)))
    ensures sum == TotalIn(rolled, nsid, since, until)
  {
    OneMoreHour(t, rolled, nsid, since, until - 1);
  }

  lemma {:induction false} HoursMergedTotal(t: Tables, rolled: seq<Entry>, nsid: Nsid, since: nat, until: nat)
    requires CountersMatch(t, rolled) && since <= until
    ensures HoursMerged(t, nsid, since, until) == TotalIn(rolled, nsid, since, until)
  {
    if since == until {
      TotalInEmpty(rolled, nsid, since);
    } else {
      HoursMergedTotal(t, rolled, nsid, since, until - 1);
      HoursMergedMore(t, nsid, since, until);
      AddHour(HoursMerged(t, nsid, since, until), HoursMerged(t, nsid, since, until - 1), t, rolled, nsid, since,
              until);
    }
  }

  /** Each weekly counter is the merge of its 168 hourly counters. */
  lemma WeekIsItsHours(t: Tables, rolled: seq<Entry>, nsid: Nsid, w: nat)
    requires CountersMatch(t, rolled)
    ensures CounterAt(t, Key(Week(w), nsid)) == HoursMerged(t, nsid, 168 * w, 168 * w + 168)
  {
    HoursMergedTotal(t, rolled, nsid, 168 * w, 168 * w + 168);
    TotalOfBucket(rolled, nsid, Week(w));
    assert CounterAt(t, Key(Week(w), nsid)) == TotalOf(rolled, Key(Week(w), nsid));
  }

  /** The all-time counter is the merge of all hourly counters up to any hour past the newest event. */
  lemma AllTimeIsAllHours(t: Tables, rolled: seq<Entry>, nsid: Nsid, until: nat)
    requires CountersMatch(t, rolled) && BelowHour(rolled, until)
    ensures CounterAt(t, Key(AllTime, nsid)) == HoursMerged(t, nsid, 0, until)
  {
    HoursMergedTotal(t, rolled, nsid, 0, until);
    TotalOfAllTime(rolled, nsid, until);
    assert CounterAt(t, Key(AllTime, nsid)) == TotalOf(rolled, Key(AllTime, nsid));
  }

  /** The three levels of counters agree in every reachable state. */
  lemma LevelsAgree(y: Sys, est: set<Did> -> nat, nsid: Nsid, w: nat, until: nat)
    requires Inv(y, est) && HourOf(y.store.jsCursor) < until
    ensures CounterAt(y.store.tables, Key(Week(w), nsid)) == HoursMerged(y.store.tables, nsid, 168 * w, 168 * w + 168)
    ensures CounterAt(y.store.tables, Key(AllTime, nsid)) == HoursMerged(y.store.tables, nsid, 0, until)
  {
    WeekIsItsHours(y.store.tables, y.rolled, nsid, w);
    forall i | 0 <= i < |y.rolled| ensures HourOf(y.rolled[i].cursor) < until {
      assert y.rolled[i] == y.inserted[i];
    }
    AllTimeIsAllHours(y.store.tables, y.rolled, nsid, until);
  }

  /* ---- progress ---- */

  function Pending(s: Store): nat {
    |s.live| + |s.queue|
  }

  /** A step reports 0 exactly when nothing is pending, else removes what it reports; the cursor only advances. */
  lemma StepProgress(y: Sys, order: seq<Key>, est: set<Did> -> nat)
    requires Inv(y, est) && Enumerates(order, Touched(StepTaken(y.store)))
    ensures StepCount(y.store) == 0 <==> Pending(y.store) == 0
    ensures Pending(Step(y, order, est).store) == Pending(y.store) - StepCount(y.store)
    ensures y.store.rollupCursor <= Step(y, order, est).store.rollupCursor
  {
    StoreProgress(y.store, order, est);
    StepCursors(y.store, order, est);
  }

  lemma StoreProgress(s: Store, order: seq<Key>, est: set<Did> -> nat)
    requires CursorsOk(s) && Enumerates(order, Touched(StepTaken(s)))
    ensures StepCount(s) == 0 <==> Pending(s) == 0
    ensures Pending(StepRollup(s, order, est)) == Pending(s) - StepCount(s)
  {
    MoveFromFront(s);
    StepShape(s, order, est);
  }

  /** A run of steps alone, each with its own hash-map order. */
  ghost predicate IsDraining(states: seq<Sys>, orders: seq<seq<Key>>, est: set<Did> -> nat) {
    && |states| == |orders| + 1
    && forall i :: 0 <= i < |orders| ==>
        Enumerates(orders[i], Touched(StepTaken(states[i].store))) && states[i + 1] == Step(states[i], orders[i], est)
  }

  lemma {:induction false} DrainedBy(states: seq<Sys>, orders: seq<seq<Key>>, est: set<Did> -> nat, i: nat)
    requires IsDraining(states, orders, est) && SketchOk(est) && Inv(states[0], est) && i <= |orders|
    ensures Inv(states[i], est) && states[i].inserted == states[0].inserted
    ensures Pending(states[i].store) + i <= Pending(states[0].store) || Pending(states[i].store) == 0
  {
    if i > 0 {
      DrainedBy(states, orders, est, i - 1);
      StepProgress(states[i - 1], orders[i - 1], est);
      StepKeepsInv(states[i - 1], orders[i - 1], est);
    }
  }

  /** As many steps as there is pending work drain it, and then every all-time counter is the total of all inserts. */
  lemma StepsDrain(states: seq<Sys>, orders: seq<seq<Key>>, est: set<Did> -> nat, nsid: Nsid)
    requires IsDraining(states, orders, est) && SketchOk(est) && Inv(states[0], est)
    requires |orders| >= Pending(states[0].store)
    ensures Pending(states[|orders|].store) == 0
    ensures CounterAt(states[|orders|].store.tables, Key(AllTime, nsid)) ==
              TotalOf(states[0].inserted, Key(AllTime, nsid))
  {
    DrainedBy(states, orders, est, |orders|);
    NothingLeft(states[|orders|], est, nsid);
  }

  lemma NothingLeft(y: Sys, est: set<Did> -> nat, nsid: Nsid)
    requires Inv(y, est) && y.store.live == []
    ensures CounterAt(y.store.tables, Key(AllTime, nsid)) == TotalOf(y.inserted, Key(AllTime, nsid))
  {
    assert y.rolled + [] == y.rolled;
    assert CounterAt(y.store.tables, Key(AllTime, nsid)) == TotalOf(y.rolled, Key(AllTime, nsid));
  }

  /** Each rank key that a step inserts is inserted for the first time, which is what a weak removal needs. */
  lemma RankKeysInsertedOnce(y: Sys, est: set<Did> -> nat, rk: RankKey)
    requires Inv(y, est)
    ensures y.store.tables.recordLog[rk] <= 1 && y.store.tables.didLog[rk] <= 1
    ensures rk in y.store.tables.recordRanks <==>
            rk.rank > 0 && rk.rank == CounterAt(y.store.tables, KeyOfRank(rk)).creates
    ensures est({}) == 0 ==> (rk in y.store.tables.didRanks <==>
            rk.rank > 0 && rk.rank == est(CounterAt(y.store.tables, KeyOfRank(rk)).dids))
  {
    var t := y.store.tables;
    assert Creates()(CounterAt(t, KeyOfRank(rk))) == CounterAt(t, KeyOfRank(rk)).creates;
    assert Estimate(est)(CounterAt(t, KeyOfRank(rk))) == est(CounterAt(t, KeyOfRank(rk)).dids);
  }
}
