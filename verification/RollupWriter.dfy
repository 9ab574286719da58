/** The writer of the rollup store: batched inserts and background rollup steps, updated in place. */
module RollupWriter {
  import opened Accounts
  import opened Options
  import opened CountValues
  import opened Buckets
  import opened Rollup
  import opened RollupProofs
  import Lex
  import FeedTrim
  import FeedStore

  /* ---- the in-memory buffer ---- */

  function AddTo(m: map<Key, Counts>, k: Key, v: Counts): map<Key, Counts> {
    m[k := Merge(if k in m then m[k] else ZERO, v)]
  }

  function AddEntry(m: map<Key, Counts>, e: Entry): map<Key, Counts> {
    AddTo(AddTo(AddTo(m, Key(Hour(HourOf(e.cursor)), e.nsid), e.counts),
                Key(Week(WeekOf(e.cursor)), e.nsid), e.counts),
          Key(AllTime, e.nsid), e.counts)
  }

  lemma TotalsMore(entries: seq<Entry>, n: nat)
    requires n < |entries|
    ensures Totals(entries[..n + 1]) == AddEntry(Totals(entries[..n]), entries[n])
  {
    var more, e := entries[..n + 1], entries[n];
    assert more[..n] == entries[..n];
    var a, b := Totals(more), AddEntry(Totals(entries[..n]), e);
    assert Touched(more) == Touched(entries[..n]) + KeysFor(e);
    assert a.Keys == b.Keys;
    forall k | k in a ensures a[k] == b[k] {
      if k !in Touched(entries[..n]) {
        TotalUntouched(entries[..n], k);
      }
    }
  }

  /** The collections an entry list touches. */
  function DirtyOf(entries: seq<Entry>): set<Nsid> {
    set i | 0 <= i < |entries| :: entries[i].nsid
  }

  lemma DirtyMore(entries: seq<Entry>, n: nat)
    requires n < |entries|
    ensures DirtyOf(entries[..n + 1]) == DirtyOf(entries[..n]) + {entries[n].nsid}
  {
    assert entries[..n + 1] == entries[..n] + [entries[n]];
  }

  lemma TakeMore(entries: seq<Entry>, n: nat, limit: Option<nat>)
    requires n < |entries| && n < MAX_ROLLUP && (limit.Some? ==> entries[n].cursor <= limit.value)
    ensures TakeCount(entries[n..], limit, MAX_ROLLUP - n) ==
              1 + TakeCount(entries[n + 1..], limit, MAX_ROLLUP - (n + 1))
  {
    assert entries[n..][1..] == entries[n + 1..];
  }

  lemma TotalsKeys(taken: seq<Entry>, order: seq<Key>)
    requires Enumerates(order, Totals(taken).Keys)
    ensures Enumerates(order, Touched(taken))
  {
    assert Totals(taken).Keys == Touched(taken);
  }

  /** What the commit of one rollup batch makes of the store. */
  lemma Committed(s: Store, start: nat, limit: Option<nat>, order: seq<Key>, est: set<Did> -> nat, tables: Tables,
                  lastCursor: nat)
    requires start <= |s.live|
    requires var n := TakeCount(s.live[start..], limit, MAX_ROLLUP); var taken := s.live[start..][..n];
             && Enumerates(order, Totals(taken).Keys)
             && tables == RollAll(s.tables, Totals(taken), order, est)
             && lastCursor == if n == 0 then 0 else taken[n - 1].cursor
    ensures var n := TakeCount(s.live[start..], limit, MAX_ROLLUP);
            && Enumerates(order, Touched(s.live[start..][..n]))
            && RollLive(s, start, limit, order, est) ==
              s.(live := s.live[..start] + s.live[start + n..], rollupCursor := lastCursor, tables := tables)
  {
    TotalsKeys(s.live[start..][..TakeCount(s.live[start..], limit, MAX_ROLLUP)], order);
  }

  /* ---- ordered insertion ---- */

  /** Entries of one batch: one cursor, distinct collections in order. */
  ghost predicate BatchEntries(entries: seq<Entry>, latest: nat) {
    && (forall i :: 0 <= i < |entries| ==> entries[i].cursor == latest)
    && (forall i, j :: 0 <= i < j < |entries| ==> Lex.Less(entries[i].nsid, entries[j].nsid))
  }

  ghost predicate HoldsExactly(entries: seq<Entry>, latest: nat, commits: map<Nsid, Counts>) {
    && (forall i :: 0 <= i < |entries| ==>
          entries[i].nsid in commits && entries[i] == Entry(latest, entries[i].nsid, commits[entries[i].nsid]))
    && (forall n :: n in commits ==> Entry(latest, n, commits[n]) in entries)
  }

  /** Where a new key belongs in the sorted entries. */
  method Position(entries: seq<Entry>, nsid: Nsid) returns (p: nat)
    requires forall i, j :: 0 <= i < j < |entries| ==> Lex.Less(entries[i].nsid, entries[j].nsid)
    requires forall i :: 0 <= i < |entries| ==> entries[i].nsid != nsid
    ensures p <= |entries|
    ensures forall i :: 0 <= i < p ==> Lex.Less(entries[i].nsid, nsid)
    ensures forall i :: p <= i < |entries| ==> Lex.Less(nsid, entries[i].nsid)
  {
    p := |entries|;
    while p > 0 && !Lex.Less(entries[p - 1].nsid, nsid)
      invariant 0 <= p <= |entries|
      invariant forall i :: p <= i < |entries| ==> Lex.Less(nsid, entries[i].nsid)
    {
      Lex.Total(entries[p - 1].nsid, nsid);
      p := p - 1;
    }
    forall i | 0 <= i < p ensures Lex.Less(entries[i].nsid, nsid) {
      if i < p - 1 {
        Lex.Transitive(entries[i].nsid, entries[p - 1].nsid, nsid);
      }
    }
  }

  /** `commits` is visited in whatever order the hash map yields it; the partition keeps its keys sorted. */
  method SortEntries(latest: nat, commits: map<Nsid, Counts>) returns (sorted: seq<Entry>)
    ensures BatchEntries(sorted, latest) && HoldsExactly(sorted, latest, commits)
    ensures |commits| > 0 ==> sorted != []
  {
    var rest := commits.Keys;
    sorted := [];
    while rest != {}
      invariant rest <= commits.Keys && SortedSoFar(sorted, latest, commits, rest)
      decreases rest
    {
      var nsid :| nsid in rest;
      var p := Position(sorted, nsid);
      InsertSorted(sorted, latest, commits, rest, nsid, p);
      sorted := Insert(sorted, p, Entry(latest, nsid, commits[nsid]));
      rest := rest - {nsid};
    }
    if |commits| > 0 {
      var n :| n in commits;
      assert Entry(latest, n, commits[n]) in sorted;
    }
  }

  function Insert(s: seq<Entry>, p: nat, e: Entry): (r: seq<Entry>)
    requires p <= |s|
    ensures |r| == |s| + 1 && r[p] == e
    ensures forall i :: 0 <= i < p ==> r[i] == s[i]
    ensures forall i :: p < i < |r| ==> r[i] == s[i - 1]
    ensures forall x :: x in s ==> x in r
  {
    assert s == s[..p] + s[p..];
    s[..p] + [e] + s[p..]
  }

  /** What a step leaves of one collection's records. */
  function RecordsAfter(s: Store, records: map<FeedTrim.Loc, FeedTrim.Meta>): map<FeedTrim.Loc, FeedTrim.Meta> {
    var move := NextMove(s);
    if move.Remove? then FeedTrim.WithoutDid(records, s.queue[move.i].did) else records
  }

  /** The entries of all collections not in `rest`, in order. */
  ghost predicate SortedSoFar(sorted: seq<Entry>, latest: nat, commits: map<Nsid, Counts>, rest: set<Nsid>) {
    && BatchEntries(sorted, latest)
    && (forall i :: 0 <= i < |sorted| ==>
          sorted[i].nsid in commits && sorted[i].nsid !in rest
          && sorted[i] == Entry(latest, sorted[i].nsid, commits[sorted[i].nsid]))
    && (forall n :: n in commits && n !in rest ==> Entry(latest, n, commits[n]) in sorted)
  }

  lemma InsertSorted(sorted: seq<Entry>, latest: nat, commits: map<Nsid, Counts>, rest: set<Nsid>, nsid: Nsid, p: nat)
    requires SortedSoFar(sorted, latest, commits, rest) && nsid in rest && nsid in commits && p <= |sorted|
    requires forall i :: 0 <= i < p ==> Lex.Less(sorted[i].nsid, nsid)
    requires forall i :: p <= i < |sorted| ==> Lex.Less(nsid, sorted[i].nsid)
    ensures SortedSoFar(Insert(sorted, p, Entry(latest, nsid, commits[nsid])), latest, commits, rest - {nsid})
  {
    InsertInOrder(sorted, latest, Entry(latest, nsid, commits[nsid]), p);
  }

  lemma InsertInOrder(sorted: seq<Entry>, latest: nat, e: Entry, p: nat)
    requires BatchEntries(sorted, latest) && e.cursor == latest && p <= |sorted|
    requires forall i :: 0 <= i < p ==> Lex.Less(sorted[i].nsid, e.nsid)
    requires forall i :: p <= i < |sorted| ==> Lex.Less(e.nsid, sorted[i].nsid)
    ensures BatchEntries(Insert(sorted, p, e), latest)
  {
  }

  class Writer {
    const est: set<Did> -> nat
    var live: seq<Entry>
    var queue: seq<Removal>
    var rollupCursor: nat
    var jsCursor: nat
    var counters: map<Key, Counts>
    var recordRanks: set<RankKey>
    var didRanks: set<RankKey>
    ghost var recordLog: multiset<RankKey>
    ghost var didLog: multiset<RankKey>

    ghost function View(): Store
      reads this
    {
      Store(live, queue, rollupCursor, jsCursor, Tables(counters, recordRanks, didRanks, recordLog, didLog))
    }

    constructor (estimate: set<Did> -> nat)
      ensures View() == EMPTY_STORE && est == estimate
    {
      est := estimate;
      live, queue, rollupCursor, jsCursor := [], [], 0, 0;
      counters, recordRanks, didRanks := map[], {}, {};
      recordLog, didLog := multiset{}, multiset{};
    }

    method InsertBatch(latest: nat, commits: map<Nsid, Counts>, removals: seq<Removal>)
      returns (ghost entries: seq<Entry>)
      modifies this`live, this`queue, this`jsCursor
      ensures BatchEntries(entries, latest) && HoldsExactly(entries, latest, commits)
      ensures View() == Rollup.InsertBatch(old(View()), Batch(latest, entries, removals))
    {
      entries := [];
      if |commits| == 0 && removals == [] {
        return;
      }
      var sorted := SortEntries(latest, commits);
      entries := sorted;
      live := live + sorted;
      queue := queue + removals;
      jsCursor := latest;
    }

    /** Read committed counters, write the merged ones and their ranks to the pending tables. */
    method ApplyTotals(totals: map<Key, Counts>)
      returns (newCounters: map<Key, Counts>, newRecords: set<RankKey>, newDids: set<RankKey>,
               ghost newRecordLog: multiset<RankKey>, ghost newDidLog: multiset<RankKey>, ghost order: seq<Key>)
      ensures Enumerates(order, totals.Keys)
      ensures Tables(newCounters, newRecords, newDids, newRecordLog, newDidLog) ==
                RollAll(View().tables, totals, order, est)
    {
      newCounters, newRecords, newDids, newRecordLog, newDidLog := counters, recordRanks, didRanks, recordLog, didLog;
      order := [];
      var rest := totals.Keys;
      while rest != {}
        invariant rest <= totals.Keys
        invariant Enumerates(order, totals.Keys - rest)
        invariant Tables(newCounters, newRecords, newDids, newRecordLog, newDidLog) ==
                    RollAll(View().tables, totals, order, est)
      {
        var k :| k in rest;
        ghost var before := order;
        order := order + [k];
        assert order[..|order| - 1] == before;
        var rolled := if k in counters then counters[k] else ZERO;
        var beforeCreates, beforeDids := rolled.creates, est(rolled.dids);
        rolled := Merge(rolled, totals[k]);
        var newCreates, newEstimate := rolled.creates, est(rolled.dids);
        if newCreates != beforeCreates {
          newRecords := newRecords - {RankKey(k.bucket, beforeCreates, k.nsid)}
            + {RankKey(k.bucket, newCreates, k.nsid)};
          newRecordLog := newRecordLog + multiset{RankKey(k.bucket, newCreates, k.nsid)};
        }
        if newEstimate != beforeDids {
          newDids := newDids - {RankKey(k.bucket, beforeDids, k.nsid)} + {RankKey(k.bucket, newEstimate, k.nsid)};
          newDidLog := newDidLog + multiset{RankKey(k.bucket, newEstimate, k.nsid)};
        }
        newCounters := newCounters[k := rolled];
        rest := rest - {k};
        forall q | q in totals.Keys - rest ensures q in order {
          if q == k {
            assert order[|order| - 1] == q;
          } else {
            assert q in before;
          }
        }
      }
    }

    /** Sum up the entries of the scan until the limit, an account deletion or the end stops it. */
    method SumTimelies(timelies: seq<Entry>, limit: Option<nat>)
      returns (n: nat, totals: map<Key, Counts>, lastCursor: nat, dirty: set<Nsid>)
      ensures n == TakeCount(timelies, limit, MAX_ROLLUP) && totals == Totals(timelies[..n])
      ensures lastCursor == if n == 0 then 0 else timelies[n - 1].cursor
      ensures dirty == DirtyOf(timelies[..n])
    {
      n, totals, lastCursor, dirty := 0, map[], 0, {};
      assert timelies[0..] == timelies;
      while n < |timelies|
        invariant n <= |timelies| && n <= MAX_ROLLUP
        invariant TakeCount(timelies, limit, MAX_ROLLUP) == n + TakeCount(timelies[n..], limit, MAX_ROLLUP - n)
        invariant totals == Totals(timelies[..n])
        invariant lastCursor == if n == 0 then 0 else timelies[n - 1].cursor
        invariant dirty == DirtyOf(timelies[..n])
      {
        if n >= MAX_ROLLUP {
          return;
        }
        var e := timelies[n];
        if limit.Some? && e.cursor > limit.value {
          return;
        }
        TakeMore(timelies, n, limit);
        DirtyMore(timelies, n);
        TotalsMore(timelies, n);
        dirty := dirty + {e.nsid};
        totals := AddEntry(totals, e);
        n, lastCursor := n + 1, e.cursor;
      }
    }

    method RollupLiveCounts(start: nat, limit: Option<nat>) returns (n: nat, dirty: set<Nsid>, ghost order: seq<Key>)
      requires start <= |live|
      modifies this
      ensures n == TakeCount(old(live)[start..], limit, MAX_ROLLUP)
      ensures Enumerates(order, Touched(old(live)[start..][..n]))
      ensures View() == RollLive(old(View()), start, limit, order, est)
      ensures dirty == DirtyOf(old(live)[start..][..n])
    {
      var totals, lastCursor;
      n, totals, lastCursor, dirty := SumTimelies(live[start..], limit);
      var newCounters, newRecords, newDids;
      ghost var newRecordLog, newDidLog;
      newCounters, newRecords, newDids, newRecordLog, newDidLog, order := ApplyTotals(totals);
      Committed(View(), start, limit, order, est, Tables(newCounters, newRecords, newDids, newRecordLog, newDidLog),
                lastCursor);
      Commit(live[..start] + live[start + n..], lastCursor, newCounters, newRecords, newDids, newRecordLog, newDidLog);
    }

    /** One atomic write of the rolled-up counters, the ranks, the removed live entries and the cursor. */
    method Commit(newLive: seq<Entry>, cursor: nat, newCounters: map<Key, Counts>, newRecords: set<RankKey>,
                  newDids: set<RankKey>, ghost newRecordLog: multiset<RankKey>, ghost newDidLog: multiset<RankKey>)
      modifies this
      ensures View() == old(View()).(live := newLive, rollupCursor := cursor,
                                     tables := Tables(newCounters, newRecords, newDids, newRecordLog, newDidLog))
    {
      live, rollupCursor := newLive, cursor;
      counters, recordRanks, didRanks := newCounters, newRecords, newDids;
      recordLog, didLog := newRecordLog, newDidLog;
    }

    /** Deletes an account's records in every collection. */
    static method DeleteRecords(shelves: set<FeedStore.Writer>, did: Did)
      modifies shelves`records
      ensures forall s :: s in shelves ==> s.records == FeedTrim.WithoutDid(old(s.records), did)
    {
      var todo := shelves;
      while todo != {}
        invariant todo <= shelves
        invariant forall s :: s in todo ==> s.records == old(s.records)
        invariant forall s :: s in shelves - todo ==> s.records == FeedTrim.WithoutDid(old(s.records), did)
      {
        var s :| s in todo;
        var _ := s.DeleteAccount(did);
        todo := todo - {s};
      }
    }

    /** The account's records go first; then the queue entry, and the cursor moves to it. */
    method RollupDeleteAccount(i: nat, shelves: set<FeedStore.Writer>)
      requires i < |queue|
      modifies this`queue, this`rollupCursor, shelves`records
      ensures View() == RollRemoval(old(View()), i)
      ensures forall s :: s in shelves ==> s.records == FeedTrim.WithoutDid(old(s.records), old(queue)[i].did)
    {
      DeleteRecords(shelves, queue[i].did);
      rollupCursor := queue[i].cursor;
      queue := queue[..i] + queue[i + 1..];
    }

    method StepRollup(shelves: set<FeedStore.Writer>) returns (n: nat, dirty: set<Nsid>, ghost order: seq<Key>)
      modifies this, shelves`records
      ensures Enumerates(order, Touched(StepTaken(old(View()))))
      ensures View() == Rollup.StepRollup(old(View()), order, est)
      ensures n == StepCount(old(View())) && dirty == DirtyOf(StepTaken(old(View())))
      ensures forall s :: s in shelves ==> s.records == RecordsAfter(old(View()), old(s.records))
    {
      dirty, order := {}, [];
      ghost var move := NextMove(View());
      var i := LiveStart(live, rollupCursor);
      var j := QueueStart(queue, rollupCursor);
      assert move == if i < |live| && (j == |queue| || live[i].cursor < queue[j].cursor)
        then Live(i, if j < |queue| then Some(queue[j].cursor) else None)
        else if j < |queue| then Remove(j) else Idle;
      if i < |live| && j < |queue| {
        if live[i].cursor < queue[j].cursor {
          n, dirty, order := RollupLiveCounts(i, Some(queue[j].cursor));
        } else {
          RollupDeleteAccount(j, shelves);
          n := 1;
        }
      } else if i < |live| {
        n, dirty, order := RollupLiveCounts(i, None);
      } else if j < |queue| {
        RollupDeleteAccount(j, shelves);
        n := 1;
      } else {
        n := 0;
      }
    }
  }
}
