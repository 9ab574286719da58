/**
From the event stream to the counters: the batches the batcher sends are written
by the rollup store in order, with background steps in between, and every commit
is counted exactly once on the way.
*/
module Pipeline {
  import opened Options
  import opened CountValues
  import opened CommitBuffer
  import opened Batcher
  import opened BatcherRuns
  import Buckets
  import Rollup
  import RollupProofs
  import RollupWriter
  import opened Seqs
  import Lex

  /* ---- what a batch becomes in the store ---- */

  function CountsIn(b: Buffer): Counts {
    Counts(b.creates, b.updates, b.deletes, b.dids)
  }

  function BatchCounts(b: EventBatch): map<Nsid, Counts> {
    map n | n in b.commits :: CountsIn(b.commits[n])
  }

  predicate IsEmpty(b: EventBatch) {
    b.commits == map[] && b.removes == []
  }

  /** What inserting a sent batch writes: one entry per collection at its latest cursor, and its removals. */
  ghost predicate Stores(b: EventBatch, rb: Rollup.Batch) {
    && rb.removals == b.removes
    && RollupWriter.BatchEntries(rb.entries, rb.latest)
    && RollupWriter.HoldsExactly(rb.entries, rb.latest, BatchCounts(b))
    && (!IsEmpty(b) ==> IsLatest(b, Some(rb.latest)))
  }

  function AllTime(nsid: Nsid): Rollup.Key {
    Rollup.Key(Buckets.AllTime, nsid)
  }

  /** The tallies and accounts of some commits. */
  ghost function CountsOf(cs: seq<Commit>): Counts {
    Counts(|Creates(cs)|, |Updates(cs)|, |Deletes(cs)|, CommitBuffer.DidsOf(cs))
  }

  ghost function LastCursor(es: seq<Event>): nat {
    if es == [] then 0 else CursorOf(es[|es| - 1])
  }

  /* ---- counts ---- */

  lemma DidsJoin(a: seq<Commit>, b: seq<Commit>)
    ensures CommitBuffer.DidsOf(a + b) == CommitBuffer.DidsOf(a) + CommitBuffer.DidsOf(b)
  {
    var all := a + b;
    forall d ensures d in CommitBuffer.DidsOf(all) <==> d in CommitBuffer.DidsOf(a) || d in CommitBuffer.DidsOf(b) {
      if i :| 0 <= i < |a| && a[i].did == d {
        assert all[i].did == d;
      }
      if i :| 0 <= i < |b| && b[i].did == d {
        assert all[|a| + i].did == d;
      }
    }
  }

  lemma CountsJoin(a: seq<Commit>, b: seq<Commit>)
    ensures CountsOf(a + b) == Merge(CountsOf(a), CountsOf(b))
  {
    TallyJoin(a, b);
    DidsJoin(a, b);
  }

  lemma NoCounts()
    ensures CountsOf([]) == ZERO
  {
  }

  ghost function ArrivedCounts(es: seq<Event>, nsid: Nsid): Counts {
    CountsOf(CommitsOf(es, nsid))
  }

  lemma ArrivedJoin(a: seq<Event>, b: seq<Event>, nsid: Nsid)
    ensures ArrivedCounts(a + b, nsid) == Merge(ArrivedCounts(a, nsid), ArrivedCounts(b, nsid))
  {
    CommitsJoin(a, b, nsid);
    CountsJoin(CommitsOf(a, nsid), CommitsOf(b, nsid));
  }

  function HeldCounts(b: EventBatch, nsid: Nsid): Counts {
    if nsid in b.commits then CountsIn(b.commits[nsid]) else ZERO
  }

  /** A batch's tallies are those of the events it took. */
  lemma TakesCounts(b: EventBatch, history: seq<Event>, nsid: Nsid)
    requires Takes(b, history)
    ensures HeldCounts(b, nsid) == ArrivedCounts(history, nsid)
  {
    assert BufferOk(b.commits, nsid, CommitsOf(history, nsid));
    NoCounts();
  }

  /** Over entries of distinct collections, a total is one entry's counts. */
  lemma {:induction false} TotalOfEntries(entries: seq<Rollup.Entry>, nsid: Nsid)
    requires forall i, j :: 0 <= i < j < |entries| ==> entries[i].nsid != entries[j].nsid
    ensures forall i :: 0 <= i < |entries| && entries[i].nsid == nsid ==>
              Rollup.TotalOf(entries, AllTime(nsid)) == entries[i].counts
    ensures (forall i :: 0 <= i < |entries| ==> entries[i].nsid != nsid) ==>
              Rollup.TotalOf(entries, AllTime(nsid)) == ZERO
  {
    if entries != [] {
      var n := |entries| - 1;
      TotalOfEntries(entries[..n], nsid);
      MergeLaws(entries[n].counts, ZERO, ZERO);
      if entries[n].nsid != nsid {
        assert forall i :: 0 <= i < n ==> entries[i] == entries[..n][i];
      } else {
        assert forall i :: 0 <= i < n ==> entries[..n][i].nsid != nsid;
      }
    }
  }

  lemma EntriesDistinct(entries: seq<Rollup.Entry>, latest: nat, i: nat, j: nat)
    requires RollupWriter.BatchEntries(entries, latest) && i < j < |entries|
    ensures entries[i].nsid != entries[j].nsid
  {
    assert Lex.Less(entries[i].nsid, entries[j].nsid);
    Lex.Irreflexive(entries[i].nsid);
  }

  lemma StoredTotal(b: EventBatch, rb: Rollup.Batch, nsid: Nsid)
    requires Stores(b, rb)
    ensures Rollup.TotalOf(rb.entries, AllTime(nsid)) == HeldCounts(b, nsid)
  {
    forall i, j | 0 <= i < j < |rb.entries| ensures rb.entries[i].nsid != rb.entries[j].nsid {
      EntriesDistinct(rb.entries, rb.latest, i, j);
    }
    TotalOfEntries(rb.entries, nsid);
    if nsid in b.commits {
      assert nsid in BatchCounts(b);
      var e := Rollup.Entry(rb.latest, nsid, BatchCounts(b)[nsid]);
      assert e in rb.entries;
      var i :| 0 <= i < |rb.entries| && rb.entries[i] == e;
      assert rb.entries[i].nsid == nsid;
    }
  }

  /* ---- a sent batch follows what the store has ---- */

  /** A batch that took nothing stores nothing. */
  lemma EmptyTook(b: EventBatch, history: seq<Event>)
    requires Takes(b, history) && IsEmpty(b) && forall i :: 0 <= i < |history| ==> !history[i].Other?
    ensures history == []
  {
    if history != [] {
      assert history == history[..|history| - 1] + [history[|history| - 1]];
      SomethingTaken(b, history[..|history| - 1], history[|history| - 1]);
    }
  }

  lemma SomethingTaken(b: EventBatch, init: seq<Event>, last: Event)
    requires Takes(b, init + [last]) && !last.Other?
    ensures !IsEmpty(b)
  {
    var nsid := if last.Committed? then last.nsid else "";
    CommitsSnoc(init, last, nsid);
    assert BufferOk(b.commits, nsid, CommitsOf(init + [last], nsid));
  }

  lemma RemovalsFollow(history: seq<Event>, js: nat, latest: nat)
    requires Increasing(history) && forall i :: 0 <= i < |history| ==> js < CursorOf(history[i]) <= latest
    ensures var q := RemovalsOf(history);
            && (forall i :: 0 <= i < |q| ==> js < q[i].cursor <= latest)
            && (forall i, j :: 0 <= i < j < |q| ==> q[i].cursor < q[j].cursor)
  {
    var rs := RemovalsOf(history);
    RemovalsRise(history);
    forall i | 0 <= i < |rs| ensures js < rs[i].cursor <= latest {
      RemovalFromHistory(history, rs[i]);
      var k :| 0 <= k < |history| && history[k] == Removed(rs[i]);
      assert CursorOf(history[k]) == rs[i].cursor;
    }
  }

  lemma AfterLast(done: seq<Event>, history: seq<Event>)
    requires Increasing(done + history) && history != []
    ensures Increasing(history)
    ensures forall i :: 0 <= i < |history| ==> LastCursor(done) < CursorOf(history[i]) <= LastCursor(history)
    ensures LastCursor(done + history) == LastCursor(history)
  {
    IncreasingParts(done, history);
    forall i | 0 <= i < |history| ensures LastCursor(done) < CursorOf(history[i]) <= LastCursor(history) {
      assert history[i] in history;
      if done != [] {
        assert done[|done| - 1] in done;
      }
    }
  }

  /** What the rollup store asks of its batches holds of the batches the batcher sends. */
  lemma BatchFollowsHere(s: Rollup.Store, b: EventBatch, rb: Rollup.Batch, done: seq<Event>, history: seq<Event>)
    requires Takes(b, history) && Increasing(done + history) && s.jsCursor == LastCursor(done)
    requires Stores(b, rb) && !IsEmpty(b)
    ensures Rollup.BatchFollows(s, rb) && rb.latest == LastCursor(done + history)
  {
    if history == [] {
      NothingTaken(b);
    } else {
      AfterLast(done, history);
      LatestIsLast(b, history, Some(rb.latest));
      RemovalsFollow(history, s.jsCursor, rb.latest);
      assert rb.removals == RemovalsOf(history);
    }
  }

  lemma NothingTaken(b: EventBatch)
    requires Takes(b, [])
    ensures IsEmpty(b)
  {
    forall nsid ensures nsid !in b.commits {
      assert BufferOk(b.commits, nsid, CommitsOf([], nsid));
    }
  }

  /* ---- the pipeline ---- */

  /** The store takes the sent batches one after the other, in any interleaving with steps and rerolls. */
  ghost predicate IsPipeline(start: RollupProofs.Sys, sent: seq<EventBatch>, states: seq<RollupProofs.Sys>,
                             acts: seq<RollupProofs.Act>, taken: seq<nat>, est: set<Did> -> nat) {
    && |states| == |acts| + 1 == |taken|
    && states[0] == start && taken[0] == 0
    && forall i :: 0 <= i < |acts| ==> Moves(sent, states[i], states[i + 1], acts[i], taken[i], taken[i + 1], est)
  }

  ghost predicate Moves(sent: seq<EventBatch>, y: RollupProofs.Sys, y': RollupProofs.Sys, a: RollupProofs.Act, k: nat,
                        k': nat, est: set<Did> -> nat) {
    match a
    case DoInsert(rb) => k < |sent| && k' == k + 1 && Stores(sent[k], rb) && y' == RollupProofs.Insert(y, rb)
    case DoStep(order) =>
      && k' == k && Rollup.Enumerates(order, Rollup.Touched(Rollup.StepTaken(y.store)))
      && y' == RollupProofs.Step(y, order, est)
    case DoReroll => k' == k && y' == y.(store := y.store.(rollupCursor := 0))
  }

  /** What the store holds when it took the first `k` batches. */
  ghost predicate Caught(y: RollupProofs.Sys, done: seq<Event>, est: set<Did> -> nat) {
    && RollupProofs.Inv(y, est)
    && y.store.jsCursor == LastCursor(done)
    && forall nsid :: Rollup.TotalOf(y.inserted, AllTime(nsid)) == ArrivedCounts(done, nsid)
  }

  lemma InsertCatches(y: RollupProofs.Sys, b: EventBatch, rb: Rollup.Batch, done: seq<Event>, history: seq<Event>,
                      est: set<Did> -> nat)
    requires Caught(y, done, est) && Takes(b, history) && Increasing(done + history) && Stores(b, rb)
    ensures Caught(RollupProofs.Insert(y, rb), done + history, est)
  {
    var y' := RollupProofs.Insert(y, rb);
    if IsEmpty(b) {
      IncreasingParts(done, history);
      EmptyTook(b, history);
      EmptyStores(b, rb);
      assert done + history == done;
      assert y.inserted + rb.entries == y.inserted;
      assert y' == y;
    } else {
      SomethingCaught(y, b, rb, done, history, est);
    }
  }

  lemma SomethingCaught(y: RollupProofs.Sys, b: EventBatch, rb: Rollup.Batch, done: seq<Event>, history: seq<Event>,
                        est: set<Did> -> nat)
    requires Caught(y, done, est) && Takes(b, history) && Increasing(done + history) && Stores(b, rb) && !IsEmpty(b)
    ensures Caught(RollupProofs.Insert(y, rb), done + history, est)
  {
    BatchFollowsHere(y.store, b, rb, done, history);
    RollupProofs.InsertKeepsInv(y, rb, est);
    NotEmptyStores(b, rb);
    forall nsid
      ensures Rollup.TotalOf(RollupProofs.Insert(y, rb).inserted, AllTime(nsid)) ==
        ArrivedCounts(done + history, nsid) {
      InsertedTotal(y, b, rb, done, history, nsid);
    }
  }

  lemma InsertedTotal(y: RollupProofs.Sys, b: EventBatch, rb: Rollup.Batch, done: seq<Event>, history: seq<Event>,
                      nsid: Nsid)
    requires Takes(b, history) && Stores(b, rb)
    requires Rollup.TotalOf(y.inserted, AllTime(nsid)) == ArrivedCounts(done, nsid)
    ensures Rollup.TotalOf(RollupProofs.Insert(y, rb).inserted, AllTime(nsid)) == ArrivedCounts(done + history, nsid)
  {
    RollupProofs.TotalAppend(y.inserted, rb.entries, AllTime(nsid));
    StoredTotal(b, rb, nsid);
    TakesCounts(b, history, nsid);
    ArrivedJoin(done, history, nsid);
  }

  lemma EmptyStores(b: EventBatch, rb: Rollup.Batch)
    requires IsEmpty(b) && Stores(b, rb)
    ensures rb.entries == [] && rb.removals == []
  {
    assert BatchCounts(b) == map[];
    if rb.entries != [] {
      SomeEntry(rb.entries, rb.latest, BatchCounts(b));
    }
  }

  lemma SomeEntry(entries: seq<Rollup.Entry>, latest: nat, commits: map<Nsid, Counts>)
    requires RollupWriter.HoldsExactly(entries, latest, commits) && entries != []
    ensures commits != map[]
  {
    assert entries[0].nsid in commits;
  }

  lemma NotEmptyStores(b: EventBatch, rb: Rollup.Batch)
    requires !IsEmpty(b) && Stores(b, rb)
    ensures rb.entries != [] || rb.removals != []
  {
    if b.commits != map[] {
      var n :| n in b.commits;
      assert n in BatchCounts(b);
    }
  }

  lemma StepCatches(y: RollupProofs.Sys, order: seq<Rollup.Key>, done: seq<Event>, est: set<Did> -> nat)
    requires Caught(y, done, est) && RollupProofs.SketchOk(est)
    requires Rollup.Enumerates(order, Rollup.Touched(Rollup.StepTaken(y.store)))
    ensures Caught(RollupProofs.Step(y, order, est), done, est)
  {
    RollupProofs.StepKeepsInv(y, order, est);
    RollupProofs.StepHistory(y, order, est);
  }

  lemma FlattenMore(past: seq<seq<Event>>, k: nat)
    requires k < |past|
    ensures Flatten(past[..k + 1]) == Flatten(past[..k]) + past[k]
  {
    assert past[..k + 1][..k] == past[..k];
  }

  lemma {:induction false} FlattenSplits(past: seq<seq<Event>>, k: nat)
    requires k <= |past|
    ensures Flatten(past) == Flatten(past[..k]) + Flatten(past[k..])
  {
    if k == |past| {
      assert past[..k] == past && past[k..] == [];
      assert Flatten(past) + [] == Flatten(past);
    } else {
      var n := |past| - 1;
      FlattenSplits(past[..n], k);
      assert past[..n][..k] == past[..k] && past[..n][k..] == past[k..][..n - k];
    }
  }

  /** In every state of the pipeline the store holds what it held and exactly what the batches it took were made of. */
  lemma {:induction false} PipelineCatches(start: RollupProofs.Sys, held: seq<Event>, sent: seq<EventBatch>,
                                           past: seq<seq<Event>>, states: seq<RollupProofs.Sys>,
                                           acts: seq<RollupProofs.Act>, taken: seq<nat>, est: set<Did> -> nat, i: nat)
    requires AllTake(sent, past) && Increasing(held + Flatten(past)) && RollupProofs.SketchOk(est)
    requires Caught(start, held, est)
    requires IsPipeline(start, sent, states, acts, taken, est) && i <= |acts|
    ensures taken[i] <= |past| && Caught(states[i], held + Flatten(past[..taken[i]]), est)
  {
    if i == 0 {
      assert past[..0] == [] && held + [] == held;
    } else {
      PipelineCatches(start, held, sent, past, states, acts, taken, est, i - 1);
      assert Moves(sent, states[i - 1], states[i], acts[i - 1], taken[i - 1], taken[i], est);
      MoveCatches(held, sent, past, states[i - 1], states[i], acts[i - 1], taken[i - 1], taken[i], est);
    }
  }

  lemma StartCaught(est: set<Did> -> nat)
    requires RollupProofs.SketchOk(est)
    ensures Caught(RollupProofs.START, [], est)
  {
    NoCounts();
    RollupProofs.RunInv([RollupProofs.START], [], est, 0);
  }

  lemma MoveCatches(held: seq<Event>, sent: seq<EventBatch>, past: seq<seq<Event>>, y: RollupProofs.Sys,
                    y': RollupProofs.Sys, a: RollupProofs.Act, k: nat, k': nat, est: set<Did> -> nat)
    requires AllTake(sent, past) && Increasing(held + Flatten(past)) && RollupProofs.SketchOk(est) && k <= |past|
    requires Caught(y, held + Flatten(past[..k]), est) && Moves(sent, y, y', a, k, k', est)
    ensures k' <= |past| && Caught(y', held + Flatten(past[..k']), est)
  {
    match a
    case DoInsert(rb) =>
      NextPiece(held, past, k);
      InsertCatches(y, sent[k], rb, held + Flatten(past[..k]), past[k], est);
    case DoStep(order) => StepCatches(y, order, held + Flatten(past[..k]), est);
    case DoReroll => RollupProofs.RerollKeepsInv(y, est);
  }

  lemma NextPiece(held: seq<Event>, past: seq<seq<Event>>, k: nat)
    requires k < |past| && Increasing(held + Flatten(past))
    ensures held + Flatten(past[..k + 1]) == held + Flatten(past[..k]) + past[k]
    ensures Increasing(held + Flatten(past[..k]) + past[k])
  {
    FlattenMore(past, k);
    FlattenSplits(past, k + 1);
    Regroup(held, Flatten(past[..k]), past[k], held + Flatten(past[..k + 1]));
    Regroup(held, Flatten(past[..k + 1]), Flatten(past[k + 1..]), held + Flatten(past));
    IncreasingParts(held + Flatten(past[..k + 1]), Flatten(past[k + 1..]));
  }

  /* ---- conservation from the stream to the counters ---- */

  /** What batches not yet written hold. */
  ghost function Waiting(batches: seq<EventBatch>, nsid: Nsid): Counts {
    if batches == []
    then ZERO
    else Merge(Waiting(batches[..|batches| - 1], nsid), HeldCounts(batches[|batches| - 1], nsid))
  }

  lemma {:induction false} WaitingIs(batches: seq<EventBatch>, pieces: seq<seq<Event>>, nsid: Nsid)
    requires AllTake(batches, pieces)
    ensures Waiting(batches, nsid) == ArrivedCounts(Flatten(pieces), nsid)
  {
    if batches == [] {
      NoCounts();
    } else {
      var n := |batches| - 1;
      AllTakeInit(batches, pieces, n);
      WaitingIs(batches[..n], pieces[..n], nsid);
      TakesCounts(batches[n], pieces[n], nsid);
      ArrivedJoin(Flatten(pieces[..n]), pieces[n], nsid);
    }
  }

  lemma StillToWrite(s: Batching, past: seq<seq<Event>>, now: seq<Event>, k: nat, nsid: Nsid)
    requires Pieces(s, past, now) && k <= |past|
    ensures Waiting(s.sent[k..] + [s.current], nsid) == ArrivedCounts(Flatten(past[k..]) + now, nsid)
  {
    var batches, pieces := s.sent[k..] + [s.current], past[k..] + [now];
    forall i | 0 <= i < |pieces| ensures Takes(batches[i], pieces[i]) {
      if i < |past| - k {
        assert batches[i] == s.sent[k + i] && pieces[i] == past[k + i];
      }
    }
    WaitingIs(batches, pieces, nsid);
    assert pieces[..|pieces| - 1] == past[k..];
  }

  /**
   * At every moment, whatever the interleaving: the all-time counter, the live entries not yet
   * rolled up and the batches not yet written hold together exactly the commits that arrived.
   */
  lemma StreamConserved(steps: seq<BatcherRuns.Step>, states: seq<RollupProofs.Sys>, acts: seq<RollupProofs.Act>,
                        taken: seq<nat>, est: set<Did> -> nat, i: nat, nsid: Nsid)
    requires Run(steps).Some? && Increasing(Arrived(steps)) && RollupProofs.SketchOk(est)
    requires IsPipeline(RollupProofs.START, Run(steps).value.sent, states, acts, taken, est) && i <= |acts|
    ensures taken[i] <= |Run(steps).value.sent| && RollupProofs.Inv(states[i], est)
    ensures var s, y, k := Run(steps).value, states[i], AllTime(nsid);
            Merge(Merge(Rollup.CounterAt(y.store.tables, k), Rollup.TotalOf(y.store.live, k)),
                  Waiting(s.sent[taken[i]..] + [s.current], nsid))
            == CountsOf(CommitsOf(Arrived(steps), nsid))
  {
    var past, now := RunConserves(steps);
    var s := Run(steps).value;
    IncreasingParts(Flatten(past), now);
    assert AllTake(s.sent, past);
    StartCaught(est);
    EmptyFirst(Flatten(past));
    PipelineCatches(RollupProofs.START, [], s.sent, past, states, acts, taken, est, i);
    EmptyFirst(Flatten(past[..taken[i]]));
    RollupProofs.NothingLost(states[i], est, nsid);
    StillToWrite(s, past, now, taken[i], nsid);
    SplitArrived(past, now, taken[i], Arrived(steps));
    ArrivedJoin(Flatten(past[..taken[i]]), Flatten(past[taken[i]..]) + now, nsid);
  }

  lemma SplitArrived(past: seq<seq<Event>>, now: seq<Event>, k: nat, all: seq<Event>)
    requires k <= |past| && Flatten(past) + now == all
    ensures Flatten(past[..k]) + (Flatten(past[k..]) + now) == all
  {
    FlattenSplits(past, k);
    Ungroup(Flatten(past[..k]), Flatten(past[k..]), now, all);
  }

  lemma NothingWaiting(s: Batching, nsid: Nsid)
    requires IsEmpty(s.current)
    ensures Waiting(s.sent[|s.sent|..] + [s.current], nsid) == ZERO
  {
    var left := s.sent[|s.sent|..] + [s.current];
    assert left == [s.current] && left[..0] == [];
    assert Waiting([], nsid) == ZERO;
    MergeLaws(ZERO, ZERO, ZERO);
  }

  lemma NothingAdded(c: Counts)
    ensures Merge(Merge(c, ZERO), ZERO) == c
  {
    MergeLaws(c, ZERO, ZERO);
  }

  /** Once everything is sent, written and rolled up, each all-time counter is the tally of the commits that arrived. */
  lemma StreamCounted(steps: seq<BatcherRuns.Step>, states: seq<RollupProofs.Sys>, acts: seq<RollupProofs.Act>,
                      taken: seq<nat>, est: set<Did> -> nat, nsid: Nsid)
    requires Run(steps).Some? && Increasing(Arrived(steps)) && RollupProofs.SketchOk(est)
    requires IsPipeline(RollupProofs.START, Run(steps).value.sent, states, acts, taken, est)
    requires taken[|acts|] == |Run(steps).value.sent| && IsEmpty(Run(steps).value.current)
    requires RollupProofs.Pending(states[|acts|].store) == 0
    ensures Rollup.CounterAt(states[|acts|].store.tables, AllTime(nsid)) == CountsOf(CommitsOf(Arrived(steps), nsid))
  {
    StreamConserved(steps, states, acts, taken, est, |acts|, nsid);
    NothingWaiting(Run(steps).value, nsid);
    NothingAdded(Rollup.CounterAt(states[|acts|].store.tables, AllTime(nsid)));
  }
}
