/**
The order of background work: when a step deletes an account and when it rolls up
live counts, how much it takes, and that every queued deletion happens once, in order.
*/
module RollupOrder {
  import opened Accounts
  import opened CountValues
  import opened Rollup
  import opened RollupProofs
  import opened RollupWriter
  import Lex
  import FeedTrim

  /* ---- one step ---- */

  /** An account deletion is queued, and no live entry lies strictly before it. */
  ghost predicate RemovalNext(s: Store) {
    s.queue != [] && forall i :: 0 <= i < |s.live| ==> s.queue[0].cursor <= s.live[i].cursor
  }

  /** The most a step may take: 256 entries, none beyond the next account deletion. */
  ghost predicate TakesMost(s: Store, n: nat) {
    && n <= |s.live| && n <= 256
    && (forall i :: 0 <= i < n && s.queue != [] ==> s.live[i].cursor <= s.queue[0].cursor)
    && (n < |s.live| && n < 256 ==> s.queue != [] && s.queue[0].cursor < s.live[n].cursor)
  }

  lemma MovesIff(s: Store)
    requires CursorsOk(s)
    ensures NextMove(s).Remove? <==> RemovalNext(s)
    ensures NextMove(s).Idle? <==> s.live == [] && s.queue == []
  {
    MoveFromFront(s);
    ScansStartAtFront(s);
    if s.live != [] && s.queue != [] && s.queue[0].cursor <= s.live[0].cursor {
      forall i | 0 <= i < |s.live| ensures s.queue[0].cursor <= s.live[i].cursor {
        assert i > 0 ==> Before(s.live[0], s.live[i]);
      }
    }
  }

  lemma LiveTakesMost(s: Store)
    requires CursorsOk(s) && NextMove(s).Live?
    ensures TakesMost(s, |StepTaken(s)|)
  {
    MoveFromFront(s);
    var n := TakeCount(s.live, NextMove(s).limit, MAX_ROLLUP);
    assert StepTaken(s) == s.live[..n];
  }

  /** The first `n` live entries were rolled up, and the cursor is that of the last. */
  ghost predicate Rolls(s: Store, t: Store, n: nat) {
    && TakesMost(s, n) && (n == 0 <==> s.live == [])
    && t == s.(live := s.live[n..], rollupCursor := if n == 0 then s.rollupCursor else s.live[n - 1].cursor,
               tables := t.tables)
  }

  /**
  A step is an account deletion if and only if one is queued and no live entry lies
  strictly before it; otherwise it rolls up as much as it may from the front.
  */
  lemma StepIs(s: Store, order: seq<Key>, est: set<Did> -> nat)
    requires CursorsOk(s) && Enumerates(order, Touched(StepTaken(s)))
    ensures var t := StepRollup(s, order, est);
            if RemovalNext(s) then t == s.(queue := s.queue[1..], rollupCursor := s.queue[0].cursor)
            else Rolls(s, t, |StepTaken(s)|) && StepTaken(s) == s.live[..|StepTaken(s)|]
  {
    MovesIff(s);
    StepShape(s, order, est);
    match NextMove(s)
    case Live(_, _) => LiveTakesMost(s);
    case Remove(_) =>
    case Idle => assert s.live[0..] == s.live && s.live[..0] == [];
  }

  /** What leaves a list in strict order from the front is not among what stays. */
  lemma LeftIff(live: seq<Entry>, n: nat, nsid: Nsid)
    requires n <= |live| && forall i, j :: 0 <= i < j < |live| ==> Before(live[i], live[j])
    ensures nsid in DirtyOf(live[..n]) <==> exists e :: e in live && e !in live[n..] && e.nsid == nsid
  {
    if nsid in DirtyOf(live[..n]) {
      var i :| 0 <= i < n && live[..n][i].nsid == nsid;
      forall j | n <= j < |live| ensures live[j] != live[i] {
        assert Before(live[i], live[j]);
        Lex.Irreflexive(live[i].nsid);
      }
      assert live[i] in live && live[i] !in live[n..];
    }
    if e :| e in live && e !in live[n..] && e.nsid == nsid {
      assert live == live[..n] + live[n..];
      assert e in live[..n];
    }
  }

  /** What was rolled up is what left the live entries, and the step reports exactly their collections. */
  lemma DirtyIff(s: Store, order: seq<Key>, est: set<Did> -> nat, nsid: Nsid)
    requires CursorsOk(s) && Enumerates(order, Touched(StepTaken(s)))
    ensures var t := StepRollup(s, order, est);
            nsid in DirtyOf(StepTaken(s)) <==> exists e :: e in s.live && e !in t.live && e.nsid == nsid
  {
    MovesIff(s);
    StepIs(s, order, est);
    if !RemovalNext(s) {
      LeftIff(s.live, |StepTaken(s)|, nsid);
    }
  }

  /** A counter that a step changes is one of a collection it reports. */
  lemma OnlyDirtyChange(y: Sys, order: seq<Key>, est: set<Did> -> nat, k: Key)
    requires RollupProofs.Inv(y, est) && SketchOk(est) && Enumerates(order, Touched(StepTaken(y.store)))
    ensures k.nsid !in DirtyOf(StepTaken(y.store)) ==>
              CounterAt(Step(y, order, est).store.tables, k) == CounterAt(y.store.tables, k)
  {
    var taken := StepTaken(y.store);
    if k.nsid !in DirtyOf(taken) {
      StepKeepsInv(y, order, est);
      assert CounterAt(y.store.tables, k) == TotalOf(y.rolled, k);
      assert CounterAt(Step(y, order, est).store.tables, k) == TotalOf(y.rolled + taken, k);
      NoneFeed(taken, k);
      TotalAppend(y.rolled, taken, k);
      MergeLaws(TotalOf(y.rolled, k), ZERO, ZERO);
    }
  }

  lemma {:induction false} NoneFeed(entries: seq<Entry>, k: Key)
    requires k.nsid !in DirtyOf(entries)
    ensures TotalOf(entries, k) == ZERO
  {
    if entries != [] {
      var n := |entries| - 1;
      assert entries[n].nsid in DirtyOf(entries);
      assert forall i :: 0 <= i < n ==> entries[..n][i].nsid in DirtyOf(entries);
      NoneFeed(entries[..n], k);
    }
  }

  /** A deletion takes the records of its account from every collection; any other step takes none. */
  lemma RecordsLeft(s: Store, records: map<FeedTrim.Loc, FeedTrim.Meta>, loc: FeedTrim.Loc)
    requires CursorsOk(s)
    ensures var left := RecordsAfter(s, records);
            && (loc in left <==> loc in records && !(RemovalNext(s) && loc.did == s.queue[0].did))
            && (loc in left ==> left[loc] == records[loc])
  {
    MovesIff(s);
    MoveFromFront(s);
  }

  /* ---- runs ---- */

  /** The deletions that the first `n` acts queue. */
  function Queued(acts: seq<Act>): seq<Removal> {
    if acts == [] then []
    else
      var last := acts[|acts| - 1];
      Queued(acts[..|acts| - 1]) + if last.DoInsert? then last.b.removals else []
  }

  /** The deletions that steps made: each takes one off the queue. */
  ghost function Made(states: seq<Sys>, acts: seq<Act>, n: nat): seq<Removal>
    requires n <= |acts| < |states|
  {
    if n == 0 then []
    else Made(states, acts, n - 1) +
         if acts[n - 1].DoStep? && RemovalNext(states[n - 1].store) then [states[n - 1].store.queue[0]] else []
  }

  /** Over every run: the deletions made and those still queued are those that arrived, in the order they arrived. */
  lemma {:induction false} DeletionsInOrder(states: seq<Sys>, acts: seq<Act>, est: set<Did> -> nat, n: nat)
    requires RollupProofs.IsRun(states, acts, est) && SketchOk(est) && n <= |acts|
    ensures Made(states, acts, n) + states[n].store.queue == Queued(acts[..n])
  {
    if n > 0 {
      DeletionsInOrder(states, acts, est, n - 1);
      RunInv(states, acts, est, n - 1);
      assert acts[..n][..n - 1] == acts[..n - 1];
      QueueMore(states[n - 1], acts[n - 1], est, Made(states, acts, n - 1));
    }
  }

  lemma QueueMore(y: Sys, a: Act, est: set<Did> -> nat, made: seq<Removal>)
    requires RollupProofs.Inv(y, est) && RollupProofs.Can(y, a)
    ensures made + (if a.DoStep? && RemovalNext(y.store) then [y.store.queue[0]] else []) + Do(y, a, est).store.queue ==
            made + y.store.queue + if a.DoInsert? then a.b.removals else []
  {
    match a
    case DoInsert(b) =>
      assert Do(y, a, est).store.queue == y.store.queue + b.removals;
      Joined(made, y.store.queue, b.removals);
    case DoStep(order) =>
      StepIs(y.store, order, est);
      Taken(made, y.store.queue, RemovalNext(y.store));
    case DoReroll => Taken(made, y.store.queue, false);
  }

  lemma Joined<T>(made: seq<T>, queue: seq<T>, more: seq<T>)
    ensures made + [] + (queue + more) == made + queue + more
  {
  }

  lemma Taken<T>(made: seq<T>, queue: seq<T>, first: bool)
    requires first ==> queue != []
    ensures made + (if first then [queue[0]] else []) + (if first then queue[1..] else queue) == made + queue + []
  {
  }

  /** When a deletion is made, every entry that arrived before it was already rolled up. */
  lemma RolledBefore(states: seq<Sys>, acts: seq<Act>, est: set<Did> -> nat, n: nat, e: Entry)
    requires RollupProofs.IsRun(states, acts, est) && SketchOk(est) && n < |acts|
    requires acts[n].DoStep? && RemovalNext(states[n].store)
    requires e in states[n].inserted && e.cursor < states[n].store.queue[0].cursor
    ensures e in states[n].rolled
  {
    RunInv(states, acts, est, n);
    var y := states[n];
    assert y.inserted == y.rolled + y.store.live;
    assert e !in y.store.live;
  }
}
