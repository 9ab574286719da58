/**
The process stops and starts again: what was not yet written is lost, and the
stream resumes after the stored cursor, so every commit of the log is still
counted exactly once.
*/
module Restarts {
  import opened Options
  import opened CountValues
  import opened Batcher
  import opened BatcherRuns
  import opened Pipeline
  import opened Seqs
  import Rollup
  import RollupProofs
  import Replay

  /* ---- the log ---- */

  /** Cursors are positive and strictly increasing; the events of other kinds are there too. */
  ghost predicate LogOk(log: seq<Event>) {
    && (forall i :: 0 <= i < |log| ==> CursorOf(log[i]) > 0)
    && (forall i, j :: 0 <= i < j < |log| ==> CursorOf(log[i]) < CursorOf(log[j]))
  }

  /** The commits and account removals among some events. */
  function Kept(es: seq<Event>): seq<Event> {
    if es == [] then [] else Kept(es[..|es| - 1]) + Accepted(es[|es| - 1])
  }

  /** How much of the log is not newer than a cursor. */
  function Upto(log: seq<Event>, cursor: nat): (n: nat)
    ensures n <= |log|
  {
    if log == [] then 0
    else if CursorOf(log[|log| - 1]) <= cursor then |log|
    else Upto(log[..|log| - 1], cursor)
  }

  lemma {:induction false} KeptJoin(a: seq<Event>, b: seq<Event>)
    ensures Kept(a + b) == Kept(a) + Kept(b)
  {
    if b == [] {
      assert a + b == a;
    } else {
      assert (a + b)[..|a + b| - 1] == a + b[..|b| - 1];
      KeptJoin(a, b[..|b| - 1]);
    }
  }

  lemma {:induction false} KeptFrom(es: seq<Event>, e: Event)
    requires e in Kept(es)
    ensures e in es && !e.Other?
  {
    var n := |es| - 1;
    if e in Kept(es[..n]) {
      KeptFrom(es[..n], e);
    }
  }

  lemma {:induction false} KeptIncreasing(es: seq<Event>)
    requires LogOk(es)
    ensures Increasing(Kept(es))
  {
    if es != [] {
      var n := |es| - 1;
      KeptIncreasing(es[..n]);
      var kept := Kept(es[..n]);
      forall i | 0 <= i < |kept| ensures CursorOf(kept[i]) < CursorOf(es[n]) {
        KeptBelow(es, kept[i]);
      }
      if !es[n].Other? {
        IncreasingSnoc(kept, es[n]);
      } else {
        NothingMore(kept);
      }
    }
  }

  lemma KeptBelow(es: seq<Event>, e: Event)
    requires LogOk(es) && es != [] && e in Kept(es[..|es| - 1])
    ensures CursorOf(e) < CursorOf(es[|es| - 1])
  {
    var n := |es| - 1;
    KeptFrom(es[..n], e);
    var k :| 0 <= k < n && es[..n][k] == e;
    assert es[k] == e;
  }

  lemma IncreasingSnoc(es: seq<Event>, e: Event)
    requires Increasing(es) && !e.Other? && CursorOf(e) > 0
    requires forall i :: 0 <= i < |es| ==> CursorOf(es[i]) < CursorOf(e)
    ensures Increasing(es + [e])
  {
  }

  /** Some first events of what is kept, up to the cursor of the last, are what is kept up to that cursor. */
  lemma {:induction false} KeptUpto(es: seq<Event>, first: seq<Event>)
    requires LogOk(es) && first <= Kept(es) && first != []
    ensures Kept(es[..Upto(es, LastCursor(first))]) == first
  {
    var n := |es| - 1;
    var init := es[..n];
    var c := LastCursor(first);
    if |first| <= |Kept(init)| {
      assert first <= Kept(init);
      KeptUpto(init, first);
      KeptBelow(es, first[|first| - 1]);
      assert init[..Upto(init, c)] == es[..Upto(es, c)];
    } else {
      assert first == Kept(es) && first[|first| - 1] == es[n];
      assert es[..|es|] == es;
    }
  }

  /** Positions up to a cursor, in the log and in what is left of it. */
  lemma UptoSplits(log: seq<Event>, cursor: nat)
    requires LogOk(log)
    ensures forall i :: 0 <= i < |log| ==> (CursorOf(log[i]) <= cursor <==> i < Upto(log, cursor))
    decreases |log|
  {
    if log != [] && CursorOf(log[|log| - 1]) > cursor {
      UptoSplits(log[..|log| - 1], cursor);
    }
  }

  lemma UptoIs(log: seq<Event>, cursor: nat, n: nat)
    requires LogOk(log) && n <= |log| && forall i :: 0 <= i < |log| ==> (CursorOf(log[i]) <= cursor <==> i < n)
    ensures Upto(log, cursor) == n
  {
    UptoSplits(log, cursor);
    var m := Upto(log, cursor);
    assert m < |log| ==> (CursorOf(log[m]) <= cursor <==> m < n);
    assert n < |log| ==> (CursorOf(log[n]) <= cursor <==> n < m);
  }

  lemma TailOk(log: seq<Event>, q: nat)
    requires LogOk(log) && q <= |log|
    ensures LogOk(log[q..])
  {
    var tail := log[q..];
    forall i, j | 0 <= i < j < |tail| ensures CursorOf(tail[i]) < CursorOf(tail[j]) {
      assert tail[i] == log[q + i] && tail[j] == log[q + j];
    }
  }

  lemma TailSplits(log: seq<Event>, q: nat, cursor: nat, n: nat, i: nat)
    requires LogOk(log) && n == Upto(log, cursor) && q <= n && i < |log| - q
    ensures CursorOf(log[q..][i]) <= cursor <==> i < n - q
  {
    UptoSplits(log, cursor);
    assert log[q..][i] == log[q + i];
  }

  lemma UptoTail(log: seq<Event>, q: nat, cursor: nat)
    requires LogOk(log) && q <= Upto(log, cursor)
    ensures Upto(log, cursor) == q + Upto(log[q..], cursor)
  {
    var tail, n := log[q..], Upto(log, cursor);
    TailOk(log, q);
    forall i | 0 <= i < |tail| ensures CursorOf(tail[i]) <= cursor <==> i < n - q {
      TailSplits(log, q, cursor, n, i);
    }
    UptoIs(tail, cursor, n - q);
  }

  lemma UptoRises(log: seq<Event>, a: nat, b: nat)
    requires LogOk(log) && a <= b
    ensures Upto(log, a) <= Upto(log, b)
  {
    UptoSplits(log, a);
    UptoSplits(log, b);
    var n := Upto(log, b);
    assert n < |log| ==> CursorOf(log[n]) > b;
  }

  /* ---- one life of the process ---- */

  function EventsIn(steps: seq<BatcherRuns.Step>): seq<Event> {
    if steps == [] then []
    else
      var last := steps[|steps| - 1];
      EventsIn(steps[..|steps| - 1]) + if last.Arrives? then [last.event] else []
  }

  lemma {:induction false} ArrivedIsKept(steps: seq<BatcherRuns.Step>)
    ensures Arrived(steps) == Kept(EventsIn(steps))
  {
    if steps != [] {
      var init, last := steps[..|steps| - 1], steps[|steps| - 1];
      ArrivedIsKept(init);
      if last.Arrives? {
        assert (EventsIn(init) + [last.event])[..|EventsIn(init)|] == EventsIn(init);
      } else {
        assert EventsIn(init) + [] == EventsIn(init);
      }
    }
  }

  function Parsed(parse: Replay.Event -> Event, es: seq<Replay.Event>): (r: seq<Event>)
    ensures |r| == |es| && forall i :: 0 <= i < |r| ==> r[i] == parse(es[i])
  {
    seq(|es|, i requires 0 <= i < |es| => parse(es[i]))
  }

  ghost predicate KeepsCursors(parse: Replay.Event -> Event) {
    forall e :: CursorOf(parse(e)) == e.cursor
  }

  /** The connections, the batcher's steps, and what the store does with the batches, from start to stop. */
  datatype Life = Life(attempts: seq<Replay.Attempt>, starts: seq<nat>, steps: seq<BatcherRuns.Step>,
                       states: seq<RollupProofs.Sys>, acts: seq<RollupProofs.Act>, taken: seq<nat>)

  /**
  A life that begins with a stored cursor: the stream resumes after it, the batcher
  takes some of what is delivered, and the store writes some of what is sent.
  */
  ghost predicate IsLife(log: seq<Replay.Event>, parse: Replay.Event -> Event, start: RollupProofs.Sys, life: Life,
                         est: set<Did> -> nat) {
    && Replay.Served(log, life.attempts, life.starts, Some(start.store.jsCursor), true)
    && EventsIn(life.steps) <= Parsed(parse, Replay.Run(life.attempts, Some(start.store.jsCursor), true).delivered)
    && Run(life.steps).Some?
    && IsPipeline(start, Run(life.steps).value.sent, life.states, life.acts, life.taken, est)
  }

  lemma {:induction false} SameUpto(log: seq<Replay.Event>, parse: Replay.Event -> Event, cursor: nat)
    requires KeepsCursors(parse)
    ensures Replay.Upto(log, cursor) == Upto(Parsed(parse, log), cursor)
  {
    if log != [] {
      SameUpto(log[..|log| - 1], parse, cursor);
      assert Parsed(parse, log)[..|log| - 1] == Parsed(parse, log[..|log| - 1]);
    }
  }

  /** What arrives in a life is the log from the stored cursor on, up to somewhere. */
  lemma LifeReads(log: seq<Replay.Event>, parse: Replay.Event -> Event, start: RollupProofs.Sys, life: Life,
                  est: set<Did> -> nat)
    requires Replay.Increasing(log) && KeepsCursors(parse) && IsLife(log, parse, start, life, est)
    ensures var all := Parsed(parse, log); EventsIn(life.steps) <= all[Upto(all, start.store.jsCursor)..]
  {
    var js, all := start.store.jsCursor, Parsed(parse, log);
    Replay.ExactlyOnce(log, life.attempts, life.starts, js);
    SameUpto(log, parse, js);
    var delivered, q := Replay.Run(life.attempts, Some(js), true).delivered, Upto(all, js);
    ParsedPrefix(parse, log, q, delivered);
  }

  lemma ParsedPrefix(parse: Replay.Event -> Event, log: seq<Replay.Event>, q: nat, delivered: seq<Replay.Event>)
    requires q <= |log| && delivered <= log[q..]
    ensures Parsed(parse, delivered) <= Parsed(parse, log)[q..]
  {
    assert delivered == log[q..q + |delivered|];
    assert Parsed(parse, log)[q..q + |delivered|] == Parsed(parse, delivered);
  }

  /** The store holds `base` and exactly the log from position `p` up to its own cursor. */
  ghost predicate HoldsLog(y: RollupProofs.Sys, base: seq<Event>, all: seq<Event>, p: nat, est: set<Did> -> nat) {
    && p <= Upto(all, y.store.jsCursor)
    && Caught(y, base + Kept(all[p..Upto(all, y.store.jsCursor)]), est)
  }

  /** What was held, and the first kept events after it, are what is held up to the new cursor. */
  lemma HeldFurther(base: seq<Event>, all: seq<Event>, p: nat, js: nat, first: seq<Event>)
    requires LogOk(all) && p <= Upto(all, js) && first <= Kept(all[Upto(all, js)..])
    requires LastCursor(base + Kept(all[p..Upto(all, js)])) == js
    ensures var js' := LastCursor(base + Kept(all[p..Upto(all, js)]) + first);
            && p <= Upto(all, js')
            && base + Kept(all[p..Upto(all, js)]) + first == base + Kept(all[p..Upto(all, js')])
  {
    if first == [] {
      NothingMore(base + Kept(all[p..Upto(all, js)]));
    } else {
      LastOfJoin(base + Kept(all[p..Upto(all, js)]), first);
      SomethingHeld(base, all, p, js, first);
    }
  }

  lemma SomethingHeld(base: seq<Event>, all: seq<Event>, p: nat, js: nat, first: seq<Event>)
    requires LogOk(all) && p <= Upto(all, js) && first <= Kept(all[Upto(all, js)..]) && first != []
    ensures p <= Upto(all, LastCursor(first))
    ensures base + Kept(all[p..Upto(all, js)]) + first == base + Kept(all[p..Upto(all, LastCursor(first))])
  {
    var q, r := Upto(all, js), Upto(all, LastCursor(first));
    FirstIsNext(all, js, first);
    KeptSlices(all, p, q, r);
    Regroup(base, Kept(all[p..q]), first, base + Kept(all[p..r]));
  }

  /** The first kept events after a cursor are what is kept from there up to the last of them. */
  lemma FirstIsNext(all: seq<Event>, js: nat, first: seq<Event>)
    requires LogOk(all) && first <= Kept(all[Upto(all, js)..]) && first != []
    ensures var q, r := Upto(all, js), Upto(all, LastCursor(first));
            q <= r && Kept(all[q..][..r - q]) == first
  {
    var q := Upto(all, js);
    NewerThanHeld(all, q, js, first);
    UptoRises(all, js, LastCursor(first));
    UptoTail(all, q, LastCursor(first));
    TailOk(all, q);
    KeptUpto(all[q..], first);
  }

  lemma NothingMore<T>(s: seq<T>)
    ensures s + [] == s
  {
  }

  lemma LastOfJoin(a: seq<Event>, b: seq<Event>)
    requires b != []
    ensures LastCursor(a + b) == LastCursor(b)
  {
  }

  lemma KeptSlices(all: seq<Event>, p: nat, q: nat, r: nat)
    requires p <= q <= r <= |all|
    ensures Kept(all[p..r]) == Kept(all[p..q]) + Kept(all[q..][..r - q])
  {
    assert all[p..r] == all[p..q] + all[q..][..r - q];
    KeptJoin(all[p..q], all[q..][..r - q]);
  }

  lemma NewerThanHeld(all: seq<Event>, q: nat, js: nat, first: seq<Event>)
    requires LogOk(all) && q == Upto(all, js) && first <= Kept(all[q..]) && first != []
    ensures js < LastCursor(first)
  {
    var last := first[|first| - 1];
    assert last in Kept(all[q..]);
    KeptFrom(all[q..], last);
    var k :| 0 <= k < |all[q..]| && all[q..][k] == last;
    assert all[q + k] == last;
    UptoSplits(all, js);
  }

  /** The first of the sent batches took some first events of what the log keeps after the stored cursor. */
  lemma TakenFromLog(steps: seq<BatcherRuns.Step>, past: seq<seq<Event>>, now: seq<Event>, k: nat, rest: seq<Event>)
    requires Flatten(past) + now == Arrived(steps) && k <= |past| && EventsIn(steps) <= rest
    ensures Flatten(past) <= Kept(rest) && Flatten(past[..k]) <= Kept(rest)
  {
    ArrivedIsKept(steps);
    var n := |EventsIn(steps)|;
    assert rest == rest[..n] + rest[n..] && rest[..n] == EventsIn(steps);
    KeptJoin(rest[..n], rest[n..]);
    FlattenSplits(past, k);
  }

  /** In every state of a life, the store holds exactly the log up to its own cursor. */
  lemma LifeHolds(log: seq<Replay.Event>, parse: Replay.Event -> Event, base: seq<Event>, p: nat,
                  start: RollupProofs.Sys, life: Life, est: set<Did> -> nat, i: nat)
    requires Replay.Increasing(log) && KeepsCursors(parse) && RollupProofs.SketchOk(est) && LogOk(Parsed(parse, log))
    requires p <= |log| && Increasing(base + Kept(Parsed(parse, log)[p..]))
    requires HoldsLog(start, base, Parsed(parse, log), p, est) && IsLife(log, parse, start, life, est)
    requires i <= |life.acts|
    ensures i < |life.states| && HoldsLog(life.states[i], base, Parsed(parse, log), p, est)
  {
    var all, js := Parsed(parse, log), start.store.jsCursor;
    var q := Upto(all, js);
    var held := base + Kept(all[p..q]);
    LifeReads(log, parse, start, life, est);
    var past, now := RunConserves(life.steps);
    TakenFromLog(life.steps, past, now, 0, all[q..]);
    HeldIncreasing(base, all, p, q, Flatten(past));
    assert AllTake(Run(life.steps).value.sent, past);
    PipelineCatches(start, held, Run(life.steps).value.sent, past, life.states, life.acts, life.taken, est, i);
    var k := life.taken[i];
    TakenFromLog(life.steps, past, now, k, all[q..]);
    HeldFurther(base, all, p, js, Flatten(past[..k]));
  }

  lemma HeldIncreasing(base: seq<Event>, all: seq<Event>, p: nat, q: nat, first: seq<Event>)
    requires p <= q <= |all| && Increasing(base + Kept(all[p..])) && first <= Kept(all[q..])
    ensures Increasing(base + Kept(all[p..q]) + first)
  {
    assert all[p..] == all[p..q] + all[q..];
    KeptJoin(all[p..q], all[q..]);
    var rest := Kept(all[q..])[|first|..];
    FirstAndRest(base, Kept(all[p..q]), first, rest, Kept(all[q..]));
    IncreasingParts(base + Kept(all[p..q]) + first, rest);
  }

  lemma FirstAndRest<T>(base: seq<T>, held: seq<T>, first: seq<T>, rest: seq<T>, next: seq<T>)
    requires first <= next && rest == next[|first|..]
    ensures base + (held + next) == (base + held + first) + rest
  {
    assert next == first + rest;
  }

  /* ---- any number of lives ---- */

  /** A life, and the store it leaves for the next one. */
  ghost predicate Lives(log: seq<Replay.Event>, parse: Replay.Event -> Event, start: RollupProofs.Sys, life: Life,
                        end: RollupProofs.Sys, est: set<Did> -> nat) {
    IsLife(log, parse, start, life, est) && life.states != [] && end == life.states[|life.states| - 1]
  }

  /** Every life starts with the store that the one before it left. */
  ghost predicate IsHistory(log: seq<Replay.Event>, parse: Replay.Event -> Event, starts: seq<RollupProofs.Sys>,
                            lives: seq<Life>, est: set<Did> -> nat) {
    && |starts| == |lives| + 1
    && forall l :: 0 <= l < |lives| ==> Lives(log, parse, starts[l], lives[l], starts[l + 1], est)
  }

  lemma {:induction false} StartHolds(log: seq<Replay.Event>, parse: Replay.Event -> Event, base: seq<Event>, p: nat,
                                      starts: seq<RollupProofs.Sys>, lives: seq<Life>, est: set<Did> -> nat, l: nat)
    requires Replay.Increasing(log) && KeepsCursors(parse) && RollupProofs.SketchOk(est) && LogOk(Parsed(parse, log))
    requires p <= |log| && Increasing(base + Kept(Parsed(parse, log)[p..]))
    requires IsHistory(log, parse, starts, lives, est) && HoldsLog(starts[0], base, Parsed(parse, log), p, est)
    requires l <= |lives|
    ensures HoldsLog(starts[l], base, Parsed(parse, log), p, est)
  {
    if l > 0 {
      StartHolds(log, parse, base, p, starts, lives, est, l - 1);
      assert Lives(log, parse, starts[l - 1], lives[l - 1], starts[l], est);
      EndHolds(log, parse, base, p, starts[l - 1], lives[l - 1], starts[l], est);
    }
  }

  lemma EndHolds(log: seq<Replay.Event>, parse: Replay.Event -> Event, base: seq<Event>, p: nat,
                 start: RollupProofs.Sys, life: Life, end: RollupProofs.Sys, est: set<Did> -> nat)
    requires Replay.Increasing(log) && KeepsCursors(parse) && RollupProofs.SketchOk(est) && LogOk(Parsed(parse, log))
    requires p <= |log| && Increasing(base + Kept(Parsed(parse, log)[p..]))
    requires HoldsLog(start, base, Parsed(parse, log), p, est) && Lives(log, parse, start, life, end, est)
    ensures HoldsLog(end, base, Parsed(parse, log), p, est)
  {
    LifeHolds(log, parse, base, p, start, life, est, |life.acts|);
  }

  lemma HistoryHolds(log: seq<Replay.Event>, parse: Replay.Event -> Event, base: seq<Event>, p: nat,
                     starts: seq<RollupProofs.Sys>, lives: seq<Life>, est: set<Did> -> nat, l: nat, i: nat)
    requires Replay.Increasing(log) && KeepsCursors(parse) && RollupProofs.SketchOk(est) && LogOk(Parsed(parse, log))
    requires p <= |log| && Increasing(base + Kept(Parsed(parse, log)[p..]))
    requires IsHistory(log, parse, starts, lives, est) && HoldsLog(starts[0], base, Parsed(parse, log), p, est)
    requires l < |lives| && i < |lives[l].states|
    ensures HoldsLog(lives[l].states[i], base, Parsed(parse, log), p, est)
  {
    StartHolds(log, parse, base, p, starts, lives, est, l);
    assert Lives(log, parse, starts[l], lives[l], starts[l + 1], est);
    LifeHolds(log, parse, base, p, starts[l], lives[l], est, i);
  }

  /**
  Exactly-once counting across restarts: over any number of lives, whatever
  connections broke and whatever was lost unwritten, the all-time counter and the
  live entries together are the counts of what the store held at first and of every
  commit of the log from there up to the stored cursor.
  */
  lemma CountedAcrossRestarts(log: seq<Replay.Event>, parse: Replay.Event -> Event, base: seq<Event>, p: nat,
                              starts: seq<RollupProofs.Sys>, lives: seq<Life>, est: set<Did> -> nat, l: nat, i: nat,
                              nsid: Nsid)
    requires Replay.Increasing(log) && KeepsCursors(parse) && RollupProofs.SketchOk(est) && LogOk(Parsed(parse, log))
    requires p <= |log| && Increasing(base + Kept(Parsed(parse, log)[p..]))
    requires IsHistory(log, parse, starts, lives, est) && HoldsLog(starts[0], base, Parsed(parse, log), p, est)
    requires l < |lives| && i < |lives[l].states|
    ensures var y, all, k := lives[l].states[i], Parsed(parse, log), AllTime(nsid);
            && p <= Upto(all, y.store.jsCursor)
            && Merge(Rollup.CounterAt(y.store.tables, k), Rollup.TotalOf(y.store.live, k))
               == CountsOf(CommitsOf(base + all[p..Upto(all, y.store.jsCursor)], nsid))
  {
    HistoryHolds(log, parse, base, p, starts, lives, est, l, i);
    var y, all := lives[l].states[i], Parsed(parse, log);
    RollupProofs.NothingLost(y, est, nsid);
    KeptCommits(all[p..Upto(all, y.store.jsCursor)], nsid);
    CommitsJoin(base, all[p..Upto(all, y.store.jsCursor)], nsid);
    CommitsJoin(base, Kept(all[p..Upto(all, y.store.jsCursor)]), nsid);
  }

  lemma {:induction false} KeptCommits(es: seq<Event>, nsid: Nsid)
    ensures CommitsOf(Kept(es), nsid) == CommitsOf(es, nsid)
  {
    if es != [] {
      var n := |es| - 1;
      KeptCommits(es[..n], nsid);
      CommitsJoin(Kept(es[..n]), Accepted(es[n]), nsid);
      AcceptedCommits(es[n], nsid);
    }
  }

  lemma AcceptedCommits(e: Event, nsid: Nsid)
    ensures CommitsOf(Accepted(e), nsid) == if e.Committed? && e.nsid == nsid then [e.commit] else []
  {
    if !e.Other? {
      assert [e][..0] == [];
    }
  }

  /** An empty store that begins at the start of the log holds exactly its own cursor's part of it. */
  lemma EmptyHoldsLog(all: seq<Event>, est: set<Did> -> nat)
    requires LogOk(all) && RollupProofs.SketchOk(est)
    ensures HoldsLog(RollupProofs.START, [], all, 0, est)
  {
    StartCaught(est);
    UptoSplits(all, 0);
    assert all[0..0] == [] && [] + Kept([]) == [];
  }
}
