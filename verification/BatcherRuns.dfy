/**
The batcher over whole runs: conservation, the limits, and the cursors of the
batches it sends.
*/
module BatcherRuns {
  import opened Accounts
  import opened Options
  import opened CommitBuffer
  import opened Batcher

  datatype Step = Arrives(event: Event, queueFree: bool) | Idle

  const START := Batching([], NO_EVENTS, None)

  /** No state once an event was refused: the batcher then stops. */
  ghost function Run(steps: seq<Step>): Option<Batching> {
    if steps == [] then Some(START)
    else
      var before := Run(steps[..|steps| - 1]);
      if before.None? || !HeadsOk(before.value.current) then None
      else
        match steps[|steps| - 1]
        case Idle => Some(NoEvents(before.value))
        case Arrives(e, queueFree) => HandleEvent(before.value, e, queueFree)
  }

  /** The commits and account removals that arrived. */
  function Arrived(steps: seq<Step>): seq<Event> {
    if steps == [] then []
    else Arrived(steps[..|steps| - 1]) + match steps[|steps| - 1] case Idle => [] case Arrives(e, _) => Accepted(e)
  }

  /* ---- conservation ---- */

  /** Over every run, the sent batches and the current one take consecutive pieces of exactly what arrived. */
  lemma {:induction false} RunConserves(steps: seq<Step>) returns (past: seq<seq<Event>>, now: seq<Event>)
    requires Run(steps).Some?
    ensures Pieces(Run(steps).value, past, now) && Flatten(past) + now == Arrived(steps)
  {
    if steps == [] {
      NoneTakes();
      past, now := [], [];
    } else {
      past, now := RunConserves(steps[..|steps| - 1]);
      var s := Run(steps[..|steps| - 1]).value;
      match steps[|steps| - 1]
      case Arrives(e, queueFree) => past, now := EventPieces(s, past, now, e, queueFree);
      case Idle =>
        if NoEvents(s) != s {
          SendPieces(s, past, now);
          past, now := past + [now], [];
        }
    }
  }

  function StepCursor(step: Step): seq<nat> {
    if step.Idle? then [] else [CursorOf(step.event)]
  }

  ghost function CursorsOf(steps: seq<Step>): seq<nat> {
    if steps == [] then []
    else CursorsOf(steps[..|steps| - 1]) + StepCursor(steps[|steps| - 1])
  }

  ghost predicate NonDecreasing(cursors: seq<nat>) {
    forall i, j :: 0 <= i < j < |cursors| ==> cursors[i] <= cursors[j]
  }

  /** When cursors never go back, no event is refused: the retry succeeds and no clock error occurs. */
  lemma {:induction false} NothingRefused(steps: seq<Step>)
    requires NonDecreasing(CursorsOf(steps))
    ensures Run(steps).Some?
    ensures Run(steps).value.initial.Some? ==> Run(steps).value.initial.value in CursorsOf(steps)
  {
    if steps != [] {
      var init, step := steps[..|steps| - 1], steps[|steps| - 1];
      EarlierBelow(CursorsOf(init), StepCursor(step), CursorsOf(steps));
      NothingRefused(init);
      var past, now := RunConserves(init);
      TakesHeads(Run(init).value.current, now);
      if step.Arrives? {
        assert CursorOf(step.event) in StepCursor(step);
        StepTaken(Run(init).value, past, now, step.event, step.queueFree, CursorsOf(init));
      }
    }
  }

  lemma EarlierBelow(before: seq<nat>, more: seq<nat>, cursors: seq<nat>)
    requires NonDecreasing(cursors) && cursors == before + more
    ensures NonDecreasing(before) && forall x, y :: x in before && y in more ==> x <= y
  {
    assert forall i :: 0 <= i < |before| ==> cursors[i] == before[i];
    forall x, y | x in before && y in more ensures x <= y {
      var i :| 0 <= i < |before| && before[i] == x;
      var j :| 0 <= j < |more| && more[j] == y;
      assert cursors[i] == x && cursors[|before| + j] == y;
    }
  }

  lemma StepTaken(s: Batching, past: seq<seq<Event>>, now: seq<Event>, e: Event, queueFree: bool, before: seq<nat>)
    requires Pieces(s, past, now) && (s.initial.Some? ==> s.initial.value in before)
    requires forall x :: x in before ==> x <= CursorOf(e)
    ensures HeadsOk(s.current) && HandleEvent(s, e, queueFree).Some?
    ensures var i := HandleEvent(s, e, queueFree).value.initial; i.Some? ==> i.value in before + [CursorOf(e)]
  {
    var past', now' := EventPieces(s, past, now, e, queueFree);
    InitialKept(s, e, queueFree);
  }

  lemma InitialKept(s: Batching, e: Event, queueFree: bool)
    requires HeadsOk(s.current) && HandleEvent(s, e, queueFree).Some?
    ensures var i := HandleEvent(s, e, queueFree).value.initial;
            i.None? || i == Some(CursorOf(e)) || i == s.initial
  {
  }

  /** What one collection's buffers, over several batches, add up to. */
  ghost function Tally(batches: seq<EventBatch>, nsid: Nsid): (nat, nat, nat) {
    if batches == [] then (0, 0, 0)
    else
      var (c, u, d) := Tally(batches[..|batches| - 1], nsid);
      var m := batches[|batches| - 1].commits;
      if nsid in m then (c + m[nsid].creates, u + m[nsid].updates, d + m[nsid].deletes) else (c, u, d)
  }

  ghost function Removals(batches: seq<EventBatch>): seq<Removal> {
    if batches == [] then [] else Removals(batches[..|batches| - 1]) + batches[|batches| - 1].removes
  }

  ghost function TallyOf(cs: seq<Commit>): (nat, nat, nat) {
    (|Creates(cs)|, |Updates(cs)|, |Deletes(cs)|)
  }

  lemma {:induction false} CommitsJoin(a: seq<Event>, b: seq<Event>, nsid: Nsid)
    ensures CommitsOf(a + b, nsid) == CommitsOf(a, nsid) + CommitsOf(b, nsid)
  {
    if b == [] {
      assert a + b == a;
    } else {
      var init, last := b[..|b| - 1], b[|b| - 1];
      assert (a + b)[..|a + b| - 1] == a + init;
      CommitsJoin(a, init, nsid);
    }
  }

  lemma {:induction false} RemovalsJoin(a: seq<Event>, b: seq<Event>)
    ensures RemovalsOf(a + b) == RemovalsOf(a) + RemovalsOf(b)
  {
    if b == [] {
      assert a + b == a;
    } else {
      var init, last := b[..|b| - 1], b[|b| - 1];
      assert (a + b)[..|a + b| - 1] == a + init;
      RemovalsJoin(a, init);
    }
  }

  lemma {:induction false} CreatesJoin(a: seq<Commit>, b: seq<Commit>)
    ensures |Creates(a + b)| == |Creates(a)| + |Creates(b)|
  {
    if b == [] {
      assert a + b == a;
    } else {
      assert (a + b)[..|a + b| - 1] == a + b[..|b| - 1];
      CreatesJoin(a, b[..|b| - 1]);
    }
  }

  lemma {:induction false} UpdatesJoin(a: seq<Commit>, b: seq<Commit>)
    ensures |Updates(a + b)| == |Updates(a)| + |Updates(b)|
  {
    if b == [] {
      assert a + b == a;
    } else {
      assert (a + b)[..|a + b| - 1] == a + b[..|b| - 1];
      UpdatesJoin(a, b[..|b| - 1]);
    }
  }

  lemma {:induction false} DeletesJoin(a: seq<Commit>, b: seq<Commit>)
    ensures |Deletes(a + b)| == |Deletes(a)| + |Deletes(b)|
  {
    if b == [] {
      assert a + b == a;
    } else {
      assert (a + b)[..|a + b| - 1] == a + b[..|b| - 1];
      DeletesJoin(a, b[..|b| - 1]);
    }
  }

  lemma TallyJoin(a: seq<Commit>, b: seq<Commit>)
    ensures var (x, y, z) := (TallyOf(a), TallyOf(b), TallyOf(a + b));
            z == (x.0 + y.0, x.1 + y.1, x.2 + y.2)
  {
    CreatesJoin(a, b);
    UpdatesJoin(a, b);
    DeletesJoin(a, b);
  }

  lemma TakesTally(b: EventBatch, history: seq<Event>, nsid: Nsid)
    requires Takes(b, history)
    ensures TallyOf(CommitsOf(history, nsid)) ==
            (if nsid in b.commits
             then (b.commits[nsid].creates, b.commits[nsid].updates, b.commits[nsid].deletes)
             else (0, 0, 0))
  {
    assert BufferOk(b.commits, nsid, CommitsOf(history, nsid));
  }

  ghost predicate AllTake(batches: seq<EventBatch>, past: seq<seq<Event>>) {
    |past| == |batches| && forall i :: 0 <= i < |past| ==> Takes(batches[i], past[i])
  }

  lemma AllTakeInit(batches: seq<EventBatch>, past: seq<seq<Event>>, n: nat)
    requires AllTake(batches, past) && |past| == n + 1
    ensures AllTake(batches[..n], past[..n]) && Takes(batches[n], past[n])
    ensures batches == batches[..n] + [batches[n]]
  {
  }

  lemma {:induction false} SentTally(batches: seq<EventBatch>, past: seq<seq<Event>>, nsid: Nsid)
    requires AllTake(batches, past)
    ensures Tally(batches, nsid) == TallyOf(CommitsOf(Flatten(past), nsid))
    ensures Removals(batches) == RemovalsOf(Flatten(past))
  {
    if past != [] {
      var n := |past| - 1;
      AllTakeInit(batches, past, n);
      SentTally(batches[..n], past[..n], nsid);
      TallyStep(batches[..n], Flatten(past[..n]), batches[n], past[n], nsid);
    }
  }

  lemma TallyStep(batches: seq<EventBatch>, before: seq<Event>, b: EventBatch, piece: seq<Event>, nsid: Nsid)
    requires Takes(b, piece)
    requires Tally(batches, nsid) == TallyOf(CommitsOf(before, nsid)) && Removals(batches) == RemovalsOf(before)
    ensures Tally(batches + [b], nsid) == TallyOf(CommitsOf(before + piece, nsid))
    ensures Removals(batches + [b]) == RemovalsOf(before + piece)
  {
    CommitsJoin(before, piece, nsid);
    RemovalsJoin(before, piece);
    TakesTally(b, piece, nsid);
    TallyAdds(batches, b, nsid, CommitsOf(before, nsid), CommitsOf(piece, nsid));
  }

  lemma TallyAdds(batches: seq<EventBatch>, b: EventBatch, nsid: Nsid, before: seq<Commit>, piece: seq<Commit>)
    requires Tally(batches, nsid) == TallyOf(before)
    requires TallyOf(piece) ==
             (if nsid in b.commits
              then (b.commits[nsid].creates, b.commits[nsid].updates, b.commits[nsid].deletes)
              else (0, 0, 0))
    ensures Tally(batches + [b], nsid) == TallyOf(before + piece)
    ensures Removals(batches + [b]) == Removals(batches) + b.removes
  {
    TallyJoin(before, piece);
    assert (batches + [b])[..|batches|] == batches;
  }

  /**
   * Nothing is lost or counted twice: over all batches, each collection's tallies are exactly
   * those of its commits that arrived, and the removals are exactly those that arrived, in order.
   */
  lemma TalliesConserved(steps: seq<Step>, nsid: Nsid)
    requires Run(steps).Some?
    ensures var s := Run(steps).value;
            && Tally(s.sent + [s.current], nsid) == TallyOf(CommitsOf(Arrived(steps), nsid))
            && Removals(s.sent + [s.current]) == RemovalsOf(Arrived(steps))
  {
    var past, now := RunConserves(steps);
    var s := Run(steps).value;
    var batches, all := s.sent + [s.current], past + [now];
    forall i | 0 <= i < |all| ensures Takes(batches[i], all[i]) {
      if i < |past| {
        assert batches[i] == s.sent[i];
      }
    }
    SentTally(batches, all, nsid);
    assert all[..|past|] == past;
  }

  lemma LimitsRespected(steps: seq<Step>)
    requires Run(steps).Some?
    ensures Limits(Run(steps).value.current)
    ensures forall i :: 0 <= i < |Run(steps).value.sent| ==> Limits(Run(steps).value.sent[i])
  {
    var past, now := RunConserves(steps);
    var s := Run(steps).value;
    forall i | 0 <= i < |s.sent| ensures Limits(s.sent[i]) {
      assert Takes(s.sent[i], past[i]);
    }
  }

  /* ---- cursors ---- */

  ghost predicate Increasing(es: seq<Event>) {
    && (forall i :: 0 <= i < |es| ==> CursorOf(es[i]) > 0 && !es[i].Other?)
    && (forall i, j :: 0 <= i < j < |es| ==> CursorOf(es[i]) < CursorOf(es[j]))
  }

  ghost predicate HasCommit(b: EventBatch, cursor: nat) {
    exists nsid, i ::
      nsid in b.commits && 0 <= i < |b.commits[nsid].commits| && b.commits[nsid].commits[i].cursor == cursor
  }

  /** The greatest of the buffered commits' cursors and the last removal's; none if that is zero. */
  ghost predicate IsLatest(b: EventBatch, r: Option<nat>) {
    var top := if r.Some? then r.value else 0;
    && (r.Some? ==> top > 0)
    && (forall cursor: nat :: HasCommit(b, cursor) ==> cursor <= top)
    && (b.removes != [] ==> b.removes[|b.removes| - 1].cursor <= top)
    && (top > 0 ==> HasCommit(b, top) || (b.removes != [] && b.removes[|b.removes| - 1].cursor == top))
  }

  method LatestCursor(b: EventBatch) returns (r: Option<nat>)
    ensures IsLatest(b, r)
  {
    var latest := 0;
    var todo := b.commits.Keys;
    while todo != {}
      invariant todo <= b.commits.Keys
      invariant forall nsid :: nsid in b.commits && nsid !in todo ==> UpTo(b.commits[nsid].commits, latest)
      invariant latest > 0 ==> HasCommit(b, latest)
    {
      var nsid :| nsid in todo;
      var commits := b.commits[nsid].commits;
      ghost var before := latest;
      for i := 0 to |commits|
        invariant before <= latest && UpTo(commits[..i], latest)
        invariant latest > 0 ==> HasCommit(b, latest)
      {
        if commits[i].cursor > latest {
          latest := commits[i].cursor;
        }
      }
      assert commits[..|commits|] == commits;
      todo := todo - {nsid};
    }
    if b.removes != [] && b.removes[|b.removes| - 1].cursor > latest {
      latest := b.removes[|b.removes| - 1].cursor;
    }
    r := if latest > 0 then Some(latest) else None;
  }

  ghost predicate UpTo(cs: seq<Commit>, top: nat) {
    forall i :: 0 <= i < |cs| ==> cs[i].cursor <= top
  }

  lemma {:induction false} CommitFromHistory(es: seq<Event>, nsid: Nsid, c: Commit)
    requires c in CommitsOf(es, nsid)
    ensures Committed(nsid, c) in es
  {
    if es != [] {
      var init, last := es[..|es| - 1], es[|es| - 1];
      if c in CommitsOf(init, nsid) {
        CommitFromHistory(init, nsid, c);
      }
    }
  }

  lemma {:induction false} RemovalFromHistory(es: seq<Event>, r: Removal)
    requires r in RemovalsOf(es)
    ensures Removed(r) in es
  {
    if es != [] {
      var init, last := es[..|es| - 1], es[|es| - 1];
      if r in RemovalsOf(init) {
        RemovalFromHistory(init, r);
      }
    }
  }

  /** Every buffered commit is one that arrived, displaced or not. */
  lemma BufferedArrived(b: EventBatch, history: seq<Event>, cursor: nat)
    requires Takes(b, history) && HasCommit(b, cursor)
    ensures exists i :: 0 <= i < |history| && CursorOf(history[i]) == cursor
  {
    var nsid, i :| nsid in b.commits && 0 <= i < |b.commits[nsid].commits|
      && b.commits[nsid].commits[i].cursor == cursor;
    var c := b.commits[nsid].commits[i];
    KeptIsAccepted(b, history, nsid, c);
    CommitFromHistory(history, nsid, c);
    var j :| 0 <= j < |history| && history[j] == Committed(nsid, c);
    assert CursorOf(history[j]) == cursor;
  }

  ghost predicate HasRemoval(b: EventBatch, cursor: nat) {
    exists k :: 0 <= k < |b.removes| && b.removes[k].cursor == cursor
  }

  lemma RemovalArrived(b: EventBatch, history: seq<Event>, cursor: nat)
    requires Takes(b, history) && HasRemoval(b, cursor)
    ensures exists i :: 0 <= i < |history| && CursorOf(history[i]) == cursor
  {
    var k :| 0 <= k < |b.removes| && b.removes[k].cursor == cursor;
    RemovalFromHistory(history, b.removes[k]);
    var j :| 0 <= j < |history| && history[j] == Removed(b.removes[k]);
    assert CursorOf(history[j]) == cursor;
  }

  lemma KeptIsAccepted(b: EventBatch, history: seq<Event>, nsid: Nsid, c: Commit)
    requires Takes(b, history) && nsid in b.commits && c in b.commits[nsid].commits
    ensures c in CommitsOf(history, nsid)
  {
    var cs := CommitsOf(history, nsid);
    assert BufferOk(b.commits, nsid, cs);
    assert multiset(b.commits[nsid].commits)[c] > 0;
    assert multiset(cs)[c] > 0;
  }

  lemma LastCommitKept(b: EventBatch, init: seq<Event>, nsid: Nsid, c: Commit)
    requires Takes(b, init + [Committed(nsid, c)])
    ensures HasCommit(b, c.cursor)
  {
    var history := init + [Committed(nsid, c)];
    CommitsSnoc(init, Committed(nsid, c), nsid);
    assert BufferOk(b.commits, nsid, CommitsOf(history, nsid));
    assert CommitsOf(history, nsid)[|CommitsOf(history, nsid)| - 1] == c;
    assert c in b.commits[nsid].commits;
  }

  /** With increasing cursors, the latest cursor is the last accepted event's, whatever was displaced. */
  lemma LatestIsLast(b: EventBatch, history: seq<Event>, r: Option<nat>)
    requires Takes(b, history) && Increasing(history) && IsLatest(b, r)
    ensures r == if history == [] then None else Some(CursorOf(history[|history| - 1]))
  {
    if history != [] {
      var init, last := history[..|history| - 1], history[|history| - 1];
      assert history == init + [last];
      if last.Committed? {
        LastCommitKept(b, init, last.nsid, last.commit);
      } else {
        CommitsSnoc(init, last, "");
      }
      var top := if r.Some? then r.value else 0;
      if HasCommit(b, top) {
        BufferedArrived(b, history, top);
      } else if b.removes != [] {
        RemovalFromHistory(history, b.removes[|b.removes| - 1]);
        assert Removed(b.removes[|b.removes| - 1]) in history;
      }
    } else {
      forall nsid ensures nsid !in b.commits {
        assert BufferOk(b.commits, nsid, CommitsOf(history, nsid));
      }
    }
  }

  lemma {:induction false} InFlatten(past: seq<seq<Event>>, i: nat, x: Event)
    requires i < |past| && x in past[i]
    ensures x in Flatten(past)
  {
    var n := |past| - 1;
    if i < n {
      InFlatten(past[..n], i, x);
    }
  }

  lemma IncreasingParts(a: seq<Event>, b: seq<Event>)
    requires Increasing(a + b)
    ensures Increasing(a) && Increasing(b)
    ensures forall x, y :: x in a && y in b ==> CursorOf(x) < CursorOf(y)
  {
    var all := a + b;
    assert forall i :: 0 <= i < |a| ==> all[i] == a[i];
    assert forall i :: 0 <= i < |b| ==> all[|a| + i] == b[i];
    forall x, y | x in a && y in b ensures CursorOf(x) < CursorOf(y) {
      var i :| 0 <= i < |a| && a[i] == x;
      var j :| 0 <= j < |b| && b[j] == y;
      assert all[i] == x && all[|a| + j] == y;
    }
  }

  lemma {:induction false} PiecesOrdered(past: seq<seq<Event>>, i: nat, j: nat)
    requires i <= j < |past| && Increasing(Flatten(past))
    ensures Increasing(past[i]) && Increasing(past[j])
    ensures i < j ==> forall x, y :: x in past[i] && y in past[j] ==> CursorOf(x) < CursorOf(y)
  {
    var n := |past| - 1;
    IncreasingParts(Flatten(past[..n]), past[n]);
    if j < n {
      PiecesOrdered(past[..n], i, j);
    } else if i < n {
      PiecesOrdered(past[..n], i, i);
      forall x | x in past[i] ensures x in Flatten(past[..n]) {
        InFlatten(past[..n], i, x);
      }
    }
  }

  /**
   * Batches go out in cursor order: every commit in a later batch, displaced slots included, and
   * every removal is newer than an earlier batch's latest cursor and no newer than its own batch's.
   */
  lemma BatchesFollow(steps: seq<Step>, i: nat, j: nat, earlier: nat, later: Option<nat>, cursor: nat)
    requires Run(steps).Some? && Increasing(Arrived(steps))
    requires i < j < |Run(steps).value.sent|
    requires IsLatest(Run(steps).value.sent[i], Some(earlier)) && IsLatest(Run(steps).value.sent[j], later)
    requires HasCommit(Run(steps).value.sent[j], cursor) || HasRemoval(Run(steps).value.sent[j], cursor)
    ensures later.Some? && earlier < cursor <= later.value
  {
    var past, now := RunConserves(steps);
    var s := Run(steps).value;
    IncreasingParts(Flatten(past), now);
    PiecesOrdered(past, i, j);
    LatestIsLast(s.sent[i], past[i], Some(earlier));
    LatestIsLast(s.sent[j], past[j], later);
    if HasCommit(s.sent[j], cursor) {
      BufferedArrived(s.sent[j], past[j], cursor);
    } else {
      RemovalArrived(s.sent[j], past[j], cursor);
    }
    var k :| 0 <= k < |past[j]| && CursorOf(past[j][k]) == cursor;
    assert past[i][|past[i]| - 1] in past[i] && past[j][k] in past[j];
  }

  /** Removals are queued in cursor order. */
  lemma {:induction false} RemovalsRise(es: seq<Event>)
    requires Increasing(es)
    ensures forall i, j :: 0 <= i < j < |RemovalsOf(es)| ==> RemovalsOf(es)[i].cursor < RemovalsOf(es)[j].cursor
  {
    if es != [] {
      var init, last := es[..|es| - 1], es[|es| - 1];
      RemovalsRise(init);
      var rs := RemovalsOf(init);
      forall i | 0 <= i < |rs| ensures rs[i].cursor < CursorOf(last) {
        RemovalFromHistory(init, rs[i]);
        var k :| 0 <= k < |init| && init[k] == Removed(rs[i]);
        assert es[k] == init[k];
      }
    }
  }

  /* ---- no cursor occurs twice in a buffer ---- */

  ghost predicate Rising(cs: seq<Commit>) {
    forall i, j :: 0 <= i < j < |cs| ==> cs[i].cursor < cs[j].cursor
  }

  lemma {:induction false} CommitsRising(es: seq<Event>, nsid: Nsid)
    requires Increasing(es)
    ensures Rising(CommitsOf(es, nsid))
  {
    if es != [] {
      var init, last := es[..|es| - 1], es[|es| - 1];
      CommitsRising(init, nsid);
      var cs := CommitsOf(init, nsid);
      forall i | 0 <= i < |cs| ensures cs[i].cursor < CursorOf(last) {
        CommitFromHistory(init, nsid, cs[i]);
        var k :| 0 <= k < |init| && init[k] == Committed(nsid, cs[i]);
        assert es[k] == init[k];
      }
    }
  }

  lemma {:induction false} RisingOnce(cs: seq<Commit>, c: Commit)
    requires Rising(cs)
    ensures multiset(cs)[c] <= 1
  {
    if cs != [] {
      var n := |cs| - 1;
      RisingOnce(cs[..n], c);
      assert cs == cs[..n] + [cs[n]];
      if c == cs[n] {
        assert c !in cs[..n];
      }
    }
  }

  lemma Twice(cs: seq<Commit>, i: nat, j: nat)
    requires i < j < |cs| && cs[i] == cs[j]
    ensures multiset(cs)[cs[i]] >= 2
  {
    assert cs == cs[..j] + [cs[j]] + cs[j + 1..];
    assert cs[..j][i] == cs[i];
    assert multiset(cs[..j])[cs[i]] >= 1;
  }

  /** Displacement never leaves two commits with one cursor in a buffer. */
  lemma DistinctCursors(b: EventBatch, history: seq<Event>, nsid: Nsid, i: nat, j: nat)
    requires Takes(b, history) && Increasing(history) && nsid in b.commits
    requires i < j < |b.commits[nsid].commits|
    ensures b.commits[nsid].commits[i].cursor != b.commits[nsid].commits[j].cursor
  {
    var cs, kept := CommitsOf(history, nsid), b.commits[nsid].commits;
    CommitsRising(history, nsid);
    KeptIsAccepted(b, history, nsid, kept[i]);
    KeptIsAccepted(b, history, nsid, kept[j]);
    var p :| 0 <= p < |cs| && cs[p] == kept[i];
    var q :| 0 <= q < |cs| && cs[q] == kept[j];
    assert BufferOk(b.commits, nsid, cs);
    assert multiset(kept) <= multiset(cs);
    RisingOnce(cs, kept[i]);
    if p == q {
      Twice(kept, i, j);
    }
  }
}
