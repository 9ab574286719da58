/**
When the batcher sends: exactly which events make a batch go out, what is then left
unsent, and where the current batch began.
*/
module BatcherSends {
  import opened Accounts
  import opened Options
  import opened CommitBuffer
  import opened Batcher
  import opened BatcherRuns

  /** The batch has reached the limit that the event runs into. */
  ghost predicate NoRoom(b: EventBatch, e: Event) {
    match e
    case Committed(nsid, _) =>
      if nsid in b.commits
      then |b.commits[nsid].commits| == MAX_BATCHED_RECORDS
           && forall i :: 0 <= i < MAX_BATCHED_RECORDS ==> !IsCreate(b.commits[nsid].commits[i])
      else |b.commits| >= MAX_BATCHED_COLLECTIONS
    case Removed(_) => |b.removes| >= MAX_ACCOUNT_REMOVES
    case Other(_) => false
  }

  /** More than some time after the cursor the current batch began at. */
  predicate Past(s: Batching, e: Event, micros: nat) {
    s.initial.Some? && CursorOf(e) > s.initial.value + micros
  }

  /** The batch went out before the event: only the event is left. */
  ghost predicate SentBefore(s: Batching, t: Batching, e: Event) {
    t.sent == s.sent + [s.current] && Takes(t.current, Accepted(e)) && t.initial == None
  }

  /** The batch went out with the event: nothing is left. */
  ghost predicate SentWith(s: Batching, t: Batching, now: seq<Event>, e: Event) {
    && |t.sent| == |s.sent| + 1 && t.sent[..|s.sent|] == s.sent && Takes(t.sent[|s.sent|], now + Accepted(e))
    && t.current == NO_EVENTS && t.initial == None
  }

  /** Nothing went out. */
  ghost predicate NotSent(s: Batching, t: Batching, now: seq<Event>, e: Event) {
    && t.sent == s.sent && Takes(t.current, now + Accepted(e))
    && t.initial == if s.initial.None? then Some(CursorOf(e)) else s.initial
  }

  /* ---- one event ---- */

  lemma FullIff(b: EventBatch, history: seq<Event>, nsid: Nsid, c: Commit)
    requires Takes(b, history)
    ensures HeadsOk(b) && (InsertCommit(b, nsid, c).0 == BatchFull <==> NoRoom(b, Committed(nsid, c)))
  {
    TakesHeads(b, history);
    if nsid in b.commits {
      assert BufferOk(b.commits, nsid, CommitsOf(history, nsid));
      FullMeansNoCreates(b.commits[nsid], CommitsOf(history, nsid), c, MAX_BATCHED_RECORDS);
    } else {
      EmptyHolds(MAX_BATCHED_RECORDS);
      InsertOutcome(EMPTY, [], c, MAX_BATCHED_RECORDS);
    }
  }

  /** What the event's kind does: it goes into the batch, or finds no room and into a new one. */
  lemma KindSends(s: Batching, now: seq<Event>, e: Event)
    requires Takes(s.current, now)
    ensures HeadsOk(s.current) && HandleKind(s, e).0 == Stored
    ensures var t := HandleKind(s, e).1;
            if NoRoom(s.current, e) then SentBefore(s, t, e)
            else t.sent == s.sent && t.initial == s.initial && Takes(t.current, now + Accepted(e))
  {
    TakesHeads(s.current, now);
    match e
    case Committed(nsid, c) =>
      FullIff(s.current, now, nsid, c);
      InsertTakes(s.current, now, nsid, c);
      InsertEmpty(nsid, c);
    case Removed(r) => RemovalSends(s, now, r);
    case Other(_) => assert now + [] == now;
  }

  lemma RemovalSends(s: Batching, now: seq<Event>, r: Removal)
    requires Takes(s.current, now)
    ensures var t := HandleDeleteAccount(s, r);
            if |s.current.removes| >= MAX_ACCOUNT_REMOVES then SentBefore(s, t, Removed(r))
            else t.sent == s.sent && t.initial == s.initial && Takes(t.current, now + [Removed(r)])
  {
    if |s.current.removes| >= MAX_ACCOUNT_REMOVES {
      NoneTakes();
      RemovalTakes(NO_EVENTS, [], r);
      assert [] + [Removed(r)] == [Removed(r)];
    } else {
      RemovalTakes(s.current, now, r);
    }
  }

  lemma NothingFull(e: Event)
    ensures !NoRoom(NO_EVENTS, e)
  {
  }

  /** What an event does to the batches: the first case that applies. */
  ghost predicate SendsRight(s: Batching, t: Batching, now: seq<Event>, e: Event, queueFree: bool) {
    if Past(s, e, 60_000_000) || NoRoom(s.current, e) then SentBefore(s, t, e)
    else if Past(s, e, 2_000_000) && queueFree then SentWith(s, t, now, e)
    else NotSent(s, t, now, e)
  }

  lemma HandleIs(s: Batching, s1: Batching, e: Event, queueFree: bool)
    requires HeadsOk(s.current) && HeadsOk(s1.current) && s1 == Begin(s, CursorOf(e)) && HandleKind(s1, e).0 == Stored
    requires HandleEvent(s, e, queueFree).Some?
    ensures HandleEvent(s, e, queueFree).value == Finish(HandleKind(s1, e).1, CursorOf(e), queueFree)
  {
  }

  lemma FirstEvent(s: Batching, now: seq<Event>, e: Event, queueFree: bool)
    requires Takes(s.current, now) && HeadsOk(s.current) && HandleEvent(s, e, queueFree).Some? && s.initial.None?
    ensures SendsRight(s, HandleEvent(s, e, queueFree).value, now, e, queueFree)
  {
    var s1 := s.(initial := Some(CursorOf(e)));
    KindSends(s1, now, e);
    HandleIs(s, s1, e, queueFree);
  }

  lemma LateEvent(s: Batching, now: seq<Event>, e: Event, queueFree: bool)
    requires HeadsOk(s.current) && HandleEvent(s, e, queueFree).Some? && Past(s, e, 60_000_000)
    ensures SendsRight(s, HandleEvent(s, e, queueFree).value, now, e, queueFree)
  {
    NoneTakes();
    NothingFull(e);
    KindSends(Send(s), [], e);
    HandleIs(s, Send(s), e, queueFree);
    assert [] + Accepted(e) == Accepted(e);
  }

  lemma LaterEvent(s: Batching, now: seq<Event>, e: Event, queueFree: bool)
    requires Takes(s.current, now) && HeadsOk(s.current) && HandleEvent(s, e, queueFree).Some?
    requires s.initial.Some? && !Past(s, e, 60_000_000)
    ensures SendsRight(s, HandleEvent(s, e, queueFree).value, now, e, queueFree)
  {
    KindSends(s, now, e);
    HandleIs(s, s, e, queueFree);
  }

  /**
  Exactly when the batcher sends, from every state: before the event when the batch
  began more than 60 seconds earlier or has no room for it; with the event when it
  began more than 2 seconds earlier and nothing is queued; otherwise not at all.
  */
  lemma SentWhen(s: Batching, past: seq<seq<Event>>, now: seq<Event>, e: Event, queueFree: bool)
    requires Pieces(s, past, now)
    ensures HeadsOk(s.current)
    ensures HandleEvent(s, e, queueFree).Some? ==>
              SendsRight(s, HandleEvent(s, e, queueFree).value, now, e, queueFree)
  {
    TakesHeads(s.current, now);
    if HandleEvent(s, e, queueFree).Some? {
      if s.initial.None? {
        FirstEvent(s, now, e, queueFree);
      } else if Past(s, e, 60_000_000) {
        LateEvent(s, now, e, queueFree);
      } else {
        LaterEvent(s, now, e, queueFree);
      }
    }
  }

  /* ---- runs ---- */

  lemma RunSnoc(steps: seq<Step>, step: Step)
    requires Run(steps + [step]).Some?
    ensures Run(steps).Some? && HeadsOk(Run(steps).value.current)
    ensures Run(steps + [step]) == match step
            case Idle => Some(NoEvents(Run(steps).value))
            case Arrives(e, queueFree) => HandleEvent(Run(steps).value, e, queueFree)
  {
    assert (steps + [step])[..|steps|] == steps;
  }

  /** The same over every run, with what arrived before the event split into what was sent and what was not. */
  lemma RunSends(steps: seq<Step>, e: Event, queueFree: bool) returns (past: seq<seq<Event>>, now: seq<Event>)
    requires Run(steps + [Arrives(e, queueFree)]).Some?
    ensures Run(steps).Some? && Pieces(Run(steps).value, past, now) && Flatten(past) + now == Arrived(steps)
    ensures SendsRight(Run(steps).value, Run(steps + [Arrives(e, queueFree)]).value, now, e, queueFree)
  {
    RunSnoc(steps, Arrives(e, queueFree));
    past, now := RunConserves(steps);
    SentWhen(Run(steps).value, past, now, e, queueFree);
  }

  /** After idling nothing is unsent, and what was is the batch that went out. */
  lemma IdleSends(steps: seq<Step>)
    requires Run(steps + [Idle]).Some?
    ensures Run(steps).Some?
    ensures var s, t := Run(steps).value, Run(steps + [Idle]).value;
            && t.current == NO_EVENTS
            && t.sent == if s.current == NO_EVENTS then s.sent else s.sent + [s.current]
  {
    RunSnoc(steps, Idle);
  }

  /** The cursor of the first event among some steps. */
  function FirstCursor(steps: seq<Step>): Option<nat> {
    if steps == [] then None
    else if steps[0].Arrives? then Some(CursorOf(steps[0].event))
    else FirstCursor(steps[1..])
  }

  lemma {:induction false} FirstCursorMore(steps: seq<Step>, step: Step)
    ensures FirstCursor(steps + [step]) ==
            if FirstCursor(steps).Some? then FirstCursor(steps)
            else if step.Arrives? then Some(CursorOf(step.event)) else None
  {
    if steps == [] {
      assert (steps + [step])[1..] == [];
    } else {
      assert (steps + [step])[1..] == steps[1..] + [step];
      FirstCursorMore(steps[1..], step);
    }
  }

  /** A step sends one batch and forgets where it began, or sends none and notes its first cursor. */
  lemma StepSends(steps: seq<Step>, step: Step)
    requires Run(steps + [step]).Some?
    ensures Run(steps).Some?
    ensures var s, t := Run(steps).value, Run(steps + [step]).value;
            || (|t.sent| == |s.sent| + 1 && t.initial == None)
            || (|t.sent| == |s.sent| && t.initial ==
                if s.initial.None? && step.Arrives? then Some(CursorOf(step.event)) else s.initial)
  {
    RunSnoc(steps, step);
    if step.Arrives? {
      var past, now := RunSends(steps, step.event, step.queueFree);
    }
  }

  /** Since step `k` no batch was sent; one was sent right before it, unless it is the first. */
  ghost predicate UnsentSince(steps: seq<Step>, k: nat)
    requires Run(steps).Some?
  {
    && k <= |steps| && Run(steps[..k]).Some? && |Run(steps[..k]).value.sent| == |Run(steps).value.sent|
    && (k > 0 ==> Run(steps[..k - 1]).Some? && |Run(steps[..k - 1]).value.sent| < |Run(steps).value.sent|)
  }

  /** Over every run: the current batch began at the first event that arrived since the last one was sent. */
  lemma {:induction false} BeganAt(steps: seq<Step>) returns (k: nat)
    requires Run(steps).Some?
    ensures UnsentSince(steps, k) && Run(steps).value.initial == FirstCursor(steps[k..])
  {
    if steps == [] {
      k := 0;
    } else {
      var init, step := steps[..|steps| - 1], steps[|steps| - 1];
      assert steps == init + [step];
      StepSends(init, step);
      k := BeganAt(init);
      BeganMore(init, step, k);
      if |Run(steps).value.sent| > |Run(init).value.sent| {
        k := |steps|;
        assert steps[k..] == [] && steps[..k] == steps && steps[..k - 1] == init;
      }
    }
  }

  lemma BeganMore(steps: seq<Step>, step: Step, k: nat)
    requires Run(steps).Some? && UnsentSince(steps, k)
    ensures (steps + [step])[..k] == steps[..k] && (k > 0 ==> (steps + [step])[..k - 1] == steps[..k - 1])
    ensures FirstCursor((steps + [step])[k..]) ==
            if FirstCursor(steps[k..]).Some? then FirstCursor(steps[k..])
            else if step.Arrives? then Some(CursorOf(step.event)) else None
  {
    assert (steps + [step])[k..] == steps[k..] + [step];
    FirstCursorMore(steps[k..], step);
  }

  /** Over every run: a batch still held after an event began at most 60 seconds before it, 2 if nothing was queued. */
  lemma HeldSpan(steps: seq<Step>, e: Event, queueFree: bool)
    requires Run(steps + [Arrives(e, queueFree)]).Some?
    ensures var t := Run(steps + [Arrives(e, queueFree)]).value;
            t.initial.Some? ==> CursorOf(e) <= t.initial.value + if queueFree then 2_000_000 else 60_000_000
  {
    var past, now := RunSends(steps, e, queueFree);
  }
}
