/**
Batching events for the store: commits per collection and account removals are
gathered in a current batch, which is sent on when it is full or old enough.
*/
module Batcher {
  import opened Accounts
  import opened Options
  import opened CommitBuffer

  type Nsid = string

  datatype EventBatch = EventBatch(commits: map<Nsid, Buffer>, removes: seq<Removal>)

  const NO_EVENTS := EventBatch(map[], [])

  /** What the stream brings: other kinds (identity, account activation) only have a cursor here. */
  datatype Event = Committed(nsid: Nsid, commit: Commit) | Removed(removal: Removal) | Other(at: nat)

  function CursorOf(e: Event): nat {
    match e
    case Committed(_, c) => c.cursor
    case Removed(r) => r.cursor
    case Other(at) => at
  }

  datatype Batching = Batching(sent: seq<EventBatch>, current: EventBatch, initial: Option<nat>)

  const MAX_BATCHED_RECORDS: nat := 128
  const MAX_ACCOUNT_REMOVES: nat := 1024
  const MAX_BATCHED_COLLECTIONS: nat := 64
  const MIN_BATCH_SPAN_MICROS: nat := 2_000_000
  const MAX_BATCH_SPAN_MICROS: nat := 60_000_000

  /* ---- operations ---- */

  predicate HeadsOk(b: EventBatch) {
    forall nsid :: nsid in b.commits ==> b.commits[nsid].head <= MAX_BATCHED_RECORDS
  }

  function InsertCommit(b: EventBatch, nsid: Nsid, c: Commit): (Outcome, EventBatch)
    requires HeadsOk(b)
  {
    if nsid !in b.commits && |b.commits| >= MAX_BATCHED_COLLECTIONS then (BatchFull, b)
    else
      var (outcome, buffer) := Insert(if nsid in b.commits then b.commits[nsid] else EMPTY, c, MAX_BATCHED_RECORDS);
      (outcome, b.(commits := b.commits[nsid := buffer]))
  }

  function Send(s: Batching): Batching {
    Batching(s.sent + [s.current], NO_EVENTS, None)
  }

  /** A batch that is full is sent, and the commit tried once more. */
  function HandleCommit(s: Batching, nsid: Nsid, c: Commit): (Outcome, Batching)
    requires HeadsOk(s.current)
  {
    var (outcome, batch) := InsertCommit(s.current, nsid, c);
    if outcome == BatchFull then
      var s' := Send(s.(current := batch));
      var (again, batch') := InsertCommit(s'.current, nsid, c);
      (again, s'.(current := batch'))
    else (outcome, s.(current := batch))
  }

  function HandleDeleteAccount(s: Batching, r: Removal): Batching {
    var s' := if |s.current.removes| >= MAX_ACCOUNT_REMOVES then Send(s) else s;
    s'.(current := s'.current.(removes := s'.current.removes + [r]))
  }

  function HandleKind(s: Batching, e: Event): (Outcome, Batching)
    requires HeadsOk(s.current)
  {
    match e
    case Committed(nsid, c) => HandleCommit(s, nsid, c)
    case Removed(r) => (Stored, HandleDeleteAccount(s, r))
    case Other(_) => (Stored, s)
  }

  /** Before the event: send a batch that began too long ago, or note when this one begins. */
  function Begin(s: Batching, cursor: nat): Batching {
    match s.initial
    case None => s.(initial := Some(cursor))
    case Some(earliest) => if cursor > earliest + MAX_BATCH_SPAN_MICROS then Send(s) else s
  }

  /** After the event: send early when nothing is queued. */
  function Finish(s: Batching, cursor: nat, queueFree: bool): Batching {
    if s.initial.Some? && cursor > s.initial.value + MIN_BATCH_SPAN_MICROS && queueFree then Send(s) else s
  }

  /** The whole handler; no result when a cursor precedes the batch's first one, or the buffer fails. */
  function HandleEvent(s: Batching, e: Event, queueFree: bool): Option<Batching>
    requires HeadsOk(s.current)
  {
    if s.initial.Some? && CursorOf(e) < s.initial.value then None
    else
      var (outcome, s') := HandleKind(Begin(s, CursorOf(e)), e);
      if outcome.Stored? then Some(Finish(s', CursorOf(e), queueFree)) else None
  }

  function NoEvents(s: Batching): Batching {
    if s.current.commits == map[] && s.current.removes == [] then s else Send(s)
  }

  /* ---- what a batch says about the events it took ---- */

  function CommitsOf(es: seq<Event>, nsid: Nsid): seq<Commit> {
    if es == [] then []
    else
      var last := es[|es| - 1];
      CommitsOf(es[..|es| - 1], nsid) + if last.Committed? && last.nsid == nsid then [last.commit] else []
  }

  function RemovalsOf(es: seq<Event>): seq<Removal> {
    if es == [] then []
    else
      var last := es[|es| - 1];
      RemovalsOf(es[..|es| - 1]) + if last.Removed? then [last.removal] else []
  }

  /** Each collection's buffer speaks for that collection's commits. */
  ghost predicate Buffers(m: map<Nsid, Buffer>, history: seq<Event>) {
    forall nsid :: BufferOk(m, nsid, CommitsOf(history, nsid))
  }

  ghost predicate BufferOk(m: map<Nsid, Buffer>, nsid: Nsid, commits: seq<Commit>) {
    && (nsid in m <==> commits != [])
    && (nsid in m ==> Holds(m[nsid], commits, MAX_BATCHED_RECORDS))
  }

  ghost predicate Limits(b: EventBatch) {
    && |b.commits| <= MAX_BATCHED_COLLECTIONS && |b.removes| <= MAX_ACCOUNT_REMOVES
    && forall nsid :: nsid in b.commits ==> |b.commits[nsid].commits| <= MAX_BATCHED_RECORDS
  }

  ghost predicate Takes(b: EventBatch, history: seq<Event>) {
    Buffers(b.commits, history) && b.removes == RemovalsOf(history) && Limits(b)
  }

  /** The sent batches and the current one take consecutive pieces of what was accepted. */
  ghost predicate Pieces(s: Batching, past: seq<seq<Event>>, now: seq<Event>) {
    && |past| == |s.sent|
    && (forall i :: 0 <= i < |past| ==> Takes(s.sent[i], past[i]))
    && Takes(s.current, now)
  }

  function Flatten(past: seq<seq<Event>>): seq<Event> {
    if past == [] then [] else Flatten(past[..|past| - 1]) + past[|past| - 1]
  }

  /* ---- one commit ---- */

  lemma CommitsSnoc(es: seq<Event>, e: Event, nsid: Nsid)
    ensures CommitsOf(es + [e], nsid) == CommitsOf(es, nsid) + if e.Committed? && e.nsid == nsid then [e.commit] else []
    ensures RemovalsOf(es + [e]) == RemovalsOf(es) + if e.Removed? then [e.removal] else []
  {
    assert (es + [e])[..|es|] == es;
  }

  lemma TakesHeads(b: EventBatch, history: seq<Event>)
    requires Takes(b, history)
    ensures HeadsOk(b)
  {
    forall nsid | nsid in b.commits ensures b.commits[nsid].head <= MAX_BATCHED_RECORDS {
      assert BufferOk(b.commits, nsid, CommitsOf(history, nsid));
    }
  }

  /** The buffer a commit goes to, known or new, speaks for that collection's commits so far. */
  lemma BufferFor(b: EventBatch, history: seq<Event>, nsid: Nsid) returns (buffer: Buffer)
    requires Takes(b, history)
    ensures buffer == (if nsid in b.commits then b.commits[nsid] else EMPTY)
    ensures Holds(buffer, CommitsOf(history, nsid), MAX_BATCHED_RECORDS)
  {
    assert BufferOk(b.commits, nsid, CommitsOf(history, nsid));
    EmptyHolds(MAX_BATCHED_RECORDS);
    buffer := if nsid in b.commits then b.commits[nsid] else EMPTY;
  }

  lemma BufferOkMore(m: map<Nsid, Buffer>, nsid: Nsid, buffer: Buffer, n: Nsid, cs: seq<Commit>)
    requires BufferOk(m, n, cs) && n != nsid
    ensures BufferOk(m[nsid := buffer], n, cs)
  {
  }

  lemma BuffersMore(m: map<Nsid, Buffer>, before: seq<Event>, after: seq<Event>, nsid: Nsid, buffer: Buffer)
    requires Buffers(m, before) && BufferOk(m[nsid := buffer], nsid, CommitsOf(after, nsid))
    requires forall n :: n != nsid ==> CommitsOf(after, n) == CommitsOf(before, n)
    ensures Buffers(m[nsid := buffer], after)
  {
    forall n ensures BufferOk(m[nsid := buffer], n, CommitsOf(after, n)) {
      if n != nsid {
        BufferOkMore(m, nsid, buffer, n, CommitsOf(before, n));
      }
    }
  }

  lemma LimitsMore(b: EventBatch, nsid: Nsid, buffer: Buffer)
    requires Limits(b) && (nsid in b.commits || |b.commits| < MAX_BATCHED_COLLECTIONS)
    requires |buffer.commits| <= MAX_BATCHED_RECORDS
    ensures Limits(b.(commits := b.commits[nsid := buffer]))
  {
    var m := b.commits[nsid := buffer];
    assert m.Keys == b.commits.Keys + {nsid};
  }

  /** A commit is taken, or the batch is full and left as it was. */
  lemma InsertTakes(b: EventBatch, history: seq<Event>, nsid: Nsid, c: Commit)
    requires Takes(b, history)
    ensures HeadsOk(b)
    ensures InsertCommit(b, nsid, c).0 == BatchFull ==> InsertCommit(b, nsid, c).1 == b && b.commits != map[]
    ensures InsertCommit(b, nsid, c).0 != BatchFull ==>
              InsertCommit(b, nsid, c).0 == Stored && Takes(InsertCommit(b, nsid, c).1, history + [Committed(nsid, c)])
  {
    TakesHeads(b, history);
    if nsid in b.commits || |b.commits| < MAX_BATCHED_COLLECTIONS {
      var buffer, after := BufferAfter(b, history, nsid, c);
      if buffer.updates + buffer.deletes == MAX_BATCHED_RECORDS {
        FullSame(b, nsid, c, buffer);
      } else {
        StoredTakes(b, history, nsid, c, after);
      }
    }
  }

  lemma BufferAfter(b: EventBatch, history: seq<Event>, nsid: Nsid, c: Commit) returns (buffer: Buffer, after: Buffer)
    requires Takes(b, history)
    ensures buffer == (if nsid in b.commits then b.commits[nsid] else EMPTY) && buffer.head <= MAX_BATCHED_RECORDS
    ensures Insert(buffer, c, MAX_BATCHED_RECORDS) ==
            (if buffer.updates + buffer.deletes == MAX_BATCHED_RECORDS then (BatchFull, buffer) else (Stored, after))
    ensures buffer.updates + buffer.deletes != MAX_BATCHED_RECORDS ==>
              Holds(after, CommitsOf(history, nsid) + [c], MAX_BATCHED_RECORDS)
  {
    buffer := BufferFor(b, history, nsid);
    InsertOutcome(buffer, CommitsOf(history, nsid), c, MAX_BATCHED_RECORDS);
    after := Insert(buffer, c, MAX_BATCHED_RECORDS).1;
    if buffer.updates + buffer.deletes != MAX_BATCHED_RECORDS {
      InsertHolds(buffer, CommitsOf(history, nsid), c, MAX_BATCHED_RECORDS);
    }
  }

  lemma FullSame(b: EventBatch, nsid: Nsid, c: Commit, buffer: Buffer)
    requires buffer == (if nsid in b.commits then b.commits[nsid] else EMPTY)
    requires buffer.updates + buffer.deletes == MAX_BATCHED_RECORDS
    ensures nsid in b.commits && b.commits[nsid := buffer] == b.commits
  {
  }

  lemma StoredTakes(b: EventBatch, history: seq<Event>, nsid: Nsid, c: Commit, buffer: Buffer)
    requires Takes(b, history) && (nsid in b.commits || |b.commits| < MAX_BATCHED_COLLECTIONS)
    requires Holds(buffer, CommitsOf(history, nsid) + [c], MAX_BATCHED_RECORDS)
    ensures Takes(b.(commits := b.commits[nsid := buffer]), history + [Committed(nsid, c)])
  {
    var e := Committed(nsid, c);
    forall n ensures CommitsOf(history + [e], n) == CommitsOf(history, n) + if n == nsid then [c] else [] {
      CommitsSnoc(history, e, n);
    }
    BuffersMore(b.commits, history, history + [e], nsid, buffer);
    HoldsLimit(buffer, CommitsOf(history, nsid) + [c]);
    LimitsMore(b, nsid, buffer);
    CommitsSnoc(history, e, nsid);
  }

  lemma HoldsLimit(buffer: Buffer, history: seq<Commit>)
    requires Holds(buffer, history, MAX_BATCHED_RECORDS)
    ensures |buffer.commits| <= MAX_BATCHED_RECORDS
  {
  }

  lemma NoneTakes()
    ensures Takes(NO_EVENTS, [])
  {
  }

  /* ---- one event ---- */

  lemma SendPieces(s: Batching, past: seq<seq<Event>>, now: seq<Event>)
    requires Pieces(s, past, now)
    ensures Pieces(Send(s), past + [now], []) && Flatten(past + [now]) + [] == Flatten(past) + now
  {
    NoneTakes();
    assert (past + [now])[..|past|] == past;
  }

  lemma PiecesMore(s: Batching, past: seq<seq<Event>>, now: seq<Event>, current: EventBatch, now': seq<Event>)
    requires Pieces(s, past, now) && Takes(current, now')
    ensures Pieces(s.(current := current), past, now')
  {
  }

  /** An empty batch takes any commit. */
  lemma InsertEmpty(nsid: Nsid, c: Commit)
    ensures InsertCommit(NO_EVENTS, nsid, c).0 == Stored
    ensures Takes(InsertCommit(NO_EVENTS, nsid, c).1, [Committed(nsid, c)])
  {
    NoneTakes();
    InsertTakes(NO_EVENTS, [], nsid, c);
    assert [] + [Committed(nsid, c)] == [Committed(nsid, c)];
  }

  /** The retry after a full batch always succeeds. */
  lemma CommitPieces(s: Batching, past: seq<seq<Event>>, now: seq<Event>, nsid: Nsid, c: Commit)
    returns (past': seq<seq<Event>>, now': seq<Event>)
    requires Pieces(s, past, now)
    ensures HeadsOk(s.current) && HandleCommit(s, nsid, c).0 == Stored
    ensures Pieces(HandleCommit(s, nsid, c).1, past', now')
    ensures Flatten(past') + now' == Flatten(past) + now + [Committed(nsid, c)]
  {
    InsertTakes(s.current, now, nsid, c);
    if InsertCommit(s.current, nsid, c).0 == BatchFull {
      SendPieces(s, past, now);
      InsertEmpty(nsid, c);
      past', now' := past + [now], [Committed(nsid, c)];
      PiecesMore(Send(s), past', [], InsertCommit(NO_EVENTS, nsid, c).1, now');
    } else {
      past', now' := past, now + [Committed(nsid, c)];
      PiecesMore(s, past, now, InsertCommit(s.current, nsid, c).1, now');
    }
  }

  lemma RemovalTakes(b: EventBatch, history: seq<Event>, r: Removal)
    requires Takes(b, history) && |b.removes| < MAX_ACCOUNT_REMOVES
    ensures Takes(b.(removes := b.removes + [r]), history + [Removed(r)])
  {
    forall n ensures CommitsOf(history + [Removed(r)], n) == CommitsOf(history, n) {
      CommitsSnoc(history, Removed(r), n);
    }
    CommitsSnoc(history, Removed(r), "");
  }

  lemma RemovalPieces(s: Batching, past: seq<seq<Event>>, now: seq<Event>, r: Removal)
    returns (past': seq<seq<Event>>, now': seq<Event>)
    requires Pieces(s, past, now)
    ensures Pieces(HandleDeleteAccount(s, r), past', now')
    ensures Flatten(past') + now' == Flatten(past) + now + [Removed(r)]
  {
    if |s.current.removes| >= MAX_ACCOUNT_REMOVES {
      SendPieces(s, past, now);
      RemovalTakes(NO_EVENTS, [], r);
      past', now' := past + [now], [] + [Removed(r)];
    } else {
      RemovalTakes(s.current, now, r);
      past', now' := past, now + [Removed(r)];
    }
  }

  /** The events that leave something in a batch. */
  function Accepted(e: Event): seq<Event> {
    if e.Other? then [] else [e]
  }

  lemma KindPieces(s: Batching, past: seq<seq<Event>>, now: seq<Event>, e: Event)
    returns (past': seq<seq<Event>>, now': seq<Event>)
    requires Pieces(s, past, now)
    ensures HeadsOk(s.current) && HandleKind(s, e).0 == Stored && Pieces(HandleKind(s, e).1, past', now')
    ensures Flatten(past') + now' == Flatten(past) + now + Accepted(e)
  {
    TakesHeads(s.current, now);
    match e
    case Committed(nsid, c) => past', now' := CommitPieces(s, past, now, nsid, c);
    case Removed(r) => past', now' := RemovalPieces(s, past, now, r);
    case Other(_) => past', now' := past, now;
  }

  /** An event is accepted unless its cursor precedes the first one of the current batch. */
  lemma EventPieces(s: Batching, past: seq<seq<Event>>, now: seq<Event>, e: Event, queueFree: bool)
    returns (past': seq<seq<Event>>, now': seq<Event>)
    requires Pieces(s, past, now)
    ensures HeadsOk(s.current)
    ensures HandleEvent(s, e, queueFree).None? <==> s.initial.Some? && CursorOf(e) < s.initial.value
    ensures HandleEvent(s, e, queueFree).Some? ==>
              && Pieces(HandleEvent(s, e, queueFree).value, past', now')
              && Flatten(past') + now' == Flatten(past) + now + Accepted(e)
  {
    TakesHeads(s.current, now);
    past', now' := past, now;
    var s1 := Begin(s, CursorOf(e));
    if s1 == Send(s) {
      SendPieces(s, past, now);
      past', now' := past + [now], [];
    }
    past', now' := KindPieces(s1, past', now', e);
    var s2 := HandleKind(s1, e).1;
    if Finish(s2, CursorOf(e), queueFree) != s2 {
      SendPieces(s2, past', now');
      past', now' := past' + [now'], [];
    }
  }
}
