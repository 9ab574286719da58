/**
When the reconnect loop ends and what it delivers until then, read off the attempts
and their messages: a refused or broken connection is tried again.
*/
module Reconnects {
  import opened Options
  import opened Replay

  /* ---- one connection ---- */

  /** A message brings an event newer than the cursor and than every event before it. */
  ghost predicate IsFresh(messages: seq<Message>, last: Option<nat>, i: nat) {
    && i < |messages| && messages[i].Good?
    && (last.Some? ==>
          && last.value < messages[i].event.cursor
          && forall j :: 0 <= j < i && messages[j].Good? ==> messages[j].event.cursor < messages[i].event.cursor)
  }

  ghost function FreshEvents(messages: seq<Message>, last: Option<nat>): seq<Event> {
    if messages == [] then []
    else
      var n := |messages| - 1;
      FreshEvents(messages[..n], last) + if IsFresh(messages, last, n) then [messages[n].event] else []
  }

  /** The newest cursor there has been, if cursors are tracked. */
  function Top(messages: seq<Message>, last: Option<nat>): Option<nat> {
    if messages == [] || last.None? then last
    else
      var (top, m) := (Top(messages[..|messages| - 1], last), messages[|messages| - 1]);
      if m.Good? && top.Some? && m.event.cursor > top.value then Some(m.event.cursor) else top
  }

  lemma {:induction false} TopIs(messages: seq<Message>, last: Option<nat>, cursor: nat)
    ensures Top(messages, last).Some? <==> last.Some?
    ensures last.Some? ==>
              (Top(messages, last).value < cursor <==>
               && last.value < cursor
               && forall j :: 0 <= j < |messages| && messages[j].Good? ==> messages[j].event.cursor < cursor)
  {
    if messages != [] {
      var n := |messages| - 1;
      TopIs(messages[..n], last, cursor);
      assert forall j :: 0 <= j < n ==> messages[..n][j] == messages[j];
    }
  }

  lemma FreshIff(messages: seq<Message>, last: Option<nat>, n: nat)
    requires n < |messages|
    ensures IsFresh(messages, last, n) <==> messages[n].Good? && !Old(messages[n].event, Top(messages[..n], last))
  {
    if messages[n].Good? {
      TopIs(messages[..n], last, messages[n].event.cursor);
      assert forall j :: 0 <= j < n ==> messages[..n][j] == messages[j];
    }
  }

  /** The receiver is gone before all fresh events are passed on. */
  ghost predicate Closes(messages: seq<Message>, last: Option<nat>, accepts: Option<nat>) {
    accepts.Some? && accepts.value < |FreshEvents(messages, last)|
  }

  /** One connection passes on the fresh events, as many as the receiver takes. */
  lemma {:induction false} ReceiveIs(messages: seq<Message>, last: Option<nat>, accepts: Option<nat>)
    ensures var got, all := Receive(messages, last, accepts), FreshEvents(messages, last);
            && (got.closed <==> Closes(messages, last, accepts))
            && got.events == (if Closes(messages, last, accepts) then all[..accepts.value] else all)
            && (!got.closed ==> got.last == Top(messages, last))
  {
    if messages != [] {
      var n := |messages| - 1;
      ReceiveIs(messages[..n], last, accepts);
      FreshIff(messages, last, n);
    }
  }

  /* ---- all attempts ---- */

  function MessagesOf(a: Attempt): seq<Message> {
    if a.Session? then a.messages else []
  }

  function AllMessages(attempts: seq<Attempt>): seq<Message> {
    if attempts == [] then []
    else AllMessages(attempts[..|attempts| - 1]) + MessagesOf(attempts[|attempts| - 1])
  }

  /** The cursor attempt `k` connects with: the newest so far with replay, none without. */
  function CursorFor(attempts: seq<Attempt>, k: nat, cursor: Option<nat>, replay: bool): Option<nat>
    requires k <= |attempts|
  {
    if k == 0 then cursor else if replay then Top(AllMessages(attempts[..k]), cursor) else None
  }

  predicate Failing(a: Attempt) {
    a.Refused? || !a.longLived
  }

  /** Some 300 attempts in a row were refused or short-lived. */
  ghost predicate GivesUp(attempts: seq<Attempt>) {
    exists k :: MAX_RETRIES <= k <= |attempts| && LastFail(attempts, k)
  }

  ghost predicate LastFail(attempts: seq<Attempt>, k: nat)
    requires MAX_RETRIES <= k <= |attempts|
  {
    forall j :: k - MAX_RETRIES <= j < k ==> Failing(attempts[j])
  }

  /** Attempt `k` finds its receiver closed. */
  ghost predicate ClosedAt(attempts: seq<Attempt>, k: nat, cursor: Option<nat>, replay: bool) {
    && k < |attempts| && attempts[k].Session?
    && Closes(attempts[k].messages, CursorFor(attempts, k, cursor, replay), attempts[k].accepts)
  }

  ghost predicate Stops(attempts: seq<Attempt>, cursor: Option<nat>, replay: bool) {
    GivesUp(attempts) || exists k: nat :: ClosedAt(attempts, k, cursor, replay)
  }

  function Trailing(attempts: seq<Attempt>): (n: nat)
    ensures n <= |attempts|
  {
    if attempts == [] || !Failing(attempts[|attempts| - 1]) then 0 else Trailing(attempts[..|attempts| - 1]) + 1
  }

  lemma {:induction false} TrailingFail(attempts: seq<Attempt>)
    ensures forall j :: |attempts| - Trailing(attempts) <= j < |attempts| ==> Failing(attempts[j])
    ensures Trailing(attempts) < |attempts| ==> !Failing(attempts[|attempts| - Trailing(attempts) - 1])
  {
    if attempts != [] && Failing(attempts[|attempts| - 1]) {
      TrailingFail(attempts[..|attempts| - 1]);
    }
  }

  lemma GivesUpMore(attempts: seq<Attempt>, a: Attempt)
    ensures GivesUp(attempts + [a]) <==> GivesUp(attempts) || Trailing(attempts + [a]) >= MAX_RETRIES
  {
    var more := attempts + [a];
    assert forall j :: 0 <= j < |attempts| ==> more[j] == attempts[j];
    TrailingFail(more);
    if GivesUp(attempts) {
      var k :| MAX_RETRIES <= k <= |attempts| && LastFail(attempts, k);
      assert LastFail(more, k);
    }
    if Trailing(more) >= MAX_RETRIES {
      assert LastFail(more, |more|);
    }
    if GivesUp(more) {
      var k :| MAX_RETRIES <= k <= |more| && LastFail(more, k);
      if k <= |attempts| {
        assert LastFail(attempts, k);
      }
    }
  }

  lemma CursorForMore(attempts: seq<Attempt>, a: Attempt, k: nat, cursor: Option<nat>, replay: bool)
    requires k <= |attempts|
    ensures CursorFor(attempts + [a], k, cursor, replay) == CursorFor(attempts, k, cursor, replay)
  {
    assert (attempts + [a])[..k] == attempts[..k];
  }

  lemma StopsMore(attempts: seq<Attempt>, a: Attempt, cursor: Option<nat>, replay: bool)
    ensures Stops(attempts + [a], cursor, replay) <==>
            || Stops(attempts, cursor, replay)
            || Trailing(attempts + [a]) >= MAX_RETRIES
            || ClosedAt(attempts + [a], |attempts|, cursor, replay)
  {
    var more := attempts + [a];
    GivesUpMore(attempts, a);
    forall k: nat | k < |attempts|
      ensures ClosedAt(more, k, cursor, replay) <==> ClosedAt(attempts, k, cursor, replay)
    {
      CursorForMore(attempts, a, k, cursor, replay);
    }
  }

  /* ---- the loop ---- */

  /** What attempts pass on as long as the loop goes on. */
  ghost function Passed(attempts: seq<Attempt>, cursor: Option<nat>, replay: bool): seq<Event> {
    if attempts == [] then []
    else
      var n := |attempts| - 1;
      Passed(attempts[..n], cursor, replay) +
      FreshEvents(MessagesOf(attempts[n]), CursorFor(attempts, n, cursor, replay))
  }

  /** The loop goes on: it has lost no event and connects next with the cursor it should. */
  ghost predicate GoesOn(c: Client, attempts: seq<Attempt>, cursor: Option<nat>, replay: bool) {
    && c.retries == Trailing(attempts) < MAX_RETRIES
    && c.cursor == CursorFor(attempts, |attempts|, cursor, replay)
    && c.delivered == Passed(attempts, cursor, replay)
  }

  /**
  Over every run, the loop has ended if and only if some receiver was found closed or
  300 attempts in a row were refused or short-lived; until then it has passed on
  exactly the fresh events of all its connections.
  */
  lemma {:induction false} EndsIff(attempts: seq<Attempt>, cursor: Option<nat>, replay: bool)
    ensures Run(attempts, cursor, replay).done <==> Stops(attempts, cursor, replay)
    ensures !Stops(attempts, cursor, replay) ==> GoesOn(Run(attempts, cursor, replay), attempts, cursor, replay)
  {
    if attempts != [] {
      var init, a := attempts[..|attempts| - 1], attempts[|attempts| - 1];
      assert attempts == init + [a];
      EndsIff(init, cursor, replay);
      StopsMore(init, a, cursor, replay);
      if !Stops(init, cursor, replay) {
        NextEnds(Run(init, cursor, replay), init, a, cursor, replay);
      }
    }
  }

  lemma NextEnds(c: Client, attempts: seq<Attempt>, a: Attempt, cursor: Option<nat>, replay: bool)
    requires !c.done && GoesOn(c, attempts, cursor, replay)
    ensures var more := attempts + [a];
            && (Reconnect(c, a, replay).done <==>
                  Trailing(more) >= MAX_RETRIES || ClosedAt(more, |attempts|, cursor, replay))
            && (!Reconnect(c, a, replay).done ==> GoesOn(Reconnect(c, a, replay), more, cursor, replay))
  {
    OneMore(attempts, a, cursor, replay);
    NextCursor(attempts, a, cursor, replay);
    if a.Session? {
      ReceiveIs(a.messages, c.cursor, a.accepts);
    } else {
      NothingReceived(c);
    }
  }

  lemma OneMore(attempts: seq<Attempt>, a: Attempt, cursor: Option<nat>, replay: bool)
    ensures var more, last := attempts + [a], CursorFor(attempts, |attempts|, cursor, replay);
            && Trailing(more) == (if Failing(a) then Trailing(attempts) + 1 else 0)
            && CursorFor(more, |attempts|, cursor, replay) == last
            && Passed(more, cursor, replay) == Passed(attempts, cursor, replay) + FreshEvents(MessagesOf(a), last)
  {
    assert (attempts + [a])[..|attempts|] == attempts;
    CursorForMore(attempts, a, |attempts|, cursor, replay);
  }

  lemma NothingReceived(c: Client)
    ensures c.delivered + FreshEvents([], c.cursor) == c.delivered && Top([], c.cursor) == c.cursor
  {
  }

  lemma {:induction false} TopJoin(a: seq<Message>, b: seq<Message>, last: Option<nat>)
    ensures Top(a + b, last) == Top(b, Top(a, last))
  {
    TopIs(a, last, 0);
    if b == [] {
      assert a + b == a;
    } else {
      assert (a + b)[..|a + b| - 1] == a + b[..|b| - 1];
      TopJoin(a, b[..|b| - 1], last);
    }
  }

  /** The next attempt connects with the newest cursor of all messages, this attempt's included. */
  lemma NextCursor(attempts: seq<Attempt>, a: Attempt, cursor: Option<nat>, replay: bool)
    ensures CursorFor(attempts + [a], |attempts| + 1, cursor, replay) ==
            if replay then Top(MessagesOf(a), CursorFor(attempts, |attempts|, cursor, replay)) else None
  {
    var more := attempts + [a];
    assert more[..|more|] == more && more[..|attempts|] == attempts && attempts[..|attempts|] == attempts;
    assert AllMessages(more) == AllMessages(attempts) + MessagesOf(a);
    TopJoin(AllMessages(attempts), MessagesOf(a), cursor);
    if attempts == [] {
      assert AllMessages(attempts) == [];
    }
  }

  /* ---- reconnecting is invisible ---- */

  lemma {:induction false} FreshJoin(a: seq<Message>, b: seq<Message>, last: Option<nat>)
    ensures FreshEvents(a + b, last) == FreshEvents(a, last) + FreshEvents(b, Top(a, last))
  {
    if b == [] {
      assert a + b == a;
      assert FreshEvents(a, last) + [] == FreshEvents(a, last);
    } else {
      var n, all := |b| - 1, a + b;
      assert all[..|all| - 1] == a + b[..n] && all[|all| - 1] == b[n];
      FreshJoin(a, b[..n], last);
      FreshIff(all, last, |all| - 1);
      FreshIff(b, Top(a, last), n);
      TopJoin(a, b[..n], last);
    }
  }

  /**
  With replay, connections that were refused or broke are invisible: what is passed on
  is what one connection bringing all their messages would have passed on.
  */
  lemma {:induction false} ReconnectsInvisible(attempts: seq<Attempt>, cursor: Option<nat>)
    ensures Passed(attempts, cursor, true) == FreshEvents(AllMessages(attempts), cursor)
  {
    if attempts != [] {
      var n := |attempts| - 1;
      ReconnectsInvisible(attempts[..n], cursor);
      FreshJoin(AllMessages(attempts[..n]), MessagesOf(attempts[n]), cursor);
      assert n == 0 ==> AllMessages(attempts[..n]) == [];
    }
  }

  /** After every run that goes on, with replay, all fresh events of all connections were delivered, and no more. */
  lemma DeliveredIs(attempts: seq<Attempt>, cursor: Option<nat>)
    requires !Stops(attempts, cursor, true)
    ensures Run(attempts, cursor, true).delivered == FreshEvents(AllMessages(attempts), cursor)
  {
    EndsIff(attempts, cursor, true);
    ReconnectsInvisible(attempts, cursor);
  }

  /** A session that the loop reaches and whose receiver stays has caught up with all it was sent. */
  lemma CaughtUp(log: seq<Event>, attempts: seq<Attempt>, starts: seq<nat>, from: nat)
    requires Increasing(log) && Served(log, attempts, starts, Some(from), true)
    requires attempts != [] && attempts[|attempts| - 1].Session?
    requires !Stops(attempts[..|attempts| - 1], Some(from), true)
    requires !ClosedAt(attempts, |attempts| - 1, Some(from), true)
    ensures starts[|attempts| - 1] + |Events(attempts[|attempts| - 1].messages)|
            <= Upto(log, from) + |Run(attempts, Some(from), true).delivered|
  {
    var n := |attempts| - 1;
    ServedInit(log, attempts, starts, Some(from), true);
    ExactlyOnce(log, attempts[..n], starts[..n], from);
    EndsIff(attempts[..n], Some(from), true);
    SameCursor(attempts, Some(from), true);
    SessionCatchesUp(log, Run(attempts[..n], Some(from), true), attempts[n], starts[n], Upto(log, from));
  }

  lemma SameCursor(attempts: seq<Attempt>, cursor: Option<nat>, replay: bool)
    requires attempts != []
    ensures var n := |attempts| - 1;
            CursorFor(attempts, n, cursor, replay) == CursorFor(attempts[..n], |attempts[..n]|, cursor, replay)
  {
    var n := |attempts| - 1;
    assert attempts[..n][..n] == attempts[..n];
  }

  lemma SessionCatchesUp(log: seq<Event>, c: Client, a: Attempt, start: nat, base: nat)
    requires Increasing(log) && Serves(log, c.cursor, a, start) && a.Session?
    requires !c.done && c.cursor.Some? && base + |c.delivered| == Upto(log, c.cursor.value)
    requires !Closes(a.messages, c.cursor, a.accepts)
    ensures start + |Events(a.messages)| <= base + |Reconnect(c, a, true).delivered|
  {
    ReceiveIs(a.messages, c.cursor, a.accepts);
    SessionContinues(log, a.messages, start, c.cursor.value, a.accepts);
  }
}
