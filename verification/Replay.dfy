/**
Reconnecting to a Jetstream server: the loop that connects again from the last
cursor, and the message loop that drops events not newer than it.
*/
module Replay {
  import opened Options

  datatype Event = Event(cursor: nat, payload: string)

  /** What a connection brings: events, messages that do not parse, and pings. */
  datatype Message = Good(event: Event) | Unparsed | Ping

  /** One turn of the loop: the connection fails, or brings messages and closes (or the receiver goes away). */
  datatype Attempt =
    | Refused
    | Session(messages: seq<Message>, longLived: bool, accepts: Option<nat>)

  datatype Client = Client(delivered: seq<Event>, cursor: Option<nat>, retries: nat, done: bool)

  const MAX_RETRIES: nat := 300

  /* ---- one connection ---- */

  predicate Old(e: Event, last: Option<nat>) {
    last.Some? && e.cursor <= last.value
  }

  /** A cursor is tracked only if there was one to begin with. */
  function Track(last: Option<nat>, e: Event): Option<nat> {
    if last.Some? then Some(e.cursor) else None
  }

  datatype Reception = Got(events: seq<Event>, last: Option<nat>, closed: bool)

  /** What one message does, for a receiver that takes only `accepts` events. */
  function Take(before: Reception, m: Message, accepts: Option<nat>): Reception {
    if before.closed || !m.Good? || Old(m.event, before.last) then before
    else if accepts == Some(|before.events|) then before.(closed := true)
    else Got(before.events + [m.event], Track(before.last, m.event), false)
  }

  /** Events passed on, the last cursor, and whether the receiver was found closed. */
  function Receive(messages: seq<Message>, last: Option<nat>, accepts: Option<nat>): Reception {
    if messages == [] then Got([], last, false)
    else Take(Receive(messages[..|messages| - 1], last, accepts), messages[|messages| - 1], accepts)
  }

  method WebsocketTask(messages: seq<Message>, last: Option<nat>, accepts: Option<nat>)
    returns (events: seq<Event>, lastCursor: Option<nat>, receiverClosed: bool)
    ensures Got(events, lastCursor, receiverClosed) == Receive(messages, last, accepts)
  {
    events, lastCursor, receiverClosed := [], last, false;
    for i := 0 to |messages|
      invariant !receiverClosed && Got(events, lastCursor, false) == Receive(messages[..i], last, accepts)
    {
      assert messages[..i + 1][..i] == messages[..i];
      match messages[i] {
        case Good(e) =>
          if lastCursor.Some? && e.cursor <= lastCursor.value {
            continue;
          }
          if accepts == Some(|events|) {
            ClosedStays(messages, i + 1, last, accepts);
            return events, lastCursor, true;
          }
          events := events + [e];
          if lastCursor.Some? {
            lastCursor := Some(e.cursor);
          }
        case Unparsed =>
        case Ping =>
      }
    }
    assert messages[..|messages|] == messages;
  }

  lemma {:induction false} ClosedStays(messages: seq<Message>, i: nat, last: Option<nat>, accepts: Option<nat>)
    requires i <= |messages| && Receive(messages[..i], last, accepts).closed
    ensures Receive(messages, last, accepts) == Receive(messages[..i], last, accepts)
    decreases |messages|
  {
    if i < |messages| {
      var init := messages[..|messages| - 1];
      assert init[..i] == messages[..i];
      ClosedStays(init, i, last, accepts);
    } else {
      assert messages[..i] == messages;
    }
  }

  /* ---- the loop ---- */

  function Reconnect(c: Client, a: Attempt, replay: bool): Client {
    if c.done then c
    else
      match a
      case Refused =>
        var retries := c.retries + 1;
        if retries >= MAX_RETRIES then c.(retries := retries, done := true)
        else c.(retries := retries, cursor := if replay then c.cursor else None)
      case Session(messages, longLived, accepts) =>
        var got := Receive(messages, c.cursor, accepts);
        var retries := if longLived then 0 else c.retries + 1;
        if got.closed then Client(c.delivered + got.events, got.last, c.retries + 1, true)
        else if retries >= MAX_RETRIES then Client(c.delivered + got.events, got.last, retries, true)
        else Client(c.delivered + got.events, if replay then got.last else None, retries, false)
  }

  function Run(attempts: seq<Attempt>, cursor: Option<nat>, replay: bool): Client {
    if attempts == [] then Client([], cursor, 0, false)
    else Reconnect(Run(attempts[..|attempts| - 1], cursor, replay), attempts[|attempts| - 1], replay)
  }

  method ConnectCursor(attempts: seq<Attempt>, cursor: Option<nat>, replay: bool) returns (delivered: seq<Event>)
    ensures delivered == Run(attempts, cursor, replay).delivered
  {
    var retryAttempt, connectCursor := 0, cursor;
    delivered := [];
    for i := 0 to |attempts|
      invariant Run(attempts[..i], cursor, replay) == Client(delivered, connectCursor, retryAttempt, false)
    {
      assert attempts[..i + 1][..i] == attempts[..i];
      var lastCursor := connectCursor;
      retryAttempt := retryAttempt + 1;
      if attempts[i].Session? {
        var events, last, closed := WebsocketTask(attempts[i].messages, lastCursor, attempts[i].accepts);
        delivered, lastCursor := delivered + events, last;
        if closed {
          DoneStays(attempts, i + 1, cursor, replay);
          return;
        }
        if attempts[i].longLived {
          retryAttempt := 0;
        }
      }
      if retryAttempt >= MAX_RETRIES {
        DoneStays(attempts, i + 1, cursor, replay);
        return;
      }
      connectCursor := if replay then lastCursor else None;
    }
    assert attempts[..|attempts|] == attempts;
  }

  lemma {:induction false} DoneStays(attempts: seq<Attempt>, i: nat, cursor: Option<nat>, replay: bool)
    requires i <= |attempts| && Run(attempts[..i], cursor, replay).done
    ensures Run(attempts, cursor, replay) == Run(attempts[..i], cursor, replay)
    decreases |attempts|
  {
    if i < |attempts| {
      var init := attempts[..|attempts| - 1];
      assert init[..i] == attempts[..i];
      DoneStays(init, i, cursor, replay);
    } else {
      assert attempts[..i] == attempts;
    }
  }

  /* ---- the server ---- */

  ghost predicate Increasing(log: seq<Event>) {
    forall i, j :: 0 <= i < j < |log| ==> log[i].cursor < log[j].cursor
  }

  function Events(messages: seq<Message>): seq<Event> {
    if messages == [] then []
    else
      var m := messages[|messages| - 1];
      Events(messages[..|messages| - 1]) + if m.Good? then [m.event] else []
  }

  /** How much of the log is not newer than a cursor. */
  function Upto(log: seq<Event>, cursor: nat): (n: nat)
    ensures n <= |log|
  {
    if log == [] then 0
    else if log[|log| - 1].cursor <= cursor then |log|
    else Upto(log[..|log| - 1], cursor)
  }

  /** The server sends a contiguous part of its log, from no later than the first event after the requested cursor. */
  ghost predicate Serves(log: seq<Event>, requested: Option<nat>, a: Attempt, start: nat) {
    a.Session? ==>
      && start + |Events(a.messages)| <= |log|
      && Events(a.messages) == log[start..start + |Events(a.messages)|]
      && (requested.Some? ==> start <= Upto(log, requested.value))
  }

  ghost predicate Served(log: seq<Event>, attempts: seq<Attempt>, starts: seq<nat>, cursor: Option<nat>, replay: bool) {
    && |starts| == |attempts|
    && forall i :: 0 <= i < |attempts| ==>
      Serves(log, Run(attempts[..i], cursor, replay).cursor, attempts[i], starts[i])
  }

  lemma {:induction false} UptoSplits(log: seq<Event>, cursor: nat)
    requires Increasing(log)
    ensures forall i :: 0 <= i < |log| ==> (log[i].cursor <= cursor <==> i < Upto(log, cursor))
  {
    if log != [] && log[|log| - 1].cursor > cursor {
      UptoSplits(log[..|log| - 1], cursor);
    }
  }

  lemma UptoIs(log: seq<Event>, cursor: nat, n: nat)
    requires Increasing(log) && n <= |log|
    requires forall i :: 0 <= i < |log| ==> (log[i].cursor <= cursor <==> i < n)
    ensures Upto(log, cursor) == n
  {
    UptoSplits(log, cursor);
    var m := Upto(log, cursor);
    assert m < |log| ==> (log[m].cursor <= cursor <==> m < n);
    assert n < |log| ==> (log[n].cursor <= cursor <==> n < m);
  }

  /** The events passed on continue the log from `from`, and the last cursor is where they end. */
  ghost predicate Continues(log: seq<Event>, from: nat, got: Reception) {
    && got.last.Some?
    && Upto(log, from) + |got.events| == Upto(log, got.last.value)
    && got.events == log[Upto(log, from)..Upto(log, got.last.value)]
    && got.last.value == if got.events == [] then from else got.events[|got.events| - 1].cursor
  }

  /** One connection, from the tracked cursor on, passes on exactly the next events of the log. */
  lemma {:induction false} SessionContinues(log: seq<Event>, messages: seq<Message>, start: nat, from: nat,
                                            accepts: Option<nat>)
    requires Increasing(log) && start <= Upto(log, from)
    requires start + |Events(messages)| <= |log| && Events(messages) == log[start..start + |Events(messages)|]
    ensures var got := Receive(messages, Some(from), accepts);
            Continues(log, from, got) && (!got.closed ==> start + |Events(messages)| <= Upto(log, got.last.value))
  {
    if messages != [] {
      var init, m := messages[..|messages| - 1], messages[|messages| - 1];
      EventsInit(log, messages, start);
      SessionContinues(log, init, start, from, accepts);
      MessageContinues(log, from, Receive(init, Some(from), accepts), m, accepts, start + |Events(init)|);
    } else {
      assert log[Upto(log, from)..Upto(log, from)] == [];
    }
  }

  lemma MessageContinues(log: seq<Event>, from: nat, before: Reception, m: Message, accepts: Option<nat>, i: nat)
    requires Increasing(log) && Continues(log, from, before) && (m.Good? ==> i < |log| && m.event == log[i])
    requires !before.closed ==> i <= Upto(log, before.last.value)
    ensures var got := Take(before, m, accepts);
            Continues(log, from, got) && (!got.closed ==> i + (if m.Good? then 1 else 0) <= Upto(log, got.last.value))
  {
    if before.closed || !m.Good? {
      assert Take(before, m, accepts) == before;
    } else {
      EventContinues(log, from, before, i);
    }
  }

  lemma EventsInit(log: seq<Event>, messages: seq<Message>, start: nat)
    requires messages != []
    requires start + |Events(messages)| <= |log| && Events(messages) == log[start..start + |Events(messages)|]
    ensures var init, m := messages[..|messages| - 1], messages[|messages| - 1];
            && |Events(messages)| == |Events(init)| + (if m.Good? then 1 else 0)
            && Events(init) == log[start..start + |Events(init)|]
            && (m.Good? ==> m.event == log[start + |Events(init)|])
  {
    var all, some := Events(messages), Events(messages[..|messages| - 1]);
    assert all[..|some|] == some && log[start..start + |all|][..|some|] == log[start..start + |some|];
    var m := messages[|messages| - 1];
    if m.Good? {
      assert all[|some|] == m.event;
    }
  }

  lemma EventContinues(log: seq<Event>, from: nat, before: Reception, i: nat)
    requires Increasing(log) && Continues(log, from, before) && i < |log| && i <= Upto(log, before.last.value)
    ensures Old(log[i], before.last) ==> i + 1 <= Upto(log, before.last.value)
    ensures !Old(log[i], before.last) ==>
              Upto(log, log[i].cursor) == i + 1
              && Continues(log, from, Got(before.events + [log[i]], Some(log[i].cursor), false))
  {
    NextEvent(log, i, before.last.value);
    if !Old(log[i], before.last) {
      AppendNext(log, Upto(log, from), i, before.events);
    }
  }

  lemma AppendNext(log: seq<Event>, a: nat, i: nat, events: seq<Event>)
    requires a <= i < |log| && events == log[a..i]
    ensures events + [log[i]] == log[a..i + 1] && (events + [log[i]])[|events|] == log[i]
  {
  }

  /** The event at `i`, with everything before it already tracked, is old or the very next one. */
  lemma NextEvent(log: seq<Event>, i: nat, last: nat)
    requires Increasing(log) && i < |log| && i <= Upto(log, last)
    ensures log[i].cursor <= last <==> i < Upto(log, last)
    ensures log[i].cursor > last ==> i == Upto(log, last) && Upto(log, log[i].cursor) == i + 1
  {
    UptoSplits(log, last);
    if log[i].cursor > last {
      UptoIs(log, log[i].cursor, i + 1);
    }
  }

  /**
   * Exactly once: with replay and an initial cursor, whatever connections fail or break, what was
   * delivered is always a prefix of the log after that cursor, without gap or repetition.
   */
  lemma {:induction false} ExactlyOnce(log: seq<Event>, attempts: seq<Attempt>, starts: seq<nat>, from: nat)
    requires Increasing(log) && Served(log, attempts, starts, Some(from), true)
    ensures var c := Run(attempts, Some(from), true);
            && c.cursor.Some?
            && c.delivered <= log[Upto(log, from)..]
            && Upto(log, from) + |c.delivered| == Upto(log, c.cursor.value)
  {
    if attempts != [] {
      var n := |attempts| - 1;
      ServedInit(log, attempts, starts, Some(from), true);
      ExactlyOnce(log, attempts[..n], starts[..n], from);
      var c, a := Run(attempts[..n], Some(from), true), attempts[n];
      if a.Session? {
        SessionContinues(log, a.messages, starts[n], c.cursor.value, a.accepts);
        var last := Receive(a.messages, c.cursor, a.accepts).last.value;
        PrefixGrows(log, Upto(log, from), Upto(log, c.cursor.value), Upto(log, last), c.delivered);
      }
    }
  }

  lemma ServedInit(log: seq<Event>, attempts: seq<Attempt>, starts: seq<nat>, cursor: Option<nat>, replay: bool)
    requires Served(log, attempts, starts, cursor, replay) && attempts != []
    ensures var n := |attempts| - 1;
            && Served(log, attempts[..n], starts[..n], cursor, replay)
            && Serves(log, Run(attempts[..n], cursor, replay).cursor, attempts[n], starts[n])
  {
    var n := |attempts| - 1;
    forall i | 0 <= i < n
      ensures Serves(log, Run(attempts[..n][..i], cursor, replay).cursor, attempts[..n][i], starts[..n][i])
    {
      assert attempts[..n][..i] == attempts[..i];
    }
  }

  lemma PrefixGrows(log: seq<Event>, a: nat, b: nat, c: nat, delivered: seq<Event>)
    requires a <= b <= c <= |log| && |delivered| == b - a && delivered <= log[a..]
    ensures delivered + log[b..c] <= log[a..]
  {
    assert delivered == log[a..b];
    assert delivered + log[b..c] == log[a..c];
  }

  /* ---- the filter alone, whatever a server sends ---- */

  /** With a tracked cursor, one connection passes on strictly increasing cursors, all after it. */
  lemma {:induction false} ReceiveRises(messages: seq<Message>, from: nat, accepts: Option<nat>)
    ensures var got := Receive(messages, Some(from), accepts);
            && Increasing(got.events) && got.last.Some? && from <= got.last.value
            && forall i :: 0 <= i < |got.events| ==> from < got.events[i].cursor <= got.last.value
  {
    if messages != [] {
      ReceiveRises(messages[..|messages| - 1], from, accepts);
    }
  }

  /** With replay and an initial cursor, no server can make an event be delivered twice or out of order. */
  lemma {:induction false} NeverRepeats(attempts: seq<Attempt>, from: nat)
    ensures var c := Run(attempts, Some(from), true);
            && Increasing(c.delivered) && c.cursor.Some? && from <= c.cursor.value
            && forall i :: 0 <= i < |c.delivered| ==> from < c.delivered[i].cursor <= c.cursor.value
  {
    if attempts != [] {
      NeverRepeats(attempts[..|attempts| - 1], from);
      var c, a := Run(attempts[..|attempts| - 1], Some(from), true), attempts[|attempts| - 1];
      if a.Session? {
        ReceiveRises(a.messages, c.cursor.value, a.accepts);
      }
    }
  }

  /* ---- without replay or without an initial cursor ---- */

  ghost predicate Contiguous(log: seq<Event>, delivered: seq<Event>) {
    exists i, j :: 0 <= i <= j <= |log| && delivered == log[i..j]
  }

  /** Without a tracked cursor everything that parses is passed on and no cursor is kept. */
  lemma {:induction false} Untracked(messages: seq<Message>)
    ensures Receive(messages, None, None) == Got(Events(messages), None, false)
  {
    if messages != [] {
      Untracked(messages[..|messages| - 1]);
    }
  }

  lemma OneReceived(e: Event, last: Option<nat>)
    requires !Old(e, last)
    ensures Receive([Good(e)], last, None) == Got([e], Track(last, e), false)
  {
    assert [Good(e)][..0] == [];
    assert Receive([], last, None) == Got([], last, false);
    assert [] + [e] == [e];
  }

  lemma OneSession(c: Client, e: Event, replay: bool)
    requires !c.done && !Old(e, c.cursor)
    ensures Reconnect(c, Session([Good(e)], true, None), replay) ==
            Client(c.delivered + [e], if replay then Track(c.cursor, e) else None, 0, false)
  {
    OneReceived(e, c.cursor);
  }

  lemma TwoSessions(e: Event, f: Event, cursor: Option<nat>, replay: bool)
    requires !(replay && cursor.Some?) && !Old(e, cursor)
    ensures Run([Session([Good(e)], true, None), Session([Good(f)], true, None)], cursor, replay).delivered == [e, f]
    ensures Run([Session([Good(e)], true, None)], cursor, replay).cursor == None
  {
    var a, b := Session([Good(e)], true, None), Session([Good(f)], true, None);
    var start := Client([], cursor, 0, false);
    assert [a][..0] == [] && [a, b][..1] == [a];
    assert Run([], cursor, replay) == start;
    OneSession(start, e, replay);
    var one := Run([a], cursor, replay);
    assert one == Reconnect(start, a, replay);
    assert one == Client([e], None, 0, false);
    OneSession(one, f, replay);
    assert Run([a, b], cursor, replay) == Reconnect(one, b, replay);
    assert [e] + [f] == [e, f];
  }

  lemma TwoServed(log: seq<Event>, i: nat, j: nat, cursor: Option<nat>, replay: bool)
    requires !(replay && cursor.Some?) && i < |log| && j < |log| && !Old(log[i], cursor)
    requires cursor.Some? ==> i <= Upto(log, cursor.value)
    ensures Served(log, [Session([Good(log[i])], true, None), Session([Good(log[j])], true, None)], [i, j],
                   cursor, replay)
  {
    var a, b := Session([Good(log[i])], true, None), Session([Good(log[j])], true, None);
    TwoSessions(log[i], log[j], cursor, replay);
    OneServed(log, cursor, i);
    OneServed(log, None, j);
    assert [a, b][..0] == [] && [a, b][..1] == [a];
  }

  lemma OneServed(log: seq<Event>, requested: Option<nat>, i: nat)
    requires i < |log| && (requested.Some? ==> i <= Upto(log, requested.value))
    ensures Serves(log, requested, Session([Good(log[i])], true, None), i)
  {
    OneEvent(log[i]);
    OneSlice(log, i);
  }

  lemma OneEvent(e: Event)
    ensures Events([Good(e)]) == [e]
  {
    assert [Good(e)][..0] == [];
  }

  lemma OneSlice(log: seq<Event>, i: nat)
    requires i < |log|
    ensures log[i..i + 1] == [log[i]]
  {
  }

  /** The guarantee needs both: without replay, or without an initial cursor, some run skips an event. */
  lemma SkipsWithoutCursor(cursor: Option<nat>, replay: bool)
    returns (log: seq<Event>, attempts: seq<Attempt>, starts: seq<nat>)
    requires !(replay && cursor.Some?)
    ensures Increasing(log) && Served(log, attempts, starts, cursor, replay)
    ensures !Contiguous(log, Run(attempts, cursor, replay).delivered)
  {
    var base := if cursor.Some? then cursor.value else 0;
    log := [Event(base + 1, ""), Event(base + 2, ""), Event(base + 3, "")];
    attempts, starts := [Session([Good(log[0])], true, None), Session([Good(log[2])], true, None)], [0, 2];
    TwoServed(log, 0, 2, cursor, replay);
    TwoSessions(log[0], log[2], cursor, replay);
    NotTogether(log);
  }

  lemma NotTogether(log: seq<Event>)
    requires |log| == 3 && log[0] != log[1] && log[1] != log[2]
    ensures !Contiguous(log, [log[0], log[2]])
  {
    forall i, j | 0 <= i <= j <= |log| ensures [log[0], log[2]] != log[i..j] {
      if j - i == 2 {
        assert log[i..j][0] == log[i] && log[i..j][1] == log[i + 1];
      }
    }
  }

  /** Likewise some run delivers an event twice. */
  lemma RepeatsWithoutCursor(cursor: Option<nat>, replay: bool)
    returns (log: seq<Event>, attempts: seq<Attempt>, starts: seq<nat>)
    requires !(replay && cursor.Some?)
    ensures Increasing(log) && Served(log, attempts, starts, cursor, replay)
    ensures !Increasing(Run(attempts, cursor, replay).delivered)
  {
    log := [Event(1 + if cursor.Some? then cursor.value else 0, "")];
    attempts, starts := [Session([Good(log[0])], true, None), Session([Good(log[0])], true, None)], [0, 0];
    TwoServed(log, 0, 0, cursor, replay);
    TwoSessions(log[0], log[0], cursor, replay);
    assert Run(attempts, cursor, replay).delivered[0].cursor == Run(attempts, cursor, replay).delivered[1].cursor;
  }
}
