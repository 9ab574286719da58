/**
The batcher's own methods, which change the current batch and send it.
*/
module BatcherTask {
  import opened Accounts
  import opened Options
  import opened CommitBuffer
  import opened Batcher

  class BatchingTask {
    var sent: seq<EventBatch>
    var current: EventBatch
    var initial: Option<nat>

    constructor ()
      ensures View() == Batching([], NO_EVENTS, None)
    {
      sent, current, initial := [], NO_EVENTS, None;
    }

    function View(): Batching
      reads this
    {
      Batching(sent, current, initial)
    }

    method SendCurrentBatchNow()
      modifies this
      ensures View() == Send(old(View()))
    {
      var batch := current;
      current, initial := NO_EVENTS, None;
      sent := sent + [batch];
    }

    method InsertCommitByNsid(nsid: Nsid, c: Commit) returns (outcome: Outcome)
      requires HeadsOk(current)
      modifies this`current
      ensures (outcome, current) == InsertCommit(old(current), nsid, c)
    {
      if nsid !in current.commits && |current.commits| >= MAX_BATCHED_COLLECTIONS {
        return BatchFull;
      }
      if nsid !in current.commits {
        current := current.(commits := current.commits[nsid := EMPTY]);
      }
      var buffer := current.commits[nsid];
      var (r, buffer') := Insert(buffer, c, MAX_BATCHED_RECORDS);
      current := current.(commits := current.commits[nsid := buffer']);
      outcome := r;
      assert current.commits == old(current).commits[nsid := buffer'];
    }

    method DoHandleCommit(nsid: Nsid, c: Commit) returns (outcome: Outcome)
      requires HeadsOk(current)
      modifies this
      ensures (outcome, View()) == HandleCommit(old(View()), nsid, c)
    {
      outcome := InsertCommitByNsid(nsid, c);
      if outcome == BatchFull {
        SendCurrentBatchNow();
        outcome := InsertCommitByNsid(nsid, c);
      }
    }

    method DoHandleDeleteAccount(did: string, cursor: nat)
      modifies this
      ensures View() == HandleDeleteAccount(old(View()), Removal(did, cursor))
    {
      if |current.removes| >= MAX_ACCOUNT_REMOVES {
        SendCurrentBatchNow();
      }
      current := current.(removes := current.removes + [Removal(did, cursor)]);
    }

    /** Sends a batch that began too long ago, or notes where this one begins; fails on a cursor before that. */
    method DoBegin(cursor: nat) returns (ok: bool)
      modifies this
      ensures ok <==> !(old(initial).Some? && cursor < old(initial).value)
      ensures View() == if ok then Begin(old(View()), cursor) else old(View())
    {
      match initial {
        case Some(earliest) =>
          if cursor < earliest {
            return false;
          }
          if cursor - earliest > MAX_BATCH_SPAN_MICROS {
            SendCurrentBatchNow();
          }
        case None => initial := Some(cursor);
      }
      return true;
    }

    method DoHandleKind(e: Event) returns (outcome: Outcome)
      requires HeadsOk(current)
      modifies this
      ensures (outcome, View()) == HandleKind(old(View()), e)
    {
      outcome := Stored;
      match e {
        case Committed(nsid, c) => outcome := DoHandleCommit(nsid, c);
        case Removed(r) => DoHandleDeleteAccount(r.did, r.cursor);
        case Other(_) =>
      }
    }

    method DoHandleEvent(e: Event, queueFree: bool) returns (ok: bool)
      requires HeadsOk(current)
      modifies this
      ensures HandleEvent(old(View()), e, queueFree) == if ok then Some(View()) else None
    {
      var cursor := CursorOf(e);
      var begun := DoBegin(cursor);
      if !begun {
        return false;
      }
      var outcome := DoHandleKind(e);
      if outcome != Stored {
        return false;
      }
      if initial.Some? && cursor > initial.value + MIN_BATCH_SPAN_MICROS && queueFree {
        SendCurrentBatchNow();
      }
      return true;
    }

    method NoEventsStep()
      modifies this
      ensures View() == NoEvents(old(View()))
    {
      if !(current.commits == map[] && current.removes == []) {
        SendCurrentBatchNow();
      }
    }
  }
}
