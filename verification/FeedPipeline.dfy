/**
From the event stream to one collection's feed: the batches the batcher sends,
interleaved with trims, account deletions and rerolls, are what the feed asks for.
*/
module FeedPipeline {
  import opened Options
  import opened CommitBuffer
  import opened Batcher
  import opened BatcherRuns
  import opened Pipeline
  import FeedTrim

  function FeedCommit(c: Commit): FeedTrim.Commit {
    var loc := FeedTrim.Loc(c.did, c.rkey);
    if c.action.Cut? then FeedTrim.Cut(c.cursor, loc) else FeedTrim.Put(c.cursor, loc, c.rev)
  }

  function FeedCommits(cs: seq<Commit>): (r: seq<FeedTrim.Commit>)
    ensures |r| == |cs| && forall i :: 0 <= i < |r| ==> r[i] == FeedCommit(cs[i])
  {
    seq(|cs|, i requires 0 <= i < |cs| => FeedCommit(cs[i]))
  }

  /** What the feed asks of its batches, displaced or not, holds of the batches the batcher sends. */
  lemma FeedFollowsHere(shelf: FeedTrim.Shelf, b: EventBatch, done: seq<Event>, history: seq<Event>, latest: nat,
                        nsid: Nsid)
    requires Takes(b, history) && Increasing(done + history) && shelf.newest <= LastCursor(done)
    requires nsid in b.commits && IsLatest(b, Some(latest))
    ensures FeedTrim.Follows(shelf, FeedTrim.Batch(FeedCommits(b.commits[nsid].commits), latest))
  {
    var cs := b.commits[nsid].commits;
    if history == [] {
      NothingTaken(b);
    } else {
      AfterLast(done, history);
      LatestIsLast(b, history, Some(latest));
      forall i | 0 <= i < |cs| ensures shelf.newest < cs[i].cursor <= latest {
        assert HasCommit(b, cs[i].cursor);
        BufferedArrived(b, history, cs[i].cursor);
      }
      forall i, j | 0 <= i < j < |cs| ensures cs[i].cursor != cs[j].cursor {
        DistinctCursors(b, history, nsid, i, j);
      }
    }
  }

  /** The commits a batch still holds for a collection. */
  function CommitsAt(b: EventBatch, nsid: Nsid): seq<Commit> {
    if nsid in b.commits then b.commits[nsid].commits else []
  }

  /** A step of the feed: a batch of the feed is the next sent batch that is not empty. */
  ghost predicate FeedMoves(sent: seq<EventBatch>, nsid: Nsid, step: FeedTrim.Step, k: nat, k': nat) {
    if step.Batch? then
      && k < k' <= |sent| && !IsEmpty(sent[k' - 1]) && (forall j :: k <= j < k' - 1 ==> IsEmpty(sent[j]))
      && IsLatest(sent[k' - 1], Some(step.latest)) && step.commits == FeedCommits(CommitsAt(sent[k' - 1], nsid))
    else k' == k
  }

  ghost predicate IsFeedRun(sent: seq<EventBatch>, nsid: Nsid, steps: seq<FeedTrim.Step>, taken: seq<nat>) {
    && |taken| == |steps| + 1 && taken[0] == 0
    && forall i :: 0 <= i < |steps| ==> FeedMoves(sent, nsid, steps[i], taken[i], taken[i + 1])
  }

  lemma FeedRunInit(sent: seq<EventBatch>, nsid: Nsid, steps: seq<FeedTrim.Step>, taken: seq<nat>)
    requires IsFeedRun(sent, nsid, steps, taken) && steps != []
    ensures var n := |steps| - 1;
            && IsFeedRun(sent, nsid, steps[..n], taken[..n + 1])
            && FeedMoves(sent, nsid, steps[n], taken[n], taken[n + 1])
  {
  }

  /** Empty batches took nothing. */
  lemma {:induction false} EmptySkipped(sent: seq<EventBatch>, past: seq<seq<Event>>, k: nat, k': nat)
    requires AllTake(sent, past) && Increasing(Flatten(past)) && k <= k' <= |past|
    requires forall j :: k <= j < k' ==> IsEmpty(sent[j])
    ensures Flatten(past[..k']) == Flatten(past[..k])
  {
    if k < k' {
      EmptySkipped(sent, past, k, k' - 1);
      FlattenMore(past, k' - 1);
      PieceIncreasing(past, k' - 1);
      EmptyTook(sent[k' - 1], past[k' - 1]);
      assert Flatten(past[..k' - 1]) + [] == Flatten(past[..k' - 1]);
    }
  }

  lemma PieceIncreasing(past: seq<seq<Event>>, k: nat)
    requires k < |past| && Increasing(Flatten(past))
    ensures Increasing(Flatten(past[..k]) + past[k]) && Increasing(past[k])
  {
    FlattenMore(past, k);
    FlattenSplits(past, k + 1);
    IncreasingParts(Flatten(past[..k + 1]), Flatten(past[k + 1..]));
    IncreasingParts(Flatten(past[..k]), past[k]);
  }

  /** A batch of the feed follows what the feed has, whether or not it holds commits of the collection. */
  lemma BatchFollowsFeed(shelf: FeedTrim.Shelf, b: EventBatch, done: seq<Event>, history: seq<Event>, latest: nat,
                         nsid: Nsid)
    requires Takes(b, history) && Increasing(done + history) && shelf.newest == LastCursor(done)
    requires !IsEmpty(b) && IsLatest(b, Some(latest))
    ensures FeedTrim.Follows(shelf, FeedTrim.Batch(FeedCommits(CommitsAt(b, nsid)), latest))
    ensures latest == LastCursor(done + history)
  {
    if history == [] {
      NothingTaken(b);
    } else {
      AfterLast(done, history);
      LatestIsLast(b, history, Some(latest));
      if nsid in b.commits {
        FeedFollowsHere(shelf, b, done, history, latest, nsid);
      }
    }
  }

  lemma NewestAfter(s: FeedTrim.Shelf, step: FeedTrim.Step)
    ensures FeedTrim.Apply(s, step).newest == if step.Batch? then step.latest else s.newest
  {
  }

  /** Every run of the feed over sent batches is well ordered, and its newest cursor is that of what was taken. */
  lemma {:induction false} FeedRunOrdered(sent: seq<EventBatch>, past: seq<seq<Event>>, nsid: Nsid,
                                          steps: seq<FeedTrim.Step>, taken: seq<nat>)
    requires AllTake(sent, past) && Increasing(Flatten(past)) && IsFeedRun(sent, nsid, steps, taken)
    ensures FeedTrim.WellOrdered(steps) && taken[|steps|] <= |past|
    ensures FeedTrim.Run(steps).newest == LastCursor(Flatten(past[..taken[|steps|]]))
  {
    if steps == [] {
      assert past[..0] == [];
    } else {
      var n := |steps| - 1;
      FeedRunInit(sent, nsid, steps, taken);
      FeedRunOrdered(sent, past, nsid, steps[..n], taken[..n + 1]);
      var shelf := FeedTrim.Run(steps[..n]);
      NewestAfter(shelf, steps[n]);
      if steps[n].Batch? {
        FeedBatchFollows(sent, past, nsid, shelf, steps[n], taken[n], taken[n + 1]);
      }
    }
  }

  lemma FeedBatchFollows(sent: seq<EventBatch>, past: seq<seq<Event>>, nsid: Nsid, shelf: FeedTrim.Shelf,
                         step: FeedTrim.Step, k: nat, k': nat)
    requires AllTake(sent, past) && Increasing(Flatten(past)) && step.Batch? && FeedMoves(sent, nsid, step, k, k')
    requires shelf.newest == LastCursor(Flatten(past[..k]))
    ensures k' <= |past| && FeedTrim.Follows(shelf, step) && step.latest == LastCursor(Flatten(past[..k']))
  {
    NextTaken(sent, past, k, k');
    StepFollows(shelf, sent, past, nsid, step, k, k', Flatten(past[..k' - 1]));
  }

  /** What the next batch that is not empty took comes right after what was taken before. */
  lemma NextTaken(sent: seq<EventBatch>, past: seq<seq<Event>>, k: nat, k': nat)
    requires AllTake(sent, past) && Increasing(Flatten(past)) && k < k' <= |past|
    requires forall j :: k <= j < k' - 1 ==> IsEmpty(sent[j])
    ensures Flatten(past[..k' - 1]) == Flatten(past[..k])
    ensures Flatten(past[..k']) == Flatten(past[..k' - 1]) + past[k' - 1]
    ensures Increasing(Flatten(past[..k' - 1]) + past[k' - 1])
  {
    EmptySkipped(sent, past, k, k' - 1);
    PieceIncreasing(past, k' - 1);
    FlattenMore(past, k' - 1);
  }

  lemma StepFollows(shelf: FeedTrim.Shelf, sent: seq<EventBatch>, past: seq<seq<Event>>, nsid: Nsid,
                    step: FeedTrim.Step, k: nat, k': nat, done: seq<Event>)
    requires AllTake(sent, past) && step.Batch? && FeedMoves(sent, nsid, step, k, k')
    requires Increasing(done + past[k' - 1]) && shelf.newest == LastCursor(done)
    ensures FeedTrim.Follows(shelf, step) && step.latest == LastCursor(done + past[k' - 1])
  {
    assert step == FeedTrim.Batch(FeedCommits(CommitsAt(sent[k' - 1], nsid)), step.latest);
    BatchFollowsFeed(shelf, sent[k' - 1], done, past[k' - 1], step.latest, nsid);
  }

  /**
  Over every run of the batcher and every run of a collection's feed on the batches
  it sends: no feed entry lies below the trim cursor, and the next trim may scan
  either way and keeps the newest records.
  */
  lemma SentFeedTrims(arrivals: seq<BatcherRuns.Step>, nsid: Nsid, steps: seq<FeedTrim.Step>, taken: seq<nat>,
                      limit: nat)
    requires Run(arrivals).Some? && Increasing(Arrived(arrivals))
    requires IsFeedRun(Run(arrivals).value.sent, nsid, steps, taken)
    ensures FeedTrim.WellOrdered(steps) && FeedTrim.Inv(FeedTrim.Run(steps))
    ensures FeedTrim.Run(steps + [FeedTrim.Trim(limit, false)]) == FeedTrim.Run(steps + [FeedTrim.Trim(limit, true)])
    ensures var kept := |FeedTrim.Run(steps + [FeedTrim.Trim(limit, false)]).records|;
            var had := |FeedTrim.Run(steps).records|;
            kept == if had < limit then had else limit
  {
    var past, now := RunConserves(arrivals);
    IncreasingParts(Flatten(past), now);
    assert AllTake(Run(arrivals).value.sent, past);
    FeedRunOrdered(Run(arrivals).value.sent, past, nsid, steps, taken);
    FeedTrim.RunInv(steps);
    FeedTrim.RunTrimsAgree(steps, limit);
  }
}
