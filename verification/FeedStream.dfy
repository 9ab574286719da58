/**
From the event stream to the records of one collection: as long as no batch
overflows its buffer, a record is what its last commit on the stream left of it, and
an overflowing batch can forget one.
*/
module FeedStream {
  import opened Options
  import opened CommitBuffer
  import opened Batcher
  import opened BatcherRuns
  import opened Pipeline
  import opened FeedPipeline
  import opened FeedRecords
  import FeedTrim

  /** The commits of all batches of a feed run, in order. */
  function AllCommits(steps: seq<FeedTrim.Step>): seq<FeedTrim.Commit> {
    if steps == [] then []
    else
      var last := steps[|steps| - 1];
      AllCommits(steps[..|steps| - 1]) + if last.Batch? then last.commits else []
  }

  /* ---- a record comes from its last commit ---- */

  /** The last commit for the location left this version. */
  ghost predicate LastPut(cs: seq<FeedTrim.Commit>, loc: FeedTrim.Loc, m: FeedTrim.Meta) {
    exists i: nat :: LastFor(cs, loc, i) && Leaves(cs[i]) == Some(m)
  }

  lemma LastPutMore(before: seq<FeedTrim.Commit>, cs: seq<FeedTrim.Commit>, loc: FeedTrim.Loc, m: FeedTrim.Meta)
    requires if Names(cs, loc) then LastPut(cs, loc, m) else LastPut(before, loc, m)
    ensures LastPut(before + cs, loc, m)
  {
    var all := before + cs;
    if Names(cs, loc) {
      var i: nat :| LastFor(cs, loc, i) && Leaves(cs[i]) == Some(m);
      assert all[|before| + i] == cs[i];
      assert LastFor(all, loc, |before| + i);
    } else {
      var i: nat :| LastFor(before, loc, i) && Leaves(before[i]) == Some(m);
      assert all[i] == before[i];
      assert LastFor(all, loc, i);
    }
  }

  /** Whatever trims and account deletions came between, a record that is there is what its last commit left. */
  lemma {:induction false} RecordIsLastPut(steps: seq<FeedTrim.Step>, loc: FeedTrim.Loc, m: FeedTrim.Meta)
    requires FeedTrim.WellOrdered(steps) && RecordAt(FeedTrim.Run(steps).records, loc) == Some(m)
    ensures LastPut(AllCommits(steps), loc, m)
  {
    if steps != [] {
      var init, step := steps[..|steps| - 1], steps[|steps| - 1];
      var s := FeedTrim.Run(init);
      FeedTrim.RunInv(init);
      StepPuts(s, step, loc, m);
      if step.Batch? {
        BatchLeaves(s, step.commits, loc);
        if Names(step.commits, loc) {
          var i := LastOf(step.commits, loc);
        } else {
          RecordIsLastPut(init, loc, m);
        }
        LastPutMore(AllCommits(init), step.commits, loc, m);
      } else {
        RecordIsLastPut(init, loc, m);
        assert AllCommits(init) + [] == AllCommits(init);
      }
    }
  }

  /** Commit `i` of the stream is the last for the record, and puts this version of it. */
  ghost predicate PutAt(cs: seq<Commit>, loc: FeedTrim.Loc, m: FeedTrim.Meta, i: nat) {
    && i < |cs| && cs[i].did == loc.did && cs[i].rkey == loc.rkey
    && cs[i].action.Put? && m == FeedTrim.Meta(cs[i].cursor, cs[i].rev)
    && forall j :: i < j < |cs| ==> cs[j].did != loc.did || cs[j].rkey != loc.rkey
  }

  lemma LastPutOnStream(cs: seq<Commit>, loc: FeedTrim.Loc, m: FeedTrim.Meta)
    ensures LastPut(FeedCommits(cs), loc, m) <==> exists i: nat :: PutAt(cs, loc, m, i)
  {
    var fs := FeedCommits(cs);
    if LastPut(fs, loc, m) {
      var i: nat :| LastFor(fs, loc, i) && Leaves(fs[i]) == Some(m);
      assert forall j :: i < j < |cs| ==> fs[j].loc != loc;
      assert PutAt(cs, loc, m, i);
    }
    if i: nat :| PutAt(cs, loc, m, i) {
      assert LastFor(fs, loc, i);
    }
  }

  /* ---- the commits of the feed are those of the stream ---- */

  lemma FeedCommitsJoin(a: seq<Commit>, b: seq<Commit>)
    ensures FeedCommits(a + b) == FeedCommits(a) + FeedCommits(b)
  {
  }

  /** A batch that did not overflow holds the collection's commits as they arrived. */
  lemma HeldAsArrived(b: EventBatch, history: seq<Event>, nsid: Nsid)
    requires Takes(b, history) && |CommitsOf(history, nsid)| <= MAX_BATCHED_RECORDS
    ensures CommitsAt(b, nsid) == CommitsOf(history, nsid)
  {
    assert BufferOk(b.commits, nsid, CommitsOf(history, nsid));
  }

  ghost predicate NoneOverflows(past: seq<seq<Event>>, nsid: Nsid) {
    forall k :: 0 <= k < |past| ==> |CommitsOf(past[k], nsid)| <= MAX_BATCHED_RECORDS
  }

  lemma {:induction false} FeedCommitsAre(sent: seq<EventBatch>, past: seq<seq<Event>>, nsid: Nsid,
                                          steps: seq<FeedTrim.Step>, taken: seq<nat>)
    requires AllTake(sent, past) && Increasing(Flatten(past)) && IsFeedRun(sent, nsid, steps, taken)
    requires NoneOverflows(past, nsid)
    ensures taken[|steps|] <= |past|
    ensures AllCommits(steps) == FeedCommits(CommitsOf(Flatten(past[..taken[|steps|]]), nsid))
  {
    if steps == [] {
      assert past[..0] == [];
    } else {
      var n := |steps| - 1;
      FeedRunInit(sent, nsid, steps, taken);
      FeedCommitsAre(sent, past, nsid, steps[..n], taken[..n + 1]);
      if steps[n].Batch? {
        CommitsMore(sent, past, nsid, steps[n], taken[n], taken[n + 1]);
      } else {
        assert AllCommits(steps[..n]) + [] == AllCommits(steps[..n]);
      }
    }
  }

  lemma CommitsMore(sent: seq<EventBatch>, past: seq<seq<Event>>, nsid: Nsid, step: FeedTrim.Step, k: nat, k': nat)
    requires AllTake(sent, past) && Increasing(Flatten(past)) && NoneOverflows(past, nsid)
    requires step.Batch? && FeedMoves(sent, nsid, step, k, k')
    ensures k' <= |past|
    ensures FeedCommits(CommitsOf(Flatten(past[..k']), nsid)) ==
            FeedCommits(CommitsOf(Flatten(past[..k]), nsid)) + step.commits
  {
    NextTaken(sent, past, k, k');
    CommitsJoin(Flatten(past[..k]), past[k' - 1], nsid);
    HeldAsArrived(sent[k' - 1], past[k' - 1], nsid);
    FeedCommitsJoin(CommitsOf(Flatten(past[..k]), nsid), CommitsOf(past[k' - 1], nsid));
  }

  /**
  Over every run of the batcher and of a collection's feed on the batches it sends,
  in which no batch overflowed: the records put by the steps and spared since are
  those there, and each is what the last commit for it on the stream so far left.
  */
  lemma StreamRecords(arrivals: seq<BatcherRuns.Step>, past: seq<seq<Event>>, now: seq<Event>, nsid: Nsid,
                      steps: seq<FeedTrim.Step>, taken: seq<nat>, loc: FeedTrim.Loc, m: FeedTrim.Meta)
    requires Run(arrivals).Some? && Increasing(Arrived(arrivals))
    requires Pieces(Run(arrivals).value, past, now) && Flatten(past) + now == Arrived(arrivals)
    requires IsFeedRun(Run(arrivals).value.sent, nsid, steps, taken) && NoneOverflows(past, nsid)
    ensures RecordAt(FeedTrim.Run(steps).records, loc) == Some(m) <==> PutAndSpared(steps, loc, m)
    ensures taken[|steps|] <= |past|
    ensures RecordAt(FeedTrim.Run(steps).records, loc) == Some(m) ==>
              exists i: nat :: PutAt(CommitsOf(Flatten(past[..taken[|steps|]]), nsid), loc, m, i)
  {
    IncreasingParts(Flatten(past), now);
    var sent := Run(arrivals).value.sent;
    assert AllTake(sent, past);
    FeedRunOrdered(sent, past, nsid, steps, taken);
    RecordIff(steps, loc, m);
    FeedCommitsAre(sent, past, nsid, steps, taken);
    if RecordAt(FeedTrim.Run(steps).records, loc) == Some(m) {
      RecordIsLastPut(steps, loc, m);
      LastPutOnStream(CommitsOf(Flatten(past[..taken[|steps|]]), nsid), loc, m);
    }
  }
}
