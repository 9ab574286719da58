/**
Which records a collection holds, read off the steps of its feed: what a batch does
to one record, which records a trim drops, and so what is there after every run.
*/
module FeedRecords {
  import opened Options
  import opened FeedTrim

  function RecordAt(records: map<Loc, Meta>, loc: Loc): Option<Meta> {
    if loc in records then Some(records[loc]) else None
  }

  /* ---- a batch ---- */

  ghost predicate Names(cs: seq<Commit>, loc: Loc) {
    exists i :: 0 <= i < |cs| && cs[i].loc == loc
  }

  /** Commit `i` is the last one for a location. */
  ghost predicate LastFor(cs: seq<Commit>, loc: Loc, i: nat) {
    i < |cs| && cs[i].loc == loc && forall j :: i < j < |cs| ==> cs[j].loc != loc
  }

  /** What a commit leaves of its record. */
  function Leaves(c: Commit): Option<Meta> {
    if c.Put? then Some(Meta(c.cursor, c.rev)) else None
  }

  lemma CommitLeaves(s: Shelf, c: Commit, loc: Loc)
    ensures RecordAt(ApplyCommit(s, c).records, loc) == if c.loc == loc then Leaves(c) else RecordAt(s.records, loc)
  {
  }

  /** After a batch a record is what its last commit there left of it... */
  lemma {:induction false} LastLeaves(s: Shelf, cs: seq<Commit>, loc: Loc, i: nat)
    requires LastFor(cs, loc, i)
    ensures RecordAt(ApplyCommits(s, cs).records, loc) == Leaves(cs[i])
  {
    var n := |cs| - 1;
    CommitLeaves(ApplyCommits(s, cs[..n]), cs[n], loc);
    if i < n {
      LastLeaves(s, cs[..n], loc, i);
    }
  }

  /** ...and a record not named is as before. */
  lemma {:induction false} UnnamedStays(s: Shelf, cs: seq<Commit>, loc: Loc)
    requires !Names(cs, loc)
    ensures RecordAt(ApplyCommits(s, cs).records, loc) == RecordAt(s.records, loc)
  {
    if cs != [] {
      var n := |cs| - 1;
      assert forall i :: 0 <= i < n ==> cs[..n][i] == cs[i];
      UnnamedStays(s, cs[..n], loc);
      CommitLeaves(ApplyCommits(s, cs[..n]), cs[n], loc);
    }
  }

  lemma BatchLeaves(s: Shelf, cs: seq<Commit>, loc: Loc)
    ensures forall i: nat :: LastFor(cs, loc, i) ==>
              RecordAt(ApplyCommits(s, cs).records, loc) == Leaves(cs[i])
    ensures !Names(cs, loc) ==> RecordAt(ApplyCommits(s, cs).records, loc) == RecordAt(s.records, loc)
  {
    forall i: nat | LastFor(cs, loc, i) ensures RecordAt(ApplyCommits(s, cs).records, loc) == Leaves(cs[i]) {
      LastLeaves(s, cs, loc, i);
    }
    if !Names(cs, loc) {
      UnnamedStays(s, cs, loc);
    }
  }

  lemma {:induction false} LastOf(cs: seq<Commit>, loc: Loc) returns (i: nat)
    requires Names(cs, loc)
    ensures LastFor(cs, loc, i)
  {
    i := |cs| - 1;
    if cs[i].loc != loc {
      var j :| 0 <= j < |cs| && cs[j].loc == loc;
      assert cs[..i][j].loc == loc;
      var n := i;
      i := LastOf(cs[..n], loc);
      assert forall k :: 0 <= k < n ==> cs[..n][k] == cs[k];
    }
  }

  /* ---- a trim ---- */

  /** The records with a newer version than a cursor. */
  ghost function Newer(records: map<Loc, Meta>, cursor: nat): set<Loc> {
    set loc | loc in records && records[loc].cursor > cursor
  }

  /** Behind a live entry come as many entries as there are newer records. */
  lemma NewerBehind(live: seq<Feed>, records: map<Loc, Meta>, p: nat)
    requires p < |live| && Ascending(live) && Fed(live, records) && forall f :: f in live ==> Judge(f, records) == Live
    ensures |Newer(records, live[p].cursor)| == |live| - p - 1
  {
    var behind := live[p + 1..];
    forall loc ensures loc in Newer(records, live[p].cursor) <==> loc in Locs(behind) {
      if loc in Newer(records, live[p].cursor) {
        var i :| 0 <= i < |live| && live[i] == Feed(records[loc].cursor, loc, records[loc].rev);
        assert i > p && behind[i - p - 1] == live[i];
      }
      if loc in Locs(behind) {
        var i :| 0 <= i < |behind| && behind[i].loc == loc;
        assert behind[i] == live[p + 1 + i] && live[p + 1 + i] in live;
      }
    }
    assert Newer(records, live[p].cursor) == Locs(behind);
    forall f | f in behind ensures Judge(f, records) == Live {
      assert f in live;
    }
    DistinctLocs(behind, records);
  }

  /** A trim keeps a record exactly when fewer than `limit` records are newer. */
  lemma TrimKeepsIff(s: Shelf, limit: nat, fullScan: bool, loc: Loc)
    requires FeedTrim.Inv(s) && loc in s.records
    ensures var t := Trimmed(s, limit, fullScan);
            && (loc in t.records <==> |Newer(s.records, s.records[loc].cursor)| < limit)
            && (loc in t.records ==> t.records[loc] == s.records[loc])
  {
    TrimmedIs(s, limit, fullScan);
    LiveIsFed(s.feed, s.records);
    var live := LiveOnly(s.feed, s.records);
    var f := Feed(s.records[loc].cursor, loc, s.records[loc].rev);
    assert f in live;
    var p :| 0 <= p < |live| && live[p] == f;
    NewerBehind(live, s.records, p);
    OldestHas(live, s.records, limit, p);
  }

  lemma OldestHas(live: seq<Feed>, records: map<Loc, Meta>, limit: nat, p: nat)
    requires p < |live| && Ascending(live) && forall f :: f in live ==> Judge(f, records) == Live
    ensures live[p].loc in Locs(Oldest(live, limit)) <==> |live| - p - 1 >= limit
  {
    var gone := Oldest(live, limit);
    assert live[p] in live;
    if live[p].loc in Locs(gone) {
      var i :| 0 <= i < |gone| && gone[i].loc == live[p].loc;
      assert gone[i] == live[i] && live[i] in live;
    }
    if |live| - p - 1 >= limit {
      assert gone[p] == live[p];
    }
  }

  /** What a trim takes away is gone: a location without a record gets none. */
  lemma TrimAddsNone(s: Shelf, limit: nat, fullScan: bool, loc: Loc)
    requires FeedTrim.Inv(s) && loc !in s.records
    ensures loc !in Trimmed(s, limit, fullScan).records
  {
    TrimmedIs(s, limit, fullScan);
  }

  /* ---- runs ---- */

  /** In step `k` the last commit for the location put this version. */
  ghost predicate PutBy(steps: seq<Step>, loc: Loc, m: Meta, k: nat) {
    && k < |steps| && steps[k].Batch?
    && exists i: nat :: LastFor(steps[k].commits, loc, i) && Leaves(steps[k].commits[i]) == Some(m)
  }

  /** A step that leaves a record alone: it does not name it, or its account, or has too few newer ones to drop it. */
  ghost predicate Spares(records: map<Loc, Meta>, step: Step, loc: Loc, m: Meta) {
    match step
    case Batch(cs, _) => !Names(cs, loc)
    case DeleteAccount(did) => did != loc.did
    case Trim(limit, _) => |Newer(records, m.cursor)| < limit
    case Reroll => true
  }

  ghost predicate SparedSince(steps: seq<Step>, loc: Loc, m: Meta, k: nat) {
    forall j :: k < j < |steps| ==> Spares(Run(steps[..j]).records, steps[j], loc, m)
  }

  /** What one step does to a record that is there. */
  lemma StepSpares(s: Shelf, step: Step, loc: Loc, m: Meta)
    requires FeedTrim.Inv(s) && RecordAt(s.records, loc) == Some(m)
    requires step.Batch? ==> !Names(step.commits, loc)
    ensures Spares(s.records, step, loc, m) <==> RecordAt(Apply(s, step).records, loc) == Some(m)
  {
    match step
    case Batch(cs, latest) => BatchLeaves(s, cs, loc);
    case Trim(limit, fullScan) => TrimKeepsIff(s, limit, fullScan, loc);
    case _ =>
  }

  /** A record that appears or changes was put by a batch. */
  lemma StepPuts(s: Shelf, step: Step, loc: Loc, m: Meta)
    requires FeedTrim.Inv(s) && RecordAt(Apply(s, step).records, loc) == Some(m)
    ensures RecordAt(s.records, loc) == Some(m) || (step.Batch? && Names(step.commits, loc))
  {
    match step
    case Batch(cs, latest) => BatchLeaves(s, cs, loc);
    case Trim(limit, fullScan) =>
      if loc in s.records {
        TrimKeepsIff(s, limit, fullScan, loc);
      } else {
        TrimAddsNone(s, limit, fullScan, loc);
      }
    case _ =>
  }

  lemma SamePrefix<T>(s: seq<T>, n: nat, k: nat)
    requires k <= n <= |s|
    ensures s[..n][..k] == s[..k]
  {
  }

  lemma PutInit(steps: seq<Step>, loc: Loc, m: Meta, k: nat)
    requires steps != [] && k < |steps| - 1
    ensures PutBy(steps, loc, m, k) <==> PutBy(steps[..|steps| - 1], loc, m, k)
  {
  }

  lemma SparedInit(steps: seq<Step>, loc: Loc, m: Meta, k: nat)
    requires steps != [] && k < |steps| - 1 && SparedSince(steps, loc, m, k)
    ensures SparedSince(steps[..|steps| - 1], loc, m, k)
    ensures Spares(Run(steps[..|steps| - 1]).records, steps[|steps| - 1], loc, m)
  {
    var n := |steps| - 1;
    forall j | k < j < n ensures Spares(Run(steps[..n][..j]).records, steps[..n][j], loc, m) {
      SamePrefix(steps, n, j);
    }
  }

  lemma SparedMore(steps: seq<Step>, loc: Loc, m: Meta, k: nat)
    requires steps != [] && k < |steps| - 1 && SparedSince(steps[..|steps| - 1], loc, m, k)
    requires Spares(Run(steps[..|steps| - 1]).records, steps[|steps| - 1], loc, m)
    ensures SparedSince(steps, loc, m, k)
  {
    var n := |steps| - 1;
    forall j | k < j < n ensures Spares(Run(steps[..j]).records, steps[j], loc, m) {
      assert Spares(Run(steps[..n][..j]).records, steps[..n][j], loc, m);
      SamePrefix(steps, n, j);
    }
  }

  lemma PutLast(s: Shelf, steps: seq<Step>, loc: Loc, m: Meta)
    requires steps != []
    ensures PutBy(steps, loc, m, |steps| - 1) ==> RecordAt(Apply(s, steps[|steps| - 1]).records, loc) == Some(m)
    ensures var step := steps[|steps| - 1];
            step.Batch? && Names(step.commits, loc) && RecordAt(Apply(s, step).records, loc) == Some(m) ==>
              PutBy(steps, loc, m, |steps| - 1)
  {
    var step := steps[|steps| - 1];
    if step.Batch? {
      BatchLeaves(s, step.commits, loc);
      if Names(step.commits, loc) {
        var i := LastOf(step.commits, loc);
      }
    }
  }

  /** Put by some batch and spared ever since. */
  ghost predicate PutAndSpared(steps: seq<Step>, loc: Loc, m: Meta) {
    exists k: nat :: PutBy(steps, loc, m, k) && SparedSince(steps, loc, m, k)
  }

  /**
  Over every run of batches, trims, account deletions and rerolls: a version of a
  record is there exactly when some batch's last commit for it put that version, and
  since then no batch named it, its account was not deleted, and every trim found
  fewer than its limit of newer records.
  */
  lemma {:induction false} RecordIff(steps: seq<Step>, loc: Loc, m: Meta)
    requires WellOrdered(steps)
    ensures RecordAt(Run(steps).records, loc) == Some(m) <==> PutAndSpared(steps, loc, m)
  {
    if steps != [] {
      RecordIff(steps[..|steps| - 1], loc, m);
      RunInv(steps[..|steps| - 1]);
      RecordMore(steps, Run(steps[..|steps| - 1]), loc, m);
    }
  }

  lemma RecordMore(steps: seq<Step>, s: Shelf, loc: Loc, m: Meta)
    requires steps != [] && s == Run(steps[..|steps| - 1]) && FeedTrim.Inv(s)
    requires RecordAt(s.records, loc) == Some(m) <==> PutAndSpared(steps[..|steps| - 1], loc, m)
    ensures RecordAt(Apply(s, steps[|steps| - 1]).records, loc) == Some(m) <==> PutAndSpared(steps, loc, m)
  {
    var n := |steps| - 1;
    PutLast(s, steps, loc, m);
    if RecordAt(Apply(s, steps[n]).records, loc) == Some(m) {
      StillThere(steps, s, loc, m);
    }
    if PutAndSpared(steps, loc, m) {
      var k: nat :| PutBy(steps, loc, m, k) && SparedSince(steps, loc, m, k);
      if k < n {
        PutInit(steps, loc, m, k);
        SparedInit(steps, loc, m, k);
        StepSpares(s, steps[n], loc, m);
      }
    }
  }

  lemma StillThere(steps: seq<Step>, s: Shelf, loc: Loc, m: Meta)
    requires steps != [] && s == Run(steps[..|steps| - 1]) && FeedTrim.Inv(s)
    requires RecordAt(Apply(s, steps[|steps| - 1]).records, loc) == Some(m)
    requires RecordAt(s.records, loc) == Some(m) ==> PutAndSpared(steps[..|steps| - 1], loc, m)
    ensures PutAndSpared(steps, loc, m)
  {
    var n := |steps| - 1;
    StepPuts(s, steps[n], loc, m);
    if steps[n].Batch? && Names(steps[n].commits, loc) {
      PutLast(s, steps, loc, m);
      assert PutBy(steps, loc, m, n) && SparedSince(steps, loc, m, n);
    } else {
      var k: nat :| PutBy(steps[..n], loc, m, k) && SparedSince(steps[..n], loc, m, k);
      PutInit(steps, loc, m, k);
      StepSpares(s, steps[n], loc, m);
      SparedMore(steps, loc, m, k);
    }
  }

  /* ---- the trim cursor ---- */

  /** The trim dropped this record, and none newer. */
  ghost predicate NewestDropped(before: map<Loc, Meta>, after: map<Loc, Meta>, loc: Loc) {
    && loc in before && loc !in after
    && forall x :: x in before && x !in after ==> before[x].cursor <= before[loc].cursor
  }

  ghost predicate DroppedTo(before: map<Loc, Meta>, after: map<Loc, Meta>, cursor: nat) {
    exists loc :: NewestDropped(before, after, loc) && before[loc].cursor == cursor
  }

  /** What a trim makes of the live entries, one per record. */
  lemma TrimParts(s: Shelf, limit: nat, fullScan: bool) returns (live: seq<Feed>)
    requires FeedTrim.Inv(s)
    ensures Ascending(live) && |live| == |s.records| && forall f :: f in live ==> Judge(f, s.records) == Live
    ensures Trimmed(s, limit, fullScan).records == s.records - Locs(Oldest(live, limit))
    ensures Trimmed(s, limit, fullScan).trimCursor ==
            if NewCursor(live, limit).Some? then NewCursor(live, limit).value else s.trimCursor
  {
    live := LiveOnly(s.feed, s.records);
    TrimmedIs(s, limit, fullScan);
    LiveIsFed(s.feed, s.records);
  }

  /** The cursor moves to the newest record dropped, and stays when there is none. */
  lemma CursorMoves(live: seq<Feed>, records: map<Loc, Meta>, limit: nat, after: map<Loc, Meta>)
    requires Ascending(live) && |live| == |records| && forall f :: f in live ==> Judge(f, records) == Live
    requires after == records - Locs(Oldest(live, limit))
    ensures if |records| <= limit then NewCursor(live, limit).None? && after == records
            else NewCursor(live, limit).Some? && DroppedTo(records, after, NewCursor(live, limit).value)
  {
    if |records| <= limit {
      assert Locs(Oldest(live, limit)) == {};
    } else {
      NewestOfOldest(live, records, limit);
    }
  }

  /** A trim moves the cursor to the newest record it drops; one that drops none leaves it. */
  lemma TrimMovesCursor(s: Shelf, limit: nat, fullScan: bool, t: Shelf)
    requires FeedTrim.Inv(s) && t == Trimmed(s, limit, fullScan)
    ensures if |s.records| <= limit then t.trimCursor == s.trimCursor && t.records == s.records
            else DroppedTo(s.records, t.records, t.trimCursor)
  {
    var live := TrimParts(s, limit, fullScan);
    CursorMoves(live, s.records, limit, t.records);
  }

  lemma NewestOfOldest(live: seq<Feed>, records: map<Loc, Meta>, limit: nat)
    requires |live| > limit && Ascending(live) && forall f :: f in live ==> Judge(f, records) == Live
    ensures var last := live[|live| - limit - 1];
            NewestDropped(records, records - Locs(Oldest(live, limit)), last.loc)
            && records[last.loc].cursor == last.cursor
  {
    var gone, p := Oldest(live, limit), |live| - limit - 1;
    assert live[p] in live && gone[p] == live[p];
    forall x | x in records && x in Locs(gone) ensures records[x].cursor <= live[p].cursor {
      var i :| 0 <= i < |gone| && gone[i].loc == x;
      assert gone[i] == live[i] && live[i] in live;
    }
  }

  ghost predicate NoReroll(steps: seq<Step>, k: nat) {
    forall j :: k < j < |steps| ==> !steps[j].Reroll?
  }

  lemma NoRerollMore(steps: seq<Step>, k: nat)
    requires steps != [] && NoReroll(steps[..|steps| - 1], k) && !steps[|steps| - 1].Reroll?
    ensures NoReroll(steps, k)
  {
    assert forall j :: 0 <= j < |steps| - 1 ==> steps[..|steps| - 1][j] == steps[j];
  }

  /** Step `k` is a trim that left the cursor at the newest record it dropped, and no reroll came since. */
  ghost predicate TrimmedTo(steps: seq<Step>, k: nat, cursor: nat) {
    && k < |steps| && steps[k].Trim? && NoReroll(steps, k)
    && DroppedTo(Run(steps[..k]).records, Run(steps[..k + 1]).records, cursor)
  }

  ghost predicate CursorFromTrim(steps: seq<Step>, cursor: nat) {
    cursor > 0 ==> exists k: nat :: TrimmedTo(steps, k, cursor)
  }

  /** Over every run: the trim cursor is at the newest record dropped by some trim since the last reroll, or at 0. */
  lemma {:induction false} TrimCursorIs(steps: seq<Step>)
    requires WellOrdered(steps)
    ensures CursorFromTrim(steps, Run(steps).trimCursor)
  {
    if steps != [] {
      var n := |steps| - 1;
      TrimCursorIs(steps[..n]);
      RunInv(steps[..n]);
      TrimCursorMore(steps, Run(steps[..n]));
    }
  }

  lemma TrimCursorMore(steps: seq<Step>, s: Shelf)
    requires steps != [] && s == Run(steps[..|steps| - 1]) && FeedTrim.Inv(s)
    requires CursorFromTrim(steps[..|steps| - 1], s.trimCursor)
    ensures CursorFromTrim(steps, Apply(s, steps[|steps| - 1]).trimCursor)
  {
    var step, t := steps[|steps| - 1], Apply(s, steps[|steps| - 1]);
    if step.Trim? && |s.records| > step.limit {
      TrimMovesCursor(s, step.limit, step.fullScan, t);
      TrimmedNow(steps, t.trimCursor);
    } else if t.trimCursor > 0 {
      CursorKept(s, step);
      var k: nat :| TrimmedTo(steps[..|steps| - 1], k, s.trimCursor);
      TrimmedStill(steps, k, s.trimCursor);
    }
  }

  lemma TrimmedNow(steps: seq<Step>, cursor: nat)
    requires steps != [] && steps[|steps| - 1].Trim?
    requires var s := Run(steps[..|steps| - 1]);
             DroppedTo(s.records, Apply(s, steps[|steps| - 1]).records, cursor)
    ensures TrimmedTo(steps, |steps| - 1, cursor)
  {
    assert steps[..|steps| - 1 + 1] == steps;
  }

  lemma TrimmedStill(steps: seq<Step>, k: nat, cursor: nat)
    requires steps != [] && TrimmedTo(steps[..|steps| - 1], k, cursor) && !steps[|steps| - 1].Reroll?
    ensures TrimmedTo(steps, k, cursor)
  {
    NoRerollMore(steps, k);
    SamePrefix(steps, |steps| - 1, k);
    SamePrefix(steps, |steps| - 1, k + 1);
  }

  lemma CursorKept(s: Shelf, step: Step)
    requires FeedTrim.Inv(s) && Apply(s, step).trimCursor > 0 && !(step.Trim? && |s.records| > step.limit)
    ensures !step.Reroll? && Apply(s, step).trimCursor == s.trimCursor
  {
    match step
    case Batch(cs, _) => CommitsKeepCursor(s, cs);
    case Trim(limit, fullScan) => TrimMovesCursor(s, limit, fullScan, Trimmed(s, limit, fullScan));
    case _ =>
  }

  lemma {:induction false} CommitsKeepCursor(s: Shelf, cs: seq<Commit>)
    ensures ApplyCommits(s, cs).trimCursor == s.trimCursor
  {
    if cs != [] {
      CommitsKeepCursor(s, cs[..|cs| - 1]);
    }
  }
}
