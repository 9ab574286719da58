/**
One collection's feed and records: commits are added, accounts deleted, and the
oldest records trimmed, scanning back only as far as the trim cursor.
*/
module FeedTrim {
  import opened Options

  type Did = string

  /** Where a record lives (within the collection), and what the feed and the record remember of it. */
  datatype Loc = Loc(did: Did, rkey: string)
  datatype Feed = Feed(cursor: nat, loc: Loc, rev: string)
  datatype Meta = Meta(cursor: nat, rev: string)
  datatype Commit = Put(cursor: nat, loc: Loc, rev: string) | Cut(cursor: nat, loc: Loc)

  /** The feed in cursor order, the records, the collection's trim cursor and the last batch's cursor. */
  datatype Shelf = Shelf(feed: seq<Feed>, records: map<Loc, Meta>, trimCursor: nat, newest: nat)

  /* ---- what a trim finds in each feed entry ---- */

  datatype Verdict = Live | Stale | Clash

  /** Live: the record still holds that very version. Clash: same cursor but another rev. */
  function Judge(f: Feed, records: map<Loc, Meta>): Verdict {
    if f.loc !in records || records[f.loc].cursor != f.cursor then Stale
    else if records[f.loc].rev != f.rev then Clash
    else Live
  }

  function LiveOnly(feed: seq<Feed>, records: map<Loc, Meta>): (r: seq<Feed>)
    ensures |r| <= |feed|
    ensures forall f :: f in r <==> f in feed && Judge(f, records) == Live
  {
    if feed == [] then []
    else
      var rest := LiveOnly(feed[1..], records);
      if Judge(feed[0], records) == Live then [feed[0]] + rest else rest
  }

  ghost function Clashes(feed: seq<Feed>, records: map<Loc, Meta>): set<Loc> {
    set i | 0 <= i < |feed| && Judge(feed[i], records) == Clash :: feed[i].loc
  }

  /** The newest `limit` entries of a list in cursor order, and the rest. */
  function Newest(s: seq<Feed>, limit: nat): seq<Feed> {
    if |s| <= limit then s else s[|s| - limit..]
  }

  function Oldest(s: seq<Feed>, limit: nat): seq<Feed> {
    if |s| <= limit then [] else s[..|s| - limit]
  }

  ghost function Locs(s: seq<Feed>): set<Loc> {
    set i | 0 <= i < |s| :: s[i].loc
  }

  ghost predicate Ascending(feed: seq<Feed>) {
    forall i, j :: 0 <= i < j < |feed| ==> feed[i].cursor < feed[j].cursor
  }

  /* ---- operations ---- */

  /** Writes one feed key: keys are cursors, and an equal key is overwritten. */
  function AddFeed(feed: seq<Feed>, f: Feed): seq<Feed> {
    if feed == [] then [f]
    else
      var last := feed[|feed| - 1];
      if last.cursor < f.cursor then feed + [f]
      else if last.cursor == f.cursor then feed[..|feed| - 1] + [f]
      else AddFeed(feed[..|feed| - 1], f) + [last]
  }

  function ApplyCommit(s: Shelf, c: Commit): Shelf {
    match c
    case Cut(_, loc) => s.(records := s.records - {loc})
    case Put(cursor, loc, rev) =>
      s.(feed := AddFeed(s.feed, Feed(cursor, loc, rev)), records := s.records[loc := Meta(cursor, rev)])
  }

  function ApplyCommits(s: Shelf, cs: seq<Commit>): Shelf {
    if cs == [] then s else ApplyCommit(ApplyCommits(s, cs[..|cs| - 1]), cs[|cs| - 1])
  }

  function WithoutDid(records: map<Loc, Meta>, did: Did): map<Loc, Meta> {
    map loc | loc in records && loc.did != did :: records[loc]
  }

  /** How much of the feed lies below a cursor. */
  function Below(feed: seq<Feed>, cursor: nat): (n: nat)
    ensures n <= |feed|
    ensures forall i :: 0 <= i < n ==> feed[i].cursor < cursor
    ensures n < |feed| ==> feed[n].cursor >= cursor
  {
    if feed == [] || feed[0].cursor >= cursor then 0 else 1 + Below(feed[1..], cursor)
  }

  ghost function Gone(feed: seq<Feed>, records: map<Loc, Meta>, limit: nat): set<Loc> {
    Locs(Oldest(LiveOnly(feed, records), limit)) + Clashes(feed, records)
  }

  function NewCursor(live: seq<Feed>, limit: nat): Option<nat> {
    if |live| <= limit then None else Some(live[|live| - limit - 1].cursor)
  }

  /** A trim: what was scanned keeps only its newest `limit` live entries. */
  ghost function Trimmed(s: Shelf, limit: nat, fullScan: bool): Shelf {
    var k := if fullScan then 0 else Below(s.feed, s.trimCursor);
    var live := LiveOnly(s.feed[k..], s.records);
    Shelf(s.feed[..k] + Newest(live, limit),
          s.records - Gone(s.feed[k..], s.records, limit),
          if NewCursor(live, limit).Some? then NewCursor(live, limit).value else s.trimCursor,
          s.newest)
  }

  /* ---- runs ---- */

  datatype Step =
    | Batch(commits: seq<Commit>, latest: nat)
    | DeleteAccount(did: Did)
    | Trim(limit: nat, fullScan: bool)
    | Reroll

  ghost function Apply(s: Shelf, step: Step): Shelf {
    match step
    case Batch(cs, latest) => ApplyCommits(s, cs).(newest := latest)
    case DeleteAccount(did) => s.(records := WithoutDid(s.records, did))
    case Trim(limit, fullScan) => Trimmed(s, limit, fullScan)
    case Reroll => s.(trimCursor := 0)
  }

  ghost function Run(steps: seq<Step>): Shelf {
    if steps == [] then Shelf([], map[], 0, 0) else Apply(Run(steps[..|steps| - 1]), steps[|steps| - 1])
  }

  /** A batch's cursors are distinct and newer than every earlier batch; their order is free. */
  ghost predicate Follows(s: Shelf, step: Step) {
    step.Batch? ==>
      && s.newest <= step.latest
      && (forall i :: 0 <= i < |step.commits| ==> s.newest < step.commits[i].cursor <= step.latest)
      && (forall i, j :: 0 <= i < j < |step.commits| ==> step.commits[i].cursor != step.commits[j].cursor)
  }

  ghost predicate WellOrdered(steps: seq<Step>) {
    steps != [] ==> WellOrdered(steps[..|steps| - 1]) && Follows(Run(steps[..|steps| - 1]), steps[|steps| - 1])
  }

  /* ---- invariant ---- */

  /** Every record has its own version in the feed. */
  ghost predicate Fed(feed: seq<Feed>, records: map<Loc, Meta>) {
    forall loc :: loc in records ==> Feed(records[loc].cursor, loc, records[loc].rev) in feed
  }

  ghost predicate Between(feed: seq<Feed>, low: nat, high: nat) {
    forall i :: 0 <= i < |feed| ==> low <= feed[i].cursor <= high
  }

  /** No feed entry lies below the trim cursor, so a scan from it misses nothing. */
  ghost predicate Inv(s: Shelf) {
    Ascending(s.feed) && Fed(s.feed, s.records) && Between(s.feed, s.trimCursor, s.newest) && s.trimCursor <= s.newest
  }

  /* ---- adding ---- */

  lemma {:induction false} AddFeedHolds(feed: seq<Feed>, f: Feed)
    requires forall i :: 0 <= i < |feed| ==> feed[i].cursor != f.cursor
    ensures forall x :: x in AddFeed(feed, f) <==> x in feed || x == f
  {
    if feed != [] {
      var n := |feed| - 1;
      AddFeedHolds(feed[..n], f);
      assert feed == feed[..n] + [feed[n]];
    }
  }

  lemma {:induction false} AddFeedAscending(feed: seq<Feed>, f: Feed)
    requires Ascending(feed)
    requires forall i :: 0 <= i < |feed| ==> feed[i].cursor != f.cursor
    ensures Ascending(AddFeed(feed, f))
  {
    if feed != [] && feed[|feed| - 1].cursor > f.cursor {
      var n := |feed| - 1;
      var r := AddFeed(feed[..n], f);
      AddFeedAscending(feed[..n], f);
      forall i | 0 <= i < |r| ensures r[i].cursor < feed[n].cursor {
        AddFeedHolds(feed[..n], f);
        assert r[i] in r;
      }
    }
  }

  lemma {:induction false} AddFeedAdds(feed: seq<Feed>, f: Feed, low: nat, high: nat)
    requires Ascending(feed) && Between(feed, low, high) && low <= f.cursor <= high
    requires forall i :: 0 <= i < |feed| ==> feed[i].cursor != f.cursor
    ensures var r := AddFeed(feed, f);
            && Ascending(r) && Between(r, low, high)
            && forall x :: x in r <==> x in feed || x == f
  {
    AddFeedHolds(feed, f);
    AddFeedAscending(feed, f);
    var r := AddFeed(feed, f);
    forall i | 0 <= i < |r| ensures low <= r[i].cursor <= high {
      assert r[i] in r;
    }
  }

  lemma {:induction false} AddedFed(feed: seq<Feed>, records: map<Loc, Meta>, f: Feed, feed': seq<Feed>)
    requires Fed(feed, records) && forall x :: x in feed' <==> x in feed || x == f
    ensures Fed(feed', records[f.loc := Meta(f.cursor, f.rev)])
  {
  }

  lemma CommitsAdd(s: Shelf, cs: seq<Commit>, latest: nat)
    requires Inv(s) && Follows(s, Batch(cs, latest))
    ensures var r := ApplyCommits(s, cs);
            && Inv(r.(newest := latest)) && r.trimCursor == s.trimCursor
            && forall f :: f in r.feed ==> f in s.feed || exists i :: 0 <= i < |cs| && cs[i].cursor == f.cursor
  {
    if cs != [] {
      var n := |cs| - 1;
      CommitsAdd(s, cs[..n], latest);
      var m, c := ApplyCommits(s, cs[..n]), cs[n];
      if c.Put? {
        forall i | 0 <= i < |m.feed| ensures m.feed[i].cursor != c.cursor {
          assert m.feed[i] in m.feed;
          if m.feed[i] !in s.feed {
            var j :| 0 <= j < n && cs[..n][j].cursor == m.feed[i].cursor;
            assert cs[j].cursor != cs[n].cursor;
          }
        }
        var f := Feed(c.cursor, c.loc, c.rev);
        AddFeedAdds(m.feed, f, s.trimCursor, latest);
        AddedFed(m.feed, m.records, f, AddFeed(m.feed, f));
      }
    }
  }

  /* ---- live entries and records ---- */

  lemma {:induction false} LiveOnlyAscending(feed: seq<Feed>, records: map<Loc, Meta>)
    requires Ascending(feed)
    ensures Ascending(LiveOnly(feed, records))
  {
    if feed != [] {
      LiveOnlyAscending(feed[1..], records);
      var rest := LiveOnly(feed[1..], records);
      forall i | 0 <= i < |rest| ensures feed[0].cursor < rest[i].cursor {
        assert rest[i] in feed[1..];
        var j :| 0 <= j < |feed[1..]| && feed[1..][j] == rest[i];
        assert feed[j + 1] == rest[i];
      }
    }
  }

  lemma {:induction false} DistinctLocs(live: seq<Feed>, records: map<Loc, Meta>)
    requires Ascending(live) && forall f :: f in live ==> Judge(f, records) == Live
    ensures |Locs(live)| == |live|
  {
    if live != [] {
      var n := |live| - 1;
      var init := live[..n];
      DistinctLocs(init, records);
      assert Locs(live) == Locs(init) + {live[n].loc};
      forall i | 0 <= i < n ensures init[i].loc != live[n].loc {
        assert live[i] in live && live[n] in live;
        assert live[i].cursor < live[n].cursor;
      }
      assert live[n].loc !in Locs(init);
    }
  }

  /** When all entries are live and every record has one, the entries are the records. */
  lemma {:induction false} AllLive(live: seq<Feed>, records: map<Loc, Meta>)
    requires Ascending(live) && Fed(live, records) && forall f :: f in live ==> Judge(f, records) == Live
    ensures Locs(live) == records.Keys && |live| == |records|
  {
    forall loc ensures loc in Locs(live) <==> loc in records {
      if loc in records {
        var i :| 0 <= i < |live| && live[i] == Feed(records[loc].cursor, loc, records[loc].rev);
        assert live[i].loc == loc;
      } else {
        forall i | 0 <= i < |live| ensures live[i].loc != loc {
          assert live[i] in live;
        }
      }
    }
    DistinctLocs(live, records);
  }

  /** A record whose cursor matches a feed entry has that entry's rev too. */
  lemma NoClash(feed: seq<Feed>, records: map<Loc, Meta>)
    requires Ascending(feed) && Fed(feed, records)
    ensures Clashes(feed, records) == {}
  {
    forall i | 0 <= i < |feed| ensures Judge(feed[i], records) != Clash {
      var loc := feed[i].loc;
      if loc in records && records[loc].cursor == feed[i].cursor {
        var f := Feed(records[loc].cursor, loc, records[loc].rev);
        assert f in feed;
        var j :| 0 <= j < |feed| && feed[j] == f;
        assert j == i;
      }
    }
  }

  /* ---- what a trim keeps ---- */

  lemma KeptOrGone(live: seq<Feed>, limit: nat)
    ensures live == Oldest(live, limit) + Newest(live, limit)
  {
  }

  /** Kept and dropped entries are at different locations. */
  lemma KeptNotGone(live: seq<Feed>, records: map<Loc, Meta>, gone: seq<Feed>, kept: seq<Feed>)
    requires Ascending(live) && live == gone + kept
    requires forall f :: f in live ==> Judge(f, records) == Live
    ensures forall f :: f in kept ==> f.loc !in Locs(gone)
  {
    forall f, i | f in kept && 0 <= i < |gone| ensures gone[i].loc != f.loc {
      var j :| 0 <= j < |kept| && kept[j] == f;
      assert live[|gone| + j] == f && live[i] == gone[i];
      assert live[i] in live && f in live;
    }
  }

  lemma KeptFed(live: seq<Feed>, records: map<Loc, Meta>, gone: seq<Feed>, kept: seq<Feed>)
    requires Fed(live, records) && live == gone + kept
    ensures Fed(kept, records - Locs(gone))
  {
    forall loc | loc in records && loc !in Locs(gone)
      ensures Feed(records[loc].cursor, loc, records[loc].rev) in kept
    {
      var f := Feed(records[loc].cursor, loc, records[loc].rev);
      assert forall i :: 0 <= i < |gone| ==> gone[i].loc in Locs(gone);
      assert f in live && f !in gone;
    }
  }

  /** With the invariant a scan from the trim cursor sees the whole feed and meets no clash. */
  lemma TrimmedIs(s: Shelf, limit: nat, fullScan: bool)
    requires Inv(s)
    ensures var live := LiveOnly(s.feed, s.records);
            var t := Trimmed(s, limit, fullScan);
            && t.feed == Newest(live, limit) && t.records == s.records - Locs(Oldest(live, limit))
            && t.trimCursor == (if NewCursor(live, limit).Some? then NewCursor(live, limit).value else s.trimCursor)
            && t.newest == s.newest
  {
    WholeFeed(s.feed, s.trimCursor, s.newest);
    NoClash(s.feed, s.records);
    var live := LiveOnly(s.feed, s.records);
    assert s.feed[..0] + Newest(live, limit) == Newest(live, limit);
    assert Gone(s.feed, s.records, limit) == Locs(Oldest(live, limit));
  }

  lemma WholeFeed(feed: seq<Feed>, low: nat, high: nat)
    requires Between(feed, low, high)
    ensures Below(feed, low) == 0 && feed[0..] == feed
  {
  }

  lemma NewestLength(live: seq<Feed>, limit: nat)
    ensures |Newest(live, limit)| == (if |live| < limit then |live| else limit)
  {
  }

  lemma LiveIsFed(feed: seq<Feed>, records: map<Loc, Meta>)
    requires Ascending(feed) && Fed(feed, records)
    ensures var live := LiveOnly(feed, records);
            Ascending(live) && Fed(live, records) && |live| == |records|
            && forall f :: f in live ==> Judge(f, records) == Live
  {
    LiveOnlyAscending(feed, records);
    AllLive(LiveOnly(feed, records), records);
  }

  /** The kept entries are exactly the kept records. */
  lemma KeptRecords(live: seq<Feed>, records: map<Loc, Meta>, gone: seq<Feed>, kept: seq<Feed>)
    requires Ascending(live) && live == gone + kept
    requires Fed(live, records) && forall f :: f in live ==> Judge(f, records) == Live
    ensures var left := records - Locs(gone);
            && |kept| == |left| && left.Keys == Locs(kept) && Fed(kept, left)
            && (forall f :: f in kept ==> Judge(f, left) == Live)
  {
    KeptNotGone(live, records, gone, kept);
    KeptFed(live, records, gone, kept);
    var left := records - Locs(gone);
    forall f | f in kept ensures Judge(f, left) == Live {
      assert f in live;
    }
    forall i, j | 0 <= i < j < |kept| ensures kept[i].cursor < kept[j].cursor {
      assert live[|gone| + i] == kept[i] && live[|gone| + j] == kept[j];
    }
    AllLive(kept, left);
  }

  /** Every record dropped is older than every record kept. */
  lemma OldestGo(live: seq<Feed>, records: map<Loc, Meta>, gone: seq<Feed>, kept: seq<Feed>, x: Loc, y: Loc)
    requires Ascending(live) && live == gone + kept
    requires forall f :: f in live ==> Judge(f, records) == Live
    requires x in Locs(gone) && y in Locs(kept)
    ensures x in records && y in records && records[x].cursor < records[y].cursor
  {
    var i :| 0 <= i < |gone| && gone[i].loc == x;
    var j :| 0 <= j < |kept| && kept[j].loc == y;
    assert live[i] == gone[i] && live[|gone| + j] == kept[j];
    assert live[i] in live && live[|gone| + j] in live;
  }

  /** Both trims give the same feed, records and trim cursor. */
  lemma TrimModesAgree(s: Shelf, limit: nat)
    requires Inv(s)
    ensures Trimmed(s, limit, true) == Trimmed(s, limit, false)
  {
    TrimmedIs(s, limit, true);
    TrimmedIs(s, limit, false);
  }

  /** The feed left is exactly the newest min(limit, live) live entries, one for each record left. */
  lemma TrimKeepsNewest(s: Shelf, limit: nat, fullScan: bool)
    requires Inv(s)
    ensures var t := Trimmed(s, limit, fullScan);
            && |t.feed| == |t.records| == (if |s.records| < limit then |s.records| else limit)
            && t.records.Keys == Locs(t.feed)
            && (forall f :: f in t.feed ==> Judge(f, t.records) == Live)
  {
    TrimmedIs(s, limit, fullScan);
    var live := LiveOnly(s.feed, s.records);
    LiveIsFed(s.feed, s.records);
    KeptOrGone(live, limit);
    NewestLength(live, limit);
    KeptRecords(live, s.records, Oldest(live, limit), Newest(live, limit));
  }

  /** Every record dropped is older than every record kept, and the kept ones are unchanged. */
  lemma TrimDropsOldest(s: Shelf, limit: nat, fullScan: bool)
    requires Inv(s)
    ensures var t := Trimmed(s, limit, fullScan);
            forall loc :: loc in t.records ==> loc in s.records && t.records[loc] == s.records[loc]
    ensures var t := Trimmed(s, limit, fullScan);
            forall gone, kept :: gone in s.records && gone !in t.records && kept in t.records ==>
              s.records[gone].cursor < t.records[kept].cursor
  {
    TrimmedIs(s, limit, fullScan);
    var t, live := Trimmed(s, limit, fullScan), LiveOnly(s.feed, s.records);
    forall x, y | x in s.records && x !in t.records && y in t.records
      ensures s.records[x].cursor < t.records[y].cursor {
      LiveIsFed(s.feed, s.records);
      KeptOrGone(live, limit);
      KeptRecords(live, s.records, Oldest(live, limit), Newest(live, limit));
      OldestGo(live, s.records, Oldest(live, limit), Newest(live, limit), x, y);
    }
  }

  lemma KeptBetween(live: seq<Feed>, limit: nat, low: nat, high: nat)
    requires Ascending(live) && Between(live, low, high) && low <= high
    ensures var c := NewCursor(live, limit);
            var low' := if c.Some? then c.value else low;
            Ascending(Newest(live, limit)) && Between(Newest(live, limit), low', high) && low' <= high
  {
  }

  lemma TrimKeepsInv(s: Shelf, limit: nat, fullScan: bool)
    requires Inv(s)
    ensures Inv(Trimmed(s, limit, fullScan))
  {
    TrimmedIs(s, limit, fullScan);
    var live := LiveOnly(s.feed, s.records);
    LiveIsFed(s.feed, s.records);
    KeptOrGone(live, limit);
    KeptRecords(live, s.records, Oldest(live, limit), Newest(live, limit));
    forall i | 0 <= i < |live| ensures s.trimCursor <= live[i].cursor <= s.newest {
      assert live[i] in live;
    }
    KeptBetween(live, limit, s.trimCursor, s.newest);
  }

  lemma {:induction false} RunInv(steps: seq<Step>)
    requires WellOrdered(steps)
    ensures Inv(Run(steps))
  {
    if steps != [] {
      var init, step := steps[..|steps| - 1], steps[|steps| - 1];
      RunInv(init);
      match step
      case Batch(cs, latest) => CommitsAdd(Run(init), cs, latest);
      case DeleteAccount(did) =>
      case Trim(limit, fullScan) => TrimKeepsInv(Run(init), limit, fullScan);
      case Reroll =>
    }
  }

  /** Over every run, however its earlier trims scanned, the next trim may scan either way. */
  lemma RunTrimsAgree(steps: seq<Step>, limit: nat)
    requires WellOrdered(steps)
    ensures Run(steps + [Trim(limit, false)]) == Run(steps + [Trim(limit, true)])
    ensures |Run(steps + [Trim(limit, false)]).records| ==
              (if |Run(steps).records| < limit then |Run(steps).records| else limit)
  {
    RunInv(steps);
    TrimModesAgree(Run(steps), limit);
    TrimKeepsNewest(Run(steps), limit, false);
    RunSnoc(steps, Trim(limit, false));
    RunSnoc(steps, Trim(limit, true));
  }

  lemma RunSnoc(steps: seq<Step>, step: Step)
    ensures Run(steps + [step]) == Apply(Run(steps), step)
  {
    assert (steps + [step])[..|steps|] == steps;
  }
}
