/**
The writer's side of one collection's feed and records, changed in place.
*/
module FeedStore {
  import opened Options
  import opened FeedTrim

  const MAX_BATCHED_ACCOUNT_DELETE_RECORDS: nat := 1024

  /* ---- one step of the backwards scan ---- */

  /** What one more entry adds to the live ones. */
  function MoreLive(f: Feed, records: map<Loc, Meta>, live: seq<Feed>): seq<Feed> {
    if Judge(f, records) == Live then [f] + live else live
  }

  /** What one more entry adds to the records that go. */
  function MoreGone(f: Feed, records: map<Loc, Meta>, limit: nat, live: seq<Feed>, gone: set<Loc>): set<Loc> {
    match Judge(f, records)
    case Live => if |live| < limit then gone else gone + {f.loc}
    case Clash => gone + {f.loc}
    case Stale => gone
  }

  lemma LiveOnlyMore(feed: seq<Feed>, i: nat, records: map<Loc, Meta>)
    requires i < |feed|
    ensures LiveOnly(feed[i..], records) == MoreLive(feed[i], records, LiveOnly(feed[i + 1..], records))
  {
    assert feed[i..][1..] == feed[i + 1..];
  }

  lemma LocsMore(f: Feed, s: seq<Feed>)
    ensures Locs([f] + s) == {f.loc} + Locs(s)
  {
    var more := [f] + s;
    assert more[0] == f;
    forall l ensures l in Locs(more) <==> l == f.loc || l in Locs(s) {
      if l in Locs(s) {
        var i :| 0 <= i < |s| && s[i].loc == l;
        assert more[i + 1].loc == l;
      }
      if l in Locs(more) && l != f.loc {
        var i :| 0 <= i < |more| && more[i].loc == l;
        assert s[i - 1].loc == l;
      }
    }
  }

  lemma ClashesMore(feed: seq<Feed>, i: nat, records: map<Loc, Meta>)
    requires i < |feed|
    ensures Clashes(feed[i..], records) ==
            (if Judge(feed[i], records) == Clash then {feed[i].loc} else {}) + Clashes(feed[i + 1..], records)
  {
    var more, rest := feed[i..], feed[i + 1..];
    assert more[0] == feed[i];
    forall l
      ensures l in Clashes(more, records) <==>
        (l == feed[i].loc && Judge(feed[i], records) == Clash) || l in Clashes(rest, records) {
      if l in Clashes(rest, records) {
        var j :| 0 <= j < |rest| && Judge(rest[j], records) == Clash && rest[j].loc == l;
        assert more[j + 1] == rest[j];
      }
      if l in Clashes(more, records) {
        var j :| 0 <= j < |more| && Judge(more[j], records) == Clash && more[j].loc == l;
        if j > 0 {
          assert rest[j - 1] == more[j];
        }
      }
    }
  }

  lemma PrependLive(f: Feed, live: seq<Feed>, limit: nat)
    ensures |live| < limit ==>
              Newest([f] + live, limit) == [f] + Newest(live, limit)
              && Oldest([f] + live, limit) == [] == Oldest(live, limit)
    ensures |live| >= limit ==>
              Newest([f] + live, limit) == Newest(live, limit) && Oldest([f] + live, limit) == [f] + Oldest(live, limit)
    ensures |live| > limit ==> NewCursor([f] + live, limit) == NewCursor(live, limit)
    ensures |live| == limit ==> NewCursor([f] + live, limit) == Some(f.cursor)
  {
  }

  lemma GoneMore(feed: seq<Feed>, i: nat, records: map<Loc, Meta>, limit: nat)
    requires i < |feed|
    ensures Gone(feed[i..], records, limit) ==
            MoreGone(feed[i], records, limit, LiveOnly(feed[i + 1..], records), Gone(feed[i + 1..], records, limit))
  {
    var live := LiveOnly(feed[i + 1..], records);
    LiveOnlyMore(feed, i, records);
    ClashesMore(feed, i, records);
    PrependLive(feed[i], live, limit);
    LocsMore(feed[i], Oldest(live, limit));
  }

  /** The records already gone all hold newer versions, so the verdict on an older entry is unchanged. */
  lemma SameVerdict(f: Feed, records: map<Loc, Meta>, gone: set<Loc>)
    requires forall loc :: loc in gone && loc in records ==> records[loc].cursor > f.cursor
    ensures Judge(f, records - gone) == Judge(f, records)
  {
  }

  /** The live entries a trim deletes. */
  function Dropped(s: Shelf, limit: nat, fullScan: bool): seq<Feed> {
    Oldest(LiveOnly(s.feed[if fullScan then 0 else Below(s.feed, s.trimCursor)..], s.records), limit)
  }

  class Writer {
    var feed: seq<Feed>
    var records: map<Loc, Meta>
    var trimCursor: nat
    var newest: nat

    constructor ()
      ensures View() == Shelf([], map[], 0, 0)
    {
      feed, records, trimCursor, newest := [], map[], 0, 0;
    }

    function View(): Shelf
      reads this
    {
      Shelf(feed, records, trimCursor, newest)
    }

    method InsertBatch(commits: seq<Commit>, latest: nat)
      modifies this
      ensures View() == Apply(old(View()), Batch(commits, latest))
    {
      for i := 0 to |commits|
        invariant View() == ApplyCommits(old(View()), commits[..i])
      {
        match commits[i] {
          case Cut(_, loc) => records := records - {loc};
          case Put(cursor, loc, rev) =>
            feed := AddFeed(feed, Feed(cursor, loc, rev));
            records := records[loc := Meta(cursor, rev)];
        }
        assert commits[..i + 1][..i] == commits[..i];
      }
      assert commits[..|commits|] == commits;
      newest := latest;
    }

    /** The account's records go in several commits; the feed entries stay, dangling. */
    method DeleteAccount(did: Did) returns (deleted: nat)
      modifies this`records
      ensures records == WithoutDid(old(records), did)
      ensures deleted == |old(records)| - |records|
    {
      deleted := 0;
      var todo := set loc | loc in records && loc.did == did;
      var batch: set<Loc> := {};
      ghost var records0, all, done := records, todo, {};
      while todo != {}
        invariant Partition(all, done, batch, todo)
        invariant records == records0 - done
        invariant deleted == |done| + |batch|
      {
        var loc :| loc in todo;
        MoveKeeps(all, done, batch, todo, loc);
        todo := todo - {loc};
        batch := batch + {loc};
        deleted := deleted + 1;
        if |batch| >= MAX_BATCHED_ACCOUNT_DELETE_RECORDS {
          FlushKeeps(records0, all, done, batch, todo);
          records := records - batch;
          done, batch := done + batch, {};
        }
      }
      FlushKeeps(records0, all, done, batch, todo);
      records := records - batch;
      assert done + batch == all;
      RemoveCount(records0, all);
      WithoutIs(records0, did, all);
    }

    /** One turn of the backwards scan. */
    method TrimEntry(i: nat, limit: nat, found: nat, dangling: nat, deleted: nat, candidate: Option<nat>)
      returns (found': nat, dangling': nat, deleted': nat, candidate': Option<nat>)
      requires i < |feed|
      modifies this`feed, this`records
      ensures Scan(feed, records, found', dangling', deleted', candidate') ==
              ScanEntry(Scan(old(feed), old(records), found, dangling, deleted, candidate), limit, i)
      ensures i <= |feed|
    {
      found', dangling', deleted', candidate' := found, dangling, deleted, candidate;
      var f := feed[i];
      if f.loc !in records {
        feed := feed[..i] + feed[i + 1..];
        dangling' := dangling + 1;
      } else if records[f.loc].cursor != f.cursor {
        feed := feed[..i] + feed[i + 1..];
        dangling' := dangling + 1;
      } else if records[f.loc].rev != f.rev {
        records := records - {f.loc};
        feed := feed[..i] + feed[i + 1..];
        dangling' := dangling + 1;
      } else {
        found' := found + 1;
        if found' > limit {
          if candidate.None? {
            candidate' := Some(f.cursor);
          }
          records := records - {f.loc};
          feed := feed[..i] + feed[i + 1..];
          deleted' := deleted + 1;
        }
      }
    }

    method TrimCollection(limit: nat, fullScan: bool) returns (dangling: nat, deleted: nat, endedEarly: bool)
      requires Ascending(feed)
      modifies this
      ensures View() == Trimmed(old(View()), limit, fullScan)
      ensures dangling + deleted == |old(feed)| - |feed| && deleted == |Dropped(old(View()), limit, fullScan)|
      ensures !endedEarly
    {
      ghost var scan0 := Scan(feed, records, 0, 0, 0, None);
      var start := if fullScan then 0 else Below(feed, trimCursor);
      var i, found := |feed|, 0;
      var candidate: Option<nat> := None;
      dangling, deleted, endedEarly := 0, 0, false;
      while i > start
        invariant start <= i <= |feed| && i <= |scan0.feed|
        invariant trimCursor == old(trimCursor) && newest == old(newest)
        invariant Scan(feed, records, found, dangling, deleted, candidate) == ScanDown(scan0, limit, i)
        decreases i
      {
        i := i - 1;
        found, dangling, deleted, candidate := TrimEntry(i, limit, found, dangling, deleted, candidate);
      }
      ScanIs(old(feed), old(records), limit, i);
      ScanEnds(old(View()), limit, fullScan, i, Scan(feed, records, found, dangling, deleted, candidate));
      if candidate.Some? {
        trimCursor := candidate.value;
      }
    }
  }

  /* ---- the backwards scan ---- */

  datatype Scan = Scan(feed: seq<Feed>, records: map<Loc, Meta>, found: nat, dangling: nat, deleted: nat,
                       candidate: Option<nat>)

  /** What the scan does at one entry. */
  function ScanEntry(s: Scan, limit: nat, i: nat): Scan {
    if |s.feed| <= i then s
    else
      var f, feed' := s.feed[i], s.feed[..i] + s.feed[i + 1..];
      match Judge(f, s.records)
      case Stale => s.(feed := feed', dangling := s.dangling + 1)
      case Clash => s.(feed := feed', records := s.records - {f.loc}, dangling := s.dangling + 1)
      case Live =>
        if s.found < limit then s.(found := s.found + 1)
        else Scan(feed', s.records - {f.loc}, s.found + 1, s.dangling, s.deleted + 1,
                  if s.candidate.None? then Some(f.cursor) else s.candidate)
  }

  function ScanDown(s: Scan, limit: nat, i: nat): Scan
    decreases |s.feed| - i
  {
    if |s.feed| <= i then s else ScanEntry(ScanDown(s, limit, i + 1), limit, i)
  }

  /** Scanning down to `i` leaves exactly the newest live entries above it, and drops the other live records. */
  lemma {:induction false} ScanIs(feed: seq<Feed>, records: map<Loc, Meta>, limit: nat, i: nat)
    requires Ascending(feed) && i <= |feed|
    ensures Reached(ScanDown(Scan(feed, records, 0, 0, 0, None), limit, i), feed, records, limit, i,
                    LiveOnly(feed[i..], records), Gone(feed[i..], records, limit))
    decreases |feed| - i
  {
    if i < |feed| {
      ScanIs(feed, records, limit, i + 1);
      GoneNewer(feed, records, limit, i + 1);
      LiveOnlyMore(feed, i, records);
      GoneMore(feed, i, records, limit);
      SameVerdict(feed[i], records, Gone(feed[i + 1..], records, limit));
      ScanNext(ScanDown(Scan(feed, records, 0, 0, 0, None), limit, i + 1), feed, records, limit, i,
               LiveOnly(feed[i + 1..], records), Gone(feed[i + 1..], records, limit),
               LiveOnly(feed[i..], records), Gone(feed[i..], records, limit));
    }
  }

  /** One entry further, over what was reached alone. */
  lemma ScanNext(s: Scan, feed: seq<Feed>, records: map<Loc, Meta>, limit: nat, i: nat,
                 live: seq<Feed>, gone: set<Loc>, live': seq<Feed>, gone': set<Loc>)
    requires i < |feed| && Reached(s, feed, records, limit, i + 1, live, gone)
    requires Judge(feed[i], records - gone) == Judge(feed[i], records)
    requires live' == MoreLive(feed[i], records, live) && gone' == MoreGone(feed[i], records, limit, live, gone)
    ensures Reached(ScanEntry(s, limit, i), feed, records, limit, i, live', gone')
  {
    EntryStep(s, feed, records, limit, i, live, gone);
  }

  ghost predicate Reached(s: Scan, feed: seq<Feed>, records: map<Loc, Meta>, limit: nat, i: nat, live: seq<Feed>,
                          gone: set<Loc>) {
    && i <= |feed|
    && s.feed == feed[..i] + Newest(live, limit)
    && s.records == records - gone
    && s.found == |live| && s.deleted == |Oldest(live, limit)| && s.dangling + s.found == |feed| - i
    && s.candidate == NewCursor(live, limit)
  }

  lemma ScanEnds(s: Shelf, limit: nat, fullScan: bool, k: nat, scan: Scan)
    requires k == if fullScan then 0 else Below(s.feed, s.trimCursor)
    requires Reached(scan, s.feed, s.records, limit, k, LiveOnly(s.feed[k..], s.records),
                     Gone(s.feed[k..], s.records, limit))
    ensures Trimmed(s, limit, fullScan) ==
            Shelf(scan.feed, scan.records, if scan.candidate.Some? then scan.candidate.value else s.trimCursor,
                  s.newest)
    ensures scan.deleted == |Dropped(s, limit, fullScan)| && scan.dangling + scan.deleted == |s.feed| - |scan.feed|
  {
  }

  lemma EntryStep(s: Scan, feed: seq<Feed>, records: map<Loc, Meta>, limit: nat, i: nat, live: seq<Feed>,
                  gone: set<Loc>)
    requires i < |feed| && Reached(s, feed, records, limit, i + 1, live, gone)
    requires Judge(feed[i], records - gone) == Judge(feed[i], records)
    ensures Reached(ScanEntry(s, limit, i), feed, records, limit, i,
                    MoreLive(feed[i], records, live), MoreGone(feed[i], records, limit, live, gone))
  {
    PrependLive(feed[i], live, limit);
    FeedStep(feed, i, Newest(live, limit), s.feed);
    MinusOneMore(records, gone, feed[i].loc);
  }

  lemma {:induction false} GoneNewer(feed: seq<Feed>, records: map<Loc, Meta>, limit: nat, i: nat)
    requires Ascending(feed) && i <= |feed|
    ensures NewerThan(records, Gone(feed[i..], records, limit), feed, i)
    decreases |feed| - i
  {
    if i < |feed| {
      GoneNewer(feed, records, limit, i + 1);
      GoneMore(feed, i, records, limit);
      NewerStep(records, Gone(feed[i + 1..], records, limit), feed, i);
    }
  }

  lemma NewerStep(records: map<Loc, Meta>, gone: set<Loc>, feed: seq<Feed>, i: nat)
    requires Ascending(feed) && i < |feed| && NewerThan(records, gone, feed, i + 1)
    ensures NewerThan(records, gone, feed, i)
    ensures feed[i].loc in records && records[feed[i].loc].cursor == feed[i].cursor ==>
              NewerThan(records, gone + {feed[i].loc}, feed, i)
  {
  }

  /** Records gone so far held versions from the part of the feed already scanned. */
  ghost predicate NewerThan(records: map<Loc, Meta>, gone: set<Loc>, feed: seq<Feed>, i: nat) {
    forall loc :: loc in gone && loc in records ==> i < |feed| && records[loc].cursor >= feed[i].cursor
  }

  lemma FeedStep(feed0: seq<Feed>, i: nat, kept: seq<Feed>, feed: seq<Feed>)
    requires i < |feed0| && feed == feed0[..i + 1] + kept
    ensures feed[i] == feed0[i] && feed[..i] + feed[i + 1..] == feed0[..i] + kept
    ensures feed == feed0[..i] + ([feed0[i]] + kept)
  {
  }

  lemma MinusOneMore(records: map<Loc, Meta>, gone: set<Loc>, loc: Loc)
    ensures records - (gone + {loc}) == (records - gone) - {loc}
  {
  }

  ghost predicate Partition(all: set<Loc>, done: set<Loc>, batch: set<Loc>, todo: set<Loc>) {
    all == done + batch + todo && done !! batch && done !! todo && batch !! todo
  }

  lemma MoveKeeps(all: set<Loc>, done: set<Loc>, batch: set<Loc>, todo: set<Loc>, loc: Loc)
    requires Partition(all, done, batch, todo) && loc in todo
    ensures Partition(all, done, batch + {loc}, todo - {loc})
  {
  }

  lemma FlushKeeps(records: map<Loc, Meta>, all: set<Loc>, done: set<Loc>, batch: set<Loc>, todo: set<Loc>)
    requires Partition(all, done, batch, todo)
    ensures Partition(all, done + batch, {}, todo)
    ensures (records - done) - batch == records - (done + batch)
    ensures |done + batch| == |done| + |batch|
  {
  }

  lemma WithoutIs(records: map<Loc, Meta>, did: Did, all: set<Loc>)
    requires forall loc :: loc in all <==> loc in records && loc.did == did
    ensures records - all == WithoutDid(records, did)
  {
  }

  lemma RemoveCount(records: map<Loc, Meta>, gone: set<Loc>)
    requires gone <= records.Keys
    ensures |records - gone| + |gone| == |records|
  {
    assert (records - gone).Keys + gone == records.Keys;
    assert (records - gone).Keys !! gone;
  }
}
