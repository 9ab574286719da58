/**
What an overflowing batch does to records: displacement puts a new commit in the
place of an old one, so the feed may apply a record's commits out of order. Exactly
the batches that fit their buffer are always written faithfully.
*/
module FeedOverflow {
  import opened Options
  import opened CommitBuffer
  import opened Batcher
  import opened FeedPipeline
  import opened FeedRecords
  import opened FeedStream
  import FeedTrim

  const EMPTY_SHELF := FeedTrim.Shelf([], map[], 0, 0)

  /** The buffer that a collection's commits leave in a batch. */
  ghost function Buffered(cs: seq<Commit>): (b: Buffer)
    ensures b.head <= MAX_BATCHED_RECORDS
  {
    if cs == [] then EMPTY
    else
      var (before, c) := (Buffered(cs[..|cs| - 1]), cs[|cs| - 1]);
      SearchStays(before.commits, before.head, before.head, MAX_BATCHED_RECORDS);
      Insert(before, c, MAX_BATCHED_RECORDS).1
  }

  lemma {:induction false} SearchStays(commits: seq<Commit>, head: nat, started: nat, limit: nat)
    requires head <= limit && started <= limit
    ensures Search(commits, head, started, limit).1 <= limit
    decreases Distance(head, started, limit)
  {
    if head < |commits| && !IsCreate(commits[head]) && AdvanceHead(head, limit) != started {
      SearchStays(commits, AdvanceHead(head, limit), started, limit);
    }
  }

  /** The records after writing the batch are those that the commits, taken in order, leave. */
  ghost predicate WritesFaithfully(cs: seq<Commit>) {
    forall loc, m ::
      RecordAt(FeedTrim.ApplyCommits(EMPTY_SHELF, FeedCommits(Buffered(cs).commits)).records, loc) == Some(m) <==>
      LastPut(FeedCommits(cs), loc, m)
  }

  ghost predicate Rising(cs: seq<Commit>) {
    forall i, j :: 0 <= i < j < |cs| ==> cs[i].cursor < cs[j].cursor
  }

  /* ---- batches that fit ---- */

  /** The buffer holds these commits as they came. */
  ghost predicate Fits(b: Buffer, cs: seq<Commit>) {
    && b.commits == cs && b.head == 0 && b.creates + b.updates + b.deletes == |cs|
    && b.updates == |Updates(cs)| && b.deletes == |Deletes(cs)|
  }

  lemma FitsMore(b: Buffer, cs: seq<Commit>)
    requires cs != [] && |cs| <= MAX_BATCHED_RECORDS && Fits(b, cs[..|cs| - 1])
    ensures Fits(Insert(b, cs[|cs| - 1], MAX_BATCHED_RECORDS).1, cs)
  {
  }

  lemma {:induction false} BufferedFits(cs: seq<Commit>)
    requires |cs| <= MAX_BATCHED_RECORDS
    ensures Fits(Buffered(cs), cs)
  {
    if cs != [] {
      BufferedFits(cs[..|cs| - 1]);
      FitsMore(Buffered(cs[..|cs| - 1]), cs);
    }
  }

  lemma FitsFaithfully(cs: seq<Commit>)
    requires |cs| <= MAX_BATCHED_RECORDS
    ensures WritesFaithfully(cs)
  {
    BufferedFits(cs);
    var fs := FeedCommits(cs);
    var records := FeedTrim.ApplyCommits(EMPTY_SHELF, fs).records;
    forall loc, m ensures RecordAt(records, loc) == Some(m) <==> LastPut(fs, loc, m) {
      BatchLeaves(EMPTY_SHELF, fs, loc);
      if Names(fs, loc) {
        var i := LastOf(fs, loc);
        assert LastFor(fs, loc, i);
      }
    }
  }

  /* ---- and one that does not, for every larger size ---- */

  const B := FeedTrim.Loc("did:b", "1")

  /** Creates of one record, but a delete of another at 1, and an update of it at 128. */
  function Act(i: nat): Commit {
    if i == 1 then Commit(i + 1, "did:b", "1", "", Cut)
    else if i == MAX_BATCHED_RECORDS then Commit(i + 1, "did:b", "1", "", Put(true, ""))
    else Commit(i + 1, "did:a", "1", "", Put(false, ""))
  }

  function Acts(n: nat): (r: seq<Commit>)
    ensures |r| == n && forall i :: 0 <= i < n ==> r[i] == Act(i)
  {
    seq(n, i requires 0 <= i < n => Act(i))
  }

  /** The update sits before the delete it came after, and only creates of the other record follow. */
  ghost predicate OutOfOrder(b: Buffer) {
    && |b.commits| == MAX_BATCHED_RECORDS && b.updates == 1 && b.deletes == 1 && (b.head == 0 || b.head == 2)
    && b.commits[0] == Act(MAX_BATCHED_RECORDS) && b.commits[1] == Act(1)
    && forall i :: 2 <= i < MAX_BATCHED_RECORDS ==> IsCreate(b.commits[i]) && b.commits[i].did == "did:a"
  }

  lemma ActsInit(n: nat)
    requires n > 0
    ensures Acts(n) != [] && Acts(n)[..|Acts(n)| - 1] == Acts(n - 1) && Acts(n)[|Acts(n)| - 1] == Act(n - 1)
  {
  }

  lemma {:induction false} FewLasting(n: nat)
    requires n <= MAX_BATCHED_RECORDS
    ensures |Updates(Acts(n))| == 0 && |Deletes(Acts(n))| == if n > 1 then 1 else 0
  {
    if n > 0 {
      FewLasting(n - 1);
      ActsInit(n);
    }
  }

  lemma FirstOverflow(b: Buffer)
    requires Fits(b, Acts(MAX_BATCHED_RECORDS)) && b.updates == 0 && b.deletes == 1
    ensures OutOfOrder(Insert(b, Act(MAX_BATCHED_RECORDS), MAX_BATCHED_RECORDS).1)
  {
    assert IsCreate(b.commits[0]);
  }

  lemma NextOverflow(b: Buffer, c: Commit)
    requires OutOfOrder(b) && IsCreate(c) && c.did == "did:a"
    ensures OutOfOrder(Insert(b, c, MAX_BATCHED_RECORDS).1)
  {
    assert IsCreate(b.commits[2]);
    SearchFromStart(b.commits);
  }

  lemma SearchFromStart(commits: seq<Commit>)
    requires |commits| == MAX_BATCHED_RECORDS && IsCreate(commits[2])
    requires !IsCreate(commits[0]) && !IsCreate(commits[1])
    ensures Search(commits, 0, 0, MAX_BATCHED_RECORDS) == (Stored, 2)
  {
    assert Search(commits, 2, 0, MAX_BATCHED_RECORDS) == (Stored, 2);
    assert Search(commits, 1, 0, MAX_BATCHED_RECORDS) == (Stored, 2);
  }

  lemma {:induction false} AlwaysOutOfOrder(n: nat)
    requires n > MAX_BATCHED_RECORDS
    ensures OutOfOrder(Buffered(Acts(n)))
  {
    ActsInit(n);
    if n == MAX_BATCHED_RECORDS + 1 {
      BufferedFits(Acts(n - 1));
      FewLasting(n - 1);
      FirstOverflow(Buffered(Acts(n - 1)));
    } else {
      AlwaysOutOfOrder(n - 1);
      NextOverflow(Buffered(Acts(n - 1)), Act(n - 1));
    }
  }

  lemma LastInBuffer(b: Buffer)
    requires OutOfOrder(b)
    ensures LastFor(FeedCommits(b.commits), B, 1) && Leaves(FeedCommits(b.commits)[1]) == None
  {
  }

  lemma LastOnStream(n: nat)
    requires n > MAX_BATCHED_RECORDS
    ensures LastPut(FeedCommits(Acts(n)), B, FeedTrim.Meta(MAX_BATCHED_RECORDS + 1, ""))
  {
    var fs := FeedCommits(Acts(n));
    assert LastFor(fs, B, MAX_BATCHED_RECORDS);
  }

  lemma OverflowForgets(n: nat)
    requires n > MAX_BATCHED_RECORDS
    ensures Rising(Acts(n)) && !WritesFaithfully(Acts(n))
  {
    AlwaysOutOfOrder(n);
    LastInBuffer(Buffered(Acts(n)));
    LastOnStream(n);
    BatchLeaves(EMPTY_SHELF, FeedCommits(Buffered(Acts(n)).commits), B);
  }

  /** A batch of one collection is always written faithfully exactly up to the size of its buffer. */
  lemma FaithfulIff(n: nat)
    ensures (forall cs :: |cs| == n && Rising(cs) ==> WritesFaithfully(cs)) <==> n <= MAX_BATCHED_RECORDS
  {
    if n <= MAX_BATCHED_RECORDS {
      forall cs | |cs| == n && Rising(cs) ensures WritesFaithfully(cs) {
        FitsFaithfully(cs);
      }
    } else {
      OverflowForgets(n);
    }
  }
}
