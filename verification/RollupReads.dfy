/** Reading counts back: by mixed hour and week buckets, and as a time series. */
module RollupReads {
  import opened Seqs
  import opened CountValues
  import opened Buckets
  import opened Rollup
  import opened RollupProofs

  function BucketsMerged(t: Tables, nsid: Nsid, bs: seq<Bucket>): Counts {
    if bs == [] then ZERO
    else Merge(CounterAt(t, Key(bs[0], nsid)), BucketsMerged(t, nsid, bs[1..]))
  }

  lemma FirstBucket(t: Tables, rolled: seq<Entry>, nsid: Nsid, b: Bucket, until: nat)
    requires CountersMatch(t, rolled) && !b.AllTime? && End(b) <= until
    ensures Merge(CounterAt(t, Key(b, nsid)), TotalIn(rolled, nsid, End(b), until)) ==
              TotalIn(rolled, nsid, Start(b), until)
  {
    assert CounterAt(t, Key(b, nsid)) == TotalOf(rolled, Key(b, nsid));
    TotalOfBucket(rolled, nsid, b);
    TotalInSplits(rolled, nsid, Start(b), End(b), until);
  }

  /** Any tiling of an interval, not just the shortest, reads the same total. */
  lemma {:induction false} TilingTotal(t: Tables, rolled: seq<Entry>, nsid: Nsid, bs: seq<Bucket>, since: nat,
                                       until: nat)
    requires CountersMatch(t, rolled) && Tiles(bs, since, until)
    ensures BucketsMerged(t, nsid, bs) == TotalIn(rolled, nsid, since, until)
    decreases |bs|
  {
    if bs == [] {
      TotalInEmpty(rolled, nsid, since);
    } else {
      SpanningMinimal(bs[1..], End(bs[0]), until);
      TilingTotal(t, rolled, nsid, bs[1..], End(bs[0]), until);
      FirstBucket(t, rolled, nsid, bs[0], until);
    }
  }

  lemma MergeNext(whole: Counts, total: Counts, total': Counts, t: Tables, nsid: Nsid, bs: seq<Bucket>, i: nat)
    requires i < |bs| && whole == Merge(total, BucketsMerged(t, nsid, bs[i..]))
    requires total' == Merge(total, CounterAt(t, Key(bs[i], nsid)))
    ensures whole == Merge(total', BucketsMerged(t, nsid, bs[i + 1..]))
  {
    assert bs[i..][1..] == bs[i + 1..];
    MergeLaws(total, CounterAt(t, Key(bs[i], nsid)), BucketsMerged(t, nsid, bs[i + 1..]));
  }

  lemma MergeNone(total: Counts, t: Tables, nsid: Nsid, bs: seq<Bucket>)
    requires bs == []
    ensures Merge(total, BucketsMerged(t, nsid, bs)) == total
  {
    MergeLaws(total, ZERO, ZERO);
  }

  method MergeBuckets(t: Tables, nsid: Nsid, buckets: seq<Bucket>) returns (total: Counts)
    ensures total == BucketsMerged(t, nsid, buckets)
  {
    total := ZERO;
    ghost var whole := BucketsMerged(t, nsid, buckets);
    assert buckets[0..] == buckets;
    MergeLaws(whole, ZERO, ZERO);
    for i := 0 to |buckets|
      invariant whole == Merge(total, BucketsMerged(t, nsid, buckets[i..]))
    {
      var key := Key(buckets[i], nsid);
      var count := if key in t.counters then t.counters[key] else ZERO;
      MergeNext(whole, total, Merge(total, count), t, nsid, buckets, i);
      total := Merge(total, count);
    }
    MergeNone(total, t, nsid, buckets[|buckets|..]);
  }

  /** The spanning buckets of an interval merge to its hourly counters. */
  lemma SpanningTotal(t: Tables, rolled: seq<Entry>, nsid: Nsid, since: nat, until: nat)
    requires CountersMatch(t, rolled)
    ensures BucketsMerged(t, nsid, Spanning(since, until)) == HoursMerged(t, nsid, since, until)
    ensures since <= until ==> HoursMerged(t, nsid, since, until) == TotalIn(rolled, nsid, since, until)
  {
    if since <= until {
      SpanningTiles(since, until);
      TilingTotal(t, rolled, nsid, Spanning(since, until), since, until);
      HoursMergedTotal(t, rolled, nsid, since, until);
    }
  }

  /**
  `get_collection_counts`: reads one counter per spanning bucket, and gets the
  merge of the hourly counters of the interval, which is what was rolled up in it.
  */
  method GetCollectionCounts(t: Tables, nsid: Nsid, since: nat, until: nat, ghost rolled: seq<Entry>)
    returns (total: Counts)
    requires CountersMatch(t, rolled)
    ensures total == HoursMerged(t, nsid, since, until)
    ensures since <= until ==> total == TotalIn(rolled, nsid, since, until)
  {
    var buckets := BucketsSpanning(since, until);
    total := MergeBuckets(t, nsid, buckets);
    SpanningTotal(t, rolled, nsid, since, until);
  }

  /* ---- time series ---- */

  /** Chunks of `step` hours from `since`; the last one may be shorter. */
  function Series(t: Tables, nsid: Nsid, since: nat, until: nat, step: nat): seq<Counts>
    requires step > 0
    decreases if since < until then until - since else 0
  {
    if until <= since then []
    else
      var next := if since + step < until then since + step else until;
      [HoursMerged(t, nsid, since, next)] + Series(t, nsid, next, until, step)
  }

  function SeriesMerged(s: seq<Counts>): Counts {
    if s == [] then ZERO else Merge(s[0], SeriesMerged(s[1..]))
  }

  lemma {:induction false} HoursMergedSplits(t: Tables, nsid: Nsid, a: nat, b: nat, c: nat)
    requires a <= b <= c
    ensures HoursMerged(t, nsid, a, c) == Merge(HoursMerged(t, nsid, a, b), HoursMerged(t, nsid, b, c))
    decreases c
  {
    if b == c {
      MergeLaws(HoursMerged(t, nsid, a, b), ZERO, ZERO);
    } else {
      HoursMergedSplits(t, nsid, a, b, c - 1);
      HoursMergedMore(t, nsid, a, c);
      HoursMergedMore(t, nsid, b, c);
      MergeLaws(HoursMerged(t, nsid, a, b), HoursMerged(t, nsid, b, c - 1), CounterAt(t, Key(Hour(c - 1), nsid)));
    }
  }

  /** Merging every chunk of a series, whatever its step, is the interval's total. */
  lemma {:induction false} SeriesTotal(t: Tables, nsid: Nsid, since: nat, until: nat, step: nat)
    requires step > 0
    ensures SeriesMerged(Series(t, nsid, since, until, step)) == HoursMerged(t, nsid, since, until)
    decreases if since < until then until - since else 0
  {
    if since < until {
      var next := if since + step < until then since + step else until;
      SeriesTotal(t, nsid, next, until, step);
      HoursMergedSplits(t, nsid, since, next, until);
      assert Series(t, nsid, since, until, step)[1..] == Series(t, nsid, next, until, step);
    }
  }

  /** Both read paths of the store agree, for every interval and step. */
  lemma ReadPathsAgree(t: Tables, rolled: seq<Entry>, nsid: Nsid, since: nat, until: nat, step: nat)
    requires CountersMatch(t, rolled) && step > 0
    ensures SeriesMerged(Series(t, nsid, since, until, step)) == BucketsMerged(t, nsid, Spanning(since, until))
  {
    SeriesTotal(t, nsid, since, until, step);
    SpanningTotal(t, rolled, nsid, since, until);
  }

  /** The hours that start a chunk. */
  function ChunkHours(since: nat, until: nat, step: nat): seq<nat>
    requires step > 0
    decreases if since < until then until - since else 0
  {
    if until <= since then []
    else [since] + ChunkHours(if since + step < until then since + step else until, until, step)
  }

  /** Chunk `i` of a series begins `i` steps after the interval does, and ends a step later or with the interval. */
  ghost predicate IsChunk(c: Counts, hour: nat, t: Tables, nsid: Nsid, since: nat, until: nat, step: nat, i: nat) {
    && hour == since + i * step && hour < until
    && c == HoursMerged(t, nsid, hour, if hour + step < until then hour + step else until)
  }

  lemma ChunkShift(c: Counts, hour: nat, t: Tables, nsid: Nsid, since: nat, until: nat, step: nat, i: nat)
    requires IsChunk(c, hour, t, nsid, since + step, until, step, i)
    ensures IsChunk(c, hour, t, nsid, since, until, step, i + 1)
  {
    assert since + step + i * step == since + (i + 1) * step;
  }

  /** For every interval and step: the chunks lie side by side, each a step wide but perhaps the last. */
  lemma {:induction false} SeriesChunks(t: Tables, nsid: Nsid, since: nat, until: nat, step: nat, i: nat)
    requires step > 0 && i < |Series(t, nsid, since, until, step)|
    ensures |ChunkHours(since, until, step)| == |Series(t, nsid, since, until, step)|
    ensures IsChunk(Series(t, nsid, since, until, step)[i], ChunkHours(since, until, step)[i],
                    t, nsid, since, until, step, i)
    decreases if since < until then until - since else 0
  {
    SameChunks(t, nsid, since, until, step);
    if i == 0 {
      assert 0 * step == 0;
    } else {
      assert since + step < until;
      SeriesChunks(t, nsid, since + step, until, step, i - 1);
      ChunkShift(Series(t, nsid, since + step, until, step)[i - 1], ChunkHours(since + step, until, step)[i - 1],
                 t, nsid, since, until, step, i - 1);
    }
  }

  lemma {:induction false} SameChunks(t: Tables, nsid: Nsid, since: nat, until: nat, step: nat)
    requires step > 0
    ensures |ChunkHours(since, until, step)| == |Series(t, nsid, since, until, step)|
    ensures |Series(t, nsid, since, until, step)| == 0 <==> until <= since
    decreases if since < until then until - since else 0
  {
    if since < until {
      SameChunks(t, nsid, if since + step < until then since + step else until, until, step);
    }
  }

  lemma ColumnStep(c: Counts, c': Counts, t: Tables, nsid: Nsid, since: nat, hour: nat)
    requires since <= hour && c == HoursMerged(t, nsid, since, hour)
    requires c' == Merge(c, CounterAt(t, Key(Hour(hour), nsid)))
    ensures c' == HoursMerged(t, nsid, since, hour + 1)
  {
    HoursMergedMore(t, nsid, since, hour + 1);
  }

  /** Merge one collection's column over the rows lo..hi of the hourly table. */
  method MergeColumn(t: Tables, nsid: Nsid, rows: seq<seq<Counts>>, i: nat, since: nat, lo: nat, hi: nat)
    returns (c: Counts)
    requires lo <= hi <= |rows|
    requires forall r :: 0 <= r < |rows| ==> i < |rows[r]| && rows[r][i] == CounterAt(t, Key(Hour(since + r), nsid))
    ensures c == HoursMerged(t, nsid, since + lo, since + hi)
  {
    c := ZERO;
    for r := lo to hi
      invariant c == HoursMerged(t, nsid, since + lo, since + r)
    {
      ColumnStep(c, Merge(c, rows[r][i]), t, nsid, since + lo, since + r);
      c := Merge(c, rows[r][i]);
    }
  }

  /** One row per hour: the hourly counters of all requested collections. */
  method HourlyRows(t: Tables, collections: seq<Nsid>, since: nat, n: nat) returns (rows: seq<seq<Counts>>)
    ensures |rows| == n && RowsOk(t, collections, rows, since)
  {
    rows := [];
    for r := 0 to n
      invariant |rows| == r && forall q :: 0 <= q < r ==> |rows[q]| == |collections|
      invariant forall q, i :: 0 <= q < r && 0 <= i < |collections| ==>
                  rows[q][i] == CounterAt(t, Key(Hour(since + q), collections[i]))
    {
      var row: seq<Counts> := [];
      for i := 0 to |collections|
        invariant |row| == i && forall j :: 0 <= j < i ==> row[j] == CounterAt(t, Key(Hour(since + r), collections[j]))
      {
        var key := Key(Hour(since + r), collections[i]);
        row := row + [if key in t.counters then t.counters[key] else ZERO];
      }
      rows := rows + [row];
    }
  }

  /* ---- series by name ---- */

  /** How often a collection was asked for. */
  ghost function Times(collections: seq<Nsid>, nsid: Nsid): nat {
    if collections == [] then 0
    else Times(collections[..|collections| - 1], nsid) + if collections[|collections| - 1] == nsid then 1 else 0
  }

  ghost function Repeated(c: Counts, k: nat): (r: seq<Counts>)
    ensures |r| == k
  {
    if k == 0 then [] else Repeated(c, k - 1) + [c]
  }

  /** Series are kept by name, so a collection asked for `k` times gets every chunk `k` times. */
  ghost function NamedSeries(t: Tables, nsid: Nsid, since: nat, until: nat, step: nat, k: nat): seq<Counts>
    requires step > 0
    decreases if since < until then until - since else 0
  {
    if until <= since then []
    else
      var next := if since + step < until then since + step else until;
      Repeated(HoursMerged(t, nsid, since, next), k) + NamedSeries(t, nsid, next, until, step, k)
  }

  lemma {:induction false} NamedOnce(t: Tables, nsid: Nsid, since: nat, until: nat, step: nat)
    requires step > 0
    ensures NamedSeries(t, nsid, since, until, step, 1) == Series(t, nsid, since, until, step)
    decreases if since < until then until - since else 0
  {
    if since < until {
      var next := if since + step < until then since + step else until;
      NamedOnce(t, nsid, next, until, step);
      var c := HoursMerged(t, nsid, since, next);
      assert Repeated(c, 0) == [];
      assert Repeated(c, 1) == [c];
    }
  }

  /** A collection asked for `k` times has chunk `i` of its series at the places from `i * k` on. */
  lemma {:induction false} NamedChunks(t: Tables, nsid: Nsid, since: nat, until: nat, step: nat, k: nat, i: nat, r: nat)
    requires step > 0 && i < |Series(t, nsid, since, until, step)| && r < k
    ensures i * k + r < |NamedSeries(t, nsid, since, until, step, k)|
    ensures NamedSeries(t, nsid, since, until, step, k)[i * k + r] == Series(t, nsid, since, until, step)[i]
    decreases if since < until then until - since else 0
  {
    var next := if since + step < until then since + step else until;
    var c := HoursMerged(t, nsid, since, next);
    if i == 0 {
      assert 0 * k == 0;
      RepeatedAt(c, k, r);
    } else {
      NamedChunks(t, nsid, next, until, step, k, i - 1, r);
      PlaceMore(i, k, r);
    }
  }

  lemma PlaceMore(i: nat, k: nat, r: nat)
    requires i > 0
    ensures k + ((i - 1) * k + r) == i * k + r
  {
  }

  lemma {:induction false} RepeatedAt(c: Counts, k: nat, r: nat)
    requires r < k
    ensures Repeated(c, k)[r] == c
  {
    if r < k - 1 {
      RepeatedAt(c, k - 1, r);
    }
  }

  function Scaled(c: Counts, k: nat): Counts {
    if k == 0 then ZERO else Merge(Scaled(c, k - 1), c)
  }

  lemma {:induction false} MergedJoin(a: seq<Counts>, b: seq<Counts>)
    ensures SeriesMerged(a + b) == Merge(SeriesMerged(a), SeriesMerged(b))
  {
    if a == [] {
      assert a + b == b;
      MergeLaws(SeriesMerged(b), ZERO, ZERO);
    } else {
      assert (a + b)[1..] == a[1..] + b;
      MergedJoin(a[1..], b);
      MergeLaws(a[0], SeriesMerged(a[1..]), SeriesMerged(b));
    }
  }

  lemma {:induction false} RepeatedMerged(c: Counts, k: nat)
    ensures SeriesMerged(Repeated(c, k)) == Scaled(c, k)
  {
    if k > 0 {
      RepeatedMerged(c, k - 1);
      MergedJoin(Repeated(c, k - 1), [c]);
      assert [c][1..] == [];
      MergeLaws(c, ZERO, ZERO);
    }
  }

  lemma SwapMiddle(a: Counts, b: Counts, c: Counts, d: Counts)
    ensures Merge(Merge(a, b), Merge(c, d)) == Merge(Merge(a, c), Merge(b, d))
  {
    assert (a.dids + b.dids) + (c.dids + d.dids) == (a.dids + c.dids) + (b.dids + d.dids);
  }

  lemma {:induction false} ScaledMerge(a: Counts, b: Counts, k: nat)
    ensures Scaled(Merge(a, b), k) == Merge(Scaled(a, k), Scaled(b, k))
  {
    if k == 0 {
      MergeLaws(ZERO, ZERO, ZERO);
    } else {
      ScaledMerge(a, b, k - 1);
      SwapMiddle(Scaled(a, k - 1), Scaled(b, k - 1), a, b);
    }
  }

  lemma ScaledZero(zero: Counts, k: nat)
    requires zero == ZERO
    ensures Scaled(zero, k) == zero
  {
    if k > 0 {
      ScaledTallies(zero, k);
    }
  }

  /** Merging the chunks of a collection asked for `k` times counts everything `k` times. */
  lemma {:induction false} NamedTotal(t: Tables, nsid: Nsid, since: nat, until: nat, step: nat, k: nat)
    requires step > 0
    ensures SeriesMerged(NamedSeries(t, nsid, since, until, step, k)) == Scaled(HoursMerged(t, nsid, since, until), k)
    decreases if since < until then until - since else 0
  {
    if since < until {
      var next := if since + step < until then since + step else until;
      var c := HoursMerged(t, nsid, since, next);
      NamedTotal(t, nsid, next, until, step, k);
      MergedJoin(Repeated(c, k), NamedSeries(t, nsid, next, until, step, k));
      RepeatedMerged(c, k);
      HoursMergedSplits(t, nsid, since, next, until);
      ScaledMerge(c, HoursMerged(t, nsid, next, until), k);
    } else {
      ScaledZero(HoursMerged(t, nsid, since, until), k);
    }
  }

  predicate Uncounted(c: Counts) {
    c.creates == 0 && c.updates == 0 && c.deletes == 0
  }

  lemma {:induction false} ScaledTallies(c: Counts, k: nat)
    requires k > 0
    ensures Scaled(c, k).dids == c.dids && (Uncounted(c) ==> Uncounted(Scaled(c, k)))
    ensures c.creates <= Scaled(c, k).creates && c.updates <= Scaled(c, k).updates && c.deletes <= Scaled(c, k).deletes
  {
    if k == 1 {
      ScaledOnce(c);
    } else {
      ScaledTallies(c, k - 1);
    }
  }

  lemma ScaledOnce(c: Counts)
    ensures Scaled(c, 1) == c
  {
    assert Scaled(c, 0) == ZERO;
    MergeLaws(c, ZERO, ZERO);
  }

  lemma ScaledIs(c: Counts, k: nat)
    requires k > 0
    ensures Scaled(c, k) == c <==> k == 1 || Uncounted(c)
  {
    if k == 1 {
      ScaledOnce(c);
    } else {
      var less := Scaled(c, k - 1);
      ScaledTallies(c, k - 1);
      ScaledTallies(c, k);
      assert Scaled(c, k) == Merge(less, c);
    }
  }

  /**
  Both read paths of the store agree for a collection asked for `k` times exactly
  when that is once, or nothing was counted in the interval.
  */
  lemma NamedReadsAgreeIff(t: Tables, rolled: seq<Entry>, nsid: Nsid, since: nat, until: nat, step: nat, k: nat)
    requires CountersMatch(t, rolled) && step > 0 && k > 0
    ensures SeriesMerged(NamedSeries(t, nsid, since, until, step, k)) ==
              BucketsMerged(t, nsid, Spanning(since, until)) <==>
            k == 1 || Uncounted(BucketsMerged(t, nsid, Spanning(since, until)))
  {
    NamedTotal(t, nsid, since, until, step, k);
    SpanningTotal(t, rolled, nsid, since, until);
    ScaledIs(HoursMerged(t, nsid, since, until), k);
  }

  /* ---- the loops ---- */

  lemma TimesMore(collections: seq<Nsid>, i: nat, nsid: Nsid)
    requires i < |collections|
    ensures Times(collections[..i + 1], nsid) == Times(collections[..i], nsid) + if nsid == collections[i] then 1 else 0
  {
    assert collections[..i + 1][..i] == collections[..i];
  }

  /** The hourly counters of all requested collections, hour by hour. */
  ghost predicate RowsOk(t: Tables, collections: seq<Nsid>, rows: seq<seq<Counts>>, since: nat) {
    && (forall r :: 0 <= r < |rows| ==> |rows[r]| == |collections|)
    && (forall r, i ::
          0 <= r < |rows| && 0 <= i < |collections| ==>
          rows[r][i] == CounterAt(t, Key(Hour(since + r), collections[i])))
  }

  /** One series with its chunk, as often as it was asked for. */
  ghost function WithChunk(t: Tables, n: Nsid, done: seq<Counts>, lo: nat, hi: nat, k: nat): seq<Counts> {
    done + Repeated(HoursMerged(t, n, lo, hi), k)
  }

  lemma NoChunk(t: Tables, n: Nsid, done: seq<Counts>, lo: nat, hi: nat)
    ensures WithChunk(t, n, done, lo, hi, 0) == done
  {
  }

  lemma OneMoreChunk(t: Tables, n: Nsid, done: seq<Counts>, lo: nat, hi: nat, k: nat)
    ensures WithChunk(t, n, done, lo, hi, k) + [HoursMerged(t, n, lo, hi)] == WithChunk(t, n, done, lo, hi, k + 1)
  {
  }

  /** Push one chunk onto every asked-for collection's series. */
  method AppendChunk(t: Tables, collections: seq<Nsid>, rows: seq<seq<Counts>>, since: nat, at: nat, next: nat,
                     series: map<Nsid, seq<Counts>>)
    returns (more: map<Nsid, seq<Counts>>)
    requires at <= next <= |rows| && RowsOk(t, collections, rows, since)
    requires forall i :: 0 <= i < |collections| ==> collections[i] in series
    ensures more.Keys == series.Keys
    ensures forall n :: n in series ==>
              more[n] == WithChunk(t, n, series[n], since + at, since + next, Times(collections, n))
  {
    more := series;
    ghost var lo, hi := since + at, since + next;
    forall n | n in series ensures series[n] == WithChunk(t, n, series[n], lo, hi, 0) {
      NoChunk(t, n, series[n], lo, hi);
    }
    for i := 0 to |collections|
      invariant more.Keys == series.Keys
      invariant forall n :: n in series ==> more[n] == WithChunk(t, n, series[n], lo, hi, Times(collections[..i], n))
    {
      var name := collections[i];
      var c := MergeColumn(t, name, rows, i, since, at, next);
      PushStep(t, collections, i, series, more, lo, hi, c);
      more := more[name := more[name] + [c]];
    }
    assert collections[..|collections|] == collections;
  }

  lemma PushStep(t: Tables, collections: seq<Nsid>, i: nat, series: map<Nsid, seq<Counts>>,
                 more: map<Nsid, seq<Counts>>, lo: nat, hi: nat, c: Counts)
    requires i < |collections| && collections[i] in series && more.Keys == series.Keys
    requires c == HoursMerged(t, collections[i], lo, hi)
    requires forall n :: n in series ==> more[n] == WithChunk(t, n, series[n], lo, hi, Times(collections[..i], n))
    ensures var now := more[collections[i] := more[collections[i]] + [c]];
            forall n :: n in series ==> now[n] == WithChunk(t, n, series[n], lo, hi, Times(collections[..i + 1], n))
  {
    var name := collections[i];
    var now := more[name := more[name] + [c]];
    forall n | n in series ensures now[n] == WithChunk(t, n, series[n], lo, hi, Times(collections[..i + 1], n)) {
      TimesMore(collections, i, n);
      PushedAt(t, n, series[n], lo, hi, Times(collections[..i], n), n == name, now[n], c);
    }
  }

  lemma PushedAt(t: Tables, n: Nsid, done: seq<Counts>, lo: nat, hi: nat, k: nat, pushed: bool, now: seq<Counts>,
                 c: Counts)
    requires now == WithChunk(t, n, done, lo, hi, k) + if pushed then [c] else []
    requires pushed ==> c == HoursMerged(t, n, lo, hi)
    ensures now == WithChunk(t, n, done, lo, hi, k + if pushed then 1 else 0)
  {
    if pushed {
      OneMoreChunk(t, n, done, lo, hi, k);
    }
  }

  /** One series with all that is still to come. */
  ghost function Completed(t: Tables, n: Nsid, done: seq<Counts>, now: nat, until: nat, step: nat, k: nat): seq<Counts>
    requires step > 0
  {
    done + NamedSeries(t, n, now, until, step, k)
  }

  lemma StillCompletes(t: Tables, n: Nsid, done: seq<Counts>, more: seq<Counts>, now: nat, next: nat, until: nat,
                       step: nat, k: nat)
    requires step > 0 && now < until && next == if now + step < until then now + step else until
    requires more == WithChunk(t, n, done, now, next, k)
    ensures Completed(t, n, more, next, until, step, k) == Completed(t, n, done, now, until, step, k)
  {
    Regroup(done, Repeated(HoursMerged(t, n, now, next), k), NamedSeries(t, n, next, until, step, k),
            Completed(t, n, done, now, until, step, k));
  }

  method NextChunk(t: Tables, collections: seq<Nsid>, rows: seq<seq<Counts>>, since: nat, at: nat, next: nat,
                   until: nat, step: nat, series: map<Nsid, seq<Counts>>)
    returns (more: map<Nsid, seq<Counts>>)
    requires step > 0 && at < |rows| && since + |rows| == until
    requires next == if at + step < |rows| then at + step else |rows|
    requires RowsOk(t, collections, rows, since) && forall i :: 0 <= i < |collections| ==> collections[i] in series
    ensures more.Keys == series.Keys
    ensures forall n :: n in series ==>
      Completed(t, n, more[n], since + next, until, step, Times(collections, n)) ==
        Completed(t, n, series[n], since + at, until, step, Times(collections, n))
  {
    more := AppendChunk(t, collections, rows, since, at, next, series);
    forall n | n in series
      ensures Completed(t, n, more[n], since + next, until, step, Times(collections, n)) ==
                Completed(t, n, series[n], since + at, until, step, Times(collections, n))
    {
      StillCompletes(t, n, series[n], more[n], since + at, since + next, until, step, Times(collections, n));
    }
  }

  lemma NextHour(hours: seq<nat>, now: nat, next: nat, until: nat, step: nat)
    requires step > 0 && now < until && next == if now + step < until then now + step else until
    ensures hours + [now] + ChunkHours(next, until, step) == hours + ChunkHours(now, until, step)
  {
  }

  lemma NothingYet(t: Tables, n: Nsid, since: nat, until: nat, step: nat, k: nat)
    requires step > 0
    ensures Completed(t, n, [], since, until, step, k) == NamedSeries(t, n, since, until, step, k)
  {
    EmptyFirst(NamedSeries(t, n, since, until, step, k));
  }

  lemma NothingLeft(t: Tables, n: Nsid, done: seq<Counts>, now: nat, until: nat, step: nat, k: nat)
    requires step > 0 && until <= now
    ensures Completed(t, n, done, now, until, step, k) == done
  {
    assert done + [] == done;
  }

  /** One turn of the loop: the next chunk's hour, and the chunk in every series. */
  method ChunkTurn(t: Tables, collections: seq<Nsid>, rows: seq<seq<Counts>>, since: nat, until: nat, step: nat,
                   at: nat, hours: seq<nat>, series: map<Nsid, seq<Counts>>)
    returns (next: nat, moreHours: seq<nat>, more: map<Nsid, seq<Counts>>)
    requires step > 0 && since + |rows| == until && RowsOk(t, collections, rows, since) && at < |rows|
    requires forall i :: 0 <= i < |collections| ==> collections[i] in series
    ensures at < next <= |rows| && more.Keys == series.Keys
    ensures moreHours + ChunkHours(since + next, until, step) == hours + ChunkHours(since + at, until, step)
    ensures forall n :: n in series ==>
      Completed(t, n, more[n], since + next, until, step, Times(collections, n)) ==
        Completed(t, n, series[n], since + at, until, step, Times(collections, n))
  {
    next := if at + step < |rows| then at + step else |rows|;
    NextHour(hours, since + at, since + next, until, step);
    more := NextChunk(t, collections, rows, since, at, next, until, step, series);
    moreHours := hours + [since + at];
  }

  /** The loop over the chunks. */
  method PushChunks(t: Tables, collections: seq<Nsid>, rows: seq<seq<Counts>>, since: nat, until: nat, step: nat,
                    empty: map<Nsid, seq<Counts>>)
    returns (hours: seq<nat>, series: map<Nsid, seq<Counts>>)
    requires step > 0 && since + |rows| == until && RowsOk(t, collections, rows, since)
    requires forall i :: 0 <= i < |collections| ==> collections[i] in empty
    ensures hours == ChunkHours(since, until, step) && series.Keys == empty.Keys
    ensures forall n :: n in empty ==> series[n] == Completed(t, n, empty[n], since, until, step, Times(collections, n))
  {
    hours, series := [], empty;
    var at := 0;
    while at < |rows|
      invariant at <= |rows| && series.Keys == empty.Keys
      invariant hours + ChunkHours(since + at, until, step) == ChunkHours(since, until, step)
      invariant forall n :: n in empty ==>
        Completed(t, n, series[n], since + at, until, step, Times(collections, n)) ==
          Completed(t, n, empty[n], since, until, step, Times(collections, n))
      decreases |rows| - at
    {
      at, hours, series := ChunkTurn(t, collections, rows, since, until, step, at, hours, series);
    }
    assert hours + [] == hours;
    forall n | n in empty ensures series[n] == Completed(t, n, empty[n], since, until, step, Times(collections, n)) {
      NothingLeft(t, n, series[n], since + at, until, step, Times(collections, n));
    }
  }

  /** `get_timeseries` for a list of collections, in hours; a step is at least one hour. */
  method GetTimeseries(t: Tables, collections: seq<Nsid>, since: nat, until: nat, step: nat)
    returns (hours: seq<nat>, series: map<Nsid, seq<Counts>>)
    requires step > 0
    ensures hours == ChunkHours(since, until, step)
    ensures forall n :: n in series <==> n in collections
    ensures forall n :: n in series ==> series[n] == NamedSeries(t, n, since, until, step, Times(collections, n))
  {
    hours := [];
    var empty: map<Nsid, seq<Counts>> := map n | n in collections :: [];
    if until < since {
      return hours, empty;
    }
    var rows := HourlyRows(t, collections, since, until - since);
    hours, series := PushChunks(t, collections, rows, since, until, step, empty);
    forall n | n in series ensures series[n] == NamedSeries(t, n, since, until, step, Times(collections, n)) {
      NothingYet(t, n, since, until, step, Times(collections, n));
    }
  }
}
