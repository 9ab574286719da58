/**
Time buckets. A truncated cursor is a multiple of its width, so it is kept as
the multiple: hour h starts at h * HOUR microseconds, week w at hour 168 * w.
*/
module Buckets {
  import opened Seqs

  const WEEK_IN_HOURS: nat := 168

  datatype Bucket = Hour(h: nat) | Week(w: nat) | AllTime

  /** The hour and the week that a cursor truncates to. */
  function HourOf(cursor: nat): nat {
    cursor / 3_600_000_000
  }

  function WeekOf(cursor: nat): nat {
    cursor / 604_800_000_000
  }

  predicate InBucket(cursor: nat, b: Bucket) {
    match b
    case Hour(h) => HourOf(cursor) == h
    case Week(w) => WeekOf(cursor) == w
    case AllTime => true
  }

  /** Truncating to a week is truncating to an hour first. */
  lemma WeekOfHour(cursor: nat)
    ensures WeekOf(cursor) == HourOf(cursor) / 168
  {
    var h := cursor / 3_600_000_000;
    var w := h / 168;
    assert 3_600_000_000 * h <= cursor < 3_600_000_000 * h + 3_600_000_000;
    assert 168 * w <= h <= 168 * w + 167;
    assert 604_800_000_000 * w <= cursor < 604_800_000_000 * w + 604_800_000_000;
  }

  /** First hour of a bucket, and the hour after its last. */
  function Start(b: Bucket): nat
    requires !b.AllTime?
  {
    if b.Hour? then b.h else 168 * b.w
  }

  function End(b: Bucket): nat
    requires !b.AllTime?
  {
    if b.Hour? then b.h + 1 else 168 * b.w + 168
  }

  lemma InBucketHours(cursor: nat, b: Bucket)
    requires !b.AllTime?
    ensures InBucket(cursor, b) <==> Start(b) <= HourOf(cursor) < End(b)
  {
    WeekOfHour(cursor);
  }

  /* ---- spanning an interval ---- */

  /** Hours and weeks that follow each other from `since` to `until`. */
  predicate Tiles(bs: seq<Bucket>, since: nat, until: nat) {
    if bs == [] then since == until
    else !bs[0].AllTime? && Start(bs[0]) == since && Tiles(bs[1..], End(bs[0]), until)
  }

  /** Take a whole week whenever one starts here and still fits. */
  function Spanning(since: nat, until: nat): seq<Bucket>
    decreases if since < until then until - since else 0
  {
    if until <= since then []
    else if since % 168 == 0 && since + 168 <= until then [Week(since / 168)] + Spanning(since + 168, until)
    else [Hour(since)] + Spanning(since + 1, until)
  }

  /** The span is tiled exactly: no gap and no overlap. */
  lemma {:induction false} SpanningTiles(since: nat, until: nat)
    requires since <= until
    ensures Tiles(Spanning(since, until), since, until)
    decreases until - since
  {
    if since < until {
      if since % 168 == 0 && since + 168 <= until {
        SpanningTiles(since + 168, until);
        assert Spanning(since, until)[1..] == Spanning(since + 168, until);
      } else {
        SpanningTiles(since + 1, until);
        assert Spanning(since, until)[1..] == Spanning(since + 1, until);
      }
    }
  }

  /** Before the next week starts there is nothing but hours to take. */
  lemma {:induction false} HoursToNextWeek(since: nat, next: nat, until: nat)
    requires next % 168 == 0 && since <= next <= until && next < since + 168
    ensures |Spanning(next, until)| <= |Spanning(since, until)|
    decreases next - since
  {
    if since < next {
      HoursToNextWeek(since + 1, next, until);
    }
  }

  /** Taking a week early is never worse than taking one hour. */
  lemma WeekBeatsHour(since: nat, until: nat)
    requires since < until
    ensures |Spanning(since, until)| <= 1 + |Spanning(since + 1, until)|
  {
    if since % 168 == 0 && since + 168 <= until {
      HoursToNextWeek(since + 1, since + 168, until);
    }
  }

  /** No tiling by hours and weeks uses fewer buckets. */
  lemma {:induction false} SpanningMinimal(bs: seq<Bucket>, since: nat, until: nat)
    requires Tiles(bs, since, until)
    ensures since <= until && |Spanning(since, until)| <= |bs|
    decreases |bs|
  {
    if bs != [] {
      SpanningMinimal(bs[1..], End(bs[0]), until);
      if bs[0].Hour? {
        WeekBeatsHour(since, until);
      }
    }
  }

  lemma SpanningBest(since: nat, until: nat)
    ensures since <= until ==> Tiles(Spanning(since, until), since, until)
    ensures forall bs :: Tiles(bs, since, until) ==> |Spanning(since, until)| <= |bs|
  {
    if since <= until {
      SpanningTiles(since, until);
    }
    forall bs | Tiles(bs, since, until) ensures |Spanning(since, until)| <= |bs| {
      SpanningMinimal(bs, since, until);
    }
  }

  /** The while loop of `buckets_spanning`. */
  method BucketsSpanning(since: nat, until: nat) returns (out: seq<Bucket>)
    ensures out == Spanning(since, until)
    ensures since <= until ==> Tiles(out, since, until)
    ensures forall bs :: Tiles(bs, since, until) ==> |out| <= |bs|
  {
    out := [];
    if until <= since {
      SpanningBest(since, until);
      return;
    }
    var lower := since;
    while lower < until
      invariant out + Spanning(lower, until) == Spanning(since, until)
      decreases until - lower
    {
      ghost var all := Spanning(since, until);
      if until - lower >= WEEK_IN_HOURS && lower % 168 == 0 {
        Regroup(out, [Week(lower / 168)], Spanning(lower + 168, until), all);
        out := out + [Week(lower / 168)];
        lower := lower + 168;
      } else {
        Regroup(out, [Hour(lower)], Spanning(lower + 1, until), all);
        out := out + [Hour(lower)];
        lower := lower + 1;
      }
    }
    SpanningBest(since, until);
  }
}
