/** `get_lexi_collections`: a k-way merge over sorted bucket columns, paged by collection name. */
module LexiPages {
  import opened Options
  import opened CountValues
  import opened Seqs
  import Lex

  /** One collection in one bucket. A column is a bucket's part of the snapshot, in key order. */
  datatype Item = Item(nsid: Nsid, counts: Counts)

  ghost predicate Sorted(col: seq<Item>) {
    forall i, j :: 0 <= i < j < |col| ==> Lex.Less(col[i].nsid, col[j].nsid)
  }

  ghost predicate AllSorted(cols: seq<seq<Item>>) {
    forall c :: 0 <= c < |cols| ==> Sorted(cols[c])
  }

  /* ---- what a listing should be ---- */

  ghost predicate Occurs(cols: seq<seq<Item>>, nsid: Nsid) {
    exists c :: 0 <= c < |cols| && Within(cols[c], nsid)
  }

  predicate Within(col: seq<Item>, nsid: Nsid) {
    exists i :: 0 <= i < |col| && col[i].nsid == nsid
  }

  function CountIn(col: seq<Item>, nsid: Nsid): Counts {
    if col == [] then ZERO
    else if col[0].nsid == nsid then col[0].counts
    else CountIn(col[1..], nsid)
  }

  /** A collection's counts merged over all columns. */
  function MergedCount(cols: seq<seq<Item>>, nsid: Nsid): Counts {
    if cols == [] then ZERO
    else Merge(MergedCount(cols[..|cols| - 1], nsid), CountIn(cols[|cols| - 1], nsid))
  }

  /** The listing lists every collection once, in order, with its merged counts. */
  ghost predicate IsListing(out: seq<Item>, cols: seq<seq<Item>>) {
    && Sorted(out)
    && (forall nsid :: Within(out, nsid) <==> Occurs(cols, nsid))
    && (forall i :: 0 <= i < |out| ==> out[i].counts == MergedCount(cols, out[i].nsid))
  }

  /* ---- what the code computes ---- */

  /** The smaller of the best so far and a column's head. */
  function Lower(best: Option<Nsid>, col: seq<Item>): Option<Nsid> {
    if col == [] then best
    else if best.Some? && Lex.Less(best.value, col[0].nsid) then best
    else Some(col[0].nsid)
  }

  function Lowest(cols: seq<seq<Item>>): Option<Nsid> {
    if cols == [] then None else Lower(Lowest(cols[..|cols| - 1]), cols[|cols| - 1])
  }

  function Pop(col: seq<Item>, nsid: Nsid): seq<Item> {
    if col != [] && col[0].nsid == nsid then col[1..] else col
  }

  function PopAll(cols: seq<seq<Item>>, nsid: Nsid): (r: seq<seq<Item>>)
    ensures |r| == |cols|
  {
    seq(|cols|, c requires 0 <= c < |cols| => Pop(cols[c], nsid))
  }

  function HeadCount(col: seq<Item>, nsid: Nsid): Counts {
    if col != [] && col[0].nsid == nsid then col[0].counts else ZERO
  }

  function MergedHeads(cols: seq<seq<Item>>, nsid: Nsid): Counts {
    if cols == [] then ZERO
    else Merge(MergedHeads(cols[..|cols| - 1], nsid), HeadCount(cols[|cols| - 1], nsid))
  }

  function Size(cols: seq<seq<Item>>): nat {
    if cols == [] then 0 else Size(cols[..|cols| - 1]) + |cols[|cols| - 1]|
  }

  /** A page of at most `limit` collections. */
  function PageItems(cols: seq<seq<Item>>, limit: nat): (r: seq<Item>)
    ensures |r| <= limit
    decreases limit
  {
    if limit == 0 || Lowest(cols).None? then []
    else
      var nsid := Lowest(cols).value;
      [Item(nsid, MergedHeads(cols, nsid))] + PageItems(PopAll(cols, nsid), limit - 1)
  }

  /** The rest of a column strictly after a name: the exclusive lower bound of the range scan. */
  function After(col: seq<Item>, nsid: Nsid): seq<Item> {
    if col == [] then []
    else if Lex.Less(nsid, col[0].nsid) then col
    else After(col[1..], nsid)
  }

  function AllAfter(cols: seq<seq<Item>>, cursor: Option<Nsid>): (r: seq<seq<Item>>)
    ensures |r| == |cols|
  {
    if cursor.None? then cols
    else seq(|cols|, c requires 0 <= c < |cols| => After(cols[c], cursor.value))
  }

  /** The next cursor: the last name listed, unless the columns ran out first. */
  function NextCursor(page: seq<Item>, limit: nat): Option<Nsid> {
    if 0 < |page| == limit then Some(page[|page| - 1].nsid) else None
  }

  /** First scan: the lowest head. */
  method ScanLowest(iters: seq<seq<Item>>) returns (lowest: Option<Nsid>)
    ensures lowest == Lowest(iters)
  {
    lowest := None;
    for c := 0 to |iters|
      invariant lowest == Lowest(iters[..c])
    {
      assert iters[..c + 1][..c] == iters[..c];
      lowest := Lower(lowest, iters[c]);
    }
    assert iters[..|iters|] == iters;
  }

  lemma HeadsMore(cols: seq<seq<Item>>, c: nat, nsid: Nsid)
    requires c < |cols|
    ensures MergedHeads(cols[..c + 1], nsid) ==
            if cols[c] != [] && cols[c][0].nsid == nsid
            then Merge(MergedHeads(cols[..c], nsid), cols[c][0].counts)
            else MergedHeads(cols[..c], nsid)
  {
    assert cols[..c + 1][..c] == cols[..c];
    MergeLaws(MergedHeads(cols[..c], nsid), ZERO, ZERO);
  }

  lemma PopMore(cols: seq<seq<Item>>, c: nat, nsid: Nsid)
    requires c < |cols|
    ensures PopAll(cols[..c + 1], nsid) == PopAll(cols[..c], nsid) + [Pop(cols[c], nsid)]
  {
  }

  /** Second scan: merge and advance every column whose head is that name. */
  method TakeLowest(iters: seq<seq<Item>>, nsid: Nsid) returns (merged: Counts, rest: seq<seq<Item>>)
    ensures merged == MergedHeads(iters, nsid) && rest == PopAll(iters, nsid)
  {
    merged, rest := ZERO, [];
    for c := 0 to |iters|
      invariant merged == MergedHeads(iters[..c], nsid) && rest == PopAll(iters[..c], nsid)
    {
      HeadsMore(iters, c, nsid);
      PopMore(iters, c, nsid);
      if iters[c] != [] && iters[c][0].nsid == nsid {
        merged := Merge(merged, iters[c][0].counts);
      }
      rest := rest + [Pop(iters[c], nsid)];
    }
    assert iters[..|iters|] == iters;
  }

  method GetLexiCollections(cols: seq<seq<Item>>, limit: nat, cursor: Option<Nsid>)
    returns (out: seq<Item>, next: Option<Nsid>)
    ensures out == PageItems(AllAfter(cols, cursor), limit)
    ensures next == NextCursor(out, limit)
  {
    var iters := AllAfter(cols, cursor);
    ghost var page := PageItems(iters, limit);
    out, next := [], None;
    for n := 0 to limit
      invariant |out| == n && out + PageItems(iters, limit - n) == page
      invariant next == if n == 0 then None else Some(out[n - 1].nsid)
    {
      next := ScanLowest(iters);
      if next.None? {
        assert out + [] == out;
        return;
      }
      var merged, rest := TakeLowest(iters, next.value);
      PageStep(out, iters, limit - n);
      out := out + [Item(next.value, merged)];
      iters := rest;
    }
    assert out + [] == out;
  }

  lemma PageStep(out: seq<Item>, cols: seq<seq<Item>>, limit: nat)
    requires limit > 0 && Lowest(cols).Some?
    ensures var nsid := Lowest(cols).value;
            out + PageItems(cols, limit) ==
              out + [Item(nsid, MergedHeads(cols, nsid))] + PageItems(PopAll(cols, nsid), limit - 1)
  {
  }

  /* ---- one step of the merge ---- */

  lemma {:induction false} LowestIsLeast(cols: seq<seq<Item>>)
    ensures Lowest(cols).None? <==> forall c :: 0 <= c < |cols| ==> cols[c] == []
    ensures Lowest(cols).Some? ==> exists c :: 0 <= c < |cols| && cols[c] != [] && cols[c][0].nsid == Lowest(cols).value
    ensures Lowest(cols).Some? ==> forall c :: 0 <= c < |cols| && cols[c] != [] ==>
              !Lex.Less(cols[c][0].nsid, Lowest(cols).value)
  {
    if cols != [] {
      var n := |cols| - 1;
      var init, col := cols[..n], cols[n];
      LowestIsLeast(init);
      assert forall c :: 0 <= c < n ==> init[c] == cols[c];
      if col != [] {
        Lex.Irreflexive(col[0].nsid);
        if Lowest(init).Some? {
          if Lex.Less(Lowest(init).value, col[0].nsid) {
            Lex.Asymmetric(Lowest(init).value, col[0].nsid);
          } else {
            forall c | 0 <= c < n && init[c] != [] ensures !Lex.Less(init[c][0].nsid, col[0].nsid) {
              NotLessTrans(init[c][0].nsid, Lowest(init).value, col[0].nsid);
            }
          }
        }
      }
    }
  }

  lemma NotLessTrans(a: Nsid, b: Nsid, c: Nsid)
    requires !Lex.Less(a, b) && !Lex.Less(b, c)
    ensures !Lex.Less(a, c)
  {
    Lex.Total(a, b);
    Lex.Total(b, c);
    if Lex.Less(a, c) {
      if b != c {
        Lex.Transitive(a, c, b);
      }
    }
  }

  /** In a sorted column whose head is not below `nsid`, only the head can be `nsid`. */
  lemma HeadOrAbsent(col: seq<Item>, nsid: Nsid)
    requires Sorted(col) && (col == [] || !Lex.Less(col[0].nsid, nsid))
    ensures forall i :: 1 <= i < |col| ==> Lex.Less(nsid, col[i].nsid)
    ensures Pop(col, nsid) == After(col, nsid)
    ensures CountIn(col, nsid) == HeadCount(col, nsid)
    ensures Sorted(Pop(col, nsid))
  {
    if col != [] {
      Lex.Total(col[0].nsid, nsid);
      forall i | 1 <= i < |col| ensures Lex.Less(nsid, col[i].nsid) {
        if col[0].nsid != nsid {
          Lex.Transitive(nsid, col[0].nsid, col[i].nsid);
        }
      }
      Lex.Irreflexive(nsid);
      if |col| > 1 {
        assert col[1..][0] == col[1];
      }
      if col[0].nsid != nsid {
        forall i | 0 <= i < |col| ensures col[i].nsid != nsid {
          Lex.Asymmetric(nsid, col[i].nsid);
        }
        CountAbsent(col, nsid);
      }
    }
  }

  lemma {:induction false} CountAbsent(col: seq<Item>, nsid: Nsid)
    requires forall i :: 0 <= i < |col| ==> col[i].nsid != nsid
    ensures CountIn(col, nsid) == ZERO
  {
    if col != [] {
      CountAbsent(col[1..], nsid);
    }
  }

  /** Popping the lowest name is moving every column strictly past it. */
  lemma PopLowest(cols: seq<seq<Item>>)
    requires AllSorted(cols) && Lowest(cols).Some?
    ensures var nsid := Lowest(cols).value;
            && PopAll(cols, nsid) == AllAfter(cols, Some(nsid))
            && AllSorted(PopAll(cols, nsid))
            && MergedHeads(cols, nsid) == MergedCount(cols, nsid)
  {
    LowestIsLeast(cols);
    var nsid := Lowest(cols).value;
    forall c | 0 <= c < |cols| ensures Pop(cols[c], nsid) == After(cols[c], nsid) && Sorted(Pop(cols[c], nsid)) {
      HeadOrAbsent(cols[c], nsid);
    }
    HeadsAreCounts(cols, nsid);
  }

  lemma {:induction false} HeadsAreCounts(cols: seq<seq<Item>>, nsid: Nsid)
    requires AllSorted(cols) && forall c :: 0 <= c < |cols| && cols[c] != [] ==> !Lex.Less(cols[c][0].nsid, nsid)
    ensures MergedHeads(cols, nsid) == MergedCount(cols, nsid)
  {
    if cols != [] {
      var init := cols[..|cols| - 1];
      assert forall c :: 0 <= c < |init| ==> init[c] == cols[c];
      HeadsAreCounts(init, nsid);
      HeadOrAbsent(cols[|cols| - 1], nsid);
    }
  }

  /* ---- moving past a name ---- */

  lemma {:induction false} AfterWithin(col: seq<Item>, x: Nsid, nsid: Nsid)
    requires Sorted(col)
    ensures Sorted(After(col, x)) && (forall i :: 0 <= i < |After(col, x)| ==> Lex.Less(x, After(col, x)[i].nsid))
    ensures Within(After(col, x), nsid) <==> Within(col, nsid) && Lex.Less(x, nsid)
    ensures Lex.Less(x, nsid) ==> CountIn(After(col, x), nsid) == CountIn(col, nsid)
  {
    if col != [] {
      if Lex.Less(x, col[0].nsid) {
        forall i | 0 <= i < |col| ensures Lex.Less(x, col[i].nsid) {
          if i > 0 {
            Lex.Transitive(x, col[0].nsid, col[i].nsid);
          }
        }
      } else {
        AfterWithin(col[1..], x, nsid);
        WithinTail(col, nsid);
      }
    }
  }

  lemma WithinTail(col: seq<Item>, nsid: Nsid)
    requires col != []
    ensures Within(col, nsid) <==> col[0].nsid == nsid || Within(col[1..], nsid)
  {
    if Within(col, nsid) && col[0].nsid != nsid {
      var i :| 0 <= i < |col| && col[i].nsid == nsid;
      assert col[1..][i - 1].nsid == nsid;
    }
    if Within(col[1..], nsid) {
      var i :| 0 <= i < |col[1..]| && col[1..][i].nsid == nsid;
      assert col[i + 1].nsid == nsid;
    }
  }

  lemma {:induction false} AfterTwice(col: seq<Item>, x: Nsid, y: Nsid)
    requires Sorted(col) && Lex.Less(x, y)
    ensures After(After(col, x), y) == After(col, y)
  {
    if col != [] && !Lex.Less(x, col[0].nsid) {
      AfterTwice(col[1..], x, y);
      if Lex.Less(y, col[0].nsid) {
        Lex.Transitive(x, y, col[0].nsid);
      }
    }
  }

  lemma {:induction false} MergedCountAfter(cols: seq<seq<Item>>, x: Nsid, nsid: Nsid)
    requires AllSorted(cols) && Lex.Less(x, nsid)
    ensures MergedCount(AllAfter(cols, Some(x)), nsid) == MergedCount(cols, nsid)
  {
    if cols != [] {
      var init := cols[..|cols| - 1];
      assert forall c :: 0 <= c < |init| ==> init[c] == cols[c];
      MergedCountAfter(init, x, nsid);
      assert AllAfter(cols, Some(x))[..|cols| - 1] == AllAfter(init, Some(x));
      AfterWithin(cols[|cols| - 1], x, nsid);
    }
  }

  lemma OccursAfter(cols: seq<seq<Item>>, x: Nsid, nsid: Nsid)
    requires AllSorted(cols)
    ensures AllSorted(AllAfter(cols, Some(x)))
    ensures Occurs(AllAfter(cols, Some(x)), nsid) <==> Occurs(cols, nsid) && Lex.Less(x, nsid)
  {
    forall c | 0 <= c < |cols|
      ensures Sorted(After(cols[c], x))
      ensures Within(After(cols[c], x), nsid) <==> Within(cols[c], nsid) && Lex.Less(x, nsid)
    {
      AfterWithin(cols[c], x, nsid);
    }
    if Occurs(cols, nsid) && Lex.Less(x, nsid) {
      var c :| 0 <= c < |cols| && Within(cols[c], nsid);
      assert Within(AllAfter(cols, Some(x))[c], nsid);
    }
  }

  /** Before the lowest name nothing occurs, and the lowest does. */
  lemma OccursLowest(cols: seq<seq<Item>>, nsid: Nsid)
    requires AllSorted(cols)
    ensures Lowest(cols).None? ==> !Occurs(cols, nsid)
    ensures Lowest(cols).Some? ==>
              (Occurs(cols, nsid) <==> nsid == Lowest(cols).value || Occurs(PopAll(cols, Lowest(cols).value), nsid))
  {
    LowestIsLeast(cols);
    if Lowest(cols).Some? {
      var x := Lowest(cols).value;
      PopLowest(cols);
      OccursAfter(cols, x, nsid);
      var c :| 0 <= c < |cols| && cols[c] != [] && cols[c][0].nsid == x;
      assert Within(cols[c], x);
      if Occurs(cols, nsid) {
        var d :| 0 <= d < |cols| && Within(cols[d], nsid);
        var i :| 0 <= i < |cols[d]| && cols[d][i].nsid == nsid;
        HeadOrAbsent(cols[d], x);
        Lex.Total(cols[d][0].nsid, x);
      }
    }
  }

  /* ---- the unlimited page is the listing ---- */

  lemma {:induction false} SizeShrinks(cols: seq<seq<Item>>, nsid: Nsid, c: nat)
    requires c < |cols| && cols[c] != [] && cols[c][0].nsid == nsid
    ensures Size(PopAll(cols, nsid)) < Size(cols)
  {
    var n := |cols| - 1;
    assert PopAll(cols, nsid)[..n] == PopAll(cols[..n], nsid);
    if c < n {
      SizeShrinks(cols[..n], nsid, c);
    } else {
      SizeBound(cols[..n], nsid);
    }
  }

  lemma {:induction false} SizeBound(cols: seq<seq<Item>>, nsid: Nsid)
    ensures Size(PopAll(cols, nsid)) <= Size(cols)
  {
    if cols != [] {
      var n := |cols| - 1;
      assert PopAll(cols, nsid)[..n] == PopAll(cols[..n], nsid);
      SizeBound(cols[..n], nsid);
    }
  }

  /** Every page is in order, above nothing lower, with the merged counts. */
  lemma {:induction false} PageIsOrdered(cols: seq<seq<Item>>, limit: nat)
    requires AllSorted(cols)
    ensures Sorted(PageItems(cols, limit)) && Counted(PageItems(cols, limit), cols)
    decreases limit
  {
    if limit > 0 && Lowest(cols).Some? {
      var x := Lowest(cols).value;
      var rest := PopAll(cols, x);
      PopLowest(cols);
      PageIsOrdered(rest, limit - 1);
      CountedBefore(cols, x, PageItems(rest, limit - 1));
      OccursLowest(cols, x);
      PageMore(cols, limit);
      SortedMore(Item(x, MergedHeads(cols, x)), PageItems(rest, limit - 1), cols);
    }
  }

  /** Every item is a collection of some column, with its counts merged over all columns. */
  ghost predicate Counted(page: seq<Item>, cols: seq<seq<Item>>) {
    forall i :: 0 <= i < |page| ==> Occurs(cols, page[i].nsid) && page[i].counts == MergedCount(cols, page[i].nsid)
  }

  /** What is counted after a name is counted the same before it, and lies above it. */
  lemma CountedBefore(cols: seq<seq<Item>>, x: Nsid, tail: seq<Item>)
    requires AllSorted(cols) && Counted(tail, AllAfter(cols, Some(x)))
    ensures Counted(tail, cols) && forall i :: 0 <= i < |tail| ==> Lex.Less(x, tail[i].nsid)
  {
    forall i | 0 <= i < |tail|
      ensures Lex.Less(x, tail[i].nsid) && Occurs(cols, tail[i].nsid)
      ensures tail[i].counts == MergedCount(cols, tail[i].nsid)
    {
      OccursAfter(cols, x, tail[i].nsid);
      MergedCountAfter(cols, x, tail[i].nsid);
    }
  }

  lemma SortedMore(first: Item, tail: seq<Item>, cols: seq<seq<Item>>)
    requires Sorted(tail) && Counted(tail, cols) && forall i :: 0 <= i < |tail| ==> Lex.Less(first.nsid, tail[i].nsid)
    requires Occurs(cols, first.nsid) && first.counts == MergedCount(cols, first.nsid)
    ensures Sorted([first] + tail) && Counted([first] + tail, cols)
  {
  }

  /** With room for everything, the page is the listing. */
  lemma {:induction false} BigPageIsComplete(cols: seq<seq<Item>>, limit: nat, nsid: Nsid)
    requires AllSorted(cols) && limit >= Size(cols)
    ensures Occurs(cols, nsid) ==> Within(PageItems(cols, limit), nsid)
    decreases limit
  {
    OccursLowest(cols, nsid);
    LowestIsLeast(cols);
    if Lowest(cols).Some? {
      var x := Lowest(cols).value;
      var c :| 0 <= c < |cols| && cols[c] != [] && cols[c][0].nsid == x;
      SizeShrinks(cols, x, c);
      PopLowest(cols);
      BigPageIsComplete(PopAll(cols, x), limit - 1, nsid);
      WithinTail(PageItems(cols, limit), nsid);
      assert PageItems(cols, limit)[1..] == PageItems(PopAll(cols, x), limit - 1);
    }
  }

  lemma FullListing(cols: seq<seq<Item>>, limit: nat)
    requires AllSorted(cols) && limit >= Size(cols)
    ensures IsListing(PageItems(cols, limit), cols)
  {
    PageIsOrdered(cols, limit);
    forall nsid ensures Within(PageItems(cols, limit), nsid) <==> Occurs(cols, nsid) {
      BigPageIsComplete(cols, limit, nsid);
    }
  }

  /* ---- paging ---- */

  lemma PageMore(cols: seq<seq<Item>>, limit: nat)
    requires limit > 0 && Lowest(cols).Some?
    ensures var x := Lowest(cols).value;
            PageItems(cols, limit) == [Item(x, MergedHeads(cols, x))] + PageItems(PopAll(cols, x), limit - 1)
  {
  }

  /** Moving past a later name from past an earlier one. */
  lemma AfterLater(cols: seq<seq<Item>>, x: Nsid, y: Nsid)
    requires AllSorted(cols) && Lex.Less(x, y)
    ensures AllAfter(AllAfter(cols, Some(x)), Some(y)) == AllAfter(cols, Some(y))
  {
    forall c | 0 <= c < |cols| ensures After(After(cols[c], x), y) == After(cols[c], y) {
      AfterTwice(cols[c], x, y);
    }
  }

  /** Everything listed after popping the lowest name is above it. */
  lemma RestIsAbove(cols: seq<seq<Item>>, limit: nat, i: nat)
    requires AllSorted(cols) && Lowest(cols).Some? && i < |PageItems(PopAll(cols, Lowest(cols).value), limit)|
    ensures Lex.Less(Lowest(cols).value, PageItems(PopAll(cols, Lowest(cols).value), limit)[i].nsid)
  {
    var x := Lowest(cols).value;
    PopLowest(cols);
    PageIsOrdered(PopAll(cols, x), limit);
    OccursAfter(cols, x, PageItems(PopAll(cols, x), limit)[i].nsid);
  }

  /** A page and, if it is full, the page after its last name. */
  ghost function WithNext(page: seq<Item>, cols: seq<seq<Item>>, a: nat, b: nat): seq<Item> {
    if 0 < |page| == a then page + PageItems(AllAfter(cols, Some(page[a - 1].nsid)), b) else page
  }

  /** A page, then a page after its last name, is one bigger page. */
  lemma {:induction false} PagesJoin(cols: seq<seq<Item>>, a: nat, b: nat)
    requires AllSorted(cols) && a > 0
    ensures PageItems(cols, a + b) == WithNext(PageItems(cols, a), cols, a, b)
    decreases a
  {
    if Lowest(cols).Some? {
      var x := Lowest(cols).value;
      var rest := PopAll(cols, x);
      PopLowest(cols);
      PageMore(cols, a);
      PageMore(cols, a + b);
      var first, tail := Item(x, MergedHeads(cols, x)), PageItems(rest, a - 1);
      if a == 1 {
        JoinsFirst(first, tail, cols, rest, b);
      } else {
        PagesJoin(rest, a - 1, b);
        SameNext(cols, a);
        JoinsMore(first, tail, PageItems(rest, a - 1 + b), cols, rest, a, b);
      }
    }
  }

  /** Continuing after the last name is the same from the columns and from what is left of them. */
  lemma SameNext(cols: seq<seq<Item>>, a: nat)
    requires AllSorted(cols) && Lowest(cols).Some? && a > 1
    ensures var rest := PopAll(cols, Lowest(cols).value);
            var tail := PageItems(rest, a - 1);
            |tail| == a - 1 ==> AllAfter(rest, Some(tail[a - 2].nsid)) == AllAfter(cols, Some(tail[a - 2].nsid))
  {
    var x := Lowest(cols).value;
    var tail := PageItems(PopAll(cols, x), a - 1);
    PopLowest(cols);
    if |tail| == a - 1 {
      RestIsAbove(cols, a - 1, a - 2);
      AfterLater(cols, x, tail[a - 2].nsid);
    }
  }

  lemma JoinsFirst(first: Item, tail: seq<Item>, cols: seq<seq<Item>>, rest: seq<seq<Item>>, b: nat)
    requires rest == AllAfter(cols, Some(first.nsid)) && tail == []
    ensures [first] + PageItems(rest, b) == WithNext([first] + tail, cols, 1, b)
  {
    assert [first] + tail == [first];
  }

  lemma JoinsMore(first: Item, tail: seq<Item>, more: seq<Item>, cols: seq<seq<Item>>, rest: seq<seq<Item>>, a: nat,
                  b: nat)
    requires a > 1 && |tail| <= a - 1 && more == WithNext(tail, rest, a - 1, b)
    requires |tail| == a - 1 ==> AllAfter(rest, Some(tail[a - 2].nsid)) == AllAfter(cols, Some(tail[a - 2].nsid))
    ensures [first] + more == WithNext([first] + tail, cols, a, b)
  {
    if |tail| == a - 1 {
      Regroup([first], tail, PageItems(AllAfter(cols, Some(tail[a - 2].nsid)), b), [first] + more);
    }
  }

  lemma {:induction false} ShortPageIsAll(cols: seq<seq<Item>>, a: nat, b: nat)
    requires AllSorted(cols) && |PageItems(cols, a)| < a
    ensures PageItems(cols, a + b) == PageItems(cols, a)
  {
    PagesJoin(cols, a, b);
  }

  /** The pages of a client that follows the cursor until there is none. */
  ghost predicate IsPaging(pages: seq<seq<Item>>, cols: seq<seq<Item>>, limit: nat) {
    && pages != []
    && pages[0] == PageItems(cols, limit)
    && (forall i :: 0 <= i < |pages| - 1 ==>
          NextCursor(pages[i], limit).Some?
          && pages[i + 1] == PageItems(AllAfter(cols, NextCursor(pages[i], limit)), limit))
  }

  function Joined(pages: seq<seq<Item>>): seq<Item> {
    if pages == [] then [] else Joined(pages[..|pages| - 1]) + pages[|pages| - 1]
  }

  lemma JoinedMore(pages: seq<seq<Item>>, k: nat)
    requires 0 < k <= |pages|
    ensures Joined(pages[..k]) == Joined(pages[..k - 1]) + pages[k - 1]
  {
    assert pages[..k][..k - 1] == pages[..k - 1];
  }

  /** `now` is the single page that the pages so far amount to, `before` items of it from earlier pages. */
  ghost predicate SoFar(before: nat, now: seq<Item>, next: Option<Nsid>, cols: seq<seq<Item>>, limit: nat) {
    && now == PageItems(cols, before + limit)
    && (next.Some? ==> 0 < |now| == before + limit && next == Some(now[|now| - 1].nsid))
    && (next.None? ==> |now| < before + limit)
  }

  lemma SoFarMore(before: nat, now: seq<Item>, next: Option<Nsid>, page: seq<Item>, cols: seq<seq<Item>>, limit: nat)
    requires AllSorted(cols) && limit >= 1 && SoFar(before, now, next, cols, limit) && next.Some?
    requires page == PageItems(AllAfter(cols, next), limit)
    ensures SoFar(|now|, now + page, NextCursor(page, limit), cols, limit)
  {
    PagesJoin(cols, |now|, limit);
  }

  lemma SoFarWithinSize(before: nat, now: seq<Item>, next: Option<Nsid>, cols: seq<seq<Item>>, limit: nat)
    requires SoFar(before, now, next, cols, limit)
    ensures |now| <= Size(cols)
  {
    PageWithinSize(cols, before + limit);
  }

  lemma SoFarIsListing(before: nat, now: seq<Item>, cols: seq<seq<Item>>, limit: nat)
    requires AllSorted(cols) && SoFar(before, now, None, cols, limit)
    ensures IsListing(now, cols)
  {
    ShortPageIsAll(cols, before + limit, Size(cols));
    FullListing(cols, before + limit + Size(cols));
  }

  /** The first k pages together are one page; only a last page can be short. */
  lemma {:induction false} PagesSoFar(pages: seq<seq<Item>>, cols: seq<seq<Item>>, limit: nat, k: nat)
    requires AllSorted(cols) && limit >= 1 && IsPaging(pages, cols, limit) && 0 < k <= |pages|
    ensures k - 1 <= |Joined(pages[..k - 1])| <= Size(cols)
    ensures SoFar(|Joined(pages[..k - 1])|, Joined(pages[..k]), NextCursor(pages[k - 1], limit), cols, limit)
  {
    JoinedMore(pages, k);
    if k == 1 {
      assert pages[..0] == [] && [] + pages[0] == pages[0];
    } else {
      PagesSoFar(pages, cols, limit, k - 1);
      assert NextCursor(pages[k - 2], limit).Some?;
      SoFarWithinSize(|Joined(pages[..k - 2])|, Joined(pages[..k - 1]), NextCursor(pages[k - 2], limit), cols, limit);
      SoFarMore(|Joined(pages[..k - 2])|, Joined(pages[..k - 1]), NextCursor(pages[k - 2], limit), pages[k - 1], cols,
                limit);
    }
  }

  lemma {:induction false} PageWithinSize(cols: seq<seq<Item>>, limit: nat)
    ensures |PageItems(cols, limit)| <= Size(cols)
    decreases limit
  {
    if limit > 0 && Lowest(cols).Some? {
      LowestIsLeast(cols);
      var x := Lowest(cols).value;
      var c :| 0 <= c < |cols| && cols[c] != [] && cols[c][0].nsid == x;
      SizeShrinks(cols, x, c);
      PageWithinSize(PopAll(cols, x), limit - 1);
    }
  }

  /**
  Over a fixed snapshot, with a limit of at least 1: following the cursor ends
  after at most one page more than there are items, and the joined pages are the listing.
  */
  lemma LexiPagingLists(pages: seq<seq<Item>>, cols: seq<seq<Item>>, limit: nat)
    requires AllSorted(cols) && limit >= 1 && IsPaging(pages, cols, limit)
    ensures |pages| <= Size(cols) + 1
    ensures NextCursor(pages[|pages| - 1], limit).None? ==> IsListing(Joined(pages), cols)
  {
    var k := |pages|;
    assert pages[..k] == pages;
    PagesSoFar(pages, cols, limit, k);
    if NextCursor(pages[k - 1], limit).None? {
      SoFarIsListing(|Joined(pages[..k - 1])|, Joined(pages), cols, limit);
    }
  }
}
