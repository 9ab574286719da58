/**
Paging through the distinct accounts of a backlink list while events arrive: no
account is ever returned twice, and exactly when one is missed.
*/
module DidPaging {
  import opened Options
  import opened LinkIndex
  import opened LinkReads
  import opened LinkPaging

  /** The lists with only each account's first slot kept, which is what the pages look at. */
  function FirstViews(views: seq<View>): (v: seq<View>)
    ensures |v| == |views|
    ensures forall i :: 0 <= i < |v| ==> v[i] == View(views[i].dids, FirstOnly(views[i].slots))
  {
    seq(|views|, i requires 0 <= i < |views| => View(views[i].dids, FirstOnly(views[i].slots)))
  }

  /** An account has a live slot below a cursor. */
  ghost predicate LinksBelow(slots: seq<Slot>, cursor: nat, did: Did) {
    exists j :: 0 <= j < cursor && j < |slots| && slots[j].Some? && slots[j].value.did == did
  }

  ghost predicate NoRepeats<T>(s: seq<T>) {
    forall i, j :: 0 <= i < j < |s| ==> s[i] != s[j]
  }

  /* ---- one page ---- */

  /** After keeping first slots only, an account occurs at most once. */
  lemma FirstOnlyDistinct(slots: seq<Slot>, i: nat, j: nat)
    requires i < j < |slots| && FirstOnly(slots)[i].Some? && FirstOnly(slots)[j].Some?
    ensures FirstOnly(slots)[i].value.did != FirstOnly(slots)[j].value.did
  {
    assert slots[..j][i] == slots[i];
  }

  /** Which accounts a window of slots yields. */
  lemma {:induction false} ItemsAre(dids: map<Did, bool>, slots: seq<Slot>, collection: string, did: Did)
    ensures did in DidsOf(LinkItems(dids, slots, collection)) <==>
            Active(dids, did) && exists j :: 0 <= j < |slots| && slots[j].Some? && slots[j].value.did == did
  {
    if slots != [] {
      var n := |slots| - 1;
      var rest := LinkItems(dids, slots[..n], collection);
      ItemsAre(dids, slots[..n], collection, did);
      FoundMore(slots, n, did);
      if slots[n].Some? && Active(dids, slots[n].value.did) {
        var first := RecordId(slots[n].value.did, collection, slots[n].value.rkey);
        assert DidsOf([first] + rest) == [first.did] + DidsOf(rest);
      }
    }
  }

  lemma FoundMore(slots: seq<Slot>, n: nat, did: Did)
    requires |slots| == n + 1
    ensures (exists j :: 0 <= j < |slots| && slots[j].Some? && slots[j].value.did == did) <==>
            (exists j :: 0 <= j < n && slots[..n][j].Some? && slots[..n][j].value.did == did)
            || (slots[n].Some? && slots[n].value.did == did)
  {
    if j :| 0 <= j < n && slots[..n][j].Some? && slots[..n][j].value.did == did {
      assert slots[j] == slots[..n][j];
    }
    if j :| 0 <= j < |slots| && slots[j].Some? && slots[j].value.did == did {
      assert j < n ==> slots[j] == slots[..n][j];
    }
  }

  lemma {:induction false} ItemsDistinct(dids: map<Did, bool>, slots: seq<Slot>, collection: string)
    requires forall i, j :: 0 <= i < j < |slots| && slots[i].Some? && slots[j].Some? ==>
               slots[i].value.did != slots[j].value.did
    ensures NoRepeats(DidsOf(LinkItems(dids, slots, collection)))
  {
    if slots != [] {
      var n := |slots| - 1;
      var rest := LinkItems(dids, slots[..n], collection);
      ItemsDistinct(dids, slots[..n], collection);
      if slots[n].Some? && Active(dids, slots[n].value.did) {
        var first := RecordId(slots[n].value.did, collection, slots[n].value.rkey);
        ItemsAre(dids, slots[..n], collection, first.did);
        assert DidsOf([first] + rest) == [first.did] + DidsOf(rest);
      }
    }
  }

  /** A first slot lies in a window exactly when the account links below its end and not below its beginning. */
  lemma FirstInWindow(slots: seq<Slot>, b: nat, e: nat, did: Did)
    requires b <= e <= |slots|
    ensures (exists j ::
               0 <= j < e - b && FirstOnly(slots)[b..e][j].Some? && FirstOnly(slots)[b..e][j].value.did == did)
       <==> LinksBelow(slots, e, did) && !LinksBelow(slots, b, did)
  {
    var first := FirstOnly(slots);
    if j :| 0 <= j < e - b && first[b..e][j].Some? && first[b..e][j].value.did == did {
      assert first[b + j] == first[b..e][j];
      assert slots[b + j].value.did == did;
      forall i | 0 <= i < b && slots[i].Some? ensures slots[i].value.did != did {
        assert slots[..b + j][i] == slots[i];
      }
    }
    if LinksBelow(slots, e, did) && !LinksBelow(slots, b, did) {
      var k :| 0 <= k < e && k < |slots| && slots[k].Some? && slots[k].value.did == did;
      var f := FirstSlot(slots, k, did);
      assert first[b..e][f - b] == first[f];
    }
  }

  /** The first slot of an account that has one. */
  lemma {:induction false} FirstSlot(slots: seq<Slot>, k: nat, did: Did) returns (f: nat)
    requires k < |slots| && slots[k].Some? && slots[k].value.did == did
    ensures f <= k && slots[f].Some? && slots[f].value.did == did && FirstOnly(slots)[f] == slots[f]
    decreases k
  {
    if did in DidSet(slots[..k]) {
      var j :| 0 <= j < k && slots[..k][j].Some? && slots[..k][j].value.did == did;
      f := FirstSlot(slots, j, did);
    } else {
      f := k;
    }
  }

  /** Which accounts a page returns. */
  lemma PageReturns(v: View, collection: string, limit: nat, until: Option<nat>, did: Did)
    ensures var w := WindowOf(|v.slots|, limit, until);
            did in DidsOf(LinkPage(v.dids, FirstOnly(v.slots), collection, limit, until).items) <==>
              Active(v.dids, did) && LinksBelow(v.slots, w.end, did) && !LinksBelow(v.slots, w.begin, did)
  {
    var w := WindowOf(|v.slots|, limit, until);
    ItemsAre(v.dids, FirstOnly(v.slots)[w.begin..w.end], collection, did);
    FirstInWindow(v.slots, w.begin, w.end, did);
  }

  lemma PageReturnsOnce(v: View, collection: string, limit: nat, until: Option<nat>)
    ensures NoRepeats(DidsOf(LinkPage(v.dids, FirstOnly(v.slots), collection, limit, until).items))
  {
    var w := WindowOf(|v.slots|, limit, until);
    WindowDistinct(v.slots, w.begin, w.end);
    ItemsDistinct(v.dids, FirstOnly(v.slots)[w.begin..w.end], collection);
  }

  lemma WindowDistinct(slots: seq<Slot>, b: nat, e: nat)
    requires b <= e <= |slots|
    ensures var w := FirstOnly(slots)[b..e];
            forall i, j :: 0 <= i < j < |w| && w[i].Some? && w[j].Some? ==> w[i].value.did != w[j].value.did
  {
    var w := FirstOnly(slots)[b..e];
    forall i, j | 0 <= i < j < |w| && w[i].Some? && w[j].Some? ensures w[i].value.did != w[j].value.did {
      FirstOnlyDistinct(slots, b + i, b + j);
    }
  }

  /* ---- all the pages ---- */

  /** Whatever links later, below a cursor, linked before. */
  lemma LinkedBefore(a: seq<Slot>, b: seq<Slot>, cursor: nat, did: Did)
    requires Extends(a, b) && cursor <= |a| && LinksBelow(b, cursor, did)
    ensures LinksBelow(a, cursor, did)
  {
    var j :| 0 <= j < cursor && j < |b| && b[j].Some? && b[j].value.did == did;
    assert a[j] == b[j];
  }

  lemma LinksBelowMore(slots: seq<Slot>, b: nat, e: nat, did: Did)
    requires b <= e && LinksBelow(slots, b, did)
    ensures LinksBelow(slots, e, did)
  {
  }

  /** No step from one request to the next takes an account's last live slot below the cursor. */
  ghost predicate Kept<T>(views: seq<View>, pages: seq<Page<T>>, did: Did)
    requires |pages| <= |views|
  {
    |pages| <= 1 ||
    ((pages[0].next.Some? && LinksBelow(views[0].slots, pages[0].next.value, did) ==>
        LinksBelow(views[1].slots, pages[0].next.value, did))
     && Kept(views[1..], pages[1..], did))
  }

  lemma PagesMore(views: seq<View>, collection: string, limit: nat, until: Option<nat>)
    requires |views| > 1 && LinkPage(views[0].dids, FirstOnly(views[0].slots), collection, limit, until).next.Some?
    ensures var p := LinkPage(views[0].dids, FirstOnly(views[0].slots), collection, limit, until);
            Pages(FirstViews(views), collection, limit, until) ==
              [p] + Pages(FirstViews(views[1..]), collection, limit, p.next)
  {
    assert FirstViews(views)[1..] == FirstViews(views[1..]);
  }

  lemma {:induction false} PagesBound(views: seq<View>, collection: string, limit: nat, until: Option<nat>)
    ensures |Pages(views, collection, limit, until)| <= |views|
    decreases |views|
  {
    if views != [] {
      PagesBound(views[1..], collection, limit, LinkPage(views[0].dids, views[0].slots, collection, limit, until).next);
    }
  }

  /**
  An account that is active at every request is returned exactly when it links
  below the first cursor and never loses its last slot below a cursor that is
  about to be used.
  */
  lemma {:induction false} ReturnedIffKept(views: seq<View>, collection: string, limit: nat, until: Option<nat>,
                                           did: Did)
    requires views != [] && limit >= 1 && Stable(views)
    requires |views| >= WindowOf(|views[0].slots|, limit, until).end
    requires forall i :: 0 <= i < |views| ==> Active(views[i].dids, did)
    ensures var pages := Pages(FirstViews(views), collection, limit, until);
            && |pages| <= |views|
            && (did in DidsOf(ItemsOf(pages)) <==>
                  LinksBelow(views[0].slots, WindowOf(|views[0].slots|, limit, until).end, did)
                  && Kept(views, pages, did))
            && (!LinksBelow(views[0].slots, WindowOf(|views[0].slots|, limit, until).end, did) ==>
                  Kept(views, pages, did))
    decreases |views|
  {
    var w := WindowOf(|views[0].slots|, limit, until);
    var p := LinkPage(views[0].dids, FirstOnly(views[0].slots), collection, limit, until);
    var pages := Pages(FirstViews(views), collection, limit, until);
    PageReturns(views[0], collection, limit, until, did);
    if w.begin == 0 {
      assert pages == [p] + [];
      ItemsOfMore(p, []);
      assert p.items + [] == p.items;
      assert !LinksBelow(views[0].slots, 0, did);
    } else {
      assert Extends(views[0].slots, views[1].slots);
      NextStart(views, limit, until);
      var rest := views[1..];
      ReturnedIffKept(rest, collection, limit, p.next, did);
      PagesMore(views, collection, limit, until);
      var tail := Pages(FirstViews(rest), collection, limit, p.next);
      ItemsOfMore(p, tail);
      DidsJoin(p.items, ItemsOf(tail));
      KeptMore(views, p, tail, did);
      ReturnedOnward(views, w, p, tail, did);
    }
  }

  lemma NextStart(views: seq<View>, limit: nat, until: Option<nat>)
    requires views != [] && limit >= 1 && Stable(views)
    requires var w := WindowOf(|views[0].slots|, limit, until); |views| >= w.end && w.begin > 0
    ensures |views| > 1 && Stable(views[1..])
    ensures var w := WindowOf(|views[0].slots|, limit, until);
            && WindowOf(|views[1].slots|, limit, Some(w.begin)).end == w.begin
            && |views[1..]| >= w.begin
  {
    assert Extends(views[0].slots, views[1].slots);
  }

  lemma DidsJoin(a: seq<RecordId>, b: seq<RecordId>)
    ensures DidsOf(a + b) == DidsOf(a) + DidsOf(b)
  {
  }

  lemma KeptMore<T>(views: seq<View>, p: Page<T>, tail: seq<Page<T>>, did: Did)
    requires |views| > 1 && 0 < |tail| <= |views| - 1 && p.next.Some?
    ensures Kept(views, [p] + tail, did) <==>
            (LinksBelow(views[0].slots, p.next.value, did) ==> LinksBelow(views[1].slots, p.next.value, did))
            && Kept(views[1..], tail, did)
  {
    assert ([p] + tail)[1..] == tail;
  }

  lemma ReturnedOnward(views: seq<View>, w: Window, p: Page<RecordId>, tail: seq<Page<RecordId>>, did: Did)
    requires |views| > 1 && Extends(views[0].slots, views[1].slots) && 0 < |tail| <= |views| - 1
    requires 0 < w.begin <= w.end <= |views[0].slots| && p.next == Some(w.begin)
    requires did in DidsOf(p.items) <==>
               LinksBelow(views[0].slots, w.end, did) && !LinksBelow(views[0].slots, w.begin, did)
    requires did in DidsOf(ItemsOf(tail)) <==> LinksBelow(views[1].slots, w.begin, did) && Kept(views[1..], tail, did)
    requires !LinksBelow(views[1].slots, w.begin, did) ==> Kept(views[1..], tail, did)
    ensures did in DidsOf(p.items) || did in DidsOf(ItemsOf(tail)) <==>
            LinksBelow(views[0].slots, w.end, did) && Kept(views, [p] + tail, did)
    ensures !LinksBelow(views[0].slots, w.end, did) ==> Kept(views, [p] + tail, did)
  {
    KeptMore(views, p, tail, did);
    if LinksBelow(views[1].slots, w.begin, did) {
      LinkedBefore(views[0].slots, views[1].slots, w.begin, did);
    }
    if LinksBelow(views[0].slots, w.begin, did) {
      LinksBelowMore(views[0].slots, w.begin, w.end, did);
    }
  }

  /* ---- no account twice ---- */

  lemma JoinNoRepeats<T>(a: seq<T>, b: seq<T>)
    requires NoRepeats(a) && NoRepeats(b) && forall x :: x in a ==> x !in b
    ensures NoRepeats(a + b)
  {
    forall i, j | 0 <= i < j < |a + b| ensures (a + b)[i] != (a + b)[j] {
      if i < |a| <= j {
        assert a[i] in a && b[j - |a|] in b;
      }
    }
  }

  /** Whatever events arrive, no account is returned twice, and none that did not link below the first cursor. */
  lemma {:induction false} NeverReturnedTwice(views: seq<View>, collection: string, limit: nat, until: Option<nat>)
    requires views != [] && limit >= 1 && Stable(views)
    requires |views| >= WindowOf(|views[0].slots|, limit, until).end
    ensures var items := DidsOf(ItemsOf(Pages(FirstViews(views), collection, limit, until)));
            && NoRepeats(items)
            && forall did :: did in items ==>
              LinksBelow(views[0].slots, WindowOf(|views[0].slots|, limit, until).end, did)
    decreases |views|
  {
    var w := WindowOf(|views[0].slots|, limit, until);
    var p := LinkPage(views[0].dids, FirstOnly(views[0].slots), collection, limit, until);
    forall did
      ensures did in DidsOf(p.items) ==>
        LinksBelow(views[0].slots, w.end, did) && !LinksBelow(views[0].slots, w.begin, did) {
      PageReturns(views[0], collection, limit, until, did);
    }
    PageReturnsOnce(views[0], collection, limit, until);
    if w.begin == 0 {
      assert Pages(FirstViews(views), collection, limit, until) == [p] + [];
      ItemsOfMore(p, []);
      assert p.items + [] == p.items;
    } else {
      NextStart(views, limit, until);
      assert Extends(views[0].slots, views[1].slots);
      var rest := views[1..];
      NeverReturnedTwice(rest, collection, limit, p.next);
      PagesMore(views, collection, limit, until);
      var tail := Pages(FirstViews(rest), collection, limit, p.next);
      ItemsOfMore(p, tail);
      DidsJoin(p.items, ItemsOf(tail));
      forall did | did in DidsOf(ItemsOf(tail))
        ensures LinksBelow(views[0].slots, w.begin, did) && LinksBelow(views[0].slots, w.end, did) {
        LinkedBefore(views[0].slots, views[1].slots, w.begin, did);
        LinksBelowMore(views[0].slots, w.begin, w.end, did);
      }
      JoinNoRepeats(DidsOf(p.items), DidsOf(ItemsOf(tail)));
    }
  }

  /* ---- sessions ---- */

  /** The pages a client gets from the store. */
  function SessionDidPages(states: seq<Index>, key: TargetKey, limit: nat, until: Option<nat>): seq<Page<Did>> {
    if states == [] then []
    else
      var p := GetDistinctDids(states[0], key, limit, until);
      if p.next.None? then [p] else [p] + SessionDidPages(states[1..], key, limit, p.next)
  }

  lemma {:induction false} SessionDidPagesAre(states: seq<Index>, key: TargetKey, limit: nat, until: Option<nat>)
    ensures var pages := Pages(FirstViews(LinkViews(states, key)), key.collection, limit, until);
            && |SessionDidPages(states, key, limit, until)| == |pages|
            && (forall i :: 0 <= i < |pages| ==> SessionDidPages(states, key, limit, until)[i] == DidPage(pages[i]))
    decreases |states|
  {
    if states != [] {
      var p := GetDistinctDids(states[0], key, limit, until);
      assert FirstOnly([]) == [];
      assert LinkViews(states, key)[1..] == LinkViews(states[1..], key);
      assert FirstViews(LinkViews(states, key))[1..] == FirstViews(LinkViews(states[1..], key));
      SessionDidPagesAre(states[1..], key, limit, p.next);
    }
  }

  lemma {:induction false} DidItems(a: seq<Page<Did>>, b: seq<Page<RecordId>>)
    requires |a| == |b| && forall i :: 0 <= i < |a| ==> a[i] == DidPage(b[i])
    ensures ItemsOf(a) == DidsOf(ItemsOf(b))
  {
    if a != [] {
      DidItems(a[1..], b[1..]);
      DidsJoin(b[0].items, ItemsOf(b[1..]));
    }
  }

  ghost predicate Links(m: Index, key: TargetKey, did: Did) {
    LinksBelow(SlotsAt(m.targets, key), |SlotsAt(m.targets, key)|, did)
  }

  ghost predicate AlwaysActive(states: seq<Index>, did: Did) {
    forall i :: 0 <= i < |states| ==> Active(states[i].dids, did)
  }

  /** What happened between two requests did not take the account's last live slot below the next cursor. */
  ghost predicate KeepsBelow(before: Index, after: Index, key: TargetKey, cursor: Option<nat>, did: Did) {
    cursor.Some? && LinksBelow(SlotsAt(before.targets, key), cursor.value, did) ==>
      LinksBelow(SlotsAt(after.targets, key), cursor.value, did)
  }

  ghost predicate KeepsBelowAlways(states: seq<Index>, key: TargetKey, pages: seq<Page<Did>>, did: Did)
    requires |pages| <= |states|
  {
    forall r :: 0 <= r < |pages| - 1 ==> KeepsBelow(states[r], states[r + 1], key, pages[r].next, did)
  }

  lemma {:induction false} KeptIs(states: seq<Index>, key: TargetKey, pages: seq<Page<RecordId>>,
                                  didPages: seq<Page<Did>>, did: Did)
    requires |didPages| == |pages| <= |states| && forall i :: 0 <= i < |pages| ==> didPages[i] == DidPage(pages[i])
    ensures Kept(LinkViews(states, key), pages, did) <==> KeepsBelowAlways(states, key, didPages, did)
  {
    if |pages| > 1 {
      assert LinkViews(states, key)[1..] == LinkViews(states[1..], key);
      KeptIs(states[1..], key, pages[1..], didPages[1..], did);
      KeepsMore(states, key, didPages, did);
    }
  }

  lemma KeepsMore(states: seq<Index>, key: TargetKey, pages: seq<Page<Did>>, did: Did)
    requires 1 < |pages| <= |states|
    ensures KeepsBelowAlways(states, key, pages, did) <==>
            KeepsBelow(states[0], states[1], key, pages[0].next, did)
            && KeepsBelowAlways(states[1..], key, pages[1..], did)
  {
    if KeepsBelow(states[0], states[1], key, pages[0].next, did)
      && KeepsBelowAlways(states[1..], key, pages[1..], did) {
      forall r | 0 <= r < |pages| - 1 ensures KeepsBelow(states[r], states[r + 1], key, pages[r].next, did) {
        assert r > 0 ==> KeepsBelow(states[1..][r - 1], states[1..][r], key, pages[1..][r - 1].next, did);
      }
    }
    if KeepsBelowAlways(states, key, pages, did) {
      forall r | 0 <= r < |pages| - 2
        ensures KeepsBelow(states[1..][r], states[1..][r + 1], key, pages[1..][r].next, did) {
        assert KeepsBelow(states[r + 1], states[r + 2], key, pages[r + 1].next, did);
      }
    }
  }

  /** The pages end, having looked at each position of the first list exactly once. */
  lemma DidPagingEnds(states: seq<Index>, between: seq<seq<Event>>, key: TargetKey, limit: nat) returns (at: seq<nat>)
    requires IsSession(states, between) && limit >= 1
    requires |states| >= |SlotsAt(states[0].targets, key)|
    ensures var n := |SlotsAt(states[0].targets, key)|;
            var pages := SessionDidPages(states, key, limit, None);
            && |at| == n && (forall j :: 0 <= j < n ==> at[j] < |states|)
            && 0 < |pages| <= |states| && |pages| <= (if n == 0 then 1 else n)
            && pages[|pages| - 1].next == None
            && ItemsOf(pages) == DidsOf(Collected(FirstViews(LinkViews(states, key)), at, n, key.collection))
  {
    var views := FirstViews(LinkViews(states, key));
    SessionStable(states, between, key);
    assert Growing(views);
    at := PagingVisitsOnce(views, key.collection, limit, None);
    SessionDidPagesAre(states, key, limit, None);
    DidItems(SessionDidPages(states, key, limit, None), Pages(views, key.collection, limit, None));
    PagesBound(views, key.collection, limit, None);
  }

  /** Whatever events arrive between requests, no account is returned twice. */
  lemma DidsReturnedOnce(states: seq<Index>, between: seq<seq<Event>>, key: TargetKey, limit: nat)
    requires IsSession(states, between) && limit >= 1
    requires |states| >= |SlotsAt(states[0].targets, key)|
    ensures NoRepeats(ItemsOf(SessionDidPages(states, key, limit, None)))
  {
    var views := LinkViews(states, key);
    SessionStable(states, between, key);
    NeverReturnedTwice(views, key.collection, limit, None);
    SessionDidPagesAre(states, key, limit, None);
    DidItems(SessionDidPages(states, key, limit, None), Pages(FirstViews(views), key.collection, limit, None));
  }

  /**
  Whatever events arrive between requests, an account that is active throughout
  is returned if and only if it links at the first request and nothing between
  two requests takes its last live slot below the cursor of the second.
  */
  lemma DidReturnedIff(states: seq<Index>, between: seq<seq<Event>>, key: TargetKey, limit: nat, did: Did)
    requires IsSession(states, between) && limit >= 1
    requires |states| >= |SlotsAt(states[0].targets, key)| && AlwaysActive(states, did)
    ensures var pages := SessionDidPages(states, key, limit, None);
            && |pages| <= |states|
            && (did in ItemsOf(pages) <==> Links(states[0], key, did) && KeepsBelowAlways(states, key, pages, did))
  {
    var views := LinkViews(states, key);
    SessionStable(states, between, key);
    ReturnedIffKept(views, key.collection, limit, None, did);
    SessionDidPagesAre(states, key, limit, None);
    var pages := Pages(FirstViews(views), key.collection, limit, None);
    DidItems(SessionDidPages(states, key, limit, None), pages);
    KeptIs(states, key, pages, SessionDidPages(states, key, limit, None), did);
  }

  /* ---- while only creates arrive ---- */

  ghost predicate OnlyCreates(events: seq<Event>) {
    forall i :: 0 <= i < |events| ==> events[i].CreateLinks?
  }

  lemma {:induction false} CreatesAppend(m: Index, events: seq<Event>, key: TargetKey)
    requires OnlyCreates(events)
    ensures SlotsAt(m.targets, key) <= SlotsAt(Run(m, events).targets, key)
  {
    if events != [] {
      var n := |events| - 1;
      CreatesAppend(m, events[..n], key);
      AddLinksAppends(Run(m, events[..n]), events[n].rec, events[n].links, key);
    }
  }

  lemma AppendKeepsBelow(before: Index, after: Index, key: TargetKey, cursor: Option<nat>, did: Did)
    requires SlotsAt(before.targets, key) <= SlotsAt(after.targets, key)
    ensures KeepsBelow(before, after, key, cursor, did)
  {
    var a, b := SlotsAt(before.targets, key), SlotsAt(after.targets, key);
    if cursor.Some? && LinksBelow(a, cursor.value, did) {
      var j :| 0 <= j < cursor.value && j < |a| && a[j].Some? && a[j].value.did == did;
      assert b[j] == a[j];
    }
  }

  /** While only creates arrive, `get_distinct_dids` returns every account that is active throughout, once. */
  lemma StableDidPaging(states: seq<Index>, between: seq<seq<Event>>, key: TargetKey, limit: nat)
    requires IsSession(states, between) && limit >= 1
    requires forall i :: 0 <= i < |between| ==> OnlyCreates(between[i])
    requires |states| >= |SlotsAt(states[0].targets, key)|
    ensures NoRepeats(ItemsOf(SessionDidPages(states, key, limit, None)))
    ensures forall did :: AlwaysActive(states, did) ==>
              (did in ItemsOf(SessionDidPages(states, key, limit, None)) <==> Links(states[0], key, did))
  {
    DidsReturnedOnce(states, between, key, limit);
    forall did | AlwaysActive(states, did)
      ensures did in ItemsOf(SessionDidPages(states, key, limit, None)) <==> Links(states[0], key, did)
    {
      DidReturnedIff(states, between, key, limit, did);
      var pages := SessionDidPages(states, key, limit, None);
      forall r | 0 <= r < |pages| - 1 ensures KeepsBelow(states[r], states[r + 1], key, pages[r].next, did) {
        CreatesAppend(states[r], between[r], key);
        AppendKeepsBelow(states[r], states[r + 1], key, pages[r].next, did);
      }
    }
  }

  /* ---- the run that misses an account ---- */

  /** Three records link one target, the first and the last from one account. */
  function ThreeLinks(a: RecordId, b: RecordId, a2: RecordId, l: Link): seq<Event> {
    [CreateLinks(a, [l]), CreateLinks(b, [l]), CreateLinks(a2, [l])]
  }

  lemma ThreeSlots(a: RecordId, b: RecordId, a2: RecordId, l: Link)
    requires a.did == a2.did != b.did && a.collection == b.collection == a2.collection
    ensures var m := Run(EMPTY, ThreeLinks(a, b, a2, l));
            && SlotsAt(m.targets, KeyOf(a, l)) == [Some(LinkerOf(a)), Some(LinkerOf(b)), Some(LinkerOf(a2))]
            && m.dids == map[a.did := true, b.did := true]
  {
    var es := ThreeLinks(a, b, a2, l);
    assert es[..2][..1] == es[..1] && es[..1][..0] == [];
    assert Run(EMPTY, []) == EMPTY && es[..1][0] == es[0];
    AddOne(EMPTY, a, l);
    var one := Run(EMPTY, es[..1]);
    assert one == Push(EMPTY, es[0]);
    assert one == AddLink(EMPTY, a, l);
    AddOne(one, b, l);
    var two := Run(EMPTY, es[..2]);
    assert two == AddLink(one, b, l);
    AddOne(two, a2, l);
    assert Run(EMPTY, es) == AddLink(two, a2, l);
  }

  lemma FirstDeleted(m: Index, a: RecordId, b: RecordId, a2: RecordId, key: TargetKey)
    requires a.did == a2.did != b.did && a.collection == key.collection && a.rkey != a2.rkey
    requires SlotsAt(m.targets, key) == [Some(LinkerOf(a)), Some(LinkerOf(b)), Some(LinkerOf(a2))]
    ensures SlotsAt(Run(m, [DeleteRecord(a)]).targets, key) == [None, Some(LinkerOf(b)), Some(LinkerOf(a2))]
    ensures Run(m, [DeleteRecord(a)]).dids == m.dids
  {
    assert [DeleteRecord(a)][..0] == [];
    assert Run(m, []) == m;
    assert key in m.targets;
  }

  /**
  Deleting one of an account's two records after the first page hides the account
  from all the pages, although it is active and links at every request.
  */
  lemma DeleteHidesDid(a: RecordId, b: RecordId, a2: RecordId, l: Link)
    returns (states: seq<Index>, between: seq<seq<Event>>)
    requires a.did == a2.did != b.did && a.collection == b.collection == a2.collection && a.rkey != a2.rkey
    ensures IsSession(states, between) && |states| == 3 && states[0] == Run(EMPTY, ThreeLinks(a, b, a2, l))
    ensures between == [[DeleteRecord(a)], []]
    ensures AlwaysActive(states, a.did) && forall i :: 0 <= i < 3 ==> Links(states[i], KeyOf(a, l), a.did)
    ensures a.did !in ItemsOf(SessionDidPages(states, KeyOf(a, l), 1, None))
  {
    var key := KeyOf(a, l);
    states, between := HidingSession(a, b, a2, l);
    LostBelow(states[0], states[1], a, b, a2, key);
    FirstCursor(states, key);
    forall i | 0 <= i < 3 ensures Links(states[i], key, a.did) {
      assert SlotsAt(states[i].targets, key)[2] == Some(LinkerOf(a2));
    }
    DidReturnedIff(states, between, key, 1, a.did);
  }

  lemma HidingSession(a: RecordId, b: RecordId, a2: RecordId, l: Link)
    returns (states: seq<Index>, between: seq<seq<Event>>)
    requires a.did == a2.did != b.did && a.collection == b.collection == a2.collection && a.rkey != a2.rkey
    ensures IsSession(states, between) && |states| == 3 && states[0] == Run(EMPTY, ThreeLinks(a, b, a2, l))
    ensures between == [[DeleteRecord(a)], []]
    ensures SlotsAt(states[0].targets, KeyOf(a, l)) == [Some(LinkerOf(a)), Some(LinkerOf(b)), Some(LinkerOf(a2))]
    ensures forall i :: 1 <= i < 3 ==>
              SlotsAt(states[i].targets, KeyOf(a, l)) == [None, Some(LinkerOf(b)), Some(LinkerOf(a2))]
    ensures AlwaysActive(states, a.did)
  {
    var m := Run(EMPTY, ThreeLinks(a, b, a2, l));
    var after := Run(m, [DeleteRecord(a)]);
    states, between := [m, after, after], [[DeleteRecord(a)], []];
    ThreeSlots(a, b, a2, l);
    FirstDeleted(m, a, b, a2, KeyOf(a, l));
    assert Run(after, []) == after;
  }

  lemma LostBelow(before: Index, after: Index, a: RecordId, b: RecordId, a2: RecordId, key: TargetKey)
    requires a.did != b.did
    requires SlotsAt(before.targets, key) == [Some(LinkerOf(a)), Some(LinkerOf(b)), Some(LinkerOf(a2))]
    requires SlotsAt(after.targets, key) == [None, Some(LinkerOf(b)), Some(LinkerOf(a2))]
    ensures !KeepsBelow(before, after, key, Some(2), a.did)
  {
    assert SlotsAt(before.targets, key)[0].value.did == a.did;
  }

  /** With three slots and a limit of 1, the second request's cursor is 2. */
  lemma FirstCursor(states: seq<Index>, key: TargetKey)
    requires |states| > 1 && |SlotsAt(states[0].targets, key)| == 3
    ensures var pages := SessionDidPages(states, key, 1, None); |pages| > 1 && pages[0].next == Some(2)
  {
    assert key in states[0].targets;
    var p := GetDistinctDids(states[0], key, 1, None);
    assert p.next == Some(2);
    assert SessionDidPages(states[1..], key, 1, p.next) != [];
  }
}
