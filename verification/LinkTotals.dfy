/**
The numbers that come with backlink reads: counts, totals and versions, tied to the
events that arrived and to the items of all pages together.
*/
module LinkTotals {
  import opened Options
  import opened LinkIndex
  import opened LinkReads
  import opened LinkHistory
  import opened LinkPaging
  import opened DidPaging

  /* ---- counting slots ---- */

  ghost function LiveAt(slots: seq<Slot>): set<nat> {
    set i | 0 <= i < |slots| && slots[i].Some?
  }

  /** The live slots that readers do not see. */
  ghost function HiddenAt(dids: map<Did, bool>, slots: seq<Slot>): set<nat> {
    set i | 0 <= i < |slots| && slots[i].Some? && !Active(dids, slots[i].value.did)
  }

  lemma {:induction false} CountsLive(slots: seq<Slot>)
    ensures LiveCount(slots) == |LiveAt(slots)|
  {
    if slots != [] {
      var n := |slots| - 1;
      CountsLive(slots[..n]);
      assert LiveAt(slots) == LiveAt(slots[..n]) + if slots[n].Some? then {n} else {};
    }
  }

  /** Every live slot is an item or hidden. */
  lemma {:induction false} ItemsAndHidden(dids: map<Did, bool>, slots: seq<Slot>, collection: string)
    ensures |LinkItems(dids, slots, collection)| + |HiddenAt(dids, slots)| == LiveCount(slots)
  {
    if slots != [] {
      var n := |slots| - 1;
      ItemsAndHidden(dids, slots[..n], collection);
      assert HiddenAt(dids, slots) == HiddenAt(dids, slots[..n]) +
             if slots[n].Some? && !Active(dids, slots[n].value.did) then {n} else {};
    }
  }

  /** With only each account's first slot left, there are as many live slots as accounts. */
  lemma {:induction false} FirstOnlyCounts(slots: seq<Slot>)
    ensures LiveCount(FirstOnly(slots)) == |DidSet(slots)|
  {
    if slots != [] {
      var n := |slots| - 1;
      FirstOnlyCounts(slots[..n]);
      LastDid(slots);
      FirstOnlyInit(slots, n);
      if slots[n].None? {
        assert DidSet(slots) == DidSet(slots[..n]);
      } else if slots[n].value.did in DidSet(slots[..n]) {
        assert FirstOnly(slots)[n] == None && DidSet(slots) == DidSet(slots[..n]);
      } else {
        assert FirstOnly(slots)[n] == slots[n];
      }
    }
  }

  lemma FirstOnlyInit(slots: seq<Slot>, n: nat)
    requires n < |slots|
    ensures FirstOnly(slots)[..n] == FirstOnly(slots[..n])
  {
    forall i | 0 <= i < n ensures FirstOnly(slots)[i] == FirstOnly(slots[..n])[i] {
      assert slots[..n][..i] == slots[..i];
    }
  }

  ghost function Inactive(dids: map<Did, bool>, linking: set<Did>): set<Did> {
    set d | d in linking && !Active(dids, d)
  }

  lemma InactiveMore(dids: map<Did, bool>, linking: set<Did>, d: Did)
    ensures |Inactive(dids, linking + {d})| ==
            |Inactive(dids, linking)| + if d !in linking && !Active(dids, d) then 1 else 0
  {
    if d in linking {
      assert linking + {d} == linking;
    } else {
      assert Inactive(dids, linking + {d}) == Inactive(dids, linking) + if Active(dids, d) then {} else {d};
    }
  }

  /** The accounts whose first slot readers do not see are the inactive ones. */
  lemma {:induction false} HiddenFirstOnly(dids: map<Did, bool>, slots: seq<Slot>)
    ensures |HiddenAt(dids, FirstOnly(slots))| == |Inactive(dids, DidSet(slots))|
  {
    if slots != [] {
      var n := |slots| - 1;
      HiddenFirstOnly(dids, slots[..n]);
      FirstOnlyInit(slots, n);
      HiddenLast(dids, FirstOnly(slots), n);
      LastDid(slots);
      if slots[n].Some? {
        InactiveMore(dids, DidSet(slots[..n]), slots[n].value.did);
      } else {
        assert DidSet(slots) == DidSet(slots[..n]);
      }
    }
  }

  lemma HiddenLast(dids: map<Did, bool>, slots: seq<Slot>, n: nat)
    requires n + 1 == |slots|
    ensures |HiddenAt(dids, slots)| == |HiddenAt(dids, slots[..n])| +
            if slots[n].Some? && !Active(dids, slots[n].value.did) then 1 else 0
  {
    assert HiddenAt(dids, slots) == HiddenAt(dids, slots[..n]) +
           if slots[n].Some? && !Active(dids, slots[n].value.did) then {n} else {};
  }

  /* ---- reads over runs ---- */

  ghost predicate Holds(m: Index, rec: RecordId, key: TargetKey) {
    rec.collection == key.collection && LinkOf(key) in Forward(m, rec)
  }

  /** Some record of the account holds a link to the target now. */
  ghost predicate LinksNow(m: Index, key: TargetKey, did: Did) {
    exists rec: RecordId :: rec.did == did && Holds(m, rec, key)
  }

  lemma HoldsHasSlot(m: Index, rec: RecordId, key: TargetKey)
    requires Inv(m) && rec.collection == key.collection
    ensures Holds(m, rec, key) <==> Some(LinkerOf(rec)) in SlotsAt(m.targets, key)
  {
    assert KeyOf(rec, LinkOf(key)) == key;
    assert Balanced(m, rec, LinkOf(key));
    assert LinkOf(key) in Forward(m, rec) <==> LinkOf(key) in multiset(Forward(m, rec));
    var slots := SlotsAt(m.targets, key);
    assert Some(LinkerOf(rec)) in slots <==> Some(LinkerOf(rec)) in multiset(slots);
  }

  lemma CountedLinks(m: Index, key: TargetKey, did: Did)
    requires Inv(m)
    ensures did in DidSet(SlotsAt(m.targets, key)) <==> LinksNow(m, key, did)
  {
    var slots := SlotsAt(m.targets, key);
    if did in DidSet(slots) {
      var i :| 0 <= i < |slots| && slots[i].Some? && slots[i].value.did == did;
      var rec := RecordId(did, key.collection, slots[i].value.rkey);
      assert slots[i] == Some(LinkerOf(rec));
      HoldsHasSlot(m, rec, key);
    }
    if LinksNow(m, key, did) {
      var rec: RecordId :| rec.did == did && Holds(m, rec, key);
      HoldsHasSlot(m, rec, key);
      var i :| 0 <= i < |slots| && slots[i] == Some(LinkerOf(rec));
    }
  }

  /**
  `get_all_counts` over every run: a source is listed exactly when a link of it to
  the target ever arrived, with its live slots and the accounts that link now.
  */
  lemma AllCountsAre(events: seq<Event>, target: string, key: TargetKey)
    ensures var m := Run(EMPTY, events);
            var counts := GetAllCounts(m, target);
            && (key in counts <==> key.target == target && AllBrought(events, key) > 0)
            && (key in counts ==> counts[key].records == |LiveAt(SlotsAt(m.targets, key))|)
            && (key in counts ==> counts[key].distinctDids == |DidSet(SlotsAt(m.targets, key))|)
            && forall did :: did in DidSet(SlotsAt(m.targets, key)) <==> LinksNow(m, key, did)
  {
    var m := Run(EMPTY, events);
    SlotsEver(events, key);
    CountsLive(SlotsAt(m.targets, key));
    RunKeepsInv(events);
    forall did ensures did in DidSet(SlotsAt(m.targets, key)) <==> LinksNow(m, key, did) {
      CountedLinks(m, key, did);
    }
  }

  /** The version of a page: how many links to the target ever arrived, and how many of them are gone. */
  lemma VersionIs(events: seq<Event>, key: TargetKey, limit: nat, until: Option<nat>)
    ensures var p := GetLinks(Run(EMPTY, events), key, limit, until);
            var slots := SlotsAt(Run(EMPTY, events).targets, key);
            && p.version.0 == AllBrought(events, key)
            && p.version.1 == AllBrought(events, key) - |LiveAt(slots)| && p.total == |LiveAt(slots)|
  {
    SlotsEver(events, key);
    CountsLive(SlotsAt(Run(EMPTY, events).targets, key));
  }

  /* ---- pages ---- */

  /** The page looks at the slots from `lo` to `hi`, and the next one ends at `lo`. */
  ghost predicate Covers(p: Page<RecordId>, v: View, collection: string, lo: nat, hi: nat)
    requires lo <= hi <= |v.slots|
  {
    p.items == LinkItems(v.dids, v.slots[lo..hi], collection) && p.next == if lo == 0 then None else Some(lo)
  }

  /** Where page `i` ends: `i` pages of `limit` slots below `n`. */
  function Down(n: nat, i: nat, limit: nat): (r: nat)
    ensures r <= n
  {
    if i == 0 then n else if n <= limit then 0 else Down(n - limit, i - 1, limit)
  }

  lemma {:induction false} DownIs(n: nat, i: nat, limit: nat)
    ensures Down(n, i, limit) == if i * limit < n then n - i * limit else 0
  {
    if i > 0 {
      assert (i - 1) * limit + limit == i * limit;
      if n > limit {
        DownIs(n - limit, i - 1, limit);
      }
    }
  }

  /** Page `i` of those that begin at `n`. */
  ghost predicate PageAt(p: Page<RecordId>, v: View, collection: string, limit: nat, n: nat, i: nat) {
    && Down(n, i + 1, limit) <= Down(n, i, limit) <= |v.slots| && (i > 0 ==> Down(n, i, limit) > 0)
    && Covers(p, v, collection, Down(n, i + 1, limit), Down(n, i, limit))
  }

  lemma FirstPage(v: View, collection: string, limit: nat, until: Option<nat>)
    requires limit >= 1
    ensures var n := WindowOf(|v.slots|, limit, until).end;
            PageAt(LinkPage(v.dids, v.slots, collection, limit, until), v, collection, limit, n, 0)
  {
    var w := WindowOf(|v.slots|, limit, until);
    assert Down(w.end, 1, limit) == w.begin;
  }

  lemma LaterPage(p: Page<RecordId>, v: View, collection: string, limit: nat, n: nat, i: nat)
    requires n > 0 && PageAt(p, v, collection, limit, n, i)
    ensures PageAt(p, v, collection, limit, n + limit, i + 1)
  {
  }

  /** Every page but the last looks at exactly `limit` slots, in the view of its own request. */
  lemma {:induction false} PagesCover(views: seq<View>, collection: string, limit: nat, until: Option<nat>, i: nat)
    requires views != [] && limit >= 1 && Growing(views)
    requires |views| >= WindowOf(|views[0].slots|, limit, until).end
    requires i < |Pages(views, collection, limit, until)|
    ensures i < |views|
    ensures PageAt(Pages(views, collection, limit, until)[i], views[i], collection, limit,
                   WindowOf(|views[0].slots|, limit, until).end, i)
    decreases |views|
  {
    var w := WindowOf(|views[0].slots|, limit, until);
    if i == 0 {
      FirstPage(views[0], collection, limit, until);
    } else {
      PagesMore(views, collection, limit, until, i);
      NextWindow(views, limit, until);
      PagesCover(views[1..], collection, limit, NextOf(w), i - 1);
      LaterPage(Pages(views[1..], collection, limit, NextOf(w))[i - 1], views[1..][i - 1], collection, limit,
                WindowOf(|views[1].slots|, limit, NextOf(w)).end, i - 1);
    }
  }

  lemma PagesMore(views: seq<View>, collection: string, limit: nat, until: Option<nat>, i: nat)
    requires views != [] && 0 < i < |Pages(views, collection, limit, until)|
    ensures var w := WindowOf(|views[0].slots|, limit, until);
            var tail := Pages(views[1..], collection, limit, NextOf(w));
            w.begin > 0 && i - 1 < |tail| && Pages(views, collection, limit, until)[i] == tail[i - 1]
  {
  }

  /** The page covers `limit` slots below the `i` pages before it, or as many as there are. */
  ghost predicate NthPage(p: Page<RecordId>, v: View, collection: string, limit: nat, n: nat, i: nat) {
    var hi, lo := n - i * limit, if (i + 1) * limit < n then n - (i + 1) * limit else 0;
    0 <= lo <= hi <= |v.slots| && Covers(p, v, collection, lo, hi)
  }

  /** Over a client session with any events between requests, page `i` covers the next `limit` slots. */
  lemma SessionPagesCover(states: seq<Index>, between: seq<seq<Event>>, key: TargetKey, limit: nat, i: nat)
    requires IsSession(states, between) && limit >= 1
    requires |states| >= |SlotsAt(states[0].targets, key)|
    requires i < |SessionPages(states, key, limit, None)|
    ensures i < |states|
    ensures NthPage(SessionPages(states, key, limit, None)[i], View(states[i].dids, SlotsAt(states[i].targets, key)),
                    key.collection, limit, |SlotsAt(states[0].targets, key)|, i)
  {
    SessionStable(states, between, key);
    SessionPagesAre(states, key, limit, None);
    PagesCover(LinkViews(states, key), key.collection, limit, None, i);
    PageIs(Pages(LinkViews(states, key), key.collection, limit, None)[i], LinkViews(states, key)[i], key.collection,
           limit, WindowOf(|LinkViews(states, key)[0].slots|, limit, None).end, i);
  }

  lemma PageIs(p: Page<RecordId>, v: View, collection: string, limit: nat, n: nat, i: nat)
    requires PageAt(p, v, collection, limit, n, i)
    ensures NthPage(p, v, collection, limit, n, i)
  {
    DownIs(n, i, limit);
    DownIs(n, i + 1, limit);
  }

  /* ---- totals of a session in which nothing changes ---- */

  lemma {:induction false} CollectedSame(views: seq<View>, at: seq<nat>, v: View, n: nat, collection: string)
    requires n <= |at| && n <= |v.slots| && forall j :: 0 <= j < n ==> at[j] < |views| && views[at[j]] == v
    ensures Collected(views, at, n, collection) == LinkItems(v.dids, v.slots[..n], collection)
  {
    if n > 0 {
      CollectedSame(views, at, v, n - 1, collection);
      assert v.slots[..n][..n - 1] == v.slots[..n - 1];
    } else {
      assert v.slots[..n] == [];
    }
  }

  lemma {:induction false} TotalsSame(views: seq<View>, v: View, collection: string, limit: nat, until: Option<nat>)
    requires forall i :: 0 <= i < |views| ==> views[i] == v
    ensures forall p :: p in Pages(views, collection, limit, until) ==> p.total == LiveCount(v.slots)
    decreases |views|
  {
    if views != [] {
      var p := LinkPage(views[0].dids, views[0].slots, collection, limit, until);
      TotalsSame(views[1..], v, collection, limit, p.next);
    }
  }

  lemma QuietPages(views: seq<View>, v: View, collection: string, limit: nat)
    requires limit >= 1 && views != [] && |views| >= |v.slots| && forall i :: 0 <= i < |views| ==> views[i] == v
    ensures var pages := Pages(views, collection, limit, None);
            && ItemsOf(pages) == LinkItems(v.dids, v.slots, collection)
            && (forall p :: p in pages ==> p.total == LiveCount(v.slots))
            && |ItemsOf(pages)| + |HiddenAt(v.dids, v.slots)| == LiveCount(v.slots)
  {
    var at := PagingVisitsOnce(views, collection, limit, None);
    CollectedSame(views, at, v, |v.slots|, collection);
    assert v.slots[..|v.slots|] == v.slots;
    TotalsSame(views, v, collection, limit, None);
    ItemsAndHidden(v.dids, v.slots, collection);
  }

  /** With nothing changing, the items of all pages and the hidden links together are each page's total. */
  lemma LinkTotal(m: Index, states: seq<Index>, key: TargetKey, limit: nat)
    requires limit >= 1 && states != [] && |states| >= |SlotsAt(m.targets, key)|
    requires forall i :: 0 <= i < |states| ==> states[i] == m
    ensures var pages := SessionPages(states, key, limit, None);
            && (forall p :: p in pages ==>
                  p.total == |ItemsOf(pages)| + |HiddenAt(m.dids, SlotsAt(m.targets, key))|)
            && |ItemsOf(pages)| + |HiddenAt(m.dids, SlotsAt(m.targets, key))| == GetCount(m, key)
  {
    SessionPagesAre(states, key, limit, None);
    QuietPages(LinkViews(states, key), View(m.dids, SlotsAt(m.targets, key)), key.collection, limit);
  }

  /** And so for accounts: the total is the number of linking accounts, of which the pages list the active ones. */
  lemma DidTotal(m: Index, states: seq<Index>, key: TargetKey, limit: nat)
    requires limit >= 1 && states != [] && |states| >= |SlotsAt(m.targets, key)|
    requires forall i :: 0 <= i < |states| ==> states[i] == m
    ensures var pages := SessionDidPages(states, key, limit, None);
            var linking := DidSet(SlotsAt(m.targets, key));
            && (forall p :: p in pages ==> p.total == |linking|)
            && |ItemsOf(pages)| + |Inactive(m.dids, linking)| == |linking| == GetDistinctDidCount(m, key)
  {
    var slots := SlotsAt(m.targets, key);
    var views := FirstViews(LinkViews(states, key));
    QuietPages(views, View(m.dids, FirstOnly(slots)), key.collection, limit);
    FirstOnlyCounts(slots);
    HiddenFirstOnly(m.dids, slots);
    SessionDidPagesAre(states, key, limit, None);
    var pages, linkPages := SessionDidPages(states, key, limit, None), Pages(views, key.collection, limit, None);
    DidItems(pages, linkPages);
    forall p | p in pages ensures p.total == LiveCount(FirstOnly(slots)) {
      var i :| 0 <= i < |pages| && pages[i] == p;
      assert linkPages[i] in linkPages;
    }
  }
}
