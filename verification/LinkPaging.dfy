/**
Paging through a backlink list while events keep arriving: every slot that was
there at the first page is looked at exactly once.
*/
module LinkPaging {
  import opened Options
  import opened LinkIndex
  import opened LinkReads
  import opened Seqs

  /** What one page request sees: the account states and the slots of the list. */
  datatype View = View(dids: map<Did, bool>, slots: seq<Slot>)

  /** Slots are only appended or tombstoned. */
  ghost predicate Extends(a: seq<Slot>, b: seq<Slot>) {
    && |a| <= |b|
    && forall i :: 0 <= i < |a| ==> b[i] == a[i] || b[i] == None
  }

  ghost predicate Stable(views: seq<View>) {
    forall i :: 0 <= i < |views| - 1 ==> Extends(views[i].slots, views[i + 1].slots)
  }

  /** All that the cursors need: lists never get shorter. */
  ghost predicate Growing(views: seq<View>) {
    forall i :: 0 <= i < |views| - 1 ==> |views[i].slots| <= |views[i + 1].slots|
  }

  /** Follow `next` until it is absent, one view per request. */
  function Pages(views: seq<View>, collection: string, limit: nat, until: Option<nat>): seq<Page<RecordId>> {
    if views == [] then []
    else
      var p := LinkPage(views[0].dids, views[0].slots, collection, limit, until);
      if p.next.None? then [p] else [p] + Pages(views[1..], collection, limit, p.next)
  }

  function ItemsOf<T>(pages: seq<Page<T>>): seq<T> {
    if pages == [] then [] else pages[0].items + ItemsOf(pages[1..])
  }

  function ItemAt(v: View, j: nat, collection: string): seq<RecordId> {
    if j < |v.slots| && v.slots[j].Some? && Active(v.dids, v.slots[j].value.did)
    then [RecordId(v.slots[j].value.did, collection, v.slots[j].value.rkey)] else []
  }

  /** Slots n-1 down to 0, slot j read in view `at[j]`. */
  function Collected(views: seq<View>, at: seq<nat>, n: nat, collection: string): seq<RecordId>
    requires n <= |at| && forall j :: 0 <= j < n ==> at[j] < |views|
  {
    if n == 0 then [] else ItemAt(views[at[n - 1]], n - 1, collection) + Collected(views, at, n - 1, collection)
  }

  lemma {:induction false} CollectWindow(views: seq<View>, at: seq<nat>, b: nat, e: nat, collection: string)
    requires b <= e <= |at| && forall j :: 0 <= j < e ==> at[j] < |views|
    requires forall j :: b <= j < e ==> at[j] == 0
    requires views != [] && e <= |views[0].slots|
    ensures Collected(views, at, e, collection) ==
              LinkItems(views[0].dids, views[0].slots[b..e], collection) + Collected(views, at, b, collection)
  {
    if b < e {
      CollectWindow(views, at, b, e - 1, collection);
      CollectOne(views, at, b, e, collection, LinkItems(views[0].dids, views[0].slots[b..e - 1], collection),
                 Collected(views, at, b, collection));
    } else {
      assert views[0].slots[b..e] == [];
      EmptyFirst(Collected(views, at, b, collection));
    }
  }

  lemma CollectOne(views: seq<View>, at: seq<nat>, b: nat, e: nat, collection: string, window: seq<RecordId>,
                   base: seq<RecordId>)
    requires b < e <= |at| && views != [] && e <= |views[0].slots| && at[e - 1] == 0
    requires forall j :: 0 <= j < e ==> at[j] < |views|
    requires window == LinkItems(views[0].dids, views[0].slots[b..e - 1], collection)
    requires Collected(views, at, e - 1, collection) == window + base
    ensures Collected(views, at, e, collection) == LinkItems(views[0].dids, views[0].slots[b..e], collection) + base
  {
    WindowLast(views[0], b, e, collection);
    Regroup(ItemAt(views[0], e - 1, collection), window, base, Collected(views, at, e, collection));
  }

  lemma WindowLast(v: View, b: nat, e: nat, collection: string)
    requires b < e <= |v.slots|
    ensures LinkItems(v.dids, v.slots[b..e], collection) ==
              ItemAt(v, e - 1, collection) + LinkItems(v.dids, v.slots[b..e - 1], collection)
  {
    var w := v.slots[b..e];
    assert w[..|w| - 1] == v.slots[b..e - 1];
  }

  lemma {:induction false} CollectShift(views: seq<View>, at: seq<nat>, at': seq<nat>, n: nat, collection: string)
    requires views != [] && n <= |at| && n <= |at'|
    requires forall j :: 0 <= j < n ==> at[j] < |views| - 1 && at'[j] == at[j] + 1
    ensures Collected(views, at', n, collection) == Collected(views[1..], at, n, collection)
  {
    if n > 0 {
      CollectShift(views, at, at', n - 1, collection);
    }
  }

  lemma ItemsOfMore<T>(p: Page<T>, tail: seq<Page<T>>)
    ensures ItemsOf([p] + tail) == p.items + ItemsOf(tail)
  {
    assert ([p] + tail)[1..] == tail;
  }

  /** Prepend a page covering [w.begin, w.end) to pages covering everything below. */
  lemma PrependPage(views: seq<View>, collection: string, w: Window, below: seq<nat>, tail: seq<RecordId>)
    returns (at: seq<nat>)
    requires views != [] && w.begin <= w.end <= |views[0].slots| && |below| == w.begin
    requires forall j :: 0 <= j < w.begin ==> below[j] < |views| - 1
    requires tail == Collected(views[1..], below, w.begin, collection)
    ensures |at| == w.end && (forall j :: 0 <= j < w.end ==> at[j] < |views|)
    ensures LinkItems(views[0].dids, views[0].slots[w.begin..w.end], collection) + tail ==
              Collected(views, at, w.end, collection)
  {
    at := seq(w.end, j requires 0 <= j < w.end => if j < w.begin then below[j] + 1 else 0);
    CollectShift(views, below, at, w.begin, collection);
    CollectWindow(views, at, w.begin, w.end, collection);
  }

  /** The next page covers what ends where this one began, however much the list has grown. */
  lemma NextWindow(views: seq<View>, limit: nat, until: Option<nat>)
    requires views != [] && limit >= 1 && Growing(views)
    requires var w := WindowOf(|views[0].slots|, limit, until); |views| >= w.end && w.begin > 0
    ensures |views| > 1 && Growing(views[1..])
    ensures var w := WindowOf(|views[0].slots|, limit, until);
            && WindowOf(|views[1].slots|, limit, NextOf(w)).end == w.begin
            && |views| - 1 >= w.begin
  {
    assert |views[0].slots| <= |views[1].slots|;
  }

  /** The pages end, and their items are the slots below `n`, slot j as it was in view `at[j]`. */
  ghost predicate Visits(views: seq<View>, pages: seq<Page<RecordId>>, at: seq<nat>, n: nat, collection: string) {
    && |at| == n && (forall j :: 0 <= j < n ==> at[j] < |views|)
    && 0 < |pages| <= (if n == 0 then 1 else n)
    && pages[|pages| - 1].next == None
    && ItemsOf(pages) == Collected(views, at, n, collection)
  }

  /**
  The pages end, and together they are the slots below the cursor, newest first,
  each read exactly once, in the view of the page that covered it.
  */
  lemma {:induction false} PagingVisitsOnce(views: seq<View>, collection: string, limit: nat, until: Option<nat>)
    returns (at: seq<nat>)
    requires views != [] && limit >= 1 && Growing(views)
    requires |views| >= WindowOf(|views[0].slots|, limit, until).end
    ensures Visits(views, Pages(views, collection, limit, until), at, WindowOf(|views[0].slots|, limit, until).end,
                   collection)
    decreases |views|
  {
    var w := WindowOf(|views[0].slots|, limit, until);
    if w.begin == 0 {
      at := OnlyPage(views, collection, limit, until);
    } else {
      NextWindow(views, limit, until);
      var below := PagingVisitsOnce(views[1..], collection, limit, NextOf(w));
      at := PageAndMore(views, collection, limit, until, below);
    }
  }

  lemma OnlyPage(views: seq<View>, collection: string, limit: nat, until: Option<nat>) returns (at: seq<nat>)
    requires views != [] && WindowOf(|views[0].slots|, limit, until).begin == 0
    ensures Visits(views, Pages(views, collection, limit, until), at, WindowOf(|views[0].slots|, limit, until).end,
                   collection)
  {
    var w := WindowOf(|views[0].slots|, limit, until);
    at := PrependPage(views, collection, w, [], []);
    ItemsOfMore(LinkPage(views[0].dids, views[0].slots, collection, limit, until), []);
  }

  lemma PageAndMore(views: seq<View>, collection: string, limit: nat, until: Option<nat>, below: seq<nat>)
    returns (at: seq<nat>)
    requires |views| > 1 && limit >= 1 && WindowOf(|views[0].slots|, limit, until).begin > 0
    requires var w := WindowOf(|views[0].slots|, limit, until);
             Visits(views[1..], Pages(views[1..], collection, limit, NextOf(w)), below, w.begin, collection)
    ensures Visits(views, Pages(views, collection, limit, until), at, WindowOf(|views[0].slots|, limit, until).end,
                   collection)
  {
    var w := WindowOf(|views[0].slots|, limit, until);
    var tail := Pages(views[1..], collection, limit, NextOf(w));
    at := PrependPage(views, collection, w, below, ItemsOf(tail));
    ItemsOfMore(LinkPage(views[0].dids, views[0].slots, collection, limit, until), tail);
  }

  /** A slot that is live and active in every view is returned, whatever else happens meanwhile. */
  lemma {:induction false} SteadyLinkReturned(views: seq<View>, at: seq<nat>, n: nat, j: nat, x: Linker,
                                              collection: string)
    requires j < n <= |at| && forall k :: 0 <= k < n ==> at[k] < |views|
    requires forall i :: 0 <= i < |views| ==>
               j < |views[i].slots| && views[i].slots[j] == Some(x) && Active(views[i].dids, x.did)
    ensures RecordId(x.did, collection, x.rkey) in Collected(views, at, n, collection)
  {
    if j < n - 1 {
      SteadyLinkReturned(views, at, n - 1, j, x, collection);
    }
  }

  /* ---- every event keeps a list stable ---- */

  lemma PushExtends(m: Index, e: Event, key: TargetKey)
    ensures Extends(SlotsAt(m.targets, key), SlotsAt(Push(m, e).targets, key))
  {
    match e
    case CreateLinks(rec, links) => AddLinksAppends(m, rec, links, key);
    case UpdateLinks(rec, links) => AddLinksAppends(ClearRecord(m, rec), rec, links, key);
    case _ =>
  }

  lemma {:induction false} RunExtends(m: Index, events: seq<Event>, key: TargetKey)
    ensures Extends(SlotsAt(m.targets, key), SlotsAt(Run(m, events).targets, key))
  {
    if events != [] {
      RunExtends(m, events[..|events| - 1], key);
      PushExtends(Run(m, events[..|events| - 1]), events[|events| - 1], key);
    }
  }

  /** A client's session: any events between one page request and the next. */
  ghost predicate IsSession(states: seq<Index>, between: seq<seq<Event>>) {
    && |states| == |between| + 1
    && forall i :: 0 <= i < |between| ==> states[i + 1] == Run(states[i], between[i])
  }

  function LinkViews(states: seq<Index>, key: TargetKey): (v: seq<View>)
    ensures |v| == |states|
  {
    seq(|states|, i requires 0 <= i < |states| => View(states[i].dids, SlotsAt(states[i].targets, key)))
  }

  /** The pages a client gets from the store in that session. */
  function SessionPages(states: seq<Index>, key: TargetKey, limit: nat, until: Option<nat>): seq<Page<RecordId>> {
    if states == [] then []
    else
      var p := GetLinks(states[0], key, limit, until);
      if p.next.None? then [p] else [p] + SessionPages(states[1..], key, limit, p.next)
  }

  lemma {:induction false} SessionPagesAre(states: seq<Index>, key: TargetKey, limit: nat, until: Option<nat>)
    ensures SessionPages(states, key, limit, until) == Pages(LinkViews(states, key), key.collection, limit, until)
    decreases |states|
  {
    if states != [] {
      var p := GetLinks(states[0], key, limit, until);
      assert LinkViews(states, key)[1..] == LinkViews(states[1..], key);
      SessionPagesAre(states[1..], key, limit, p.next);
    }
  }

  lemma SessionStable(states: seq<Index>, between: seq<seq<Event>>, key: TargetKey)
    requires IsSession(states, between)
    ensures Stable(LinkViews(states, key)) && Growing(LinkViews(states, key))
  {
    var views := LinkViews(states, key);
    forall i | 0 <= i < |views| - 1 ensures Extends(views[i].slots, views[i + 1].slots) {
      RunExtends(states[i], between[i], key);
    }
  }

  /** Slot `j` holds one link, of an active account, at every request. */
  ghost predicate Steady(states: seq<Index>, key: TargetKey, j: nat, x: Linker) {
    forall i :: 0 <= i < |states| ==>
      j < |SlotsAt(states[i].targets, key)| && SlotsAt(states[i].targets, key)[j] == Some(x)
      && Active(states[i].dids, x.did)
  }

  /**
  Stable paging of `get_links`: whatever events arrive between requests, the
  pages end, read each slot present at the first request exactly once, and
  return every link that is alive and active throughout.
  */
  lemma StablePaging(states: seq<Index>, between: seq<seq<Event>>, key: TargetKey, limit: nat) returns (at: seq<nat>)
    requires IsSession(states, between) && limit >= 1
    requires |states| >= |SlotsAt(states[0].targets, key)|
    ensures var n := |SlotsAt(states[0].targets, key)|;
            var pages := SessionPages(states, key, limit, None);
            && |at| == n && (forall j :: 0 <= j < n ==> at[j] < |states|)
            && 0 < |pages| <= (if n == 0 then 1 else n)
            && pages[|pages| - 1].next == None
            && ItemsOf(pages) == Collected(LinkViews(states, key), at, n, key.collection)
    ensures forall j: nat, x :: Steady(states, key, j, x) ==>
              RecordId(x.did, key.collection, x.rkey) in ItemsOf(SessionPages(states, key, limit, None))
  {
    var views, n := LinkViews(states, key), |SlotsAt(states[0].targets, key)|;
    SessionStable(states, between, key);
    at := PagingVisitsOnce(views, key.collection, limit, None);
    SessionPagesAre(states, key, limit, None);
    forall j: nat, x | Steady(states, key, j, x)
      ensures RecordId(x.did, key.collection, x.rkey) in Collected(views, at, n, key.collection)
    {
      SteadyLinkReturned(views, at, n, j, x, key.collection);
    }
  }
}
