/**
What the backlink index holds after a run, read off the events that arrived: the
links of each record, the slots of each target, and the numbers that reads report.
*/
module LinkHistory {
  import opened Options
  import opened LinkIndex

  /* ---- the links of a record ---- */

  /** The links one event gives a record. */
  function Given(e: Event, rec: RecordId): seq<Link> {
    if (e.CreateLinks? || e.UpdateLinks?) && e.rec == rec then e.links else []
  }

  function AllGiven(events: seq<Event>, rec: RecordId): seq<Link> {
    if events == [] then [] else AllGiven(events[..|events| - 1], rec) + Given(events[|events| - 1], rec)
  }

  /** The record or its whole account is deleted. */
  predicate Erases(e: Event, rec: RecordId) {
    (e.DeleteRecord? && e.rec == rec) || (e.DeleteAccount? && e.did == rec.did)
  }

  predicate Replaces(e: Event, rec: RecordId) {
    e.UpdateLinks? && e.rec == rec
  }

  /** The record's links count from event `k` on: it begins afresh there, and nothing later begins it afresh. */
  ghost predicate FreshFrom(events: seq<Event>, rec: RecordId, k: nat) {
    && k <= |events|
    && (k == 0 || Erases(events[k - 1], rec) || (k < |events| && Replaces(events[k], rec)))
    && (forall j :: k <= j < |events| ==> !Erases(events[j], rec))
    && (forall j :: k < j < |events| ==> !Replaces(events[j], rec))
  }

  lemma {:induction false} GivenMore(events: seq<Event>, e: Event, rec: RecordId)
    ensures AllGiven(events + [e], rec) == AllGiven(events, rec) + Given(e, rec)
  {
    assert (events + [e])[..|events|] == events;
  }

  lemma PushForward(m: Index, e: Event, rec: RecordId)
    ensures Forward(Push(m, e), rec) ==
            (if Erases(e, rec) || Replaces(e, rec) then [] else Forward(m, rec)) + Given(e, rec)
  {
    match e
    case CreateLinks(r, links) => AddLinksForward(m, r, links, rec);
    case UpdateLinks(r, links) => AddLinksForward(ClearRecord(m, r), r, links, rec);
    case _ =>
  }

  function NextFresh(e: Event, rec: RecordId, n: nat, k: nat): nat {
    if Erases(e, rec) then n + 1 else if Replaces(e, rec) then n else k
  }

  lemma FreshMore(events: seq<Event>, e: Event, rec: RecordId, k: nat)
    requires FreshFrom(events, rec, k)
    ensures FreshFrom(events + [e], rec, NextFresh(e, rec, |events|, k))
  {
    var more := events + [e];
    assert more[|events|] == e && forall i :: 0 <= i < |events| ==> more[i] == events[i];
  }

  lemma GivenSince(events: seq<Event>, e: Event, rec: RecordId, k: nat)
    requires k <= |events|
    ensures AllGiven((events + [e])[NextFresh(e, rec, |events|, k)..], rec) ==
            (if Erases(e, rec) || Replaces(e, rec) then [] else AllGiven(events[k..], rec)) + Given(e, rec)
  {
    var more := events + [e];
    if Erases(e, rec) {
      assert more[|more|..] == [];
    } else if Replaces(e, rec) {
      GivenMore([], e, rec);
      assert more[|events|..] == [] + [e];
    } else {
      GivenMore(events[k..], e, rec);
      assert more[k..] == events[k..] + [e];
    }
  }

  /** The record's links are what the events from `k` on gave it, and it counts from there. */
  ghost predicate LinksFrom(m: Index, events: seq<Event>, rec: RecordId, k: nat) {
    FreshFrom(events, rec, k) && Forward(m, rec) == AllGiven(events[k..], rec)
  }

  /** Over every run: a record's links are what the events gave it since it was last replaced or deleted. */
  lemma {:induction false} LinksAre(events: seq<Event>, rec: RecordId)
    ensures exists k: nat :: LinksFrom(Run(EMPTY, events), events, rec, k)
  {
    if events == [] {
      assert events[0..] == [];
      assert LinksFrom(Run(EMPTY, events), events, rec, 0);
    } else {
      var n := |events| - 1;
      LinksAre(events[..n], rec);
      var k: nat :| LinksFrom(Run(EMPTY, events[..n]), events[..n], rec, k);
      assert events == events[..n] + [events[n]];
      LinksMore(Run(EMPTY, events[..n]), events[..n], events[n], rec, k);
      assert LinksFrom(Run(EMPTY, events), events, rec, NextFresh(events[n], rec, n, k));
    }
  }

  lemma LinksMore(m: Index, events: seq<Event>, e: Event, rec: RecordId, k: nat)
    requires LinksFrom(m, events, rec, k)
    ensures LinksFrom(Push(m, e), events + [e], rec, NextFresh(e, rec, |events|, k))
  {
    PushForward(m, e, rec);
    FreshMore(events, e, rec, k);
    GivenSince(events, e, rec, k);
  }

  /** A target's live slots are exactly the links of records given since they were last replaced or deleted. */
  lemma SlotsAre(events: seq<Event>, rec: RecordId, l: Link, k: nat)
    requires FreshFrom(events, rec, k)
    ensures multiset(SlotsAt(Run(EMPTY, events).targets, KeyOf(rec, l)))[Some(LinkerOf(rec))] ==
            multiset(AllGiven(events[k..], rec))[l]
  {
    LinksAre(events, rec);
    var k': nat :| LinksFrom(Run(EMPTY, events), events, rec, k');
    FreshOnce(events, rec, k, k');
    RunKeepsInv(events);
    assert Balanced(Run(EMPTY, events), rec, l);
  }

  lemma FreshOnce(events: seq<Event>, rec: RecordId, k: nat, k': nat)
    requires FreshFrom(events, rec, k) && FreshFrom(events, rec, k')
    ensures k == k'
  {
  }

  /* ---- the slots of a target ---- */

  /** How many links to a target one event brings. */
  function Brought(e: Event, key: TargetKey): nat {
    if e.CreateLinks? || e.UpdateLinks? then Occurrences(e.rec, e.links, key) else 0
  }

  function AllBrought(events: seq<Event>, key: TargetKey): nat {
    if events == [] then 0 else AllBrought(events[..|events| - 1], key) + Brought(events[|events| - 1], key)
  }

  lemma PushSlots(m: Index, e: Event, key: TargetKey)
    ensures |SlotsAt(Push(m, e).targets, key)| == |SlotsAt(m.targets, key)| + Brought(e, key)
    ensures key in Push(m, e).targets <==> key in m.targets || Brought(e, key) > 0
  {
    match e
    case CreateLinks(rec, links) =>
      AddLinksExact(m, rec, links, key);
      AddLinksKeys(m, rec, links);
      OccursIff(rec, links, key);
    case UpdateLinks(rec, links) =>
      AddLinksExact(ClearRecord(m, rec), rec, links, key);
      AddLinksKeys(ClearRecord(m, rec), rec, links);
      OccursIff(rec, links, key);
    case _ =>
  }

  lemma {:induction false} OccursIff(rec: RecordId, links: seq<Link>, key: TargetKey)
    ensures Occurrences(rec, links, key) > 0 <==> key in LinkKeys(rec, links)
  {
    if links != [] {
      var n := |links| - 1;
      OccursIff(rec, links[..n], key);
      assert LinkKeys(rec, links) == LinkKeys(rec, links[..n]) + {KeyOf(rec, links[n])};
    }
  }

  /** A target has one slot, live or not, for every link to it that ever arrived. */
  lemma {:induction false} SlotsEver(events: seq<Event>, key: TargetKey)
    ensures |SlotsAt(Run(EMPTY, events).targets, key)| == AllBrought(events, key)
    ensures key in Run(EMPTY, events).targets <==> AllBrought(events, key) > 0
  {
    if events != [] {
      var n := |events| - 1;
      SlotsEver(events[..n], key);
      PushSlots(Run(EMPTY, events[..n]), events[n], key);
    }
  }
}
