/**
The backlink index of constellation as a value: what each event means for the
forward links, the reverse slots and the known accounts.

A reverse list is append-only: a removed link leaves a `None` slot behind, so
positions (and therefore paging cursors) never move.
*/
module LinkIndex {
  import opened Options

  type Did = string

  datatype RecordId = RecordId(did: Did, collection: string, rkey: string)
  datatype Link = Link(path: string, target: string)
  datatype TargetKey = TargetKey(target: string, collection: string, path: string)
  datatype Linker = Linker(did: Did, rkey: string)
  type Slot = Option<Linker>

  datatype Event =
    | CreateLinks(rec: RecordId, links: seq<Link>)
    | UpdateLinks(rec: RecordId, links: seq<Link>)
    | DeleteRecord(rec: RecordId)
    | ActivateAccount(did: Did)
    | DeactivateAccount(did: Did)
    | DeleteAccount(did: Did)

  /** `dids`: account -> active; `targets`: reverse slots; `links`: forward links. */
  datatype Index = Index(dids: map<Did, bool>, targets: map<TargetKey, seq<Slot>>, links: map<RecordId, seq<Link>>)

  const EMPTY := Index(map[], map[], map[])

  function KeyOf(rec: RecordId, l: Link): TargetKey {
    TargetKey(l.target, rec.collection, l.path)
  }

  function LinkOf(key: TargetKey): Link {
    Link(key.path, key.target)
  }

  function LinkerOf(rec: RecordId): Linker {
    Linker(rec.did, rec.rkey)
  }

  function Forward(m: Index, rec: RecordId): seq<Link> {
    if rec in m.links then m.links[rec] else []
  }

  function SlotsAt(targets: map<TargetKey, seq<Slot>>, key: TargetKey): seq<Slot> {
    if key in targets then targets[key] else []
  }

  /* ---- what the events mean ---- */

  function AddLink(m: Index, rec: RecordId, l: Link): Index {
    var key := KeyOf(rec, l);
    Index(
      if rec.did in m.dids then m.dids else m.dids[rec.did := true],
      m.targets[key := SlotsAt(m.targets, key) + [Some(LinkerOf(rec))]],
      m.links[rec := Forward(m, rec) + [l]])
  }

  function AddLinks(m: Index, rec: RecordId, links: seq<Link>): Index {
    if links == [] then m
    else AddLink(AddLinks(m, rec, links[..|links| - 1]), rec, links[|links| - 1])
  }

  lemma AddOne(m: Index, rec: RecordId, l: Link)
    ensures AddLinks(m, rec, [l]) == AddLink(m, rec, l)
  {
    assert [l][..0] == [];
    assert AddLinks(m, rec, []) == m;
  }

  /** Tombstone every slot of one linker. */
  function ClearLinker(slots: seq<Slot>, x: Linker): (r: seq<Slot>)
    ensures |r| == |slots|
  {
    seq(|slots|, i requires 0 <= i < |slots| => if slots[i] == Some(x) then None else slots[i])
  }

  /** Tombstone every slot of one account. */
  function ClearDid(slots: seq<Slot>, did: Did): (r: seq<Slot>)
    ensures |r| == |slots|
  {
    seq(|slots|, i requires 0 <= i < |slots| =>
      if slots[i].Some? && slots[i].value.did == did then None else slots[i])
  }

  function ClearRecordSlots(targets: map<TargetKey, seq<Slot>>, rec: RecordId): map<TargetKey, seq<Slot>> {
    map key | key in targets ::
      if key.collection == rec.collection then ClearLinker(targets[key], LinkerOf(rec)) else targets[key]
  }

  function ClearRecord(m: Index, rec: RecordId): Index {
    Index(m.dids, ClearRecordSlots(m.targets, rec), m.links - {rec})
  }

  function ClearAccount(m: Index, did: Did): Index {
    Index(
      m.dids - {did},
      map key | key in m.targets :: ClearDid(m.targets[key], did),
      map rec | rec in m.links && rec.did != did :: m.links[rec])
  }

  function SetAccount(m: Index, did: Did, active: bool): Index {
    if did in m.dids then m.(dids := m.dids[did := active]) else m
  }

  function Push(m: Index, e: Event): Index {
    match e
    case CreateLinks(rec, links) => AddLinks(m, rec, links)
    case UpdateLinks(rec, links) => AddLinks(ClearRecord(m, rec), rec, links)
    case DeleteRecord(rec) => ClearRecord(m, rec)
    case ActivateAccount(did) => SetAccount(m, did, true)
    case DeactivateAccount(did) => SetAccount(m, did, false)
    case DeleteAccount(did) => ClearAccount(m, did)
  }

  function Run(m: Index, events: seq<Event>): Index {
    if events == [] then m else Push(Run(m, events[..|events| - 1]), events[|events| - 1])
  }

  /* ---- what adding links changes ---- */

  ghost function LinkKeys(rec: RecordId, links: seq<Link>): set<TargetKey> {
    set i | 0 <= i < |links| :: KeyOf(rec, links[i])
  }

  lemma {:induction false} AddLinksKeys(m: Index, rec: RecordId, links: seq<Link>)
    ensures AddLinks(m, rec, links).targets.Keys == m.targets.Keys + LinkKeys(rec, links)
    ensures AddLinks(m, rec, links).dids == if links == [] || rec.did in m.dids then m.dids else m.dids[rec.did := true]
  {
    if links != [] {
      var n := |links| - 1;
      AddLinksKeys(m, rec, links[..n]);
      assert LinkKeys(rec, links) == LinkKeys(rec, links[..n]) + {KeyOf(rec, links[n])};
    }
  }

  lemma {:induction false} AddLinksForward(m: Index, rec: RecordId, links: seq<Link>, r: RecordId)
    ensures Forward(AddLinks(m, rec, links), r) == if r == rec then Forward(m, rec) + links else Forward(m, r)
  {
    if links != [] {
      var n := |links| - 1;
      AddLinksForward(m, rec, links[..n], r);
      assert links == links[..n] + [links[n]];
      assert Forward(m, rec) + links[..n] + [links[n]] == Forward(m, rec) + links;
    }
  }

  lemma {:induction false} AddLinksAppends(m: Index, rec: RecordId, links: seq<Link>, key: TargetKey)
    ensures SlotsAt(m.targets, key) <= SlotsAt(AddLinks(m, rec, links).targets, key)
  {
    if links != [] {
      AddLinksAppends(m, rec, links[..|links| - 1], key);
    }
  }

  function Copies<T>(x: T, k: nat): (r: seq<T>)
    ensures |r| == k
  {
    if k == 0 then [] else Copies(x, k - 1) + [x]
  }

  /** How many of the links name a reverse list. */
  function Occurrences(rec: RecordId, links: seq<Link>, key: TargetKey): nat {
    if links == [] then 0
    else Occurrences(rec, links[..|links| - 1], key) + if KeyOf(rec, links[|links| - 1]) == key then 1 else 0
  }

  lemma {:induction false} AddLinksExact(m: Index, rec: RecordId, links: seq<Link>, key: TargetKey)
    ensures SlotsAt(AddLinks(m, rec, links).targets, key) ==
            SlotsAt(m.targets, key) + Copies(Some(LinkerOf(rec)), Occurrences(rec, links, key))
  {
    if links != [] {
      AddLinksExact(m, rec, links[..|links| - 1], key);
    }
  }

  /* ---- the index invariant ---- */

  /** As many live reverse slots as forward links, for one record and link. */
  ghost predicate Balanced(m: Index, rec: RecordId, l: Link) {
    multiset(Forward(m, rec))[l] == multiset(SlotsAt(m.targets, KeyOf(rec, l)))[Some(LinkerOf(rec))]
  }

  ghost predicate KnownDids(m: Index) {
    forall key, i ::
      key in m.targets && 0 <= i < |m.targets[key]| && m.targets[key][i].Some?
      ==> m.targets[key][i].value.did in m.dids
  }

  ghost predicate Inv(m: Index) {
    && (forall rec, l :: Balanced(m, rec, l))
    && KnownDids(m)
  }

  lemma AddLinkBalances(m: Index, rec: RecordId, l: Link, rec': RecordId, l': Link)
    requires Balanced(m, rec', l')
    ensures Balanced(AddLink(m, rec, l), rec', l')
  {
    if KeyOf(rec', l') == KeyOf(rec, l) && LinkerOf(rec') == LinkerOf(rec) {
      assert rec' == rec && l' == l;
    }
  }

  lemma AddLinkKnown(m: Index, rec: RecordId, l: Link)
    requires KnownDids(m)
    ensures KnownDids(AddLink(m, rec, l))
  {
    var m' := AddLink(m, rec, l);
    forall key, i | key in m'.targets && 0 <= i < |m'.targets[key]| && m'.targets[key][i].Some?
      ensures m'.targets[key][i].value.did in m'.dids
    {
      if i < |SlotsAt(m.targets, key)| {
        assert m'.targets[key][i] == m.targets[key][i];
      }
    }
  }

  lemma AddLinkKeepsInv(m: Index, rec: RecordId, l: Link)
    requires Inv(m)
    ensures Inv(AddLink(m, rec, l))
  {
    forall rec', l' ensures Balanced(AddLink(m, rec, l), rec', l') {
      assert Balanced(m, rec', l');
      AddLinkBalances(m, rec, l, rec', l');
    }
    AddLinkKnown(m, rec, l);
  }

  lemma {:induction false} AddLinksKeepsInv(m: Index, rec: RecordId, links: seq<Link>)
    requires Inv(m)
    ensures Inv(AddLinks(m, rec, links))
  {
    if links != [] {
      AddLinksKeepsInv(m, rec, links[..|links| - 1]);
      AddLinkKeepsInv(AddLinks(m, rec, links[..|links| - 1]), rec, links[|links| - 1]);
    }
  }

  lemma {:induction false} ClearLinkerCounts(slots: seq<Slot>, x: Linker, y: Linker)
    ensures multiset(ClearLinker(slots, x))[Some(y)] == if x == y then 0 else multiset(slots)[Some(y)]
  {
    if slots != [] {
      var n := |slots| - 1;
      assert slots == slots[..n] + [slots[n]];
      assert ClearLinker(slots, x) == ClearLinker(slots[..n], x) + [ClearLinker(slots, x)[n]];
      ClearLinkerCounts(slots[..n], x, y);
    }
  }

  lemma {:induction false} ClearDidCounts(slots: seq<Slot>, did: Did, y: Linker)
    ensures multiset(ClearDid(slots, did))[Some(y)] == if y.did == did then 0 else multiset(slots)[Some(y)]
  {
    if slots != [] {
      var n := |slots| - 1;
      assert slots == slots[..n] + [slots[n]];
      assert ClearDid(slots, did) == ClearDid(slots[..n], did) + [ClearDid(slots, did)[n]];
      ClearDidCounts(slots[..n], did, y);
    }
  }

  lemma ClearRecordKeepsInv(m: Index, rec: RecordId)
    requires Inv(m)
    ensures Inv(ClearRecord(m, rec))
  {
    var m' := ClearRecord(m, rec);
    forall rec', l' ensures Balanced(m', rec', l') {
      assert Balanced(m, rec', l');
      var key := KeyOf(rec', l');
      if key in m.targets {
        ClearLinkerCounts(m.targets[key], LinkerOf(rec), LinkerOf(rec'));
      }
    }
  }

  lemma ClearAccountKeepsInv(m: Index, did: Did)
    requires Inv(m)
    ensures Inv(ClearAccount(m, did))
  {
    var m' := ClearAccount(m, did);
    forall rec', l' ensures Balanced(m', rec', l') {
      assert Balanced(m, rec', l');
      var key := KeyOf(rec', l');
      if key in m.targets {
        ClearDidCounts(m.targets[key], did, LinkerOf(rec'));
      }
    }
  }

  lemma PushKeepsInv(m: Index, e: Event)
    requires Inv(m)
    ensures Inv(Push(m, e))
  {
    match e
    case CreateLinks(rec, links) => AddLinksKeepsInv(m, rec, links);
    case UpdateLinks(rec, links) =>
      ClearRecordKeepsInv(m, rec);
      AddLinksKeepsInv(ClearRecord(m, rec), rec, links);
    case DeleteRecord(rec) => ClearRecordKeepsInv(m, rec);
    case ActivateAccount(did) => SetAccountKeepsInv(m, did, true);
    case DeactivateAccount(did) => SetAccountKeepsInv(m, did, false);
    case DeleteAccount(did) => ClearAccountKeepsInv(m, did);
  }

  lemma SetAccountKeepsInv(m: Index, did: Did, active: bool)
    requires Inv(m)
    ensures Inv(SetAccount(m, did, active))
  {
    var m' := SetAccount(m, did, active);
    forall rec', l' ensures Balanced(m', rec', l') {
      assert Balanced(m, rec', l');
    }
  }

  /** Every run from the empty store, with no condition on the events, keeps the index invariant. */
  lemma {:induction false} RunKeepsInv(events: seq<Event>)
    ensures Inv(Run(EMPTY, events))
  {
    if events != [] {
      RunKeepsInv(events[..|events| - 1]);
      PushKeepsInv(Run(EMPTY, events[..|events| - 1]), events[|events| - 1]);
    }
  }
}
