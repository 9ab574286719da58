/**
Paging through the RocksDB store's lists while events arrive, agreeable or not:
the same guarantees as for the plain index.
*/
module RocksPaging {
  import opened Options
  import opened LinkIndex
  import opened RocksIndex
  import opened RocksIds
  import opened RocksAdding
  import opened LinkReads
  import opened LinkPaging
  import opened RocksAgreement
  import opened RocksSurvivors

  /** Slots are only appended or tombstoned. */
  ghost predicate IdExtends(a: seq<IdSlot>, b: seq<IdSlot>) {
    && |a| <= |b|
    && forall i :: 0 <= i < |a| ==> b[i] == a[i] || b[i] == TOMBSTONE
  }

  lemma LostExtends(a: seq<IdSlot>, b: seq<IdSlot>, c: seq<IdSlot>, lost: set<IdSlot>)
    requires OnlyLost(a, b, lost) && b <= c
    ensures IdExtends(a, c)
  {
  }

  lemma IdExtendsTrans(a: seq<IdSlot>, b: seq<IdSlot>, c: seq<IdSlot>)
    requires IdExtends(a, b) && IdExtends(b, c)
    ensures IdExtends(a, c)
  {
  }

  /* ---- every input keeps a list stable ---- */

  lemma StepOk(r: Rocks, i: Input)
    requires Wf(r) && CanTake(r, i)
    ensures Wf(StepRocks(r, i)) && Grows(r.db, StepRocks(r, i).db)
  {
    match i
    case Deliver(e, scan) => PushOk(r, e, scan);
    case Reopen => TakeOk(r, Restart);
    case Crash(did, scan, chunks) => TakeOk(r, CrashDeleting(did, scan, chunks));
  }

  lemma AddExtends(read: Db, pend: Rocks, rec: RecordId, links: seq<Link>, tid: nat)
    ensures LinkersAt(pend.db, tid) <= LinkersAt(AddRecord(read, pend, rec, links).db, tid)
  {
    LinkAllAppends(read, RegisterDid(read, pend, rec.did), rec, DidIdFor(read, pend, rec.did), links, tid);
  }

  lemma RemoveExtends(db: Db, rec: RecordId, tid: nat)
    ensures exists lost :: OnlyLost(LinkersAt(db, tid), LinkersAt(RemoveRecord(db, rec), tid), lost)
  {
    if rec.did in db.dids {
      RemovalLoses(db, rec, tid);
    } else {
      assert OnlyLost(LinkersAt(db, tid), LinkersAt(RemoveRecord(db, rec), tid), {});
    }
  }

  lemma PushExtendsIds(r: Rocks, e: Event, scan: seq<FwdEntry>, tid: nat)
    ensures IdExtends(LinkersAt(r.db, tid), LinkersAt(PushRocks(r, e, scan).db, tid))
  {
    match e
    case CreateLinks(rec, links) => AddExtends(r.db, r, rec, links, tid);
    case UpdateLinks(rec, links) =>
      var pend := r.(db := RemoveRecord(r.db, rec));
      RemoveExtends(r.db, rec, tid);
      var lost :| OnlyLost(LinkersAt(r.db, tid), LinkersAt(pend.db, tid), lost);
      AddExtends(r.db, pend, rec, links, tid);
      LostExtends(LinkersAt(r.db, tid), LinkersAt(pend.db, tid), LinkersAt(PushRocks(r, e, scan).db, tid), lost);
    case DeleteRecord(rec) => RemoveExtends(r.db, rec, tid);
    case DeleteAccount(did) => DropChunksLoses(r.db, scan, tid);
    case _ =>
  }

  lemma StepExtends(r: Rocks, i: Input, tid: nat)
    ensures IdExtends(LinkersAt(r.db, tid), LinkersAt(StepRocks(r, i).db, tid))
  {
    match i
    case Deliver(e, scan) => PushExtendsIds(r, e, scan, tid);
    case Reopen =>
    case Crash(did, scan, chunks) => DropChunksLoses(r.db, CommittedChunks(scan, chunks), tid);
  }

  ghost predicate CanRun(r: Rocks, inputs: seq<Input>)
    decreases |inputs|
  {
    inputs == [] || (CanTake(r, inputs[0]) && CanRun(StepRocks(r, inputs[0]), inputs[1..]))
  }

  /** A known target keeps its id, and its list is only appended to or tombstoned. */
  lemma {:induction false} RunExtendsIds(r: Rocks, inputs: seq<Input>, key: TargetKey)
    requires Wf(r) && CanRun(r, inputs) && key in r.db.targetIds
    ensures var db := RunRocks(r, inputs).db;
            && Wf(RunRocks(r, inputs)) && key in db.targetIds && db.targetIds[key] == r.db.targetIds[key]
            && IdExtends(LinkersAt(r.db, r.db.targetIds[key]), LinkersAt(db, r.db.targetIds[key]))
    decreases |inputs|
  {
    if inputs != [] {
      var next := StepRocks(r, inputs[0]);
      StepOk(r, inputs[0]);
      StepExtends(r, inputs[0], r.db.targetIds[key]);
      RunExtendsIds(next, inputs[1..], key);
      IdExtendsTrans(LinkersAt(r.db, r.db.targetIds[key]), LinkersAt(next.db, r.db.targetIds[key]),
                     LinkersAt(RunRocks(next, inputs[1..]).db, r.db.targetIds[key]));
    }
  }

  /* ---- pages of ids as pages of slots ---- */

  function ActiveDids(db: Db): map<Did, bool> {
    map d | d in db.dids :: db.dids[d].active
  }

  /** What a reader makes of an id slot, tombstones and unknown ids being nothing. */
  function Decoded(db: Db, s: IdSlot): Slot {
    if s.did == 0 || s.did !in db.origs then None else Some(Linker(db.origs[s.did], s.rkey))
  }

  function DecodedAll(db: Db, ids: seq<IdSlot>): (r: seq<Slot>)
    ensures |r| == |ids| && forall i :: 0 <= i < |r| ==> r[i] == Decoded(db, ids[i])
  {
    seq(|ids|, i requires 0 <= i < |ids| => Decoded(db, ids[i]))
  }

  lemma {:induction false} DecodedItems(db: Db, ids: seq<IdSlot>, collection: string)
    ensures IdItems(db, ids, collection) == LinkItems(ActiveDids(db), DecodedAll(db, ids), collection)
  {
    if ids != [] {
      var n := |ids| - 1;
      DecodedItems(db, ids[..n], collection);
      assert DecodedAll(db, ids)[..n] == DecodedAll(db, ids[..n]);
    }
  }

  function IdsOf(db: Db, key: TargetKey): seq<IdSlot> {
    if key in db.targetIds then LinkersAt(db, db.targetIds[key]) else []
  }

  function RocksView(db: Db, key: TargetKey): View {
    View(ActiveDids(db), DecodedAll(db, IdsOf(db, key)))
  }

  function RocksViews(states: seq<Rocks>, key: TargetKey): (v: seq<View>)
    ensures |v| == |states| && forall i :: 0 <= i < |v| ==> v[i] == RocksView(states[i].db, key)
  {
    seq(|states|, i requires 0 <= i < |states| => RocksView(states[i].db, key))
  }

  /** A page of the store has the items and the cursor of a page of what its slots decode to. */
  lemma PageDecodes(db: Db, key: TargetKey, limit: nat, until: Option<nat>)
    ensures var p, v := RocksLinks(db, key, limit, until), RocksView(db, key);
            var q := LinkPage(v.dids, v.slots, key.collection, limit, until);
            p.items == q.items && p.next == q.next
  {
    var ids := IdsOf(db, key);
    var w := WindowOf(|ids|, limit, until);
    DecodedItems(db, ids[w.begin..w.end], key.collection);
    assert DecodedAll(db, ids)[w.begin..w.end] == DecodedAll(db, ids[w.begin..w.end]);
  }

  /* ---- sessions ---- */

  /** A client's session: any inputs between one page request and the next. */
  ghost predicate IsRocksSession(states: seq<Rocks>, between: seq<seq<Input>>) {
    && |states| == |between| + 1 && Wf(states[0])
    && forall i :: 0 <= i < |between| ==>
      CanRun(states[i], between[i]) && states[i + 1] == RunRocks(states[i], between[i])
  }

  function RocksPages(states: seq<Rocks>, key: TargetKey, limit: nat, until: Option<nat>): seq<Page<RecordId>> {
    if states == [] then []
    else
      var p := RocksLinks(states[0].db, key, limit, until);
      if p.next.None? then [p] else [p] + RocksPages(states[1..], key, limit, p.next)
  }

  lemma {:induction false} RocksPagesAre(states: seq<Rocks>, key: TargetKey, limit: nat, until: Option<nat>)
    ensures var a := RocksPages(states, key, limit, until);
            var b := Pages(RocksViews(states, key), key.collection, limit, until);
            && |a| == |b| && ItemsOf(a) == ItemsOf(b)
            && forall i :: 0 <= i < |a| ==> a[i].next == b[i].next
    decreases |states|
  {
    if states != [] {
      PageDecodes(states[0].db, key, limit, until);
      assert RocksViews(states, key)[1..] == RocksViews(states[1..], key);
      RocksPagesAre(states[1..], key, limit, RocksLinks(states[0].db, key, limit, until).next);
    }
  }

  /** In every session a known target keeps its id and its list grows. */
  lemma {:induction false} SessionKeepsId(states: seq<Rocks>, between: seq<seq<Input>>, key: TargetKey, i: nat)
    requires IsRocksSession(states, between) && key in states[0].db.targetIds && i < |states|
    ensures Wf(states[i]) && key in states[i].db.targetIds
  {
    if i > 0 {
      SessionKeepsId(states, between, key, i - 1);
      RunExtendsIds(states[i - 1], between[i - 1], key);
    }
  }

  lemma SessionGrows(states: seq<Rocks>, between: seq<seq<Input>>, key: TargetKey)
    requires IsRocksSession(states, between) && key in states[0].db.targetIds
    ensures Growing(RocksViews(states, key))
  {
    var views := RocksViews(states, key);
    forall i | 0 <= i < |views| - 1 ensures |views[i].slots| <= |views[i + 1].slots| {
      SessionKeepsId(states, between, key, i);
      RunExtendsIds(states[i], between[i], key);
    }
  }

  /** Slot `j` holds one id slot that stands for `rec`, of an active account, at every request. */
  ghost predicate SteadyId(states: seq<Rocks>, key: TargetKey, j: nat, rec: RecordId) {
    forall i :: 0 <= i < |states| ==>
      var ids := IdsOf(states[i].db, key);
      j < |ids| && Resolve(states[i].db, ids[j], key.collection) == [rec]
  }

  lemma SteadyDecodes(states: seq<Rocks>, key: TargetKey, j: nat, rec: RecordId)
    requires SteadyId(states, key, j, rec)
    ensures var views := RocksViews(states, key);
            forall i :: 0 <= i < |views| ==>
              j < |views[i].slots| && views[i].slots[j] == Some(LinkerOf(rec)) && Active(views[i].dids, rec.did)
  {
    var views := RocksViews(states, key);
    forall i | 0 <= i < |views|
      ensures j < |views[i].slots| && views[i].slots[j] == Some(LinkerOf(rec)) && Active(views[i].dids, rec.did)
    {
      assert Resolve(states[i].db, IdsOf(states[i].db, key)[j], key.collection) == [rec];
    }
  }

  /**
  Stable paging of the RocksDB `get_links`, whatever inputs arrive between
  requests: the pages end, read each slot of the first list exactly once, and
  return every link that stands for the same active record throughout.
  */
  lemma StableRocksPaging(states: seq<Rocks>, between: seq<seq<Input>>, key: TargetKey, limit: nat)
    returns (at: seq<nat>)
    requires IsRocksSession(states, between) && limit >= 1
    requires |states| >= |IdsOf(states[0].db, key)|
    ensures var n := |IdsOf(states[0].db, key)|;
            var pages := RocksPages(states, key, limit, None);
            && |at| == n && (forall j :: 0 <= j < n ==> at[j] < |states|)
            && 0 < |pages| <= (if n == 0 then 1 else n)
            && pages[|pages| - 1].next == None
            && ItemsOf(pages) == Collected(RocksViews(states, key), at, n, key.collection)
    ensures forall j: nat, rec :: SteadyId(states, key, j, rec) ==>
              RecordId(rec.did, key.collection, rec.rkey) in ItemsOf(RocksPages(states, key, limit, None))
  {
    var views, n := RocksViews(states, key), |IdsOf(states[0].db, key)|;
    RocksPagesAre(states, key, limit, None);
    if key in states[0].db.targetIds {
      SessionGrows(states, between, key);
      at := PagingVisitsOnce(views, key.collection, limit, None);
    } else {
      at := UnknownTarget(views, key.collection, limit);
    }
    forall j: nat, rec | SteadyId(states, key, j, rec)
      ensures RecordId(rec.did, key.collection, rec.rkey) in Collected(views, at, n, key.collection)
    {
      SteadyDecodes(states, key, j, rec);
      SteadyLinkReturned(views, at, n, j, LinkerOf(rec), key.collection);
    }
  }

  lemma UnknownTarget(views: seq<View>, collection: string, limit: nat) returns (at: seq<nat>)
    requires views != [] && limit >= 1 && views[0].slots == []
    ensures at == []
    ensures var pages := Pages(views, collection, limit, None);
            |pages| == 1 && pages[0].next == None && ItemsOf(pages) == Collected(views, at, 0, collection)
  {
    at := [];
    var p := LinkPage(views[0].dids, views[0].slots, collection, limit, None);
    assert Pages(views, collection, limit, None) == [p];
    assert [p][1..] == [] && p.items == [];
  }
}
