/** Adding a record's links in the RocksDB store: when it agrees with the index, and when it cannot. */
module RocksAdding {
  import opened Options
  import opened LinkIndex
  import opened RocksIndex
  import opened RocksIds
  import opened RocksRefinement

  /** A link repeated in one event must already have its target id committed. */
  ghost predicate RepeatsKnown(targets: map<TargetKey, seq<Slot>>, rec: RecordId, links: seq<Link>) {
    forall i, j :: 0 <= i < j < |links| && links[i] == links[j] ==> KeyOf(rec, links[i]) in targets
  }

  /** Adding one link under an id that is committed, or under a fresh one, appends the same slot. */
  lemma LinkOneCouples(targets: map<TargetKey, seq<Slot>>, read: Db, pend: Rocks, rec: RecordId, id: nat, l: Link)
    requires Wf(pend) && ReverseCoupled(targets, pend.db)
    requires rec.did in pend.db.dids && pend.db.dids[rec.did].id == id
    requires KeyOf(rec, l) in read.targetIds ==>
               KeyOf(rec, l) in targets && pend.db.targetIds[KeyOf(rec, l)] == read.targetIds[KeyOf(rec, l)]
    requires KeyOf(rec, l) !in read.targetIds ==> KeyOf(rec, l) !in targets
    ensures var key, p := KeyOf(rec, l), LinkOne(read, pend, rec, id, l);
            && ReverseCoupled(targets[key := SlotsAt(targets, key) + [Some(LinkerOf(rec))]], p.db)
            && p.db.targetIds == pend.db.targetIds[key := TargetIdFor(read, pend, key)]
  {
    var key, p := KeyOf(rec, l), LinkOne(read, pend, rec, id, l);
    var tid := TargetIdFor(read, pend, key);
    var targets' := targets[key := SlotsAt(targets, key) + [Some(LinkerOf(rec))]];
    forall k | k in targets' ensures LinkersAt(p.db, p.db.targetIds[k]) == Encode(targets'[k], p.db.dids) {
      if k == key {
        assert LinkersAt(pend.db, tid) == Encode(SlotsAt(targets, key), pend.db.dids);
        assert Encode(targets'[k], p.db.dids) == Encode(SlotsAt(targets, key), pend.db.dids) + [IdSlot(id, rec.rkey)];
      } else {
        assert p.db.targetIds[k] == pend.db.targetIds[k] != tid;
        assert LinkersAt(p.db, pend.db.targetIds[k]) == LinkersAt(pend.db, pend.db.targetIds[k]);
      }
    }
  }

  lemma EncodeGrown(rec: RecordId, links: seq<Link>, ids: map<TargetKey, nat>, key: TargetKey, tid: nat)
    requires key in ids ==> ids[key] == tid
    requires forall i :: 0 <= i < |links| ==> KeyOf(rec, links[i]) in ids
    ensures EncodeLinks(rec, links, ids[key := tid]) == EncodeLinks(rec, links, ids)
  {
  }

  /** One more link keeps the forward entry and the reverse lists in step. */
  lemma LinkMore(targets: map<TargetKey, seq<Slot>>, read: Db, r: Linked, rec: RecordId, id: nat, init: seq<Link>,
                 l: Link)
    requires Wf(r.pend) && ReverseCoupled(targets, r.pend.db) && LinkKeys(rec, init) <= targets.Keys
    requires rec.did in r.pend.db.dids && r.pend.db.dids[rec.did].id == id
    requires r.targets == EncodeLinks(rec, init, r.pend.db.targetIds)
    requires KeyOf(rec, l) in read.targetIds ==>
               KeyOf(rec, l) in targets && r.pend.db.targetIds[KeyOf(rec, l)] == read.targetIds[KeyOf(rec, l)]
    requires KeyOf(rec, l) !in read.targetIds ==> KeyOf(rec, l) !in targets
    ensures var key, p := KeyOf(rec, l), LinkOne(read, r.pend, rec, id, l);
            && ReverseCoupled(targets[key := SlotsAt(targets, key) + [Some(LinkerOf(rec))]], p.db)
            && r.targets + [FwdTarget(l.path, TargetIdFor(read, r.pend, key))] ==
              EncodeLinks(rec, init + [l], p.db.targetIds)
  {
    var key, tid := KeyOf(rec, l), TargetIdFor(read, r.pend, KeyOf(rec, l));
    LinkOneCouples(targets, read, r.pend, rec, id, l);
    var ids := r.pend.db.targetIds;
    forall i | 0 <= i < |init| ensures KeyOf(rec, init[i]) in ids {
      assert KeyOf(rec, init[i]) in LinkKeys(rec, init);
    }
    EncodeGrown(rec, init, ids, key, tid);
    assert EncodeLinks(rec, init + [l], ids[key := tid]) ==
      EncodeLinks(rec, init, ids[key := tid]) + [FwdTarget(l.path, tid)];
  }

  lemma {:induction false} LinkAllCouples(m: Index, read: Db, pend: Rocks, rec: RecordId, links: seq<Link>)
    requires Wf(pend) && Grows(read, pend.db) && ReverseCoupled(m.targets, pend.db)
    requires read.targetIds == pend.db.targetIds
    requires rec.did in pend.db.dids && RepeatsKnown(m.targets, rec, links)
    ensures var r := LinkAll(read, pend, rec, pend.db.dids[rec.did].id, links);
            && ReverseCoupled(AddLinks(m, rec, links).targets, r.pend.db)
            && r.targets == EncodeLinks(rec, links, r.pend.db.targetIds)
  {
    if links != [] {
      var n, id := |links| - 1, pend.db.dids[rec.did].id;
      var init, l := links[..n], links[n];
      assert init + [l] == links;
      assert forall i :: 0 <= i < n ==> init[i] == links[i];
      LinkAllCouples(m, read, pend, rec, init);
      IdPositive(pend.db, rec.did);
      LinkAllOk(read, pend, rec, id, init);
      AddLinksKeys(m, rec, init);
      NotYetLinked(m.targets, rec, links);
      LinkMore(AddLinks(m, rec, init).targets, read, LinkAll(read, pend, rec, id, init), rec, id, init, l);
    }
  }

  lemma NotYetLinked(targets: map<TargetKey, seq<Slot>>, rec: RecordId, links: seq<Link>)
    requires links != [] && RepeatsKnown(targets, rec, links)
    ensures KeyOf(rec, links[|links| - 1]) !in targets ==>
              KeyOf(rec, links[|links| - 1]) !in LinkKeys(rec, links[..|links| - 1])
  {
  }

  lemma IdPositive(db: Db, did: Did)
    requires IdsOk(db) && did in db.dids
    ensures 0 < db.dids[did].id <= Stored(db.didSeq)
  {
  }

  /** Uncommitted targets get a new id every time they occur in the event. */
  lemma {:induction false} LinkAllFresh(read: Db, pend: Rocks, rec: RecordId, id: nat, links: seq<Link>)
    ensures var r := LinkAll(read, pend, rec, id, links);
            && pend.targetSeq <= r.pend.targetSeq
            && (forall i :: 0 <= i < |links| && KeyOf(rec, links[i]) !in read.targetIds ==>
                  r.targets[i].id <= r.pend.targetSeq)
            && (forall i, j ::
                  0 <= i < j < |links| && KeyOf(rec, links[i]) !in read.targetIds
                  && KeyOf(rec, links[j]) !in read.targetIds
                  ==> r.targets[i].id < r.targets[j].id)
  {
    if links != [] {
      var n := |links| - 1;
      LinkAllFresh(read, pend, rec, id, links[..n]);
      assert forall i :: 0 <= i < n ==> links[..n][i] == links[i];
    }
  }

  lemma {:induction false} LinkAllAppends(read: Db, pend: Rocks, rec: RecordId, id: nat, links: seq<Link>, t: nat)
    ensures LinkersAt(pend.db, t) <= LinkersAt(LinkAll(read, pend, rec, id, links).pend.db, t)
  {
    if links != [] {
      LinkAllAppends(read, pend, rec, id, links[..|links| - 1], t);
    }
  }

  lemma RegisterCouples(m: Index, read: Db, pend: Rocks, did: Did)
    requires Inv(m) && Wf(pend) && DidsCoupled(m.dids, pend.db.dids) && ReverseCoupled(m.targets, pend.db)
    requires read.dids == pend.db.dids
    ensures ReverseCoupled(m.targets, RegisterDid(read, pend, did).db)
  {
    var p := RegisterDid(read, pend, did);
    forall key | key in m.targets ensures Encode(m.targets[key], p.db.dids) == Encode(m.targets[key], pend.db.dids) {
    }
  }

  /** What a writer may assume of its pending view: only links were dropped from what it reads. */
  ghost predicate Pending(m: Index, read: Db, pend: Rocks) {
    && Inv(m) && Wf(pend) && Coupled(m, pend.db)
    && OnlyDropped(read, pend.db) && IdsOk(read)
  }

  ghost predicate AddOk(m: Index, rec: RecordId, links: seq<Link>) {
    && Forward(m, rec) == []
    && RepeatsKnown(m.targets, rec, links)
    && (links == [] ==> rec.did in m.dids)
  }

  /** The pieces of the database after adding a record. */
  lemma AddRecordShape(m: Index, read: Db, pend: Rocks, rec: RecordId, links: seq<Link>)
    requires Pending(m, read, pend)
    ensures var db, id := AddRecord(read, pend, rec, links).db, DidIdFor(read, pend, rec.did);
            var p := RegisterDid(read, pend, rec.did);
            var r := LinkAll(read, p, rec, id, links);
            && Wf(p) && Grows(read, p.db) && rec.did in p.db.dids && p.db.dids[rec.did].id == id
            && db.dids == p.db.dids && db.targetIds == r.pend.db.targetIds && db.linkers == r.pend.db.linkers
            && db.fwd == pend.db.fwd[FwdKey(id, rec.collection, rec.rkey) := r.targets]
            && IdsOk(db) && TargetIdsGrow(read.targetIds, Stored(read.targetSeq), db.targetIds, Stored(db.targetSeq))
  {
    RegisterDidOk(read, pend, rec.did);
    GrowsTrans(read, pend.db, RegisterDid(read, pend, rec.did).db);
    LinkAllOk(read, RegisterDid(read, pend, rec.did), rec, DidIdFor(read, pend, rec.did), links);
    AddRecordOk(read, pend, rec, links);
  }

  /** Another record's stored entry is the one it had, and a new account has none. */
  lemma OtherEntry(read: Db, pend: Rocks, rec: RecordId, other: RecordId)
    requires Wf(pend) && read.dids == pend.db.dids && other != rec
    ensures var p, id := RegisterDid(read, pend, rec.did), DidIdFor(read, pend, rec.did);
            other.did in p.db.dids ==>
              var f := FwdKey(p.db.dids[other.did].id, other.collection, other.rkey);
              && f != FwdKey(id, rec.collection, rec.rkey)
              && (other.did in pend.db.dids ==> p.db.dids[other.did] == pend.db.dids[other.did])
              && (other.did !in pend.db.dids ==> f !in pend.db.fwd)
  {
    RegisterDidOk(read, pend, rec.did);
  }

  lemma AddForwardCouples(m: Index, read: Db, pend: Rocks, rec: RecordId, links: seq<Link>, other: RecordId)
    requires Pending(m, read, pend) && other != rec
    ensures ForwardCoupled(AddLinks(m, rec, links), AddRecord(read, pend, rec, links).db, other)
  {
    AddRecordShape(m, read, pend, rec, links);
    AddLinksForward(m, rec, links, other);
    OtherEntry(read, pend, rec, other);
    assert ForwardCoupled(m, pend.db, other);
    if other.did in pend.db.dids {
      SameIds(m, pend.db, AddRecord(read, pend, rec, links).db, other);
    } else {
      UnknownHasNoLinks(m, other);
    }
  }

  lemma SameIds(m: Index, a: Db, b: Db, rec: RecordId)
    requires Inv(m) && m.targets.Keys == a.targetIds.Keys
    requires TargetIdsGrow(a.targetIds, Stored(a.targetSeq), b.targetIds, Stored(b.targetSeq))
    ensures EncodeLinks(rec, Forward(m, rec), a.targetIds) == EncodeLinks(rec, Forward(m, rec), b.targetIds)
  {
    var f := Forward(m, rec);
    forall i | 0 <= i < |f| ensures EncodeLink(rec, f[i], a.targetIds) == EncodeLink(rec, f[i], b.targetIds) {
      ForwardHasSlot(m, rec, KeyOf(rec, f[i]));
    }
  }

  lemma AddReverseCouples(m: Index, read: Db, pend: Rocks, rec: RecordId, links: seq<Link>)
    requires Pending(m, read, pend) && RepeatsKnown(m.targets, rec, links)
    ensures var db, id := AddRecord(read, pend, rec, links).db, DidIdFor(read, pend, rec.did);
            var p := RegisterDid(read, pend, rec.did);
            && ReverseCoupled(AddLinks(m, rec, links).targets, db)
            && LinkAll(read, p, rec, id, links).targets == EncodeLinks(rec, links, db.targetIds)
  {
    AddRecordShape(m, read, pend, rec, links);
    RegisterCouples(m, read, pend, rec.did);
    LinkAllCouples(m, read, RegisterDid(read, pend, rec.did), rec, links);
    LinkAllOk(read, RegisterDid(read, pend, rec.did), rec, DidIdFor(read, pend, rec.did), links);
  }

  lemma AddCouples(m: Index, read: Db, pend: Rocks, rec: RecordId, links: seq<Link>)
    requires Pending(m, read, pend) && AddOk(m, rec, links)
    ensures Coupled(AddLinks(m, rec, links), AddRecord(read, pend, rec, links).db)
  {
    var a, db := AddLinks(m, rec, links), AddRecord(read, pend, rec, links).db;
    AddDidsCouple(m, read, pend, rec, links);
    AddReverseCouples(m, read, pend, rec, links);
    forall other ensures ForwardCoupled(a, db, other) {
      if other != rec {
        AddForwardCouples(m, read, pend, rec, links, other);
      } else {
        AddOwnCouples(m, read, pend, rec, links);
      }
    }
  }

  lemma AddDidsCouple(m: Index, read: Db, pend: Rocks, rec: RecordId, links: seq<Link>)
    requires Pending(m, read, pend) && (links == [] ==> rec.did in m.dids)
    ensures DidsCoupled(AddLinks(m, rec, links).dids, AddRecord(read, pend, rec, links).db.dids)
  {
    AddRecordShape(m, read, pend, rec, links);
    AddLinksKeys(m, rec, links);
    DidAdded(m.dids, pend.db.dids, rec.did, DidIdFor(read, pend, rec.did));
  }

  lemma DidAdded(m: map<Did, bool>, dids: map<Did, DidVal>, did: Did, id: nat)
    requires DidsCoupled(m, dids)
    ensures DidsCoupled(if did in m then m else m[did := true],
                        if did in dids then dids else dids[did := DidVal(id, true)])
  {
  }

  lemma AddOwnCouples(m: Index, read: Db, pend: Rocks, rec: RecordId, links: seq<Link>)
    requires Pending(m, read, pend) && AddOk(m, rec, links)
    ensures ForwardCoupled(AddLinks(m, rec, links), AddRecord(read, pend, rec, links).db, rec)
  {
    AddLinksForward(m, rec, links, rec);
    assert [] + links == links;
    AddRecordShape(m, read, pend, rec, links);
    AddReverseCouples(m, read, pend, rec, links);
    OwnEntry(AddLinks(m, rec, links), AddRecord(read, pend, rec, links).db, rec, links, DidIdFor(read, pend, rec.did));
  }

  lemma OwnEntry(m: Index, db: Db, rec: RecordId, links: seq<Link>, id: nat)
    requires Forward(m, rec) == links && rec.did in db.dids && db.dids[rec.did].id == id
    requires FwdAt(db, FwdKey(id, rec.collection, rec.rkey)) == EncodeLinks(rec, links, db.targetIds)
    ensures ForwardCoupled(m, db, rec)
  {
  }

  lemma AddNeedsOk(m: Index, read: Db, pend: Rocks, rec: RecordId, links: seq<Link>)
    requires Pending(m, read, pend)
    requires Coupled(AddLinks(m, rec, links), AddRecord(read, pend, rec, links).db)
    ensures AddOk(m, rec, links)
  {
    var id := DidIdFor(read, pend, rec.did);
    var p := RegisterDid(read, pend, rec.did);
    var a, db := AddLinks(m, rec, links), AddRecord(read, pend, rec, links).db;
    AddRecordShape(m, read, pend, rec, links);
    AddLinksKeys(m, rec, links);
    AddLinksForward(m, rec, links, rec);
    LinkAllFresh(read, p, rec, id, links);
    assert ForwardCoupled(a, db, rec);
    RepeatsWereKnown(read, rec, links, LinkAll(read, p, rec, id, links).targets, Forward(m, rec), db.targetIds);
  }

  lemma RepeatsWereKnown(read: Db, rec: RecordId, links: seq<Link>, targets: seq<FwdTarget>, earlier: seq<Link>,
                         ids: map<TargetKey, nat>)
    requires |targets| == |links| && targets == EncodeLinks(rec, earlier + links, ids)
    requires forall i, j ::
               0 <= i < j < |links| && KeyOf(rec, links[i]) !in read.targetIds
               && KeyOf(rec, links[j]) !in read.targetIds
               ==> targets[i].id < targets[j].id
    ensures earlier == []
    ensures forall i, j :: 0 <= i < j < |links| && links[i] == links[j] ==> KeyOf(rec, links[i]) in read.targetIds
  {
    assert |earlier| == 0;
    assert earlier + links == links;
  }

  /** Adding a record's links agrees with the index exactly under `AddOk`. */
  lemma AddRecordAgrees(m: Index, read: Db, pend: Rocks, rec: RecordId, links: seq<Link>)
    requires Pending(m, read, pend)
    ensures Coupled(AddLinks(m, rec, links), AddRecord(read, pend, rec, links).db) <==> AddOk(m, rec, links)
  {
    if AddOk(m, rec, links) {
      AddCouples(m, read, pend, rec, links);
    } else if Coupled(AddLinks(m, rec, links), AddRecord(read, pend, rec, links).db) {
      AddNeedsOk(m, read, pend, rec, links);
    }
  }
}
