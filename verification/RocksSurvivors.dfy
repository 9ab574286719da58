/**
What a removal that does not agree leaves to be seen: a slot that is live in the
RocksDB store and gone from the index, so that a count differs.
*/
module RocksSurvivors {
  import opened Options
  import opened LinkIndex
  import opened RocksIndex
  import opened RocksIds
  import opened RocksRefinement
  import opened RocksRemoval
  import opened LinkReads

  /** Nothing happened to a reverse list but that some of the `lost` slots were tombstoned. */
  ghost predicate OnlyLost(before: seq<IdSlot>, after: seq<IdSlot>, lost: set<IdSlot>) {
    && |after| == |before|
    && forall p :: 0 <= p < |before| ==> after[p] == before[p] || (before[p] in lost && after[p] == TOMBSTONE)
  }

  lemma RemoveLinkerLoses(slots: seq<IdSlot>, x: IdSlot)
    ensures OnlyLost(slots, RemoveLinker(slots, x), {x})
  {
  }

  lemma OnlyLostMore(before: seq<IdSlot>, after: seq<IdSlot>, lost: set<IdSlot>, more: set<IdSlot>)
    requires OnlyLost(before, after, lost) && lost <= more
    ensures OnlyLost(before, after, more)
  {
  }

  lemma OnlyLostTrans(a: seq<IdSlot>, b: seq<IdSlot>, c: seq<IdSlot>, lost: set<IdSlot>)
    requires OnlyLost(a, b, lost) && OnlyLost(b, c, lost)
    ensures OnlyLost(a, c, lost)
  {
  }

  /** The slots that a batch may take from one reverse list. */
  ghost function LostAt(entries: seq<FwdEntry>, tid: nat): set<IdSlot> {
    set i | 0 <= i < |entries| && Writes(entries[i].targets, tid) :: SlotOf(entries[i].key)
  }

  lemma DropAllLoses(db: Db, entries: seq<FwdEntry>, tid: nat)
    ensures OnlyLost(LinkersAt(db, tid), LinkersAt(DropAll(db, db, entries), tid), LostAt(entries, tid))
  {
    var w := DropAllEffect(db, entries, tid);
    if SomeWrites(entries, tid) {
      RemoveLinkerLoses(LinkersAt(db, tid), SlotOf(entries[w].key));
      assert SlotOf(entries[w].key) in LostAt(entries, tid);
      OnlyLostMore(LinkersAt(db, tid), LinkersAt(DropAll(db, db, entries), tid), {SlotOf(entries[w].key)},
                   LostAt(entries, tid));
    }
  }

  lemma LostAtPart(entries: seq<FwdEntry>, part: seq<FwdEntry>, from: nat, tid: nat)
    requires from + |part| <= |entries| && forall i :: 0 <= i < |part| ==> part[i] == entries[from + i]
    ensures LostAt(part, tid) <= LostAt(entries, tid)
  {
    forall x | x in LostAt(part, tid) ensures x in LostAt(entries, tid) {
      var i :| 0 <= i < |part| && Writes(part[i].targets, tid) && SlotOf(part[i].key) == x;
      assert Writes(entries[from + i].targets, tid);
    }
  }

  lemma {:induction false} DropChunksLoses(db: Db, entries: seq<FwdEntry>, tid: nat)
    ensures OnlyLost(LinkersAt(db, tid), LinkersAt(DropChunks(db, entries), tid), LostAt(entries, tid))
    decreases |entries|
  {
    if |entries| <= CHUNK {
      DropAllLoses(db, entries, tid);
    } else {
      var head, tail, lost := entries[..CHUNK], entries[CHUNK..], LostAt(entries, tid);
      var mid := DropAll(db, db, head);
      DropAllLoses(db, head, tid);
      DropChunksLoses(mid, tail, tid);
      LostAtPart(entries, head, 0, tid);
      LostAtPart(entries, tail, CHUNK, tid);
      OnlyLostMore(LinkersAt(db, tid), LinkersAt(mid, tid), LostAt(head, tid), lost);
      OnlyLostMore(LinkersAt(mid, tid), LinkersAt(DropChunks(mid, tail), tid), LostAt(tail, tid), lost);
      OnlyLostTrans(LinkersAt(db, tid), LinkersAt(mid, tid), LinkersAt(DropChunks(mid, tail), tid), lost);
    }
  }

  /* ---- a survivor is counted ---- */

  lemma {:induction false} Covers(slots: seq<Slot>, ids: seq<IdSlot>)
    requires |slots| == |ids| && forall q :: 0 <= q < |slots| && slots[q].Some? ==> ids[q].did != 0
    ensures LiveCount(slots) <= IdLiveCount(ids)
  {
    if slots != [] {
      Covers(slots[..|slots| - 1], ids[..|ids| - 1]);
    }
  }

  lemma {:induction false} CoversMore(slots: seq<Slot>, ids: seq<IdSlot>, p: nat)
    requires |slots| == |ids| && forall q :: 0 <= q < |slots| && slots[q].Some? ==> ids[q].did != 0
    requires p < |slots| && slots[p].None? && ids[p].did != 0
    ensures LiveCount(slots) < IdLiveCount(ids)
  {
    var n := |slots| - 1;
    if p < n {
      CoversMore(slots[..n], ids[..n], p);
    } else {
      Covers(slots[..n], ids[..n]);
    }
  }

  /** What the index clears of a list, at least all that the store may lose of it and nothing it keeps. */
  ghost predicate Clears(slots: seq<Slot>, cleared: seq<Slot>, dids: map<Did, DidVal>, lost: set<IdSlot>) {
    && |cleared| == |slots|
    && forall q :: 0 <= q < |slots| && cleared[q].Some? ==>
         cleared[q] == slots[q] && EncodeSlot(slots[q], dids) !in lost && EncodeSlot(slots[q], dids).did != 0
  }

  lemma SurvivorCounts(slots: seq<Slot>, cleared: seq<Slot>, dids: map<Did, DidVal>, ids: seq<IdSlot>,
                       lost: set<IdSlot>, p: nat)
    requires OnlyLost(Encode(slots, dids), ids, lost) && Clears(slots, cleared, dids, lost)
    requires p < |ids| && ids[p].did != 0 && cleared[p].None?
    ensures LiveCount(cleared) < IdLiveCount(ids)
  {
    CoversMore(cleared, ids, p);
  }

  /** A live slot of a list of the index has a nonzero id. */
  lemma LiveIdPositive(m: Index, db: Db, key: TargetKey, q: nat)
    requires Inv(m) && IdsOk(db) && DidsCoupled(m.dids, db.dids) && key in m.targets && q < |m.targets[key]|
    requires m.targets[key][q].Some?
    ensures m.targets[key][q].value.did in db.dids && EncodeSlot(m.targets[key][q], db.dids).did != 0
  {
  }

  /* ---- each kind of removal ---- */

  lemma RecordClears(m: Index, db: Db, rec: RecordId, key: TargetKey)
    requires Inv(m) && IdsOk(db) && DidsCoupled(m.dids, db.dids) && rec.did in db.dids && key in m.targets
    requires key.collection == rec.collection
    ensures Clears(m.targets[key], ClearRecord(m, rec).targets[key], db.dids, {IdSlot(db.dids[rec.did].id, rec.rkey)})
  {
    var slots := m.targets[key];
    var cleared := ClearRecord(m, rec).targets[key];
    assert cleared == ClearLinker(slots, LinkerOf(rec));
    forall q | 0 <= q < |slots| && cleared[q].Some?
      ensures cleared[q] == slots[q] && EncodeSlot(slots[q], db.dids) != IdSlot(db.dids[rec.did].id, rec.rkey)
      ensures EncodeSlot(slots[q], db.dids).did != 0
    {
      LiveIdPositive(m, db, key, q);
      SlotNames(db, slots[q], rec.did, rec.rkey);
    }
  }

  /** A live id slot of the record, in a list where nothing else was lost, is one the index clears. */
  lemma SlotWasRecords(m: Index, db: Db, rec: RecordId, key: TargetKey, ids: seq<IdSlot>, lost: set<IdSlot>, p: nat)
    requires Inv(m) && IdsOk(db) && DidsCoupled(m.dids, db.dids) && rec.did in db.dids && key in m.targets
    requires key.collection == rec.collection
    requires OnlyLost(Encode(m.targets[key], db.dids), ids, lost) && p < |ids|
    requires ids[p] == IdSlot(db.dids[rec.did].id, rec.rkey)
    ensures p < |m.targets[key]| && m.targets[key][p] == Some(LinkerOf(rec))
    ensures ClearRecord(m, rec).targets[key][p].None? && ids[p].did != 0
  {
    var s := m.targets[key][p];
    if s.Some? {
      LiveIdPositive(m, db, key, p);
    }
    SlotNames(db, s, rec.did, rec.rkey);
    assert ClearRecord(m, rec).targets[key] == ClearLinker(m.targets[key], LinkerOf(rec));
  }

  /** Removing a record whose links repeat: some list keeps a live slot that the index has cleared. */
  lemma RemovalShows(m: Index, db: Db, rec: RecordId) returns (key: TargetKey)
    requires Inv(m) && IdsOk(db) && Coupled(m, db) && !Distinct(Forward(m, rec))
    ensures key in m.targets && key in db.targetIds && key.collection == rec.collection
    ensures LiveCount(ClearRecord(m, rec).targets[key]) <
              IdLiveCount(LinkersAt(RemoveRecord(db, rec), db.targetIds[key]))
  {
    RemoveRecordAgrees(m, db, rec);
    var after, x := RemoveRecord(db, rec), IdSlot(db.dids[rec.did].id, rec.rkey);
    var p;
    key, p :|
      && key in m.targets && key in db.targetIds && key.collection == rec.collection
      && 0 <= p < |m.targets[key]| == |LinkersAt(after, db.targetIds[key])|
      && LinkersAt(after, db.targetIds[key])[p] == x;
    RemovalLoses(db, rec, db.targetIds[key]);
    SlotWasRecords(m, db, rec, key, LinkersAt(after, db.targetIds[key]), {x}, p);
    RecordClears(m, db, rec, key);
    SurvivorCounts(m.targets[key], ClearRecord(m, rec).targets[key], db.dids, LinkersAt(after, db.targetIds[key]),
                   {x}, p);
  }

  lemma RemovalLoses(db: Db, rec: RecordId, tid: nat)
    requires rec.did in db.dids
    ensures OnlyLost(LinkersAt(db, tid), LinkersAt(RemoveRecord(db, rec), tid), {IdSlot(db.dids[rec.did].id, rec.rkey)})
  {
    var f := FwdKey(db.dids[rec.did].id, rec.collection, rec.rkey);
    if f in db.fwd {
      DropTargetsEffect(db, db, SlotOf(f), db.fwd[f], tid);
      RemoveLinkerLoses(LinkersAt(db, tid), SlotOf(f));
    }
  }

  /** Deleting an account some chunk of which shares a target: a live slot of it is left. */
  lemma AccountShows(m: Index, db: Db, did: Did, scan: seq<FwdEntry>) returns (key: TargetKey)
    requires Inv(m) && IdsOk(db) && Coupled(m, db) && EntriesFor(db, did, scan) && !ChunksOk(m, RecordsOf(did, scan))
    ensures key in m.targets && key in db.targetIds
    ensures LiveCount(ClearAccount(m, did).targets[key]) <
              IdLiveCount(LinkersAt(DropChunks(db, scan), db.targetIds[key]))
  {
    var r;
    key, r := DropChunksLeaves(m, db, did, scan);
    var tid := db.targetIds[key];
    var ids, lost := LinkersAt(DropChunks(db, scan), tid), LostAt(scan, tid);
    DropChunksLoses(db, scan, tid);
    var p :| 0 <= p < |ids| && ids[p] == SlotOf(scan[r].key);
    AccountClears(m, db, did, scan, key);
    SlotWasAccounts(m, db, did, key, ids, lost, p);
    SurvivorCounts(m.targets[key], ClearAccount(m, did).targets[key], db.dids, ids, lost, p);
  }

  lemma AccountClears(m: Index, db: Db, did: Did, scan: seq<FwdEntry>, key: TargetKey)
    requires Inv(m) && IdsOk(db) && DidsCoupled(m.dids, db.dids) && EntriesFor(db, did, scan) && key in m.targets
    requires key in db.targetIds
    ensures Clears(m.targets[key], ClearAccount(m, did).targets[key], db.dids, LostAt(scan, db.targetIds[key]))
  {
    var slots, cleared := m.targets[key], ClearAccount(m, did).targets[key];
    assert cleared == ClearDid(slots, did);
    forall q | 0 <= q < |slots| && cleared[q].Some?
      ensures cleared[q] == slots[q] && EncodeSlot(slots[q], db.dids) !in LostAt(scan, db.targetIds[key])
      ensures EncodeSlot(slots[q], db.dids).did != 0
    {
      LiveIdPositive(m, db, key, q);
      SlotNames(db, slots[q], did, slots[q].value.rkey);
    }
  }

  lemma SlotWasAccounts(m: Index, db: Db, did: Did, key: TargetKey, ids: seq<IdSlot>, lost: set<IdSlot>, p: nat)
    requires Inv(m) && IdsOk(db) && DidsCoupled(m.dids, db.dids) && did in db.dids && key in m.targets
    requires OnlyLost(Encode(m.targets[key], db.dids), ids, lost) && p < |ids| && ids[p].did == db.dids[did].id
    ensures p < |m.targets[key]| && ClearAccount(m, did).targets[key][p].None? && ids[p].did != 0
  {
    var s := m.targets[key][p];
    if s.Some? {
      LiveIdPositive(m, db, key, p);
      SlotNames(db, s, did, s.value.rkey);
    }
    assert ClearAccount(m, did).targets[key] == ClearDid(m.targets[key], did);
  }

  /** A deletion cut short after a chunk that shares a target: a live slot of one of its records is left. */
  lemma CrashShows(m: Index, db: Db, did: Did, part: seq<FwdEntry>) returns (key: TargetKey)
    requires Inv(m) && IdsOk(db) && Coupled(m, db) && EntriesFor(db, did, part) && !ChunksOk(m, RecordsOf(did, part))
    ensures key in m.targets && key in db.targetIds
    ensures LiveCount(ClearRecords(m, SetOf(RecordsOf(did, part))).targets[key]) <
              IdLiveCount(LinkersAt(DropChunks(db, part), db.targetIds[key]))
  {
    var r;
    key, r := DropChunksLeaves(m, db, did, part);
    var tid := db.targetIds[key];
    var ids, lost := LinkersAt(DropChunks(db, part), tid), LostAt(part, tid);
    DropChunksLoses(db, part, tid);
    var p :| 0 <= p < |ids| && ids[p] == SlotOf(part[r].key);
    PartClears(m, db, did, part, key);
    var rec := RecordOf(did, part[r].key);
    SlotWasRecords(m, db, rec, key, ids, lost, p);
    assert RecordsOf(did, part)[r] == rec;
    SurvivorCounts(m.targets[key], ClearRecords(m, SetOf(RecordsOf(did, part))).targets[key], db.dids, ids, lost, p);
  }

  lemma PartClears(m: Index, db: Db, did: Did, part: seq<FwdEntry>, key: TargetKey)
    requires Inv(m) && IdsOk(db) && Coupled(m, db) && EntriesFor(db, did, part) && key in m.targets
    requires key in db.targetIds
    ensures Clears(m.targets[key], ClearRecords(m, SetOf(RecordsOf(did, part))).targets[key], db.dids,
                   LostAt(part, db.targetIds[key]))
  {
    var slots, recs := m.targets[key], SetOf(RecordsOf(did, part));
    var cleared := ClearRecords(m, recs).targets[key];
    assert cleared == ClearSlotsOf(slots, key.collection, recs);
    forall q | 0 <= q < |slots| && cleared[q].Some?
      ensures cleared[q] == slots[q] && EncodeSlot(slots[q], db.dids) !in LostAt(part, db.targetIds[key])
      ensures EncodeSlot(slots[q], db.dids).did != 0
    {
      LiveIdPositive(m, db, key, q);
      KeptNotLost(m, db, did, part, key, slots[q]);
    }
  }

  /** A slot of no record of the batch is not one the batch may take. */
  lemma KeptNotLost(m: Index, db: Db, did: Did, part: seq<FwdEntry>, key: TargetKey, s: Slot)
    requires Inv(m) && IdsOk(db) && Coupled(m, db) && EntriesFor(db, did, part) && key in m.targets
    requires key in db.targetIds
    requires s.Some? && s.value.did in db.dids
    requires RecordId(s.value.did, key.collection, s.value.rkey) !in RecordsOf(did, part)
    ensures EncodeSlot(s, db.dids) !in LostAt(part, db.targetIds[key])
  {
    forall w | 0 <= w < |part| && Writes(part[w].targets, db.targetIds[key])
      ensures SlotOf(part[w].key) != EncodeSlot(s, db.dids) {
      WritesMeansLinks(m, db, did, part, w, key);
      assert RecordsOf(did, part)[w] == RecordOf(did, part[w].key);
      SlotNames(db, s, did, part[w].key.rkey);
    }
  }
}
