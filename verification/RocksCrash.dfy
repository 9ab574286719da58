/**
Account deletion cut short: some mini batches are committed, the account entry
is not, and the event is delivered again.
*/
module RocksCrash {
  import opened LinkIndex
  import opened RocksIndex
  import opened RocksIds
  import opened RocksRefinement
  import opened RocksRemoval

  lemma ClearPartThenAll(m: Index, did: Did, recs: set<RecordId>)
    requires forall rec :: rec in recs ==> rec.did == did
    ensures ClearAccount(ClearRecords(m, recs), did) == ClearAccount(m, did)
  {
    var x, y := ClearAccount(ClearRecords(m, recs), did), ClearAccount(m, did);
    forall key | key in m.targets ensures x.targets[key] == y.targets[key] {
    }
    assert x.links == y.links;
  }

  /** What a committed part of a scan says about the database. */
  lemma PartOfScan(db: Db, did: Did, scan: seq<FwdEntry>, chunks: nat)
    requires IdsOk(db) && did in db.dids && ValidScan(db, db.dids[did].id, scan)
    ensures var part := CommittedChunks(scan, chunks);
            && EntriesFor(db, did, part)
            && IdsOk(DropChunks(db, part)) && OnlyDropped(db, DropChunks(db, part))
            && DropChunks(db, part).fwd == db.fwd - KeysOf(part)
  {
    var part := CommittedChunks(scan, chunks);
    assert forall i :: 0 <= i < |part| ==> part[i] == scan[i];
    DropChunksOk(db, part);
  }

  /** No slot of a cleared record encodes to that record's own id slot. */
  lemma NoSlotOfRecord(m: Index, db: Db, did: Did, part: seq<FwdEntry>, r: nat, key: TargetKey, p: nat)
    requires Inv(m) && IdsOk(db) && DidsCoupled(m.dids, db.dids) && EntriesFor(db, did, part)
    requires r < |part| && key in m.targets && p < |m.targets[key]| && key.collection == part[r].key.collection
    ensures EncodeSlot(ClearRecords(m, SetOf(RecordsOf(did, part))).targets[key][p], db.dids) != SlotOf(part[r].key)
  {
    var recs := RecordsOf(did, part);
    assert recs[r] == RecordOf(did, part[r].key);
    var s := ClearRecords(m, SetOf(recs)).targets[key][p];
    if s.Some? {
      assert s == m.targets[key][p];
      assert RecordId(s.value.did, key.collection, s.value.rkey) !in SetOf(recs);
    }
    SlotNames(db, s, did, part[r].key.rkey);
  }

  /**
  After a crash the store is that of the index without the records of the
  committed chunks, exactly when none of those chunks names a target twice.
  */
  lemma CrashAgrees(m: Index, db: Db, did: Did, scan: seq<FwdEntry>, chunks: nat)
    requires Inv(m) && IdsOk(db) && Coupled(m, db) && did in db.dids && ValidScan(db, db.dids[did].id, scan)
    ensures var part := CommittedChunks(scan, chunks);
            Coupled(ClearRecords(m, SetOf(RecordsOf(did, part))), DropChunks(db, part)) <==>
              ChunksOk(m, RecordsOf(did, part))
  {
    var part := CommittedChunks(scan, chunks);
    PartOfScan(db, did, scan, chunks);
    if ChunksOk(m, RecordsOf(did, part)) {
      DropChunksCouples(m, db, did, part);
    } else {
      PartDisagrees(m, db, did, part);
    }
  }

  lemma PartDisagrees(m: Index, db: Db, did: Did, part: seq<FwdEntry>)
    requires Inv(m) && IdsOk(db) && Coupled(m, db) && EntriesFor(db, did, part)
    requires OnlyDropped(db, DropChunks(db, part)) && !ChunksOk(m, RecordsOf(did, part))
    ensures !ReverseCoupled(ClearRecords(m, SetOf(RecordsOf(did, part))).targets, DropChunks(db, part))
  {
    var key, r := DropChunksLeaves(m, db, did, part);
    var left := LinkersAt(DropChunks(db, part), db.targetIds[key]);
    var p :| 0 <= p < |left| && left[p] == SlotOf(part[r].key);
    var cleared := ClearRecords(m, SetOf(RecordsOf(did, part))).targets[key];
    if p < |m.targets[key]| {
      NoSlotOfRecord(m, db, did, part, r, key, p);
    }
    assert left != Encode(cleared, db.dids);
  }

  /* ---- deleting again ---- */

  /** What the second scan finds was stored before, and is not of the committed part. */
  lemma AgainStored(db: Db, did: Did, part: seq<FwdEntry>, again: seq<FwdEntry>)
    requires EntriesFor(db, did, part) && DropChunks(db, part).fwd == db.fwd - KeysOf(part)
    requires ValidScan(DropChunks(db, part), db.dids[did].id, again)
    ensures EntriesFor(db, did, again)
    ensures forall i, r :: 0 <= i < |again| && 0 <= r < |part| ==> again[i].key != part[r].key
  {
    forall i, r | 0 <= i < |again| && 0 <= r < |part| ensures again[i].key != part[r].key {
      assert part[r].key in KeysOf(part);
    }
  }

  lemma SameAgain(m: Index, did: Did, part: seq<FwdEntry>, again: seq<FwdEntry>)
    requires forall i, r :: 0 <= i < |again| && 0 <= r < |part| ==> again[i].key != part[r].key
    requires forall i, r :: 0 <= i < |again| && 0 <= r < |part| ==> again[i].key.did == part[r].key.did
    ensures ChunksOk(ClearRecords(m, SetOf(RecordsOf(did, part))), RecordsOf(did, again)) <==>
              ChunksOk(m, RecordsOf(did, again))
  {
    var done, recs := RecordsOf(did, part), RecordsOf(did, again);
    forall i | 0 <= i < |recs| ensures recs[i] !in done {
      forall r | 0 <= r < |done| ensures done[r] != recs[i] {
        assert again[i].key != part[r].key;
      }
    }
    ChunksOkFrame(m, ClearRecords(m, SetOf(done)), recs);
  }

  /** A slot the committed part left behind is not removed by the second deletion either. */
  lemma LeftForGood(m: Index, db: Db, did: Did, part: seq<FwdEntry>, again: seq<FwdEntry>)
    returns (key: TargetKey, x: IdSlot)
    requires Inv(m) && IdsOk(db) && Coupled(m, db) && EntriesFor(db, did, part) && EntriesFor(db, did, again)
    requires forall i, r :: 0 <= i < |again| && 0 <= r < |part| ==> again[i].key != part[r].key
    requires !ChunksOk(m, RecordsOf(did, part))
    ensures key in m.targets && x.did == db.dids[did].id
    ensures x in LinkersAt(DropChunks(DropChunks(db, part), again), db.targetIds[key])
  {
    var r;
    key, r := DropChunksLeaves(m, db, did, part);
    x := SlotOf(part[r].key);
    forall i | 0 <= i < |again| && Writes(again[i].targets, db.targetIds[key]) ensures SlotOf(again[i].key) != x {
      WritesMeansLinks(m, db, did, again, i, key);
      assert again[i].key != part[r].key;
    }
    SlotSurvives(DropChunks(db, part), again, db.targetIds[key], x);
  }

  lemma ResumeDisagrees(m: Index, db: Db, did: Did, part: seq<FwdEntry>, again: seq<FwdEntry>)
    requires Inv(m) && IdsOk(db) && Coupled(m, db) && EntriesFor(db, did, part) && EntriesFor(db, did, again)
    requires OnlyDropped(db, DropChunks(db, part)) && OnlyDropped(db, DropChunks(DropChunks(db, part), again))
    requires forall i, r :: 0 <= i < |again| && 0 <= r < |part| ==> again[i].key != part[r].key
    requires !ChunksOk(m, RecordsOf(did, part))
    ensures !ReverseCoupled(ClearAccount(m, did).targets, RemoveAccount(DropChunks(db, part), did, again))
  {
    var key, x := LeftForGood(m, db, did, part, again);
    var left := LinkersAt(RemoveAccount(DropChunks(db, part), did, again), db.targetIds[key]);
    var p :| 0 <= p < |left| && left[p] == x;
    if p < |m.targets[key]| {
      NoSlotOfAccount(m, db, did, key, p);
    }
    assert left != Encode(ClearAccount(m, did).targets[key], db.dids - {did});
  }

  /**
  Crash safety of account deletion: stop after any number of committed mini
  batches, reopen, and delete again, with whatever scan the database then has.
  The outcome is that of the index if and only if no chunk of the committed part
  and none of the second scan names a target twice.
  */
  lemma CrashedDeletionResumes(m: Index, db: Db, did: Did, scan: seq<FwdEntry>, chunks: nat, again: seq<FwdEntry>)
    requires Inv(m) && IdsOk(db) && Coupled(m, db) && did in db.dids && ValidScan(db, db.dids[did].id, scan)
    requires ValidScan(DropChunks(db, CommittedChunks(scan, chunks)), db.dids[did].id, again)
    ensures var part := CommittedChunks(scan, chunks);
            Coupled(ClearAccount(m, did), RemoveAccount(DropChunks(db, part), did, again)) <==>
            ChunksOk(m, RecordsOf(did, part)) && ChunksOk(m, RecordsOf(did, again))
  {
    var part := CommittedChunks(scan, chunks);
    var done, db' := SetOf(RecordsOf(did, part)), DropChunks(db, part);
    PartOfScan(db, did, scan, chunks);
    AgainStored(db, did, part, again);
    if ChunksOk(m, RecordsOf(did, part)) {
      DropChunksCouples(m, db, did, part);
      ClearRecordsKeepsInv(m, done);
      RemoveAccountAgrees(ClearRecords(m, done), db', did, again);
      ClearPartThenAll(m, did, done);
      SameAgain(m, did, part, again);
    } else {
      DropChunksOk(db', again);
      ResumeDisagrees(m, db, did, part, again);
    }
  }
}
