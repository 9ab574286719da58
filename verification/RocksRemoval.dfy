/** Record and account removal in the RocksDB store: when it agrees with the index, and when it cannot. */
module RocksRemoval {
  import opened LinkIndex
  import opened RocksIndex
  import opened RocksIds
  import opened RocksRefinement

  /** No two links of the records of one chunk name the same reverse list. */
  ghost predicate ChunksOk(m: Index, recs: seq<RecordId>)
    decreases |recs|
  {
    if |recs| <= CHUNK then NoSharedTarget(m, recs)
    else NoSharedTarget(m, recs[..CHUNK]) && ChunksOk(m, recs[CHUNK..])
  }

  lemma {:induction false} ChunksOkFrame(m: Index, m': Index, recs: seq<RecordId>)
    requires forall i :: 0 <= i < |recs| ==> Forward(m', recs[i]) == Forward(m, recs[i])
    ensures ChunksOk(m', recs) <==> ChunksOk(m, recs)
    decreases |recs|
  {
    if |recs| > CHUNK {
      assert NoSharedTarget(m', recs[..CHUNK]) <==> NoSharedTarget(m, recs[..CHUNK]);
      ChunksOkFrame(m, m', recs[CHUNK..]);
    }
  }

  lemma ClearRecordsTwice(m: Index, a: set<RecordId>, b: set<RecordId>)
    ensures ClearRecords(ClearRecords(m, a), b) == ClearRecords(m, a + b)
  {
    var x, y := ClearRecords(ClearRecords(m, a), b), ClearRecords(m, a + b);
    assert x.targets.Keys == y.targets.Keys;
    forall key | key in m.targets ensures x.targets[key] == y.targets[key] {
    }
    assert x.links == y.links;
  }

  lemma ChunkEntries(db: Db, did: Did, entries: seq<FwdEntry>)
    requires IdsOk(db) && EntriesFor(db, did, entries) && |entries| > CHUNK
    ensures IdsOk(DropAll(db, db, entries[..CHUNK])) && OnlyDropped(db, DropAll(db, db, entries[..CHUNK]))
    ensures EntriesFor(db, did, entries[..CHUNK])
    ensures EntriesFor(DropAll(db, db, entries[..CHUNK]), did, entries[CHUNK..])
  {
    var head, tail := entries[..CHUNK], entries[CHUNK..];
    DropAllOk(db, head);
    forall i | 0 <= i < |tail| ensures tail[i].key !in KeysOf(head) && tail[i] == entries[CHUNK + i] {
    }
  }

  lemma ChunkRecords(did: Did, entries: seq<FwdEntry>)
    requires |entries| > CHUNK
    ensures RecordsOf(did, entries)[..CHUNK] == RecordsOf(did, entries[..CHUNK])
    ensures RecordsOf(did, entries)[CHUNK..] == RecordsOf(did, entries[CHUNK..])
    ensures SetOf(RecordsOf(did, entries)) ==
              SetOf(RecordsOf(did, entries[..CHUNK])) + SetOf(RecordsOf(did, entries[CHUNK..]))
  {
    assert RecordsOf(did, entries) == RecordsOf(did, entries[..CHUNK]) + RecordsOf(did, entries[CHUNK..]);
  }

  lemma RestUntouched(m: Index, db: Db, did: Did, entries: seq<FwdEntry>)
    requires EntriesFor(db, did, entries) && |entries| > CHUNK
    ensures ChunksOk(ClearRecords(m, SetOf(RecordsOf(did, entries[..CHUNK]))), RecordsOf(did, entries[CHUNK..]))
       <==> ChunksOk(m, RecordsOf(did, entries[CHUNK..]))
  {
    var head, tail := RecordsOf(did, entries[..CHUNK]), RecordsOf(did, entries[CHUNK..]);
    forall i | 0 <= i < |tail| ensures tail[i] !in head {
      assert tail[i] == RecordOf(did, entries[CHUNK + i].key);
      forall j | 0 <= j < |head| ensures head[j] != tail[i] {
        assert entries[j].key != entries[CHUNK + i].key;
      }
    }
    ChunksOkFrame(m, ClearRecords(m, SetOf(head)), tail);
  }

  /** After the first chunk, the remaining entries are still the stored ones and share as before. */
  lemma AfterChunk(m: Index, db: Db, did: Did, entries: seq<FwdEntry>)
    requires IdsOk(db) && EntriesFor(db, did, entries) && |entries| > CHUNK
    ensures IdsOk(DropAll(db, db, entries[..CHUNK])) && OnlyDropped(db, DropAll(db, db, entries[..CHUNK]))
    ensures EntriesFor(db, did, entries[..CHUNK])
    ensures EntriesFor(DropAll(db, db, entries[..CHUNK]), did, entries[CHUNK..])
    ensures RecordsOf(did, entries)[..CHUNK] == RecordsOf(did, entries[..CHUNK])
    ensures RecordsOf(did, entries)[CHUNK..] == RecordsOf(did, entries[CHUNK..])
    ensures SetOf(RecordsOf(did, entries)) ==
              SetOf(RecordsOf(did, entries[..CHUNK])) + SetOf(RecordsOf(did, entries[CHUNK..]))
    ensures ChunksOk(ClearRecords(m, SetOf(RecordsOf(did, entries[..CHUNK]))), RecordsOf(did, entries[CHUNK..]))
       <==> ChunksOk(m, RecordsOf(did, entries[CHUNK..]))
  {
    ChunkEntries(db, did, entries);
    ChunkRecords(did, entries);
    RestUntouched(m, db, did, entries);
  }

  lemma {:induction false} DropChunksCouples(m: Index, db: Db, did: Did, entries: seq<FwdEntry>)
    requires Inv(m) && IdsOk(db) && Coupled(m, db) && EntriesFor(db, did, entries)
    requires ChunksOk(m, RecordsOf(did, entries))
    ensures Coupled(ClearRecords(m, SetOf(RecordsOf(did, entries))), DropChunks(db, entries))
    decreases |entries|
  {
    if |entries| <= CHUNK {
      DropBatchCouples(m, db, did, entries);
    } else {
      var head, tail := entries[..CHUNK], entries[CHUNK..];
      AfterChunk(m, db, did, entries);
      var done := SetOf(RecordsOf(did, head));
      DropBatchCouples(m, db, did, head);
      ClearRecordsKeepsInv(m, done);
      DropChunksCouples(ClearRecords(m, done), DropAll(db, db, head), did, tail);
      ClearRecordsTwice(m, done, SetOf(RecordsOf(did, tail)));
    }
  }

  lemma {:induction false} SlotSurvives(db: Db, entries: seq<FwdEntry>, tid: nat, x: IdSlot)
    requires x in LinkersAt(db, tid)
    requires forall i :: 0 <= i < |entries| && Writes(entries[i].targets, tid) ==> SlotOf(entries[i].key) != x
    ensures x in LinkersAt(DropChunks(db, entries), tid)
    decreases |entries|
  {
    var head := if |entries| <= CHUNK then entries else entries[..CHUNK];
    var w := DropAllEffect(db, head, tid);
    if exists i :: 0 <= i < |head| && Writes(head[i].targets, tid) {
      var slots := LinkersAt(db, tid);
      var p :| 0 <= p < |slots| && slots[p] == x;
      RemoveAnother(slots, SlotOf(head[w].key), p);
    }
    if |entries| > CHUNK {
      SlotSurvives(DropAll(db, db, head), entries[CHUNK..], tid, x);
    }
  }

  lemma NotWrittenLater(m: Index, db: Db, did: Did, entries: seq<FwdEntry>, key: TargetKey, r: nat)
    requires Inv(m) && IdsOk(db) && Coupled(m, db) && EntriesFor(db, did, entries)
    requires key in m.targets && r < CHUNK < |entries| && key.collection == entries[r].key.collection
    ensures forall i :: 0 <= i < |entries[CHUNK..]| && Writes(entries[CHUNK..][i].targets, db.targetIds[key])
              ==> SlotOf(entries[CHUNK..][i].key) != SlotOf(entries[r].key)
  {
    var tail := entries[CHUNK..];
    forall i | 0 <= i < |tail| && Writes(tail[i].targets, db.targetIds[key])
      ensures SlotOf(tail[i].key) != SlotOf(entries[r].key)
    {
      assert tail[i] == entries[CHUNK + i];
      WritesMeansLinks(m, db, did, entries, CHUNK + i, key);
      assert entries[r].key != entries[CHUNK + i].key;
    }
  }

  lemma FirstChunkLeaves(m: Index, db: Db, did: Did, entries: seq<FwdEntry>) returns (key: TargetKey, r: nat)
    requires Inv(m) && IdsOk(db) && Coupled(m, db) && EntriesFor(db, did, entries)
    requires |entries| > CHUNK && EntriesFor(db, did, entries[..CHUNK])
    requires !NoSharedTarget(m, RecordsOf(did, entries[..CHUNK]))
    ensures key in m.targets && r < |entries| && key.collection == entries[r].key.collection
    ensures SlotOf(entries[r].key) in LinkersAt(DropChunks(db, entries), db.targetIds[key])
  {
    key, r := DropBatchLeaves(m, db, did, entries[..CHUNK]);
    NotWrittenLater(m, db, did, entries, key, r);
    SlotSurvives(DropAll(db, db, entries[..CHUNK]), entries[CHUNK..], db.targetIds[key], SlotOf(entries[r].key));
  }

  /** If any chunk shares a target, a link of the deleted account survives. */
  lemma {:induction false} DropChunksLeaves(m: Index, db: Db, did: Did, entries: seq<FwdEntry>)
    returns (key: TargetKey, r: nat)
    requires Inv(m) && IdsOk(db) && Coupled(m, db) && EntriesFor(db, did, entries)
    requires !ChunksOk(m, RecordsOf(did, entries))
    ensures key in m.targets && r < |entries| && key.collection == entries[r].key.collection
    ensures SlotOf(entries[r].key) in LinkersAt(DropChunks(db, entries), db.targetIds[key])
    decreases |entries|
  {
    if |entries| <= CHUNK {
      key, r := DropBatchLeaves(m, db, did, entries);
    } else {
      AfterChunk(m, db, did, entries);
      if NoSharedTarget(m, RecordsOf(did, entries[..CHUNK])) {
        HeadDropped(m, db, did, entries);
        key, r := DropChunksLeaves(ClearRecords(m, SetOf(RecordsOf(did, entries[..CHUNK]))),
                                   DropAll(db, db, entries[..CHUNK]), did, entries[CHUNK..]);
        r := r + CHUNK;
      } else {
        key, r := FirstChunkLeaves(m, db, did, entries);
      }
    }
  }

  lemma HeadDropped(m: Index, db: Db, did: Did, entries: seq<FwdEntry>)
    requires Inv(m) && IdsOk(db) && Coupled(m, db) && |entries| > CHUNK && EntriesFor(db, did, entries[..CHUNK])
    requires NoSharedTarget(m, RecordsOf(did, entries[..CHUNK]))
    ensures var done := SetOf(RecordsOf(did, entries[..CHUNK]));
            Inv(ClearRecords(m, done)) && Coupled(ClearRecords(m, done), DropAll(db, db, entries[..CHUNK]))
  {
    DropBatchCouples(m, db, did, entries[..CHUNK]);
    ClearRecordsKeepsInv(m, SetOf(RecordsOf(did, entries[..CHUNK])));
  }

  /* ---- one record ---- */

  ghost predicate Distinct<T(!new)>(s: seq<T>) {
    forall a, b :: 0 <= a < b < |s| ==> s[a] != s[b]
  }

  lemma SameForward(m: Index, m': Index, db: Db)
    requires Coupled(m, db) && m'.dids == m.dids && m'.targets == m.targets
    requires forall rec :: Forward(m', rec) == Forward(m, rec)
    ensures Coupled(m', db)
  {
    forall rec ensures ForwardCoupled(m', db, rec) {
      assert ForwardCoupled(m, db, rec);
    }
  }

  lemma ClearOneRecord(m: Index, rec: RecordId)
    ensures ClearRecord(m, rec) == ClearRecords(m, {rec})
  {
    var x, y := ClearRecord(m, rec), ClearRecords(m, {rec});
    forall key | key in m.targets ensures x.targets[key] == y.targets[key] {
    }
    assert x.links == y.links;
  }

  lemma ClearUnlinked(m: Index, rec: RecordId)
    requires Inv(m) && Forward(m, rec) == []
    ensures ClearRecord(m, rec).targets == m.targets
    ensures forall r :: Forward(ClearRecord(m, rec), r) == Forward(m, r)
  {
    ClearOneRecord(m, rec);
    forall key | key in m.targets ensures ClearRecord(m, rec).targets[key] == m.targets[key] {
      ClearNobody(m, [rec], key);
      assert SetOf([rec]) == {rec};
    }
  }

  lemma DistinctMeansUnshared(m: Index, rec: RecordId)
    ensures NoSharedTarget(m, [rec]) <==> Distinct(Forward(m, rec))
  {
    var f := Forward(m, rec);
    assert [rec][0] == rec;
    if Distinct(f) {
      assert NoSharedTarget(m, [rec]);
    } else {
      var a, b :| 0 <= a < b < |f| && f[a] == f[b];
      assert KeyOf([rec][0], Forward(m, [rec][0])[a]) == KeyOf([rec][0], Forward(m, [rec][0])[b]);
    }
  }

  /** A known account's stored entry for `rec`, if any; without one there is nothing to remove. */
  lemma StoredEntry(m: Index, db: Db, rec: RecordId) returns (entries: seq<FwdEntry>)
    requires Inv(m) && IdsOk(db) && Coupled(m, db)
    ensures |entries| <= 1 && RemoveRecord(db, rec) == DropAll(db, db, entries)
    ensures entries == [] ==> Forward(m, rec) == []
    ensures entries != [] ==> EntriesFor(db, rec.did, entries) && RecordsOf(rec.did, entries) == [rec]
  {
    entries := [];
    if rec.did in db.dids {
      var key := FwdKey(db.dids[rec.did].id, rec.collection, rec.rkey);
      assert ForwardCoupled(m, db, rec);
      if key in db.fwd {
        entries := [FwdEntry(key, db.fwd[key])];
        assert DropAll(db, db, entries) == DropEntry(db, db, entries[0]);
      }
    } else {
      UnknownHasNoLinks(m, rec);
    }
  }

  /** Removing a record agrees with the index exactly when its forward links are distinct. */
  lemma RemoveRecordAgrees(m: Index, db: Db, rec: RecordId)
    requires Inv(m) && IdsOk(db) && Coupled(m, db)
    ensures Coupled(ClearRecord(m, rec), RemoveRecord(db, rec)) <==> Distinct(Forward(m, rec))
    ensures !Distinct(Forward(m, rec)) ==> Lingers(m, db, RemoveRecord(db, rec), rec)
  {
    var entries := StoredEntry(m, db, rec);
    DistinctMeansUnshared(m, rec);
    if entries == [] {
      ClearUnlinked(m, rec);
      SameForward(m, ClearRecord(m, rec), db);
    } else {
      ClearOneRecord(m, rec);
      assert SetOf([rec]) == {rec};
      if Distinct(Forward(m, rec)) {
        DropBatchCouples(m, db, rec.did, entries);
      } else {
        var key, r := DropBatchLeaves(m, db, rec.did, entries);
        assert RecordsOf(rec.did, entries)[0] == rec;
        var left := LinkersAt(RemoveRecord(db, rec), db.targetIds[key]);
        var p :| 0 <= p < |left| && left[p] == SlotOf(entries[r].key);
        DropAllOk(db, entries);
        NoSuchSlot(m, db, rec, key, p);
      }
    }
  }

  /** A slot of the record is still live in some reverse list. */
  ghost predicate Lingers(m: Index, before: Db, after: Db, rec: RecordId) {
    && rec.did in before.dids
    && exists key, p {:trigger LinkersAt(after, before.targetIds[key])[p]} ::
         && key in m.targets && key in before.targetIds && key.collection == rec.collection
         && 0 <= p < |m.targets[key]| == |LinkersAt(after, before.targetIds[key])|
         && LinkersAt(after, before.targetIds[key])[p] == IdSlot(before.dids[rec.did].id, rec.rkey)
  }

  lemma NoSuchSlot(m: Index, db: Db, rec: RecordId, key: TargetKey, p: nat)
    requires Inv(m) && IdsOk(db) && Coupled(m, db) && rec.did in db.dids
    requires key in m.targets && key.collection == rec.collection && p < |m.targets[key]|
    ensures EncodeSlot(ClearRecord(m, rec).targets[key][p], db.dids) != IdSlot(db.dids[rec.did].id, rec.rkey)
  {
    SlotNames(db, ClearRecord(m, rec).targets[key][p], rec.did, rec.rkey);
  }

  /* ---- a whole account ---- */

  lemma AccountRecordsCover(m: Index, db: Db, did: Did, scan: seq<FwdEntry>)
    requires Inv(m) && IdsOk(db) && Coupled(m, db)
    requires did in db.dids && ValidScan(db, db.dids[did].id, scan)
    ensures EntriesFor(db, did, scan)
    ensures forall key :: key in m.targets ==>
              ClearSlotsOf(m.targets[key], key.collection, SetOf(RecordsOf(did, scan))) == ClearDid(m.targets[key], did)
  {
    var recs := RecordsOf(did, scan);
    forall key | key in m.targets
      ensures ClearSlotsOf(m.targets[key], key.collection, SetOf(recs)) == ClearDid(m.targets[key], did)
    {
      var slots := m.targets[key];
      forall p | 0 <= p < |slots| && slots[p].Some?
        ensures RecordId(slots[p].value.did, key.collection, slots[p].value.rkey) in recs <==> slots[p].value.did == did
      {
        var rec := RecordId(slots[p].value.did, key.collection, slots[p].value.rkey);
        if rec.did == did {
          ForwardHasSlot(m, rec, key);
          assert ForwardCoupled(m, db, rec);
          var f := FwdKey(db.dids[did].id, rec.collection, rec.rkey);
          assert f in db.fwd;
          var i :| 0 <= i < |scan| && scan[i].key == f;
          assert recs[i] == rec;
        }
      }
    }
  }

  lemma EncodeWithout(slots: seq<Slot>, dids: map<Did, DidVal>, did: Did)
    ensures Encode(ClearDid(slots, did), dids - {did}) == Encode(ClearDid(slots, did), dids)
  {
  }

  /** Forgetting an account with no live slot left does not change any encoding. */
  lemma ForgetAccount(m: Index, did: Did, d: Db, recs: set<RecordId>)
    requires did in d.dids && Coupled(ClearRecords(m, recs), d)
    requires forall key :: key in m.targets ==>
               ClearSlotsOf(m.targets[key], key.collection, recs) == ClearDid(m.targets[key], did)
    requires forall rec :: rec in recs ==> rec.did == did
    ensures Coupled(ClearAccount(m, did), d.(dids := d.dids - {did}))
  {
    var m0, m', d' := ClearRecords(m, recs), ClearAccount(m, did), d.(dids := d.dids - {did});
    forall key | key in m'.targets
      ensures LinkersAt(d', d'.targetIds[key]) == Encode(m'.targets[key], d'.dids)
    {
      assert m0.targets[key] == m'.targets[key];
      EncodeWithout(m.targets[key], d.dids, did);
    }
    assert ReverseCoupled(m'.targets, d');
    forall rec ensures ForwardCoupled(m', d', rec) {
      assert ForwardCoupled(m0, d, rec);
      assert rec.did != did ==> Forward(m', rec) == Forward(m0, rec);
    }
  }

  lemma UnknownAccount(m: Index, db: Db, did: Did)
    requires Inv(m) && Coupled(m, db) && did !in db.dids
    ensures Coupled(ClearAccount(m, did), db)
  {
    forall key | key in m.targets ensures ClearDid(m.targets[key], did) == m.targets[key] {
    }
    assert ClearAccount(m, did).targets == m.targets;
    assert ClearAccount(m, did).dids == m.dids;
    forall rec ensures Forward(ClearAccount(m, did), rec) == Forward(m, rec) {
      if rec.did == did {
        UnknownHasNoLinks(m, rec);
      }
    }
    SameForward(m, ClearAccount(m, did), db);
  }

  lemma SharedAccountDisagrees(m: Index, db: Db, did: Did, scan: seq<FwdEntry>)
    requires Inv(m) && IdsOk(db) && Coupled(m, db) && EntriesFor(db, did, scan)
    requires !ChunksOk(m, RecordsOf(did, scan))
    ensures !ReverseCoupled(ClearAccount(m, did).targets, RemoveAccount(db, did, scan))
  {
    var key, r := DropChunksLeaves(m, db, did, scan);
    DropChunksOk(db, scan);
    var left := LinkersAt(RemoveAccount(db, did, scan), db.targetIds[key]);
    var p :| 0 <= p < |left| && left[p] == SlotOf(scan[r].key);
    if p < |m.targets[key]| {
      NoSlotOfAccount(m, db, did, key, p);
    }
    assert left != Encode(ClearAccount(m, did).targets[key], db.dids - {did});
  }

  /** Deleting an account agrees with the index exactly when no chunk of its records shares a target. */
  lemma RemoveAccountAgrees(m: Index, db: Db, did: Did, scan: seq<FwdEntry>)
    requires Inv(m) && IdsOk(db) && Coupled(m, db) && ScanFor(db, DeleteAccount(did), scan)
    ensures Coupled(ClearAccount(m, did), RemoveAccount(db, did, scan))
       <==> (did in db.dids ==> ChunksOk(m, RecordsOf(did, scan)))
  {
    if did !in db.dids {
      UnknownAccount(m, db, did);
    } else {
      AccountRecordsCover(m, db, did, scan);
      if ChunksOk(m, RecordsOf(did, scan)) {
        DropChunksOk(db, scan);
        DropChunksCouples(m, db, did, scan);
        ForgetAccount(m, did, DropChunks(db, scan), SetOf(RecordsOf(did, scan)));
      } else {
        SharedAccountDisagrees(m, db, did, scan);
      }
    }
  }

  lemma NoSlotOfAccount(m: Index, db: Db, did: Did, key: TargetKey, p: nat)
    requires Inv(m) && IdsOk(db) && Coupled(m, db) && did in db.dids
    requires key in m.targets && p < |m.targets[key]|
    ensures EncodeSlot(ClearAccount(m, did).targets[key][p], db.dids - {did}).did != db.dids[did].id
  {
    var s := ClearAccount(m, did).targets[key][p];
    if s.Some? {
      SlotNames(db, s, did, s.value.rkey);
    }
  }
}
