/**
Where the two backlink stores part ways: one short run for each condition of
`Agreeable`, after which their answers differ.
*/
module RocksDivergence {
  import opened Options
  import opened LinkIndex
  import opened RocksIndex
  import opened LinkReads

  /** The database after a first record with one link: did id 2 and target id 2. */
  function OneLink(rec: RecordId, l: Link): Rocks {
    Rocks(Db(map[rec.did := DidVal(2, true)], map[2 := rec.did], Some(2),
             map[KeyOf(rec, l) := 2], Some(2),
             map[2 := [IdSlot(2, rec.rkey)]],
             map[FwdKey(2, rec.collection, rec.rkey) := [FwdTarget(l.path, 2)]]), 2, 2)
  }

  lemma FirstCreate(rec: RecordId, l: Link)
    ensures PushRocks(Open(EMPTY_DB), CreateLinks(rec, [l]), []) == OneLink(rec, l)
  {
    var r := Open(EMPTY_DB);
    var p := RegisterDid(r.db, r, rec.did);
    assert [l][..0] == [];
    assert LinkAll(r.db, p, rec, 2, []) == Linked(p, []);
    var one := LinkAll(r.db, p, rec, 2, [l]);
    assert one == Linked(LinkOne(r.db, p, rec, 2, l), [] + [FwdTarget(l.path, 2)]);
    assert one.targets == [FwdTarget(l.path, 2)];
    assert [] + [IdSlot(2, rec.rkey)] == [IdSlot(2, rec.rkey)];
    assert LinkOne(r.db, p, rec, 2, l).db.linkers == map[2 := [IdSlot(2, rec.rkey)]];
  }

  /** A link repeated in one event gets two target ids, and one of them is lost. */
  lemma RepeatedLinkDiverges(rec: RecordId, l: Link)
    ensures var e := CreateLinks(rec, [l, l]);
            && GetCount(Push(EMPTY, e), KeyOf(rec, l)) == 2
            && RocksCount(PushRocks(Open(EMPTY_DB), e, []).db, KeyOf(rec, l)) == 1
  {
    var key, s := KeyOf(rec, l), Some(LinkerOf(rec));
    assert [l, l][..1] == [l];
    AddOne(EMPTY, rec, l);
    var m := Push(EMPTY, CreateLinks(rec, [l, l]));
    assert m.targets[key] == [s] + [s] == [s, s];
    assert [s, s][..1] == [s] && [s][..0] == [];
    assert LiveCount([s]) == 1 && LiveCount([s, s]) == 2;

    var r, x := Open(EMPTY_DB), IdSlot(2, rec.rkey);
    var p := RegisterDid(r.db, r, rec.did);
    assert [l][..0] == [];
    assert LinkAll(r.db, p, rec, 2, []) == Linked(p, []);
    var one := LinkAll(r.db, p, rec, 2, [l]);
    assert one.pend == LinkOne(r.db, p, rec, 2, l);
    var two := LinkAll(r.db, p, rec, 2, [l, l]);
    assert two.pend == LinkOne(r.db, one.pend, rec, 2, l);
    assert two.pend.db.targetIds[key] == 3 && LinkersAt(two.pend.db, 3) == [] + [x] == [x];
    assert [x][..0] == [];
    assert IdLiveCount([x]) == 1;
  }

  lemma CreatedTwiceThenDeleted(rec: RecordId, l: Link)
    ensures var create := CreateLinks(rec, [l]);
            GetCount(Push(Push(Push(EMPTY, create), create), DeleteRecord(rec)), KeyOf(rec, l)) == 0
  {
    var key, s := KeyOf(rec, l), Some(LinkerOf(rec));
    AddOne(EMPTY, rec, l);
    AddOne(AddLink(EMPTY, rec, l), rec, l);
    var m := AddLink(AddLink(EMPTY, rec, l), rec, l);
    assert m.targets[key] == [s, s];
    assert ClearLinker([s, s], LinkerOf(rec)) == [None, None];
    var none: Slot := None;
    assert [none, none][..1] == [none] && [none][..0] == [];
    assert LiveCount([None]) == 0 && LiveCount([None, None]) == 0;
  }

  /** The second create of the same record: two slots, one forward link. */
  lemma CreatedAgain(rec: RecordId, l: Link)
    ensures var db := PushRocks(OneLink(rec, l), CreateLinks(rec, [l]), []).db;
            && db.dids == map[rec.did := DidVal(2, true)] && db.targetIds == map[KeyOf(rec, l) := 2]
            && LinkersAt(db, 2) == [IdSlot(2, rec.rkey), IdSlot(2, rec.rkey)]
            && db.fwd == map[FwdKey(2, rec.collection, rec.rkey) := [FwdTarget(l.path, 2)]]
  {
    var r, x := OneLink(rec, l), IdSlot(2, rec.rkey);
    var p := RegisterDid(r.db, r, rec.did);
    assert [l][..0] == [];
    assert LinkAll(r.db, p, rec, 2, []) == Linked(p, []);
    var again := LinkAll(r.db, p, rec, 2, [l]);
    assert again == Linked(LinkOne(r.db, p, rec, 2, l), [] + [FwdTarget(l.path, 2)]);
    assert again.targets == [FwdTarget(l.path, 2)];
    assert LinkersAt(again.pend.db, 2) == [x] + [x] == [x, x];
  }

  lemma OneSlotLeft(rec: RecordId, l: Link, db: Db)
    requires db.dids == map[rec.did := DidVal(2, true)] && db.targetIds == map[KeyOf(rec, l) := 2]
    requires LinkersAt(db, 2) == [IdSlot(2, rec.rkey), IdSlot(2, rec.rkey)]
    requires db.fwd == map[FwdKey(2, rec.collection, rec.rkey) := [FwdTarget(l.path, 2)]]
    ensures RocksCount(RemoveRecord(db, rec), KeyOf(rec, l)) == 1
  {
    var x, t := IdSlot(2, rec.rkey), [FwdTarget(l.path, 2)];
    assert t[..0] == [];
    assert DropTargets(db, db, x, []) == db;
    assert LastIndex([x, x], x) == 1;
    assert RemoveLinker([x, x], x) == [x, TOMBSTONE];
    assert LinkersAt(RemoveRecord(db, rec), 2) == [x, TOMBSTONE];
    assert [x, TOMBSTONE][..1] == [x] && [x][..0] == [];
    assert IdLiveCount([x]) == 1 && IdLiveCount([x, TOMBSTONE]) == 1;
  }

  /** Re-creating a stored record overwrites its forward links, so a later delete leaves a slot behind. */
  lemma RepeatedCreateDiverges(rec: RecordId, l: Link)
    ensures var create, delete := CreateLinks(rec, [l]), DeleteRecord(rec);
            && GetCount(Push(Push(Push(EMPTY, create), create), delete), KeyOf(rec, l)) == 0
            && RocksCount(PushRocks(PushRocks(PushRocks(Open(EMPTY_DB), create, []), create, []), delete, []).db,
                          KeyOf(rec, l)) == 1
  {
    CreatedTwiceThenDeleted(rec, l);
    FirstCreate(rec, l);
    CreatedAgain(rec, l);
    OneSlotLeft(rec, l, PushRocks(OneLink(rec, l), CreateLinks(rec, [l]), []).db);
  }

  lemma EmptyEventShown(rec: RecordId, l: Link)
    ensures var empty, off, create := UpdateLinks(rec, []), DeactivateAccount(rec.did), CreateLinks(rec, [l]);
            GetLinks(Push(Push(Push(EMPTY, empty), off), create), KeyOf(rec, l), 1, None).items == [rec]
  {
    var key, s := KeyOf(rec, l), Some(LinkerOf(rec));
    assert ClearRecord(EMPTY, rec) == EMPTY;
    AddOne(EMPTY, rec, l);
    var m := AddLink(EMPTY, rec, l);
    assert m.targets[key] == [s];
    OneItem(m.dids, rec);
  }

  lemma OneItem(dids: map<Did, bool>, rec: RecordId)
    requires Active(dids, rec.did)
    ensures LinkPage(dids, [Some(LinkerOf(rec))], rec.collection, 1, None).items == [rec]
  {
    var s := Some(LinkerOf(rec));
    assert [s][0..1] == [s] && [s][..0] == [];
    assert LinkItems(dids, [], rec.collection) == [];
    assert LinkItems(dids, [s], rec.collection) == [rec] + [] == [rec];
  }

  /** The database after an empty event from an unknown account, then deactivated. */
  lemma EmptyEventRegisters(rec: RecordId)
    ensures var r := PushRocks(PushRocks(Open(EMPTY_DB), UpdateLinks(rec, []), []), DeactivateAccount(rec.did), []);
            && r.db.dids == map[rec.did := DidVal(2, false)] && r.db.origs == map[2 := rec.did]
            && r.db.targetIds == map[] && r.db.linkers == map[] && r.targetSeq == 1
  {
    var r0 := Open(EMPTY_DB);
    var p0 := RegisterDid(r0.db, r0, rec.did);
    assert LinkAll(r0.db, p0, rec, 2, []) == Linked(p0, []);
  }

  lemma HiddenLink(rec: RecordId, l: Link, r: Rocks)
    requires r.db.dids == map[rec.did := DidVal(2, false)] && r.db.origs == map[2 := rec.did]
    requires r.db.targetIds == map[] && r.db.linkers == map[] && r.targetSeq == 1
    ensures RocksLinks(AddRecord(r.db, r, rec, [l]).db, KeyOf(rec, l), 1, None).items == []
  {
    var p, key := RegisterDid(r.db, r, rec.did), KeyOf(rec, l);
    assert [l][..0] == [];
    assert LinkAll(r.db, p, rec, 2, []) == Linked(p, []);
    var one := LinkAll(r.db, p, rec, 2, [l]);
    assert one.pend == LinkOne(r.db, p, rec, 2, l);
    var db, x := AddRecord(r.db, r, rec, [l]).db, IdSlot(2, rec.rkey);
    assert LinkersAt(db, db.targetIds[key]) == [] + [x] == [x];
    assert [x][0..1] == [x] && [x][..0] == [];
    assert Resolve(db, x, key.collection) == [];
    assert IdItems(db, [], key.collection) == [];
    assert IdItems(db, [x], key.collection) == [] + [] == [];
  }

  /**
  An empty event registers an unknown account in the RocksDB store only; once
  that account is deactivated, its next link is hidden there and shown by the index.
  */
  lemma EmptyEventDiverges(rec: RecordId, l: Link)
    ensures var empty, off, create := UpdateLinks(rec, []), DeactivateAccount(rec.did), CreateLinks(rec, [l]);
            && GetLinks(Push(Push(Push(EMPTY, empty), off), create), KeyOf(rec, l), 1, None).items == [rec]
            && RocksLinks(PushRocks(PushRocks(PushRocks(Open(EMPTY_DB), empty, []), off, []), create, []).db,
                          KeyOf(rec, l), 1, None).items == []
  {
    EmptyEventShown(rec, l);
    EmptyEventRegisters(rec);
    HiddenLink(rec, l, PushRocks(PushRocks(Open(EMPTY_DB), UpdateLinks(rec, []), []), DeactivateAccount(rec.did), []));
  }

  /** Two records of one account, linking the same target. */
  function TwoLinks(a: RecordId, b: RecordId, l: Link): Rocks {
    Rocks(Db(map[a.did := DidVal(2, true)], map[2 := a.did], Some(2),
             map[KeyOf(a, l) := 2], Some(2),
             map[2 := [IdSlot(2, a.rkey), IdSlot(2, b.rkey)]],
             map[FwdKey(2, a.collection, a.rkey) := [FwdTarget(l.path, 2)],
                 FwdKey(2, b.collection, b.rkey) := [FwdTarget(l.path, 2)]]), 2, 2)
  }

  lemma SecondCreate(a: RecordId, b: RecordId, l: Link)
    requires a.did == b.did && a.collection == b.collection && a.rkey != b.rkey
    ensures PushRocks(OneLink(a, l), CreateLinks(b, [l]), []) == TwoLinks(a, b, l)
  {
    var r, r' := OneLink(a, l), TwoLinks(a, b, l);
    var p := RegisterDid(r.db, r, b.did);
    assert p.db.origs == r.db.origs;
    assert [l][..0] == [];
    assert LinkAll(r.db, p, b, 2, []) == Linked(p, []);
    var one := LinkAll(r.db, p, b, 2, [l]);
    assert one == Linked(LinkOne(r.db, p, b, 2, l), [] + [FwdTarget(l.path, 2)]);
    assert one.targets == [FwdTarget(l.path, 2)];
    assert [IdSlot(2, a.rkey)] + [IdSlot(2, b.rkey)] == r'.db.linkers[2];
    assert one.pend.db.linkers == r'.db.linkers;
    assert AddRecord(r.db, r, b, [l]).db.fwd == r'.db.fwd;
  }

  function TwoEntries(a: RecordId, b: RecordId, l: Link): seq<FwdEntry> {
    [FwdEntry(FwdKey(2, a.collection, a.rkey), [FwdTarget(l.path, 2)]),
     FwdEntry(FwdKey(2, b.collection, b.rkey), [FwdTarget(l.path, 2)])]
  }

  lemma DropBoth(a: RecordId, b: RecordId, l: Link)
    requires a.did == b.did && a.collection == b.collection && a.rkey != b.rkey
    ensures var db, d := TwoLinks(a, b, l).db, DropChunks(TwoLinks(a, b, l).db, TwoEntries(a, b, l));
            d.targetIds == db.targetIds && LinkersAt(d, 2) == [IdSlot(2, a.rkey), TOMBSTONE]
  {
    var db, scan := TwoLinks(a, b, l).db, TwoEntries(a, b, l);
    var x, y, t := IdSlot(2, a.rkey), IdSlot(2, b.rkey), [FwdTarget(l.path, 2)];
    assert t[..0] == [] && scan[..1] == [scan[0]] && [scan[0]][..0] == [];
    var d1 := DropAll(db, db, [scan[0]]);
    assert DropAll(db, db, []) == db && DropTargets(db, db, x, []) == db;
    assert d1.targetIds == db.targetIds;
    assert DropTargets(db, d1, y, []) == d1;
    assert LastIndex([x, y], y) == 1;
    assert RemoveLinker([x, y], y) == [x, TOMBSTONE];
  }

  /** Deleting an account whose records share a target, in one chunk, leaves a live slot behind. */
  lemma SharedTargetDiverges(a: RecordId, b: RecordId, l: Link)
    requires a.did == b.did && a.collection == b.collection && a.rkey != b.rkey
    ensures var first, second, gone := CreateLinks(a, [l]), CreateLinks(b, [l]), DeleteAccount(a.did);
            var r := PushRocks(PushRocks(Open(EMPTY_DB), first, []), second, []);
            && r == TwoLinks(a, b, l)
            && ScanFor(r.db, gone, TwoEntries(a, b, l))
            && RocksCount(PushRocks(r, gone, TwoEntries(a, b, l)).db, KeyOf(a, l)) == 1
            && GetCount(Push(Push(Push(EMPTY, first), second), gone), KeyOf(a, l)) == 0
  {
    FirstCreate(a, l);
    SecondCreate(a, b, l);
    LeftBehind(a, b, l);
    BothCleared(a, b, l);
  }

  lemma LeftBehind(a: RecordId, b: RecordId, l: Link)
    requires a.did == b.did && a.collection == b.collection && a.rkey != b.rkey
    ensures ScanFor(TwoLinks(a, b, l).db, DeleteAccount(a.did), TwoEntries(a, b, l))
    ensures RocksCount(PushRocks(TwoLinks(a, b, l), DeleteAccount(a.did), TwoEntries(a, b, l)).db, KeyOf(a, l)) == 1
  {
    BothScanned(a, b, l);
    OneLeft(a, b, l);
  }

  lemma BothScanned(a: RecordId, b: RecordId, l: Link)
    requires a.rkey != b.rkey
    ensures ValidScan(TwoLinks(a, b, l).db, 2, TwoEntries(a, b, l))
  {
    var scan := TwoEntries(a, b, l);
    forall key | key in TwoLinks(a, b, l).db.fwd ensures exists i :: 0 <= i < |scan| && scan[i].key == key {
      assert scan[0].key == key || scan[1].key == key;
    }
  }

  lemma OneLeft(a: RecordId, b: RecordId, l: Link)
    requires a.did == b.did && a.collection == b.collection && a.rkey != b.rkey
    ensures RocksCount(RemoveAccount(TwoLinks(a, b, l).db, a.did, TwoEntries(a, b, l)), KeyOf(a, l)) == 1
  {
    DropBoth(a, b, l);
    var x := IdSlot(2, a.rkey);
    assert [x, TOMBSTONE][..1] == [x] && [x][..0] == [];
    assert IdLiveCount([x]) == 1 && IdLiveCount([x, TOMBSTONE]) == 1;
  }

  lemma BothCleared(a: RecordId, b: RecordId, l: Link)
    requires a.did == b.did && a.collection == b.collection
    ensures GetCount(Push(Push(Push(EMPTY, CreateLinks(a, [l])), CreateLinks(b, [l])), DeleteAccount(a.did)),
                     KeyOf(a, l)) == 0
  {
    AddOne(EMPTY, a, l);
    AddOne(AddLink(EMPTY, a, l), b, l);
    var s, u := Some(LinkerOf(a)), Some(LinkerOf(b));
    assert AddLink(AddLink(EMPTY, a, l), b, l).targets[KeyOf(a, l)] == [s, u];
    var none: Slot := None;
    assert ClearDid([s, u], a.did) == [none, none];
    assert [none, none][..1] == [none] && [none][..0] == [];
    assert LiveCount([none]) == 0 && LiveCount([none, none]) == 0;
  }
}
