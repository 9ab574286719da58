/**
The agreement condition is not only internal: after any input that breaks it, at
most two more events make the two stores answer a read differently.
*/
module RocksObservable {
  import opened Options
  import opened LinkIndex
  import opened RocksIndex
  import opened RocksIds
  import opened RocksRefinement
  import opened RocksRemoval
  import opened RocksCrash
  import opened RocksAdding
  import opened LinkReads
  import opened RocksAgreement
  import opened RocksSurvivors

  /** A count, or the newest page of one link, is not the same in both stores. */
  ghost predicate ReadsDiffer(m: Index, db: Db, key: TargetKey) {
    RocksCount(db, key) != GetCount(m, key) || RocksLinks(db, key, 1, None) != GetLinks(m, key, 1, None)
  }

  /* ---- what adding links does to one list ---- */

  lemma LinkOneAt(read: Db, pend: Rocks, rec: RecordId, id: nat, l: Link, tid: nat)
    ensures LinkersAt(LinkOne(read, pend, rec, id, l).db, tid) ==
            LinkersAt(pend.db, tid)
            + if TargetIdFor(read, pend, KeyOf(rec, l)) == tid then [IdSlot(id, rec.rkey)] else []
  {
  }

  /** A target already known gets one slot for each link to it. */
  lemma {:induction false} LinkAllExact(read: Db, pend: Rocks, rec: RecordId, id: nat, links: seq<Link>, key: TargetKey)
    requires Wf(pend) && Grows(read, pend.db) && IdsOk(read) && 0 < id <= Stored(pend.db.didSeq)
    requires key in read.targetIds
    ensures LinkersAt(LinkAll(read, pend, rec, id, links).pend.db, read.targetIds[key]) ==
            LinkersAt(pend.db, read.targetIds[key]) + Copies(IdSlot(id, rec.rkey), Occurrences(rec, links, key))
  {
    if links != [] {
      var init, l := links[..|links| - 1], links[|links| - 1];
      LinkAllExact(read, pend, rec, id, init, key);
      LinkAllOk(read, pend, rec, id, init);
      var r := LinkAll(read, pend, rec, id, init).pend;
      LinkOneExact(read, r, rec, id, l, key);
      OneMoreCopy(LinkersAt(pend.db, read.targetIds[key]), IdSlot(id, rec.rkey), Occurrences(rec, init, key),
                  LinkersAt(r.db, read.targetIds[key]));
    }
  }

  lemma LinkOneExact(read: Db, pend: Rocks, rec: RecordId, id: nat, l: Link, key: TargetKey)
    requires Wf(pend) && Grows(read, pend.db) && IdsOk(read) && key in read.targetIds
    ensures LinkersAt(LinkOne(read, pend, rec, id, l).db, read.targetIds[key]) ==
            LinkersAt(pend.db, read.targetIds[key]) + if KeyOf(rec, l) == key then [IdSlot(id, rec.rkey)] else []
  {
    LinkOneAt(read, pend, rec, id, l, read.targetIds[key]);
    KnownId(read, pend, key, KeyOf(rec, l));
  }

  lemma OneMoreCopy<T>(slots: seq<T>, x: T, k: nat, now: seq<T>)
    requires now == slots + Copies(x, k)
    ensures now + [x] == slots + Copies(x, k + 1) && now + [] == now
  {
  }

  /** The id of a known target is given to no other link of the event. */
  lemma KnownId(read: Db, pend: Rocks, key: TargetKey, other: TargetKey)
    requires Wf(pend) && Grows(read, pend.db) && IdsOk(read) && key in read.targetIds
    ensures TargetIdFor(read, pend, other) == read.targetIds[key] <==> other == key
  {
  }

  /** A target not yet known gets a new id for every link to it, and ends with a list of one slot. */
  lemma {:induction false} LinkAllUnknown(read: Db, pend: Rocks, rec: RecordId, id: nat, links: seq<Link>,
                                          key: TargetKey)
    requires Wf(pend) && Grows(read, pend.db) && IdsOk(read) && 0 < id <= Stored(pend.db.didSeq)
    requires key !in read.targetIds && Occurrences(rec, links, key) > 0
    ensures var db := LinkAll(read, pend, rec, id, links).pend.db;
            key in db.targetIds && LinkersAt(db, db.targetIds[key]) == [IdSlot(id, rec.rkey)]
  {
    var init, l := links[..|links| - 1], links[|links| - 1];
    LinkAllOk(read, pend, rec, id, init);
    var r := LinkAll(read, pend, rec, id, init).pend;
    if KeyOf(rec, l) == key {
      NothingThere(r);
      LinkOneAt(read, r, rec, id, l, r.targetSeq + 1);
    } else {
      LinkAllUnknown(read, pend, rec, id, init, key);
      OtherId(read, r, key, KeyOf(rec, l));
      LinkOneAt(read, r, rec, id, l, r.db.targetIds[key]);
    }
  }

  lemma NothingThere(r: Rocks)
    requires Wf(r)
    ensures LinkersAt(r.db, r.targetSeq + 1) == []
  {
  }

  lemma OtherId(read: Db, pend: Rocks, key: TargetKey, other: TargetKey)
    requires Wf(pend) && Grows(read, pend.db) && key in pend.db.targetIds && key !in read.targetIds && other != key
    ensures TargetIdFor(read, pend, other) != pend.db.targetIds[key]
  {
  }

  lemma {:induction false} CopiesCount(slots: seq<Slot>, x: Linker, k: nat)
    ensures LiveCount(slots + Copies(Some(x), k)) == LiveCount(slots) + k
  {
    if k == 0 {
      assert slots + [] == slots;
    } else {
      var more := slots + Copies(Some(x), k);
      assert more == (slots + Copies(Some(x), k - 1)) + [Some(x)];
      assert more[..|more| - 1] == slots + Copies(Some(x), k - 1);
      CopiesCount(slots, x, k - 1);
    }
  }

  lemma {:induction false} IdCopiesCount(slots: seq<IdSlot>, x: IdSlot, k: nat)
    requires x.did != 0
    ensures IdLiveCount(slots + Copies(x, k)) == IdLiveCount(slots) + k
  {
    if k == 0 {
      assert slots + [] == slots;
    } else {
      var more := slots + Copies(x, k);
      assert more == (slots + Copies(x, k - 1)) + [x];
      assert more[..|more| - 1] == slots + Copies(x, k - 1);
      IdCopiesCount(slots, x, k - 1);
    }
  }

  /* ---- an event that repeats an unknown link ---- */

  lemma {:induction false} OccursTwiceIn(rec: RecordId, links: seq<Link>, i: nat, j: nat)
    requires i < j < |links| && links[i] == links[j]
    ensures Occurrences(rec, links, KeyOf(rec, links[i])) >= 2
  {
    var n := |links| - 1;
    if j < n {
      OccursTwiceIn(rec, links[..n], i, j);
    } else {
      OccursOnce(rec, links[..n], i);
    }
  }

  lemma {:induction false} OccursOnce(rec: RecordId, links: seq<Link>, i: nat)
    requires i < |links|
    ensures Occurrences(rec, links, KeyOf(rec, links[i])) >= 1
  {
    var n := |links| - 1;
    if i < n {
      OccursOnce(rec, links[..n], i);
    }
  }

  /** The index counts every repetition, the RocksDB store only the last. */
  lemma RepeatShows(m: Index, read: Db, pend: Rocks, rec: RecordId, links: seq<Link>) returns (key: TargetKey)
    requires Wf(pend) && OnlyDropped(read, pend.db) && IdsOk(read) && m.targets.Keys == read.targetIds.Keys
    requires !RepeatsKnown(m.targets, rec, links)
    ensures RocksCount(AddRecord(read, pend, rec, links).db, key) == 1 < GetCount(AddLinks(m, rec, links), key)
  {
    var i, j :| 0 <= i < j < |links| && links[i] == links[j] && KeyOf(rec, links[i]) !in m.targets;
    key := KeyOf(rec, links[i]);
    OccursTwiceIn(rec, links, i, j);
    AddLinksExact(m, rec, links, key);
    CopiesCount([], LinkerOf(rec), Occurrences(rec, links, key));
    var id, p := DidIdFor(read, pend, rec.did), RegisterDid(read, pend, rec.did);
    RegisterDidOk(read, pend, rec.did);
    GrowsTrans(read, pend.db, p.db);
    LinkAllUnknown(read, p, rec, id, links, key);
    OneLive(IdSlot(id, rec.rkey));
  }

  lemma OneLive(x: IdSlot)
    requires x.did != 0
    ensures IdLiveCount([x]) == 1
  {
    assert [x][..0] == [];
  }

  /* ---- updating a record whose links repeat ---- */

  lemma UpdateShows(m: Index, r: Rocks, rec: RecordId, links: seq<Link>) returns (key: TargetKey)
    requires Inv(m) && Wf(r) && Coupled(m, r.db) && !Distinct(Forward(m, rec))
    ensures GetCount(AddLinks(ClearRecord(m, rec), rec, links), key) <
            RocksCount(AddRecord(r.db, r.(db := RemoveRecord(r.db, rec)), rec, links).db, key)
  {
    key := RemovalShows(m, r.db, rec);
    var pend := r.(db := RemoveRecord(r.db, rec));
    RemoveRecordOk(r.db, rec);
    if rec.did !in m.dids {
      UnknownHasNoLinks(m, rec);
    }
    var id, p, k := DidIdFor(r.db, pend, rec.did), RegisterDid(r.db, pend, rec.did), Occurrences(rec, links, key);
    AddedCount(r.db, pend, rec, links, key);
    AddLinksExact(ClearRecord(m, rec), rec, links, key);
    CopiesCount(ClearRecord(m, rec).targets[key], LinkerOf(rec), k);
  }

  lemma AddedCount(read: Db, pend: Rocks, rec: RecordId, links: seq<Link>, key: TargetKey)
    requires Wf(pend) && OnlyDropped(read, pend.db) && IdsOk(read) && key in read.targetIds
    ensures RocksCount(AddRecord(read, pend, rec, links).db, key) ==
            IdLiveCount(LinkersAt(pend.db, read.targetIds[key])) + Occurrences(rec, links, key)
  {
    var id, p := DidIdFor(read, pend, rec.did), RegisterDid(read, pend, rec.did);
    RegisterDidOk(read, pend, rec.did);
    GrowsTrans(read, pend.db, p.db);
    LinkAllExact(read, p, rec, id, links, key);
    LinkAllOk(read, p, rec, id, links);
    IdCopiesCount(LinkersAt(p.db, read.targetIds[key]), IdSlot(id, rec.rkey), Occurrences(rec, links, key));
  }

  /* ---- creating a record that has links ---- */

  /** After a create has overwritten the forward links, a delete leaves a slot of the old ones. */
  lemma OverwriteShows(m: Index, r: Rocks, rec: RecordId, links: seq<Link>) returns (key: TargetKey)
    requires Inv(m) && Wf(r) && Coupled(m, r.db) && RepeatsKnown(m.targets, rec, links) && Forward(m, rec) != []
    ensures GetCount(ClearRecord(AddLinks(m, rec, links), rec), key) <
              RocksCount(RemoveRecord(AddRecord(r.db, r, rec, links).db, rec), key)
  {
    key := KeyOf(rec, Forward(m, rec)[0]);
    ForwardHasSlot(m, rec, key);
    var m', db := AddLinks(m, rec, links), AddRecord(r.db, r, rec, links).db;
    AddLinksKeepsInv(m, rec, links);
    AddRecordShape(m, r.db, r, rec, links);
    AddReverseCouples(m, r.db, r, rec, links);
    AddLinksExact(m, rec, links, key);
    AddDidsCouple(m, r.db, r, rec, links);
    AddLinksKeys(m, rec, links);
    OldSlotShows(m, m', db, rec, links, key);
    RemoveRecordOk(db, rec);
  }

  lemma OldSlotShows(m: Index, m': Index, db: Db, rec: RecordId, links: seq<Link>, key: TargetKey)
    requires Inv(m') && IdsOk(db) && DidsCoupled(m'.dids, db.dids) && ReverseCoupled(m'.targets, db)
    requires rec.did in db.dids
    requires key in m.targets && key in m'.targets && key.collection == rec.collection
    requires Some(LinkerOf(rec)) in m.targets[key]
    requires m'.targets[key] == m.targets[key] + Copies(Some(LinkerOf(rec)), Occurrences(rec, links, key))
    requires FwdKey(db.dids[rec.did].id, rec.collection, rec.rkey) in db.fwd
    requires db.fwd[FwdKey(db.dids[rec.did].id, rec.collection, rec.rkey)] == EncodeLinks(rec, links, db.targetIds)
    requires forall i :: 0 <= i < |links| ==> KeyOf(rec, links[i]) in db.targetIds
    ensures LiveCount(ClearRecord(m', rec).targets[key]) <
              IdLiveCount(LinkersAt(RemoveRecord(db, rec), db.targetIds[key]))
  {
    var p :| 0 <= p < |m.targets[key]| && m.targets[key][p] == Some(LinkerOf(rec));
    StillThere(m.targets[key], db, rec, links, key, p);
    SlotShows(m', db, rec, key, p);
  }

  /** A slot of the record that its removal has left is counted by the store and not by the index. */
  lemma SlotShows(m: Index, db: Db, rec: RecordId, key: TargetKey, p: nat)
    requires Inv(m) && IdsOk(db) && DidsCoupled(m.dids, db.dids) && ReverseCoupled(m.targets, db)
    requires rec.did in db.dids && key in m.targets && key.collection == rec.collection
    requires var after := LinkersAt(RemoveRecord(db, rec), db.targetIds[key]);
             p < |after| && after[p] == IdSlot(db.dids[rec.did].id, rec.rkey)
    ensures LiveCount(ClearRecord(m, rec).targets[key]) <
              IdLiveCount(LinkersAt(RemoveRecord(db, rec), db.targetIds[key]))
  {
    var x, after := IdSlot(db.dids[rec.did].id, rec.rkey), LinkersAt(RemoveRecord(db, rec), db.targetIds[key]);
    RemovalLoses(db, rec, db.targetIds[key]);
    SlotWasRecords(m, db, rec, key, after, {x}, p);
    RecordClears(m, db, rec, key);
    SurvivorCounts(m.targets[key], ClearRecord(m, rec).targets[key], db.dids, after, {x}, p);
  }

  /** Whether or not the new links write the list again, the old slot stays. */
  lemma StillThere(slots: seq<Slot>, db: Db, rec: RecordId, links: seq<Link>, key: TargetKey, p: nat)
    requires IdsOk(db) && rec.did in db.dids && key in db.targetIds && p < |slots| && slots[p] == Some(LinkerOf(rec))
    requires LinkersAt(db, db.targetIds[key]) ==
               Encode(slots + Copies(Some(LinkerOf(rec)), Occurrences(rec, links, key)), db.dids)
    requires FwdKey(db.dids[rec.did].id, rec.collection, rec.rkey) in db.fwd
    requires db.fwd[FwdKey(db.dids[rec.did].id, rec.collection, rec.rkey)] == EncodeLinks(rec, links, db.targetIds)
    requires forall i :: 0 <= i < |links| ==> KeyOf(rec, links[i]) in db.targetIds
    ensures var after := LinkersAt(RemoveRecord(db, rec), db.targetIds[key]);
            p < |after| && after[p] == IdSlot(db.dids[rec.did].id, rec.rkey)
  {
    var x, tid := IdSlot(db.dids[rec.did].id, rec.rkey), db.targetIds[key];
    var f := FwdKey(db.dids[rec.did].id, rec.collection, rec.rkey);
    DropTargetsEffect(db, db, SlotOf(f), db.fwd[f], tid);
    var k := Occurrences(rec, links, key);
    assert (slots + Copies(Some(LinkerOf(rec)), k))[p] == Some(LinkerOf(rec));
    if Writes(db.fwd[f], tid) {
      WrittenAgain(rec, links, db, key);
      assert (slots + Copies(Some(LinkerOf(rec)), k))[|slots| + k - 1] == Some(LinkerOf(rec));
      OldOneStays(LinkersAt(db, tid), x, p, |slots|, k);
    }
  }

  lemma WrittenAgain(rec: RecordId, links: seq<Link>, db: Db, key: TargetKey)
    requires IdsOk(db) && key in db.targetIds && Writes(EncodeLinks(rec, links, db.targetIds), db.targetIds[key])
    requires forall i :: 0 <= i < |links| ==> KeyOf(rec, links[i]) in db.targetIds
    ensures Occurrences(rec, links, key) > 0
  {
    var targets := EncodeLinks(rec, links, db.targetIds);
    var a :| 0 <= a < |targets| && targets[a].id == db.targetIds[key];
    assert KeyOf(rec, links[a]) == key;
    OccursOnce(rec, links, a);
  }

  /** The last slot of the linker is a new one, so that is the one removed. */
  lemma OldOneStays(slots: seq<IdSlot>, x: IdSlot, p: nat, n: nat, k: nat)
    requires k > 0 && |slots| == n + k && p < n && slots[p] == x && slots[n + k - 1] == x
    ensures RemoveLinker(slots, x)[p] == x
  {
    assert slots[|slots| - 1] == x;
  }

  /* ---- an empty event from an unknown account ---- */

  /** After the account is deactivated, its first link is shown by the index and hidden by the store. */
  lemma EmptyShows(m: Index, r: Rocks, rec: RecordId, l: Link)
    requires rec.did !in m.dids && Wf(r) && rec.did in r.db.dids && !r.db.dids[rec.did].active
    ensures RocksLinks(AddRecord(r.db, r, rec, [l]).db, KeyOf(rec, l), 1, None).items == []
    ensures GetLinks(AddLinks(m, rec, [l]), KeyOf(rec, l), 1, None).items == [rec]
  {
    AddOne(m, rec, l);
    ShownByIndex(AddLink(m, rec, l), SlotsAt(m.targets, KeyOf(rec, l)), rec, l);
    HiddenByStore(r, rec, l);
  }

  lemma ShownByIndex(m: Index, before: seq<Slot>, rec: RecordId, l: Link)
    requires KeyOf(rec, l) in m.targets && m.targets[KeyOf(rec, l)] == before + [Some(LinkerOf(rec))]
    requires Active(m.dids, rec.did)
    ensures GetLinks(m, KeyOf(rec, l), 1, None).items == [rec]
  {
    var slots := m.targets[KeyOf(rec, l)];
    var last := slots[|slots| - 1..|slots|];
    assert last == [Some(LinkerOf(rec))] && last[..0] == [];
    assert LinkItems(m.dids, [], rec.collection) == [];
  }

  lemma HiddenByStore(r: Rocks, rec: RecordId, l: Link)
    requires Wf(r) && rec.did in r.db.dids && !r.db.dids[rec.did].active
    ensures RocksLinks(AddRecord(r.db, r, rec, [l]).db, KeyOf(rec, l), 1, None).items == []
  {
    var id, p, key := DidIdFor(r.db, r, rec.did), RegisterDid(r.db, r, rec.did), KeyOf(rec, l);
    assert [l][..0] == [];
    assert LinkAll(r.db, p, rec, id, []) == Linked(p, []);
    var one := LinkAll(r.db, p, rec, id, [l]);
    assert one.pend == LinkOne(r.db, p, rec, id, l);
    var db, tid := AddRecord(r.db, r, rec, [l]).db, TargetIdFor(r.db, p, key);
    LinkOneAt(r.db, p, rec, id, l, tid);
    assert key in db.targetIds ==> db.targetIds[key] == tid;
    var slots := LinkersAt(db, tid);
    LastHidden(db, slots, IdSlot(id, rec.rkey), key.collection);
  }

  lemma LastHidden(db: Db, slots: seq<IdSlot>, x: IdSlot, collection: string)
    requires slots != [] && slots[|slots| - 1] == x && Resolve(db, x, collection) == []
    ensures IdItems(db, slots[|slots| - 1..|slots|], collection) == []
  {
    var last := slots[|slots| - 1..|slots|];
    assert last == [x] && last[..0] == [];
    assert IdItems(db, [], collection) == [];
  }

  /* ---- every input that breaks the agreement ---- */

  /** At most two events, none of them an account deletion. */
  ghost predicate Short(more: seq<Input>) {
    |more| <= 2 && forall k :: 0 <= k < |more| ==> more[k].Deliver? && !more[k].e.DeleteAccount?
  }

  /** After an empty event from an unknown account, these two events tell the stores apart. */
  function TellApart(rec: RecordId): seq<Input> {
    [Deliver(DeactivateAccount(rec.did), []), Deliver(CreateLinks(rec, [Link("", "")]), [])]
  }

  lemma TellApartRun(m: Index, r: Rocks, rec: RecordId)
    ensures RunIndex(m, TellApart(rec)) == AddLinks(SetAccount(m, rec.did, false), rec, [Link("", "")])
    ensures RunRocks(r, TellApart(rec)) ==
            PushRocks(r.(db := SetActive(r.db, rec.did, false)), CreateLinks(rec, [Link("", "")]), [])
  {
    var more := TellApart(rec);
    assert more[1..] == [more[1]] && more[1..][1..] == [];
    var m1, r1 := StepIndex(m, more[0]), StepRocks(r, more[0]);
    assert RunIndex(m1, more[1..]) == StepIndex(m1, more[1]);
    assert RunRocks(r1, more[1..]) == StepRocks(r1, more[1]);
  }

  /** An empty event registers its account as active. */
  lemma Registered(read: Db, pend: Rocks, rec: RecordId)
    requires Wf(pend) && OnlyDropped(read, pend.db) && IdsOk(read)
    ensures Wf(AddRecord(read, pend, rec, [])) && rec.did in AddRecord(read, pend, rec, []).db.dids
  {
    RegisterDidOk(read, pend, rec.did);
    AddRecordOk(read, pend, rec, []);
    var p := RegisterDid(read, pend, rec.did);
    assert LinkAll(read, p, rec, DidIdFor(read, pend, rec.did), []) == Linked(p, []);
  }

  lemma EmptyEventShows(m: Index, r: Rocks, rec: RecordId) returns (key: TargetKey)
    requires Wf(r) && rec.did in r.db.dids && rec.did !in m.dids
    ensures ReadsDiffer(RunIndex(m, TellApart(rec)), RunRocks(r, TellApart(rec)).db, key)
  {
    var l := Link("", "");
    key := KeyOf(rec, l);
    TellApartRun(m, r, rec);
    var off := SwitchedOff(r, rec.did);
    EmptyShows(m, off, rec, l);
  }

  lemma SwitchedOff(r: Rocks, did: Did) returns (off: Rocks)
    requires Wf(r) && did in r.db.dids
    ensures off == r.(db := SetActive(r.db, did, false))
    ensures Wf(off) && did in off.db.dids && !off.db.dids[did].active
  {
    PushOk(r, DeactivateAccount(did), []);
    off := r.(db := SetActive(r.db, did, false));
  }

  lemma RunNothing(m: Index, r: Rocks)
    ensures RunIndex(m, []) == m && RunRocks(r, []) == r
  {
  }

  lemma RunOne(m: Index, r: Rocks, i: Input)
    ensures RunIndex(m, [i]) == StepIndex(m, i) && RunRocks(r, [i]) == StepRocks(r, i)
  {
    assert [i][1..] == [];
  }

  /** The stores differ after an empty event from an unknown account, and the two events that tell them apart. */
  lemma EmptyDiffers(read: Db, pend: Rocks, m: Index, rec: RecordId) returns (more: seq<Input>, key: TargetKey)
    requires Wf(pend) && OnlyDropped(read, pend.db) && IdsOk(read) && rec.did !in m.dids
    ensures Short(more) && ReadsDiffer(RunIndex(m, more), RunRocks(AddRecord(read, pend, rec, []), more).db, key)
  {
    more := TellApart(rec);
    Registered(read, pend, rec);
    key := EmptyEventShows(m, AddRecord(read, pend, rec, []), rec);
  }

  lemma OverwriteDiffers(m: Index, r: Rocks, rec: RecordId, links: seq<Link>) returns (more: seq<Input>, key: TargetKey)
    requires Inv(m) && Wf(r) && Coupled(m, r.db) && RepeatsKnown(m.targets, rec, links) && Forward(m, rec) != []
    ensures Short(more)
    ensures ReadsDiffer(RunIndex(AddLinks(m, rec, links), more), RunRocks(AddRecord(r.db, r, rec, links), more).db, key)
  {
    more := [Deliver(DeleteRecord(rec), [])];
    key := OverwriteShows(m, r, rec, links);
    RunOne(AddLinks(m, rec, links), AddRecord(r.db, r, rec, links), more[0]);
  }

  lemma RepeatDiffers(m: Index, read: Db, pend: Rocks, rec: RecordId, links: seq<Link>)
    returns (more: seq<Input>, key: TargetKey)
    requires Wf(pend) && OnlyDropped(read, pend.db) && IdsOk(read) && m.targets.Keys == read.targetIds.Keys
    requires !RepeatsKnown(m.targets, rec, links)
    ensures Short(more)
    ensures ReadsDiffer(RunIndex(AddLinks(m, rec, links), more), RunRocks(AddRecord(read, pend, rec, links), more).db,
                        key)
  {
    more := [];
    key := RepeatShows(m, read, pend, rec, links);
    RunNothing(AddLinks(m, rec, links), AddRecord(read, pend, rec, links));
  }

  lemma CreateDiffers(m: Index, r: Rocks, rec: RecordId, links: seq<Link>) returns (more: seq<Input>, key: TargetKey)
    requires Inv(m) && Wf(r) && Coupled(m, r.db) && !AddOk(m, rec, links)
    ensures Short(more)
    ensures ReadsDiffer(RunIndex(AddLinks(m, rec, links), more), RunRocks(AddRecord(r.db, r, rec, links), more).db, key)
  {
    if !RepeatsKnown(m.targets, rec, links) {
      more, key := RepeatDiffers(m, r.db, r, rec, links);
    } else if Forward(m, rec) != [] {
      more, key := OverwriteDiffers(m, r, rec, links);
    } else {
      more, key := EmptyDiffers(r.db, r, m, rec);
    }
  }

  lemma RepeatedForwardDiffers(m: Index, r: Rocks, rec: RecordId, links: seq<Link>)
    returns (more: seq<Input>, key: TargetKey)
    requires Inv(m) && Wf(r) && Coupled(m, r.db) && !Distinct(Forward(m, rec))
    ensures var m1 := AddLinks(ClearRecord(m, rec), rec, links);
            var r1 := AddRecord(r.db, r.(db := RemoveRecord(r.db, rec)), rec, links);
            Short(more) && ReadsDiffer(RunIndex(m1, more), RunRocks(r1, more).db, key)
  {
    more := [];
    key := UpdateShows(m, r, rec, links);
    RunNothing(AddLinks(ClearRecord(m, rec), rec, links),
               AddRecord(r.db, r.(db := RemoveRecord(r.db, rec)), rec, links));
  }

  lemma UpdateDiffers(m: Index, r: Rocks, rec: RecordId, links: seq<Link>) returns (more: seq<Input>, key: TargetKey)
    requires Inv(m) && Wf(r) && Coupled(m, r.db) && !Agreeable(m, UpdateLinks(rec, links), [])
    ensures var m1 := AddLinks(ClearRecord(m, rec), rec, links);
            var r1 := AddRecord(r.db, r.(db := RemoveRecord(r.db, rec)), rec, links);
            Short(more) && ReadsDiffer(RunIndex(m1, more), RunRocks(r1, more).db, key)
  {
    if !Distinct(Forward(m, rec)) {
      more, key := RepeatedForwardDiffers(m, r, rec, links);
    } else {
      RemoveRecordOk(r.db, rec);
      if !RepeatsKnown(m.targets, rec, links) {
        more, key := RepeatDiffers(ClearRecord(m, rec), r.db, r.(db := RemoveRecord(r.db, rec)), rec, links);
      } else {
        more, key := EmptyDiffers(r.db, r.(db := RemoveRecord(r.db, rec)), ClearRecord(m, rec), rec);
      }
    }
  }

  lemma CountDiffers(m: Index, db: Db, key: TargetKey, slots: seq<Slot>, ids: seq<IdSlot>)
    requires key in m.targets && m.targets[key] == slots && key in db.targetIds
    requires LinkersAt(db, db.targetIds[key]) == ids
    requires LiveCount(slots) < IdLiveCount(ids)
    ensures ReadsDiffer(m, db, key)
  {
  }

  lemma DeleteDiffers(m: Index, r: Rocks, rec: RecordId) returns (key: TargetKey)
    requires Inv(m) && Wf(r) && Coupled(m, r.db) && !Distinct(Forward(m, rec))
    ensures ReadsDiffer(ClearRecord(m, rec), RemoveRecord(r.db, rec), key)
  {
    key := RemovalShows(m, r.db, rec);
    RemoveRecordOk(r.db, rec);
    CountDiffers(ClearRecord(m, rec), RemoveRecord(r.db, rec), key, ClearRecord(m, rec).targets[key],
                 LinkersAt(RemoveRecord(r.db, rec), r.db.targetIds[key]));
  }

  lemma AccountDiffers(m: Index, r: Rocks, did: Did, scan: seq<FwdEntry>) returns (key: TargetKey)
    requires Inv(m) && Wf(r) && Coupled(m, r.db) && ScanFor(r.db, DeleteAccount(did), scan)
    requires did in m.dids && !ChunksOk(m, RecordsOf(did, scan))
    ensures ReadsDiffer(ClearAccount(m, did), RemoveAccount(r.db, did, scan), key)
  {
    AccountRecordsCover(m, r.db, did, scan);
    key := AccountShows(m, r.db, did, scan);
    DropChunksOk(r.db, scan);
    CountDiffers(ClearAccount(m, did), RemoveAccount(r.db, did, scan), key, ClearAccount(m, did).targets[key],
                 LinkersAt(DropChunks(r.db, scan), r.db.targetIds[key]));
  }

  lemma CrashStep(m: Index, r: Rocks, did: Did, scan: seq<FwdEntry>, chunks: nat)
    requires did in m.dids && DidsCoupled(m.dids, r.db.dids)
    ensures StepIndex(m, Crash(did, scan, chunks)) ==
              ClearRecords(m, SetOf(RecordsOf(did, CommittedChunks(scan, chunks))))
    ensures StepRocks(r, Crash(did, scan, chunks)).db == DropChunks(r.db, CommittedChunks(scan, chunks))
  {
  }

  lemma CrashDiffers(m: Index, r: Rocks, did: Did, scan: seq<FwdEntry>, chunks: nat) returns (key: TargetKey)
    requires Inv(m) && Wf(r) && Coupled(m, r.db) && ScanFor(r.db, DeleteAccount(did), scan)
    requires did in m.dids && !ChunksOk(m, RecordsOf(did, CommittedChunks(scan, chunks)))
    ensures ReadsDiffer(StepIndex(m, Crash(did, scan, chunks)), StepRocks(r, Crash(did, scan, chunks)).db, key)
  {
    PartOfScan(r.db, did, scan, chunks);
    CrashStep(m, r, did, scan, chunks);
    key := PartDiffers(m, r.db, did, CommittedChunks(scan, chunks));
  }

  lemma PartDiffers(m: Index, db: Db, did: Did, part: seq<FwdEntry>) returns (key: TargetKey)
    requires Inv(m) && IdsOk(db) && Coupled(m, db) && EntriesFor(db, did, part) && OnlyDropped(db, DropChunks(db, part))
    requires !ChunksOk(m, RecordsOf(did, part))
    ensures ReadsDiffer(ClearRecords(m, SetOf(RecordsOf(did, part))), DropChunks(db, part), key)
  {
    key := CrashShows(m, db, did, part);
    var m' := ClearRecords(m, SetOf(RecordsOf(did, part)));
    CountDiffers(m', DropChunks(db, part), key, m'.targets[key], LinkersAt(DropChunks(db, part), db.targetIds[key]));
  }

  /**
  From coupled stores, after any input that is not agreeable, some continuation of
  at most two events, none of them an account deletion, makes a read differ.
  */
  lemma DisagreementShows(m: Index, r: Rocks, i: Input) returns (more: seq<Input>, key: TargetKey)
    requires Inv(m) && Wf(r) && Coupled(m, r.db) && CanTake(r, i) && !AgreeableInput(m, i)
    ensures Short(more)
    ensures ReadsDiffer(RunIndex(StepIndex(m, i), more), RunRocks(StepRocks(r, i), more).db, key)
  {
    more := [];
    RunNothing(StepIndex(m, i), StepRocks(r, i));
    match i
    case Crash(did, scan, chunks) => key := CrashDiffers(m, r, did, scan, chunks);
    case Deliver(e, scan) =>
      match e
      case CreateLinks(rec, links) => more, key := CreateDiffers(m, r, rec, links);
      case UpdateLinks(rec, links) => more, key := UpdateDiffers(m, r, rec, links);
      case DeleteRecord(rec) => key := DeleteDiffers(m, r, rec);
      case DeleteAccount(did) => key := AccountDiffers(m, r, did, scan);
  }

  /** The first input of a run that is not agreeable can be told from the outside. */
  lemma RunDisagreementShows(inputs: seq<Input>, i: Input) returns (more: seq<Input>, key: TargetKey)
    requires AgreeableRun(EMPTY, Open(EMPTY_DB), inputs)
    requires var m, r := RunIndex(EMPTY, inputs), RunRocks(Open(EMPTY_DB), inputs);
             CanTake(r, i) && !AgreeableInput(m, i)
    ensures var m, r := RunIndex(EMPTY, inputs), RunRocks(Open(EMPTY_DB), inputs);
            Short(more) && ReadsDiffer(RunIndex(StepIndex(m, i), more), RunRocks(StepRocks(r, i), more).db, key)
  {
    StartCoupled();
    RunAgreesFrom(EMPTY, Open(EMPTY_DB), inputs);
    more, key := DisagreementShows(RunIndex(EMPTY, inputs), RunRocks(Open(EMPTY_DB), inputs), i);
  }
}
