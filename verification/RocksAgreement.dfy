/** The RocksDB store against the plain index, event by event and over whole runs. */
module RocksAgreement {
  import opened Options
  import opened LinkIndex
  import opened RocksIndex
  import opened RocksIds
  import opened RocksRefinement
  import opened RocksRemoval
  import opened RocksCrash
  import opened RocksAdding
  import opened LinkReads

  /** What a caller can check before an event; it is exactly what keeps the two stores in step. */
  ghost predicate Agreeable(m: Index, e: Event, scan: seq<FwdEntry>) {
    match e
    case CreateLinks(rec, links) => AddOk(m, rec, links)
    case UpdateLinks(rec, links) =>
      && Distinct(Forward(m, rec)) && RepeatsKnown(m.targets, rec, links)
      && (links == [] ==> rec.did in m.dids)
    case DeleteRecord(rec) => Distinct(Forward(m, rec))
    case ActivateAccount(_) => true
    case DeactivateAccount(_) => true
    case DeleteAccount(did) => did in m.dids ==> ChunksOk(m, RecordsOf(did, scan))
  }

  lemma SetAccountAgrees(m: Index, db: Db, did: Did, active: bool)
    requires Inv(m) && Coupled(m, db)
    ensures Coupled(SetAccount(m, did, active), SetActive(db, did, active))
  {
    var m', db' := SetAccount(m, did, active), SetActive(db, did, active);
    forall key | key in m.targets ensures Encode(m.targets[key], db'.dids) == Encode(m.targets[key], db.dids) {
    }
    forall rec ensures ForwardCoupled(m', db', rec) {
      assert ForwardCoupled(m, db, rec);
    }
  }

  /** Adding links leaves earlier slots in place, in the store and in the index. */
  lemma AddingKeepsSlots(m: Index, read: Db, pend: Rocks, rec: RecordId, links: seq<Link>, key: TargetKey)
    requires Wf(pend) && OnlyDropped(read, pend.db) && IdsOk(read) && rec.did in read.dids && key in m.targets
    requires key in read.targetIds
    ensures var a, db := AddLinks(m, rec, links), AddRecord(read, pend, rec, links).db;
            && key in a.targets && m.targets[key] <= a.targets[key]
            && key in db.targetIds && db.targetIds[key] == read.targetIds[key]
            && LinkersAt(pend.db, read.targetIds[key]) <= LinkersAt(db, read.targetIds[key])
            && db.dids == read.dids
  {
    var id, p := DidIdFor(read, pend, rec.did), RegisterDid(read, pend, rec.did);
    AddLinksKeys(m, rec, links);
    AddLinksAppends(m, rec, links, key);
    AddRecordOk(read, pend, rec, links);
    RegisterDidOk(read, pend, rec.did);
    LinkAllAppends(read, p, rec, id, links, read.targetIds[key]);
    LinkAllOk(read, p, rec, id, links);
  }

  /** A slot the removal left behind stays where it is while links are added. */
  lemma LingeringDisagrees(m: Index, r: Rocks, rec: RecordId, links: seq<Link>)
    requires Inv(m) && Wf(r) && Coupled(m, r.db) && Lingers(m, r.db, RemoveRecord(r.db, rec), rec)
    ensures !Coupled(AddLinks(ClearRecord(m, rec), rec, links),
                     AddRecord(r.db, r.(db := RemoveRecord(r.db, rec)), rec, links).db)
  {
    var mid := r.(db := RemoveRecord(r.db, rec));
    var a, db := AddLinks(ClearRecord(m, rec), rec, links), AddRecord(r.db, mid, rec, links).db;
    var key, p :|
      && key in m.targets && key in r.db.targetIds && key.collection == rec.collection
      && 0 <= p < |m.targets[key]| == |LinkersAt(mid.db, r.db.targetIds[key])|
      && LinkersAt(mid.db, r.db.targetIds[key])[p] == IdSlot(r.db.dids[rec.did].id, rec.rkey);
    RemoveRecordOk(r.db, rec);
    NoSuchSlot(m, r.db, rec, key, p);
    AddingKeepsSlots(ClearRecord(m, rec), r.db, mid, rec, links, key);
    assert Encode(a.targets[key], db.dids)[p] != LinkersAt(db, db.targetIds[key])[p];
  }

  lemma UpdateAgrees(m: Index, r: Rocks, rec: RecordId, links: seq<Link>)
    requires Inv(m) && Wf(r) && Coupled(m, r.db)
    ensures Coupled(Push(m, UpdateLinks(rec, links)), PushRocks(r, UpdateLinks(rec, links), []).db)
       <==> Agreeable(m, UpdateLinks(rec, links), [])
  {
    RemoveRecordAgrees(m, r.db, rec);
    if Distinct(Forward(m, rec)) {
      ClearRecordKeepsInv(m, rec);
      RemoveRecordOk(r.db, rec);
      AddRecordAgrees(ClearRecord(m, rec), r.db, r.(db := RemoveRecord(r.db, rec)), rec, links);
    } else {
      LingeringDisagrees(m, r, rec, links);
    }
  }

  /** For coupled stores and any event: still coupled afterwards exactly when the event is `Agreeable`. */
  lemma PushAgrees(m: Index, r: Rocks, e: Event, scan: seq<FwdEntry>)
    requires Inv(m) && Wf(r) && Coupled(m, r.db) && ScanFor(r.db, e, scan)
    ensures Coupled(Push(m, e), PushRocks(r, e, scan).db) <==> Agreeable(m, e, scan)
  {
    match e
    case CreateLinks(rec, links) => AddRecordAgrees(m, r.db, r, rec, links);
    case UpdateLinks(rec, links) => UpdateAgrees(m, r, rec, links);
    case DeleteRecord(rec) => RemoveRecordAgrees(m, r.db, rec);
    case ActivateAccount(did) => SetAccountAgrees(m, r.db, did, true);
    case DeactivateAccount(did) => SetAccountAgrees(m, r.db, did, false);
    case DeleteAccount(did) => RemoveAccountAgrees(m, r.db, did, scan);
  }

  /* ---- runs ---- */

  /** An event, a restart, or a crash in the middle of an account deletion after some committed mini batches. */
  datatype Input = Deliver(e: Event, scan: seq<FwdEntry>) | Reopen | Crash(did: Did, scan: seq<FwdEntry>, chunks: nat)

  /** A crashed deletion has removed the records of its committed chunks and nothing else. */
  ghost function StepIndex(m: Index, i: Input): Index {
    match i
    case Deliver(e, _) => Push(m, e)
    case Reopen => m
    case Crash(did, scan, chunks) =>
      if did in m.dids then ClearRecords(m, SetOf(RecordsOf(did, CommittedChunks(scan, chunks)))) else m
  }

  function StepRocks(r: Rocks, i: Input): Rocks {
    match i
    case Deliver(e, scan) => PushRocks(r, e, scan)
    case Reopen => Open(r.db)
    case Crash(did, scan, chunks) => Take(r, CrashDeleting(did, scan, chunks))
  }

  ghost predicate CanTake(r: Rocks, i: Input) {
    match i
    case Deliver(e, scan) => ScanFor(r.db, e, scan)
    case Reopen => true
    case Crash(did, scan, _) => ScanFor(r.db, DeleteAccount(did), scan)
  }

  ghost predicate AgreeableInput(m: Index, i: Input) {
    match i
    case Deliver(e, scan) => Agreeable(m, e, scan)
    case Reopen => true
    case Crash(did, scan, chunks) => did in m.dids ==> ChunksOk(m, RecordsOf(did, CommittedChunks(scan, chunks)))
  }

  /** Delivering the deletion again after a crash means what it meant the first time. */
  lemma CrashThenDelete(m: Index, did: Did, scan: seq<FwdEntry>, chunks: nat)
    ensures Push(StepIndex(m, Crash(did, scan, chunks)), DeleteAccount(did)) == Push(m, DeleteAccount(did))
  {
    if did in m.dids {
      ClearPartThenAll(m, did, SetOf(RecordsOf(did, CommittedChunks(scan, chunks))));
    }
  }

  /** For coupled stores and any input: still coupled afterwards exactly when it is agreeable. */
  lemma InputAgrees(m: Index, r: Rocks, i: Input)
    requires Inv(m) && Wf(r) && Coupled(m, r.db) && CanTake(r, i)
    ensures Inv(StepIndex(m, i)) && Wf(StepRocks(r, i))
    ensures Coupled(StepIndex(m, i), StepRocks(r, i).db) <==> AgreeableInput(m, i)
  {
    match i
    case Deliver(e, scan) =>
      PushKeepsInv(m, e);
      PushOk(r, e, scan);
      PushAgrees(m, r, e, scan);
    case Reopen =>
    case Crash(did, scan, chunks) => CrashInputAgrees(m, r, did, scan, chunks);
  }

  lemma CrashInputAgrees(m: Index, r: Rocks, did: Did, scan: seq<FwdEntry>, chunks: nat)
    requires Inv(m) && Wf(r) && Coupled(m, r.db) && ScanFor(r.db, DeleteAccount(did), scan)
    ensures var i := Crash(did, scan, chunks);
            && Inv(StepIndex(m, i)) && Wf(StepRocks(r, i))
            && (Coupled(StepIndex(m, i), StepRocks(r, i).db) <==> AgreeableInput(m, i))
  {
    TakeOk(r, CrashDeleting(did, scan, chunks));
    if did in m.dids {
      CrashAgrees(m, r.db, did, scan, chunks);
      ClearRecordsKeepsInv(m, SetOf(RecordsOf(did, CommittedChunks(scan, chunks))));
    }
  }

  ghost function RunIndex(m: Index, inputs: seq<Input>): Index
    decreases |inputs|
  {
    if inputs == [] then m else RunIndex(StepIndex(m, inputs[0]), inputs[1..])
  }

  function RunRocks(r: Rocks, inputs: seq<Input>): Rocks
    decreases |inputs|
  {
    if inputs == [] then r else RunRocks(StepRocks(r, inputs[0]), inputs[1..])
  }

  ghost predicate AgreeableRun(m: Index, r: Rocks, inputs: seq<Input>)
    decreases |inputs|
  {
    inputs == [] ||
    (CanTake(r, inputs[0]) && AgreeableInput(m, inputs[0])
     && AgreeableRun(StepIndex(m, inputs[0]), StepRocks(r, inputs[0]), inputs[1..]))
  }

  lemma {:induction false} RunAgreesFrom(m: Index, r: Rocks, inputs: seq<Input>)
    requires Inv(m) && Wf(r) && Coupled(m, r.db) && AgreeableRun(m, r, inputs)
    ensures Inv(RunIndex(m, inputs)) && Wf(RunRocks(r, inputs)) && Coupled(RunIndex(m, inputs), RunRocks(r, inputs).db)
    decreases |inputs|
  {
    if inputs != [] {
      InputAgrees(m, r, inputs[0]);
      RunAgreesFrom(StepIndex(m, inputs[0]), StepRocks(r, inputs[0]), inputs[1..]);
    }
  }

  lemma StartCoupled()
    ensures Inv(EMPTY) && Wf(Open(EMPTY_DB)) && Coupled(EMPTY, EMPTY_DB)
  {
    RunKeepsInv([]);
    forall rec ensures ForwardCoupled(EMPTY, EMPTY_DB, rec) {
    }
  }

  /** RocksDB refines the in-memory store: after any agreeable run, restarts and crashes included, all reads agree. */
  lemma RunAgrees(inputs: seq<Input>, key: TargetKey, limit: nat, until: Option<nat>)
    requires AgreeableRun(EMPTY, Open(EMPTY_DB), inputs)
    ensures var m, db := RunIndex(EMPTY, inputs), RunRocks(Open(EMPTY_DB), inputs).db;
            && RocksCount(db, key) == GetCount(m, key)
            && RocksDistinctDidCount(db, key) == GetDistinctDidCount(m, key)
            && RocksLinks(db, key, limit, until) == GetLinks(m, key, limit, until)
            && RocksDistinctDids(db, key, limit, until) == GetDistinctDids(m, key, limit, until)
            && RocksAllCounts(db, key.target) == GetAllCounts(m, key.target)
  {
    StartCoupled();
    RunAgreesFrom(EMPTY, Open(EMPTY_DB), inputs);
    var m, db := RunIndex(EMPTY, inputs), RunRocks(Open(EMPTY_DB), inputs).db;
    SameReads(m, db, key, limit, until);
    SameAllCounts(m, db, key.target);
  }

  /* ---- a condition on the events alone, account deletions aside ---- */

  ghost predicate DistinctForward(m: Index) {
    forall rec :: Distinct(Forward(m, rec))
  }

  /** Distinct links in an event, creates of unlinked records only, and no empty event from an unknown account. */
  ghost predicate WellBehaved(m: Index, e: Event, scan: seq<FwdEntry>) {
    match e
    case CreateLinks(rec, links) => Distinct(links) && Forward(m, rec) == [] && (links == [] ==> rec.did in m.dids)
    case UpdateLinks(rec, links) => Distinct(links) && (links == [] ==> rec.did in m.dids)
    case DeleteAccount(did) => did in m.dids ==> ChunksOk(m, RecordsOf(did, scan))
    case _ => true
  }

  ghost predicate WellBehavedRun(m: Index, r: Rocks, inputs: seq<Input>)
    decreases |inputs|
  {
    inputs == [] ||
    (CanTake(r, inputs[0])
     && (if inputs[0].Deliver? then WellBehaved(m, inputs[0].e, inputs[0].scan) else AgreeableInput(m, inputs[0]))
     && WellBehavedRun(StepIndex(m, inputs[0]), StepRocks(r, inputs[0]), inputs[1..]))
  }

  lemma WellBehavedKeepsDistinct(m: Index, e: Event, scan: seq<FwdEntry>)
    requires DistinctForward(m) && WellBehaved(m, e, scan)
    ensures DistinctForward(Push(m, e)) && Agreeable(m, e, scan)
  {
    forall rec ensures Distinct(Forward(Push(m, e), rec)) {
      assert Distinct(Forward(m, rec));
      ForwardAfter(m, e, rec);
      if e.CreateLinks? || e.UpdateLinks? {
        assert [] + e.links == e.links;
      }
    }
  }

  lemma OthersKeepDistinct(m: Index, i: Input)
    requires DistinctForward(m) && !i.Deliver?
    ensures DistinctForward(StepIndex(m, i))
  {
    forall rec ensures Distinct(Forward(StepIndex(m, i), rec)) {
      assert Distinct(Forward(m, rec));
      assert Forward(StepIndex(m, i), rec) == Forward(m, rec) || Forward(StepIndex(m, i), rec) == [];
    }
  }

  /** A record's forward links after an event are its own new ones, what it had, or nothing. */
  lemma ForwardAfter(m: Index, e: Event, rec: RecordId)
    ensures Forward(Push(m, e), rec) ==
      match e {
        case CreateLinks(r, links) => if rec == r then Forward(m, r) + links else Forward(m, rec)
        case UpdateLinks(r, links) => if rec == r then [] + links else Forward(m, rec)
        case DeleteRecord(r) => if rec == r then [] else Forward(m, rec)
        case DeleteAccount(did) => if rec.did == did then [] else Forward(m, rec)
        case _ => Forward(m, rec)
      }
  {
    match e
    case CreateLinks(r, links) => AddLinksForward(m, r, links, rec);
    case UpdateLinks(r, links) => AddLinksForward(ClearRecord(m, r), r, links, rec);
    case _ =>
  }

  lemma {:induction false} WellBehavedAgrees(m: Index, r: Rocks, inputs: seq<Input>)
    requires DistinctForward(m) && WellBehavedRun(m, r, inputs)
    ensures AgreeableRun(m, r, inputs)
    decreases |inputs|
  {
    if inputs != [] {
      if inputs[0].Deliver? {
        WellBehavedKeepsDistinct(m, inputs[0].e, inputs[0].scan);
      } else {
        OthersKeepDistinct(m, inputs[0]);
      }
      WellBehavedAgrees(StepIndex(m, inputs[0]), StepRocks(r, inputs[0]), inputs[1..]);
    }
  }
}
