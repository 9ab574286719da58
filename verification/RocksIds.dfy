/**
Id allocation: in every run, with any events, restarts and crashes in the middle
of an account deletion, an id names at most one key for ever.
*/
module RocksIds {
  import opened LinkIndex
  import opened RocksIndex

  ghost predicate DidsOk(dids: map<Did, DidVal>, origs: map<nat, Did>, bound: nat) {
    && (forall d :: d in dids ==> dids[d].id in origs && origs[dids[d].id] == d)
    && (forall i :: i in origs ==> 0 < i <= bound)
  }

  ghost predicate TargetsOk(ids: map<TargetKey, nat>, bound: nat) {
    && (forall k :: k in ids ==> 0 < ids[k] <= bound)
    && (forall k, k' :: k in ids && k' in ids && ids[k] == ids[k'] ==> k == k')
  }

  ghost predicate SlotsOk(slots: seq<IdSlot>, didBound: nat) {
    forall i :: 0 <= i < |slots| ==> slots[i].did <= didBound
  }

  ghost predicate LinkersOk(linkers: map<nat, seq<IdSlot>>, didBound: nat, targetBound: nat) {
    forall t :: t in linkers ==> 0 < t <= targetBound && SlotsOk(linkers[t], didBound)
  }

  ghost predicate FwdTargetsOk(targets: seq<FwdTarget>, targetBound: nat) {
    forall i :: 0 <= i < |targets| ==> 0 < targets[i].id <= targetBound
  }

  ghost predicate FwdOk(fwd: map<FwdKey, seq<FwdTarget>>, didBound: nat, targetBound: nat) {
    forall f :: f in fwd ==> 0 < f.did <= didBound && FwdTargetsOk(fwd[f], targetBound)
  }

  /** Every id in use is nonzero, below the stored sequence, and names one key. */
  ghost predicate IdsOk(db: Db) {
    && DidsOk(db.dids, db.origs, Stored(db.didSeq))
    && TargetsOk(db.targetIds, Stored(db.targetSeq))
    && LinkersOk(db.linkers, Stored(db.didSeq), Stored(db.targetSeq))
    && FwdOk(db.fwd, Stored(db.didSeq), Stored(db.targetSeq))
  }

  /** The in-memory sequences never fall behind the stored ones. */
  ghost predicate Wf(r: Rocks) {
    && IdsOk(r.db)
    && Stored(r.db.didSeq) <= r.didSeq
    && Stored(r.db.targetSeq) <= r.targetSeq
  }

  ghost predicate OrigsGrow(a: map<nat, Did>, aSeq: nat, b: map<nat, Did>, bSeq: nat) {
    && aSeq <= bSeq
    && (forall i :: i in a ==> i in b && b[i] == a[i])
    && (forall i :: i in b && i !in a ==> aSeq < i <= bSeq)
  }

  ghost predicate TargetIdsGrow(a: map<TargetKey, nat>, aSeq: nat, b: map<TargetKey, nat>, bSeq: nat) {
    && aSeq <= bSeq
    && (forall k :: k in a ==> k in b && b[k] == a[k])
    && (forall k :: k in b && k !in a ==> aSeq < b[k] <= bSeq)
  }

  /** Nothing an id was ever given to is rebound, and every new id is above all earlier ones. */
  ghost predicate Grows(a: Db, b: Db) {
    && OrigsGrow(a.origs, Stored(a.didSeq), b.origs, Stored(b.didSeq))
    && TargetIdsGrow(a.targetIds, Stored(a.targetSeq), b.targetIds, Stored(b.targetSeq))
  }

  lemma GrowsTrans(a: Db, b: Db, c: Db)
    requires Grows(a, b) && Grows(b, c)
    ensures Grows(a, c)
  {
  }

  lemma BoundsGrow(linkers: map<nat, seq<IdSlot>>, fwd: map<FwdKey, seq<FwdTarget>>, d: nat, t: nat, d': nat, t': nat)
    requires LinkersOk(linkers, d, t) && FwdOk(fwd, d, t) && d <= d' && t <= t'
    ensures LinkersOk(linkers, d', t') && FwdOk(fwd, d', t')
  {
  }

  lemma AllocateDid(dids: map<Did, DidVal>, origs: map<nat, Did>, bound: nat, did: Did, id: nat)
    requires DidsOk(dids, origs, bound) && bound < id
    ensures DidsOk(dids[did := DidVal(id, true)], origs[id := did], id)
    ensures OrigsGrow(origs, bound, origs[id := did], id)
  {
    var dids', origs' := dids[did := DidVal(id, true)], origs[id := did];
    forall d | d in dids' ensures dids'[d].id in origs' && origs'[dids'[d].id] == d {
      if d != did {
        assert origs[dids[d].id] == d;
      }
    }
  }

  lemma RegisterDidOk(read: Db, pend: Rocks, did: Did)
    requires Wf(pend) && read.dids == pend.db.dids
    ensures var p := RegisterDid(read, pend, did);
            && Wf(p) && Grows(pend.db, p.db)
            && did in p.db.dids && p.db.dids[did].id == DidIdFor(read, pend, did)
            && 0 < DidIdFor(read, pend, did) <= Stored(p.db.didSeq)
  {
    var p := RegisterDid(read, pend, did);
    BoundsGrow(pend.db.linkers, pend.db.fwd, Stored(pend.db.didSeq), Stored(pend.db.targetSeq), Stored(p.db.didSeq),
               Stored(p.db.targetSeq));
    if did in read.dids {
      assert p.db.origs == pend.db.origs;
    } else {
      AllocateDid(pend.db.dids, pend.db.origs, Stored(pend.db.didSeq), did, pend.didSeq + 1);
    }
  }

  lemma AllocateTarget(ids: map<TargetKey, nat>, bound: nat, key: TargetKey, tid: nat)
    requires TargetsOk(ids, bound) && bound < tid
    ensures TargetsOk(ids[key := tid], tid)
  {
  }

  lemma LinkOneOk(read: Db, pend: Rocks, rec: RecordId, id: nat, l: Link)
    requires Wf(pend) && Grows(read, pend.db) && 0 < id <= Stored(pend.db.didSeq)
    ensures var p := LinkOne(read, pend, rec, id, l);
            && Wf(p) && Grows(read, p.db)
            && 0 < TargetIdFor(read, pend, KeyOf(rec, l)) <= Stored(p.db.targetSeq)
            && Stored(pend.db.targetSeq) <= Stored(p.db.targetSeq)
  {
    var p := LinkOne(read, pend, rec, id, l);
    var key := KeyOf(rec, l);
    var tid := TargetIdFor(read, pend, key);
    assert 0 < tid <= Stored(p.db.targetSeq);
    BoundsGrow(pend.db.linkers, pend.db.fwd, Stored(pend.db.didSeq), Stored(pend.db.targetSeq), Stored(p.db.didSeq),
               Stored(p.db.targetSeq));
    if key !in read.targetIds {
      AllocateTarget(pend.db.targetIds, Stored(pend.db.targetSeq), key, tid);
    }
    assert LinkersOk(p.db.linkers, Stored(p.db.didSeq), Stored(p.db.targetSeq)) by {
      assert SlotsOk(LinkersAt(pend.db, tid), Stored(p.db.didSeq));
      assert SlotsOk(p.db.linkers[tid], Stored(p.db.didSeq));
    }
  }

  lemma {:induction false} LinkAllOk(read: Db, pend: Rocks, rec: RecordId, id: nat, links: seq<Link>)
    requires Wf(pend) && Grows(read, pend.db) && 0 < id <= Stored(pend.db.didSeq)
    ensures var r := LinkAll(read, pend, rec, id, links);
            && Wf(r.pend) && Grows(read, r.pend.db)
            && FwdTargetsOk(r.targets, Stored(r.pend.db.targetSeq))
            && r.pend.db.dids == pend.db.dids && r.pend.db.didSeq == pend.db.didSeq
            && r.pend.db.origs == pend.db.origs && r.pend.db.fwd == pend.db.fwd
  {
    if links != [] {
      LinkAllOk(read, pend, rec, id, links[..|links| - 1]);
      var r := LinkAll(read, pend, rec, id, links[..|links| - 1]);
      LinkOneOk(read, r.pend, rec, id, links[|links| - 1]);
    }
  }

  lemma AddRecordOk(read: Db, pend: Rocks, rec: RecordId, links: seq<Link>)
    requires Wf(pend) && Grows(read, pend.db) && read.dids == pend.db.dids
    ensures Wf(AddRecord(read, pend, rec, links)) && Grows(read, AddRecord(read, pend, rec, links).db)
  {
    var p := RegisterDid(read, pend, rec.did);
    RegisterDidOk(read, pend, rec.did);
    GrowsTrans(read, pend.db, p.db);
    LinkAllOk(read, p, rec, DidIdFor(read, pend, rec.did), links);
  }

  /** Dropping entries touches reverse lists and forward entries only. */
  ghost predicate OnlyDropped(a: Db, b: Db) {
    b == a.(linkers := b.linkers, fwd := b.fwd)
  }

  lemma RemoveLinkerBound(slots: seq<IdSlot>, x: IdSlot, bound: nat)
    requires SlotsOk(slots, bound)
    ensures SlotsOk(RemoveLinker(slots, x), bound)
  {
  }

  lemma {:induction false} DropTargetsOk(read: Db, pend: Db, x: IdSlot, targets: seq<FwdTarget>)
    requires IdsOk(read) && IdsOk(pend) && OnlyDropped(read, pend)
    requires FwdTargetsOk(targets, Stored(read.targetSeq))
    ensures IdsOk(DropTargets(read, pend, x, targets))
    ensures DropTargets(read, pend, x, targets) == pend.(linkers := DropTargets(read, pend, x, targets).linkers)
  {
    if targets != [] {
      DropTargetsOk(read, pend, x, targets[..|targets| - 1]);
      RemoveLinkerBound(LinkersAt(read, targets[|targets| - 1].id), x, Stored(read.didSeq));
    }
  }

  ghost predicate EntriesOf(db: Db, entries: seq<FwdEntry>) {
    forall i :: 0 <= i < |entries| ==> entries[i].key in db.fwd && entries[i].targets == db.fwd[entries[i].key]
  }

  ghost function KeysOf(entries: seq<FwdEntry>): set<FwdKey> {
    set i | 0 <= i < |entries| :: entries[i].key
  }

  lemma {:induction false} DropAllOk(read: Db, entries: seq<FwdEntry>)
    requires IdsOk(read) && EntriesOf(read, entries)
    ensures IdsOk(DropAll(read, read, entries)) && OnlyDropped(read, DropAll(read, read, entries))
    ensures DropAll(read, read, entries).fwd == read.fwd - KeysOf(entries)
  {
    if entries != [] {
      var n := |entries| - 1;
      DropAllOk(read, entries[..n]);
      var p := DropAll(read, read, entries[..n]);
      DropTargetsOk(read, p, SlotOf(entries[n].key), entries[n].targets);
      assert KeysOf(entries) == KeysOf(entries[..n]) + {entries[n].key};
      assert read.fwd - KeysOf(entries) == (read.fwd - KeysOf(entries[..n])) - {entries[n].key};
    }
  }

  lemma {:induction false} DropChunksOk(db: Db, entries: seq<FwdEntry>)
    requires IdsOk(db) && EntriesOf(db, entries)
    requires forall i, j :: 0 <= i < j < |entries| ==> entries[i].key != entries[j].key
    ensures IdsOk(DropChunks(db, entries)) && OnlyDropped(db, DropChunks(db, entries))
    ensures DropChunks(db, entries).fwd == db.fwd - KeysOf(entries)
    decreases |entries|
  {
    if |entries| <= CHUNK {
      DropAllOk(db, entries);
    } else {
      var head, tail := entries[..CHUNK], entries[CHUNK..];
      DropAllOk(db, head);
      KeysSplit(entries, CHUNK);
      DropChunksOk(DropAll(db, db, head), tail);
      MinusTwice(db.fwd, KeysOf(head), KeysOf(tail));
    }
  }

  lemma MinusTwice(fwd: map<FwdKey, seq<FwdTarget>>, a: set<FwdKey>, b: set<FwdKey>)
    ensures (fwd - a) - b == fwd - (a + b)
  {
  }

  lemma KeysSplit(entries: seq<FwdEntry>, n: nat)
    requires n <= |entries|
    ensures KeysOf(entries) == KeysOf(entries[..n]) + KeysOf(entries[n..])
  {
    assert entries == entries[..n] + entries[n..];
    KeysJoin(entries[..n], entries[n..]);
  }

  lemma KeysJoin(a: seq<FwdEntry>, b: seq<FwdEntry>)
    ensures KeysOf(a + b) == KeysOf(a) + KeysOf(b)
  {
    var all := a + b;
    assert forall i :: 0 <= i < |a| ==> all[i] == a[i];
    assert forall i :: 0 <= i < |b| ==> all[|a| + i] == b[i];
    forall key ensures key in KeysOf(all) <==> key in KeysOf(a) || key in KeysOf(b) {
      if i :| 0 <= i < |b| && b[i].key == key {
        assert all[|a| + i].key == key;
      }
      if i :| 0 <= i < |a| && a[i].key == key {
        assert all[i].key == key;
      }
      if i :| 0 <= i < |all| && all[i].key == key {
        assert i < |a| ==> a[i].key == key;
        assert i >= |a| ==> b[i - |a|].key == key;
      }
    }
  }

  lemma RemoveRecordOk(db: Db, rec: RecordId)
    requires IdsOk(db)
    ensures IdsOk(RemoveRecord(db, rec)) && OnlyDropped(db, RemoveRecord(db, rec))
  {
    if rec.did in db.dids {
      var key := FwdKey(db.dids[rec.did].id, rec.collection, rec.rkey);
      if key in db.fwd {
        DropAllOk(db, [FwdEntry(key, db.fwd[key])]);
        assert DropAll(db, db, [FwdEntry(key, db.fwd[key])]) == DropEntry(db, db, FwdEntry(key, db.fwd[key]));
      }
    }
  }

  lemma PushOk(r: Rocks, e: Event, scan: seq<FwdEntry>)
    requires Wf(r) && ScanFor(r.db, e, scan)
    ensures Wf(PushRocks(r, e, scan)) && Grows(r.db, PushRocks(r, e, scan).db)
  {
    match e
    case CreateLinks(rec, links) => AddRecordOk(r.db, r, rec, links);
    case UpdateLinks(rec, links) =>
      RemoveRecordOk(r.db, rec);
      AddRecordOk(r.db, r.(db := RemoveRecord(r.db, rec)), rec, links);
    case DeleteRecord(rec) => RemoveRecordOk(r.db, rec);
    case ActivateAccount(did) =>
    case DeactivateAccount(did) =>
    case DeleteAccount(did) =>
      if did in r.db.dids {
        DropChunksOk(r.db, scan);
      }
  }

  /* ---- runs with restarts and crashes ---- */

  datatype Step =
    | Handle(e: Event, scan: seq<FwdEntry>)
    | Restart
    | CrashDeleting(did: Did, scan: seq<FwdEntry>, chunks: nat)  // crash after that many mini batches committed

  function CommittedChunks(scan: seq<FwdEntry>, chunks: nat): (r: seq<FwdEntry>)
    ensures r <= scan
  {
    if chunks * CHUNK <= |scan| then scan[..chunks * CHUNK] else scan
  }

  function Take(r: Rocks, s: Step): Rocks {
    match s
    case Handle(e, scan) => PushRocks(r, e, scan)
    case Restart => Open(r.db)
    case CrashDeleting(did, scan, chunks) =>
      if did in r.db.dids then Open(DropChunks(r.db, CommittedChunks(scan, chunks))) else Open(r.db)
  }

  ghost predicate Allowed(r: Rocks, s: Step) {
    match s
    case Handle(e, scan) => ScanFor(r.db, e, scan)
    case Restart => true
    case CrashDeleting(did, scan, _) => ScanFor(r.db, DeleteAccount(did), scan)
  }

  lemma TakeOk(r: Rocks, s: Step)
    requires Wf(r) && Allowed(r, s)
    ensures Wf(Take(r, s)) && Grows(r.db, Take(r, s).db)
  {
    match s
    case Handle(e, scan) => PushOk(r, e, scan);
    case Restart =>
    case CrashDeleting(did, scan, chunks) =>
      if did in r.db.dids {
        var part := CommittedChunks(scan, chunks);
        assert forall i :: 0 <= i < |part| ==> part[i] == scan[i];
        DropChunksOk(r.db, part);
      }
  }

  /** A run is a sequence of states, each one step after the previous. */
  ghost predicate IsRun(states: seq<Rocks>, steps: seq<Step>) {
    && |states| == |steps| + 1
    && states[0] == Open(EMPTY_DB)
    && forall i :: 0 <= i < |steps| ==> Allowed(states[i], steps[i]) && states[i + 1] == Take(states[i], steps[i])
  }

  lemma {:induction false} RunWf(states: seq<Rocks>, steps: seq<Step>, i: nat)
    requires IsRun(states, steps) && i <= |steps|
    ensures Wf(states[i])
  {
    if i > 0 {
      RunWf(states, steps, i - 1);
      TakeOk(states[i - 1], steps[i - 1]);
    }
  }

  /** No id of `a` names anything else in `b`. */
  ghost predicate NeverShared(a: Db, b: Db) {
    && (forall d, d' :: d in a.dids && d' in b.dids && a.dids[d].id == b.dids[d'].id ==> d == d')
    && (forall k, k' :: k in a.targetIds && k' in b.targetIds && a.targetIds[k] == b.targetIds[k'] ==> k == k')
  }

  /**
  Over any run: ids are nonzero, an id given to a DID or target is never given to
  another one at any later point, and ids allocated later are strictly greater.
  */
  lemma IdsNeverReused(states: seq<Rocks>, steps: seq<Step>, i: nat, j: nat)
    requires IsRun(states, steps) && i <= j <= |steps|
    ensures Wf(states[i]) && Wf(states[j]) && Grows(states[i].db, states[j].db)
    ensures NeverShared(states[i].db, states[j].db)
  {
    RunWf(states, steps, i);
    RunWf(states, steps, j);
    RunGrows(states, steps, i, j);
    GrownNeverShared(states[i], states[j]);
  }

  lemma {:induction false} RunGrows(states: seq<Rocks>, steps: seq<Step>, i: nat, j: nat)
    requires IsRun(states, steps) && i <= j <= |steps|
    ensures Grows(states[i].db, states[j].db)
    decreases j
  {
    RunWf(states, steps, j);
    if i < j {
      RunGrows(states, steps, i, j - 1);
      RunWf(states, steps, j - 1);
      TakeOk(states[j - 1], steps[j - 1]);
      GrowsTrans(states[i].db, states[j - 1].db, states[j].db);
    }
  }

  lemma GrownNeverShared(a: Rocks, b: Rocks)
    requires Wf(a) && Wf(b) && Grows(a.db, b.db)
    ensures NeverShared(a.db, b.db)
  {
  }
}
