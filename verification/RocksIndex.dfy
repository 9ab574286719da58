/**
The RocksDB backlink store as a value: interned ids, append-merged reverse
lists and forward lists.

Writers read the committed database (`read`) and never their own pending batch
(`pend`, the database as it will be once the batch commits).
*/
module RocksIndex {
  import opened Options
  import opened LinkIndex

  datatype DidVal = DidVal(id: nat, active: bool)
  datatype IdSlot = IdSlot(did: nat, rkey: string)
  datatype FwdKey = FwdKey(did: nat, collection: string, rkey: string)
  datatype FwdTarget = FwdTarget(path: string, id: nat)
  datatype FwdEntry = FwdEntry(key: FwdKey, targets: seq<FwdTarget>)

  const TOMBSTONE := IdSlot(0, "")
  const CHUNK: nat := 1024

  /** The column families: did ids (both ways), target ids, reverse and forward lists, and the two stored sequences. */
  datatype Db = Db(
    dids: map<Did, DidVal>, origs: map<nat, Did>, didSeq: Option<nat>,
    targetIds: map<TargetKey, nat>, targetSeq: Option<nat>,
    linkers: map<nat, seq<IdSlot>>, fwd: map<FwdKey, seq<FwdTarget>>)

  /** The database with the in-memory id sequences. */
  datatype Rocks = Rocks(db: Db, didSeq: nat, targetSeq: nat)

  const EMPTY_DB := Db(map[], map[], None, map[], None, map[], map[])

  function Stored(s: Option<nat>): nat {
    if s.Some? then s.value else 0
  }

  /** Opening a database: the sequences restart one past the stored values. */
  function Open(db: Db): Rocks {
    Rocks(db, Stored(db.didSeq) + 1, Stored(db.targetSeq) + 1)
  }

  function LinkersAt(db: Db, id: nat): seq<IdSlot> {
    if id in db.linkers then db.linkers[id] else []
  }

  function FwdAt(db: Db, key: FwdKey): seq<FwdTarget> {
    if key in db.fwd then db.fwd[key] else []
  }

  /* ---- adding links ---- */

  function DidIdFor(read: Db, pend: Rocks, did: Did): nat {
    if did in read.dids then read.dids[did].id else pend.didSeq + 1
  }

  function RegisterDid(read: Db, pend: Rocks, did: Did): Rocks {
    var id := DidIdFor(read, pend, did);
    if did in read.dids then pend.(db := pend.db.(origs := pend.db.origs[id := did]))
    else Rocks(pend.db.(didSeq := Some(id),
                        dids := pend.db.dids[did := DidVal(id, true)],
                        origs := pend.db.origs[id := did]), id, pend.targetSeq)
  }

  function TargetIdFor(read: Db, pend: Rocks, key: TargetKey): nat {
    if key in read.targetIds then read.targetIds[key] else pend.targetSeq + 1
  }

  function LinkOne(read: Db, pend: Rocks, rec: RecordId, id: nat, l: Link): Rocks {
    var key := KeyOf(rec, l);
    var tid := TargetIdFor(read, pend, key);
    var p := if key in read.targetIds then pend
             else Rocks(pend.db.(targetSeq := Some(tid), targetIds := pend.db.targetIds[key := tid]), pend.didSeq, tid);
    p.(db := p.db.(linkers := p.db.linkers[tid := LinkersAt(p.db, tid) + [IdSlot(id, rec.rkey)]]))
  }

  datatype Linked = Linked(pend: Rocks, targets: seq<FwdTarget>)

  function LinkAll(read: Db, pend: Rocks, rec: RecordId, id: nat, links: seq<Link>): (r: Linked)
    ensures |r.targets| == |links|
  {
    if links == [] then Linked(pend, [])
    else
      var r := LinkAll(read, pend, rec, id, links[..|links| - 1]);
      var l := links[|links| - 1];
      Linked(LinkOne(read, r.pend, rec, id, l),
             r.targets + [FwdTarget(l.path, TargetIdFor(read, r.pend, KeyOf(rec, l)))])
  }

  function AddRecord(read: Db, pend: Rocks, rec: RecordId, links: seq<Link>): Rocks {
    var id := DidIdFor(read, pend, rec.did);
    var r := LinkAll(read, RegisterDid(read, pend, rec.did), rec, id, links);
    r.pend.(db := r.pend.db.(fwd := r.pend.db.fwd[FwdKey(id, rec.collection, rec.rkey) := r.targets]))
  }

  /* ---- removing links ---- */

  function LastIndex<T(==)>(s: seq<T>, x: T): (i: nat)
    requires x in s
    ensures i < |s| && s[i] == x && x !in s[i + 1..]
  {
    if s[|s| - 1] == x then |s| - 1
    else
      assert s == s[..|s| - 1] + [s[|s| - 1]];
      var i := LastIndex(s[..|s| - 1], x);
      assert s[i + 1..] == s[..|s| - 1][i + 1..] + [s[|s| - 1]];
      i
  }

  /** Overwrite the last slot equal to `x`; a missing slot is only logged. */
  function RemoveLinker(slots: seq<IdSlot>, x: IdSlot): (r: seq<IdSlot>)
    ensures |r| == |slots|
  {
    if x in slots then slots[LastIndex(slots, x) := TOMBSTONE] else slots
  }

  function DropTargets(read: Db, pend: Db, x: IdSlot, targets: seq<FwdTarget>): Db {
    if targets == [] then pend
    else
      var p := DropTargets(read, pend, x, targets[..|targets| - 1]);
      var tid := targets[|targets| - 1].id;
      p.(linkers := p.linkers[tid := RemoveLinker(LinkersAt(read, tid), x)])
  }

  function SlotOf(key: FwdKey): IdSlot {
    IdSlot(key.did, key.rkey)
  }

  function DropEntry(read: Db, pend: Db, e: FwdEntry): Db {
    var p := DropTargets(read, pend, SlotOf(e.key), e.targets);
    p.(fwd := p.fwd - {e.key})
  }

  function DropAll(read: Db, pend: Db, entries: seq<FwdEntry>): Db {
    if entries == [] then pend
    else DropEntry(read, DropAll(read, pend, entries[..|entries| - 1]), entries[|entries| - 1])
  }

  function RemoveRecord(read: Db, rec: RecordId): Db {
    if rec.did !in read.dids then read
    else
      var key := FwdKey(read.dids[rec.did].id, rec.collection, rec.rkey);
      if key in read.fwd then DropEntry(read, read, FwdEntry(key, read.fwd[key])) else read
  }

  /** One committed mini batch per chunk of records. */
  function DropChunks(db: Db, entries: seq<FwdEntry>): Db
    decreases |entries|
  {
    if |entries| <= CHUNK then DropAll(db, db, entries)
    else DropChunks(DropAll(db, db, entries[..CHUNK]), entries[CHUNK..])
  }

  /** `scan` is the prefix iteration over the account's forward entries; any order will do. */
  ghost predicate ValidScan(db: Db, id: nat, scan: seq<FwdEntry>) {
    && (forall i, j :: 0 <= i < j < |scan| ==> scan[i].key != scan[j].key)
    && (forall i :: 0 <= i < |scan| ==>
          scan[i].key.did == id && scan[i].key in db.fwd && scan[i].targets == db.fwd[scan[i].key])
    && (forall key :: key in db.fwd && key.did == id ==> exists i :: 0 <= i < |scan| && scan[i].key == key)
  }

  function RemoveAccount(db: Db, did: Did, scan: seq<FwdEntry>): Db {
    if did !in db.dids then db
    else
      var d := DropChunks(db, scan);
      d.(dids := d.dids - {did})
  }

  function SetActive(db: Db, did: Did, active: bool): Db {
    if did in db.dids then db.(dids := db.dids[did := DidVal(db.dids[did].id, active)]) else db
  }

  function PushRocks(r: Rocks, e: Event, scan: seq<FwdEntry>): Rocks {
    match e
    case CreateLinks(rec, links) => AddRecord(r.db, r, rec, links)
    case UpdateLinks(rec, links) => AddRecord(r.db, r.(db := RemoveRecord(r.db, rec)), rec, links)
    case DeleteRecord(rec) => r.(db := RemoveRecord(r.db, rec))
    case ActivateAccount(did) => r.(db := SetActive(r.db, did, true))
    case DeactivateAccount(did) => r.(db := SetActive(r.db, did, false))
    case DeleteAccount(did) => r.(db := RemoveAccount(r.db, did, scan))
  }

  /** What the caller supplies for an account deletion is the database's own scan. */
  ghost predicate ScanFor(db: Db, e: Event, scan: seq<FwdEntry>) {
    e.DeleteAccount? && e.did in db.dids ==> ValidScan(db, db.dids[e.did].id, scan)
  }
}
