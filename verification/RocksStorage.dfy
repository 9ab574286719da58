/**
`RocksStorage`: the writer over a database with atomic write batches, and the
merge operator of the reverse lists.
*/
module RocksStore {
  import opened Options
  import opened LinkIndex
  import opened RocksIndex
  import opened RocksIds

  /* ---- the append merge operator ---- */

  function Concat<T>(parts: seq<seq<T>>): seq<T> {
    if parts == [] then [] else Concat(parts[..|parts| - 1]) + parts[|parts| - 1]
  }

  function Existing<T>(base: Option<seq<T>>): seq<T> {
    if base.Some? then base.value else []
  }

  method MergeOperands<T>(base: Option<seq<T>>, operands: seq<seq<T>>) returns (merged: seq<T>)
    ensures merged == Existing(base) + Concat(operands)
  {
    merged := match base case Some(b) => b case None => [];
    for i := 0 to |operands|
      invariant merged == Existing(base) + Concat(operands[..i])
    {
      assert operands[..i + 1][..i] == operands[..i];
      merged := merged + operands[i];
    }
    assert operands[..|operands|] == operands;
  }

  lemma {:induction false} ConcatAppend<T>(a: seq<seq<T>>, b: seq<seq<T>>)
    ensures Concat(a + b) == Concat(a) + Concat(b)
  {
    if b == [] {
      assert a + b == a;
    } else {
      var n := |b| - 1;
      assert (a + b)[..|a + b| - 1] == a + b[..n];
      ConcatAppend(a, b[..n]);
    }
  }

  function MergeGroups<T>(groups: seq<seq<seq<T>>>): (r: seq<seq<T>>)
    ensures |r| == |groups|
  {
    seq(|groups|, i requires 0 <= i < |groups| => Concat(groups[i]))
  }

  /** However operands were grouped and merged on the way, the value read is the same list. */
  lemma {:induction false} GroupingInvisible<T>(base: Option<seq<T>>, groups: seq<seq<seq<T>>>)
    ensures Existing(base) + Concat(MergeGroups(groups)) == Existing(base) + Concat(Concat(groups))
  {
    if groups != [] {
      var n := |groups| - 1;
      GroupingInvisible(base, groups[..n]);
      assert MergeGroups(groups)[..n] == MergeGroups(groups[..n]);
      ConcatAppend(Concat(groups[..n]), groups[n]);
      var e, a, b := Existing(base), Concat(MergeGroups(groups[..n])), Concat(Concat(groups[..n]));
      assert a == (e + a)[|e|..] && b == (e + b)[|e|..];
    }
  }

  /* ---- write batches ---- */

  datatype Op =
    | PutDid(did: Did, val: DidVal)
    | DeleteDid(did: Did)
    | PutOrig(id: nat, did: Did)
    | PutDidSeq(n: nat)
    | PutTargetId(key: TargetKey, id: nat)
    | PutTargetSeq(n: nat)
    | MergeLinkers(id: nat, more: seq<IdSlot>)
    | PutLinkers(id: nat, slots: seq<IdSlot>)
    | PutFwd(f: FwdKey, targets: seq<FwdTarget>)
    | DeleteFwd(f: FwdKey)

  function ApplyOp(db: Db, op: Op): Db {
    match op
    case PutDid(did, val) => db.(dids := db.dids[did := val])
    case DeleteDid(did) => db.(dids := db.dids - {did})
    case PutOrig(id, did) => db.(origs := db.origs[id := did])
    case PutDidSeq(n) => db.(didSeq := Some(n))
    case PutTargetId(key, id) => db.(targetIds := db.targetIds[key := id])
    case PutTargetSeq(n) => db.(targetSeq := Some(n))
    case MergeLinkers(id, more) => db.(linkers := db.linkers[id := LinkersAt(db, id) + more])
    case PutLinkers(id, slots) => db.(linkers := db.linkers[id := slots])
    case PutFwd(f, targets) => db.(fwd := db.fwd[f := targets])
    case DeleteFwd(f) => db.(fwd := db.fwd - {f})
  }

  function Apply(db: Db, batch: seq<Op>): Db {
    if batch == [] then db else ApplyOp(Apply(db, batch[..|batch| - 1]), batch[|batch| - 1])
  }

  lemma ApplyMore(db: Db, batch: seq<Op>, op: Op)
    ensures Apply(db, batch + [op]) == ApplyOp(Apply(db, batch), op)
  {
    assert (batch + [op])[..|batch|] == batch;
  }

  /** The last write of a record's batch stores its forward links. */
  lemma RecordAdded(read: Db, before: Rocks, rec: RecordId, links: seq<Link>, batch: seq<Op>, didSeq: nat,
                    targetSeq: nat, targets: seq<FwdTarget>, id: nat)
    requires id == DidIdFor(read, before, rec.did)
    requires Linked(Rocks(Apply(read, batch), didSeq, targetSeq), targets) ==
               LinkAll(read, RegisterDid(read, before, rec.did), rec, id, links)
    ensures Rocks(Apply(read, batch + [PutFwd(FwdKey(id, rec.collection, rec.rkey), targets)]), didSeq, targetSeq) ==
              AddRecord(read, before, rec, links)
  {
    ApplyMore(read, batch, PutFwd(FwdKey(id, rec.collection, rec.rkey), targets));
  }

  lemma LinkAllMore(read: Db, pend: Rocks, rec: RecordId, id: nat, links: seq<Link>, n: nat)
    requires n < |links|
    ensures var r := LinkAll(read, pend, rec, id, links[..n]);
            LinkAll(read, pend, rec, id, links[..n + 1]) ==
            Linked(LinkOne(read, r.pend, rec, id, links[n]),
                   r.targets + [FwdTarget(links[n].path, TargetIdFor(read, r.pend, KeyOf(rec, links[n])))])
  {
    assert links[..n + 1][..n] == links[..n];
  }

  lemma DropTargetsMore(read: Db, pend: Db, x: IdSlot, targets: seq<FwdTarget>, n: nat)
    requires n < |targets|
    ensures var p := RocksIndex.DropTargets(read, pend, x, targets[..n]);
            RocksIndex.DropTargets(read, pend, x, targets[..n + 1]) ==
            p.(linkers := p.linkers[targets[n].id := RemoveLinker(LinkersAt(read, targets[n].id), x)])
  {
    assert targets[..n + 1][..n] == targets[..n];
  }

  class RocksStorage {
    var db: Db            // committed
    var didSeq: nat       // private sequences, owned by the writer
    var targetSeq: nat
    var publicDidSeq: nat // shared with readers
    var publicTargetSeq: nat

    ghost function View(): Rocks
      reads this
    {
      Rocks(db, didSeq, targetSeq)
    }

    ghost function Pending(batch: seq<Op>): Rocks
      reads this
    {
      Rocks(Apply(db, batch), didSeq, targetSeq)
    }

    ghost predicate SeqsMatch()
      reads this
    {
      publicDidSeq == didSeq && publicTargetSeq == targetSeq
    }

    ghost predicate Valid()
      reads this
    {
      SeqsMatch() && Wf(View())
    }

    /** Opening a database, new or left behind by a crash. */
    constructor (stored: Db)
      requires IdsOk(stored)
      ensures Valid() && View() == Open(stored)
    {
      db := stored;
      var d := match stored.didSeq case Some(n) => n + 1 case None => 1;
      var t := match stored.targetSeq case Some(n) => n + 1 case None => 1;
      didSeq, publicDidSeq := d, d;
      targetSeq, publicTargetSeq := t, t;
    }

    method GetOrCreateDid(batch: seq<Op>, did: Did) returns (id: nat, more: seq<Op>)
      requires SeqsMatch()
      modifies this`didSeq, this`publicDidSeq
      ensures SeqsMatch() && id == DidIdFor(db, old(Pending(batch)), did)
      ensures Pending(more) == RegisterDid(db, old(Pending(batch)), did)
    {
      more := batch;
      if did in db.dids {
        id := db.dids[did].id;
      } else {
        var prev := didSeq;
        didSeq := didSeq + 1;
        var prevPublic := publicDidSeq;
        publicDidSeq := didSeq;
        assert prevPublic == prev; // the original asserts this at run time
        id := didSeq;
        ApplyMore(db, more, PutDidSeq(id));
        ApplyMore(db, more + [PutDidSeq(id)], PutDid(did, DidVal(id, true)));
        more := more + [PutDidSeq(id)] + [PutDid(did, DidVal(id, true))];
      }
      ApplyMore(db, more, PutOrig(id, did));
      more := more + [PutOrig(id, did)];
    }

    method GetOrCreateTarget(batch: seq<Op>, key: TargetKey) returns (id: nat, more: seq<Op>)
      requires SeqsMatch()
      modifies this`targetSeq, this`publicTargetSeq
      ensures SeqsMatch() && id == TargetIdFor(db, old(Pending(batch)), key)
      ensures key in db.targetIds ==> Pending(more) == old(Pending(batch))
      ensures key !in db.targetIds ==>
        var p := old(Pending(batch));
        Pending(more) == Rocks(p.db.(targetSeq := Some(id), targetIds := p.db.targetIds[key := id]), p.didSeq, id)
    {
      more := batch;
      if key in db.targetIds {
        id := db.targetIds[key];
      } else {
        var prev := targetSeq;
        targetSeq := targetSeq + 1;
        var prevPublic := publicTargetSeq;
        publicTargetSeq := targetSeq;
        assert prevPublic == prev;
        id := targetSeq;
        ApplyMore(db, more, PutTargetSeq(id));
        ApplyMore(db, more + [PutTargetSeq(id)], PutTargetId(key, id));
        more := more + [PutTargetSeq(id)] + [PutTargetId(key, id)];
      }
    }

    method AddLink(rec: RecordId, id: nat, l: Link, batch: seq<Op>) returns (tid: nat, more: seq<Op>)
      requires SeqsMatch()
      modifies this`targetSeq, this`publicTargetSeq
      ensures SeqsMatch() && tid == TargetIdFor(db, old(Pending(batch)), KeyOf(rec, l))
      ensures Pending(more) == LinkOne(db, old(Pending(batch)), rec, id, l)
    {
      tid, more := GetOrCreateTarget(batch, KeyOf(rec, l));
      ApplyMore(db, more, MergeLinkers(tid, [IdSlot(id, rec.rkey)]));
      more := more + [MergeLinkers(tid, [IdSlot(id, rec.rkey)])];
    }

    /** The loop over the links, filling the batch and the list of targets. */
    method AddEach(rec: RecordId, id: nat, links: seq<Link>, batch: seq<Op>)
      returns (more: seq<Op>, targets: seq<FwdTarget>)
      requires SeqsMatch()
      modifies this`targetSeq, this`publicTargetSeq
      ensures SeqsMatch() && Linked(Pending(more), targets) == LinkAll(db, old(Pending(batch)), rec, id, links)
    {
      ghost var p := Pending(batch);
      more, targets := batch, [];
      for n := 0 to |links|
        invariant SeqsMatch() && Linked(Pending(more), targets) == LinkAll(db, p, rec, id, links[..n])
      {
        LinkAllMore(db, p, rec, id, links, n);
        var tid;
        tid, more := AddLink(rec, id, links[n], more);
        targets := targets + [FwdTarget(links[n].path, tid)];
      }
      assert links[..|links|] == links;
    }

    method AddLinks(rec: RecordId, links: seq<Link>, batch: seq<Op>) returns (more: seq<Op>)
      requires SeqsMatch()
      modifies this`didSeq, this`publicDidSeq, this`targetSeq, this`publicTargetSeq
      ensures SeqsMatch() && Pending(more) == AddRecord(db, old(Pending(batch)), rec, links)
    {
      var id, targets;
      ghost var before := Pending(batch);
      id, more := GetOrCreateDid(batch, rec.did);
      more, targets := AddEach(rec, id, links, more);
      var f := FwdKey(id, rec.collection, rec.rkey);
      RecordAdded(db, before, rec, links, more, didSeq, targetSeq, targets, id);
      more := more + [PutFwd(f, targets)];
    }

    /** Overwrite the last matching slot in place. */
    static method TombstoneLast(slots: seq<IdSlot>, x: IdSlot) returns (r: seq<IdSlot>, found: bool)
      ensures r == RemoveLinker(slots, x) && found == (x in slots)
    {
      r, found := slots, false;
      var i := |slots|;
      while i > 0
        invariant 0 <= i <= |slots| && x !in slots[i..]
      {
        i := i - 1;
        if slots[i] == x {
          LastIs(slots, x, i);
          return slots[i := TOMBSTONE], true;
        }
        assert slots[i..] == [slots[i]] + slots[i + 1..];
      }
    }

    /** Read-modify-write of one reverse list, always from the committed value. */
    method DropTarget(x: IdSlot, tid: nat, batch: seq<Op>) returns (more: seq<Op>)
      ensures Apply(db, more) ==
        Apply(db, batch).(linkers := Apply(db, batch).linkers[tid := RemoveLinker(LinkersAt(db, tid), x)])
    {
      var linkers := if tid in db.linkers then db.linkers[tid] else [];
      var r, _ := TombstoneLast(linkers, x);
      ApplyMore(db, batch, PutLinkers(tid, r));
      more := batch + [PutLinkers(tid, r)];
    }

    method DropTargets(x: IdSlot, targets: seq<FwdTarget>, batch: seq<Op>) returns (more: seq<Op>)
      ensures Apply(db, more) == RocksIndex.DropTargets(db, Apply(db, batch), x, targets)
    {
      more := batch;
      for n := 0 to |targets|
        invariant Apply(db, more) == RocksIndex.DropTargets(db, Apply(db, batch), x, targets[..n])
      {
        DropTargetsMore(db, Apply(db, batch), x, targets, n);
        more := DropTarget(x, targets[n].id, more);
      }
      assert targets[..|targets|] == targets;
    }

    method RemoveLinks(rec: RecordId) returns (batch: seq<Op>)
      ensures Apply(db, batch) == RemoveRecord(db, rec)
    {
      batch := [];
      if rec.did !in db.dids {
        return;
      }
      var f := FwdKey(db.dids[rec.did].id, rec.collection, rec.rkey);
      if f !in db.fwd {
        return;
      }
      batch := DropTargets(SlotOf(f), db.fwd[f], batch);
      DropThenDelete(db, batch, f);
      batch := batch + [DeleteFwd(f)];
    }

    /** The prefix iteration over the forward entries of one account. */
    method ScanAccount(id: nat) returns (scan: seq<FwdEntry>)
      ensures ValidScan(db, id, scan)
    {
      scan := [];
      var todo := set f | f in db.fwd && f.did == id;
      while todo != {}
        invariant forall f :: f in todo ==> f in db.fwd && f.did == id
        invariant Visited(db, id, scan, todo)
      {
        var f :| f in todo;
        VisitMore(db, id, scan, todo, f);
        scan, todo := scan + [FwdEntry(f, db.fwd[f])], todo - {f};
      }
    }

    method DropChunk(chunk: seq<FwdEntry>) returns (mini: seq<Op>)
      ensures Apply(db, mini) == DropAll(db, db, chunk)
    {
      mini := [];
      for n := 0 to |chunk|
        invariant Apply(db, mini) == DropAll(db, db, chunk[..n])
      {
        assert chunk[..n + 1][..n] == chunk[..n];
        ghost var p := Apply(db, mini);
        ApplyMore(db, mini, DeleteFwd(chunk[n].key));
        mini := mini + [DeleteFwd(chunk[n].key)];
        mini := DropTargets(SlotOf(chunk[n].key), chunk[n].targets, mini);
        DropTargetsFwd(db, p, SlotOf(chunk[n].key), chunk[n].targets, chunk[n].key);
      }
      assert chunk[..|chunk|] == chunk;
    }

    method DeleteAccount(did: Did) returns (ghost scan: seq<FwdEntry>)
      requires Valid()
      modifies this`db
      ensures ScanFor(old(db), LinkIndex.DeleteAccount(did), scan)
      ensures db == RemoveAccount(old(db), did, scan)
    {
      scan := [];
      if did !in db.dids {
        return;
      }
      var outer := [DeleteDid(did)];
      var stuff := ScanAccount(db.dids[did].id);
      scan := stuff;
      var i := 0;
      while i < |stuff|
        invariant i <= |stuff| && DropChunks(db, stuff[i..]) == DropChunks(old(db), stuff)
      {
        var end := if |stuff| - i <= CHUNK then |stuff| else i + CHUNK;
        ChunkSlices(stuff, i, end);
        var mini := DropChunk(stuff[i..end]);
        db := Apply(db, mini);
        i := end;
      }
      assert Apply(db, outer) == ApplyOp(db, DeleteDid(did)) by {
        ApplyMore(db, [], DeleteDid(did));
        assert [] + outer == outer;
      }
      db := Apply(db, outer);
    }

    method SetAccount(did: Did, active: bool) returns (batch: seq<Op>)
      ensures Apply(db, batch) == SetActive(db, did, active)
    {
      batch := [];
      if did in db.dids {
        ApplyMore(db, [], PutDid(did, DidVal(db.dids[did].id, active)));
        batch := [] + [PutDid(did, DidVal(db.dids[did].id, active))];
      }
    }

    method Push(e: Event) returns (ghost scan: seq<FwdEntry>)
      requires Valid()
      modifies this
      ensures Valid() && ScanFor(old(db), e, scan)
      ensures View() == PushRocks(old(View()), e, scan)
    {
      scan := [];
      var batch: seq<Op> := [];
      match e {
        case CreateLinks(rec, links) =>
          batch := AddLinks(rec, links, batch);
        case UpdateLinks(rec, links) =>
          batch := RemoveLinks(rec);
          batch := AddLinks(rec, links, batch);
        case DeleteRecord(rec) =>
          batch := RemoveLinks(rec);
        case ActivateAccount(did) =>
          batch := SetAccount(did, true);
        case DeactivateAccount(did) =>
          batch := SetAccount(did, false);
        case DeleteAccount(did) =>
          scan := DeleteAccount(did);
      }
      db := Apply(db, batch);
      PushOk(old(View()), e, scan);
    }
  }

  lemma LastIs(slots: seq<IdSlot>, x: IdSlot, i: nat)
    requires i < |slots| && slots[i] == x && x !in slots[i + 1..]
    ensures LastIndex(slots, x) == i
  {
    var last := LastIndex(slots, x);
    assert forall k :: last < k < |slots| ==> slots[k] == slots[last + 1..][k - last - 1];
    assert forall k :: i < k < |slots| ==> slots[k] == slots[i + 1..][k - i - 1];
  }

  /** The account's forward entries not still to do, each once. */
  ghost predicate Visited(db: Db, id: nat, scan: seq<FwdEntry>, todo: set<FwdKey>) {
    && (forall i, j :: 0 <= i < j < |scan| ==> scan[i].key != scan[j].key)
    && (forall i :: 0 <= i < |scan| ==>
          scan[i].key !in todo && scan[i].key.did == id && scan[i].key in db.fwd
          && scan[i].targets == db.fwd[scan[i].key])
    && (forall f :: f in db.fwd && f.did == id && f !in todo ==> exists i :: 0 <= i < |scan| && scan[i].key == f)
  }

  lemma VisitMore(db: Db, id: nat, scan: seq<FwdEntry>, todo: set<FwdKey>, f: FwdKey)
    requires Visited(db, id, scan, todo) && f in todo && f in db.fwd && f.did == id
    ensures Visited(db, id, scan + [FwdEntry(f, db.fwd[f])], todo - {f})
  {
    var more := scan + [FwdEntry(f, db.fwd[f])];
    forall g | g in db.fwd && g.did == id && g !in todo - {f} ensures exists i :: 0 <= i < |more| && more[i].key == g {
      if g == f {
        assert more[|scan|].key == g;
      } else {
        var i :| 0 <= i < |scan| && scan[i].key == g;
        assert more[i].key == g;
      }
    }
  }

  lemma DropThenDelete(db: Db, batch: seq<Op>, f: FwdKey)
    requires f in db.fwd && Apply(db, batch) == RocksIndex.DropTargets(db, db, SlotOf(f), db.fwd[f])
    ensures Apply(db, batch + [DeleteFwd(f)]) == DropEntry(db, db, FwdEntry(f, db.fwd[f]))
  {
    ApplyMore(db, batch, DeleteFwd(f));
  }

  lemma ChunkSlices(stuff: seq<FwdEntry>, i: nat, end: nat)
    requires i < end <= |stuff|
    ensures stuff[i..end] == stuff[i..][..end - i] && stuff[end..] == stuff[i..][end - i..]
    ensures end == |stuff| ==> stuff[end..] == [] && stuff[i..end] == stuff[i..]
  {
  }

  /** Deleting the forward entry before or after the reverse lists are written is the same. */
  lemma {:induction false} DropTargetsFwd(read: Db, pend: Db, x: IdSlot, targets: seq<FwdTarget>, f: FwdKey)
    ensures RocksIndex.DropTargets(read, pend.(fwd := pend.fwd - {f}), x, targets)
         == RocksIndex.DropTargets(read, pend, x, targets).(fwd := pend.fwd - {f})
    ensures RocksIndex.DropTargets(read, pend, x, targets).fwd == pend.fwd
  {
    if targets != [] {
      DropTargetsFwd(read, pend, x, targets[..|targets| - 1], f);
    }
  }
}
