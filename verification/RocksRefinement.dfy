/**
The RocksDB store against the plain index: the coupling between the two, and
for every event exactly when one step keeps it.
*/
module RocksRefinement {
  import opened Options
  import opened LinkIndex
  import opened RocksIndex
  import opened RocksIds

  /* ---- the coupling ---- */

  function EncodeSlot(s: Slot, dids: map<Did, DidVal>): IdSlot {
    match s
    case None => TOMBSTONE
    case Some(x) => IdSlot(if x.did in dids then dids[x.did].id else 0, x.rkey)
  }

  function Encode(slots: seq<Slot>, dids: map<Did, DidVal>): (r: seq<IdSlot>)
    ensures |r| == |slots|
    ensures forall i :: 0 <= i < |r| ==> r[i] == EncodeSlot(slots[i], dids)
  {
    seq(|slots|, i requires 0 <= i < |slots| => EncodeSlot(slots[i], dids))
  }

  function EncodeLink(rec: RecordId, l: Link, ids: map<TargetKey, nat>): FwdTarget {
    FwdTarget(l.path, if KeyOf(rec, l) in ids then ids[KeyOf(rec, l)] else 0)
  }

  function EncodeLinks(rec: RecordId, links: seq<Link>, ids: map<TargetKey, nat>): (r: seq<FwdTarget>)
    ensures |r| == |links|
    ensures forall i :: 0 <= i < |r| ==> r[i] == EncodeLink(rec, links[i], ids)
  {
    seq(|links|, i requires 0 <= i < |links| => EncodeLink(rec, links[i], ids))
  }

  ghost predicate DidsCoupled(m: map<Did, bool>, dids: map<Did, DidVal>) {
    m.Keys == dids.Keys && forall d :: d in m ==> m[d] == dids[d].active
  }

  ghost predicate ReverseCoupled(targets: map<TargetKey, seq<Slot>>, db: Db) {
    && targets.Keys == db.targetIds.Keys
    && forall key :: key in targets ==> LinkersAt(db, db.targetIds[key]) == Encode(targets[key], db.dids)
  }

  ghost predicate ForwardCoupled(m: Index, db: Db, rec: RecordId) {
    rec.did in db.dids ==>
      FwdAt(db, FwdKey(db.dids[rec.did].id, rec.collection, rec.rkey)) ==
        EncodeLinks(rec, Forward(m, rec), db.targetIds)
  }

  ghost predicate Coupled(m: Index, db: Db) {
    && DidsCoupled(m.dids, db.dids)
    && ReverseCoupled(m.targets, db)
    && forall rec :: ForwardCoupled(m, db, rec)
  }

  /* ---- counting in sequences ---- */

  lemma TwoOccurrences<T>(s: seq<T>, p: nat, q: nat)
    requires p < q < |s| && s[p] == s[q]
    ensures multiset(s)[s[p]] >= 2
  {
    assert s == s[..q] + s[q..];
    assert s[p] == s[..q][p] && s[q] == s[q..][0];
    assert s[p] in multiset(s[..q]) && s[q] in multiset(s[q..]);
  }

  lemma {:induction false} OccursTwice<T>(s: seq<T>, x: T) returns (p: nat, q: nat)
    requires multiset(s)[x] >= 2
    ensures p < q < |s| && s[p] == x && s[q] == x
  {
    var n := |s| - 1;
    assert s == s[..n] + [s[n]];
    if s[n] == x {
      assert x in multiset(s[..n]);
      p :| 0 <= p < n && s[..n][p] == x;
      q := n;
    } else {
      p, q := OccursTwice(s[..n], x);
    }
  }

  lemma OccursIn<T>(s: seq<T>, x: T)
    ensures multiset(s)[x] > 0 <==> x in s
  {
    assert x in multiset(s) <==> x in s;
  }

  /** A forward link has its reverse key, and a reverse slot its forward link. */
  lemma ForwardHasSlot(m: Index, rec: RecordId, key: TargetKey)
    requires Inv(m) && key.collection == rec.collection
    ensures LinkOf(key) in Forward(m, rec) <==> Some(LinkerOf(rec)) in SlotsAt(m.targets, key)
    ensures LinkOf(key) in Forward(m, rec) ==> key in m.targets && rec.did in m.dids
    ensures multiset(Forward(m, rec))[LinkOf(key)] == multiset(SlotsAt(m.targets, key))[Some(LinkerOf(rec))]
  {
    assert Balanced(m, rec, LinkOf(key));
    OccursIn(Forward(m, rec), LinkOf(key));
    OccursIn(SlotsAt(m.targets, key), Some(LinkerOf(rec)));
  }

  lemma UnknownHasNoLinks(m: Index, rec: RecordId)
    requires Inv(m) && rec.did !in m.dids
    ensures Forward(m, rec) == []
  {
    if Forward(m, rec) != [] {
      ForwardHasSlot(m, rec, KeyOf(rec, Forward(m, rec)[0]));
    }
  }

  ghost predicate LinksTo(m: Index, rec: RecordId, key: TargetKey) {
    key.collection == rec.collection && LinkOf(key) in Forward(m, rec)
  }

  /* ---- removal: one batch drops the links of several records ---- */

  /** The index with the links of a set of records removed. */
  function ClearSlotsOf(slots: seq<Slot>, collection: string, recs: set<RecordId>): (r: seq<Slot>)
    ensures |r| == |slots|
  {
    seq(|slots|, i requires 0 <= i < |slots| =>
      if slots[i].Some? && RecordId(slots[i].value.did, collection, slots[i].value.rkey) in recs
      then None
      else slots[i])
  }

  function ClearRecords(m: Index, recs: set<RecordId>): Index {
    Index(m.dids,
          map key | key in m.targets :: ClearSlotsOf(m.targets[key], key.collection, recs),
          map rec | rec in m.links && rec !in recs :: m.links[rec])
  }

  function RecordOf(did: Did, key: FwdKey): RecordId {
    RecordId(did, key.collection, key.rkey)
  }

  function RecordsOf(did: Did, entries: seq<FwdEntry>): (r: seq<RecordId>)
    ensures |r| == |entries|
    ensures forall i :: 0 <= i < |r| ==> r[i] == RecordOf(did, entries[i].key)
  {
    seq(|entries|, i requires 0 <= i < |entries| => RecordOf(did, entries[i].key))
  }

  ghost function SetOf<T>(s: seq<T>): set<T> {
    set x | x in s
  }

  /** No two forward links of these records name the same reverse list. */
  ghost predicate NoSharedTarget(m: Index, recs: seq<RecordId>) {
    forall i, j, a, b {:trigger Forward(m, recs[i])[a], Forward(m, recs[j])[b]} ::
      0 <= i < |recs| && 0 <= j < |recs| && 0 <= a < |Forward(m, recs[i])| && 0 <= b < |Forward(m, recs[j])|
      && KeyOf(recs[i], Forward(m, recs[i])[a]) == KeyOf(recs[j], Forward(m, recs[j])[b])
      ==> i == j && a == b
  }

  /** The batch `entries` is a set of stored forward entries of the account `did`. */
  ghost predicate EntriesFor(db: Db, did: Did, entries: seq<FwdEntry>) {
    && did in db.dids
    && EntriesOf(db, entries)
    && (forall i, j :: 0 <= i < j < |entries| ==> entries[i].key != entries[j].key)
    && (forall i :: 0 <= i < |entries| ==> entries[i].key.did == db.dids[did].id)
  }

  ghost predicate Writes(targets: seq<FwdTarget>, tid: nat) {
    exists a :: 0 <= a < |targets| && targets[a].id == tid
  }

  lemma {:induction false} DropTargetsEffect(read: Db, pend: Db, x: IdSlot, targets: seq<FwdTarget>, tid: nat)
    ensures LinkersAt(DropTargets(read, pend, x, targets), tid) ==
            if Writes(targets, tid) then RemoveLinker(LinkersAt(read, tid), x) else LinkersAt(pend, tid)
  {
    if targets != [] {
      var n := |targets| - 1;
      DropTargetsEffect(read, pend, x, targets[..n], tid);
      assert targets == targets[..n] + [targets[n]];
      assert Writes(targets, tid) <==> Writes(targets[..n], tid) || targets[n].id == tid by {
        if Writes(targets[..n], tid) {
          var a :| 0 <= a < n && targets[..n][a].id == tid;
          assert targets[a].id == tid;
        }
      }
    }
  }

  ghost predicate SomeWrites(entries: seq<FwdEntry>, tid: nat) {
    exists i :: 0 <= i < |entries| && Writes(entries[i].targets, tid)
  }

  lemma SomeWritesMore(entries: seq<FwdEntry>, n: nat, tid: nat)
    requires |entries| == n + 1
    ensures SomeWrites(entries, tid) <==> SomeWrites(entries[..n], tid) || Writes(entries[n].targets, tid)
  {
    if SomeWrites(entries[..n], tid) {
      var i :| 0 <= i < n && Writes(entries[..n][i].targets, tid);
      assert entries[i] == entries[..n][i];
    }
    if SomeWrites(entries, tid) && !Writes(entries[n].targets, tid) {
      var i :| 0 <= i < |entries| && Writes(entries[i].targets, tid);
      assert entries[i] == entries[..n][i];
    }
  }

  /** Of all the writers of a reverse list in one batch only one takes effect. */
  lemma {:induction false} DropAllEffect(read: Db, entries: seq<FwdEntry>, tid: nat) returns (w: nat)
    ensures !SomeWrites(entries, tid) ==> LinkersAt(DropAll(read, read, entries), tid) == LinkersAt(read, tid)
    ensures SomeWrites(entries, tid) ==>
            && w < |entries| && Writes(entries[w].targets, tid)
            && LinkersAt(DropAll(read, read, entries), tid) ==
              RemoveLinker(LinkersAt(read, tid), SlotOf(entries[w].key))
  {
    w := 0;
    if entries != [] {
      var n := |entries| - 1;
      w := DropAllEffect(read, entries[..n], tid);
      SomeWritesMore(entries, n, tid);
      DropAllMore(read, entries, n, tid);
      if Writes(entries[n].targets, tid) {
        w := n;
      }
    }
  }

  lemma DropAllMore(read: Db, entries: seq<FwdEntry>, n: nat, tid: nat)
    requires |entries| == n + 1
    ensures LinkersAt(DropAll(read, read, entries), tid) ==
            if Writes(entries[n].targets, tid) then RemoveLinker(LinkersAt(read, tid), SlotOf(entries[n].key))
            else LinkersAt(DropAll(read, read, entries[..n]), tid)
  {
    DropTargetsEffect(read, DropAll(read, read, entries[..n]), SlotOf(entries[n].key), entries[n].targets, tid);
  }

  /** A batch entry writes a reverse list exactly when its record links there. */
  lemma WritesMeansLinks(m: Index, db: Db, did: Did, entries: seq<FwdEntry>, i: nat, key: TargetKey)
    requires Inv(m) && IdsOk(db) && Coupled(m, db)
    requires EntriesFor(db, did, entries) && i < |entries| && key in m.targets
    ensures Writes(entries[i].targets, db.targetIds[key]) <==> LinksTo(m, RecordOf(did, entries[i].key), key)
  {
    var e := entries[i];
    var rec := RecordOf(did, e.key);
    var f := Forward(m, rec);
    assert ForwardCoupled(m, db, rec);
    assert e.targets == EncodeLinks(rec, f, db.targetIds);
    forall a | 0 <= a < |f| ensures KeyOf(rec, f[a]) in db.targetIds {
      ForwardHasSlot(m, rec, KeyOf(rec, f[a]));
    }
    if LinksTo(m, rec, key) {
      var a :| 0 <= a < |f| && f[a] == LinkOf(key);
      assert e.targets[a].id == db.targetIds[key];
    }
    if Writes(e.targets, db.targetIds[key]) {
      var a :| 0 <= a < |e.targets| && e.targets[a].id == db.targetIds[key];
      assert KeyOf(rec, f[a]) == key;
    }
  }

  /** Id slots name linkers: equal after encoding only if equal before. */
  lemma SlotNames(db: Db, s: Slot, did: Did, rkey: string)
    requires IdsOk(db) && did in db.dids
    requires s.Some? ==> s.value.did in db.dids
    ensures EncodeSlot(s, db.dids) == IdSlot(db.dids[did].id, rkey) <==> s == Some(Linker(did, rkey))
  {
  }

  /** Removing the only slot of a linker is clearing that linker. */
  lemma RemoveOnly(db: Db, slots: seq<Slot>, did: Did, rkey: string)
    requires IdsOk(db) && did in db.dids
    requires forall i :: 0 <= i < |slots| && slots[i].Some? ==> slots[i].value.did in db.dids
    requires multiset(slots)[Some(Linker(did, rkey))] == 1
    ensures RemoveLinker(Encode(slots, db.dids), IdSlot(db.dids[did].id, rkey)) ==
              Encode(ClearLinker(slots, Linker(did, rkey)), db.dids)
  {
    var x := IdSlot(db.dids[did].id, rkey);
    var s := Some(Linker(did, rkey));
    var enc := Encode(slots, db.dids);
    OccursIn(slots, s);
    var q :| 0 <= q < |slots| && slots[q] == s;
    forall i | 0 <= i < |slots| ensures enc[i] == x <==> i == q {
      SlotNames(db, slots[i], did, rkey);
      if slots[i] == s && i != q {
        TwoOccurrences(slots, if i < q then i else q, if i < q then q else i);
      }
    }
    assert enc[q] == x;
    assert LastIndex(enc, x) == q;
    assert RemoveLinker(enc, x) == Encode(ClearLinker(slots, Linker(did, rkey)), db.dids);
  }

  lemma {:induction false} ClearSlotsOfCounts(slots: seq<Slot>, collection: string, recs: set<RecordId>, y: Linker)
    ensures multiset(ClearSlotsOf(slots, collection, recs))[Some(y)] ==
            if RecordId(y.did, collection, y.rkey) in recs then 0 else multiset(slots)[Some(y)]
  {
    if slots != [] {
      var n := |slots| - 1;
      assert slots == slots[..n] + [slots[n]];
      assert ClearSlotsOf(slots, collection, recs) ==
        ClearSlotsOf(slots[..n], collection, recs) + [ClearSlotsOf(slots, collection, recs)[n]];
      ClearSlotsOfCounts(slots[..n], collection, recs, y);
    }
  }

  lemma ClearRecordsKeepsInv(m: Index, recs: set<RecordId>)
    requires Inv(m)
    ensures Inv(ClearRecords(m, recs))
  {
    var m' := ClearRecords(m, recs);
    forall rec, l ensures Balanced(m', rec, l) {
      assert Balanced(m, rec, l);
      if KeyOf(rec, l) in m.targets {
        ClearSlotsOfCounts(m.targets[KeyOf(rec, l)], rec.collection, recs, LinkerOf(rec));
      }
    }
  }

  lemma ClearNobody(m: Index, recs: seq<RecordId>, key: TargetKey)
    requires Inv(m) && key in m.targets
    requires forall i :: 0 <= i < |recs| ==> !LinksTo(m, recs[i], key)
    ensures ClearSlotsOf(m.targets[key], key.collection, SetOf(recs)) == m.targets[key]
  {
    var slots := m.targets[key];
    forall p | 0 <= p < |slots| ensures ClearSlotsOf(slots, key.collection, SetOf(recs))[p] == slots[p] {
      if slots[p].Some? {
        ForwardHasSlot(m, RecordId(slots[p].value.did, key.collection, slots[p].value.rkey), key);
      }
    }
  }

  lemma OnlyLinker(m: Index, recs: seq<RecordId>, key: TargetKey, w: nat, i: nat)
    requires NoSharedTarget(m, recs) && w < |recs| && i < |recs|
    requires LinksTo(m, recs[w], key) && LinksTo(m, recs[i], key)
    ensures i == w && multiset(Forward(m, recs[w]))[LinkOf(key)] == 1
  {
    var f, g := Forward(m, recs[w]), Forward(m, recs[i]);
    var a :| 0 <= a < |f| && f[a] == LinkOf(key);
    var b :| 0 <= b < |g| && g[b] == LinkOf(key);
    assert KeyOf(recs[w], f[a]) == KeyOf(recs[i], g[b]);
    OccursIn(f, LinkOf(key));
    if multiset(f)[LinkOf(key)] >= 2 {
      var _, _ := OccursTwice(f, LinkOf(key));
    }
  }

  lemma ClearOne(m: Index, recs: seq<RecordId>, key: TargetKey, w: nat)
    requires Inv(m) && key in m.targets && NoSharedTarget(m, recs)
    requires w < |recs| && LinksTo(m, recs[w], key)
    ensures ClearSlotsOf(m.targets[key], key.collection, SetOf(recs)) == ClearLinker(m.targets[key], LinkerOf(recs[w]))
    ensures multiset(m.targets[key])[Some(LinkerOf(recs[w]))] == 1
  {
    var slots := m.targets[key];
    OnlyLinker(m, recs, key, w, w);
    ForwardHasSlot(m, recs[w], key);
    forall p | 0 <= p < |slots|
      ensures ClearSlotsOf(slots, key.collection, SetOf(recs))[p] == ClearLinker(slots, LinkerOf(recs[w]))[p]
    {
      if slots[p].Some? {
        var rec := RecordId(slots[p].value.did, key.collection, slots[p].value.rkey);
        if rec in recs {
          var i :| 0 <= i < |recs| && recs[i] == rec;
          ForwardHasSlot(m, rec, key);
          OnlyLinker(m, recs, key, w, i);
        }
      }
    }
  }

  /** One reverse list after a batch without shared targets. */
  lemma DropBatchList(m: Index, db: Db, did: Did, entries: seq<FwdEntry>, key: TargetKey)
    requires Inv(m) && IdsOk(db) && Coupled(m, db) && EntriesFor(db, did, entries)
    requires NoSharedTarget(m, RecordsOf(did, entries)) && key in m.targets
    ensures LinkersAt(DropAll(db, db, entries), db.targetIds[key]) ==
            Encode(ClearSlotsOf(m.targets[key], key.collection, SetOf(RecordsOf(did, entries))), db.dids)
  {
    var recs, tid := RecordsOf(did, entries), db.targetIds[key];
    var w := DropAllEffect(db, entries, tid);
    forall i | 0 <= i < |recs| ensures Writes(entries[i].targets, tid) <==> LinksTo(m, recs[i], key) {
      WritesMeansLinks(m, db, did, entries, i, key);
    }
    if exists i :: 0 <= i < |entries| && Writes(entries[i].targets, tid) {
      ClearOne(m, recs, key, w);
      RemoveOnly(db, m.targets[key], did, recs[w].rkey);
    } else {
      ClearNobody(m, recs, key);
    }
  }

  lemma DropBatchForward(m: Index, db: Db, did: Did, entries: seq<FwdEntry>, rec: RecordId)
    requires IdsOk(db) && ForwardCoupled(m, db, rec) && EntriesFor(db, did, entries)
    ensures ForwardCoupled(ClearRecords(m, SetOf(RecordsOf(did, entries))), DropAll(db, db, entries), rec)
  {
    DropAllOk(db, entries);
    if rec.did in db.dids {
      EntryOfRecord(db, did, entries, rec);
    }
  }

  /** A record is in the batch exactly when its forward key is. */
  lemma EntryOfRecord(db: Db, did: Did, entries: seq<FwdEntry>, rec: RecordId)
    requires IdsOk(db) && EntriesFor(db, did, entries) && rec.did in db.dids
    ensures rec in RecordsOf(did, entries) <==> FwdKey(db.dids[rec.did].id, rec.collection, rec.rkey) in KeysOf(entries)
  {
    var recs, f := RecordsOf(did, entries), FwdKey(db.dids[rec.did].id, rec.collection, rec.rkey);
    if rec in recs {
      var i :| 0 <= i < |recs| && recs[i] == rec;
      assert entries[i].key == f;
    } else {
      forall i | 0 <= i < |entries| ensures entries[i].key != f {
        assert recs[i] != rec;
      }
    }
  }

  /** A batch without shared targets removes exactly the links of its records. */
  lemma DropBatchCouples(m: Index, db: Db, did: Did, entries: seq<FwdEntry>)
    requires Inv(m) && IdsOk(db) && Coupled(m, db) && EntriesFor(db, did, entries)
    requires NoSharedTarget(m, RecordsOf(did, entries))
    ensures Coupled(ClearRecords(m, SetOf(RecordsOf(did, entries))), DropAll(db, db, entries))
  {
    var m', db' := ClearRecords(m, SetOf(RecordsOf(did, entries))), DropAll(db, db, entries);
    DropAllOk(db, entries);
    forall key | key in m'.targets ensures LinkersAt(db', db'.targetIds[key]) == Encode(m'.targets[key], db'.dids) {
      DropBatchList(m, db, did, entries, key);
    }
    forall rec ensures ForwardCoupled(m', db', rec) {
      DropBatchForward(m, db, did, entries, rec);
    }
  }

  /** Two links of a batch naming one reverse list. */
  ghost predicate Shared(m: Index, recs: seq<RecordId>, i: nat, a: nat, j: nat, b: nat) {
    && i < |recs| && j < |recs| && a < |Forward(m, recs[i])| && b < |Forward(m, recs[j])|
    && KeyOf(recs[i], Forward(m, recs[i])[a]) == KeyOf(recs[j], Forward(m, recs[j])[b])
    && (i != j || a < b)
  }

  lemma FindShared(m: Index, recs: seq<RecordId>) returns (i: nat, a: nat, j: nat, b: nat)
    requires !NoSharedTarget(m, recs)
    ensures Shared(m, recs, i, a, j, b)
  {
    i, j, a, b :|
      0 <= i < |recs| && 0 <= j < |recs| && 0 <= a < |Forward(m, recs[i])| && 0 <= b < |Forward(m, recs[j])|
      && KeyOf(recs[i], Forward(m, recs[i])[a]) == KeyOf(recs[j], Forward(m, recs[j])[b]) && !(i == j && a == b);
    if i == j && b < a {
      a, b := b, a;
    }
  }

  /** The last writer of a reverse list that some record of the batch links to. */
  lemma LastWriter(m: Index, db: Db, did: Did, entries: seq<FwdEntry>, i: nat, key: TargetKey) returns (w: nat)
    requires Inv(m) && IdsOk(db) && Coupled(m, db) && EntriesFor(db, did, entries)
    requires i < |entries| && key in m.targets && LinksTo(m, RecordOf(did, entries[i].key), key)
    ensures w < |entries| && LinksTo(m, RecordOf(did, entries[w].key), key)
    ensures LinkersAt(DropAll(db, db, entries), db.targetIds[key])
         == RemoveLinker(Encode(m.targets[key], db.dids), SlotOf(entries[w].key))
  {
    WritesMeansLinks(m, db, did, entries, i, key);
    assert SomeWrites(entries, db.targetIds[key]);
    w := DropAllEffect(db, entries, db.targetIds[key]);
    WritesMeansLinks(m, db, did, entries, w, key);
  }

  /** A record's slot in a reverse list it links to, before and after encoding. */
  lemma LinkingSlot(m: Index, db: Db, did: Did, key: FwdKey, target: TargetKey) returns (p: nat)
    requires Inv(m) && did in db.dids && key.did == db.dids[did].id && LinksTo(m, RecordOf(did, key), target)
    ensures target in m.targets && p < |m.targets[target]| && Encode(m.targets[target], db.dids)[p] == SlotOf(key)
  {
    ForwardHasSlot(m, RecordOf(did, key), target);
    p :| 0 <= p < |m.targets[target]| && m.targets[target][p] == Some(LinkerOf(RecordOf(did, key)));
  }

  /** A record linking twice to one target has two slots there. */
  lemma LinkingSlots(m: Index, db: Db, did: Did, key: FwdKey, target: TargetKey, a: nat, b: nat)
    returns (p: nat, q: nat)
    requires Inv(m) && did in db.dids && key.did == db.dids[did].id && key.collection == target.collection
    requires var f := Forward(m, RecordOf(did, key)); a < b < |f| && f[a] == LinkOf(target) == f[b]
    ensures target in m.targets && p < q < |m.targets[target]|
    ensures Encode(m.targets[target], db.dids)[p] == SlotOf(key) == Encode(m.targets[target], db.dids)[q]
  {
    var rec := RecordOf(did, key);
    ForwardHasSlot(m, rec, target);
    TwoOccurrences(Forward(m, rec), a, b);
    p, q := OccursTwice(m.targets[target], Some(LinkerOf(rec)));
  }

  /** In a batch with a shared target, some link of its records survives. */
  lemma DropBatchLeaves(m: Index, db: Db, did: Did, entries: seq<FwdEntry>) returns (key: TargetKey, r: nat)
    requires Inv(m) && IdsOk(db) && Coupled(m, db) && EntriesFor(db, did, entries)
    requires !NoSharedTarget(m, RecordsOf(did, entries))
    ensures key in m.targets && r < |entries| && key.collection == entries[r].key.collection
    ensures SlotOf(entries[r].key) in LinkersAt(DropAll(db, db, entries), db.targetIds[key])
    ensures |LinkersAt(DropAll(db, db, entries), db.targetIds[key])| == |m.targets[key]|
  {
    var recs := RecordsOf(did, entries);
    var i, a, j, b := FindShared(m, recs);
    key := KeyOf(recs[i], Forward(m, recs[i])[a]);
    ForwardHasSlot(m, recs[i], key);
    var w := LastWriter(m, db, did, entries, i, key);
    r := if i != w then i else j;
    LeftInBatch(m, db, did, entries, key, r, w, a, b);
  }

  lemma LeftInBatch(m: Index, db: Db, did: Did, entries: seq<FwdEntry>, key: TargetKey, r: nat, w: nat, a: nat, b: nat)
    requires Inv(m) && EntriesFor(db, did, entries) && key in m.targets && r < |entries| && w < |entries|
    requires LinksTo(m, RecordOf(did, entries[r].key), key) && LinksTo(m, RecordOf(did, entries[w].key), key)
    requires r == w ==> var f := Forward(m, RecordOf(did, entries[w].key)); a < b < |f| && f[a] == LinkOf(key) == f[b]
    ensures SlotOf(entries[r].key) in RemoveLinker(Encode(m.targets[key], db.dids), SlotOf(entries[w].key))
  {
    var slots := Encode(m.targets[key], db.dids);
    if r == w {
      var p, q := LinkingSlots(m, db, did, entries[w].key, key, a, b);
      RemoveOneOfTwo(slots, SlotOf(entries[w].key), p, q);
    } else {
      var p := LinkingSlot(m, db, did, entries[r].key, key);
      RemoveAnother(slots, SlotOf(entries[w].key), p);
    }
  }

  lemma RemoveAnother(slots: seq<IdSlot>, x: IdSlot, p: nat)
    requires p < |slots| && slots[p] != x
    ensures slots[p] in RemoveLinker(slots, x)
  {
    assert RemoveLinker(slots, x)[p] == slots[p];
  }

  lemma RemoveOneOfTwo(slots: seq<IdSlot>, x: IdSlot, p: nat, q: nat)
    requires p < q < |slots| && slots[p] == x && slots[q] == x
    ensures x in RemoveLinker(slots, x)
  {
    assert RemoveLinker(slots, x)[p] == x by {
      var last := LastIndex(slots, x);
      assert forall k :: last < k < |slots| ==> slots[k] == slots[last + 1..][k - last - 1];
    }
  }
}
