/** The read operations of both backlink stores, and that coupled stores answer alike. */
module LinkReads {
  import opened Options
  import opened Seqs
  import opened LinkIndex
  import opened RocksIndex
  import opened RocksIds
  import opened RocksRefinement

  /** `version`: (slots ever, tombstones); `next`: the cursor of the following page; `total`: live slots. */
  datatype Page<T> = Page(version: (nat, nat), items: seq<T>, next: Option<nat>, total: nat)
  datatype Window = Window(begin: nat, end: nat)
  datatype LinkCounts = LinkCounts(records: nat, distinctDids: nat)

  /** The slots one page looks at: the last `limit` below the cursor. */
  function WindowOf(total: nat, limit: nat, until: Option<nat>): (w: Window)
    ensures w.begin <= w.end <= total
  {
    var end := if until.Some? && until.value < total then until.value else total;
    Window(if end < limit then 0 else end - limit, end)
  }

  function NextOf(w: Window): Option<nat> {
    if w.begin == 0 then None else Some(w.begin)
  }

  /* ---- reads of the plain index ---- */

  function LiveCount(slots: seq<Slot>): (c: nat)
    ensures c <= |slots|
  {
    if slots == [] then 0
    else LiveCount(slots[..|slots| - 1]) + if slots[|slots| - 1].Some? then 1 else 0
  }

  function DidSet(slots: seq<Slot>): set<Did> {
    set i | 0 <= i < |slots| && slots[i].Some? :: slots[i].value.did
  }

  function Active(dids: map<Did, bool>, did: Did): bool {
    did in dids && dids[did]
  }

  /** Newest slot first; tombstones and inactive accounts are skipped. */
  function LinkItems(dids: map<Did, bool>, slots: seq<Slot>, collection: string): seq<RecordId> {
    if slots == [] then []
    else
      var s := slots[|slots| - 1];
      var rest := LinkItems(dids, slots[..|slots| - 1], collection);
      if s.Some? && Active(dids, s.value.did) then [RecordId(s.value.did, collection, s.value.rkey)] + rest else rest
  }

  /** Keep an account's oldest slot only. */
  function FirstOnly(slots: seq<Slot>): (r: seq<Slot>)
    ensures |r| == |slots|
  {
    seq(|slots|, i requires 0 <= i < |slots| =>
      if slots[i].Some? && slots[i].value.did in DidSet(slots[..i]) then None else slots[i])
  }

  function GetCount(m: Index, key: TargetKey): nat {
    LiveCount(SlotsAt(m.targets, key))
  }

  function GetDistinctDidCount(m: Index, key: TargetKey): nat {
    |DidSet(SlotsAt(m.targets, key))|
  }

  function LinkPage(dids: map<Did, bool>, slots: seq<Slot>, collection: string, limit: nat,
                    until: Option<nat>): Page<RecordId> {
    var w := WindowOf(|slots|, limit, until);
    Page((|slots|, |slots| - LiveCount(slots)), LinkItems(dids, slots[w.begin..w.end], collection), NextOf(w),
         LiveCount(slots))
  }

  function GetLinks(m: Index, key: TargetKey, limit: nat, until: Option<nat>): Page<RecordId> {
    if key !in m.targets then Page((0, 0), [], None, 0)
    else LinkPage(m.dids, m.targets[key], key.collection, limit, until)
  }

  function DidsOf(recs: seq<RecordId>): (r: seq<Did>)
    ensures |r| == |recs|
  {
    seq(|recs|, i requires 0 <= i < |recs| => recs[i].did)
  }

  function DidPage(p: Page<RecordId>): Page<Did> {
    Page(p.version, DidsOf(p.items), p.next, p.total)
  }

  function GetDistinctDids(m: Index, key: TargetKey, limit: nat, until: Option<nat>): Page<Did> {
    if key !in m.targets then Page((0, 0), [], None, 0)
    else DidPage(LinkPage(m.dids, FirstOnly(m.targets[key]), key.collection, limit, until))
  }

  function GetAllCounts(m: Index, target: string): map<TargetKey, LinkCounts> {
    map key | key in m.targets && key.target == target :: LinkCounts(GetCount(m, key), GetDistinctDidCount(m, key))
  }

  /* ---- reads of the RocksDB store ---- */

  function IdLiveCount(slots: seq<IdSlot>): (c: nat)
    ensures c <= |slots|
  {
    if slots == [] then 0
    else IdLiveCount(slots[..|slots| - 1]) + if slots[|slots| - 1].did != 0 then 1 else 0
  }

  function IdSet(slots: seq<IdSlot>): set<nat> {
    set i | 0 <= i < |slots| && slots[i].did != 0 :: slots[i].did
  }

  /** Look the account up by id, then its current value by name. */
  function Resolve(db: Db, s: IdSlot, collection: string): seq<RecordId> {
    if s.did == 0 || s.did !in db.origs then []
    else
      var did := db.origs[s.did];
      if did !in db.dids || !db.dids[did].active then [] else [RecordId(did, collection, s.rkey)]
  }

  function IdItems(db: Db, slots: seq<IdSlot>, collection: string): seq<RecordId> {
    if slots == [] then []
    else Resolve(db, slots[|slots| - 1], collection) + IdItems(db, slots[..|slots| - 1], collection)
  }

  /** Zero every id seen before; a second tombstone counts as seen too. */
  function IdFirstOnly(slots: seq<IdSlot>): (r: seq<IdSlot>)
    ensures |r| == |slots|
  {
    seq(|slots|, i requires 0 <= i < |slots| =>
      if exists j :: 0 <= j < i && slots[j].did == slots[i].did then IdSlot(0, slots[i].rkey) else slots[i])
  }

  function RocksCount(db: Db, key: TargetKey): nat {
    if key in db.targetIds then IdLiveCount(LinkersAt(db, db.targetIds[key])) else 0
  }

  function RocksDistinctDidCount(db: Db, key: TargetKey): nat {
    if key in db.targetIds then |IdSet(LinkersAt(db, db.targetIds[key]))| else 0
  }

  function IdPage(db: Db, slots: seq<IdSlot>, collection: string, limit: nat, until: Option<nat>): Page<RecordId> {
    var w := WindowOf(|slots|, limit, until);
    Page((|slots|, |slots| - IdLiveCount(slots)), IdItems(db, slots[w.begin..w.end], collection), NextOf(w),
         IdLiveCount(slots))
  }

  function RocksLinks(db: Db, key: TargetKey, limit: nat, until: Option<nat>): Page<RecordId> {
    if key !in db.targetIds then Page((0, 0), [], None, 0)
    else IdPage(db, LinkersAt(db, db.targetIds[key]), key.collection, limit, until)
  }

  function RocksDistinctDids(db: Db, key: TargetKey, limit: nat, until: Option<nat>): Page<Did> {
    if key !in db.targetIds then Page((0, 0), [], None, 0)
    else DidPage(IdPage(db, IdFirstOnly(LinkersAt(db, db.targetIds[key])), key.collection, limit, until))
  }

  function RocksAllCounts(db: Db, target: string): map<TargetKey, LinkCounts> {
    map key | key in db.targetIds && key.target == target ::
      LinkCounts(RocksCount(db, key), RocksDistinctDidCount(db, key))
  }

  /** The loop behind a page: newest slot first, skipping tombstones, unknown ids and inactive accounts. */
  method ResolveSlots(db: Db, slots: seq<IdSlot>, collection: string) returns (items: seq<RecordId>)
    ensures items == IdItems(db, slots, collection)
  {
    items := [];
    var i := |slots|;
    assert slots[..i] == slots;
    while i > 0
      invariant 0 <= i <= |slots|
      invariant items + IdItems(db, slots[..i], collection) == IdItems(db, slots, collection)
    {
      i := i - 1;
      ResolveNext(db, slots, i, collection, items);
      if slots[i].did != 0 && slots[i].did in db.origs {
        var did := db.origs[slots[i].did];
        if did in db.dids && db.dids[did].active {
          items := items + [RecordId(did, collection, slots[i].rkey)];
        }
      }
      NoMore(items);
    }
  }

  lemma ResolveNext(db: Db, slots: seq<IdSlot>, i: nat, collection: string, items: seq<RecordId>)
    requires i < |slots| && items + IdItems(db, slots[..i + 1], collection) == IdItems(db, slots, collection)
    ensures (items + Resolve(db, slots[i], collection)) + IdItems(db, slots[..i], collection) ==
              IdItems(db, slots, collection)
  {
    assert slots[..i + 1][..i] == slots[..i];
    Regroup(items, Resolve(db, slots[i], collection), IdItems(db, slots[..i], collection),
            IdItems(db, slots, collection));
  }

  lemma NoMore<T>(items: seq<T>)
    ensures items + [] == items
  {
  }

  /** The loop with a `seen` set behind distinct-account reads. */
  method ZeroRepeats(slots: seq<IdSlot>) returns (r: seq<IdSlot>)
    ensures r == IdFirstOnly(slots)
  {
    r := slots;
    var seen: set<nat> := {};
    for i := 0 to |slots|
      invariant |r| == |slots| && r[i..] == slots[i..]
      invariant seen == set j | 0 <= j < i :: slots[j].did
      invariant r[..i] == IdFirstOnly(slots)[..i]
    {
      assert r[i] == r[i..][0] == slots[i];
      if r[i].did in seen {
        r := r[i := IdSlot(0, r[i].rkey)];
      } else {
        seen := seen + {r[i].did};
      }
    }
  }

  /* ---- coupled stores answer alike ---- */

  /** The accounts of these slots are known, and `ids` is `slots` with interned accounts (rkeys of tombstones aside). */
  ghost predicate Interned(slots: seq<Slot>, ids: seq<IdSlot>, db: Db) {
    && |ids| == |slots|
    && forall i :: 0 <= i < |slots| ==>
        match slots[i]
        case None => ids[i].did == 0
        case Some(x) => x.did in db.dids && ids[i] == IdSlot(db.dids[x.did].id, x.rkey)
  }

  lemma {:induction false} SameLiveCount(slots: seq<Slot>, ids: seq<IdSlot>, db: Db)
    requires DidsOk(db.dids, db.origs, Stored(db.didSeq)) && Interned(slots, ids, db)
    ensures LiveCount(slots) == IdLiveCount(ids)
  {
    if slots != [] {
      SameLiveCount(slots[..|slots| - 1], ids[..|ids| - 1], db);
    }
  }

  lemma {:induction false} SameItems(dids: map<Did, bool>, slots: seq<Slot>, ids: seq<IdSlot>, db: Db,
                                     collection: string)
    requires DidsOk(db.dids, db.origs, Stored(db.didSeq)) && Interned(slots, ids, db) && DidsCoupled(dids, db.dids)
    ensures LinkItems(dids, slots, collection) == IdItems(db, ids, collection)
  {
    if slots != [] {
      SameItems(dids, slots[..|slots| - 1], ids[..|ids| - 1], db, collection);
    }
  }

  lemma LastDid(slots: seq<Slot>)
    requires slots != []
    ensures DidSet(slots) ==
              DidSet(slots[..|slots| - 1]) + if slots[|slots| - 1].Some? then {slots[|slots| - 1].value.did} else {}
  {
    assert slots == slots[..|slots| - 1] + [slots[|slots| - 1]];
  }

  lemma LastId(ids: seq<IdSlot>)
    requires ids != []
    ensures IdSet(ids) == IdSet(ids[..|ids| - 1]) + if ids[|ids| - 1].did != 0 then {ids[|ids| - 1].did} else {}
  {
    assert ids == ids[..|ids| - 1] + [ids[|ids| - 1]];
  }

  lemma SameMember(slots: seq<Slot>, ids: seq<IdSlot>, db: Db, d: Did)
    requires DidsOk(db.dids, db.origs, Stored(db.didSeq)) && Interned(slots, ids, db) && d in db.dids
    ensures d in DidSet(slots) <==> db.dids[d].id in IdSet(ids)
  {
    if d in DidSet(slots) {
      var i :| 0 <= i < |slots| && slots[i].Some? && slots[i].value.did == d;
      assert ids[i].did == db.dids[d].id;
    }
    if db.dids[d].id in IdSet(ids) {
      var i :| 0 <= i < |ids| && ids[i].did == db.dids[d].id;
      assert slots[i].Some?;
    }
  }

  lemma {:induction false} SameDistinct(slots: seq<Slot>, ids: seq<IdSlot>, db: Db)
    requires DidsOk(db.dids, db.origs, Stored(db.didSeq)) && Interned(slots, ids, db)
    ensures |DidSet(slots)| == |IdSet(ids)|
  {
    if slots != [] {
      var n := |slots| - 1;
      SameDistinct(slots[..n], ids[..n], db);
      LastDid(slots);
      LastId(ids);
      if slots[n].Some? {
        SameMember(slots[..n], ids[..n], db, slots[n].value.did);
      }
    }
  }

  lemma SameFirstOnly(slots: seq<Slot>, ids: seq<IdSlot>, db: Db)
    requires DidsOk(db.dids, db.origs, Stored(db.didSeq)) && Interned(slots, ids, db)
    ensures Interned(FirstOnly(slots), IdFirstOnly(ids), db)
  {
    forall i | 0 <= i < |slots| && slots[i].Some?
      ensures slots[i].value.did in DidSet(slots[..i]) <==> exists j :: 0 <= j < i && ids[j].did == ids[i].did
    {
      if slots[i].value.did in DidSet(slots[..i]) {
        var j :| 0 <= j < i && slots[..i][j].Some? && slots[..i][j].value.did == slots[i].value.did;
        assert ids[j].did == ids[i].did;
      }
      if j :| 0 <= j < i && ids[j].did == ids[i].did {
        assert slots[..i][j] == slots[j];
        assert slots[j].Some? && slots[j].value.did == slots[i].value.did;
      }
    }
  }

  lemma CoupledInterned(m: Index, db: Db, key: TargetKey)
    requires Inv(m) && Coupled(m, db) && key in m.targets
    ensures Interned(m.targets[key], LinkersAt(db, db.targetIds[key]), db)
  {
  }

  lemma SameCounts(m: Index, db: Db, key: TargetKey)
    requires Inv(m) && IdsOk(db) && Coupled(m, db)
    ensures RocksCount(db, key) == GetCount(m, key)
    ensures RocksDistinctDidCount(db, key) == GetDistinctDidCount(m, key)
  {
    if key in m.targets {
      CoupledInterned(m, db, key);
      SameLiveCount(m.targets[key], LinkersAt(db, db.targetIds[key]), db);
      SameDistinct(m.targets[key], LinkersAt(db, db.targetIds[key]), db);
    }
  }

  lemma SamePage(dids: map<Did, bool>, slots: seq<Slot>, ids: seq<IdSlot>, db: Db, collection: string, limit: nat,
                 until: Option<nat>)
    requires IdsOk(db) && DidsCoupled(dids, db.dids) && Interned(slots, ids, db)
    ensures LinkPage(dids, slots, collection, limit, until) == IdPage(db, ids, collection, limit, until)
  {
    var w := WindowOf(|slots|, limit, until);
    SameLiveCount(slots, ids, db);
    SameItems(dids, slots[w.begin..w.end], ids[w.begin..w.end], db, collection);
  }

  lemma SamePages(m: Index, db: Db, key: TargetKey, limit: nat, until: Option<nat>)
    requires Inv(m) && IdsOk(db) && Coupled(m, db)
    ensures RocksLinks(db, key, limit, until) == GetLinks(m, key, limit, until)
    ensures RocksDistinctDids(db, key, limit, until) == GetDistinctDids(m, key, limit, until)
  {
    if key in m.targets {
      var slots, ids := m.targets[key], LinkersAt(db, db.targetIds[key]);
      CoupledInterned(m, db, key);
      SamePage(m.dids, slots, ids, db, key.collection, limit, until);
      SameFirstOnly(slots, ids, db);
      SamePage(m.dids, FirstOnly(slots), IdFirstOnly(ids), db, key.collection, limit, until);
    }
  }

  /** Every read of the RocksDB store equals the read of the index it is coupled to. */
  lemma SameReads(m: Index, db: Db, key: TargetKey, limit: nat, until: Option<nat>)
    requires Inv(m) && IdsOk(db) && Coupled(m, db)
    ensures RocksCount(db, key) == GetCount(m, key)
    ensures RocksDistinctDidCount(db, key) == GetDistinctDidCount(m, key)
    ensures RocksLinks(db, key, limit, until) == GetLinks(m, key, limit, until)
    ensures RocksDistinctDids(db, key, limit, until) == GetDistinctDids(m, key, limit, until)
  {
    SameCounts(m, db, key);
    SamePages(m, db, key, limit, until);
  }

  lemma SameAllCounts(m: Index, db: Db, target: string)
    requires Inv(m) && IdsOk(db) && Coupled(m, db)
    ensures RocksAllCounts(db, target) == GetAllCounts(m, target)
  {
    forall key | key in m.targets
      ensures RocksCount(db, key) == GetCount(m, key) && RocksDistinctDidCount(db, key) == GetDistinctDidCount(m, key)
    {
      SameCounts(m, db, key);
    }
  }
}
