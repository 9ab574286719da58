/**
Which accounts a backlink store knows and shows: read off the events that arrived,
for the plain index and for the RocksDB store.
*/
module AccountStates {
  import opened Options
  import opened LinkIndex
  import opened LinkReads
  import opened RocksIndex
  import opened RocksIds

  /* ---- what the history says of one account ---- */

  /** What an event says about one account. */
  datatype Word = Joins | Leaves | On | Off | Silent

  /** Word `k` makes the account known, and no later one makes it unknown. */
  ghost predicate JoinedAt(words: seq<Word>, k: nat) {
    k < |words| && words[k].Joins? && forall j :: k < j < |words| ==> !words[j].Leaves?
  }

  ghost predicate Joined(words: seq<Word>) {
    exists k: nat :: JoinedAt(words, k)
  }

  /** Word `j` switches the account off after it joined, and no later one switches it on. */
  ghost predicate OffAt(words: seq<Word>, j: nat) {
    && j < |words| && words[j].Off?
    && (exists k: nat :: k < j && JoinedAt(words, k))
    && forall i :: j < i < |words| ==> !words[i].On?
  }

  ghost predicate SwitchedOff(words: seq<Word>) {
    exists j: nat :: OffAt(words, j)
  }

  /** A store's entry for the account: known exactly when it joined, and shown unless switched off since. */
  ghost predicate Tells(entry: Option<bool>, words: seq<Word>) {
    && (entry.Some? <==> Joined(words))
    && (entry.Some? ==> (entry.value <==> !SwitchedOff(words)))
  }

  lemma JoinedMore(words: seq<Word>, w: Word)
    ensures Joined(words + [w]) <==> w.Joins? || (Joined(words) && !w.Leaves?)
  {
    var more := words + [w];
    if w.Joins? {
      assert JoinedAt(more, |words|);
    } else if Joined(words) && !w.Leaves? {
      var k: nat :| JoinedAt(words, k);
      assert JoinedAt(more, k);
    }
    if k: nat :| JoinedAt(more, k) && k < |words| {
      assert more[|words|] == w && forall j :: k < j < |words| ==> more[j] == words[j];
      assert JoinedAt(words, k);
    }
  }

  lemma OffStays(words: seq<Word>, w: Word)
    requires SwitchedOff(words) && !w.On? && !w.Leaves?
    ensures SwitchedOff(words + [w])
  {
    var j: nat :| OffAt(words, j);
    var k: nat :| k < j && JoinedAt(words, k);
    assert JoinedAt(words + [w], k);
    assert OffAt(words + [w], j);
  }

  lemma OffNow(words: seq<Word>)
    requires Joined(words)
    ensures SwitchedOff(words + [Off])
  {
    var k: nat :| JoinedAt(words, k);
    assert JoinedAt(words + [Off], k);
    assert OffAt(words + [Off], |words|);
  }

  lemma OffBefore(words: seq<Word>, w: Word)
    requires SwitchedOff(words + [w])
    ensures (w.Off? && Joined(words)) || (SwitchedOff(words) && !w.On? && !w.Leaves?)
  {
    var more := words + [w];
    var j: nat :| OffAt(more, j);
    var k: nat :| k < j && JoinedAt(more, k);
    assert more[|words|] == w && forall i :: 0 <= i < |words| ==> more[i] == words[i];
    assert JoinedAt(words, k);
    if j < |words| {
      assert OffAt(words, j);
    }
  }

  /** What a word does to what the history says. */
  function After(entry: Option<bool>, w: Word): Option<bool> {
    match w
    case Joins => if entry.Some? then entry else Some(true)
    case Leaves => None
    case On => if entry.Some? then Some(true) else None
    case Off => if entry.Some? then Some(false) else None
    case Silent => entry
  }

  lemma OffImpliesJoined(words: seq<Word>)
    requires SwitchedOff(words)
    ensures Joined(words)
  {
    var j: nat :| OffAt(words, j);
    var k: nat :| k < j && JoinedAt(words, k);
  }

  lemma TellsMore(entry: Option<bool>, words: seq<Word>, w: Word)
    requires Tells(entry, words)
    ensures Tells(After(entry, w), words + [w])
  {
    JoinedMore(words, w);
    if SwitchedOff(words) {
      OffImpliesJoined(words);
      if !w.On? && !w.Leaves? {
        OffStays(words, w);
      }
    }
    if w.Off? && Joined(words) {
      OffNow(words);
    }
    if SwitchedOff(words + [w]) {
      OffBefore(words, w);
    }
  }

  lemma NothingSaid()
    ensures Tells(None, [])
  {
  }

  /* ---- the plain index ---- */

  /** An event with links registers its account; one without does not. */
  function Said(e: Event, did: Did): Word {
    match e
    case CreateLinks(rec, links) => if rec.did == did && links != [] then Joins else Silent
    case UpdateLinks(rec, links) => if rec.did == did && links != [] then Joins else Silent
    case DeleteRecord(_) => Silent
    case ActivateAccount(d) => if d == did then On else Silent
    case DeactivateAccount(d) => if d == did then Off else Silent
    case DeleteAccount(d) => if d == did then Leaves else Silent
  }

  function AllSaid(events: seq<Event>, did: Did): (r: seq<Word>)
    ensures |r| == |events| && forall i :: 0 <= i < |r| ==> r[i] == Said(events[i], did)
  {
    seq(|events|, i requires 0 <= i < |events| => Said(events[i], did))
  }

  function EntryOf(m: Index, did: Did): Option<bool> {
    if did in m.dids then Some(m.dids[did]) else None
  }

  lemma PushSays(m: Index, e: Event, did: Did)
    ensures EntryOf(Push(m, e), did) == After(EntryOf(m, did), Said(e, did))
  {
    match e
    case CreateLinks(rec, links) => AddLinksKeys(m, rec, links);
    case UpdateLinks(rec, links) => AddLinksKeys(ClearRecord(m, rec), rec, links);
    case _ =>
  }

  /**
  Over every run: an account is known exactly when it was registered and not deleted
  since, and then active unless its last activation event since then is a deactivation.
  */
  lemma {:induction false} AccountState(events: seq<Event>, did: Did)
    ensures Tells(EntryOf(Run(EMPTY, events), did), AllSaid(events, did))
  {
    if events == [] {
      NothingSaid();
      assert AllSaid(events, did) == [];
    } else {
      var n := |events| - 1;
      AccountState(events[..n], did);
      PushSays(Run(EMPTY, events[..n]), events[n], did);
      assert AllSaid(events, did) == AllSaid(events[..n], did) + [Said(events[n], did)];
      TellsMore(EntryOf(Run(EMPTY, events[..n]), did), AllSaid(events[..n], did), Said(events[n], did));
    }
  }

  /* ---- the RocksDB store ---- */

  /** Here an event without links registers its account too; a restart or a deletion cut short says nothing. */
  function RocksSaid(s: RocksIds.Step, did: Did): Word {
    match s
    case Handle(CreateLinks(rec, _), _) => if rec.did == did then Joins else Silent
    case Handle(UpdateLinks(rec, _), _) => if rec.did == did then Joins else Silent
    case Handle(e, _) => Said(e, did)
    case Restart => Silent
    case CrashDeleting(_, _, _) => Silent
  }

  function AllRocksSaid(steps: seq<RocksIds.Step>, did: Did): (r: seq<Word>)
    ensures |r| == |steps| && forall i :: 0 <= i < |r| ==> r[i] == RocksSaid(steps[i], did)
  {
    seq(|steps|, i requires 0 <= i < |steps| => RocksSaid(steps[i], did))
  }

  function RocksEntryOf(dids: map<Did, DidVal>, did: Did): Option<bool> {
    if did in dids then Some(dids[did].active) else None
  }

  lemma {:induction false} LinkAllDids(read: Db, pend: Rocks, rec: RecordId, id: nat, links: seq<Link>)
    ensures LinkAll(read, pend, rec, id, links).pend.db.dids == pend.db.dids
  {
    if links != [] {
      LinkAllDids(read, pend, rec, id, links[..|links| - 1]);
    }
  }

  lemma AddRecordSays(read: Db, pend: Rocks, rec: RecordId, links: seq<Link>, did: Did)
    requires read.dids == pend.db.dids
    ensures RocksEntryOf(AddRecord(read, pend, rec, links).db.dids, did) ==
            After(RocksEntryOf(read.dids, did), if rec.did == did then Joins else Silent)
  {
    LinkAllDids(read, RegisterDid(read, pend, rec.did), rec, DidIdFor(read, pend, rec.did), links);
  }

  lemma HandleSays(r: Rocks, e: Event, scan: seq<FwdEntry>, did: Did)
    requires Wf(r) && ScanFor(r.db, e, scan)
    ensures RocksEntryOf(PushRocks(r, e, scan).db.dids, did) ==
            After(RocksEntryOf(r.db.dids, did), RocksSaid(Handle(e, scan), did))
  {
    match e
    case CreateLinks(rec, links) => AddRecordSays(r.db, r, rec, links, did);
    case UpdateLinks(rec, links) =>
      RemoveRecordOk(r.db, rec);
      AddRecordSays(r.db, r.(db := RemoveRecord(r.db, rec)), rec, links, did);
    case DeleteRecord(rec) => RemoveRecordOk(r.db, rec);
    case DeleteAccount(d) =>
      if d in r.db.dids {
        DropChunksOk(r.db, scan);
      }
    case _ =>
  }

  lemma TakeSays(r: Rocks, s: RocksIds.Step, did: Did)
    requires Wf(r) && Allowed(r, s)
    ensures RocksEntryOf(Take(r, s).db.dids, did) == After(RocksEntryOf(r.db.dids, did), RocksSaid(s, did))
  {
    match s
    case Restart =>
    case CrashDeleting(d, scan, chunks) =>
      if d in r.db.dids {
        DropChunksOk(r.db, CommittedChunks(scan, chunks));
      }
    case Handle(e, scan) => HandleSays(r, e, scan, did);
  }

  /** The same of the RocksDB store, over every run with restarts and deletions cut short. */
  lemma {:induction false} RocksAccountState(states: seq<Rocks>, steps: seq<RocksIds.Step>, did: Did, i: nat)
    requires RocksIds.IsRun(states, steps) && i <= |steps|
    ensures Tells(RocksEntryOf(states[i].db.dids, did), AllRocksSaid(steps[..i], did))
  {
    if i == 0 {
      NothingSaid();
      assert AllRocksSaid(steps[..i], did) == [];
    } else {
      RocksAccountState(states, steps, did, i - 1);
      RunWf(states, steps, i - 1);
      TakeSays(states[i - 1], steps[i - 1], did);
      var before := AllRocksSaid(steps[..i - 1], did);
      assert AllRocksSaid(steps[..i], did) == before + [RocksSaid(steps[i - 1], did)];
      TellsMore(RocksEntryOf(states[i - 1].db.dids, did), before, RocksSaid(steps[i - 1], did));
    }
  }

  /* ---- what readers see of it ---- */

  lemma {:induction false} NoItemOf(dids: map<Did, bool>, slots: seq<Slot>, collection: string, did: Did)
    requires !Active(dids, did)
    ensures forall i :: 0 <= i < |LinkItems(dids, slots, collection)| ==>
              LinkItems(dids, slots, collection)[i].did != did
  {
    if slots != [] {
      NoItemOf(dids, slots[..|slots| - 1], collection, did);
    }
  }

  /** No page of links, and none of accounts, shows an account that is not active. */
  lemma InactiveHidden(m: Index, did: Did, key: TargetKey, limit: nat, until: Option<nat>)
    requires !Active(m.dids, did)
    ensures forall rec :: rec in GetLinks(m, key, limit, until).items ==> rec.did != did
    ensures did !in GetDistinctDids(m, key, limit, until).items
  {
    if key in m.targets {
      var slots := m.targets[key];
      var w := WindowOf(|slots|, limit, until);
      NoItemOf(m.dids, slots[w.begin..w.end], key.collection, did);
      NoItemOf(m.dids, FirstOnly(slots)[w.begin..w.end], key.collection, did);
    }
  }

  /**
  Deactivating an account hides it from every page and changes no count; activating
  it again brings back exactly the reads there were before.
  */
  lemma DeactivatedThenActivated(m: Index, did: Did, key: TargetKey, limit: nat, until: Option<nat>)
    requires Active(m.dids, did)
    ensures var off := Push(m, DeactivateAccount(did));
            && (forall rec :: rec in GetLinks(off, key, limit, until).items ==> rec.did != did)
            && did !in GetDistinctDids(off, key, limit, until).items
            && GetCount(off, key) == GetCount(m, key) && GetDistinctDidCount(off, key) == GetDistinctDidCount(m, key)
    ensures var back := Push(Push(m, DeactivateAccount(did)), ActivateAccount(did));
            && GetLinks(back, key, limit, until) == GetLinks(m, key, limit, until)
            && GetDistinctDids(back, key, limit, until) == GetDistinctDids(m, key, limit, until)
  {
    InactiveHidden(Push(m, DeactivateAccount(did)), did, key, limit, until);
    assert Push(Push(m, DeactivateAccount(did)), ActivateAccount(did)) == m;
  }

  lemma {:induction false} NoIdItemOf(db: Db, slots: seq<IdSlot>, collection: string, did: Did)
    requires RocksEntryOf(db.dids, did) != Some(true)
    ensures forall rec :: rec in IdItems(db, slots, collection) ==> rec.did != did
  {
    if slots != [] {
      NoIdItemOf(db, slots[..|slots| - 1], collection, did);
    }
  }

  lemma RocksInactiveHidden(db: Db, did: Did, key: TargetKey, limit: nat, until: Option<nat>)
    requires RocksEntryOf(db.dids, did) != Some(true)
    ensures forall rec :: rec in RocksLinks(db, key, limit, until).items ==> rec.did != did
    ensures did !in RocksDistinctDids(db, key, limit, until).items
  {
    if key in db.targetIds {
      var slots := LinkersAt(db, db.targetIds[key]);
      var w := WindowOf(|slots|, limit, until);
      NoIdItemOf(db, slots[w.begin..w.end], key.collection, did);
      NoIdItemOf(db, IdFirstOnly(slots)[w.begin..w.end], key.collection, did);
    }
  }

  /** The same of the RocksDB store. */
  lemma RocksDeactivatedThenActivated(r: Rocks, did: Did, key: TargetKey, limit: nat, until: Option<nat>)
    requires RocksEntryOf(r.db.dids, did) == Some(true)
    ensures var off := PushRocks(r, DeactivateAccount(did), []).db;
            && (forall rec :: rec in RocksLinks(off, key, limit, until).items ==> rec.did != did)
            && did !in RocksDistinctDids(off, key, limit, until).items
            && RocksCount(off, key) == RocksCount(r.db, key)
    ensures PushRocks(PushRocks(r, DeactivateAccount(did), []), ActivateAccount(did), []) == r
  {
    RocksInactiveHidden(PushRocks(r, DeactivateAccount(did), []).db, did, key, limit, until);
    var back := PushRocks(PushRocks(r, DeactivateAccount(did), []), ActivateAccount(did), []);
    assert back.db.dids == r.db.dids;
  }
}
