/**
`MemStorage`: the hash-map store, updated in place.

Every `expect` of the original is a map lookup or a search here, so the
verifier's acceptance of these bodies is the proof that none of them panics.
*/
module MemStore {
  import opened Options
  import opened LinkIndex

  /** `now` is `before` after one slot of `rec` was tombstoned for each link of `done`. */
  ghost predicate Taken(before: map<TargetKey, seq<Slot>>, now: map<TargetKey, seq<Slot>>, rec: RecordId,
                        done: seq<Link>)
  {
    && now.Keys == before.Keys
    && forall key :: key in now ==> TakenAt(before[key], now[key], key, rec, done)
  }

  ghost predicate TakenAt(before: seq<Slot>, now: seq<Slot>, key: TargetKey, rec: RecordId, done: seq<Link>) {
    var x := Some(LinkerOf(rec));
    if key.collection != rec.collection then now == before
    else
      && |now| == |before|
      && (forall i :: 0 <= i < |now| ==> now[i] == before[i] || (before[i] == x && now[i] == None))
      && multiset(now)[x] + multiset(done)[LinkOf(key)] == multiset(before)[x]
  }

  lemma TakeOne(before: map<TargetKey, seq<Slot>>, now: map<TargetKey, seq<Slot>>, rec: RecordId, done: seq<Link>,
                l: Link, j: nat)
    requires Taken(before, now, rec, done)
    requires KeyOf(rec, l) in now && j < |now[KeyOf(rec, l)]| && now[KeyOf(rec, l)][j] == Some(LinkerOf(rec))
    ensures Taken(before, now[KeyOf(rec, l) := now[KeyOf(rec, l)][j := None]], rec, done + [l])
  {
    var key := KeyOf(rec, l);
    var now' := now[key := now[key][j := None]];
    forall k | k in now' ensures TakenAt(before[k], now'[k], k, rec, done + [l]) {
      assert TakenAt(before[k], now[k], k, rec, done);
      if k == key {
        TakeHere(before[k], now[k], k, rec, done, l, j);
      } else {
        TakeElsewhere(before[k], now[k], k, rec, done, l);
      }
    }
  }

  lemma TakeHere(before: seq<Slot>, now: seq<Slot>, key: TargetKey, rec: RecordId, done: seq<Link>, l: Link, j: nat)
    requires TakenAt(before, now, key, rec, done) && key == KeyOf(rec, l) && j < |now| && now[j] == Some(LinkerOf(rec))
    ensures TakenAt(before, now[j := None], key, rec, done + [l])
  {
    assert multiset(now[j := None]) == multiset(now) - multiset{now[j]} + multiset{None};
  }

  lemma TakeElsewhere(before: seq<Slot>, now: seq<Slot>, key: TargetKey, rec: RecordId, done: seq<Link>, l: Link)
    requires TakenAt(before, now, key, rec, done) && key != KeyOf(rec, l)
    ensures TakenAt(before, now, key, rec, done + [l])
  {
  }

  lemma TakeNext(before: map<TargetKey, seq<Slot>>, now: map<TargetKey, seq<Slot>>, rec: RecordId, links: seq<Link>,
                 n: nat, j: nat)
    requires n < |links| && Taken(before, now, rec, links[..n])
    requires KeyOf(rec, links[n]) in now && j < |now[KeyOf(rec, links[n])]|
    requires now[KeyOf(rec, links[n])][j] == Some(LinkerOf(rec))
    ensures Taken(before, now[KeyOf(rec, links[n]) := now[KeyOf(rec, links[n])][j := None]], rec, links[..n + 1])
  {
    TakeOne(before, now, rec, links[..n], links[n], j);
    assert links[..n + 1] == links[..n] + [links[n]];
  }

  /** Taking one slot per forward link clears the record completely. */
  lemma TakenAllClears(m: Index, now: map<TargetKey, seq<Slot>>, rec: RecordId)
    requires Inv(m)
    requires Taken(m.targets, now, rec, Forward(m, rec))
    ensures now == ClearRecordSlots(m.targets, rec)
  {
    forall key | key in now ensures now[key] == ClearRecordSlots(m.targets, rec)[key] {
      assert TakenAt(m.targets[key], now[key], key, rec, Forward(m, rec));
      if key.collection == rec.collection {
        assert Balanced(m, rec, LinkOf(key));
        assert Some(LinkerOf(rec)) !in multiset(now[key]);
        assert forall i :: 0 <= i < |now[key]| ==> now[key][i] in multiset(now[key]);
        assert now[key] == ClearLinker(m.targets[key], LinkerOf(rec));
      }
    }
  }

  /** There is a slot left to take for the next forward link. */
  lemma SlotLeft(m: Index, now: map<TargetKey, seq<Slot>>, rec: RecordId, n: nat)
    requires Inv(m) && n < |Forward(m, rec)|
    requires Taken(m.targets, now, rec, Forward(m, rec)[..n])
    ensures KeyOf(rec, Forward(m, rec)[n]) in now
    ensures Some(LinkerOf(rec)) in now[KeyOf(rec, Forward(m, rec)[n])]
  {
    var f := Forward(m, rec);
    var l := f[n];
    var key := KeyOf(rec, l);
    assert Balanced(m, rec, l);
    assert f == f[..n] + [l] + f[n + 1..];
    assert multiset(f)[l] >= multiset(f[..n])[l] + 1;
    assert key in m.targets;
    assert TakenAt(m.targets[key], now[key], key, rec, f[..n]);
    assert Some(LinkerOf(rec)) in multiset(now[key]);
  }

  class MemStorage {
    var dids: map<Did, bool>
    var targets: map<TargetKey, seq<Slot>>
    var links: map<RecordId, seq<Link>>

    ghost function View(): Index
      reads this
    {
      Index(dids, targets, links)
    }

    ghost predicate Valid()
      reads this
    {
      Inv(View())
    }

    constructor ()
      ensures Valid() && View() == EMPTY
    {
      dids, targets, links := map[], map[], map[];
      new;
      RunKeepsInv([]);
    }

    /** The last (`rfind`) or first (`find`) slot holding `x`. */
    static method FindSlot(slots: seq<Slot>, x: Linker, fromEnd: bool) returns (j: nat)
      requires Some(x) in slots
      ensures j < |slots| && slots[j] == Some(x)
      ensures fromEnd ==> Some(x) !in slots[j + 1..]
      ensures !fromEnd ==> Some(x) !in slots[..j]
    {
      if fromEnd {
        j := |slots| - 1;
        while slots[j] != Some(x)
          invariant 0 <= j < |slots|
          invariant Some(x) !in slots[j + 1..]
          decreases j
        {
          j := j - 1;
        }
      } else {
        j := 0;
        while slots[j] != Some(x)
          invariant 0 <= j < |slots|
          invariant Some(x) !in slots[..j]
          decreases |slots| - j
        {
          j := j + 1;
        }
      }
    }

    method AddLinks(rec: RecordId, newLinks: seq<Link>)
      requires Valid()
      modifies this
      ensures Valid() && View() == LinkIndex.AddLinks(old(View()), rec, newLinks)
    {
      for n := 0 to |newLinks|
        invariant View() == LinkIndex.AddLinks(old(View()), rec, newLinks[..n])
      {
        var l := newLinks[n];
        var key := KeyOf(rec, l);
        assert newLinks[..n + 1][..n] == newLinks[..n];
        if rec.did !in dids {
          dids := dids[rec.did := true];
        }
        targets := targets[key := (if key in targets then targets[key] else []) + [Some(LinkerOf(rec))]];
        links := links[rec := (if rec in links then links[rec] else []) + [l]];
      }
      assert newLinks[..|newLinks|] == newLinks;
      AddLinksKeepsInv(old(View()), rec, newLinks);
    }

    /** Take one slot for each forward link of `rec`, from the end or from the start. */
    method TakeSlots(rec: RecordId, ghost m: Index, linkTargets: seq<Link>, fromEnd: bool)
      requires Inv(m) && targets == m.targets && linkTargets == Forward(m, rec)
      modifies this`targets
      ensures targets == ClearRecordSlots(m.targets, rec)
    {
      for n := 0 to |linkTargets|
        invariant Taken(m.targets, targets, rec, linkTargets[..n])
      {
        SlotLeft(m, targets, rec, n);
        var key := KeyOf(rec, linkTargets[n]);
        var j := FindSlot(targets[key], LinkerOf(rec), fromEnd);
        TakeNext(m.targets, targets, rec, linkTargets, n, j);
        targets := targets[key := targets[key][j := None]];
      }
      assert linkTargets[..|linkTargets|] == linkTargets;
      TakenAllClears(m, targets, rec);
    }

    method RemoveLinks(rec: RecordId)
      requires Valid()
      modifies this
      ensures Valid() && View() == ClearRecord(old(View()), rec)
    {
      ghost var m := View();
      if rec in links {
        TakeSlots(rec, m, links[rec], true);
        links := links - {rec};
      } else {
        ClearAbsent(m, rec);
      }
      assert View() == ClearRecord(m, rec);
      ClearRecordKeepsInv(m, rec);
    }

    /** A record with no forward links has no live slot to clear. */
    lemma ClearAbsent(m: Index, rec: RecordId)
      requires Inv(m) && rec !in m.links
      ensures ClearRecord(m, rec) == m
    {
      assert Taken(m.targets, m.targets, rec, []);
      TakenAllClears(m, m.targets, rec);
      assert m.links - {rec} == m.links;
    }

    method UpdateLinks(rec: RecordId, newLinks: seq<Link>)
      requires Valid()
      modifies this
      ensures Valid() && View() == LinkIndex.Push(old(View()), LinkIndex.UpdateLinks(rec, newLinks))
    {
      RemoveLinks(rec);
      AddLinks(rec, newLinks);
    }

    method SetAccount(did: Did, active: bool)
      requires Valid()
      modifies this
      ensures Valid() && View() == LinkIndex.SetAccount(old(View()), did, active)
    {
      if did in dids {
        dids := dids[did := active];
      }
      SetAccountKeepsInv(old(View()), did, active);
    }

    /** The records are visited in whatever order the hash map yields them. */
    method DeleteAccount(did: Did)
      requires Valid()
      modifies this
      ensures Valid() && View() == ClearAccount(old(View()), did)
    {
      ghost var m := View();
      var todo := set rec | rec in links && rec.did == did;
      ghost var rest := links;
      while todo != {}
        invariant todo == set rec | rec in rest && rec.did == did
        invariant dids == m.dids && links == m.links
        invariant forall rec :: rec in rest ==> rec in m.links && rest[rec] == m.links[rec]
        invariant forall rec :: rec in m.links && rec.did != did ==> rec in rest
        invariant Inv(Index(dids, targets, rest))
        invariant OnlyDidTaken(m.targets, targets, did)
      {
        var rec :| rec in todo;
        ghost var cur := Index(dids, targets, rest);
        TakeSlots(rec, cur, links[rec], false);
        ClearRecordKeepsInv(cur, rec);
        ClearRecordTakesDid(m.targets, cur.targets, rec);
        todo, rest := todo - {rec}, rest - {rec};
      }
      assert forall rec :: rec in rest && rec.did == did ==> rec in todo;
      AllTaken(m, Index(dids, targets, rest), did);
      links := map rec | rec in links && rec.did != did :: links[rec];
      dids := dids - {did};
      ClearAccountKeepsInv(m, did);
    }

    method Push(e: Event)
      requires Valid()
      modifies this
      ensures Valid() && View() == LinkIndex.Push(old(View()), e)
    {
      match e
      case CreateLinks(rec, newLinks) => AddLinks(rec, newLinks);
      case UpdateLinks(rec, newLinks) => UpdateLinks(rec, newLinks);
      case DeleteRecord(rec) => RemoveLinks(rec);
      case ActivateAccount(did) => SetAccount(did, true);
      case DeactivateAccount(did) => SetAccount(did, false);
      case DeleteAccount(did) => DeleteAccount(did);
    }
  }

  /** `now` differs from `before` only in tombstoned slots of `did`. */
  ghost predicate OnlyDidTaken(before: map<TargetKey, seq<Slot>>, now: map<TargetKey, seq<Slot>>, did: Did) {
    && now.Keys == before.Keys
    && forall key :: key in now ==> OnlyDidTakenAt(before[key], now[key], did)
  }

  ghost predicate OnlyDidTakenAt(before: seq<Slot>, now: seq<Slot>, did: Did) {
    && |now| == |before|
    && forall i :: 0 <= i < |now| ==>
        now[i] == before[i] || (before[i].Some? && before[i].value.did == did && now[i] == None)
  }

  lemma ClearRecordTakesDid(before: map<TargetKey, seq<Slot>>, now: map<TargetKey, seq<Slot>>, rec: RecordId)
    requires OnlyDidTaken(before, now, rec.did)
    ensures OnlyDidTaken(before, ClearRecordSlots(now, rec), rec.did)
  {
    var now' := ClearRecordSlots(now, rec);
    forall key | key in now' ensures OnlyDidTakenAt(before[key], now'[key], rec.did) {
      assert OnlyDidTakenAt(before[key], now[key], rec.did);
    }
  }

  /** With no forward link of `did` left, the invariant leaves no live slot of `did`. */
  lemma AllTaken(m: Index, now: Index, did: Did)
    requires Inv(now) && OnlyDidTaken(m.targets, now.targets, did)
    requires forall rec :: rec in now.links ==> rec.did != did
    ensures now.targets == ClearAccount(m, did).targets
  {
    forall key | key in now.targets ensures now.targets[key] == ClearDid(m.targets[key], did) {
      var slots := now.targets[key];
      assert OnlyDidTakenAt(m.targets[key], slots, did);
      forall i | 0 <= i < |slots| && slots[i].Some? ensures slots[i].value.did != did {
        var rec := RecordId(slots[i].value.did, key.collection, slots[i].value.rkey);
        assert Balanced(now, rec, LinkOf(key));
        assert slots[i] in multiset(slots);
        assert rec in now.links;
      }
    }
  }
}
