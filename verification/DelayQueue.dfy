/**
The removable delay queue as a step system. Every enqueued item gets a number,
so that what became of it can be told; times are in microseconds.
*/
module DelayQueue {
  import opened Options

  type Key = string

  datatype Entry = Entry(at: nat, key: Key)

  /** An enqueue: when it happened, and the time of the oldest queue entry its key then had. */
  datatype Enqueued = Enqueued(key: Key, at: nat, basis: nat)

  /** What the one consumer is doing: it holds an item it took, or sleeps after finding none. */
  datatype Hand = Free | Popped(at: nat, id: nat) | Waiting(at: nat, id: nat, until: nat) | Asleep(until: nat)

  datatype Emission = Emission(id: nat, time: nat)

  datatype State = State(
    queue: seq<Entry>, items: map<Key, nat>, hand: Hand, now: nat,
    log: seq<Enqueued>, removed: set<nat>, overwritten: set<nat>, emitted: seq<Emission>)

  const START := State([], map[], Free, 0, [], {}, {}, [])

  /* ---- the shared queue ---- */

  /** The time of the first queue entry for a key. */
  function First(queue: seq<Entry>, key: Key): Option<nat> {
    if queue == [] then None
    else if queue[0].key == key then Some(queue[0].at)
    else First(queue[1..], key)
  }

  function Without(items: map<Key, nat>, range: Key -> bool): map<Key, nat> {
    map k | k in items && !range(k) :: items[k]
  }

  datatype Taken = Nothing | Taken(at: nat, key: Key, id: nat)

  /** Takes entries from the front until one has an item. */
  function Get(queue: seq<Entry>, items: map<Key, nat>): (seq<Entry>, Taken) {
    if queue == [] then ([], Nothing)
    else if queue[0].key in items then (queue[1..], Taken(queue[0].at, queue[0].key, items[queue[0].key]))
    else Get(queue[1..], items)
  }

  /* ---- steps ---- */

  datatype Step =
    | Enqueue(key: Key, at: nat)
    | RemoveRange(range: Key -> bool)
    | Pop
    | Decide
    | Release
    | Wake
    | Tick(now: nat)

  /** The clock is read before the lock is taken, so an enqueue may carry an earlier time. */
  predicate Enabled(s: State, step: Step) {
    match step
    case Enqueue(_, at) => at <= s.now
    case RemoveRange(_) => true
    case Pop => s.hand.Free?
    case Decide => s.hand.Popped?
    case Release => s.hand.Waiting? && s.hand.until <= s.now
    case Wake => s.hand.Asleep? && s.hand.until <= s.now
    case Tick(now) => s.now <= now
  }

  function PendingIds(items: map<Key, nat>, range: Key -> bool): set<nat> {
    set k | k in items && range(k) :: items[k]
  }

  function Apply(s: State, step: Step, delay: nat): State
    requires Enabled(s, step)
  {
    match step
    case Enqueue(key, at) =>
      var first := First(s.queue, key);
      s.(queue := s.queue + [Entry(at, key)],
         items := s.items[key := |s.log|],
         log := s.log + [Enqueued(key, at, if first.Some? then first.value else at)],
         overwritten := s.overwritten + if key in s.items then {s.items[key]} else {})
    case RemoveRange(range) =>
      s.(items := Without(s.items, range), removed := s.removed + PendingIds(s.items, range))
    case Pop =>
      var (queue, taken) := Get(s.queue, s.items);
      match taken {
        case Nothing => s.(queue := queue, hand := Asleep(s.now + delay))
        case Taken(at, key, id) => s.(queue := queue, items := s.items - {key}, hand := Popped(at, id))
      }
    case Decide =>
      var release := s.hand.at + delay;
      s.(hand := Waiting(s.hand.at, s.hand.id, if release > s.now + 1_000 then release else s.now))
    case Release => s.(hand := Free, emitted := s.emitted + [Emission(s.hand.id, s.now)])
    case Wake => s.(hand := Free)
    case Tick(now) => s.(now := now)
  }

  ghost function Run(steps: seq<Step>, delay: nat): Option<State> {
    if steps == [] then Some(START)
    else
      var before := Run(steps[..|steps| - 1], delay);
      if before.Some? && Enabled(before.value, steps[|steps| - 1])
      then Some(Apply(before.value, steps[|steps| - 1], delay))
      else None
  }

  /* ---- what became of an item ---- */

  predicate IsPending(items: map<Key, nat>, log: seq<Enqueued>, id: nat) {
    id < |log| && log[id].key in items && items[log[id].key] == id
  }

  predicate HoldsItem(hand: Hand) {
    hand.Popped? || hand.Waiting?
  }

  predicate IsHeld(hand: Hand, id: nat) {
    HoldsItem(hand) && hand.id == id
  }

  function Emissions(emitted: seq<Emission>, id: nat): nat {
    if emitted == [] then 0
    else Emissions(emitted[..|emitted| - 1], id) + if emitted[|emitted| - 1].id == id then 1 else 0
  }

  function One(b: bool): nat {
    if b then 1 else 0
  }

  /** In how many of the five places an item is, emissions counted each. */
  function Places(s: State, id: nat): nat {
    One(IsPending(s.items, s.log, id)) + One(IsHeld(s.hand, id)) + Emissions(s.emitted, id) +
    One(id in s.removed) + One(id in s.overwritten)
  }

  /** Every enqueued item is in exactly one place, and nothing else is anywhere. */
  ghost predicate Conserved(s: State) {
    forall id: nat :: Places(s, id) == if id < |s.log| then 1 else 0
  }

  /** Every pending key has a queue entry; the first one carries the item's basis. */
  ghost predicate Queued(queue: seq<Entry>, items: map<Key, nat>, log: seq<Enqueued>) {
    forall k :: k in items ==>
      items[k] < |log| && log[items[k]].key == k && First(queue, k) == Some(log[items[k]].basis)
  }

  ghost predicate HandOk(hand: Hand, log: seq<Enqueued>, delay: nat) {
    HoldsItem(hand) ==>
      && hand.id < |log| && hand.at == log[hand.id].basis
      && (hand.Waiting? ==> hand.until + 1_000 >= hand.at + delay)
  }

  /** No item was emitted more than a millisecond before its basis plus the delay. */
  ghost predicate OnTime(emitted: seq<Emission>, log: seq<Enqueued>, delay: nat) {
    forall i :: 0 <= i < |emitted| ==>
      emitted[i].id < |log| && emitted[i].time + 1_000 >= log[emitted[i].id].basis + delay
  }

  ghost predicate Inv(s: State, delay: nat) {
    Conserved(s) && Queued(s.queue, s.items, s.log) && HandOk(s.hand, s.log, delay) && OnTime(s.emitted, s.log, delay)
  }

  /* ---- the queue's list ---- */

  lemma {:induction false} FirstSnoc(queue: seq<Entry>, e: Entry, key: Key)
    ensures First(queue + [e], key) ==
            if First(queue, key).Some? then First(queue, key) else if e.key == key then Some(e.at) else None
  {
    if queue == [] {
      assert (queue + [e])[1..] == [];
    } else {
      assert (queue + [e])[1..] == queue[1..] + [e];
      FirstSnoc(queue[1..], e, key);
    }
  }

  /** Getting takes the first entry of a key that has an item, and no other such key loses its first entry. */
  lemma {:induction false} GetTakes(queue: seq<Entry>, items: map<Key, nat>)
    ensures var (rest, taken) := Get(queue, items);
            && (taken.Taken? ==>
                  taken.key in items && taken.id == items[taken.key] && First(queue, taken.key) == Some(taken.at))
            && (forall k :: k in items && !(taken.Taken? && taken.key == k) ==> First(rest, k) == First(queue, k))
            && (taken.Nothing? ==> forall k :: k in items ==> First(queue, k) == None)
  {
    if queue != [] && queue[0].key !in items {
      GetTakes(queue[1..], items);
    }
  }

  /* ---- each step ---- */

  lemma EnqueueKeeps(s: State, key: Key, at: nat, delay: nat)
    requires Inv(s, delay) && at <= s.now
    ensures Inv(Apply(s, Enqueue(key, at), delay), delay)
  {
    var t := Apply(s, Enqueue(key, at), delay);
    forall k | k in t.items
      ensures t.items[k] < |t.log| && t.log[t.items[k]].key == k && First(t.queue, k) == Some(t.log[t.items[k]].basis)
    {
      FirstSnoc(s.queue, Entry(at, key), k);
    }
    forall id: nat ensures Places(t, id) == if id < |t.log| then 1 else 0 {
      assert Places(s, id) == if id < |s.log| then 1 else 0;
    }
  }

  lemma RemoveKeeps(s: State, range: Key -> bool, delay: nat)
    requires Inv(s, delay)
    ensures Inv(Apply(s, RemoveRange(range), delay), delay)
  {
    var t := Apply(s, RemoveRange(range), delay);
    forall id: nat ensures Places(t, id) == if id < |t.log| then 1 else 0 {
      assert Places(s, id) == if id < |s.log| then 1 else 0;
      assert id in PendingIds(s.items, range) <==> IsPending(s.items, s.log, id) && range(s.log[id].key);
    }
  }

  lemma PopKeeps(s: State, delay: nat)
    requires Inv(s, delay) && s.hand.Free?
    ensures Inv(Apply(s, Pop, delay), delay)
  {
    GetTakes(s.queue, s.items);
    var t, taken := Apply(s, Pop, delay), Get(s.queue, s.items).1;
    if taken.Taken? {
      assert taken.key in s.items && s.items[taken.key] == taken.id;
      assert s.log[taken.id].key == taken.key;
    }
    forall id: nat ensures Places(t, id) == if id < |t.log| then 1 else 0 {
      assert Places(s, id) == if id < |s.log| then 1 else 0;
    }
  }

  lemma ReleaseKeeps(s: State, delay: nat)
    requires Inv(s, delay) && Enabled(s, Release)
    ensures Inv(Apply(s, Release, delay), delay)
  {
    var t := Apply(s, Release, delay);
    assert t.emitted[..|s.emitted|] == s.emitted;
    forall id: nat ensures Places(t, id) == if id < |t.log| then 1 else 0 {
      assert Places(s, id) == if id < |s.log| then 1 else 0;
    }
  }

  lemma StepKeeps(s: State, step: Step, delay: nat)
    requires Inv(s, delay) && Enabled(s, step)
    ensures Inv(Apply(s, step, delay), delay)
  {
    match step
    case Enqueue(key, at) => EnqueueKeeps(s, key, at, delay);
    case RemoveRange(range) => RemoveKeeps(s, range, delay);
    case Pop => PopKeeps(s, delay);
    case Release => ReleaseKeeps(s, delay);
    case _ =>
      var t := Apply(s, step, delay);
      forall id: nat ensures Places(t, id) == if id < |t.log| then 1 else 0 {
        assert Places(s, id) == if id < |s.log| then 1 else 0;
      }
  }

  /** Over every run: exactly one fate each, no pending key without an entry, nothing released too early. */
  lemma {:induction false} RunKeeps(steps: seq<Step>, delay: nat)
    requires Run(steps, delay).Some?
    ensures Inv(Run(steps, delay).value, delay)
  {
    if steps != [] {
      RunKeeps(steps[..|steps| - 1], delay);
      StepKeeps(Run(steps[..|steps| - 1], delay).value, steps[|steps| - 1], delay);
    }
  }

  /* ---- what follows for whole runs ---- */

  /** Nothing is stranded: taking finds an item exactly when one is pending. */
  lemma PopFindsIff(steps: seq<Step>, delay: nat)
    requires Run(steps, delay).Some? && Run(steps, delay).value.hand.Free?
    ensures var s := Run(steps, delay).value;
            Apply(s, Pop, delay).hand.Popped? <==> s.items != map[]
  {
    RunKeeps(steps, delay);
    var s := Run(steps, delay).value;
    GetTakes(s.queue, s.items);
    var taken := Get(s.queue, s.items).1;
    if taken.Taken? {
      assert taken.key in s.items;
    }
  }

  lemma {:induction false} EmittedCounts(emitted: seq<Emission>, i: nat)
    requires i < |emitted|
    ensures Emissions(emitted, emitted[i].id) >= 1
  {
    var n := |emitted| - 1;
    if i < n {
      EmittedCounts(emitted[..n], i);
    }
  }

  ghost predicate IsEmitted(s: State, id: nat) {
    exists i :: 0 <= i < |s.emitted| && s.emitted[i].id == id
  }

  lemma {:induction false} RunLonger(steps: seq<Step>, more: seq<Step>, delay: nat)
    requires Run(steps + more, delay).Some?
    ensures Run(steps, delay).Some?
    ensures Run(steps, delay).value.removed <= Run(steps + more, delay).value.removed
    ensures Run(steps, delay).value.log <= Run(steps + more, delay).value.log
  {
    if more == [] {
      assert steps + more == steps;
    } else {
      var init := more[..|more| - 1];
      assert (steps + more)[..|steps + more| - 1] == steps + init;
      RunLonger(steps, init, delay);
    }
  }

  /** An item removed while pending is never emitted, however the run goes on. */
  lemma RemovedNeverEmitted(steps: seq<Step>, range: Key -> bool, more: seq<Step>, delay: nat, id: nat)
    requires Run(steps, delay).Some? && Run(steps + [RemoveRange(range)] + more, delay).Some?
    requires var s := Run(steps, delay).value; IsPending(s.items, s.log, id) && range(s.log[id].key)
    ensures !IsEmitted(Run(steps + [RemoveRange(range)] + more, delay).value, id)
  {
    var s := Run(steps, delay).value;
    var cut := steps + [RemoveRange(range)];
    assert cut[..|cut| - 1] == steps;
    RunLonger(cut, more, delay);
    assert Run(cut, delay).value == Apply(s, RemoveRange(range), delay);
    assert id in PendingIds(s.items, range);
    RunKeeps(cut + more, delay);
    var end := Run(cut + more, delay).value;
    assert id in end.removed && Places(end, id) <= 1;
    forall i | 0 <= i < |end.emitted| ensures end.emitted[i].id != id {
      EmittedCounts(end.emitted, i);
    }
  }

  /** Nothing is emitted twice, nor more than a millisecond before its basis plus the delay. */
  lemma EmittedOnceOnTime(steps: seq<Step>, delay: nat, i: nat)
    requires Run(steps, delay).Some? && i < |Run(steps, delay).value.emitted|
    ensures var s := Run(steps, delay).value;
            var e := s.emitted[i];
            && e.id < |s.log| && Emissions(s.emitted, e.id) == 1
            && e.time + 1_000 >= s.log[e.id].basis + delay
  {
    RunKeeps(steps, delay);
    var s := Run(steps, delay).value;
    EmittedCounts(s.emitted, i);
    assert Places(s, s.emitted[i].id) <= 1;
  }

  /** A key with no queue entry gets its own time as basis; one that has an entry keeps the old time. */
  lemma BasisIsFirstEntry(steps: seq<Step>, key: Key, at: nat, delay: nat)
    requires Run(steps + [Enqueue(key, at)], delay).Some?
    ensures Run(steps, delay).Some?
    ensures var s, t := Run(steps, delay).value, Run(steps + [Enqueue(key, at)], delay).value;
            && t.log == s.log + [Enqueued(key, at, t.log[|s.log|].basis)]
            && (t.log[|s.log|].basis == at <==> First(s.queue, key) == None || First(s.queue, key) == Some(at))
            && (key in s.items ==> s.items[key] < |s.log| && t.log[|s.log|].basis == s.log[s.items[key]].basis)
  {
    var longer := steps + [Enqueue(key, at)];
    assert longer[..|longer| - 1] == steps;
    RunKeeps(steps, delay);
  }

  /* ---- the queue behind its lock ---- */

  lemma LessOne(items: map<Key, nat>, keys: set<Key>, todo: set<Key>, k: Key)
    requires k in todo && todo <= keys
    ensures (items - (keys - todo)) - {k} == items - (keys - (todo - {k}))
  {
  }

  lemma Removed(items: map<Key, nat>, keys: set<Key>, range: Key -> bool)
    requires forall k :: k in keys <==> k in items && range(k)
    ensures items - (keys - {}) == Without(items, range)
    ensures |items - (keys - {})| + |keys| == |items|
  {
    var left := items - (keys - {});
    assert left.Keys + keys == items.Keys && left.Keys !! keys;
  }

  class SharedQueue {
    var queue: seq<Entry>
    var items: map<Key, nat>

    constructor ()
      ensures queue == [] && items == map[]
    {
      queue, items := [], map[];
    }

    /** Fails, changing nothing, once the output is gone. */
    method DoEnqueue(now: nat, key: Key, item: nat, outputAlive: bool) returns (ok: bool)
      modifies this
      ensures ok == outputAlive
      ensures ok ==> queue == old(queue) + [Entry(now, key)] && items == old(items)[key := item]
      ensures !ok ==> queue == old(queue) && items == old(items)
    {
      if !outputAlive {
        return false;
      }
      queue := queue + [Entry(now, key)];
      items := items[key := item];
      return true;
    }

    /** Only the items go; their queue entries stay. */
    method DoRemoveRange(range: Key -> bool) returns (n: nat)
      modifies this`items
      ensures items == Without(old(items), range)
      ensures n == |old(items)| - |items|
    {
      var keys := set k | k in items && range(k);
      n := |keys|;
      var todo := keys;
      while todo != {}
        invariant todo <= keys && items == old(items) - (keys - todo)
      {
        var k :| k in todo;
        LessOne(old(items), keys, todo, k);
        todo := todo - {k};
        items := items - {k};
      }
      Removed(old(items), keys, range);
    }

    method DoGet() returns (taken: Taken)
      modifies this
      ensures (queue, taken) == Get(old(queue), old(items))
      ensures items == if taken.Taken? then old(items) - {taken.key} else old(items)
    {
      while queue != []
        invariant items == old(items) && Get(queue, items) == Get(old(queue), old(items))
        decreases |queue|
      {
        var front := queue[0];
        queue := queue[1..];
        if front.key in items {
          taken := Taken(front.at, front.key, items[front.key]);
          items := items - {front.key};
          return;
        }
      }
      return Nothing;
    }
  }
}
