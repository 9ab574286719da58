/**
The delay queue keeps nothing longer than it promises: when a held item, a sleeping
consumer and everything still pending come free, in every reachable state.
*/
module DelayRelease {
  import opened Options
  import opened Seqs
  import opened DelayQueue
  import opened DelayTiming

  /* ---- upper bounds ---- */

  /** No wait goes beyond the item's due time, unless it is over, and no sleep beyond one delay. */
  ghost predicate Bounded(s: State, delay: nat) {
    match s.hand
    case Waiting(at, _, until) => until <= at + delay || until <= s.now
    case Asleep(until) => until <= s.now + delay
    case _ => true
  }

  lemma {:induction false} RunBounded(steps: seq<Step>, delay: nat)
    requires Run(steps, delay).Some?
    ensures Bounded(Run(steps, delay).value, delay)
  {
    if steps != [] {
      RunBounded(steps[..|steps| - 1], delay);
    }
  }

  /** Time moves to `t`, the consumer looks at the clock if it has not yet, and lets the item go. */
  function Finish(hand: Hand, t: nat): seq<Step> {
    if hand.Popped? then [Tick(t), Decide, Release] else [Tick(t), Release]
  }

  /**
  In every reachable state an item that is held can be let go at every time from its
  basis plus the delay on, and nothing else changes.
  */
  lemma HeldComesOut(steps: seq<Step>, delay: nat, t: nat)
    requires Run(steps, delay).Some? && HoldsItem(Run(steps, delay).value.hand)
    requires var s := Run(steps, delay).value;
             s.hand.id < |s.log| && s.now <= t && s.log[s.hand.id].basis + delay <= t
    ensures var s := Run(steps, delay).value;
            Run(steps + Finish(s.hand, t), delay) ==
              Some(s.(now := t, hand := Free, emitted := s.emitted + [Emission(s.hand.id, t)]))
  {
    var s := Run(steps, delay).value;
    RunBounded(steps, delay);
    RunKeeps(steps, delay);
    var s1 := RunSnoc(steps, Tick(t), s, delay);
    if s.hand.Popped? {
      var s2 := RunSnoc(steps + [Tick(t)], Decide, s1, delay);
      var s3 := RunSnoc(steps + [Tick(t)] + [Decide], Release, s2, delay);
      assert steps + Finish(s.hand, t) == steps + [Tick(t)] + [Decide] + [Release];
    } else {
      var s2 := RunSnoc(steps + [Tick(t)], Release, s1, delay);
      assert steps + Finish(s.hand, t) == steps + [Tick(t)] + [Release];
    }
  }

  /* ---- exactly when ---- */

  ghost predicate Avoids(steps: seq<Step>, step: Step) {
    forall i :: 0 <= i < |steps| ==> steps[i] != step
  }

  lemma AvoidsInit(steps: seq<Step>, step: Step)
    requires steps != [] && Avoids(steps, step)
    ensures Avoids(steps[..|steps| - 1], step) && steps[|steps| - 1] != step
  {
  }

  lemma RunInit(steps: seq<Step>, more: seq<Step>, delay: nat)
    requires more != [] && Run(steps + more, delay).Some?
    ensures var init := steps + more[..|more| - 1];
            && Run(init, delay).Some? && Enabled(Run(init, delay).value, more[|more| - 1])
            && Run(steps + more, delay) == Some(Apply(Run(init, delay).value, more[|more| - 1], delay))
  {
    assert (steps + more)[..|steps + more| - 1] == steps + more[..|more| - 1];
  }

  /** Until it is let go, an item stays held with the time it waits for. */
  lemma {:induction false} StaysWaiting(steps: seq<Step>, more: seq<Step>, delay: nat)
    requires Run(steps, delay).Some? && Run(steps, delay).value.hand.Waiting?
    requires Run(steps + more, delay).Some? && Avoids(more, Release)
    ensures Run(steps + more, delay).value.hand == Run(steps, delay).value.hand
  {
    if more == [] {
      assert steps + more == steps;
    } else {
      AvoidsInit(more, Release);
      RunInit(steps, more, delay);
      StaysWaiting(steps, more[..|more| - 1], delay);
    }
  }

  lemma {:induction false} StaysAsleep(steps: seq<Step>, more: seq<Step>, delay: nat)
    requires Run(steps, delay).Some? && Run(steps, delay).value.hand.Asleep?
    requires Run(steps + more, delay).Some? && Avoids(more, Wake)
    ensures Run(steps + more, delay).value.hand == Run(steps, delay).value.hand
  {
    if more == [] {
      assert steps + more == steps;
    } else {
      AvoidsInit(more, Wake);
      RunInit(steps, more, delay);
      StaysAsleep(steps, more[..|more| - 1], delay);
    }
  }

  /**
  An item taken by the consumer is let go exactly from its due time on if that was
  more than a millisecond ahead when the consumer looked, and at once if not.
  */
  lemma ReleasedIff(steps: seq<Step>, more: seq<Step>, delay: nat)
    requires Run(steps, delay).Some? && Run(steps, delay).value.hand.Popped?
    requires Run(steps + [Decide] + more, delay).Some? && Avoids(more, Release)
    ensures var s, t := Run(steps, delay).value, Run(steps + [Decide] + more, delay).value;
            && s.hand.id < |s.log|
            && var due := s.log[s.hand.id].basis + delay;
               Enabled(t, Release) <==> t.now >= if due > s.now + 1_000 then due else s.now
  {
    var s := Run(steps, delay).value;
    RunKeeps(steps, delay);
    var s1 := RunSnoc(steps, Decide, s, delay);
    StaysWaiting(steps + [Decide], more, delay);
  }

  /** A consumer that finds nothing wakes exactly one delay later. */
  lemma WakesIff(steps: seq<Step>, more: seq<Step>, delay: nat)
    requires Run(steps, delay).Some? && Run(steps, delay).value.hand.Free? && Run(steps, delay).value.items == map[]
    requires Run(steps + [Pop] + more, delay).Some? && Avoids(more, Wake)
    ensures var s, t := Run(steps, delay).value, Run(steps + [Pop] + more, delay).value;
            Enabled(t, Wake) <==> t.now >= s.now + delay
  {
    var s := Run(steps, delay).value;
    PopFindsIff(steps, delay);
    var s1 := RunSnoc(steps, Pop, s, delay);
    assert s1.hand == Asleep(s.now + delay);
    StaysAsleep(steps + [Pop], more, delay);
  }

  /* ---- first in, first out ---- */

  /** Taking gives the pending key with the first entry of all, and drops just the entries up to it. */
  ghost predicate TakesAt(queue: seq<Entry>, items: map<Key, nat>, rest: seq<Entry>, taken: Taken, i: nat) {
    && i < |queue| && queue[i].key in items && rest == queue[i + 1..]
    && taken == Taken(queue[i].at, queue[i].key, items[queue[i].key])
    && forall j :: 0 <= j < i ==> queue[j].key !in items
  }

  lemma {:induction false} TakesFirst(queue: seq<Entry>, items: map<Key, nat>)
    ensures var (rest, taken) := Get(queue, items);
            if taken.Taken? then exists i: nat :: TakesAt(queue, items, rest, taken, i)
            else rest == [] && forall j :: 0 <= j < |queue| ==> queue[j].key !in items
  {
    if queue != [] {
      var (rest, taken) := Get(queue, items);
      if queue[0].key in items {
        assert TakesAt(queue, items, rest, taken, 0);
      } else {
        TakesFirst(queue[1..], items);
        if taken.Taken? {
          var i: nat :| TakesAt(queue[1..], items, rest, taken, i);
          assert queue[1..][i + 1..] == queue[i + 1 + 1..];
          assert forall j :: 0 < j < i + 1 ==> queue[1..][j - 1] == queue[j];
          assert TakesAt(queue, items, rest, taken, i + 1);
        } else {
          assert forall j :: 0 < j < |queue| ==> queue[1..][j - 1] == queue[j];
        }
      }
    }
  }

  /* ---- everything comes out ---- */

  /** By time `t` the item is due, and a sleeping consumer awake. */
  ghost predicate AllDue(s: State, delay: nat, t: nat) {
    && s.now <= t && (s.hand.Asleep? ==> s.hand.until <= t)
    && forall id: nat :: id < |s.log| && (IsPending(s.items, s.log, id) || IsHeld(s.hand, id)) ==>
         s.log[id].basis + delay <= t
  }

  ghost predicate ConsumerOnly(steps: seq<Step>) {
    forall i :: 0 <= i < |steps| ==> !steps[i].Enqueue? && !steps[i].RemoveRange?
  }

  /** Emitted by `end`, at time `t`. */
  ghost predicate OutAt(end: State, id: nat, t: nat) {
    Emission(id, t) in end.emitted
  }

  lemma HandFreed(steps: seq<Step>, delay: nat, t: nat) returns (more: seq<Step>, end: State)
    requires Run(steps, delay).Some? && AllDue(Run(steps, delay).value, delay, t)
    ensures ConsumerOnly(more) && Run(steps + more, delay) == Some(end)
    ensures var s := Run(steps, delay).value;
            && end == s.(hand := Free, now := t, emitted := end.emitted) && s.emitted <= end.emitted
            && (HoldsItem(s.hand) ==> OutAt(end, s.hand.id, t))
  {
    var s := Run(steps, delay).value;
    RunKeeps(steps, delay);
    if HoldsItem(s.hand) {
      assert IsHeld(s.hand, s.hand.id);
      HeldComesOut(steps, delay, t);
      more := Finish(s.hand, t);
      end := Run(steps + more, delay).value;
      assert end.emitted[|s.emitted|] == Emission(s.hand.id, t);
    } else {
      var s1 := RunSnoc(steps, Tick(t), s, delay);
      more, end := [Tick(t)], s1;
      if s.hand.Asleep? {
        end := RunSnoc(steps + [Tick(t)], Wake, s1, delay);
        more := [Tick(t), Wake];
        assert steps + more == steps + [Tick(t)] + [Wake];
      }
    }
  }

  /** With the consumer free and an item pending, one is taken and let go at once. */
  lemma OneOut(steps: seq<Step>, delay: nat) returns (more: seq<Step>, end: State, key: Key)
    requires Run(steps, delay).Some? && Run(steps, delay).value.hand.Free? && Run(steps, delay).value.items != map[]
    requires AllDue(Run(steps, delay).value, delay, Run(steps, delay).value.now)
    ensures ConsumerOnly(more) && Run(steps + more, delay) == Some(end)
    ensures var s := Run(steps, delay).value;
            && key in s.items && s.emitted <= end.emitted && OutAt(end, s.items[key], s.now)
            && end == s.(queue := end.queue, items := s.items - {key}, emitted := end.emitted)
  {
    var s := Run(steps, delay).value;
    RunKeeps(steps, delay);
    GetTakes(s.queue, s.items);
    PopFindsIff(steps, delay);
    key := Get(s.queue, s.items).1.key;
    assert IsPending(s.items, s.log, s.items[key]);
    var s1 := RunSnoc(steps, Pop, s, delay);
    HeldComesOut(steps + [Pop], delay, s.now);
    more := [Pop] + Finish(s1.hand, s.now);
    Regroup(steps, [Pop], Finish(s1.hand, s.now), steps + more);
    end := Run(steps + more, delay).value;
    assert end.emitted[|s.emitted|] == Emission(s.items[key], s.now);
  }

  lemma {:induction false} Drained(steps: seq<Step>, delay: nat) returns (more: seq<Step>, end: State)
    requires Run(steps, delay).Some? && Run(steps, delay).value.hand.Free?
    requires AllDue(Run(steps, delay).value, delay, Run(steps, delay).value.now)
    ensures ConsumerOnly(more) && Run(steps + more, delay) == Some(end)
    ensures var s := Run(steps, delay).value;
            && end == s.(queue := end.queue, items := map[], emitted := end.emitted) && s.emitted <= end.emitted
            && forall k :: k in s.items ==> OutAt(end, s.items[k], s.now)
    decreases |Run(steps, delay).value.items|
  {
    var s := Run(steps, delay).value;
    if s.items == map[] {
      more, end := [], s;
      assert steps + more == steps;
    } else {
      var a, s1, key := OneOut(steps, delay);
      FewerItems(s.items, key);
      StillDue(s, s1, key, delay);
      var b;
      b, end := Drained(steps + a, delay);
      more := a + b;
      Regroup(steps, a, b, steps + more);
      AllOut(s, s1, end, key);
    }
  }

  lemma FewerItems(items: map<Key, nat>, key: Key)
    requires key in items
    ensures |items - {key}| < |items|
  {
    assert items.Keys == (items - {key}).Keys + {key};
  }

  lemma AllOut(s: State, s1: State, end: State, key: Key)
    requires key in s.items && s1.items == s.items - {key}
    requires OutAt(s1, s.items[key], s.now) && s1.emitted <= end.emitted
    requires forall k :: k in s1.items ==> OutAt(end, s1.items[k], s.now)
    ensures forall k :: k in s.items ==> OutAt(end, s.items[k], s.now)
  {
    forall k | k in s.items ensures OutAt(end, s.items[k], s.now) {
      if k != key {
        assert k in s1.items && s1.items[k] == s.items[k];
      }
    }
  }

  lemma StillDue(s: State, s1: State, key: Key, delay: nat)
    requires AllDue(s, delay, s.now) && s.hand.Free?
    requires s1 == s.(queue := s1.queue, items := s.items - {key}, emitted := s1.emitted)
    ensures AllDue(s1, delay, s1.now)
  {
    forall id: nat | id < |s1.log| && IsPending(s1.items, s1.log, id) ensures s1.log[id].basis + delay <= s1.now {
      assert IsPending(s.items, s.log, id);
    }
  }

  /**
  From every reachable state, at every time by which all that is pending or held is
  due, the consumer alone gets all of it out at that time.
  */
  lemma EverythingComesOut(steps: seq<Step>, delay: nat, t: nat) returns (more: seq<Step>, end: State)
    requires Run(steps, delay).Some? && AllDue(Run(steps, delay).value, delay, t)
    ensures ConsumerOnly(more) && Run(steps + more, delay) == Some(end) && end.items == map[] && end.hand.Free?
    ensures var s := Run(steps, delay).value;
            forall id: nat :: IsPending(s.items, s.log, id) || IsHeld(s.hand, id) ==> OutAt(end, id, t)
  {
    var s := Run(steps, delay).value;
    var a, s1 := HandFreed(steps, delay, t);
    assert AllDue(s1, delay, s1.now);
    var b;
    b, end := Drained(steps + a, delay);
    more := a + b;
    Regroup(steps, a, b, steps + more);
    forall id: nat | IsPending(s.items, s.log, id) || IsHeld(s.hand, id) ensures OutAt(end, id, t) {
      if IsPending(s.items, s.log, id) {
        assert s.log[id].key in s1.items && s1.items[s.log[id].key] == id;
      } else {
        assert OutAt(s1, id, t);
      }
    }
  }
}
