/**
When the delay queue keeps its promise: exactly which enqueued items can come out
before their delay has passed.
*/
module DelayTiming {
  import opened Options
  import opened Seqs
  import opened DelayQueue

  /** The earliest time at which the consumer can be done with what it holds, or awake. */
  function FreeAt(s: State, delay: nat): nat {
    match s.hand
    case Free => s.now
    case Popped(at, _) => if at + delay <= s.now + 1_000 then s.now else at + delay - 1_000
    case Waiting(_, _, until) => if until <= s.now then s.now else until
    case Asleep(until) => if until <= s.now then s.now else until
  }

  /* ---- no item comes out before the consumer is free ---- */

  lemma FreeAtRises(s: State, step: Step, delay: nat)
    requires Enabled(s, step)
    ensures FreeAt(s, delay) <= FreeAt(Apply(s, step, delay), delay)
  {
  }

  /** Whatever comes out later comes out at or after that time. */
  lemma {:induction false} LaterEmissions(steps: seq<Step>, more: seq<Step>, delay: nat)
    requires Run(steps + more, delay).Some?
    ensures Run(steps, delay).Some?
    ensures var s, t := Run(steps, delay).value, Run(steps + more, delay).value;
            && FreeAt(s, delay) <= FreeAt(t, delay) && s.emitted <= t.emitted
            && forall i :: |s.emitted| <= i < |t.emitted| ==> FreeAt(s, delay) <= t.emitted[i].time
  {
    if more == [] {
      assert steps + more == steps;
    } else {
      var n := |more| - 1;
      assert (steps + more)[..|steps + more| - 1] == steps + more[..n];
      LaterEmissions(steps, more[..n], delay);
      FreeAtRises(Run(steps + more[..n], delay).value, more[n], delay);
    }
  }

  /** In `more` the item enqueued after `steps` comes out over a millisecond before its delay has passed. */
  ghost predicate ReleasedEarly(steps: seq<Step>, key: Key, at: nat, delay: nat, more: seq<Step>) {
    && Run(steps, delay).Some? && Run(steps + [Enqueue(key, at)] + more, delay).Some?
    && var emitted := Run(steps + [Enqueue(key, at)] + more, delay).value.emitted;
       exists i ::
         0 <= i < |emitted| && emitted[i].id == |Run(steps, delay).value.log| && emitted[i].time + 1_000 < at + delay
  }

  /** The key has an older entry in the queue, and the consumer can be free before the delay has passed. */
  ghost predicate CanBeEarly(s: State, key: Key, at: nat, delay: nat) {
    First(s.queue, key).Some? && First(s.queue, key).value < at && FreeAt(s, delay) + 1_000 < at + delay
  }

  lemma EmittedWereLogged(steps: seq<Step>, delay: nat)
    requires Run(steps, delay).Some?
    ensures forall i :: 0 <= i < |Run(steps, delay).value.emitted| ==>
              Run(steps, delay).value.emitted[i].id < |Run(steps, delay).value.log|
  {
    RunKeeps(steps, delay);
  }

  /** The item enqueued after `steps` comes out no earlier than its basis plus the delay less a millisecond... */
  lemma BasisBound(steps: seq<Step>, key: Key, at: nat, delay: nat, more: seq<Step>, i: nat)
    requires Run(steps, delay).Some? && Run(steps + [Enqueue(key, at)] + more, delay).Some?
    requires var t := Run(steps + [Enqueue(key, at)] + more, delay).value;
             i < |t.emitted| && t.emitted[i].id == |Run(steps, delay).value.log|
    ensures var first := First(Run(steps, delay).value.queue, key);
            Run(steps + [Enqueue(key, at)] + more, delay).value.emitted[i].time + 1_000 >=
              (if first.Some? then first.value else at) + delay
  {
    var enqueued := steps + [Enqueue(key, at)];
    RunLonger(enqueued, more, delay);
    EnqueueBasis(steps, key, at, delay);
    EmittedOnceOnTime(enqueued + more, delay, i);
  }

  /** ...and not before the consumer is free. */
  lemma FreeBound(steps: seq<Step>, key: Key, at: nat, delay: nat, more: seq<Step>, i: nat)
    requires Run(steps, delay).Some? && Run(steps + [Enqueue(key, at)] + more, delay).Some?
    requires var t := Run(steps + [Enqueue(key, at)] + more, delay).value;
             i < |t.emitted| && t.emitted[i].id == |Run(steps, delay).value.log|
    ensures FreeAt(Run(steps, delay).value, delay) <=
              Run(steps + [Enqueue(key, at)] + more, delay).value.emitted[i].time
  {
    var s, t := Run(steps, delay).value, Run(steps + [Enqueue(key, at)] + more, delay).value;
    assert steps + [Enqueue(key, at)] + more == steps + ([Enqueue(key, at)] + more);
    LaterEmissions(steps, [Enqueue(key, at)] + more, delay);
    EmittedWereLogged(steps, delay);
    NewEmission(s.emitted, t.emitted, |s.log|, i);
  }

  lemma NewEmission(before: seq<Emission>, after: seq<Emission>, bound: nat, i: nat)
    requires before <= after && (forall j :: 0 <= j < |before| ==> before[j].id < bound) && i < |after|
    requires after[i].id == bound
    ensures i >= |before|
  {
  }

  lemma EarlyNeeds(steps: seq<Step>, key: Key, at: nat, delay: nat, more: seq<Step>)
    requires ReleasedEarly(steps, key, at, delay, more)
    ensures CanBeEarly(Run(steps, delay).value, key, at, delay)
  {
    var s, t := Run(steps, delay).value, Run(steps + [Enqueue(key, at)] + more, delay).value;
    var i :| 0 <= i < |t.emitted| && t.emitted[i].id == |s.log| && t.emitted[i].time + 1_000 < at + delay;
    BasisBound(steps, key, at, delay, more, i);
    FreeBound(steps, key, at, delay, more, i);
  }

  lemma EnqueueBasis(steps: seq<Step>, key: Key, at: nat, delay: nat)
    requires Run(steps + [Enqueue(key, at)], delay).Some?
    ensures Run(steps, delay).Some?
    ensures var s, t := Run(steps, delay).value, Run(steps + [Enqueue(key, at)], delay).value;
            |t.log| == |s.log| + 1
            && t.log[|s.log|] == Enqueued(key, at, if First(s.queue, key).Some? then First(s.queue, key).value else at)
  {
    var longer := steps + [Enqueue(key, at)];
    assert longer[..|longer| - 1] == steps;
  }

  /* ---- and when it can, some continuation does release it early ---- */

  lemma RunSnoc(steps: seq<Step>, step: Step, s: State, delay: nat) returns (t: State)
    requires Run(steps, delay) == Some(s) && Enabled(s, step)
    ensures t == Apply(s, step, delay) && Run(steps + [step], delay) == Some(t)
  {
    t := Apply(s, step, delay);
    assert (steps + [step])[..|steps|] == steps;
  }

  /** The consumer finishes with what it holds, or its sleep, as early as it can. */
  lemma HandFinishes(steps: seq<Step>, s: State, delay: nat) returns (more: seq<Step>, t: State)
    requires Run(steps, delay) == Some(s)
    ensures Run(steps + more, delay) == Some(t)
    ensures t == s.(hand := Free, now := FreeAt(s, delay), emitted := t.emitted)
    ensures HoldsItem(s.hand) ==> |t.emitted| > 0 && t.emitted[|t.emitted| - 1] == Emission(s.hand.id, FreeAt(s, delay))
  {
    var free := FreeAt(s, delay);
    match s.hand
    case Free =>
      more, t := [], s;
      assert steps + more == steps;
    case Popped(_, _) =>
      var s1 := RunSnoc(steps, Tick(free), s, delay);
      var s2 := RunSnoc(steps + [Tick(free)], Decide, s1, delay);
      t := RunSnoc(steps + [Tick(free)] + [Decide], Release, s2, delay);
      more := [Tick(free), Decide, Release];
      assert steps + more == steps + [Tick(free)] + [Decide] + [Release];
    case Waiting(_, _, _) =>
      var s1 := RunSnoc(steps, Tick(free), s, delay);
      t := RunSnoc(steps + [Tick(free)], Release, s1, delay);
      more := [Tick(free), Release];
      assert steps + more == steps + [Tick(free)] + [Release];
    case Asleep(_) =>
      var s1 := RunSnoc(steps, Tick(free), s, delay);
      t := RunSnoc(steps + [Tick(free)], Wake, s1, delay);
      more := [Tick(free), Wake];
      assert steps + more == steps + [Tick(free)] + [Wake];
  }

  /** With every other item removed, taking finds this key's item behind its oldest entry. */
  lemma OnlyItemTaken(s: State, key: Key, delay: nat)
    requires s.hand.Free? && key in s.items && First(s.queue, key).Some? && forall k :: k in s.items ==> k == key
    ensures Apply(s, Pop, delay).hand == Popped(First(s.queue, key).value, s.items[key])
    ensures Apply(s, Pop, delay).now == s.now
  {
    GetTakes(s.queue, s.items);
    assert Get(s.queue, s.items).1.Taken?;
  }

  /** Enqueue, let the consumer finish, and remove every other item. */
  lemma OnlyThisItem(steps: seq<Step>, s: State, key: Key, at: nat, delay: nat) returns (more: seq<Step>, t: State)
    requires Run(steps, delay) == Some(s) && at <= s.now && First(s.queue, key).Some?
    ensures Run(steps + [Enqueue(key, at)] + more, delay) == Some(t)
    ensures t.hand.Free? && t.now == FreeAt(s, delay) && First(t.queue, key) == First(s.queue, key)
    ensures key in t.items && t.items[key] == |s.log| && forall k :: k in t.items ==> k == key
  {
    var enqueued := steps + [Enqueue(key, at)];
    var s1 := RunSnoc(steps, Enqueue(key, at), s, delay);
    FirstSnoc(s.queue, Entry(at, key), key);
    var a, s2 := HandFinishes(enqueued, s1, delay);
    var others := (k: Key) => k != key;
    t := RunSnoc(enqueued + a, RemoveRange(others), s2, delay);
    more := a + [RemoveRange(others)];
    assert enqueued + a + [RemoveRange(others)] == enqueued + more;
  }

  lemma TakenAndReleased(steps: seq<Step>, s: State, key: Key, delay: nat) returns (more: seq<Step>, t: State)
    requires Run(steps, delay) == Some(s) && s.hand.Free? && First(s.queue, key).Some?
    requires key in s.items && forall k :: k in s.items ==> k == key
    ensures Run(steps + more, delay) == Some(t)
    ensures var due := First(s.queue, key).value + delay;
            |t.emitted| > 0
            && t.emitted[|t.emitted| - 1] == Emission(s.items[key], if due <= s.now + 1_000 then s.now else due - 1_000)
  {
    OnlyItemTaken(s, key, delay);
    var s1 := RunSnoc(steps, Pop, s, delay);
    var b;
    b, t := HandFinishes(steps + [Pop], s1, delay);
    more := [Pop] + b;
    assert steps + [Pop] + b == steps + more;
  }

  /** From any state: the item comes out as soon as the oldest entry of its key allows. */
  lemma EarliestRelease(steps: seq<Step>, key: Key, at: nat, delay: nat) returns (more: seq<Step>, t: State)
    requires Run(steps, delay).Some? && at <= Run(steps, delay).value.now
    requires First(Run(steps, delay).value.queue, key).Some?
    ensures Run(steps + [Enqueue(key, at)] + more, delay) == Some(t)
    ensures var s := Run(steps, delay).value;
            var due := First(s.queue, key).value + delay;
            |t.emitted| > 0 && t.emitted[|t.emitted| - 1] ==
              Emission(|s.log|, if due <= FreeAt(s, delay) + 1_000 then FreeAt(s, delay) else due - 1_000)
  {
    more, t := EarliestFrom(steps, Run(steps, delay).value, key, at, delay);
  }

  lemma EarliestFrom(steps: seq<Step>, s: State, key: Key, at: nat, delay: nat) returns (more: seq<Step>, t: State)
    requires Run(steps, delay) == Some(s) && at <= s.now && First(s.queue, key).Some?
    ensures Run(steps + [Enqueue(key, at)] + more, delay) == Some(t)
    ensures var due := First(s.queue, key).value + delay;
            |t.emitted| > 0 && t.emitted[|t.emitted| - 1] ==
              Emission(|s.log|, if due <= FreeAt(s, delay) + 1_000 then FreeAt(s, delay) else due - 1_000)
  {
    var a, s1 := OnlyThisItem(steps, s, key, at, delay);
    var enqueued := steps + [Enqueue(key, at)];
    var b;
    b, t := TakenAndReleased(enqueued + a, s1, key, delay);
    more := a + b;
    Regroup(enqueued, a, b, enqueued + more);
  }

  lemma EarlyHappens(steps: seq<Step>, key: Key, at: nat, delay: nat) returns (more: seq<Step>)
    requires Run(steps, delay).Some? && at <= Run(steps, delay).value.now
    requires CanBeEarly(Run(steps, delay).value, key, at, delay)
    ensures ReleasedEarly(steps, key, at, delay, more)
  {
    var t;
    more, t := EarliestRelease(steps, key, at, delay);
    assert t.emitted[|t.emitted| - 1].time + 1_000 < at + delay;
  }

  /**
  An item can come out before its delay has passed, in some continuation, if and
  only if its key has an older entry in the queue and the consumer can be free in
  time: in particular a key with no queue entry always waits out its delay.
  */
  lemma EarlyIff(steps: seq<Step>, key: Key, at: nat, delay: nat)
    requires Run(steps, delay).Some? && at <= Run(steps, delay).value.now
    ensures (exists more :: ReleasedEarly(steps, key, at, delay, more)) <==>
              CanBeEarly(Run(steps, delay).value, key, at, delay)
  {
    if CanBeEarly(Run(steps, delay).value, key, at, delay) {
      var more := EarlyHappens(steps, key, at, delay);
    }
    if more :| ReleasedEarly(steps, key, at, delay, more) {
      EarlyNeeds(steps, key, at, delay, more);
    }
  }

  /** An item whose key was not in the queue waits out its own delay, less a millisecond, in every continuation. */
  lemma FreshKeyWaits(steps: seq<Step>, key: Key, at: nat, delay: nat, more: seq<Step>, i: nat)
    requires Run(steps, delay).Some? && First(Run(steps, delay).value.queue, key) == None
    requires Run(steps + [Enqueue(key, at)] + more, delay).Some?
    requires var t := Run(steps + [Enqueue(key, at)] + more, delay).value;
             i < |t.emitted| && t.emitted[i].id == |Run(steps, delay).value.log|
    ensures Run(steps + [Enqueue(key, at)] + more, delay).value.emitted[i].time + 1_000 >= at + delay
  {
    BasisBound(steps, key, at, delay, more, i);
  }

  /** While the consumer sleeps after finding nothing, an item enqueued within a millisecond of that cannot be early. */
  lemma SleeperNotEarly(steps: seq<Step>, key: Key, at: nat, delay: nat, asleepSince: nat, more: seq<Step>)
    requires Run(steps, delay).Some? && at <= Run(steps, delay).value.now
    requires Run(steps, delay).value.hand == Asleep(asleepSince + delay) && at <= asleepSince + 1_000
    ensures !ReleasedEarly(steps, key, at, delay, more)
  {
    EarlyIff(steps, key, at, delay);
  }
}
