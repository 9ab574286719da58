/**
The lossy per-collection commit buffer: when it is full, a new commit takes the
place of a buffered create, found by moving a head forward.
*/
module CommitBuffer {
  datatype Action = Put(isUpdate: bool, record: string) | Cut
  datatype Commit = Commit(cursor: nat, did: string, rkey: string, rev: string, action: Action)

  datatype Buffer = Buffer(creates: nat, updates: nat, deletes: nat, dids: set<string>, commits: seq<Commit>, head: nat)

  const EMPTY := Buffer(0, 0, 0, {}, [], 0)

  datatype Outcome = Stored | BatchFull | BatchOverflow(head: nat) | BatchForever

  predicate IsCreate(c: Commit) { c.action.Put? && !c.action.isUpdate }
  predicate IsUpdate(c: Commit) { c.action.Put? && c.action.isUpdate }

  function AdvanceHead(head: nat, limit: nat): nat {
    if head + 1 > limit then 0 else head + 1
  }

  /** How many advances until the head is back where it started. */
  function Distance(head: nat, started: nat, limit: nat): int {
    if head < started then started - head else limit + 1 - head + started
  }

  /** The displacement loop: where it ends, and where the head then is. */
  function Search(commits: seq<Commit>, head: nat, started: nat, limit: nat): (Outcome, nat)
    requires head <= limit && started <= limit
    decreases Distance(head, started, limit)
  {
    if |commits| <= head then (BatchOverflow(head), head)
    else if IsCreate(commits[head]) then (Stored, head)
    else
      var next := AdvanceHead(head, limit);
      if next == started then (BatchForever, next) else Search(commits, next, started, limit)
  }

  /** Every kind of commit counts, stored or not. */
  function Counted(b: Buffer, c: Commit): Buffer {
    b.(creates := b.creates + if IsCreate(c) then 1 else 0,
       updates := b.updates + if IsUpdate(c) then 1 else 0,
       deletes := b.deletes + if c.action.Cut? then 1 else 0,
       dids := b.dids + {c.did})
  }

  function Insert(b: Buffer, c: Commit, limit: nat): (Outcome, Buffer)
    requires b.head <= limit
  {
    if b.updates + b.deletes == limit then (BatchFull, b)
    else if |b.commits| < limit then (Stored, Counted(b, c).(commits := b.commits + [c]))
    else
      var (outcome, head) := Search(b.commits, b.head, b.head, limit);
      (outcome,
       Counted(b, c).(head := head,
                      commits := if outcome.Stored? && head < |b.commits| then b.commits[head := c] else b.commits))
  }

  /* ---- what the buffer says about the commits it accepted ---- */

  function Creates(cs: seq<Commit>): (r: seq<Commit>)
    ensures |r| <= |cs|
  {
    if cs == [] then []
    else Creates(cs[..|cs| - 1]) + if IsCreate(cs[|cs| - 1]) then [cs[|cs| - 1]] else []
  }

  function Updates(cs: seq<Commit>): seq<Commit> {
    if cs == [] then []
    else Updates(cs[..|cs| - 1]) + if IsUpdate(cs[|cs| - 1]) then [cs[|cs| - 1]] else []
  }

  function Deletes(cs: seq<Commit>): seq<Commit> {
    if cs == [] then []
    else Deletes(cs[..|cs| - 1]) + if cs[|cs| - 1].action.Cut? then [cs[|cs| - 1]] else []
  }

  /** The updates and deletes, which are never displaced. */
  function Lasting(cs: seq<Commit>): (r: seq<Commit>)
    ensures |r| <= |cs|
  {
    if cs == [] then []
    else Lasting(cs[..|cs| - 1]) + if IsCreate(cs[|cs| - 1]) then [] else [cs[|cs| - 1]]
  }

  ghost function DidsOf(cs: seq<Commit>): set<string> {
    set i | 0 <= i < |cs| :: cs[i].did
  }

  /** The tallies are those of the whole history. */
  ghost predicate Tallies(b: Buffer, history: seq<Commit>) {
    && b.creates == |Creates(history)| && b.updates == |Updates(history)| && b.deletes == |Deletes(history)|
    && b.dids == DidsOf(history)
  }

  /** What is kept: every update and delete, nothing invented, everything up to the limit, and the newest commit. */
  ghost predicate Keeps(b: Buffer, history: seq<Commit>, limit: nat) {
    && multiset(Lasting(b.commits)) == multiset(Lasting(history))
    && multiset(b.commits) <= multiset(history)
    && |b.commits| == (if |history| < limit then |history| else limit)
    && (|history| <= limit ==> b.commits == history)
    && (history != [] ==> history[|history| - 1] in b.commits)
  }

  /** Every slot before the head holds an update or a delete. */
  ghost predicate HeadOk(b: Buffer) {
    b.head <= |b.commits| && forall i :: 0 <= i < b.head ==> !IsCreate(b.commits[i])
  }

  ghost predicate Holds(b: Buffer, history: seq<Commit>, limit: nat) {
    Tallies(b, history) && Keeps(b, history, limit) && HeadOk(b)
  }

  /* ---- counting ---- */

  lemma {:induction false} LastingCount(cs: seq<Commit>)
    ensures |Lasting(cs)| == |Updates(cs)| + |Deletes(cs)| && |cs| == |Creates(cs)| + |Lasting(cs)|
  {
    if cs != [] {
      LastingCount(cs[..|cs| - 1]);
    }
  }

  lemma SnocParts(cs: seq<Commit>, c: Commit)
    ensures Lasting(cs + [c]) == Lasting(cs) + if IsCreate(c) then [] else [c]
    ensures Creates(cs + [c]) == Creates(cs) + if IsCreate(c) then [c] else []
    ensures Updates(cs + [c]) == Updates(cs) + if IsUpdate(c) then [c] else []
    ensures Deletes(cs + [c]) == Deletes(cs) + if c.action.Cut? then [c] else []
  {
    assert (cs + [c])[..|cs|] == cs;
  }

  lemma SnocDids(cs: seq<Commit>, c: Commit)
    ensures DidsOf(cs + [c]) == DidsOf(cs) + {c.did}
  {
    var more := cs + [c];
    forall d ensures d in DidsOf(more) <==> d in DidsOf(cs) || d == c.did {
      if d in DidsOf(cs) {
        var i :| 0 <= i < |cs| && cs[i].did == d;
        assert more[i] == cs[i];
      }
      assert more[|cs|] == c;
    }
  }

  /** A list without creates is all lasting; fewer lasting than slots means some create is left. */
  lemma {:induction false} AllLasting(cs: seq<Commit>)
    requires forall i :: 0 <= i < |cs| ==> !IsCreate(cs[i])
    ensures Lasting(cs) == cs
  {
    if cs != [] {
      AllLasting(cs[..|cs| - 1]);
    }
  }

  lemma {:induction false} CreateLeft(cs: seq<Commit>, k: nat)
    requires k < |cs| && IsCreate(cs[k])
    ensures |Lasting(cs)| < |cs|
  {
    var n := |cs| - 1;
    if k < n {
      CreateLeft(cs[..n], k);
    }
  }

  lemma LastingSplit(cs: seq<Commit>, n: nat)
    requires |cs| == n + 1
    ensures multiset(Lasting(cs)) ==
              multiset(Lasting(cs[..n])) + if IsCreate(cs[n]) then multiset{} else multiset{cs[n]}
  {
  }

  /** Overwriting a create loses no update or delete. */
  lemma {:induction false} Displaced(cs: seq<Commit>, k: nat, c: Commit)
    requires k < |cs| && IsCreate(cs[k])
    ensures multiset(Lasting(cs[k := c])) == multiset(Lasting(cs)) + if IsCreate(c) then multiset{} else multiset{c}
  {
    var n := |cs| - 1;
    var after := cs[k := c];
    if k < n {
      Displaced(cs[..n], k, c);
      assert after[..n] == cs[..n][k := c];
    } else {
      assert after[..n] == cs[..n];
    }
    LastingSplit(cs, n);
    LastingSplit(after, n);
  }

  /* ---- the search ---- */

  /** If a create is left and none lies before the head, the search finds the first one without wrapping. */
  lemma {:induction false} SearchFinds(commits: seq<Commit>, head: nat, started: nat, limit: nat)
    requires started <= head < limit == |commits|
    requires forall i :: 0 <= i < head ==> !IsCreate(commits[i])
    requires exists k :: 0 <= k < |commits| && IsCreate(commits[k])
    ensures var (outcome, at) := Search(commits, head, started, limit);
            && outcome == Stored && head <= at < limit && IsCreate(commits[at])
            && forall i :: 0 <= i < at ==> !IsCreate(commits[i])
    decreases limit - head
  {
    if !IsCreate(commits[head]) {
      var k :| 0 <= k < |commits| && IsCreate(commits[k]);
      assert head < k;
      SearchFinds(commits, head + 1, started, limit);
    }
  }

  lemma SomeCreate(commits: seq<Commit>)
    requires |Lasting(commits)| < |commits|
    ensures exists k :: 0 <= k < |commits| && IsCreate(commits[k])
  {
    if forall k :: 0 <= k < |commits| ==> !IsCreate(commits[k]) {
      AllLasting(commits);
    }
  }

  /* ---- one insert ---- */

  /** The buffer reports full exactly when it holds `limit` commits and no create among them. */
  lemma FullMeansNoCreates(b: Buffer, history: seq<Commit>, c: Commit, limit: nat)
    requires Holds(b, history, limit)
    ensures b.head <= limit
    ensures Insert(b, c, limit).0 == BatchFull <==>
            |b.commits| == limit && forall i :: 0 <= i < |b.commits| ==> !IsCreate(b.commits[i])
  {
    LastingCount(history);
    LastingLength(b.commits, history);
    if |b.commits| == limit && forall i :: 0 <= i < |b.commits| ==> !IsCreate(b.commits[i]) {
      AllLasting(b.commits);
    } else if |Lasting(b.commits)| == limit {
      NoCreateIn(b.commits);
    }
    InsertOutcome(b, history, c, limit);
  }

  lemma NoCreateIn(cs: seq<Commit>)
    requires |Lasting(cs)| == |cs|
    ensures forall k :: 0 <= k < |cs| ==> !IsCreate(cs[k])
  {
    forall k | 0 <= k < |cs| ensures !IsCreate(cs[k]) {
      if IsCreate(cs[k]) {
        CreateLeft(cs, k);
      }
    }
  }

  lemma LastingLength(a: seq<Commit>, b: seq<Commit>)
    requires multiset(Lasting(a)) == multiset(Lasting(b))
    ensures |Lasting(a)| == |Lasting(b)|
  {
    assert |multiset(Lasting(a))| == |Lasting(a)|;
    assert |multiset(Lasting(b))| == |Lasting(b)|;
  }

  /** A new commit is stored or the buffer is full and unchanged: neither internal error can happen. */
  lemma InsertOutcome(b: Buffer, history: seq<Commit>, c: Commit, limit: nat)
    requires Holds(b, history, limit)
    ensures b.head <= limit
    ensures var (outcome, after) := Insert(b, c, limit);
            outcome == if b.updates + b.deletes == limit then BatchFull else Stored
    ensures b.updates + b.deletes <= limit
    ensures var (outcome, after) := Insert(b, c, limit);
            outcome == BatchFull ==> after == b
  {
    LastingCount(history);
    LastingLength(b.commits, history);
    if b.updates + b.deletes != limit && |b.commits| >= limit {
      SomeCreate(b.commits);
      SearchFinds(b.commits, b.head, b.head, limit);
    }
  }

  lemma AppendKeeps(b: Buffer, history: seq<Commit>, c: Commit, limit: nat)
    requires Keeps(b, history, limit) && |b.commits| < limit
    ensures Keeps(b.(commits := b.commits + [c]), history + [c], limit)
  {
    assert b.commits == history;
  }

  lemma DisplaceKeeps(b: Buffer, history: seq<Commit>, c: Commit, limit: nat, k: nat)
    requires Keeps(b, history, limit) && |b.commits| == limit && k < limit && IsCreate(b.commits[k])
    ensures Keeps(b.(commits := b.commits[k := c]), history + [c], limit)
  {
    Displaced(b.commits, k, c);
    SnocParts(history, c);
    var after := b.commits[k := c];
    assert multiset(after) == multiset(b.commits) - multiset{b.commits[k]} + multiset{c};
    assert after[k] == c;
  }

  lemma CountedTallies(b: Buffer, history: seq<Commit>, c: Commit)
    requires Tallies(b, history)
    ensures Tallies(Counted(b, c), history + [c])
  {
    SnocParts(history, c);
    SnocDids(history, c);
  }

  /** Where a stored commit goes. */
  lemma InsertPlace(b: Buffer, history: seq<Commit>, c: Commit, limit: nat) returns (k: nat)
    requires Holds(b, history, limit) && b.updates + b.deletes != limit
    ensures b.head <= limit && Insert(b, c, limit).0 == Stored
    ensures |b.commits| < limit ==> Insert(b, c, limit).1 == Counted(b, c).(commits := b.commits + [c])
    ensures |b.commits| >= limit ==>
              && b.head <= k < limit == |b.commits| && IsCreate(b.commits[k])
              && (forall i :: 0 <= i < k ==> !IsCreate(b.commits[i]))
              && Insert(b, c, limit).1 == Counted(b, c).(commits := b.commits[k := c], head := k)
  {
    InsertOutcome(b, history, c, limit);
    k := 0;
    if |b.commits| >= limit {
      LastingCount(history);
      LastingLength(b.commits, history);
      SomeCreate(b.commits);
      SearchFinds(b.commits, b.head, b.head, limit);
      k := Search(b.commits, b.head, b.head, limit).1;
    }
  }

  /** A stored commit extends the history the buffer speaks for. */
  lemma InsertHolds(b: Buffer, history: seq<Commit>, c: Commit, limit: nat)
    requires Holds(b, history, limit) && b.updates + b.deletes != limit
    ensures b.head <= limit && Insert(b, c, limit).0 == Stored && Holds(Insert(b, c, limit).1, history + [c], limit)
  {
    var k := InsertPlace(b, history, c, limit);
    if |b.commits| < limit {
      AppendHolds(b, history, c, limit, Insert(b, c, limit).1);
    } else {
      DisplaceHolds(b, history, c, limit, k, Insert(b, c, limit).1);
    }
  }

  lemma AppendHolds(b: Buffer, history: seq<Commit>, c: Commit, limit: nat, after: Buffer)
    requires Holds(b, history, limit) && |b.commits| < limit && after == Counted(b, c).(commits := b.commits + [c])
    ensures Holds(after, history + [c], limit)
  {
    CountedTallies(b, history, c);
    AppendKeeps(b, history, c, limit);
    KeepsSame(b.(commits := b.commits + [c]), after, history + [c], limit);
  }

  lemma DisplaceHolds(b: Buffer, history: seq<Commit>, c: Commit, limit: nat, k: nat, after: Buffer)
    requires Holds(b, history, limit) && k < limit == |b.commits| && IsCreate(b.commits[k])
    requires forall i :: 0 <= i < k ==> !IsCreate(b.commits[i])
    requires after == Counted(b, c).(commits := b.commits[k := c], head := k)
    ensures Holds(after, history + [c], limit)
  {
    CountedTallies(b, history, c);
    DisplaceKeeps(b, history, c, limit, k);
    KeepsSame(b.(commits := b.commits[k := c]), after, history + [c], limit);
  }

  lemma KeepsSame(a: Buffer, b: Buffer, history: seq<Commit>, limit: nat)
    requires Keeps(a, history, limit) && a.commits == b.commits
    ensures Keeps(b, history, limit)
  {
  }

  lemma EmptyHolds(limit: nat)
    ensures Holds(EMPTY, [], limit)
  {
  }

  /* ---- runs ---- */

  /** Offers commits one by one; the accepted ones are those not rejected as full. */
  ghost function Offer(cs: seq<Commit>, limit: nat): (r: (Buffer, seq<Commit>))
    ensures Holds(r.0, r.1, limit)
  {
    if cs == [] then EmptyHolds(limit); (EMPTY, [])
    else
      var (b, accepted) := Offer(cs[..|cs| - 1], limit);
      var c := cs[|cs| - 1];
      if b.updates + b.deletes == limit then (b, accepted)
      else InsertHolds(b, accepted, c, limit); (Insert(b, c, limit).1, accepted + [c])
  }

  class CollectionCommits {
    const limit: nat
    var creates: nat
    var updates: nat
    var deletes: nat
    var dids: set<string>
    var commits: seq<Commit>
    var head: nat

    constructor (limit: nat)
      ensures View() == EMPTY && this.limit == limit
    {
      this.limit := limit;
      creates, updates, deletes, dids, commits, head := 0, 0, 0, {}, [], 0;
    }

    function View(): Buffer
      reads this
    {
      Buffer(creates, updates, deletes, dids, commits, head)
    }

    method TruncatingInsert(c: Commit) returns (outcome: Outcome)
      requires head <= limit
      modifies this
      ensures (outcome, View()) == Insert(old(View()), c, limit)
      ensures head <= limit
    {
      if updates + deletes == limit {
        return BatchFull;
      }
      dids := dids + {c.did};
      match c.action {
        case Put(isUpdate, _) =>
          if isUpdate {
            updates := updates + 1;
          } else {
            creates := creates + 1;
          }
        case Cut => deletes := deletes + 1;
      }
      if |commits| < limit {
        commits := commits + [c];
        return Stored;
      }
      outcome := DisplaceCreate(c);
    }

    /** The displacement loop: the commit takes the place of the first create from the head on. */
    method DisplaceCreate(c: Commit) returns (outcome: Outcome)
      requires head <= limit
      modifies this`head, this`commits
      ensures (outcome, head) == Search(old(commits), old(head), old(head), limit) && head <= limit
      ensures commits == if outcome.Stored? && head < |old(commits)| then old(commits)[head := c] else old(commits)
    {
      var startedAt := head;
      while true
        invariant head <= limit && commits == old(commits)
        invariant Search(commits, head, startedAt, limit) == Search(commits, startedAt, startedAt, limit)
        decreases Distance(head, startedAt, limit)
      {
        if |commits| <= head {
          return BatchOverflow(head);
        }
        if IsCreate(commits[head]) {
          commits := commits[head := c];
          return Stored;
        }
        head := AdvanceHead(head, limit);
        if head == startedAt {
          return BatchForever;
        }
      }
    }
  }
}
