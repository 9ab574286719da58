/** Counter values: three tallies and a sketch. The sketch is kept as the set of accounts inserted into it. */
module CountValues {
  type Did = string
  type Nsid = string

  datatype Counts = Counts(creates: nat, updates: nat, deletes: nat, dids: set<Did>)

  const ZERO := Counts(0, 0, 0, {})

  function Merge(a: Counts, b: Counts): Counts {
    Counts(a.creates + b.creates, a.updates + b.updates, a.deletes + b.deletes, a.dids + b.dids)
  }

  lemma MergeLaws(a: Counts, b: Counts, c: Counts)
    ensures Merge(ZERO, a) == a == Merge(a, ZERO)
    ensures Merge(a, b) == Merge(b, a)
    ensures Merge(Merge(a, b), c) == Merge(a, Merge(b, c))
  {
    assert {} + a.dids == a.dids == a.dids + {};
    assert a.dids + b.dids == b.dids + a.dids;
    assert a.dids + b.dids + c.dids == a.dids + (b.dids + c.dids);
  }
}
