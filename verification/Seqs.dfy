/** Regrouping concatenations, where a loop moves items from one side to the other. */
module Seqs {
  lemma Regroup<T>(a: seq<T>, b: seq<T>, c: seq<T>, all: seq<T>)
    requires all == a + (b + c)
    ensures all == (a + b) + c
  {
  }

  lemma Ungroup<T>(a: seq<T>, b: seq<T>, c: seq<T>, all: seq<T>)
    requires all == (a + b) + c
    ensures all == a + (b + c)
  {
  }

  lemma EmptyFirst<T>(s: seq<T>)
    ensures [] + s == s
  {
  }
}
