/** Small facts about sequences, proved once with nothing else in scope. */
module Seqs {

  lemma InitPlusLast<T>(xs: seq<T>)
    requires |xs| > 0
    ensures xs[..|xs| - 1] + [xs[|xs| - 1]] == xs
  {
  }

  lemma PrefixOfConcat<T>(a: seq<T>, b: seq<T>)
    ensures (a + b)[..|a|] == a
  {
  }

  lemma SnocTwice<T>(a: seq<T>, u: T, v: T)
    ensures a + [u] + [v] == a + [u, v]
  {
  }

  lemma SnocThrice<T>(a: seq<T>, u: T, v: T, w: T)
    ensures a + [u, v] + [w] == a + [u, v, w]
  {
  }

  lemma Assoc<T>(a: seq<T>, b: seq<T>, c: seq<T>)
    ensures a + b + c == a + (b + c)
  {
  }
}
