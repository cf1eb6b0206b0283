/** The per-context symbol counter: how often each character followed one context. */
module Counts {

  /** A char-to-count multiset plus the running total of all its counts. */
  datatype CharCounts = CharCounts(counts: multiset<char>, total: int) {

    /** The total is the sum of the counts. */
    predicate Valid() {
      total == |counts|
    }

    /** How often c was counted. */
    function Get(c: char): nat {
      counts[c]
    }

    /** The counter after one more occurrence of c. */
    function Increment(c: char): (r: CharCounts)
      ensures r.Get(c) == Get(c) + 1
      ensures forall d :: d != c ==> r.Get(d) == Get(d)
      ensures r.total == total + 1
    {
      CharCounts(counts + multiset{c}, total + 1)
    }
  }

  /** A fresh counter, as `new CharCounts()` makes it. */
  const Empty: CharCounts := CharCounts(multiset{}, 0)

  /** Incrementing keeps the total equal to the sum of the counts. */
  lemma IncrementValid(cc: CharCounts, c: char)
    requires cc.Valid()
    ensures cc.Increment(c).Valid()
  {
  }

  /** No single count exceeds the total. */
  lemma {:induction false} CountAtMostTotal(m: multiset<char>, c: char)
    ensures m[c] <= |m|
    decreases |m|
  {
    if m != multiset{} {
      var x :| x in m;
      var rest := m - multiset{x};
      assert m == rest + multiset{x};
      CountAtMostTotal(rest, c);
    }
  }

  lemma GetAtMostTotal(cc: CharCounts, c: char)
    requires cc.Valid()
    ensures cc.Get(c) <= cc.total
  {
    CountAtMostTotal(cc.counts, c);
  }
}
