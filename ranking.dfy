/** Top-n selection over a scoreboard. */
module Ranking {
  import opened Scores

  function Min(a: int, b: int): int {
    if a < b then a else b
  }

  /** Among the given keys of a scoreboard there is one whose score is at most every other's. */
  lemma {:induction false} LeastExists(m: map<string, Score>, keys: set<string>)
    requires keys != {} && keys <= m.Keys
    ensures exists x :: x in keys && forall y :: y in keys ==> Le(m[x], m[y])
    decreases keys
  {
    var z :| z in keys;
    var rest := keys - {z};
    if rest == {} {
      assert keys == {z};
      LeTotal(m[z], m[z]);
      assert forall y :: y in keys ==> Le(m[z], m[y]);
    } else {
      LeastExists(m, rest);
      var w :| w in rest && forall y :: y in rest ==> Le(m[w], m[y]);
      LeTotal(m[w], m[z]);
      if Le(m[w], m[z]) {
        assert forall y :: y in keys ==> Le(m[w], m[y]);
      } else {
        forall y | y in keys ensures Le(m[z], m[y]) {
          if y != z {
            LeTransitive(m[z], m[w], m[y]);
          } else {
            LeTotal(m[z], m[z]);
          }
        }
      }
    }
  }

  /** sorted(comparingByValue()).limit(n) collected into a map: the n smallest scores, or all of
      them when there are fewer. The collected map keeps no order, and ties fall either way. */
  method SelectBest(results: map<string, Score>, n: nat) returns (best: map<string, Score>)
    ensures |best| == Min(n, |results|)
    ensures forall id :: id in best ==> id in results && best[id] == results[id]
    ensures forall a, b :: a in best && b in results && b !in best ==> Le(best[a], results[b])
  {
    best := map[];
    var pending := results.Keys;
    while |best| < n && pending != {}
      invariant pending <= results.Keys
      invariant best == map id | id in results.Keys - pending :: results[id]
      invariant |best| + |pending| == |results|
      invariant |best| <= n
      invariant forall a, b :: a in best && b in pending ==> Le(best[a], results[b])
      decreases pending
    {
      LeastExists(results, pending);
      var m :| m in pending && forall y :: y in pending ==> Le(results[m], results[y]);
      ghost var before := best;
      best := best[m := results[m]];
      pending := pending - {m};
      assert best.Keys == before.Keys + {m};
      assert |best| == |before| + 1;
    }
  }
}
