/** Smoothed probabilities and their bit costs along the window walk. */
module Smoothing {
  import opened Counts
  import opened Windows

  /** What the model assumes of Math.log: ln(1) = 0, ln(2) > 0, and it is monotone on
      the positive reals. */
  ghost predicate IsLog(ln: real -> real) {
    && ln(1.0) == 0.0
    && ln(2.0) > 0.0
    && forall x: real, y: real :: 0.0 < x <= y ==> LogOrdered(ln, x, y)
  }

  /** ln(x) <= ln(y); named so that monotonicity is applied only where a proof asks for it. */
  ghost predicate LogOrdered(ln: real -> real, x: real, y: real) {
    ln(x) <= ln(y)
  }

  /** The Lidstone estimate (count + alpha) / (total + alpha * |alphabet|), over exact reals. */
  function Probability(cc: CharCounts, c: char, alpha: real, size: nat): (p: real)
    requires cc.Valid() && alpha > 0.0 && size >= 1
    ensures 0.0 < p <= 1.0
  {
    GetAtMostTotal(cc, c);
    AtLeastOnce(alpha, size);
    var num, den := cc.Get(c) as real + alpha, cc.total as real + alpha * size as real;
    QuotientAtMostOne(num, den);
    num / den
  }

  lemma AtLeastOnce(alpha: real, size: nat)
    requires alpha > 0.0 && size >= 1
    ensures alpha <= alpha * size as real
  {
    assert alpha * size as real == alpha + alpha * (size - 1) as real;
  }

  lemma QuotientAtMostOne(num: real, den: real)
    requires 0.0 < num <= den
    ensures 0.0 < num / den <= 1.0
  {
    assert num / den * den == num;
  }

  lemma SumOfQuotients(a: real, b: real, d: real)
    requires d != 0.0
    ensures a / d + b / d == (a + b) / d
  {
  }

  /** getSymbolBits: the natural logarithm of the smoothed probability. */
  function SymbolBits(cc: CharCounts, c: char, alpha: real, size: nat, ln: real -> real): (r: real)
    requires cc.Valid() && alpha > 0.0 && size >= 1
    ensures IsLog(ln) ==> r <= 0.0
  {
    var p := Probability(cc, c, alpha, size);
    // The probability is at most 1, so its logarithm is at most ln(1) = 0.
    assert IsLog(ln) ==> LogOrdered(ln, p, 1.0);
    ln(p)
  }

  /** The cost of the window starting at i: its context is looked up with an empty default
      and charged for the character that follows it. */
  function WindowCost(table: Table, size: nat, alpha: real, ln: real -> real, s: string, k: nat, i: nat): real
    requires ValidCounters(table) && alpha > 0.0 && size >= 1
    requires i + k < |s|
  {
    SymbolBits(Lookup(table, Window(s, k, i)), s[i + k], alpha, size, ln)
  }

  /** The sum of the costs of the first n windows. */
  function SumCosts(table: Table, size: nat, alpha: real, ln: real -> real, s: string, k: nat, n: nat): real
    requires ValidCounters(table) && alpha > 0.0 && size >= 1
    requires n + k <= |s|
  {
    if n == 0 then 0.0
    else SumCosts(table, size, alpha, ln, s, k, n - 1) + WindowCost(table, size, alpha, ln, s, k, n - 1)
  }

  /** One step of the estimating walk as a whole: charging window i and sliding the buffer
      to window i + 1. */
  lemma CostStep(table: Table, size: nat, alpha: real, ln: real -> real, s: string, k: nat, i: nat, ctx: string)
    requires ValidCounters(table) && alpha > 0.0 && size >= 1
    requires i + k < |s| && ctx == Window(s, k, i)
    ensures SumCosts(table, size, alpha, ln, s, k, i + 1)
            == SumCosts(table, size, alpha, ln, s, k, i) + SymbolBits(Lookup(table, ctx), s[i + k], alpha, size, ln)
    ensures i + k + 1 < |s| && ctx != [] ==> ctx[1..] + [s[i + k]] == Window(s, k, i + 1)
  {
    if i + k + 1 < |s| && ctx != [] {
      WindowSlide(s, k, i, ctx);
    }
  }

  /** A natural-log cost in bits: -cost / ln(2). */
  function ToBits(cost: real, ln: real -> real): (r: real)
    requires IsLog(ln)
    ensures cost <= 0.0 ==> r >= 0.0
  {
    -cost / ln(2.0)
  }

  /** The window cost converted to bits: -cost / ln(2). For alpha > 0 it is never negative,
      so the "negative bits" report in nrc2 never fires; a negative alpha can push the
      probability above 1, and then it does. */
  function WindowBits(table: Table, size: nat, alpha: real, ln: real -> real, s: string, k: nat, i: nat): (r: real)
    requires ValidCounters(table) && alpha > 0.0 && size >= 1 && IsLog(ln)
    requires i + k < |s|
    ensures r >= 0.0
  {
    ToBits(WindowCost(table, size, alpha, ln, s, k, i), ln)
  }

  /** estimateTotalBits over index arithmetic: every one of the len - k windows is charged,
      and the natural-log sum is converted to bits once at the end. */
  function TotalBits(table: Table, size: nat, alpha: real, ln: real -> real, s: string, k: nat): (r: real)
    requires ValidCounters(table) && alpha > 0.0 && size >= 1 && IsLog(ln)
    requires k <= |s|
    ensures r >= 0.0
  {
    SumCostsNonPositive(table, size, alpha, ln, s, k, |s| - k);
    ToBits(SumCosts(table, size, alpha, ln, s, k, |s| - k), ln)
  }

  // ---------------------------------------------------------------------------------------
  // Properties of the estimate

  /** A context never seen in training gets the uniform probability 1 / |alphabet|. */
  lemma UnseenIsUniform(table: Table, ctx: string, c: char, alpha: real, size: nat)
    requires ctx !in table && alpha > 0.0 && size >= 1
    ensures Probability(Lookup(table, ctx), c, alpha, size) == 1.0 / size as real
  {
    var s := size as real;
    calc {
      Probability(Lookup(table, ctx), c, alpha, size);
      (0.0 + alpha) / (0.0 + alpha * s);
      { assert alpha * s != 0.0; }
      1.0 / s;
    }
  }

  /** The running sum of log-probabilities is never positive. */
  lemma {:induction false} SumCostsNonPositive(table: Table, size: nat, alpha: real, ln: real -> real, s: string, k: nat, n: nat)
    requires ValidCounters(table) && alpha > 0.0 && size >= 1 && IsLog(ln)
    requires n + k <= |s|
    ensures SumCosts(table, size, alpha, ln, s, k, n) <= 0.0
  {
    if n > 0 {
      SumCostsNonPositive(table, size, alpha, ln, s, k, n - 1);
    }
  }

  // ---------------------------------------------------------------------------------------
  // The probabilities of one context sum to one over the alphabet

  ghost function Pick(letters: set<char>): (c: char)
    requires letters != {}
    ensures c in letters
  {
    var c :| c in letters; c
  }

  /** The counts of m summed over the characters of letters. */
  ghost function CountIn(m: multiset<char>, letters: set<char>): nat
    decreases letters
  {
    if letters == {} then 0
    else m[Pick(letters)] + CountIn(m, letters - {Pick(letters)})
  }

  /** The smoothed probabilities of a context summed over the characters of letters. */
  ghost function SumProbability(cc: CharCounts, letters: set<char>, alpha: real, size: nat): real
    requires cc.Valid() && alpha > 0.0 && size >= 1
    decreases letters
  {
    if letters == {} then 0.0
    else Probability(cc, Pick(letters), alpha, size) + SumProbability(cc, letters - {Pick(letters)}, alpha, size)
  }

  lemma {:induction false} CountInEmpty(letters: set<char>)
    ensures CountIn(multiset{}, letters) == 0
    decreases letters
  {
    if letters != {} {
      CountInEmpty(letters - {Pick(letters)});
    }
  }

  lemma {:induction false} CountInAdd(m: multiset<char>, x: char, letters: set<char>)
    requires x in letters
    ensures CountIn(m + multiset{x}, letters) == CountIn(m, letters) + 1
    decreases letters
  {
    var p := Pick(letters);
    if p == x {
      CountInOutside(m, x, letters - {p});
    } else {
      CountInAdd(m, x, letters - {p});
    }
  }

  lemma {:induction false} CountInOutside(m: multiset<char>, x: char, letters: set<char>)
    requires x !in letters
    ensures CountIn(m + multiset{x}, letters) == CountIn(m, letters)
    decreases letters
  {
    if letters != {} {
      CountInOutside(m, x, letters - {Pick(letters)});
    }
  }

  /** When every counted character is in letters, the counts over letters sum to |m|. */
  lemma {:induction false} CountInAll(m: multiset<char>, letters: set<char>)
    requires forall c :: c in m ==> c in letters
    ensures CountIn(m, letters) == |m|
    decreases |m|
  {
    if m == multiset{} {
      CountInEmpty(letters);
    } else {
      var x :| x in m;
      var rest := m - multiset{x};
      assert m == rest + multiset{x};
      CountInAll(rest, letters);
      CountInAdd(rest, x, letters);
    }
  }

  lemma {:induction false} SumProbabilityClosed(cc: CharCounts, letters: set<char>, alpha: real, size: nat)
    requires cc.Valid() && alpha > 0.0 && size >= 1
    ensures SumProbability(cc, letters, alpha, size)
         == (CountIn(cc.counts, letters) as real + alpha * |letters| as real) / (cc.total as real + alpha * size as real)
    decreases letters
  {
    var d := cc.total as real + alpha * size as real;
    if letters != {} {
      var p := Pick(letters);
      var rest := letters - {p};
      SumProbabilityClosed(cc, rest, alpha, size);
      var a := cc.counts[p] as real + alpha;
      var b := CountIn(cc.counts, rest) as real + alpha * |rest| as real;
      assert Probability(cc, p, alpha, size) == a / d;
      assert SumProbability(cc, letters, alpha, size) == a / d + b / d;
      SumOfQuotients(a, b, d);
      ScaleSucc(alpha, |rest|);
      assert a + b == CountIn(cc.counts, letters) as real + alpha * |letters| as real;
    }
  }

  lemma ScaleSucc(alpha: real, n: nat)
    ensures alpha * (n + 1) as real == alpha + alpha * n as real
  {
  }

  /** For a non-empty alphabet that contains every counted character, the probabilities of one
      context sum to exactly one, whether the context was seen or not. */
  lemma ProbabilitiesSumToOne(cc: CharCounts, alphabet: set<char>, alpha: real)
    requires cc.Valid() && alpha > 0.0 && alphabet != {}
    requires forall c :: c in cc.counts ==> c in alphabet
    ensures SumProbability(cc, alphabet, alpha, |alphabet|) == 1.0
  {
    SumProbabilityClosed(cc, alphabet, alpha, |alphabet|);
    CountInAll(cc.counts, alphabet);
    assert cc.total as real + alpha * |alphabet| as real > 0.0;
  }
}
