/** The order-k context model as a pure function of the content: the windows of width k
    that slide over a string, and the table counting what follows each of them. */
module Windows {
  import opened Counts
  import opened Nucleotides

  /** A context table: each context of width k maps to the counts of its successors. */
  type Table = map<string, CharCounts>

  /** Whether the rolling walk over a string of length len throws: substring(0, k) needs
      0 <= k <= len, and deleteCharAt(0) on the empty buffer of width 0 throws as soon as
      a second window exists. */
  predicate WalkFails(len: int, k: int)
    ensures !WalkFails(len, k) ==> 0 <= k <= len
    ensures 1 <= k <= len ==> !WalkFails(len, k)
  {
    k < 0 || k > len || (k == 0 && len >= 2)
  }

  /** The window of width k starting at i. */
  function Window(s: string, k: nat, i: nat): (w: string)
    requires i + k <= |s|
    ensures |w| == k
  {
    s[i..i + k]
  }

  /** Dropping the first character of a window and appending its successor gives the next window. */
  lemma WindowSlide(s: string, k: nat, i: nat, context: string)
    requires i + k + 1 < |s| && context == Window(s, k, i) && context != []
    ensures context[1..] + [s[i + k]] == Window(s, k, i + 1)
  {
  }

  /** One step of the walk as a whole: counting window i and sliding the buffer to window i + 1. */
  lemma WalkStep(base: Table, s: string, k: nat, i: nat, table: Table, ctx: string)
    requires !WalkFails(|s|, k) && i + k < |s|
    requires table == Counted(base, s, k, i) && ctx == Window(s, k, i)
    ensures table[ctx := Lookup(table, ctx).Increment(s[i + k])] == Counted(base, s, k, i + 1)
    ensures i + k + 1 < |s| ==> 1 <= |ctx| && ctx[1..] + [s[i + k]] == Window(s, k, i + 1)
  {
    if i + k + 1 < |s| {
      WindowSlide(s, k, i, ctx);
    }
  }

  /** getOrDefault(context, new CharCounts()). */
  function Lookup(table: Table, ctx: string): (r: CharCounts)
    ensures ctx !in table ==> r == Empty
  {
    if ctx in table then table[ctx] else Empty
  }

  /** One observation: c followed ctx. */
  function Bump(table: Table, ctx: string, c: char): (r: Table)
    ensures r.Keys == table.Keys + {ctx}
  {
    table[ctx := Lookup(table, ctx).Increment(c)]
  }

  /** The table after counting the first n windows of s into base. */
  function Counted(base: Table, s: string, k: nat, n: nat): Table
    requires n + k <= |s|
  {
    if n == 0 then base
    else Bump(Counted(base, s, k, n - 1), Window(s, k, n - 1), s[n - 1 + k])
  }

  /** The table built from content with context width k: every window that has a successor. */
  function ContextTable(s: string, k: nat): Table
    requires k <= |s|
  {
    Counted(map[], s, k, |s| - k)
  }

  /** Number of positions i < n whose window is ctx and whose successor is c. */
  function Occurrences(s: string, k: nat, ctx: string, c: char, n: nat): nat
    requires n + k <= |s|
  {
    if n == 0 then 0
    else Occurrences(s, k, ctx, c, n - 1) + (if Window(s, k, n - 1) == ctx && s[n - 1 + k] == c then 1 else 0)
  }

  /** Number of positions i < n whose window is ctx. */
  function ContextOccurrences(s: string, k: nat, ctx: string, n: nat): nat
    requires n + k <= |s|
  {
    if n == 0 then 0
    else ContextOccurrences(s, k, ctx, n - 1) + (if Window(s, k, n - 1) == ctx then 1 else 0)
  }

  /** Every counter of the table keeps its total equal to the number of characters it counts. */
  ghost predicate ValidCounters(table: Table) {
    forall ctx :: ctx in table ==> table[ctx].Valid()
  }

  /** The sum of the totals over all keys. */
  ghost function SumTotals(table: Table): int
    decreases |table.Keys|
  {
    if table == map[] then 0
    else
      var ctx :| ctx in table;
      table[ctx].total + SumTotals(table - {ctx})
  }

  // ---------------------------------------------------------------------------------------
  // Properties of the table

  /** An observation changes only the counter of its own context. */
  lemma LookupBump(table: Table, w: string, c: char, ctx: string)
    ensures Lookup(Bump(table, w, c), ctx) == if ctx == w then Lookup(table, ctx).Increment(c) else Lookup(table, ctx)
  {
  }

  /** Counting a window raises exactly that window's count of its successor. */
  lemma {:induction false} CountedCounts(base: Table, s: string, k: nat, n: nat, ctx: string, c: char)
    requires n + k <= |s|
    ensures Lookup(Counted(base, s, k, n), ctx).Get(c) == Lookup(base, ctx).Get(c) + Occurrences(s, k, ctx, c, n)
  {
    if n > 0 {
      CountedCounts(base, s, k, n - 1, ctx, c);
      LookupBump(Counted(base, s, k, n - 1), Window(s, k, n - 1), s[n - 1 + k], ctx);
    }
  }

  /** Each context's total grows by the number of times the context occurs. */
  lemma {:induction false} CountedTotals(base: Table, s: string, k: nat, n: nat, ctx: string)
    requires n + k <= |s|
    ensures Lookup(Counted(base, s, k, n), ctx).total == Lookup(base, ctx).total + ContextOccurrences(s, k, ctx, n)
  {
    if n > 0 {
      CountedTotals(base, s, k, n - 1, ctx);
      LookupBump(Counted(base, s, k, n - 1), Window(s, k, n - 1), s[n - 1 + k], ctx);
    }
  }

  /** The keys are those of base plus exactly the windows counted. */
  lemma {:induction false} CountedKeys(base: Table, s: string, k: nat, n: nat)
    requires n + k <= |s|
    ensures Counted(base, s, k, n).Keys == base.Keys + set i | 0 <= i < n :: Window(s, k, i)
  {
    if n > 0 {
      CountedKeys(base, s, k, n - 1);
      var prev := set i | 0 <= i < n - 1 :: Window(s, k, i);
      assert (set i | 0 <= i < n :: Window(s, k, i)) == prev + {Window(s, k, n - 1)};
    }
  }

  /** Counting windows keeps every counter valid. */
  lemma {:induction false} CountedValid(base: Table, s: string, k: nat, n: nat)
    requires n + k <= |s|
    requires ValidCounters(base)
    ensures ValidCounters(Counted(base, s, k, n))
  {
    if n > 0 {
      CountedValid(base, s, k, n - 1);
      IncrementValid(Lookup(Counted(base, s, k, n - 1), Window(s, k, n - 1)), s[n - 1 + k]);
    }
  }

  /** The totals may be summed by taking out any one key first. */
  lemma {:induction false} SumTotalsRemove(table: Table, ctx: string)
    requires ctx in table
    ensures SumTotals(table) == table[ctx].total + SumTotals(table - {ctx})
    decreases |table.Keys|
  {
    var picked :| picked in table && SumTotals(table) == table[picked].total + SumTotals(table - {picked});
    if picked != ctx {
      SumTotalsRemove(table - {picked}, ctx);
      SumTotalsRemove(table - {ctx}, picked);
      assert table - {picked} - {ctx} == table - {ctx} - {picked};
    }
  }

  /** One observation adds one to the sum of the totals. */
  lemma BumpSum(table: Table, ctx: string, c: char)
    ensures SumTotals(Bump(table, ctx, c)) == SumTotals(table) + 1
  {
    var bumped := Bump(table, ctx, c);
    SumTotalsRemove(bumped, ctx);
    assert bumped - {ctx} == table - {ctx};
    if ctx in table {
      SumTotalsRemove(table, ctx);
    } else {
      assert table - {ctx} == table;
    }
  }

  /** Counting n windows adds n to the sum of the totals. */
  lemma {:induction false} CountedSum(base: Table, s: string, k: nat, n: nat)
    requires n + k <= |s|
    ensures SumTotals(Counted(base, s, k, n)) == SumTotals(base) + n
  {
    if n > 0 {
      CountedSum(base, s, k, n - 1);
      BumpSum(Counted(base, s, k, n - 1), Window(s, k, n - 1), s[n - 1 + k]);
    }
  }

  /** In the table built from content, count(ctx, c) is the number of windows ctx followed by c. */
  lemma ContextTableCounts(s: string, k: nat, ctx: string, c: char)
    requires k <= |s|
    ensures Lookup(ContextTable(s, k), ctx).Get(c) == Occurrences(s, k, ctx, c, |s| - k)
  {
    CountedCounts(map[], s, k, |s| - k, ctx, c);
  }

  /** In the table built from content, the total of ctx is the number of windows ctx. */
  lemma ContextTableTotals(s: string, k: nat, ctx: string)
    requires k <= |s|
    ensures Lookup(ContextTable(s, k), ctx).total == ContextOccurrences(s, k, ctx, |s| - k)
  {
    CountedTotals(map[], s, k, |s| - k, ctx);
  }

  /** The keys of the table built from content are exactly its windows that have a successor,
      so each has width k; every counter's total is the number of characters it counts. */
  lemma ContextTableShape(s: string, k: nat)
    requires k <= |s|
    ensures ContextTable(s, k).Keys == set i | 0 <= i < |s| - k :: Window(s, k, i)
    ensures forall ctx :: ctx in ContextTable(s, k) ==> |ctx| == k
    ensures ValidCounters(ContextTable(s, k))
  {
    CountedKeys(map[], s, k, |s| - k);
    CountedValid(map[], s, k, |s| - k);
  }

  /** A positive occurrence count is witnessed by a position of s. */
  lemma {:induction false} OccurrencesWitness(s: string, k: nat, ctx: string, c: char, n: nat)
    requires n + k <= |s|
    requires Occurrences(s, k, ctx, c, n) > 0
    ensures exists i :: 0 <= i < n && Window(s, k, i) == ctx && s[i + k] == c
  {
    if Occurrences(s, k, ctx, c, n - 1) > 0 {
      OccurrencesWitness(s, k, ctx, c, n - 1);
    } else {
      assert Window(s, k, n - 1) == ctx && s[n - 1 + k] == c;
    }
  }

  /** Every context the table built from content counts has width k, and every character it
      counts after a context is a character of the content. */
  lemma ContextTableSuccessors(s: string, k: nat, ctx: string, c: char)
    requires k <= |s|
    requires Lookup(ContextTable(s, k), ctx).Get(c) > 0
    ensures |ctx| == k && c in CharSet(s)
  {
    ContextTableCounts(s, k, ctx, c);
    OccurrencesWitness(s, k, ctx, c, |s| - k);
    var i :| 0 <= i < |s| - k && Window(s, k, i) == ctx && s[i + k] == c;
    assert s[i + k] in CharSet(s);
  }

  /** The totals over all keys sum to len - k, so the table is empty exactly when len == k. */
  lemma ContextTableSum(s: string, k: nat)
    requires k <= |s|
    ensures SumTotals(ContextTable(s, k)) == |s| - k
    ensures ContextTable(s, k) == map[] <==> |s| == k
  {
    CountedSum(map[], s, k, |s| - k);
    if |s| > k {
      CountedKeys(map[], s, k, |s| - k);
      assert Window(s, k, 0) in ContextTable(s, k);
    }
  }
}
