# Order-k context model for nucleotide sequences (Dafny model)

This project models the core of `Meta`, the class of TAI_P2 that ranks DNA sequences by how
well a reference text predicts them. The model covers these steps:

- The reference content is cleaned to its `A`/`C`/`G`/`T` characters. Its alphabet is collected.
- A window of width `k` slides over the content. A frequency table records, for every context
  of `k` characters, how often each character follows it.
- A candidate sequence is walked the same way. Each window is charged the natural log of the
  Lidstone-smoothed probability `(count + alpha) / (total + alpha * |alphabet|)` of its
  successor. The sum is converted to bits.
- `nrc` normalises the bits by `|s| * log2(unique)`. For a sequence without line terminators,
  `unique` is the number of distinct characters in the sequence. `nrc2` uses `log2(4)` instead.
- `batchRun` and `batchRunMultiThreaded` score a database of sequences with `nrc`.
  `getBestSequences` runs a batch and keeps the `n` lowest scores.

The class `MetaModel.Meta` keeps the fields that the Java code updates in place:

- `alphabet` is a `set<char>`.
- `frequencyTable` is a `map<string, CharCounts>`.
- `content` and `k` are constants.

The loops of `generateAlphabetSet`, `generateFrequencyTable`, `estimateTotalBits`,
`estimateBitsPerCharacter`, `getNRCProgression` and the batch runs are methods with loop
invariants. Each is proved against a pure function:

- `CharSet` is the set of characters of the content.
- `Window(s, k, i)` is `s[i..i+k]`.
- `Counted` builds the table window by window.
- `SumCosts` and `WindowBits` are the costs of the walk.
- `Scored` is the map of scores a batch produces.

Properties of those functions are proved as lemmas in their own modules.

Java exceptions are values of `Outcomes.Result`:

- The walk throws `StringIndexOutOfBoundsException` when `substring(0, k)` is out of range, or
  when `deleteCharAt(0)` runs on an empty buffer (`k == 0` and at least two windows). Both are
  captured by `Windows.WalkFails`.
- `Stream.limit` with a negative `n` throws `IllegalArgumentException`.

Double results are `Scores.Score`: a finite real, an infinity or NaN. They are ordered as
`Double.compareTo` orders them. `Math.log` is a parameter `ln`, of which the model assumes only
`ln(1) = 0`, `ln(2) > 0` and monotonicity on the positive reals (`Smoothing.IsLog`).

Two edge cases behave as follows:

- A content or sequence whose length equals `k` is accepted. It gives an empty table, or a
  total of zero bits. Only `k > len`, a negative `k`, and `k == 0` with two or more
  characters throw.
- A sequence with one distinct character is not reported as a typed error. `nrc` divides by
  zero and yields +Infinity, or NaN when no bits were charged (`Scores.NrcDegenerate`).

`estimateBitsPerCharacter` never appends the cost of the last window, so it returns
`max(0, len - k - 1)` entries. The model keeps that.

## Model

| member | source | states |
|---|---|---|
| Nucleotides.Filter | java/src/main/java/pt/ua/tai/meta/Meta.java:17 | deleting every `[^ATCG]` match leaves only nucleotides and never lengthens the string |
| Nucleotides.FilterFixes | java/src/main/java/pt/ua/tai/meta/Meta.java:17 | a string of nucleotides is left unchanged |
| Nucleotides.FilterIdempotent | java/src/main/java/pt/ua/tai/meta/Meta.java:17 | filtering twice gives the same content as filtering once |
| Nucleotides.FilterAppend | java/src/main/java/pt/ua/tai/meta/Meta.java:17 | the filter works per character, in order: it distributes over concatenation |
| Nucleotides.FilterCounts | java/src/main/java/pt/ua/tai/meta/Meta.java:17 | each nucleotide keeps its number of occurrences and every other character has none |
| Nucleotides.AlphabetBounds | java/src/main/java/pt/ua/tai/meta/Meta.java:140-144 | the alphabet of filtered content is a subset of {A,C,G,T}, has at most 4 members and is empty exactly when the content is |
| Counts.CharCounts.Increment | java/src/main/java/pt/ua/tai/meta/Meta.java:130 | `increment(c)` raises the count of c by one, leaves every other count alone and raises the total by one |
| Counts.IncrementValid | java/src/main/java/pt/ua/tai/meta/Meta.java:130 | incrementing keeps the total equal to the sum of the counts |
| Counts.GetAtMostTotal | java/src/main/java/pt/ua/tai/meta/Meta.java:112-114 | `get(c)` never exceeds `getTotalCount()` |
| Windows.WalkFails | java/src/main/java/pt/ua/tai/meta/Meta.java:95-105 | the walk throws unless 0 <= k <= len; every width from 1 to len is accepted; the methods' ensures tie each thrown `StringIndexOutOfBoundsException` to it |
| Windows.Lookup | java/src/main/java/pt/ua/tai/meta/Meta.java:101 | `getOrDefault(context, new CharCounts())` gives a fresh empty counter for an unseen context; `UnseenIsUniform` and `LookupBump` state what the lookup then yields |
| Windows.Window | java/src/main/java/pt/ua/tai/meta/Meta.java:125-127 | the context at step i is `content[i..i+k)` and has length k |
| Windows.WindowSlide | java/src/main/java/pt/ua/tai/meta/Meta.java:131-133 | `deleteCharAt(0).append(charAt(i+k))` turns the window at i into the window at i+1 |
| Windows.Bump | java/src/main/java/pt/ua/tai/meta/Meta.java:129-130 | `computeIfAbsent(...).increment(c)` adds the context to the keys and nothing else |
| Windows.WalkStep | java/src/main/java/pt/ua/tai/meta/Meta.java:126-134 | one pass of the loop body: the table of the first i windows becomes that of the first i+1, and when a next window exists the buffer (non-empty, since a walk that does not fail with k = 0 has at most one character) slides onto it |
| Windows.CountedCounts | java/src/main/java/pt/ua/tai/meta/Meta.java:126-134 | after n windows, count(ctx, c) is the base count plus the number of positions i < n whose window is ctx and whose successor is c |
| Windows.CountedTotals | java/src/main/java/pt/ua/tai/meta/Meta.java:126-134 | after n windows, the total of ctx is the base total plus the number of positions i < n whose window is ctx |
| Windows.CountedKeys | java/src/main/java/pt/ua/tai/meta/Meta.java:126-134 | the keys after n windows are the base keys plus exactly the first n windows |
| Windows.CountedValid | java/src/main/java/pt/ua/tai/meta/Meta.java:129-130 | counting windows keeps every counter's total equal to the sum of its counts |
| Windows.CountedSum | java/src/main/java/pt/ua/tai/meta/Meta.java:126-134 | counting n windows adds exactly n to the sum of all totals |
| Windows.ContextTableCounts | java/src/main/java/pt/ua/tai/meta/Meta.java:123-135 | in the built table, count(ctx, c) is the number of positions i < len-k with `content[i..i+k) == ctx` and `content[i+k] == c` |
| Windows.ContextTableTotals | java/src/main/java/pt/ua/tai/meta/Meta.java:123-135 | in the built table, the total of ctx is the number of windows equal to ctx |
| Windows.ContextTableShape | java/src/main/java/pt/ua/tai/meta/Meta.java:123-135 | the keys are exactly the windows that have a successor, each of length k, and every counter is consistent |
| Windows.ContextTableSuccessors | java/src/main/java/pt/ua/tai/meta/Meta.java:123-135 | every counted context has length k and every counted successor is a character of the content |
| Windows.ContextTableSum | java/src/main/java/pt/ua/tai/meta/Meta.java:123-135 | the totals over all keys sum to len-k, so the table is empty exactly when len == k |
| Windows.OccurrencesWitness | java/src/main/java/pt/ua/tai/meta/Meta.java:126-130 | a positive count is witnessed by a position of the content where the context is followed by the character |
| Smoothing.Probability | java/src/main/java/pt/ua/tai/meta/Meta.java:111-114 | the smoothed probability `(get(c) + alpha) / (total + alpha * alphabet size)` lies in (0, 1] |
| Smoothing.UnseenIsUniform | java/src/main/java/pt/ua/tai/meta/Meta.java:101-114 | a context missing from the table (`getOrDefault` gives empty counts) gets probability 1 / alphabet size |
| Smoothing.ProbabilitiesSumToOne | java/src/main/java/pt/ua/tai/meta/Meta.java:111-114 | over an alphabet holding every counted character, the probabilities of one context sum to exactly 1 |
| Smoothing.SumProbabilityClosed | java/src/main/java/pt/ua/tai/meta/Meta.java:111-114 | the probabilities summed over a set of characters equal (their counts + alpha * their number) / (total + alpha * alphabet size) |
| Smoothing.SymbolBits | java/src/main/java/pt/ua/tai/meta/Meta.java:111-116 | `getSymbolBits` is the log of the smoothed probability and is never positive |
| Smoothing.CostStep | java/src/main/java/pt/ua/tai/meta/Meta.java:99-105 | one pass of the estimating loop: the running sum grows by the cost of the buffered context and its successor, and a non-empty buffer slides onto the next window |
| Smoothing.SumCostsNonPositive | java/src/main/java/pt/ua/tai/meta/Meta.java:98-107 | the running `totalSum` is never positive |
| Smoothing.ToBits | java/src/main/java/pt/ua/tai/meta/Meta.java:108 | `-totalSum / Math.log(2)` of a non-positive sum is non-negative |
| Smoothing.TotalBits | java/src/main/java/pt/ua/tai/meta/Meta.java:91-109 | `estimateTotalBits` charges all len-k windows, sums their log-probabilities and converts once to bits; the result is never negative |
| Smoothing.WindowBits | java/src/main/java/pt/ua/tai/meta/Meta.java:180-184 | for alpha > 0 (and a non-empty alphabet) the bits recorded for one window are never negative, so for alpha > 0 the "negative bits" report at line 80 of `nrc2` never fires |
| Scores.Divide | java/src/main/java/pt/ua/tai/meta/Meta.java:76 | double division: the exact quotient for a non-zero denominator; otherwise an infinity of the numerator's sign, or NaN for 0/0 |
| Scores.LeOrder | java/src/main/java/pt/ua/tai/meta/Meta.java:29 | `comparingByValue()` on doubles: -Infinity strictly first, finite values by signed value, then +Infinity strictly after every finite value, NaN strictly last |
| Scores.LeTotal | java/src/main/java/pt/ua/tai/meta/Meta.java:29 | `comparingByValue()` on doubles is reflexive and total |
| Scores.LeTransitive | java/src/main/java/pt/ua/tai/meta/Meta.java:29 | `comparingByValue()` on doubles is transitive |
| Scores.KeepLast | java/src/main/java/pt/ua/tai/meta/Meta.java:74 | deleting every match of `(.)(?=.*?\1)` never lengthens the sequence; `KeepLastOfLineFree` and `DistinctCount` give its meaning |
| Scores.KeepLastOfLineFree | java/src/main/java/pt/ua/tai/meta/Meta.java:74 | on a line-free sequence the regex keeps the same characters, each once |
| Scores.NoDuplicatesCard | java/src/main/java/pt/ua/tai/meta/Meta.java:74-75 | a string without repeated characters is as long as its set of characters |
| Scores.DistinctCount | java/src/main/java/pt/ua/tai/meta/Meta.java:72-77 | on a line-free sequence, `unique` is the number of distinct characters |
| Scores.Log2 | java/src/main/java/pt/ua/tai/meta/Meta.java:87-89 | `log2(1)` is zero and `log2(x)` is positive from x = 2 on |
| Scores.Nrc | java/src/main/java/pt/ua/tai/meta/Meta.java:72-77 | `nrc` is NaN for the empty sequence and a finite value exactly when the regex leaves two or more characters |
| Scores.Nrc2 | java/src/main/java/pt/ua/tai/meta/Meta.java:79-85 | `nrc2` is a finite value exactly when the length is non-zero |
| Scores.NrcFinite | java/src/main/java/pt/ua/tai/meta/Meta.java:72-77 | with two or more distinct characters and non-negative bits, `nrc` is finite and non-negative |
| Scores.NrcDegenerate | java/src/main/java/pt/ua/tai/meta/Meta.java:72-77 | with one distinct character, `nrc` is +Infinity, or NaN when the bits are zero |
| Scores.Nrc2Finite | java/src/main/java/pt/ua/tai/meta/Meta.java:79-85 | `nrc2` of non-negative bits at a length of at least 1 is finite and non-negative |
| MetaModel.ThreadCount | java/src/main/java/pt/ua/tai/meta/Meta.java:34 | the pool size is at least 1; above 1 it gives each worker at least ten sequences and leaves a processor free; it is the largest such size |
| Ranking.LeastExists | java/src/main/java/pt/ua/tai/meta/Meta.java:28-29 | every non-empty set of scored keys has a key whose score is at most every other's |
| Ranking.SelectBest | java/src/main/java/pt/ua/tai/meta/Meta.java:28-30 | `sorted().limit(n)` keeps min(n, number of results) entries, each unchanged from the results, and every kept score is at most every omitted one |
| MetaModel.ScoredStep | java/src/main/java/pt/ua/tai/meta/Meta.java:46-50 | taking one more finished task adds its key and score, unless its walk threw |
| MetaModel.Meta.constructor | java/src/main/java/pt/ua/tai/meta/Meta.java:16-20 | the content is the filtered input, the alphabet is its set of characters and the table is exactly the context table of the content |
| MetaModel.Meta.Init | java/src/main/java/pt/ua/tai/meta/Meta.java:22-25 | the alphabet becomes the content's characters and every window of the content is counted once more into the table; the object invariant is kept |
| MetaModel.Meta.GenerateAlphabetSet | java/src/main/java/pt/ua/tai/meta/Meta.java:140-144 | adds exactly the content's characters to the alphabet |
| MetaModel.Meta.GenerateFrequencyTable | java/src/main/java/pt/ua/tai/meta/Meta.java:123-135 | the rolling buffer is always the window at i, and the table ends as the old table with all len-k windows counted |
| MetaModel.Meta.EstimateTotalBits | java/src/main/java/pt/ua/tai/meta/Meta.java:91-109 | throws exactly when the walk fails; otherwise returns the sum of the len-k window costs in bits |
| MetaModel.Meta.EstimateBitsPerCharacter | java/src/main/java/pt/ua/tai/meta/Meta.java:168-188 | throws exactly when the walk fails; otherwise returns max(0, len-k-1) entries, entry j being the bits of the window at j |
| MetaModel.Meta.GetNRCProgression | java/src/main/java/pt/ua/tai/meta/Meta.java:147-164 | throws exactly when the walk fails; otherwise as many entries as the per-window bits, entry j being `nrc2` at offset k+j; the break is never taken |
| MetaModel.Meta.BatchRunMultiThreaded | java/src/main/java/pt/ua/tai/meta/Meta.java:33-62 | scores every sequence whose walk does not throw, with `nrc(estimateTotalBits(s))`, and leaves the others out |
| MetaModel.Meta.BatchRun | java/src/main/java/pt/ua/tai/meta/Meta.java:64-70 | fails exactly when some sequence's walk throws; otherwise every key gets its score |
| MetaModel.Meta.GetBestSequences | java/src/main/java/pt/ua/tai/meta/Meta.java:27-31 | fails exactly for a negative n; otherwise min(n, number of results) entries of the batch results, each unchanged, none scoring above an omitted one |

## Left out

- `Main.java` is not part of this model. That covers option parsing, reading the database files, printing and exit codes.
- `CharCounts.java` is not part of this model. `Counts.CharCounts` is inferred from its uses: `get`, `increment` and `getTotalCount`. It is a value held in the table, so the in-place `increment` is a map update; no counter is shared between contexts.
- Floating point is not modelled: `float` and `double` rounding, the `(float)` casts, and `alpha` as a `float`. Probabilities are exact reals. `Math.log` is the parameter `ln`, constrained only by `Smoothing.IsLog`.
- Concurrency is not modelled. The executor, the completion service, completion order and interrupt handling of `batchRunMultiThreaded` become a sequential loop that takes tasks in any order. The parallel stream of `batchRun` becomes the same kind of loop.
- Interrupts are not modelled. In `batchRunMultiThreaded` the catch re-sets the interrupt flag, so every later `take()` throws at once. An interrupt therefore drops every result not yet taken.
- MetaModel.ThreadCount: the number of available processors is a parameter. The pool size changes nothing the model observes.
- MetaModel.Meta.constructor: requires that the walk over the filtered content does not fail. The Java constructor throws `StringIndexOutOfBoundsException` there and no object exists.
- MetaModel.Meta.EstimateTotalBits: requires `alpha > 0` and a non-empty alphabet, although Java checks `alpha` nowhere. Outside that range the Java estimate leaves the non-negative bits this model proves:
  - A negative `alpha` can push a probability above 1. For example, with an alphabet of 4, a context seen 3 times and followed by `c` twice, `alpha = -0.5` gives (2 - 0.5) / (3 - 2) = 1.5. Its log is positive, so the bits are negative, the "negative bits" report in `nrc2` fires, and NRC scores come out negative.
  - A negative `alpha` can also make a probability negative, and its log is NaN.
  - A zero denominator, for `alpha = 0` on an unseen context or for a matching negative `alpha`, gives NaN or an infinity. So does a zero probability, for `alpha = 0` and an unseen successor.
  - An empty alphabet arises only from content with no nucleotide at all, and then only with `k = 0`. There the walk accepts only a sequence of at most one character. For a one-character sequence with a positive `alpha`, Java computes `alpha / 0.0`, which is +Infinity. Its log is +Infinity, so the bits are -Infinity and `nrc` gives -Infinity.
- MetaModel.Meta.EstimateBitsPerCharacter: requires `alpha > 0` and a non-empty alphabet. Outside that range the per-window bits can be negative, NaN or infinite, as under `EstimateTotalBits`.
- MetaModel.Meta.GetNRCProgression: requires `alpha > 0` and a non-empty alphabet. A negative `alpha` is exactly the case where the report at line 80 of `nrc2` fires and a progression entry is negative.
- MetaModel.Meta.BatchRunMultiThreaded: requires `alpha > 0` and a non-empty alphabet. Outside that range the Java scores can be negative, NaN or infinite, as under `EstimateTotalBits`.
- MetaModel.Meta.BatchRun: requires `alpha > 0` and a non-empty alphabet. Outside that range the Java scores can be negative, NaN or infinite, as under `EstimateTotalBits`.
- MetaModel.Meta.GetBestSequences: requires `alpha > 0` and a non-empty alphabet. Outside that range the Java ranking can include negative, NaN or infinite scores, as under `EstimateTotalBits`. The returned map's iteration order and the tie order among equal scores are not modelled.
- `Scores.Score` does not distinguish +0.0 from -0.0.
- Strings are sequences of Unicode scalar values, while Java's `length`, `charAt` and `substring` count UTF-16 code units. For a sequence holding a character outside the Basic Multilingual Plane, Java's window count, `sequenceLen` and `unique` differ from the model's. The reference content is unaffected, because filtering keeps only `A`, `C`, `G` and `T`.
- The Java regex engine is modelled only through its effect. `Nucleotides.Filter` stands for `[^ATCG]` deletion; `Scores.KeepLast` stands for `(.)(?=.*?\1)` deletion, line terminators included.
- The insertion order of the `LinkedHashSet` alphabet is not kept; only its members are.
- Logging, the `System.err` report in `nrc2` and the `System.out` message in `getNRCProgression` are left out.
