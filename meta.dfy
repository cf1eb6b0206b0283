/** The reference model: filtered content, its alphabet and its order-k frequency table, and
    the estimates and rankings computed from them. */
module MetaModel {
  import opened Outcomes
  import opened Nucleotides
  import opened Windows
  import opened Smoothing
  import opened Scores
  import opened Ranking

  /** The NRC a batch task computes: nrc(estimateTotalBits(s, alpha), s). */
  function SequenceScore(table: Table, size: nat, alpha: real, ln: real -> real, s: string, k: nat): Score
    requires ValidCounters(table) && alpha > 0.0 && size >= 1 && IsLog(ln)
    requires k <= |s|
  {
    Nrc(TotalBits(table, size, alpha, ln, s, k), s, ln)
  }

  /** The scores of the sequences of db named in done whose walk does not throw. */
  ghost function Scored(table: Table, size: nat, alpha: real, ln: real -> real, k: nat,
                        db: map<string, string>, done: set<string>): map<string, Score>
    requires ValidCounters(table) && alpha > 0.0 && size >= 1 && IsLog(ln)
  {
    map id | id in done && id in db && !WalkFails(|db[id]|, k) :: SequenceScore(table, size, alpha, ln, db[id], k)
  }

  /** Scoring one more sequence adds its entry, unless its walk throws. */
  lemma ScoredStep(table: Table, size: nat, alpha: real, ln: real -> real, k: nat,
                   db: map<string, string>, done: set<string>, id: string)
    requires ValidCounters(table) && alpha > 0.0 && size >= 1 && IsLog(ln)
    requires id in db
    ensures !WalkFails(|db[id]|, k) ==>
              Scored(table, size, alpha, ln, k, db, done + {id})
              == Scored(table, size, alpha, ln, k, db, done)[id := SequenceScore(table, size, alpha, ln, db[id], k)]
    ensures WalkFails(|db[id]|, k) ==>
              Scored(table, size, alpha, ln, k, db, done + {id}) == Scored(table, size, alpha, ln, k, db, done)
  {
  }

  /** The pool size of batchRunMultiThreaded, max(1, min(dbSize / 10, processors - 1)): the
      largest count that neither exceeds one worker per ten sequences nor takes every
      processor, and at least one. */
  function ThreadCount(dbSize: nat, processors: int): (r: int)
    ensures r >= 1
    ensures r == 1 || (r * 10 <= dbSize && r < processors)
    ensures forall t :: t * 10 <= dbSize && t < processors ==> t <= r
  {
    var perTen := dbSize / 10;
    var spare := processors - 1;
    var m := if perTen < spare then perTen else spare;
    if m < 1 then 1 else m
  }

  function Max0(x: int): nat {
    if x > 0 then x else 0
  }

  class Meta {
    const content: string
    const k: nat
    var alphabet: set<char>
    var frequencyTable: Table

    /** The content admits the window walk and holds only nucleotides; the alphabet draws on the
        content's characters; every counter's total is the number of characters it counts. */
    ghost predicate Valid()
      reads this
    {
      && !WalkFails(|content|, k)
      && AllNucleotides(content)
      && alphabet <= CharSet(content)
      && ValidCounters(frequencyTable)
    }

    /** new Meta(content, k): keep the nucleotides, then init(). */
    constructor (input: string, k: int)
      requires !WalkFails(|Filter(input)|, k)
      ensures Valid()
      ensures content == Filter(input) && this.k == k
      ensures alphabet == CharSet(content)
      ensures frequencyTable == ContextTable(content, k)
    {
      content := Filter(input);
      this.k := k;
      alphabet := {};
      frequencyTable := map[];
      new;
      assert ValidCounters(frequencyTable) by {
        assert forall ctx :: ctx !in frequencyTable;
      }
      assert Valid();
      Init();
    }

    /** init(): adds the content's characters to the alphabet and its windows to the table.
        Called again, it counts every window a second time. */
    method Init()
      requires Valid()
      modifies this
      ensures Valid()
      ensures alphabet == CharSet(content)
      ensures frequencyTable == Counted(old(frequencyTable), content, k, |content| - k)
    {
      GenerateAlphabetSet();
      GenerateFrequencyTable();
      CountedValid(old(frequencyTable), content, k, |content| - k);
    }

    /** generateAlphabetSet(): adds every character of the content to the alphabet. */
    method GenerateAlphabetSet()
      modifies this`alphabet
      ensures alphabet == old(alphabet) + CharSet(content)
    {
      var i := 0;
      while i < |content|
        invariant 0 <= i <= |content|
        invariant alphabet == old(alphabet) + CharSet(content[..i])
      {
        CharSetSnoc(content[..i], content[i]);
        assert content[..i + 1] == content[..i] + [content[i]];
        alphabet := alphabet + {content[i]};
        i := i + 1;
      }
      assert content[..i] == content;
    }

    /** generateFrequencyTable(k): slides a buffer of width k over the content and counts the
        character after each window. */
    method GenerateFrequencyTable()
      requires !WalkFails(|content|, k)
      modifies this`frequencyTable
      ensures frequencyTable == Counted(old(frequencyTable), content, k, |content| - k)
    {
      var contentLength := |content|;
      var context := content[..k];
      var i := 0;
      while i + k < |content|
        invariant 0 <= i <= |content| - k
        invariant i + k < |content| ==> context == Window(content, k, i)
        invariant frequencyTable == Counted(old(frequencyTable), content, k, i)
      {
        WalkStep(old(frequencyTable), content, k, i, frequencyTable, context);
        var nextChar := content[i + k];
        var charCounts := Lookup(frequencyTable, context);
        frequencyTable := frequencyTable[context := charCounts.Increment(nextChar)];
        if i + k + 1 < contentLength {
          context := context[1..] + [content[i + k]];
        }
        i := i + 1;
      }
    }

    /** estimateTotalBits(sequence, alpha): the walk of generateFrequencyTable over the
        sequence, summing the natural-log cost of each window and converting to bits at the end.
        The substring and deleteCharAt calls throw exactly when WalkFails. */
    method EstimateTotalBits(sequence: string, alpha: real, ln: real -> real) returns (r: Result<real>)
      requires Valid() && alpha > 0.0 && |alphabet| >= 1 && IsLog(ln)
      ensures r.Failure? <==> WalkFails(|sequence|, k)
      ensures r.Failure? ==> r.error == IndexOutOfBounds
      ensures r.Success? ==> r.value == TotalBits(frequencyTable, |alphabet|, alpha, ln, sequence, k)
    {
      if k > |sequence| {
        return Failure(IndexOutOfBounds);
      }
      var totalSum := 0.0;
      var context := sequence[..k];
      var sequenceLength := |sequence|;
      var i := 0;
      while i + k < sequenceLength
        invariant 0 <= i <= sequenceLength - k
        invariant i + k < sequenceLength ==> context == Window(sequence, k, i)
        invariant i > 0 && k == 0 ==> sequenceLength <= 1
        invariant totalSum == SumCosts(frequencyTable, |alphabet|, alpha, ln, sequence, k, i)
      {
        CostStep(frequencyTable, |alphabet|, alpha, ln, sequence, k, i, context);
        var nextChar := sequence[i + k];
        var charCounts := Lookup(frequencyTable, context);
        var symbolBits := SymbolBits(charCounts, nextChar, alpha, |alphabet|, ln);
        totalSum := totalSum + symbolBits;
        if i + k + 1 < sequenceLength {
          if context == [] {
            return Failure(IndexOutOfBounds);
          }
          context := context[1..] + [sequence[i + k]];
        }
        i := i + 1;
      }
      assert totalSum == SumCosts(frequencyTable, |alphabet|, alpha, ln, sequence, k, |sequence| - k);
      return Success(ToBits(totalSum, ln));
    }

    /** estimateBitsPerCharacter(sequence, alpha): the same walk, recording each window's bits,
        except that the last window's cost is never appended. */
    method EstimateBitsPerCharacter(sequence: string, alpha: real, ln: real -> real) returns (r: Result<seq<real>>)
      requires Valid() && alpha > 0.0 && |alphabet| >= 1 && IsLog(ln)
      ensures r.Failure? <==> WalkFails(|sequence|, k)
      ensures r.Failure? ==> r.error == IndexOutOfBounds
      ensures r.Success? ==> |r.value| == Max0(|sequence| - k - 1)
      ensures r.Success? ==> forall j :: 0 <= j < |r.value| ==>
                r.value[j] == WindowBits(frequencyTable, |alphabet|, alpha, ln, sequence, k, j)
    {
      if k > |sequence| {
        return Failure(IndexOutOfBounds);
      }
      var bitsList: seq<real> := [];
      var context := sequence[..k];
      var sequenceLength := |sequence|;
      var i := 0;
      while i + k < sequenceLength
        invariant 0 <= i <= sequenceLength - k
        invariant i + k < sequenceLength ==> context == Window(sequence, k, i)
        invariant i > 0 && k == 0 ==> sequenceLength <= 1
        invariant |bitsList| == if i + k < sequenceLength || i == 0 then i else i - 1
        invariant forall j :: 0 <= j < |bitsList| ==>
                    bitsList[j] == WindowBits(frequencyTable, |alphabet|, alpha, ln, sequence, k, j)
      {
        var nextChar := sequence[i + k];
        var charCounts := Lookup(frequencyTable, context);
        var symbolBits := SymbolBits(charCounts, nextChar, alpha, |alphabet|, ln);
        if i + k + 1 < sequenceLength {
          if context == [] {
            return Failure(IndexOutOfBounds);
          }
          WindowSlide(sequence, k, i, context);
          context := context[1..] + [sequence[i + k]];
          assert ToBits(symbolBits, ln) == WindowBits(frequencyTable, |alphabet|, alpha, ln, sequence, k, i);
          bitsList := bitsList + [ToBits(symbolBits, ln)];
        }
        i := i + 1;
      }
      return Success(bitsList);
    }

    /** getNRCProgression(sequence, alpha): nrc2 of each recorded bit count at the offsets k, k+1, ... */
    method GetNRCProgression(sequence: string, alpha: real, ln: real -> real) returns (r: Result<seq<Score>>)
      requires Valid() && alpha > 0.0 && |alphabet| >= 1 && IsLog(ln)
      ensures r.Failure? <==> WalkFails(|sequence|, k)
      ensures r.Success? ==> |r.value| == Max0(|sequence| - k - 1)
      ensures r.Success? ==> forall j :: 0 <= j < |r.value| ==>
                r.value[j] == Nrc2(WindowBits(frequencyTable, |alphabet|, alpha, ln, sequence, k, j), k + j, ln)
    {
      var bits := EstimateBitsPerCharacter(sequence, alpha, ln);
      if bits.Failure? {
        return Failure(bits.error);
      }
      var bitsList := bits.value;
      var progression: seq<Score> := [];
      var aux := k;
      var j := 0;
      while j < |bitsList|
        invariant 0 <= j <= |bitsList|
        invariant aux == k + j
        invariant |progression| == j
        invariant forall t :: 0 <= t < j ==> progression[t] == Nrc2(bitsList[t], k + t, ln)
      {
        if aux > |sequence| {
          // The offset stays below the sequence length, so this exit is never taken.
          assert false;
          break;
        }
        progression := progression + [Nrc2(bitsList[j], aux, ln)];
        aux := aux + 1;
        j := j + 1;
      }
      return Success(progression);
    }

    /** The scores a batch run reports: one per sequence whose walk does not throw. */
    ghost function Scoreboard(db: map<string, string>, alpha: real, ln: real -> real): map<string, Score>
      reads this
      requires Valid() && alpha > 0.0 && |alphabet| >= 1 && IsLog(ln)
    {
      Scored(frequencyTable, |alphabet|, alpha, ln, k, db, db.Keys)
    }

    /** batchRunMultiThreaded(db, alpha): every sequence is scored as its own task, results are
        taken in any completion order, and a task that throws leaves its key out. */
    method BatchRunMultiThreaded(db: map<string, string>, alpha: real, ln: real -> real) returns (results: map<string, Score>)
      requires Valid() && alpha > 0.0 && |alphabet| >= 1 && IsLog(ln)
      ensures results.Keys == set id | id in db && !WalkFails(|db[id]|, k)
      ensures results == Scoreboard(db, alpha, ln)
    {
      results := map[];
      var pending := db.Keys;
      while pending != {}
        invariant pending <= db.Keys
        invariant results == Scored(frequencyTable, |alphabet|, alpha, ln, k, db, db.Keys - pending)
        decreases pending
      {
        var id :| id in pending;
        ScoredStep(frequencyTable, |alphabet|, alpha, ln, k, db, db.Keys - pending, id);
        assert db.Keys - (pending - {id}) == (db.Keys - pending) + {id};
        var bits := EstimateTotalBits(db[id], alpha, ln);
        if bits.Success? {
          results := results[id := Nrc(bits.value, db[id], ln)];
        }
        pending := pending - {id};
      }
      assert db.Keys - pending == db.Keys;
    }

    /** batchRun(db, alpha): the same scores from a parallel stream, where one throwing task
        fails the whole run. */
    method BatchRun(db: map<string, string>, alpha: real, ln: real -> real) returns (r: Result<map<string, Score>>)
      requires Valid() && alpha > 0.0 && |alphabet| >= 1 && IsLog(ln)
      ensures r.Failure? <==> exists id :: id in db && WalkFails(|db[id]|, k)
      ensures r.Success? ==> r.value.Keys == db.Keys && r.value == Scoreboard(db, alpha, ln)
    {
      var results := map[];
      var pending := db.Keys;
      while pending != {}
        invariant pending <= db.Keys
        invariant forall id :: id in db.Keys - pending ==> !WalkFails(|db[id]|, k)
        invariant results == Scored(frequencyTable, |alphabet|, alpha, ln, k, db, db.Keys - pending)
        decreases pending
      {
        var id :| id in pending;
        var bits := EstimateTotalBits(db[id], alpha, ln);
        if bits.Failure? {
          return Failure(bits.error);
        }
        ScoredStep(frequencyTable, |alphabet|, alpha, ln, k, db, db.Keys - pending, id);
        assert db.Keys - (pending - {id}) == (db.Keys - pending) + {id};
        results := results[id := Nrc(bits.value, db[id], ln)];
        pending := pending - {id};
      }
      assert db.Keys - pending == db.Keys;
      return Success(results);
    }

    /** getBestSequences(db, alpha, n): the n best-scored sequences of a batch run; limit(n)
        throws for a negative n. */
    method GetBestSequences(db: map<string, string>, alpha: real, n: int, ln: real -> real) returns (r: Result<map<string, Score>>)
      requires Valid() && alpha > 0.0 && |alphabet| >= 1 && IsLog(ln)
      ensures r.Failure? <==> n < 0
      ensures r.Failure? ==> r.error == IllegalArgument
      ensures r.Success? ==> |r.value| == Min(n, |Scoreboard(db, alpha, ln)|)
      ensures r.Success? ==> forall id :: id in r.value ==>
                id in Scoreboard(db, alpha, ln) && r.value[id] == Scoreboard(db, alpha, ln)[id]
      ensures r.Success? ==> forall a, b :: a in r.value && b in Scoreboard(db, alpha, ln) && b !in r.value ==>
                Le(r.value[a], Scoreboard(db, alpha, ln)[b])
    {
      var results := BatchRunMultiThreaded(db, alpha, ln);
      if n < 0 {
        return Failure(IllegalArgument);
      }
      var best := SelectBest(results, n);
      return Success(best);
    }
  }
}
