/** NRC normalisation, its Double results and their order. */
module Scores {
  import opened Nucleotides
  import opened Smoothing

  /** A Java double as the core produces it: a finite value, an infinity or NaN. The sign of
      a zero is not kept. */
  datatype Score = NegInfinity | Finite(value: real) | PosInfinity | NaN

  /** IEEE division: a zero denominator gives an infinity of the numerator's sign, or NaN for 0 / 0. */
  function Divide(num: real, den: real): (r: Score)
    ensures den != 0.0 ==> r == Finite(num / den)
    ensures den == 0.0 ==> (r == PosInfinity <==> num > 0.0) && (r == NegInfinity <==> num < 0.0)
    ensures den == 0.0 && num == 0.0 ==> r == NaN
  {
    if den != 0.0 then Finite(num / den)
    else if num > 0.0 then PosInfinity
    else if num < 0.0 then NegInfinity
    else NaN
  }

  /** Position in Double.compareTo's order: -Infinity, the finite values, +Infinity, NaN. */
  function Rank(x: Score): nat {
    match x
    case NegInfinity => 0
    case Finite(_) => 1
    case PosInfinity => 2
    case NaN => 3
  }

  /** Map.Entry.comparingByValue() on Double values. */
  predicate Le(x: Score, y: Score) {
    Rank(x) < Rank(y) || (Rank(x) == Rank(y) && (x.Finite? ==> x.value <= y.value))
  }

  /** -Infinity comes strictly first, finite values follow by signed value, then +Infinity,
      and NaN comes strictly last. */
  lemma LeOrder(x: Score, y: Score)
    ensures x == NegInfinity ==> Le(x, y)
    ensures y != NegInfinity ==> !Le(y, NegInfinity)
    ensures x.Finite? && y == NegInfinity ==> !Le(x, y)
    ensures x.Finite? && y.Finite? ==> (Le(x, y) <==> x.value <= y.value)
    ensures x.Finite? ==> Le(x, PosInfinity) && !Le(PosInfinity, x)
    ensures y == NaN ==> Le(x, y)
    ensures y != NaN ==> !Le(NaN, y)
  {
  }

  /** The comparison is a total preorder, so a least element always exists. */
  lemma LeTotal(x: Score, y: Score)
    ensures Le(x, x)
    ensures Le(x, y) || Le(y, x)
  {
  }

  lemma LeTransitive(x: Score, y: Score, z: Score)
    requires Le(x, y) && Le(y, z)
    ensures Le(x, z)
  {
  }

  /** log2 as Math.log(x) / Math.log(2). */
  function Log2(x: real, ln: real -> real): (r: real)
    requires IsLog(ln)
    ensures x == 1.0 ==> r == 0.0
    ensures x >= 2.0 ==> r > 0.0
  {
    // ln is monotone, so ln(x) >= ln(2) > 0 from x = 2 on.
    assert x >= 2.0 ==> LogOrdered(ln, 2.0, x);
    ln(x) / ln(2.0)
  }

  // ---------------------------------------------------------------------------------------
  // The distinct-symbol count of nrc: deleting every match of (.)(?=.*?\1)

  /** The characters Java's `.` does not match. */
  predicate IsLineTerminator(c: char) {
    c == '\n' || c == '\r' || c == '\U{85}' || c == '\U{2028}' || c == '\U{2029}'
  }

  predicate LineFree(s: string) {
    forall i :: 0 <= i < |s| ==> !IsLineTerminator(s[i])
  }

  /** The part of t that `.*?` can cross: everything before the first line terminator. */
  function LineRest(t: string): (r: string)
    ensures |r| <= |t|
  {
    if t == [] || IsLineTerminator(t[0]) then [] else [t[0]] + LineRest(t[1..])
  }

  /** The string left by the regex: a character is deleted when the same character occurs again
      later on its line. */
  function KeepLast(s: string): (r: string)
    ensures |r| <= |s|
  {
    if s == [] then []
    else if !IsLineTerminator(s[0]) && s[0] in LineRest(s[1..]) then KeepLast(s[1..])
    else [s[0]] + KeepLast(s[1..])
  }

  predicate NoDuplicates(s: string) {
    forall i, j :: 0 <= i < j < |s| ==> s[i] != s[j]
  }

  lemma {:induction false} LineRestOfLineFree(t: string)
    requires LineFree(t)
    ensures LineRest(t) == t
  {
    if t != [] {
      LineRestOfLineFree(t[1..]);
    }
  }

  /** On a line-free string the regex keeps each character's last occurrence only: the same set
      of characters, without repetition. */
  lemma {:induction false} KeepLastOfLineFree(s: string)
    requires LineFree(s)
    ensures CharSet(KeepLast(s)) == CharSet(s)
    ensures NoDuplicates(KeepLast(s))
  {
    if s != [] {
      var t := s[1..];
      KeepLastOfLineFree(t);
      LineRestOfLineFree(t);
      assert s == [s[0]] + t;
      CharSetCons(s[0], t);
      if s[0] in t {
        assert s[0] in CharSet(t);
      } else {
        var r := KeepLast(t);
        assert s[0] !in CharSet(r);
        assert KeepLast(s) == [s[0]] + r;
        CharSetCons(s[0], r);
        forall j | 0 < j < |r| + 1 ensures KeepLast(s)[j] != s[0] {
          assert KeepLast(s)[j] == r[j - 1];
          assert r[j - 1] in CharSet(r);
        }
      }
    }
  }

  /** A string without repetitions has as many characters as distinct characters. */
  lemma {:induction false} NoDuplicatesCard(s: string)
    requires NoDuplicates(s)
    ensures |CharSet(s)| == |s|
  {
    if s != [] {
      var t := s[1..];
      NoDuplicatesCard(t);
      assert s == [s[0]] + t;
      CharSetCons(s[0], t);
      forall j | 0 <= j < |t| ensures t[j] != s[0] {
        assert t[j] == s[j + 1];
      }
    }
  }

  /** On a line-free sequence, `unique` in nrc is the number of distinct characters. */
  lemma DistinctCount(s: string)
    requires LineFree(s)
    ensures |KeepLast(s)| == |CharSet(s)|
  {
    KeepLastOfLineFree(s);
    NoDuplicatesCard(KeepLast(s));
  }

  // ---------------------------------------------------------------------------------------
  // nrc and nrc2

  /** nrc: bits / (|s| * log2(unique)). An empty sequence has unique == 0, log2(0) is -Infinity
      and 0 * -Infinity is NaN; unique == 1 makes the denominator zero. */
  function Nrc(bits: real, s: string, ln: real -> real): (r: Score)
    requires IsLog(ln)
    ensures s == [] ==> r == NaN
    ensures r.Finite? <==> |KeepLast(s)| >= 2
  {
    var unique := |KeepLast(s)|;
    if unique == 0 then NaN
    else Divide(bits, |s| as real * Log2(unique as real, ln))
  }

  /** nrc2: the fixed-alphabet variant, bits / (len * log2(4)). */
  function Nrc2(bits: real, len: int, ln: real -> real): (r: Score)
    requires IsLog(ln)
    ensures r.Finite? <==> len != 0
  {
    Divide(bits, len as real * Log2(4.0, ln))
  }

  lemma QuotientNonNegative(num: real, den: real)
    requires num >= 0.0 && den > 0.0
    ensures num / den >= 0.0
  {
  }

  /** With two or more distinct characters and a non-negative bit count, nrc is a finite,
      non-negative value. */
  lemma NrcFinite(bits: real, s: string, ln: real -> real)
    requires IsLog(ln) && LineFree(s) && bits >= 0.0
    requires |CharSet(s)| >= 2
    ensures Nrc(bits, s, ln).Finite? && Nrc(bits, s, ln).value >= 0.0
  {
    DistinctCount(s);
    var unique := |KeepLast(s)|;
    assert |s| >= |KeepLast(s)|;
    var den := |s| as real * Log2(unique as real, ln);
    assert den > 0.0;
    QuotientNonNegative(bits, den);
  }

  /** A sequence of one repeated character makes log2(unique) zero: nrc is +Infinity, or NaN
      when no bits were charged, never a finite score. */
  lemma NrcDegenerate(bits: real, s: string, ln: real -> real)
    requires IsLog(ln) && LineFree(s) && bits >= 0.0
    requires |CharSet(s)| == 1
    ensures Nrc(bits, s, ln) == if bits > 0.0 then PosInfinity else NaN
  {
    DistinctCount(s);
  }

  /** From offset 1 on, nrc2 of a non-negative bit count is finite and non-negative. */
  lemma Nrc2Finite(bits: real, len: int, ln: real -> real)
    requires IsLog(ln) && bits >= 0.0 && len >= 1
    ensures Nrc2(bits, len, ln).Finite? && Nrc2(bits, len, ln).value >= 0.0
  {
    var den := len as real * Log2(4.0, ln);
    assert den > 0.0;
    QuotientNonNegative(bits, den);
  }
}
