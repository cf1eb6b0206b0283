/** Content filtering and alphabet extraction. */
module Nucleotides {

  /** The characters the content keeps; every other character is removed. */
  predicate IsNucleotide(c: char) {
    c == 'A' || c == 'C' || c == 'G' || c == 'T'
  }

  predicate AllNucleotides(s: string) {
    forall i :: 0 <= i < |s| ==> IsNucleotide(s[i])
  }

  /** The effect of deleting every match of the character class [^ATCG]. */
  function Filter(s: string): (r: string)
    ensures |r| <= |s|
    ensures AllNucleotides(r)
  {
    if s == [] then []
    else if IsNucleotide(s[0]) then [s[0]] + Filter(s[1..])
    else Filter(s[1..])
  }

  /** The set of characters occurring in a string. */
  function CharSet(s: string): set<char> {
    set i | 0 <= i < |s| :: s[i]
  }

  lemma CharSetCons(c: char, t: string)
    ensures CharSet([c] + t) == {c} + CharSet(t)
  {
    var s := [c] + t;
    forall x | x in CharSet(t) ensures x in CharSet(s) {
      var i :| 0 <= i < |t| && t[i] == x;
      assert s[i + 1] == x;
    }
    assert s[0] == c;
  }

  lemma CharSetSnoc(t: string, c: char)
    ensures CharSet(t + [c]) == CharSet(t) + {c}
  {
    var s := t + [c];
    forall x | x in CharSet(t) ensures x in CharSet(s) {
      var i :| 0 <= i < |t| && t[i] == x;
      assert s[i] == x;
    }
    assert s[|t|] == c;
  }

  /** A string already made of nucleotides is left unchanged by the filter. */
  lemma {:induction false} FilterFixes(s: string)
    requires AllNucleotides(s)
    ensures Filter(s) == s
  {
    if s != [] {
      FilterFixes(s[1..]);
    }
  }

  /** Filtering twice changes nothing. */
  lemma FilterIdempotent(s: string)
    ensures Filter(Filter(s)) == Filter(s)
  {
    FilterFixes(Filter(s));
  }

  /** The filter works character by character, so it distributes over concatenation. */
  lemma {:induction false} FilterAppend(a: string, b: string)
    ensures Filter(a + b) == Filter(a) + Filter(b)
  {
    if a != [] {
      assert (a + b)[1..] == a[1..] + b;
      FilterAppend(a[1..], b);
    } else {
      assert a + b == b;
    }
  }

  /** Every nucleotide occurs in the result as often as in the input; nothing else occurs. */
  lemma {:induction false} FilterCounts(s: string, c: char)
    ensures multiset(Filter(s))[c] == if IsNucleotide(c) then multiset(s)[c] else 0
  {
    if s != [] {
      FilterCounts(s[1..], c);
      assert s == [s[0]] + s[1..];
      assert multiset(s) == multiset{s[0]} + multiset(s[1..]);
    }
  }

  /** A set of at most the four nucleotides has at most four members. */
  lemma {:induction false} SubsetCard(a: set<char>, b: set<char>)
    requires a <= b
    ensures |a| <= |b|
    decreases a
  {
    if a != {} {
      var x :| x in a;
      SubsetCard(a - {x}, b - {x});
    }
  }

  /** The alphabet of filtered content is a subset of {A, C, G, T}, has at most four
      members and is empty exactly when the content is. */
  lemma AlphabetBounds(content: string)
    requires AllNucleotides(content)
    ensures CharSet(content) <= {'A', 'C', 'G', 'T'}
    ensures |CharSet(content)| <= 4
    ensures CharSet(content) == {} <==> content == []
  {
    SubsetCard(CharSet(content), {'A', 'C', 'G', 'T'});
    if content != [] {
      assert content[0] in CharSet(content);
    }
  }
}
