/** Order-preserving sequence helpers used by the symmetry reduction. */
module Seqs {

  predicate NoDuplicates<T(==)>(s: seq<T>) {
    forall i, j :: 0 <= i < j < |s| ==> s[i] != s[j]
  }

  /** Keeps the first occurrence of every element, in order: the list that
      grows by "append v unless v is already in it". */
  function Dedup<T(==,!new)>(s: seq<T>): seq<T> {
    if s == [] then []
    else
      var d := Dedup(s[..|s| - 1]);
      if s[|s| - 1] in d then d else d + [s[|s| - 1]]
  }

  /** Dedup leaves no repeats, drops no element, never grows the list and
      keeps its first element first. */
  lemma {:induction false} DedupFacts<T(!new)>(s: seq<T>)
    ensures NoDuplicates(Dedup(s))
    ensures forall x :: x in Dedup(s) <==> x in s
    ensures |Dedup(s)| <= |s|
    ensures |s| > 0 ==> |Dedup(s)| > 0 && Dedup(s)[0] == s[0]
  {
    if s != [] {
      var init := s[..|s| - 1];
      DedupFacts(init);
      assert forall x :: x in s <==> x in init || x == s[|s| - 1];
      if |init| > 0 {
        assert init[0] == s[0];
      }
    }
  }

  /** The elements of s whose mark in m is true, in their original order. */
  function Select<T>(s: seq<T>, m: seq<bool>): (r: seq<T>)
    requires |m| == |s|
    ensures |r| <= |s|
    ensures forall x :: x in r ==> x in s
  {
    if s == [] then []
    else
      var r := Select(s[..|s| - 1], m[..|m| - 1]) + (if m[|m| - 1] then [s[|s| - 1]] else []);
      assert forall x :: x in s[..|s| - 1] ==> x in s;
      r
  }

  /** a is an order-preserving subsequence of b: some marking of b selects exactly a. */
  ghost predicate IsSubsequence<T(!new)>(a: seq<T>, b: seq<T>) {
    exists m :: |m| == |b| && a == Select(b, m)
  }
}
