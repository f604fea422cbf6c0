/**
 * Boards of the N-Queens solver: a board is a sequence whose index is a row
 * and whose value is the column of the queen placed in that row.
 */
module Boards {

  type Board = seq<int>

  /** Two queens at (r1, c1) and (r2, c2) attack each other as the safety test
      of the solver sees it: same column, same main diagonal (column minus row)
      or same anti-diagonal (column plus row). */
  predicate Attacks(r1: int, c1: int, r2: int, c2: int) {
    c1 == c2 || c1 - r1 == c2 - r2 || c1 + r1 == c2 + r2
  }

  /** Every column value lies on the board. */
  predicate InRange(n: int, b: Board) {
    forall i :: 0 <= i < |b| ==> 0 <= b[i] < n
  }

  /** No two placed queens attack each other. */
  predicate NonAttacking(b: Board) {
    forall i, j :: 0 <= i < j < |b| ==> !Attacks(i, b[i], j, b[j])
  }

  /** A partial placement of the first |b| rows that the search may extend. */
  predicate SafePrefix(n: nat, b: Board) {
    |b| <= n && InRange(n, b) && NonAttacking(b)
  }

  /** A complete placement of n non-attacking queens. */
  predicate IsSolution(n: nat, b: Board) {
    |b| == n && SafePrefix(n, b)
  }

  predicate Distinct(b: Board) {
    forall i, j :: 0 <= i < j < |b| ==> b[i] != b[j]
  }

  /** One queen per row and per column. */
  predicate IsPermutation(n: nat, b: Board) {
    |b| == n && InRange(n, b) && Distinct(b)
  }

  lemma SolutionIsPermutation(n: nat, b: Board)
    requires IsSolution(n, b)
    ensures IsPermutation(n, b)
  {
    forall i, j | 0 <= i < j < |b| ensures b[i] != b[j] {
      assert !Attacks(i, b[i], j, b[j]);
    }
  }

  /** The last row whose queen stands in column c, or -1 when column c is empty. */
  function LastRow(b: Board, c: int): (r: int)
    ensures -1 <= r < |b|
    ensures 0 <= r ==> b[r] == c && forall j :: r < j < |b| ==> b[j] != c
    ensures r < 0 ==> forall j :: 0 <= j < |b| ==> b[j] != c
  {
    if b == [] then -1
    else if b[|b| - 1] == c then |b| - 1
    else LastRow(b[..|b| - 1], c)
  }

  lemma LastRowOfDistinct(b: Board, i: int)
    requires Distinct(b) && 0 <= i < |b|
    ensures LastRow(b, b[i]) == i
  {
  }

  ghost function Columns(n: nat): set<int> {
    if n == 0 then {} else Columns(n - 1) + {n - 1}
  }

  lemma {:induction false} InColumns(n: nat, c: int)
    requires 0 <= c < n
    ensures c in Columns(n)
  {
    if c < n - 1 {
      InColumns(n - 1, c);
    }
  }

  ghost function Image(b: Board, k: nat): set<int>
    requires k <= |b|
  {
    set i | 0 <= i < k :: b[i]
  }

  lemma {:induction false} ColumnsBound(n: nat)
    ensures forall c :: c in Columns(n) ==> 0 <= c < n
  {
    if n > 0 {
      ColumnsBound(n - 1);
    }
  }

  lemma {:induction false} ColumnsCard(n: nat)
    ensures |Columns(n)| == n
  {
    if n > 0 {
      ColumnsCard(n - 1);
      ColumnsBound(n - 1);
    }
  }

  lemma {:induction false} ImageCard(b: Board, k: nat)
    requires Distinct(b) && k <= |b|
    ensures |Image(b, k)| == k
  {
    if k > 0 {
      ImageCard(b, k - 1);
      assert Image(b, k) == Image(b, k - 1) + {b[k - 1]};
      assert b[k - 1] !in Image(b, k - 1) by {
        assert forall i :: 0 <= i < k - 1 ==> b[i] != b[k - 1];
      }
    }
  }

  lemma SubsetCard(a: set<int>, b: set<int>)
    requires a <= b
    ensures |a| <= |b|
  {
    assert b == a + (b - a);
    assert a !! (b - a);
  }

  /** Pigeonhole: a permutation uses every column, so LastRow finds a row for it. */
  lemma PermutationCovers(n: nat, b: Board, c: int)
    requires IsPermutation(n, b) && 0 <= c < n
    ensures 0 <= LastRow(b, c) < n && b[LastRow(b, c)] == c
  {
    if LastRow(b, c) < 0 {
      ImageCard(b, n);
      ColumnsCard(n);
      InColumns(n, c);
      forall x | x in Image(b, n) ensures x in Columns(n) - {c} {
        var i :| 0 <= i < n && b[i] == x;
        InColumns(n, x);
      }
      SubsetCard(Image(b, n), Columns(n) - {c});
      assert false;
    }
  }

  /** a comes strictly before b in lexicographic order. */
  predicate LexLess(a: Board, b: Board) {
    exists k :: 0 <= k < |a| && k < |b| && a[..k] == b[..k] && a[k] < b[k]
  }

  predicate StrictlyIncreasing(s: seq<Board>) {
    forall i, j :: 0 <= i < j < |s| ==> LexLess(s[i], s[j])
  }

  lemma LexLessIrreflexive(a: Board)
    ensures !LexLess(a, a)
  {
  }

  lemma StrictlyIncreasingDistinct(s: seq<Board>)
    requires StrictlyIncreasing(s)
    ensures forall i, j :: 0 <= i < j < |s| ==> s[i] != s[j]
  {
    forall i, j | 0 <= i < j < |s| ensures s[i] != s[j] {
      LexLessIrreflexive(s[i]);
    }
  }

  lemma LexLessAsymmetric(a: Board, b: Board)
    ensures !(LexLess(a, b) && LexLess(b, a))
  {
  }

  /** A strictly increasing list is determined by the boards it contains. */
  lemma {:induction false} IncreasingDetermined(s: seq<Board>, t: seq<Board>)
    requires StrictlyIncreasing(s) && StrictlyIncreasing(t)
    requires forall x :: x in s <==> x in t
    ensures s == t
    decreases |s|
  {
    assert s == [] <==> t == [] by {
      if s != [] {
        assert s[0] in s;
      }
      if t != [] {
        assert t[0] in t;
      }
    }
    if s != [] {
      assert s[0] in t && t[0] in t;
      StrictlyIncreasingDistinct(s);
      StrictlyIncreasingDistinct(t);
      assert s[0] == t[0] by {
        if s[0] != t[0] {
          var i :| 0 <= i < |s| && s[i] == t[0];
          var j :| 0 <= j < |t| && t[j] == s[0];
          LexLessAsymmetric(s[0], t[0]);
        }
      }
      forall x ensures x in s[1..] <==> x in t[1..] {
        if x in s[1..] {
          var k :| 1 <= k < |s| && s[k] == x;
          assert x in t;
        }
        if x in t[1..] {
          var k :| 1 <= k < |t| && t[k] == x;
          assert x in s;
        }
      }
      IncreasingDetermined(s[1..], t[1..]);
      assert s == [s[0]] + s[1..] && t == [t[0]] + t[1..];
    }
  }
}
