/**
 * The backtracking search as a specification: row by row, columns tried in
 * ascending order, a column taken only when the safety test passes.
 */
module Backtracking {
  import opened Boards
  import opened Seqs

  /** The safety test for a queen at (|p|, col) against the rows placed in p. */
  predicate Safe(p: Board, col: int) {
    forall r :: 0 <= r < |p| ==> !Attacks(r, p[r], |p|, col)
  }

  /** The safety test passes exactly when the extended placement is still safe. */
  lemma SafeExtends(n: nat, p: Board, col: int)
    requires SafePrefix(n, p) && |p| < n && 0 <= col < n
    ensures Safe(p, col) <==> SafePrefix(n, p + [col])
  {
    var q := p + [col];
    if Safe(p, col) {
      forall i, j | 0 <= i < j < |q| ensures !Attacks(i, q[i], j, q[j]) {
        if j < |p| {
          assert q[i] == p[i] && q[j] == p[j];
        } else {
          assert q[i] == p[i];
        }
      }
    }
    if SafePrefix(n, q) {
      forall r | 0 <= r < |p| ensures !Attacks(r, p[r], |p|, col) {
        assert q[r] == p[r] && q[|p|] == col;
      }
    }
  }

  /** The solutions that extend p, in the order the backtracking records them. */
  function Search(n: nat, p: Board): seq<Board>
    requires SafePrefix(n, p)
    decreases n - |p|, 1
  {
    if |p| == n then [p] else Branches(n, p, n)
  }

  /** The solutions recorded while trying columns 0 .. k-1 for row |p|. */
  function Branches(n: nat, p: Board, k: nat): seq<Board>
    requires SafePrefix(n, p) && |p| < n && k <= n
    decreases n - |p|, 0, k
  {
    if k == 0 then []
    else if Safe(p, k - 1) then
      SafeExtends(n, p, k - 1);
      Branches(n, p, k - 1) + Search(n, p + [k - 1])
    else
      Branches(n, p, k - 1)
  }

  /** Soundness: everything the search records is a solution extending p. */
  lemma {:induction false} SearchSound(n: nat, p: Board)
    requires SafePrefix(n, p)
    ensures forall b :: b in Search(n, p) ==> IsSolution(n, b) && b[..|p|] == p
    decreases n - |p|, 1
  {
    if |p| < n {
      BranchesSound(n, p, n);
    }
  }

  /** Everything recorded while trying columns 0 .. k-1 extends p with a column below k. */
  lemma {:induction false} BranchesSound(n: nat, p: Board, k: nat)
    requires SafePrefix(n, p) && |p| < n && k <= n
    ensures forall b :: b in Branches(n, p, k) ==> IsSolution(n, b) && b[..|p|] == p && b[|p|] < k
    decreases n - |p|, 0, k
  {
    if k > 0 {
      BranchesSound(n, p, k - 1);
      if Safe(p, k - 1) {
        SafeExtends(n, p, k - 1);
        SearchSound(n, p + [k - 1]);
        forall b | b in Search(n, p + [k - 1]) ensures b[..|p|] == p && b[|p|] == k - 1 {
          assert b[..|p| + 1] == p + [k - 1];
          assert b[..|p|] == b[..|p| + 1][..|p|];
        }
      }
    }
  }

  /** Trying column col at row |p|: nothing is recorded when it is unsafe, and
      the solutions extending p + [col] are appended when it is safe. */
  lemma BranchesStep(n: nat, p: Board, col: nat)
    requires SafePrefix(n, p) && |p| < n && col < n
    ensures Safe(p, col) ==> SafePrefix(n, p + [col])
    ensures Safe(p, col) ==> Branches(n, p, col + 1) == Branches(n, p, col) + Search(n, p + [col])
    ensures !Safe(p, col) ==> Branches(n, p, col + 1) == Branches(n, p, col)
  {
    SafeExtends(n, p, col);
  }

  /** The full result of the search started at row 0. */
  function AllSolutions(n: nat): seq<Board> {
    Search(n, [])
  }

  lemma {:induction false} BranchesIncludes(n: nat, p: Board, k: nat, c: int, b: Board)
    requires SafePrefix(n, p) && |p| < n && k <= n
    requires 0 <= c < k && Safe(p, c)
    requires SafePrefix(n, p + [c]) && b in Search(n, p + [c])
    ensures b in Branches(n, p, k)
    decreases k
  {
    if c < k - 1 {
      BranchesIncludes(n, p, k - 1, c, b);
    }
  }

  /** Completeness: every solution extending p is found. */
  lemma {:induction false} SearchComplete(n: nat, p: Board, b: Board)
    requires SafePrefix(n, p) && IsSolution(n, b) && b[..|p|] == p
    ensures b in Search(n, p)
    decreases n - |p|
  {
    if |p| == n {
      assert b == b[..|p|];
    } else {
      var c := b[|p|];
      var q := b[..|p| + 1];
      assert q == p + [c];
      assert SafePrefix(n, q) by {
        forall i, j | 0 <= i < j < |q| ensures !Attacks(i, q[i], j, q[j]) {
          assert q[i] == b[i] && q[j] == b[j];
        }
      }
      SafeExtends(n, p, c);
      SearchComplete(n, q, b);
      BranchesIncludes(n, p, n, c, b);
    }
  }

  lemma ConcatIncreasing(a: seq<Board>, b: seq<Board>)
    requires StrictlyIncreasing(a) && StrictlyIncreasing(b)
    requires forall x, y :: x in a && y in b ==> LexLess(x, y)
    ensures StrictlyIncreasing(a + b)
  {
    var s := a + b;
    forall i, j | 0 <= i < j < |s| ensures LexLess(s[i], s[j]) {
      if j < |a| {
        assert s[i] == a[i] && s[j] == a[j];
      } else if i >= |a| {
        assert s[i] == b[i - |a|] && s[j] == b[j - |a|];
      } else {
        assert s[i] in a && s[j] in b;
      }
    }
  }

  /** Ordering: the search records solutions in strictly increasing lexicographic order. */
  lemma {:induction false} SearchIncreasing(n: nat, p: Board)
    requires SafePrefix(n, p)
    ensures StrictlyIncreasing(Search(n, p))
    decreases n - |p|, 1
  {
    if |p| < n {
      BranchesIncreasing(n, p, n);
    }
  }

  lemma {:induction false} BranchesIncreasing(n: nat, p: Board, k: nat)
    requires SafePrefix(n, p) && |p| < n && k <= n
    ensures StrictlyIncreasing(Branches(n, p, k))
    decreases n - |p|, 0, k
  {
    if k > 0 {
      BranchesIncreasing(n, p, k - 1);
      if Safe(p, k - 1) {
        SafeExtends(n, p, k - 1);
        var earlier := Branches(n, p, k - 1);
        var later := Search(n, p + [k - 1]);
        SearchIncreasing(n, p + [k - 1]);
        BranchesSound(n, p, k - 1);
        SearchSound(n, p + [k - 1]);
        forall x, y | x in earlier && y in later ensures LexLess(x, y) {
          assert y[..|p| + 1] == p + [k - 1];
          assert y[..|p|] == y[..|p| + 1][..|p|];
          assert y[|p|] == k - 1;
          assert x[..|p|] == y[..|p|] && x[|p|] < y[|p|];
        }
        ConcatIncreasing(earlier, later);
      }
    }
  }

  /** What the search stage of the solver yields: exactly the placements of n
      non-attacking queens, each once, in strictly increasing lexicographic order. */
  lemma AllSolutionsCorrect(n: nat)
    ensures forall b :: b in AllSolutions(n) <==> IsSolution(n, b)
    ensures StrictlyIncreasing(AllSolutions(n))
    ensures NoDuplicates(AllSolutions(n))
  {
    SearchSound(n, []);
    forall b | IsSolution(n, b) ensures b in AllSolutions(n) {
      SearchComplete(n, [], b);
    }
    SearchIncreasing(n, []);
    StrictlyIncreasingDistinct(AllSolutions(n));
  }
}
