/**
 * The solver object: a scratch board overwritten row by row during the
 * backtracking, the list of recorded solutions and the list of kept
 * representatives.
 */
module Solver {
  import opened Boards
  import opened Seqs
  import opened Backtracking
  import opened Symmetry
  import opened Reduction

  class NQueensSolver {
    const n: nat
    var solutions: seq<Board>
    var uniqueSolutions: seq<Board>
    /** The scratch board; the array itself is never replaced. */
    const board: array<int>

    ghost predicate Valid()
      reads this
    {
      board.Length == n && forall s :: s in solutions ==> IsSolution(n, s)
    }

    constructor (n: nat)
      ensures Valid() && fresh(board)
      ensures this.n == n && solutions == [] && uniqueSolutions == []
      ensures board[..] == seq(n, _ => -1)
    {
      this.n := n;
      solutions := [];
      uniqueSolutions := [];
      board := new int[n](_ => -1);
    }

    /** Runs the search from row 0 and then the reduction over everything recorded. */
    method Solve() returns (all: seq<Board>, unique: seq<Board>)
      requires Valid()
      modifies this`solutions, this`uniqueSolutions, board
      ensures Valid()
      ensures solutions == old(solutions) + AllSolutions(n)
      ensures uniqueSolutions == old(uniqueSolutions) + Kept(n, solutions)
      ensures all == solutions && unique == uniqueSolutions
    {
      Backtrack(0, []);
      SearchSound(n, []);
      FindUniqueSolutions();
      return solutions, uniqueSolutions;
    }

    /** Tries every column of `row` in ascending order, recursing on the safe ones;
        at row n a copy of the board is recorded. Rows before `row` are left as
        they were, and the recorded copies are values that later writes to the
        board cannot reach. */
    method Backtrack(row: nat, ghost p: Board)
      requires board.Length == n && row == |p| <= n && SafePrefix(n, p) && board[..row] == p
      modifies this`solutions, board
      ensures board[..row] == p
      ensures solutions == old(solutions) + Search(n, p)
      decreases n - row
    {
      if row == n {
        assert board[..] == p;
        solutions := solutions + [board[..]];
        return;
      }
      for col := 0 to n
        invariant board[..row] == p
        invariant solutions == old(solutions) + Branches(n, p, col)
      {
        BranchesStep(n, p, col);
        var safe := IsSafe(row, col);
        if safe {
          board[row] := col;
          assert board[..row + 1] == p + [col];
          Backtrack(row + 1, p + [col]);
          assert board[..row] == (p + [col])[..row];
        }
      }
    }

    /** Scans the rows placed before `row`; false at the first one that shares the
        column, the main diagonal or the anti-diagonal of (row, col). */
    method IsSafe(row: nat, col: int) returns (safe: bool)
      requires row <= board.Length
      ensures safe <==> Safe(board[..row], col)
    {
      for r := 0 to row
        invariant forall r' :: 0 <= r' < r ==> !Attacks(r', board[r'], row, col)
      {
        if board[r] == col || board[r] - r == col - row || board[r] + r == col + row {
          return false;
        }
      }
      return true;
    }

    /** Keeps each recorded solution none of whose variants is already seen. */
    method FindUniqueSolutions()
      requires Valid()
      modifies this`uniqueSolutions
      ensures uniqueSolutions == old(uniqueSolutions) + Kept(n, solutions)
    {
      var uniqueBoards: set<Board> := {};
      var sols := solutions;
      assert forall s :: s in sols ==> IsSolution(n, s);
      for i := 0 to |sols|
        invariant uniqueBoards == Seen(n, sols[..i])
        invariant uniqueSolutions == old(uniqueSolutions) + Kept(n, sols[..i])
      {
        var solution := sols[i];
        SolutionIsPermutation(n, solution);
        var variants := GenerateVariants(solution);
        var variantTuples := set v | v in variants;
        ScanStep(n, sols, i, uniqueBoards, variantTuples);
        AnySeen(variantTuples, uniqueBoards);
        var anySeen := exists v :: v in variantTuples && v in uniqueBoards;
        if !anySeen {
          uniqueBoards := uniqueBoards + variantTuples;
          uniqueSolutions := uniqueSolutions + [solution];
        }
      }
      assert sols[..|sols|] == sols;
    }

    /** Lists the board, its three successive quarter turns and its four
        reflections, then drops repeats keeping first occurrences. */
    method GenerateVariants(b: Board) returns (uniqueVariants: seq<Board>)
      requires IsPermutation(n, b)
      ensures uniqueVariants == Variants(n, b)
    {
      ghost var raw := RawVariants(n, b);
      var variants := [b];
      var current := b;
      for k := 0 to 3
        invariant variants == raw[..k + 1] && current == raw[k]
        invariant IsPermutation(n, current)
      {
        current := Rotate90(current);
        RotatedPermutation(n, raw[k]);
        variants := variants + [current];
      }
      var h := ReflectHorizontal(n, b);
      var v := ReflectVertical(b);
      var d := ReflectDiagonal(b);
      var a := ReflectAntiDiagonal(b);
      variants := variants + [h] + [v] + [d] + [a];
      assert variants == raw;
      uniqueVariants := [];
      for i := 0 to |variants|
        invariant uniqueVariants == Dedup(variants[..i])
      {
        assert variants[..i + 1][..i] == variants[..i];
        if variants[i] !in uniqueVariants {
          uniqueVariants := uniqueVariants + [variants[i]];
        }
      }
      assert variants[..|variants|] == variants;
    }

    /** Fills a fresh board of -1s: the queen of each row r goes to row b[r],
        column n-1-r. */
    method Rotate90(b: Board) returns (r: Board)
      requires |b| == n && InRange(n, b)
      ensures r == Rotated(n, b)
    {
      var newBoard := new int[n](_ => -1);
      for row := 0 to n
        invariant forall c :: 0 <= c < n ==>
          newBoard[c] == if LastRow(b[..row], c) < 0 then -1 else n - 1 - LastRow(b[..row], c)
      {
        newBoard[b[row]] := n - 1 - row;
        assert b[..row + 1][..row] == b[..row];
      }
      assert b[..n] == b;
      return newBoard[..];
    }

    /** Fills a fresh board of -1s: column b[r] of the result gets row r. */
    method ReflectDiagonal(b: Board) returns (r: Board)
      requires InRange(n, b)
      ensures r == Transposed(n, b)
    {
      var newBoard := new int[n](_ => -1);
      for row := 0 to |b|
        invariant forall c :: 0 <= c < n ==> newBoard[c] == LastRow(b[..row], c)
      {
        newBoard[b[row]] := row;
        assert b[..row + 1][..row] == b[..row];
      }
      assert b[..|b|] == b;
      return newBoard[..];
    }

    /** The diagonal reflection of the horizontal reflection; on a permutation
        this is three quarter turns, not the anti-transpose. */
    method ReflectAntiDiagonal(b: Board) returns (r: Board)
      requires InRange(n, b)
      ensures r == Transposed(n, ReflectHorizontal(n, b))
      ensures IsPermutation(n, b) ==> r == Rotated(n, Rotated(n, Rotated(n, b)))
    {
      r := ReflectDiagonal(ReflectHorizontal(n, b));
      if IsPermutation(n, b) {
        AntiDiagonalIsRotateThree(n, b);
      }
    }
  }

  /** A caller's view: a fresh solver for n, solved once. Every solution
      appears once, in increasing order; the unique ones are a subsequence
      of them, no two of them related by a symmetry of the square, and every
      solution is a symmetric image of one of them. */
  method SolveQueens(n: nat) returns (all: seq<Board>, unique: seq<Board>)
    ensures all == AllSolutions(n) && unique == Kept(n, all)
    ensures forall b :: b in all <==> IsSolution(n, b)
    ensures StrictlyIncreasing(all) && NoDuplicates(all)
    ensures IsSubsequence(unique, all)
    ensures |all| > 0 ==> |unique| > 0 && unique[0] == all[0]
    ensures forall i, j :: 0 <= i < j < |unique| ==> !InOrbit(n, unique[j], unique[i])
    ensures forall b :: b in all ==> exists k :: k in unique && InOrbit(n, b, k)
  {
    var solver := new NQueensSolver(n);
    all, unique := solver.Solve();
    AllSolutionsCorrect(n);
    KeptSelects(n, all);
    if |all| > 0 {
      KeptFirst(n, all);
    }
    forall s | s in all ensures IsPermutation(n, s) {
      SolutionIsPermutation(n, s);
    }
    KeptOrbits(n, all);
  }
}
