/** Concrete instances of the solver's results for small boards. */
module Instances {
  import opened Boards
  import opened Seqs
  import opened Backtracking
  import opened Symmetry
  import opened Reduction
  import opened SearchInstances

  /** The second 4-queens solution is the horizontal mirror image of the
      first, so of the two only the first is kept. */
  lemma FourQueensKept()
    ensures Kept(4, [[1, 3, 0, 2], [2, 0, 3, 1]]) == [[1, 3, 0, 2]]
  {
    assert ReflectHorizontal(4, [1, 3, 0, 2]) == [2, 0, 3, 1];
    InOwnVariants(4, [1, 3, 0, 2]);
    KeptPair(4, [1, 3, 0, 2], [2, 0, 3, 1]);
  }

  /** For n = 4 the solver reports 2 solutions and 1 unique one. */
  lemma FourQueensUnique()
    ensures Kept(4, AllSolutions(4)) == [[1, 3, 0, 2]]
  {
    FourQueensSearch();
    FourQueensKept();
  }

  /** A board with a left inverse t is a permutation. */
  lemma InversePermutation(n: nat, b: Board, t: Board)
    requires |b| == n && InRange(n, b) && |t| == n
    requires forall i :: 0 <= i < n ==> t[b[i]] == i
    ensures IsPermutation(n, b)
  {
    forall i, j | 0 <= i < j < n ensures b[i] != b[j] {
      assert t[b[i]] == i && t[b[j]] == j;
    }
  }

  /** The transpose of a permutation is its inverse t. */
  lemma TransposedIs(n: nat, b: Board, t: Board)
    requires |b| == n && InRange(n, b) && |t| == n
    requires forall i :: 0 <= i < n ==> t[b[i]] == i
    ensures IsPermutation(n, b)
    ensures Transposed(n, b) == t
  {
    InversePermutation(n, b, t);
    TransposedPermutation(n, b);
    forall c | 0 <= c < n ensures Transposed(n, b)[c] == t[c] {
      PermutationCovers(n, b, c);
      var r := LastRow(b, c);
      assert t[b[r]] == r;
    }
  }

  /** A quarter turn of a permutation, from its inverse t. */
  lemma RotatedIs(n: nat, b: Board, t: Board, r: Board)
    requires |b| == n && InRange(n, b) && |t| == n
    requires forall i :: 0 <= i < n ==> t[b[i]] == i
    requires r == ReflectHorizontal(n, t)
    ensures Rotated(n, b) == r
  {
    TransposedIs(n, b, t);
    RotatedIsHorizontalOfTransposed(n, b);
  }

  /** The quarter turns of the 5-queens solution [0, 2, 4, 1, 3]. */
  lemma FiveQueensFirstTurn()
    ensures Rotated(5, [0, 2, 4, 1, 3]) == [4, 1, 3, 0, 2]
  {
    RotatedIs(5, [0, 2, 4, 1, 3], [0, 3, 1, 4, 2], [4, 1, 3, 0, 2]);
  }

  lemma FiveQueensSecondTurn()
    ensures Rotated(5, [4, 1, 3, 0, 2]) == [1, 3, 0, 2, 4]
  {
    RotatedIs(5, [4, 1, 3, 0, 2], [3, 1, 4, 2, 0], [1, 3, 0, 2, 4]);
  }

  lemma FiveQueensThirdTurn()
    ensures Rotated(5, [1, 3, 0, 2, 4]) == [2, 4, 1, 3, 0]
  {
    RotatedIs(5, [1, 3, 0, 2, 4], [2, 0, 3, 1, 4], [2, 4, 1, 3, 0]);
  }

  /** The eight boards the solver lists for the 5-queens solution [0, 2, 4, 1, 3]:
      the last one, its "anti-diagonal" reflection, repeats the third quarter turn. */
  lemma FiveQueensRawVariants()
    ensures RawVariants(5, [0, 2, 4, 1, 3]) ==
      [[0, 2, 4, 1, 3], [4, 1, 3, 0, 2], [1, 3, 0, 2, 4], [2, 4, 1, 3, 0],
       [4, 2, 0, 3, 1], [3, 1, 4, 2, 0], [0, 3, 1, 4, 2], [2, 4, 1, 3, 0]]
  {
    var b: Board := [0, 2, 4, 1, 3];
    TransposedIs(5, b, [0, 3, 1, 4, 2]);
    FiveQueensFirstTurn();
    FiveQueensSecondTurn();
    FiveQueensThirdTurn();
    AntiDiagonalIsRotateThree(5, b);
    assert ReflectHorizontal(5, b) == [4, 2, 0, 3, 1];
    assert ReflectVertical(b) == [3, 1, 4, 2, 0];
  }

  /** The anti-transpose of the 5-queens solution [0, 2, 4, 1, 3] is
      [2, 0, 3, 1, 4]. */
  lemma FiveQueensAntiTranspose()
    ensures AntiTransposed(5, [0, 2, 4, 1, 3]) == [2, 0, 3, 1, 4]
  {
    var b: Board := [0, 2, 4, 1, 3];
    TransposedIs(5, b, [0, 3, 1, 4, 2]);
    FiveQueensFirstTurn();
    AntiTransposedSharesVariant(5, b);
  }

  /** The solver never lists the anti-transpose of [0, 2, 4, 1, 3] among its
      variants: the eighth symmetry of the square is missing. */
  lemma FiveQueensMissingAntiTranspose()
    ensures AntiTransposed(5, [0, 2, 4, 1, 3]) !in VariantSet(5, [0, 2, 4, 1, 3])
  {
    FiveQueensRawVariants();
    FiveQueensAntiTranspose();
    VariantSetIsRaw(5, [0, 2, 4, 1, 3]);
    var raw := RawVariants(5, [0, 2, 4, 1, 3]);
    assert forall v :: v in raw ==> v[1] != 0;
  }
}
