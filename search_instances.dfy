/**
 * The search's result on small boards, obtained from its correctness: it
 * records exactly the solutions in strictly increasing order, so it is fixed
 * once the solutions are known.
 */
module SearchInstances {
  import opened Boards
  import opened Backtracking

  /** The search is the increasing list of exactly the solutions. */
  lemma AllSolutionsAre(n: nat, t: seq<Board>)
    requires StrictlyIncreasing(t)
    requires forall b :: IsSolution(n, b) <==> b in t
    ensures AllSolutions(n) == t
  {
    AllSolutionsCorrect(n);
    IncreasingDetermined(AllSolutions(n), t);
  }

  /** Two queens on a 2x2 board always attack each other. */
  lemma NoTwoQueensBoard(b: Board)
    ensures !IsSolution(2, b)
  {
    if |b| == 2 && InRange(2, b) {
      assert Attacks(0, b[0], 1, b[1]);
    }
  }

  /** On a 3x3 board the queens of rows 0 and 2 attack each other once
      rows 0 and 1 and rows 1 and 2 are safe. */
  lemma NoThreeQueensBoard(b: Board)
    ensures !IsSolution(3, b)
  {
    if |b| == 3 && InRange(3, b) && !Attacks(0, b[0], 1, b[1]) && !Attacks(1, b[1], 2, b[2]) {
      assert Attacks(0, b[0], 2, b[2]);
    }
  }

  /** The 4x4 board has exactly two solutions. */
  lemma FourQueensBoards(b: Board)
    ensures IsSolution(4, b) <==> b == [1, 3, 0, 2] || b == [2, 0, 3, 1]
  {
    if IsSolution(4, b) {
      assert !Attacks(0, b[0], 1, b[1]) && !Attacks(1, b[1], 2, b[2]) && !Attacks(2, b[2], 3, b[3]);
      assert !Attacks(0, b[0], 2, b[2]) && !Attacks(1, b[1], 3, b[3]) && !Attacks(0, b[0], 3, b[3]);
      assert b == [b[0], b[1], b[2], b[3]];
    }
  }

  /** The empty board has the empty placement as its one solution, the 1x1
      board the single queen in column 0, and the 2x2 and 3x3 boards none. */
  lemma SmallSearches()
    ensures AllSolutions(0) == [[]]
    ensures AllSolutions(1) == [[0]]
    ensures AllSolutions(2) == []
    ensures AllSolutions(3) == []
  {
    forall b ensures IsSolution(0, b) <==> b in [[]] {
    }
    AllSolutionsAre(0, [[]]);
    forall b ensures IsSolution(1, b) <==> b in [[0]] {
      if IsSolution(1, b) {
        assert b == [b[0]];
      }
    }
    AllSolutionsAre(1, [[0]]);
    forall b ensures IsSolution(2, b) <==> b in [] {
      NoTwoQueensBoard(b);
    }
    AllSolutionsAre(2, []);
    forall b ensures IsSolution(3, b) <==> b in [] {
      NoThreeQueensBoard(b);
    }
    AllSolutionsAre(3, []);
  }

  /** For n = 4 the search records exactly two solutions, in this order. */
  lemma FourQueensSearch()
    ensures AllSolutions(4) == [[1, 3, 0, 2], [2, 0, 3, 1]]
  {
    var t: seq<Board> := [[1, 3, 0, 2], [2, 0, 3, 1]];
    assert LexLess(t[0], t[1]) by {
      assert t[0][..0] == t[1][..0];
    }
    forall b ensures IsSolution(4, b) <==> b in t {
      FourQueensBoards(b);
    }
    AllSolutionsAre(4, t);
  }
}
