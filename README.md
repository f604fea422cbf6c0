# N-Queens solver, modelled and verified in Dafny

This project models `NQueensSolver`, the search engine of the N-Queens
program. A board is a list with one entry per row: `board[row]` is the
column of the queen in that row. The solver has two parts.

- **Backtracking search.** Rows are filled from the top. In each row the
  columns are tried in ascending order. A column is accepted when no earlier
  queen shares its column, its main diagonal (column minus row) or its
  anti-diagonal (column plus row). Every completed board is recorded as a copy.
- **Symmetry reduction.** For each recorded solution the solver lists its
  variants: three successive quarter turns, then the horizontal, vertical,
  diagonal and "anti-diagonal" reflections, with repeats removed. A solution
  is kept only when none of its variants has been seen; the first one seen wins.

The model follows the solver's code in two places where the program's own
text suggests something else:

- The GUI labels the size field "N ≥ 4" (`No1_nQueens/nQueens.py:105`) and
  rejects smaller sizes before it creates the solver (lines 151-153). The
  solver itself accepts every `n`. Here `n = 0` and `n = 1` give one
  solution each, and `n = 2` and `n = 3` give none (`SmallSearches`).
- The method `_reflect_anti_diagonal` (line 84) is named for the
  anti-diagonal reflection, but it computes the diagonal reflection of the
  horizontal mirror image. On a permutation that equals three quarter turns
  (`AntiDiagonalIsRotateThree`), so it always repeats an earlier entry and
  at most 7 distinct variants are listed. The anti-transpose
  `(r, c) -> (n-1-c, n-1-r)` is the one symmetry of the square the solver
  never applies (`ApplyAntiTransposed`, `ImageIsRaw`). Its image is listed
  only when it happens to equal another variant, as for the 4-queens
  solutions. For the 5-queens solution `[0,2,4,1,3]` it is missing
  (`FiveQueensMissingAntiTranspose`). The reduction is still exact: two
  solutions share a listed variant exactly when some symmetry of the square
  maps one to the other (`SharingIffSameOrbit`).

Layout:

- `boards.dfy` (module `Boards`): boards, attacks, solutions, permutations,
  the pigeonhole argument and lexicographic order.
- `seqs.dfy` (module `Seqs`): removing repeats while keeping first
  occurrences, and order-preserving subsequences.
- `search.dfy` (module `Backtracking`): the search as a specification
  function `Search`, with its soundness, completeness and ordering.
- `search_instances.dfy` and `instances.dfy`: the results for
  `n = 0 .. 4`, plus the transforms of one 5-queens board.
- `symmetry.dfy` (module `Symmetry`): the transforms as closed-form
  functions, their algebra, the variant list and the dihedral group
  acting on boards.
- `reduction.dfy` (module `Reduction`): the first-seen-wins reduction as the
  specification functions `Seen` and `Kept`.
- `solver.dfy` (module `Solver`): class `NQueensSolver`. Its scratch `board`
  is an array; `solutions` and `uniqueSolutions` are sequence fields. Each
  imperative method is proved against the specification functions.

## Model

| member | source | states |
|---|---|---|
| Solver.NQueensSolver.constructor | No1_nQueens/nQueens.py:6-10 | A new solver holds `n`, empty solution lists and a fresh scratch board of `n` entries, all -1. |
| Solver.NQueensSolver.Solve | No1_nQueens/nQueens.py:12-15 | After the search from row 0 and the reduction, the solutions list has grown by every solution in search order. The unique list has grown by the representatives kept from those solutions. Both lists are returned. |
| Solver.NQueensSolver.Backtrack | No1_nQueens/nQueens.py:17-25 | Started on a safe prefix `p` held in the first rows of the board, it appends exactly the completions of `p` in search order (`Search(n, p)`). It leaves rows before `row` unchanged. |
| Backtracking.BranchesStep | No1_nQueens/nQueens.py:22-25 | Trying column `col` adds the completions of `p + [col]` when `col` is safe and nothing otherwise. A safe column extends a safe prefix. |
| Backtracking.SafeExtends | No1_nQueens/nQueens.py:23-24 | The safety test passes exactly when placing the queen keeps the prefix non-attacking and in range. |
| Backtracking.SearchSound | No1_nQueens/nQueens.py:17-25 | Every board the search records from prefix `p` is a full solution that starts with `p`. |
| Backtracking.BranchesSound | No1_nQueens/nQueens.py:22-25 | Every board recorded while columns below `k` are tried in row `\|p\|` is a solution that extends `p` with a column below `k`. |
| Backtracking.BranchesIncludes | No1_nQueens/nQueens.py:22-25 | The completions of any safe column below `k` are among the boards recorded by the column loop up to `k`. |
| Backtracking.SearchComplete | No1_nQueens/nQueens.py:17-25 | Every solution that extends the prefix `p` is recorded by the search from `p`. |
| Backtracking.SearchIncreasing | No1_nQueens/nQueens.py:22-25 | Because columns are tried in ascending order, the recorded boards are in strictly increasing lexicographic order. |
| Backtracking.BranchesIncreasing | No1_nQueens/nQueens.py:22-25 | The boards recorded by the column loop up to `k` are in strictly increasing lexicographic order. |
| Backtracking.AllSolutionsCorrect | No1_nQueens/nQueens.py:12-25 | A board is among the search's results if and only if it is an n-queens solution. The results are strictly increasing and free of repeats. |
| Boards.SolutionIsPermutation | No1_nQueens/nQueens.py:27-33 | A recorded solution uses each column exactly once. |
| Boards.IncreasingDetermined | No1_nQueens/nQueens.py:17-25 | Two strictly increasing lists with the same boards are equal, so the solution list is fixed by the set of solutions. |
| Solver.NQueensSolver.IsSafe | No1_nQueens/nQueens.py:27-33 | Reading only rows before `row`, it returns true if and only if no earlier queen shares the column, main diagonal or anti-diagonal of `(row, col)`. |
| Solver.NQueensSolver.FindUniqueSolutions | No1_nQueens/nQueens.py:35-44 | The unique list grows by exactly `Kept(n, solutions)`, the first-seen-wins selection; the loop keeps the seen set equal to `Seen` of the scanned prefix. |
| Reduction.KeptStep | No1_nQueens/nQueens.py:38-44 | One scan step keeps the solution and marks its variants as seen exactly when none of its variants was seen. |
| Reduction.ScanStep | No1_nQueens/nQueens.py:40-44 | The same step, phrased over the seen set and the variant set held by the loop. |
| Reduction.AnySeen | No1_nQueens/nQueens.py:42 | Some variant is already seen exactly when the variant set and the seen set overlap. |
| Reduction.SeenIsUnionOfKept | No1_nQueens/nQueens.py:36-44 | A board is seen exactly when it is a variant of some kept representative. |
| Reduction.DecisionsAt | No1_nQueens/nQueens.py:42 | The recorded keep-or-skip decision for each solution is the overlap test at its position in the scan. |
| Reduction.KeptSelects | No1_nQueens/nQueens.py:35-44 | The kept list is the solutions filtered by the scan's decisions, so it is an order-preserving subsequence of them. |
| Reduction.KeptPrefix | No1_nQueens/nQueens.py:38-44 | Representatives are only ever appended: what is kept after a prefix is a prefix of the final list. |
| Reduction.KeptFirst | No1_nQueens/nQueens.py:35-44 | When there is a solution, the first one is kept and comes first. |
| Reduction.KeptDisjoint | No1_nQueens/nQueens.py:35-44 | Any two kept representatives have disjoint variant sets. |
| Reduction.SkippedShares | No1_nQueens/nQueens.py:42-44 | A skipped solution adds nothing and shares a variant with a representative kept before it. |
| Reduction.EveryBoardRepresented | No1_nQueens/nQueens.py:35-44 | Every scanned solution shares a variant with some kept representative. |
| Reduction.KeptPair | No1_nQueens/nQueens.py:35-44 | Of two solutions where the second is a variant of the first, only the first is kept. |
| Reduction.KeptDistinctOrbits | No1_nQueens/nQueens.py:35-44 | No kept representative is the image of another under any of the 8 symmetries of the square. |
| Reduction.EveryBoardInKeptOrbit | No1_nQueens/nQueens.py:35-44 | Every scanned solution is the image of some kept representative under a symmetry of the square. |
| Reduction.KeptOrbits | No1_nQueens/nQueens.py:35-44 | The kept representatives hold exactly one board from the symmetry class of each solution. |
| Solver.NQueensSolver.GenerateVariants | No1_nQueens/nQueens.py:46-64 | Returns the board, its three successive quarter turns and its four reflections in that order, with repeats removed keeping first occurrences (`Variants(n, b)`). |
| Seqs.DedupFacts | No1_nQueens/nQueens.py:59-63 | Removing repeats leaves no repeats, drops no element, never lengthens the list and keeps the first element first. |
| Symmetry.VariantSetIsRaw | No1_nQueens/nQueens.py:46-64 | The set of listed variants is the set of the eight generated boards. |
| Symmetry.VariantsFacts | No1_nQueens/nQueens.py:46-64 | The variant list of a permutation starts with the board, has no repeats and at most 7 entries. All its entries are permutations, and solutions when the board is one. |
| Symmetry.InOwnVariants | No1_nQueens/nQueens.py:47-55 | A board is among its own variants, and so are its horizontal and vertical mirror images. |
| Symmetry.RawVariantsPermutations | No1_nQueens/nQueens.py:46-57 | All eight generated boards of a permutation are permutations. |
| Symmetry.RawVariantsSolutions | No1_nQueens/nQueens.py:46-57 | All eight generated boards of a solution are solutions. |
| Solver.NQueensSolver.Rotate90 | No1_nQueens/nQueens.py:66-70 | Filling a board of -1s with the queen of row `r` moved to row `b[r]`, column `n-1-r`, gives the quarter turn `Rotated(n, b)`. Where two rows share a column the later write wins. |
| Symmetry.RotatedPermutation | No1_nQueens/nQueens.py:66-70 | The quarter turn of a permutation is a permutation, so no -1 is left. |
| Symmetry.RotatedSolution | No1_nQueens/nQueens.py:66-70 | The quarter turn of a solution is a solution. |
| Symmetry.RotatedIsHorizontalOfTransposed | No1_nQueens/nQueens.py:66-82 | On a permutation, a quarter turn is the horizontal mirror image of the diagonal reflection. |
| Symmetry.RotateTwice | No1_nQueens/nQueens.py:66-76 | Two quarter turns equal the horizontal mirror image of the vertical one. |
| Symmetry.RotateFour | No1_nQueens/nQueens.py:66-70 | Four quarter turns give back the original permutation. |
| Symmetry.ReflectHorizontal | No1_nQueens/nQueens.py:72-73 | The comprehension `[n - 1 - col for col in board]`: the result has the board's length, each column and its mirror image add up to `n - 1`, and columns in `[0, n)` stay in `[0, n)`. |
| Symmetry.HorizontalInvolution | No1_nQueens/nQueens.py:72-73 | The horizontal reflection is its own inverse. |
| Symmetry.HorizontalPermutation | No1_nQueens/nQueens.py:72-73 | The horizontal reflection of a permutation is a permutation. |
| Symmetry.HorizontalSolution | No1_nQueens/nQueens.py:72-73 | The horizontal reflection of a solution is a solution. |
| Symmetry.ReflectVertical | No1_nQueens/nQueens.py:75-76 | The slice reversal `board[::-1]`: the result has the board's length, and row `i` of either board holds what row `len - 1 - i` of the other holds. |
| Symmetry.VerticalInvolution | No1_nQueens/nQueens.py:75-76 | Reversing the rows twice gives back the board. |
| Symmetry.VerticalPermutation | No1_nQueens/nQueens.py:75-76 | The vertical reflection of a permutation is a permutation. |
| Symmetry.VerticalSolution | No1_nQueens/nQueens.py:75-76 | The vertical reflection of a solution is a solution. |
| Symmetry.HorizontalVerticalCommute | No1_nQueens/nQueens.py:72-76 | The horizontal and vertical reflections commute. |
| Solver.NQueensSolver.ReflectDiagonal | No1_nQueens/nQueens.py:78-82 | Filling a board of -1s with row `r` written at column `b[r]` gives `Transposed(n, b)`: each column holds its last row, and an unused column keeps -1. |
| Symmetry.TransposedPermutation | No1_nQueens/nQueens.py:78-82 | The diagonal reflection of a permutation is a permutation and its inverse, on both sides. |
| Symmetry.TransposedSolution | No1_nQueens/nQueens.py:78-82 | The diagonal reflection of a solution is a solution. |
| Symmetry.TransposeInvolution | No1_nQueens/nQueens.py:78-82 | The diagonal reflection of a permutation is its own inverse. |
| Symmetry.TransposeOfHorizontal | No1_nQueens/nQueens.py:72-82 | Reflecting a mirrored permutation in the diagonal reverses the rows of its diagonal reflection. |
| Symmetry.TransposeOfVertical | No1_nQueens/nQueens.py:75-82 | Reflecting a row-reversed permutation in the diagonal mirrors its diagonal reflection horizontally. |
| Solver.NQueensSolver.ReflectAntiDiagonal | No1_nQueens/nQueens.py:84-85 | Returns the diagonal reflection of the horizontal mirror image; on a permutation that is three quarter turns. |
| Symmetry.AntiDiagonalIsRotateThree | No1_nQueens/nQueens.py:84-85 | On a permutation, the solver's anti-diagonal reflection equals the third quarter turn, so it always repeats an earlier variant. |
| Symmetry.AntiTransposedSharesVariant | No1_nQueens/nQueens.py:46-64 | The true anti-transpose of a permutation is the vertical reflection of its quarter turn. It shares a listed variant with the board. |
| Symmetry.ApplyAntiTransposed | No1_nQueens/nQueens.py:46-64 | The one symmetry of the square the variant list misses is the anti-transpose. |
| Symmetry.ReflectPermutation | No1_nQueens/nQueens.py:72-76 | Any combination of the two mirror reflections maps permutations to permutations. |
| Symmetry.ApplyPermutation | No1_nQueens/nQueens.py:66-85 | Each of the 8 symmetries maps permutations to permutations. |
| Symmetry.ReflectCompose | No1_nQueens/nQueens.py:72-76 | Mirror reflections compose by exclusive-or of their flags. |
| Symmetry.TransposeReflect | No1_nQueens/nQueens.py:72-82 | The diagonal reflection swaps the horizontal and vertical mirror flags. |
| Symmetry.ApplyCompose | No1_nQueens/nQueens.py:66-85 | Applying two symmetries in turn is the symmetry given by `Compose`. |
| Symmetry.ApplyInverse | No1_nQueens/nQueens.py:66-85 | `Inverse(g)` undoes `g` on permutations. |
| Symmetry.RawAsImages | No1_nQueens/nQueens.py:46-57 | Each of the eight generated boards is the image of the board under a named symmetry; the fourth and the eighth are the same one. |
| Symmetry.ImageIsRaw | No1_nQueens/nQueens.py:46-57 | The image under every symmetry except the anti-transpose is among the generated boards. |
| Symmetry.RawIsImage | No1_nQueens/nQueens.py:46-57 | Every generated board is the image of the board under a symmetry of the square. |
| Symmetry.VariantsAreImages | No1_nQueens/nQueens.py:46-64 | The listed variants are exactly the images under the seven symmetries other than the anti-transpose. |
| Symmetry.SharingIffSameOrbit | No1_nQueens/nQueens.py:35-64 | Two permutations share a listed variant if and only if a symmetry of the square maps one to the other: the missing anti-transpose splits no class. |
| Solver.SolveQueens | No1_nQueens/nQueens.py:158-159 | Models only the GUI's two lines that create the solver and call `solve`. A fresh solver, solved once, returns exactly the solutions: each once, in increasing order. The unique list is an order-preserving subsequence whose first entry is the first solution. No two unique boards are related by a symmetry, and every solution is an image of a unique board. |
| SearchInstances.AllSolutionsAre | No1_nQueens/nQueens.py:17-25 | A strictly increasing list holding exactly the solutions is the search's result. |
| SearchInstances.NoTwoQueensBoard | No1_nQueens/nQueens.py:27-33 | No board places 2 non-attacking queens on a 2 by 2 board. |
| SearchInstances.NoThreeQueensBoard | No1_nQueens/nQueens.py:27-33 | No board places 3 non-attacking queens on a 3 by 3 board. |
| SearchInstances.FourQueensBoards | No1_nQueens/nQueens.py:27-33 | The 4 by 4 solutions are exactly `[1,3,0,2]` and `[2,0,3,1]`. |
| SearchInstances.SmallSearches | No1_nQueens/nQueens.py:17-25 | The search gives `[[]]` for n = 0, `[[0]]` for n = 1 and no solution for n = 2 and n = 3. |
| SearchInstances.FourQueensSearch | No1_nQueens/nQueens.py:17-25 | For n = 4 the search gives `[[1,3,0,2],[2,0,3,1]]`, in that order. |
| Instances.FourQueensKept | No1_nQueens/nQueens.py:35-44 | Of the two 4-queens solutions only the first is kept: the second is its horizontal mirror image. |
| Instances.FourQueensUnique | No1_nQueens/nQueens.py:12-15 | For n = 4 the solver reports the single unique solution `[1,3,0,2]`. |
| Instances.InversePermutation | No1_nQueens/nQueens.py:78-82 | A board in range with a left inverse is a permutation. |
| Instances.TransposedIs | No1_nQueens/nQueens.py:78-82 | The diagonal reflection of such a board is that inverse. |
| Instances.RotatedIs | No1_nQueens/nQueens.py:66-70 | The quarter turn of such a board is the horizontal mirror image of the inverse. |
| Instances.FiveQueensFirstTurn | No1_nQueens/nQueens.py:66-70 | The quarter turn of `[0,2,4,1,3]` is `[4,1,3,0,2]`. |
| Instances.FiveQueensSecondTurn | No1_nQueens/nQueens.py:66-70 | The quarter turn of `[4,1,3,0,2]` is `[1,3,0,2,4]`. |
| Instances.FiveQueensThirdTurn | No1_nQueens/nQueens.py:66-70 | The quarter turn of `[1,3,0,2,4]` is `[2,4,1,3,0]`. |
| Instances.FiveQueensRawVariants | No1_nQueens/nQueens.py:46-57 | The eight boards generated for `[0,2,4,1,3]`, the last one repeating the fourth. |
| Instances.FiveQueensAntiTranspose | No1_nQueens/nQueens.py:84-85 | The true anti-transpose of `[0,2,4,1,3]` is `[2,0,3,1,4]`. |
| Instances.FiveQueensMissingAntiTranspose | No1_nQueens/nQueens.py:46-64 | That anti-transpose is not among the variants the solver lists for `[0,2,4,1,3]`. |

## Left out

- The GUI class `NQueensGUI` is not part of this model, apart from its two lines that create the solver and call `solve` (`Solver.SolveQueens`): canvas drawing, widgets, message boxes, resizing and the previous/next navigation. So is the separate K-means/KNN program; it is file dialogs, CSV loading, foreign machine-learning routines and floating point.
- The `n < 4` check is not modelled. It is made by the GUI before the solver is created, not by the solver.
- Negative `n`: the model takes `n` as a natural number. For a negative `n` the solver builds an empty board and finds no solution.
- Solver.NQueensSolver.Rotate90: requires a board of length `n` with columns in `[0, n)`. Python would also wrap a negative index around, and accepts any board with at least `n` entries; all callers pass permutations.
- Solver.NQueensSolver.ReflectDiagonal: requires columns in `[0, n)`. A negative column would index from the end of the Python list.
- Solver.NQueensSolver.ReflectAntiDiagonal: requires columns in `[0, n)`, for the same reason.
- Solver.NQueensSolver.GenerateVariants: requires the board to be a permutation, as every recorded solution is.
- Solver.NQueensSolver.Backtrack: takes the placed prefix as an extra ghost parameter. It is ghost: it serves the proof and is erased from compiled code.
- Solver.NQueensSolver.FindUniqueSolutions: variants are compared as sequences. The Python code converts them to tuples first, which has the same equality.
- The solution counts for larger boards are not proved (92 solutions and 12 unique ones for n = 8, or the 10 solutions for n = 5). Proving them would mean enumerating the whole search symbolically, which is too costly. The exact lists are proved for n = 0 to 4.
- The search's running time and the Python recursion depth limit are not modelled.
