/**
 * The board transforms used by the symmetry reduction, as closed-form
 * functions on the column-per-row representation, and their algebra.
 * Geometrically, a queen at (row r, column c) moves to
 *   ReflectHorizontal: (r, n-1-c)      ReflectVertical: (n-1-r, c)
 *   Transposed:        (c, r)          Rotated:         (c, n-1-r)
 * and the anti-transpose, which the solver never generates, sends it to
 * (n-1-c, n-1-r).
 */
module Symmetry {
  import opened Boards
  import opened Seqs

  /** Every column value c becomes n-1-c; the row order is unchanged. */
  function ReflectHorizontal(n: int, b: Board): (r: Board)
    ensures |r| == |b|
    ensures forall i :: 0 <= i < |b| ==> r[i] + b[i] == n - 1
    ensures InRange(n, b) ==> InRange(n, r)
  {
    seq(|b|, i requires 0 <= i < |b| => n - 1 - b[i])
  }

  /** The row order is reversed. */
  function ReflectVertical(b: Board): (r: Board)
    ensures |r| == |b|
    ensures forall i :: 0 <= i < |b| ==> r[i] == b[|b| - 1 - i] && r[|b| - 1 - i] == b[i]
  {
    seq(|b|, i requires 0 <= i < |b| => b[|b| - 1 - i])
  }

  /** Column c of the result holds the row of the queen in column c of b; when
      several rows use column c the last one wins, and an unused column keeps -1. */
  function Transposed(n: nat, b: Board): Board {
    seq(n, c => LastRow(b, c))
  }

  /** Quarter turn: the queen of row r in column c lands in row c, column n-1-r;
      an unused column keeps -1. */
  function Rotated(n: nat, b: Board): Board {
    seq(n, c => if LastRow(b, c) < 0 then -1 else n - 1 - LastRow(b, c))
  }

  /** The true anti-diagonal reflection, (r, c) to (n-1-c, n-1-r). */
  function AntiTransposed(n: nat, b: Board): Board {
    seq(n, x => if LastRow(b, n - 1 - x) < 0 then -1 else n - 1 - LastRow(b, n - 1 - x))
  }

  /** The eight boards the variant generator lists before removing repeats:
      the board, three successive quarter turns, the horizontal, vertical and
      diagonal reflections, and the "anti-diagonal" one as the solver computes it
      (diagonal after horizontal). */
  function RawVariants(n: nat, b: Board): seq<Board> {
    var r1 := Rotated(n, b);
    var r2 := Rotated(n, r1);
    var r3 := Rotated(n, r2);
    [b, r1, r2, r3, ReflectHorizontal(n, b), ReflectVertical(b), Transposed(n, b),
     Transposed(n, ReflectHorizontal(n, b))]
  }

  /** The variant list: the raw variants with repeats removed, first occurrence kept. */
  function Variants(n: nat, b: Board): seq<Board> {
    Dedup(RawVariants(n, b))
  }

  function VariantSet(n: nat, b: Board): set<Board> {
    set v | v in Variants(n, b)
  }

  /** Removing repeats loses no board: the variant set is the set of raw variants. */
  lemma VariantSetIsRaw(n: nat, b: Board)
    ensures forall x :: x in VariantSet(n, b) <==> x in RawVariants(n, b)
  {
    DedupFacts(RawVariants(n, b));
  }

  // ---------------------------------------------------------------------------
  // Each transform maps permutations to permutations

  lemma HorizontalPermutation(n: nat, b: Board)
    requires IsPermutation(n, b)
    ensures IsPermutation(n, ReflectHorizontal(n, b))
  {
  }

  lemma VerticalPermutation(n: nat, b: Board)
    requires IsPermutation(n, b)
    ensures IsPermutation(n, ReflectVertical(b))
  {
    var v := ReflectVertical(b);
    forall i, j | 0 <= i < j < n ensures v[i] != v[j] {
      assert v[i] == b[n - 1 - i] && v[j] == b[n - 1 - j];
    }
  }

  /** Transposing a permutation leaves no -1 behind and yields its inverse. */
  lemma TransposedPermutation(n: nat, b: Board)
    requires IsPermutation(n, b)
    ensures IsPermutation(n, Transposed(n, b))
    ensures forall c :: 0 <= c < n ==> b[Transposed(n, b)[c]] == c
    ensures forall i :: 0 <= i < n ==> Transposed(n, b)[b[i]] == i
  {
    var t := Transposed(n, b);
    forall c | 0 <= c < n ensures 0 <= t[c] < n && b[t[c]] == c {
      PermutationCovers(n, b, c);
    }
    forall i | 0 <= i < n ensures t[b[i]] == i {
      LastRowOfDistinct(b, i);
    }
  }

  // ---------------------------------------------------------------------------
  // Algebra of the transforms

  lemma HorizontalInvolution(n: int, b: Board)
    ensures ReflectHorizontal(n, ReflectHorizontal(n, b)) == b
  {
  }

  lemma VerticalInvolution(b: Board)
    ensures ReflectVertical(ReflectVertical(b)) == b
  {
  }

  lemma HorizontalVerticalCommute(n: int, b: Board)
    ensures ReflectHorizontal(n, ReflectVertical(b)) == ReflectVertical(ReflectHorizontal(n, b))
  {
  }

  lemma TransposeInvolution(n: nat, b: Board)
    requires IsPermutation(n, b)
    ensures Transposed(n, Transposed(n, b)) == b
  {
    var t := Transposed(n, b);
    TransposedPermutation(n, b);
    TransposedPermutation(n, t);
    forall i | 0 <= i < n ensures Transposed(n, t)[i] == b[i] {
      assert t[b[i]] == i;
      LastRowOfDistinct(t, b[i]);
    }
  }

  /** On a permutation, a quarter turn is transposition followed by horizontal reflection. */
  lemma RotatedIsHorizontalOfTransposed(n: nat, b: Board)
    requires IsPermutation(n, b)
    ensures Rotated(n, b) == ReflectHorizontal(n, Transposed(n, b))
  {
    TransposedPermutation(n, b);
  }

  lemma TransposeOfHorizontal(n: nat, b: Board)
    requires IsPermutation(n, b)
    ensures Transposed(n, ReflectHorizontal(n, b)) == ReflectVertical(Transposed(n, b))
  {
    var h := ReflectHorizontal(n, b);
    HorizontalPermutation(n, b);
    TransposedPermutation(n, b);
    forall x | 0 <= x < n ensures Transposed(n, h)[x] == ReflectVertical(Transposed(n, b))[x] {
      var r := Transposed(n, b)[n - 1 - x];
      assert h[r] == x;
      LastRowOfDistinct(h, r);
    }
  }

  lemma TransposeOfVertical(n: nat, b: Board)
    requires IsPermutation(n, b)
    ensures Transposed(n, ReflectVertical(b)) == ReflectHorizontal(n, Transposed(n, b))
  {
    var v := ReflectVertical(b);
    VerticalPermutation(n, b);
    TransposedPermutation(n, b);
    forall x | 0 <= x < n ensures Transposed(n, v)[x] == ReflectHorizontal(n, Transposed(n, b))[x] {
      var r := Transposed(n, b)[x];
      assert v[n - 1 - r] == x;
      LastRowOfDistinct(v, n - 1 - r);
    }
  }

  lemma RotatedPermutation(n: nat, b: Board)
    requires IsPermutation(n, b)
    ensures IsPermutation(n, Rotated(n, b))
  {
    RotatedIsHorizontalOfTransposed(n, b);
    TransposedPermutation(n, b);
    HorizontalPermutation(n, Transposed(n, b));
  }

  /** A half turn is the horizontal and the vertical reflection together. */
  lemma RotateTwice(n: nat, b: Board)
    requires IsPermutation(n, b)
    ensures Rotated(n, Rotated(n, b)) == ReflectHorizontal(n, ReflectVertical(b))
  {
    var t := Transposed(n, b);
    TransposedPermutation(n, b);
    RotatedIsHorizontalOfTransposed(n, b);
    RotatedPermutation(n, b);
    RotatedIsHorizontalOfTransposed(n, Rotated(n, b));
    TransposeOfHorizontal(n, t);
    TransposeInvolution(n, b);
  }

  /** Four quarter turns give back the original board. */
  lemma RotateFour(n: nat, b: Board)
    requires IsPermutation(n, b)
    ensures Rotated(n, Rotated(n, Rotated(n, Rotated(n, b)))) == b
  {
    var r2 := Rotated(n, Rotated(n, b));
    RotateTwice(n, b);
    RotatedPermutation(n, b);
    RotatedPermutation(n, Rotated(n, b));
    RotateTwice(n, r2);
    var v := ReflectVertical(b);
    VerticalInvolution(b);
    HorizontalVerticalCommute(n, ReflectHorizontal(n, v));
    HorizontalInvolution(n, ReflectVertical(ReflectHorizontal(n, v)));
    calc {
      Rotated(n, Rotated(n, r2));
      ReflectHorizontal(n, ReflectVertical(ReflectHorizontal(n, v)));
      { HorizontalVerticalCommute(n, v); }
      ReflectHorizontal(n, ReflectHorizontal(n, ReflectVertical(v)));
      { HorizontalInvolution(n, ReflectVertical(v)); }
      ReflectVertical(v);
      b;
    }
  }

  /** The solver's "anti-diagonal" reflection is three quarter turns. */
  lemma AntiDiagonalIsRotateThree(n: nat, b: Board)
    requires IsPermutation(n, b)
    ensures Transposed(n, ReflectHorizontal(n, b)) == Rotated(n, Rotated(n, Rotated(n, b)))
  {
    var t := Transposed(n, b);
    TransposedPermutation(n, b);
    RotatedPermutation(n, b);
    RotateTwice(n, Rotated(n, b));
    RotatedIsHorizontalOfTransposed(n, b);
    HorizontalVerticalCommute(n, t);
    HorizontalPermutation(n, t);
    VerticalPermutation(n, t);
    HorizontalInvolution(n, ReflectVertical(t));
    TransposeOfHorizontal(n, b);
  }

  // ---------------------------------------------------------------------------
  // Each transform maps a solution to a solution

  lemma HorizontalSolution(n: nat, b: Board)
    requires IsSolution(n, b)
    ensures IsSolution(n, ReflectHorizontal(n, b))
  {
    var h := ReflectHorizontal(n, b);
    forall i, j | 0 <= i < j < n ensures !Attacks(i, h[i], j, h[j]) {
      assert !Attacks(i, b[i], j, b[j]);
    }
  }

  lemma VerticalSolution(n: nat, b: Board)
    requires IsSolution(n, b)
    ensures IsSolution(n, ReflectVertical(b))
  {
    var v := ReflectVertical(b);
    forall i, j | 0 <= i < j < n ensures !Attacks(i, v[i], j, v[j]) {
      assert !Attacks(n - 1 - j, b[n - 1 - j], n - 1 - i, b[n - 1 - i]);
    }
  }

  lemma TransposedSolution(n: nat, b: Board)
    requires IsSolution(n, b)
    ensures IsSolution(n, Transposed(n, b))
  {
    SolutionIsPermutation(n, b);
    TransposedPermutation(n, b);
    var t := Transposed(n, b);
    forall i, j | 0 <= i < j < n ensures !Attacks(i, t[i], j, t[j]) {
      assert b[t[i]] == i && b[t[j]] == j;
      if t[i] < t[j] {
        assert !Attacks(t[i], b[t[i]], t[j], b[t[j]]);
      } else {
        assert !Attacks(t[j], b[t[j]], t[i], b[t[i]]);
      }
    }
  }

  lemma RotatedSolution(n: nat, b: Board)
    requires IsSolution(n, b)
    ensures IsSolution(n, Rotated(n, b))
  {
    SolutionIsPermutation(n, b);
    RotatedIsHorizontalOfTransposed(n, b);
    TransposedSolution(n, b);
    HorizontalSolution(n, Transposed(n, b));
  }

  // ---------------------------------------------------------------------------
  // The variant list

  lemma RawVariantsPermutations(n: nat, b: Board)
    requires IsPermutation(n, b)
    ensures forall v :: v in RawVariants(n, b) ==> IsPermutation(n, v)
  {
    RotatedPermutation(n, b);
    RotatedPermutation(n, Rotated(n, b));
    RotatedPermutation(n, Rotated(n, Rotated(n, b)));
    HorizontalPermutation(n, b);
    VerticalPermutation(n, b);
    TransposedPermutation(n, b);
    TransposedPermutation(n, ReflectHorizontal(n, b));
  }

  lemma RawVariantsSolutions(n: nat, b: Board)
    requires IsSolution(n, b)
    ensures forall v :: v in RawVariants(n, b) ==> IsSolution(n, v)
  {
    RotatedSolution(n, b);
    RotatedSolution(n, Rotated(n, b));
    RotatedSolution(n, Rotated(n, Rotated(n, b)));
    HorizontalSolution(n, b);
    VerticalSolution(n, b);
    TransposedSolution(n, b);
    TransposedSolution(n, ReflectHorizontal(n, b));
  }

  /** The variant list of a permutation starts with the board itself, has no
      repeats, has at most 7 entries (the last raw variant repeats the fourth),
      and holds only permutations; for a solution it holds only solutions. */
  lemma VariantsFacts(n: nat, b: Board)
    requires IsPermutation(n, b)
    ensures Variants(n, b)[0] == b
    ensures NoDuplicates(Variants(n, b))
    ensures |Variants(n, b)| <= 7
    ensures forall v :: v in Variants(n, b) ==> IsPermutation(n, v)
    ensures IsSolution(n, b) ==> forall v :: v in Variants(n, b) ==> IsSolution(n, v)
  {
    var raw := RawVariants(n, b);
    AntiDiagonalIsRotateThree(n, b);
    assert raw[7] == raw[3];
    assert raw[..7][..6] == raw[..6];
    assert raw[..7] == raw[..8][..7];
    assert raw[..8] == raw;
    DedupFacts(raw);
    DedupFacts(raw[..7]);
    assert raw[7] in Dedup(raw[..7]) by {
      assert raw[3] in raw[..7];
    }
    assert Dedup(raw) == Dedup(raw[..7]);
    RawVariantsPermutations(n, b);
    if IsSolution(n, b) {
      RawVariantsSolutions(n, b);
    }
  }

  /** The board and its two axis reflections are always listed. */
  lemma InOwnVariants(n: nat, b: Board)
    ensures b in VariantSet(n, b)
    ensures ReflectHorizontal(n, b) in VariantSet(n, b)
    ensures ReflectVertical(b) in VariantSet(n, b)
  {
    VariantSetIsRaw(n, b);
    var raw := RawVariants(n, b);
    assert raw[0] == b && raw[4] == ReflectHorizontal(n, b) && raw[5] == ReflectVertical(b);
    assert b in raw && ReflectHorizontal(n, b) in raw && ReflectVertical(b) in raw;
  }

  // ---------------------------------------------------------------------------
  // The missing anti-transpose

  /** The anti-transpose is the vertical reflection of a quarter turn, and a
      quarter turn of the anti-transpose is the vertical reflection of the board:
      so a board and its anti-transpose always share a listed variant. */
  lemma AntiTransposedSharesVariant(n: nat, b: Board)
    requires IsPermutation(n, b)
    ensures AntiTransposed(n, b) == ReflectVertical(Rotated(n, b))
    ensures Rotated(n, AntiTransposed(n, b)) == ReflectVertical(b)
    ensures ReflectVertical(b) in VariantSet(n, b) * VariantSet(n, AntiTransposed(n, b))
  {
    var a := AntiTransposed(n, b);
    TransposedPermutation(n, b);
    RotatedIsHorizontalOfTransposed(n, b);
    assert a == ReflectVertical(Rotated(n, b));
    var t := Transposed(n, b);
    RotatedPermutation(n, b);
    VerticalPermutation(n, Rotated(n, b));
    RotatedIsHorizontalOfTransposed(n, a);
    // a == V(H(D b)), so D a == D(V(H(D b))) == H(D(H(D b))) == H(V(D(D b))) == H(V b)
    HorizontalPermutation(n, t);
    TransposeOfVertical(n, ReflectHorizontal(n, t));
    TransposeOfHorizontal(n, t);
    TransposeInvolution(n, b);
    HorizontalInvolution(n, ReflectVertical(b));
    assert Rotated(n, a) == ReflectVertical(b);
    VariantSetIsRaw(n, b);
    VariantSetIsRaw(n, a);
    assert ReflectVertical(b) in RawVariants(n, b);
    assert Rotated(n, a) in RawVariants(n, a);
  }

  // ---------------------------------------------------------------------------
  // The dihedral group acting on permutation boards

  /** A symmetry of the square written H^h . V^v . D^d: first transpose when d,
      then reflect vertically when v, then horizontally when h. */
  datatype Sym = Sym(h: bool, v: bool, d: bool)

  function Reflect(n: int, h: bool, v: bool, b: Board): Board {
    var u := if v then ReflectVertical(b) else b;
    if h then ReflectHorizontal(n, u) else u
  }

  function Apply(n: nat, g: Sym, b: Board): Board {
    Reflect(n, g.h, g.v, if g.d then Transposed(n, b) else b)
  }

  /** The symmetry Apply(g1) after Apply(g2). */
  function Compose(g1: Sym, g2: Sym): Sym {
    if g1.d then Sym(g1.h != g2.v, g1.v != g2.h, !g2.d)
    else Sym(g1.h != g2.h, g1.v != g2.v, g2.d)
  }

  function Inverse(g: Sym): Sym {
    if g.d then Sym(g.v, g.h, true) else g
  }

  /** x is the image of b under one of the eight symmetries. */
  ghost predicate InOrbit(n: nat, x: Board, b: Board) {
    exists g: Sym :: x == Apply(n, g, b)
  }

  lemma ReflectPermutation(n: nat, h: bool, v: bool, b: Board)
    requires IsPermutation(n, b)
    ensures IsPermutation(n, Reflect(n, h, v, b))
  {
    VerticalPermutation(n, b);
    HorizontalPermutation(n, b);
    HorizontalPermutation(n, ReflectVertical(b));
  }

  lemma ApplyPermutation(n: nat, g: Sym, b: Board)
    requires IsPermutation(n, b)
    ensures IsPermutation(n, Apply(n, g, b))
  {
    TransposedPermutation(n, b);
    ReflectPermutation(n, g.h, g.v, if g.d then Transposed(n, b) else b);
  }

  lemma ReflectCompose(n: int, h1: bool, v1: bool, h2: bool, v2: bool, b: Board)
    ensures Reflect(n, h1, v1, Reflect(n, h2, v2, b)) == Reflect(n, h1 != h2, v1 != v2, b)
  {
    var u := if v2 then ReflectVertical(b) else b;
    HorizontalVerticalCommute(n, u);
    HorizontalInvolution(n, u);
    HorizontalInvolution(n, ReflectVertical(u));
    VerticalInvolution(b);
    HorizontalVerticalCommute(n, b);
    HorizontalVerticalCommute(n, ReflectHorizontal(n, b));
    HorizontalInvolution(n, b);
    HorizontalInvolution(n, ReflectVertical(b));
  }

  /** Transposition moves to the right across the reflections, swapping them. */
  lemma TransposeReflect(n: nat, h: bool, v: bool, b: Board)
    requires IsPermutation(n, b)
    ensures Transposed(n, Reflect(n, h, v, b)) == Reflect(n, v, h, Transposed(n, b))
  {
    var u := if v then ReflectVertical(b) else b;
    VerticalPermutation(n, b);
    TransposeOfVertical(n, b);
    TransposedPermutation(n, b);
    if h {
      TransposeOfHorizontal(n, u);
      HorizontalVerticalCommute(n, Transposed(n, b));
    }
  }

  lemma ApplyCompose(n: nat, g1: Sym, g2: Sym, b: Board)
    requires IsPermutation(n, b)
    ensures Apply(n, g1, Apply(n, g2, b)) == Apply(n, Compose(g1, g2), b)
  {
    var t := if g2.d then Transposed(n, b) else b;
    TransposedPermutation(n, b);
    if g1.d {
      TransposeReflect(n, g2.h, g2.v, t);
      TransposeInvolution(n, b);
      var t' := Transposed(n, t);
      assert t' == if !g2.d then Transposed(n, b) else b;
      ReflectCompose(n, g1.h, g1.v, g2.v, g2.h, t');
    } else {
      ReflectCompose(n, g1.h, g1.v, g2.h, g2.v, t);
    }
  }

  lemma ApplyInverse(n: nat, g: Sym, b: Board)
    requires IsPermutation(n, b)
    ensures Apply(n, Inverse(g), Apply(n, g, b)) == b
  {
    ApplyCompose(n, Inverse(g), g, b);
    assert Compose(Inverse(g), g) == Sym(false, false, false);
  }

  /** Each raw variant of a permutation is the image of the board under one of
      the seven symmetries other than the anti-transpose. */
  lemma RawAsImages(n: nat, b: Board)
    requires IsPermutation(n, b)
    ensures RawVariants(n, b)[0] == Apply(n, Sym(false, false, false), b)
    ensures RawVariants(n, b)[1] == Apply(n, Sym(true, false, true), b)
    ensures RawVariants(n, b)[2] == Apply(n, Sym(true, true, false), b)
    ensures RawVariants(n, b)[3] == Apply(n, Sym(false, true, true), b)
    ensures RawVariants(n, b)[4] == Apply(n, Sym(true, false, false), b)
    ensures RawVariants(n, b)[5] == Apply(n, Sym(false, true, false), b)
    ensures RawVariants(n, b)[6] == Apply(n, Sym(false, false, true), b)
    ensures RawVariants(n, b)[7] == Apply(n, Sym(false, true, true), b)
  {
    var raw := RawVariants(n, b);
    var t := Transposed(n, b);
    assert raw[1] == ReflectHorizontal(n, t) by {
      RotatedIsHorizontalOfTransposed(n, b);
    }
    assert raw[2] == ReflectHorizontal(n, ReflectVertical(b)) by {
      RotateTwice(n, b);
    }
    assert raw[7] == ReflectVertical(t) by {
      TransposeOfHorizontal(n, b);
    }
    assert raw[3] == raw[7] by {
      AntiDiagonalIsRotateThree(n, b);
    }
  }

  lemma ImageIsRaw(n: nat, b: Board, g: Sym)
    requires IsPermutation(n, b) && g != Sym(true, true, true)
    ensures Apply(n, g, b) in RawVariants(n, b)
  {
    RawAsImages(n, b);
    var raw := RawVariants(n, b);
    if g.d {
      if g.h { assert Apply(n, g, b) == raw[1]; }
      else if g.v { assert Apply(n, g, b) == raw[3]; }
      else { assert Apply(n, g, b) == raw[6]; }
    } else {
      if g.h && g.v { assert Apply(n, g, b) == raw[2]; }
      else if g.h { assert Apply(n, g, b) == raw[4]; }
      else if g.v { assert Apply(n, g, b) == raw[5]; }
      else { assert Apply(n, g, b) == raw[0]; }
    }
  }

  lemma RawIsImage(n: nat, b: Board, x: Board)
    requires IsPermutation(n, b) && x in RawVariants(n, b)
    ensures InOrbit(n, x, b)
  {
    RawAsImages(n, b);
    var raw := RawVariants(n, b);
    var i :| 0 <= i < 8 && raw[i] == x;
    if i == 0 { assert x == Apply(n, Sym(false, false, false), b); }
    else if i == 1 { assert x == Apply(n, Sym(true, false, true), b); }
    else if i == 2 { assert x == Apply(n, Sym(true, true, false), b); }
    else if i == 3 || i == 7 { assert x == Apply(n, Sym(false, true, true), b); }
    else if i == 4 { assert x == Apply(n, Sym(true, false, false), b); }
    else if i == 5 { assert x == Apply(n, Sym(false, true, false), b); }
    else { assert x == Apply(n, Sym(false, false, true), b); }
  }

  /** The one symmetry the variant list misses is the anti-transpose. */
  lemma ApplyAntiTransposed(n: nat, b: Board)
    requires IsPermutation(n, b)
    ensures Apply(n, Sym(true, true, true), b) == AntiTransposed(n, b)
  {
    AntiTransposedSharesVariant(n, b);
    RotatedIsHorizontalOfTransposed(n, b);
    HorizontalVerticalCommute(n, Transposed(n, b));
  }

  /** The listed variants are the images of seven of the eight symmetries;
      the eighth, H.V.D, is the anti-transpose. */
  lemma VariantsAreImages(n: nat, b: Board)
    requires IsPermutation(n, b)
    ensures forall g: Sym :: g != Sym(true, true, true) ==> Apply(n, g, b) in VariantSet(n, b)
    ensures Apply(n, Sym(true, true, true), b) == AntiTransposed(n, b)
    ensures forall x :: x in VariantSet(n, b) ==> InOrbit(n, x, b)
  {
    ApplyAntiTransposed(n, b);
    VariantSetIsRaw(n, b);
    forall g: Sym | g != Sym(true, true, true) ensures Apply(n, g, b) in VariantSet(n, b) {
      ImageIsRaw(n, b, g);
    }
    forall x | x in VariantSet(n, b) ensures InOrbit(n, x, b) {
      RawIsImage(n, b, x);
    }
  }

  /** Two permutation boards share a listed variant exactly when they lie in the
      same orbit: the missing anti-transpose does not split any orbit. */
  lemma SharingIffSameOrbit(n: nat, a: Board, b: Board)
    requires IsPermutation(n, a) && IsPermutation(n, b)
    ensures !(VariantSet(n, a) !! VariantSet(n, b)) <==> InOrbit(n, a, b)
  {
    if !(VariantSet(n, a) !! VariantSet(n, b)) {
      var x :| x in VariantSet(n, a) && x in VariantSet(n, b);
      VariantsAreImages(n, a);
      VariantsAreImages(n, b);
      var ga :| x == Apply(n, ga, a);
      var gb :| x == Apply(n, gb, b);
      ApplyInverse(n, ga, a);
      ApplyCompose(n, Inverse(ga), gb, b);
      assert a == Apply(n, Compose(Inverse(ga), gb), b);
    }
    if InOrbit(n, a, b) {
      var g :| a == Apply(n, g, b);
      InOwnVariants(n, a);
      VariantsAreImages(n, b);
      if g == Sym(true, true, true) {
        AntiTransposedSharesVariant(n, b);
        assert ReflectVertical(b) in VariantSet(n, a) * VariantSet(n, b);
      } else {
        assert a in VariantSet(n, a) * VariantSet(n, b);
      }
    }
  }
}
