/**
 * The first-seen-wins symmetry reduction as a specification: solutions are
 * scanned in order; a solution is kept when none of its variants has been
 * seen, and then all of its variants become seen.
 */
module Reduction {
  import opened Boards
  import opened Seqs
  import opened Symmetry

  /** The set of variant boards marked as seen after scanning sols. */
  function Seen(n: nat, sols: seq<Board>): set<Board> {
    if sols == [] then {}
    else
      var before := Seen(n, sols[..|sols| - 1]);
      var vs := VariantSet(n, sols[|sols| - 1]);
      if vs !! before then before + vs else before
  }

  /** The representatives kept after scanning sols. */
  function Kept(n: nat, sols: seq<Board>): seq<Board> {
    if sols == [] then []
    else
      var last := sols[|sols| - 1];
      var before := sols[..|sols| - 1];
      Kept(n, before) + (if VariantSet(n, last) !! Seen(n, before) then [last] else [])
  }

  /** The decision taken for sols[j]: none of its variants was seen before it. */
  predicate KeptAt(n: nat, sols: seq<Board>, j: nat)
    requires j < |sols|
  {
    VariantSet(n, sols[j]) !! Seen(n, sols[..j])
  }

  /** One step of the scan: sols[j] is appended exactly when it is kept at j. */
  lemma KeptStep(n: nat, sols: seq<Board>, j: nat)
    requires j < |sols|
    ensures Kept(n, sols[..j + 1]) == Kept(n, sols[..j]) + (if KeptAt(n, sols, j) then [sols[j]] else [])
    ensures Seen(n, sols[..j + 1]) == Seen(n, sols[..j]) + (if KeptAt(n, sols, j) then VariantSet(n, sols[j]) else {})
  {
    assert sols[..j + 1][..j] == sols[..j];
  }

  /** The same step, phrased over the seen set and the variant set the scan holds. */
  lemma ScanStep(n: nat, sols: seq<Board>, j: nat, seen: set<Board>, vs: set<Board>)
    requires j < |sols| && seen == Seen(n, sols[..j]) && vs == VariantSet(n, sols[j])
    ensures Seen(n, sols[..j + 1]) == if vs !! seen then seen + vs else seen
    ensures Kept(n, sols[..j + 1]) == Kept(n, sols[..j]) + if vs !! seen then [sols[j]] else []
  {
    KeptStep(n, sols, j);
  }

  /** Of two boards where the second is a listed variant of the first, only
      the first is kept. */
  lemma KeptPair(n: nat, a: Board, b: Board)
    requires b in VariantSet(n, a)
    ensures Kept(n, [a, b]) == [a]
  {
    var sols := [a, b];
    InOwnVariants(n, b);
    KeptStep(n, sols, 0);
    KeptStep(n, sols, 1);
    assert sols[..0] == [] && sols[..1] == [a] && sols[..2] == sols;
  }

  /** Some variant is already seen exactly when the two sets are not disjoint. */
  lemma AnySeen(vs: set<Board>, seen: set<Board>)
    ensures (exists v :: v in vs && v in seen) <==> !(vs !! seen)
  {
  }

  /** The seen set is exactly the union of the variant sets of the kept boards. */
  lemma {:induction false} SeenIsUnionOfKept(n: nat, sols: seq<Board>)
    ensures forall x :: x in Seen(n, sols) <==> exists k :: k in Kept(n, sols) && x in VariantSet(n, k)
    decreases |sols|
  {
    if sols != [] {
      SeenIsUnionOfKept(n, sols[..|sols| - 1]);
    }
  }

  /** The keep-or-skip decision taken for each scanned solution, in order. */
  function Decisions(n: nat, sols: seq<Board>): (m: seq<bool>)
    ensures |m| == |sols|
  {
    if sols == [] then []
    else
      var before := sols[..|sols| - 1];
      Decisions(n, before) + [VariantSet(n, sols[|sols| - 1]) !! Seen(n, before)]
  }

  lemma {:induction false} DecisionsAt(n: nat, sols: seq<Board>, j: nat)
    requires j < |sols|
    ensures Decisions(n, sols)[j] == KeptAt(n, sols, j)
    decreases |sols|
  {
    var before := sols[..|sols| - 1];
    if j < |before| {
      DecisionsAt(n, before, j);
      assert before[..j] == sols[..j];
    }
  }

  /** Kept is sols filtered by the scan's decisions: an order-preserving subsequence. */
  lemma {:induction false} KeptSelects(n: nat, sols: seq<Board>)
    ensures Kept(n, sols) == Select(sols, Decisions(n, sols))
    ensures IsSubsequence(Kept(n, sols), sols)
    decreases |sols|
  {
    if sols != [] {
      var before := sols[..|sols| - 1];
      KeptSelects(n, before);
      assert Decisions(n, sols)[..|sols| - 1] == Decisions(n, before);
    }
  }

  lemma {:induction false} KeptPrefix(n: nat, sols: seq<Board>, j: nat)
    requires j <= |sols|
    ensures Kept(n, sols[..j]) <= Kept(n, sols)
    decreases |sols| - j
  {
    if j < |sols| {
      KeptPrefix(n, sols, j + 1);
      KeptStep(n, sols, j);
      assert sols[..|sols|] == sols;
    } else {
      assert sols[..j] == sols;
    }
  }

  /** The first solution is always kept, as the first representative. */
  lemma KeptFirst(n: nat, sols: seq<Board>)
    requires |sols| > 0
    ensures |Kept(n, sols)| > 0 && Kept(n, sols)[0] == sols[0]
  {
    KeptStep(n, sols, 0);
    assert sols[..0] == [];
    KeptPrefix(n, sols, 1);
  }

  /** Any two kept representatives have disjoint variant sets. */
  lemma {:induction false} KeptDisjoint(n: nat, sols: seq<Board>)
    ensures forall i, j :: 0 <= i < j < |Kept(n, sols)| ==>
              VariantSet(n, Kept(n, sols)[i]) !! VariantSet(n, Kept(n, sols)[j])
    decreases |sols|
  {
    if sols != [] {
      var before := sols[..|sols| - 1];
      var last := sols[|sols| - 1];
      KeptDisjoint(n, before);
      SeenIsUnionOfKept(n, before);
      var k := Kept(n, sols);
      var kb := Kept(n, before);
      forall i, j | 0 <= i < j < |k| ensures VariantSet(n, k[i]) !! VariantSet(n, k[j]) {
        if j < |kb| {
          assert k[i] == kb[i] && k[j] == kb[j];
        } else {
          assert k[j] == last && k[i] == kb[i];
          assert k[i] in kb;
        }
      }
    }
  }

  /** A solution that is skipped shares a variant with a representative kept before it. */
  lemma SkippedShares(n: nat, sols: seq<Board>, j: nat)
    requires j < |sols| && !KeptAt(n, sols, j)
    ensures Kept(n, sols[..j + 1]) == Kept(n, sols[..j])
    ensures exists k :: k in Kept(n, sols[..j]) && !(VariantSet(n, sols[j]) !! VariantSet(n, k))
  {
    KeptStep(n, sols, j);
    SeenIsUnionOfKept(n, sols[..j]);
  }

  /** Every scanned solution shares a variant with some kept representative. */
  lemma EveryBoardRepresented(n: nat, sols: seq<Board>, j: nat)
    requires j < |sols|
    ensures exists k :: k in Kept(n, sols) && !(VariantSet(n, sols[j]) !! VariantSet(n, k))
  {
    KeptStep(n, sols, j);
    KeptPrefix(n, sols, j + 1);
    KeptPrefix(n, sols, j);
    InOwnVariants(n, sols[j]);
    if KeptAt(n, sols, j) {
      assert sols[j] in Kept(n, sols[..j + 1]);
    } else {
      SkippedShares(n, sols, j);
      var k :| k in Kept(n, sols[..j]) && !(VariantSet(n, sols[j]) !! VariantSet(n, k));
      assert k in Kept(n, sols);
    }
  }

  /** No kept representative lies in the orbit of another one under the full
      group of eight symmetries. */
  lemma KeptDistinctOrbits(n: nat, sols: seq<Board>)
    requires forall s :: s in sols ==> IsPermutation(n, s)
    ensures forall i, j :: 0 <= i < j < |Kept(n, sols)| ==>
              !InOrbit(n, Kept(n, sols)[j], Kept(n, sols)[i])
  {
    var k := Kept(n, sols);
    KeptDisjoint(n, sols);
    KeptSelects(n, sols);
    forall i, j | 0 <= i < j < |k| ensures !InOrbit(n, k[j], k[i]) {
      assert k[i] in sols && k[j] in sols;
      SharingIffSameOrbit(n, k[j], k[i]);
    }
  }

  /** Every scanned board lies in the orbit of some kept representative. */
  lemma EveryBoardInKeptOrbit(n: nat, sols: seq<Board>, j: nat)
    requires forall s :: s in sols ==> IsPermutation(n, s)
    requires j < |sols|
    ensures exists k :: k in Kept(n, sols) && InOrbit(n, sols[j], k)
  {
    EveryBoardRepresented(n, sols, j);
    KeptSelects(n, sols);
    var k :| k in Kept(n, sols) && !(VariantSet(n, sols[j]) !! VariantSet(n, k));
    SharingIffSameOrbit(n, sols[j], k);
  }

  /** The kept representatives pick exactly one board from the orbit of each
      scanned board. */
  lemma KeptOrbits(n: nat, sols: seq<Board>)
    requires forall s :: s in sols ==> IsPermutation(n, s)
    ensures forall i, j :: 0 <= i < j < |Kept(n, sols)| ==>
              !InOrbit(n, Kept(n, sols)[j], Kept(n, sols)[i])
    ensures forall b :: b in sols ==> exists k :: k in Kept(n, sols) && InOrbit(n, b, k)
  {
    KeptDistinctOrbits(n, sols);
    forall b | b in sols ensures exists k :: k in Kept(n, sols) && InOrbit(n, b, k) {
      var j :| 0 <= j < |sols| && sols[j] == b;
      EveryBoardInKeptOrbit(n, sols, j);
    }
  }
}
