/** The preprocessing chain on the CPU, and what its result is worth. */
module Preprocess {
  import opened Gf2
  import opened SparseRows
  import opened Reduction
  import opened Passes
  import opened CsrMatrix
  import opened MergeTrees
  import opened MergeState
  import opened PairMerges
  import opened Relations
  import opened ExpandedMatrix
  import opened PerfectSquares
  import Singletons
  import WeightTwo
  import HigherWeight

  datatype PreprocessResult = PreprocessResult(
    reduced: Csr,
    rowMap: seq<nat>,
    tree: MergeTree,
    singletonsRemoved: nat,
    singletonIterations: nat,
    w2Merges: nat,
    hwMerges: nat)
  {
    ghost predicate Valid() {
      && reduced.Valid()
      && tree.Valid()
      && |rowMap| == reduced.nRows
      && forall j :: 0 <= j < |rowMap| ==> tree.Has(rowMap[j])
    }
  }

  /** The matrices between the passes, and the record of what each pass did. */
  datatype Stages = Stages(
    singles: Singletons.SingletonResult,
    merged: Csr,
    w2Cols: seq<nat>,
    w2Combos: seq<set<nat>>,
    pairs: seq<Pair>,
    hwCols: seq<nat>,
    hwRows: seq<nat>,
    rounds: seq<HigherWeight.RoundRun>,
    first: State,
    last: State)

  /** Each pass was carried out to its end: the passes of singleton removal, an exhaustive run of
      pair merges, and one round for every weight from three to `kMax`. */
  ghost predicate StagesOk(expanded: Csr, g: Stages, result: PreprocessResult, kMax: nat,
                           maxWeight: nat)
    requires expanded.Shaped() && g.singles.reduced.Shaped() && g.merged.Shaped()
    requires result.reduced.Shaped()
  {
    var cap := HigherWeight.EffectiveMax(maxWeight, |g.merged.colIndices|, g.merged.nRows);
    && Singletons.Outcome(expanded, g.singles)
    && WeightTwo.Outcome(g.singles.reduced, g.merged, g.w2Cols, g.w2Combos, g.pairs)
    && HigherWeight.Outcome(g.merged, result.reduced, g.hwCols, g.hwRows, g.rounds, g.first,
                            g.last, kMax, cap)
    && result.singletonIterations == g.singles.iterations
    && result.singletonsRemoved == expanded.nRows - g.singles.reduced.nRows
    && result.w2Merges == |g.pairs| == g.singles.reduced.nRows - g.merged.nRows
    && result.hwMerges == g.merged.nRows - result.reduced.nRows
    && (result.hwMerges == 0 ==> HigherWeight.NothingEliminable(g.merged, kMax, cap))
  }

  /** Singleton removal, then weight-two merges, then higher-weight merges.  The labels of the
      merge tree alone say how the reduced matrix arose from the expanded one. */
  method PreprocessMatrix(expanded: Csr, kMax: nat, maxWeight: nat)
    returns (result: PreprocessResult, ghost colMap: seq<nat>, ghost stages: Stages)
    requires expanded.Valid()
    ensures result.Valid()
    ensures stages.singles.reduced.Shaped() && stages.merged.Shaped()
    ensures StagesOk(expanded, stages, result, kMax, maxWeight)
    ensures ReducedFrom(expanded.Vectors(), result.reduced.Vectors(), colMap,
                        Labels(result.tree, result.rowMap))
    ensures |colMap| == result.reduced.nCols
    ensures expanded.nRows == result.reduced.nRows + result.singletonsRemoved
                              + result.w2Merges + result.hwMerges
  {
    hide Singletons.Outcome, WeightTwo.Outcome, HigherWeight.Outcome, ReducedFrom,
      HigherWeight.NothingEliminable, HigherWeight.EffectiveMax, HigherWeight.Used;
    var sr := Singletons.RemoveSingletons(expanded);
    var w2, hw;
    ghost var map2, combos2, pairs, map3, combos3, origin, gone, rounds, first, last;
    w2, map2, combos2, pairs := WeightTwo.MergeWeight2(sr.reduced, sr.rowMap);
    ComposePasses(expanded.Vectors(), sr.reduced.Vectors(), w2.reduced.Vectors(),
                  sr.colMap, Singles(sr.rowMap), map2, combos2);
    ghost var map12 := ComposeMaps(sr.colMap, map2);
    hw, map3, combos3, origin, gone, rounds, first, last :=
      HigherWeight.MergeHigherWeight(w2, kMax, maxWeight);
    ComposePasses(expanded.Vectors(), w2.reduced.Vectors(), hw.reduced.Vectors(),
                  map12, w2.RowLabels(), map3, combos3);
    colMap := ComposeMaps(map12, map3);
    stages := Stages(sr, w2.reduced, map2, combos2, pairs, map3, origin, rounds, first, last);
    result := PreprocessResult(hw.reduced, hw.rowMap, hw.tree, sr.rowsRemoved, sr.iterations,
                               w2.mergesPerformed, hw.mergesPerformed);
  }

  // ---------------------------------------------------------------------------
  // From a solution of the reduced matrix to a square
  // ---------------------------------------------------------------------------

  /** The signed values of all relations, smooth ones first. */
  ghost function RelationValues(smooths: Batch, partials: Batch, fb: seq<nat>): (v: seq<int>)
    requires BatchOk(smooths, |fb|) && BatchOk(partials, |fb|)
    requires ExponentsOk(smooths, partials)
    ensures |v| == smooths.numRelations + partials.numRelations
    ensures forall r :: 0 <= r < |v| ==> v[r] == ValueOf(smooths, partials, fb, r)
  {
    seq(smooths.numRelations + partials.numRelations,
        r requires 0 <= r < smooths.numRelations + partials.numRelations =>
          ValueOf(smooths, partials, fb, r))
  }

  ghost predicate ExponentsOk(smooths: Batch, partials: Batch)
    requires smooths.Valid() && partials.Valid()
  {
    forall r :: 0 <= r < smooths.numRelations + partials.numRelations ==>
      RelationOf(smooths, partials, r).val2 >= 0
  }

  ghost function LargePrimeOf(smooths: Batch, partials: Batch, r: nat): nat
    requires smooths.Valid() && partials.Valid()
    requires r < smooths.numRelations + partials.numRelations
  {
    if r < smooths.numRelations then 1 else partials.largePrimes[r - smooths.numRelations]
  }

  ghost function ValueOf(smooths: Batch, partials: Batch, fb: seq<nat>, r: nat): int
    requires BatchOk(smooths, |fb|) && BatchOk(partials, |fb|)
    requires ExponentsOk(smooths, partials)
    requires r < smooths.numRelations + partials.numRelations
  {
    RelationFactors(smooths, partials, |fb|, r);
    Value(RelationOf(smooths, partials, r), fb, LargePrimeOf(smooths, partials, r))
  }

  lemma RelationFactors(smooths: Batch, partials: Batch, fbSize: nat, r: nat)
    requires BatchOk(smooths, fbSize) && BatchOk(partials, fbSize)
    requires r < smooths.numRelations + partials.numRelations
    ensures FactorsOk(RelationOf(smooths, partials, r).factors, fbSize)
  {
    if r < smooths.numRelations {
      assert RelationFactorsOk(smooths, r, fbSize);
    } else {
      assert RelationFactorsOk(partials, r - smooths.numRelations, fbSize);
    }
  }

  /** Every row of the parity matrix accounts for its relation up to a square. */
  lemma RowsAccount(smooths: Batch, partials: Batch, fb: seq<nat>, lpColMap: map<nat, nat>,
                    lps: seq<nat>, r: nat)
    requires Prepared(smooths, partials, lpColMap, |fb|, lps)
    requires ExponentsOk(smooths, partials)
    requires r < smooths.numRelations + partials.numRelations
    ensures SquareOff(ColumnValues(fb, lps), ParityRows(smooths, partials, lpColMap)[r],
                      RelationValues(smooths, partials, fb)[r])
  {
    RelationFactors(smooths, partials, |fb|, r);
    var s := RowSquare(RelationOf(smooths, partials, r), LpOf(smooths, partials, lpColMap, r),
                       fb, lps, LargePrimeOf(smooths, partials, r));
  }

  /** The signed values of relations whose rows cancel multiply to a square. */
  lemma DependencyHasRoot(smooths: Batch, partials: Batch, fb: seq<nat>,
                          lpColMap: map<nat, nat>, lps: seq<nat>, relations: seq<nat>)
    returns (root: int)
    requires Prepared(smooths, partials, lpColMap, |fb|, lps)
    requires ExponentsOk(smooths, partials) && Increasing(relations)
    requires var rows := ParityRows(smooths, partials, lpColMap);
             Kernel(rows, Below(|rows|), Cols(relations))
    ensures forall k :: 0 <= k < |relations| ==>
              relations[k] < smooths.numRelations + partials.numRelations
    ensures Product(RelationValues(smooths, partials, fb), relations) == root * root
  {
    var rows := ParityRows(smooths, partials, lpColMap);
    forall r | 0 <= r < |rows|
      ensures SquareOff(ColumnValues(fb, lps), rows[r], RelationValues(smooths, partials, fb)[r])
    {
      RowsAccount(smooths, partials, fb, lpColMap, lps, r);
    }
    root := DependencyIsSquare(ColumnValues(fb, lps), rows,
                               RelationValues(smooths, partials, fb), relations);
  }

  /** A solution of the reduced matrix, expanded, is a set of relations whose signed values
      multiply to a square; a nonempty solution gives a nonempty set. */
  lemma SolutionIsSquare(smooths: Batch, partials: Batch, fb: seq<nat>,
                         lpColMap: map<nat, nat>, lps: seq<nat>,
                         reduced: seq<set<nat>>, colMap: seq<nat>, labels: seq<set<nat>>,
                         y: set<nat>, relations: seq<nat>) returns (root: int)
    requires Prepared(smooths, partials, lpColMap, |fb|, lps)
    requires ExponentsOk(smooths, partials)
    requires ReducedFrom(ParityRows(smooths, partials, lpColMap), reduced, colMap, labels)
    requires Kernel(reduced, Below(|reduced|), y)
    requires Increasing(relations) && Cols(relations) == Comb(labels, y)
    ensures forall k :: 0 <= k < |relations| ==>
              relations[k] < smooths.numRelations + partials.numRelations
    ensures Product(RelationValues(smooths, partials, fb), relations) == root * root
    ensures y != {} ==> relations != []
  {
    var rows := ParityRows(smooths, partials, lpColMap);
    PassKernel(rows, reduced, colMap, labels, y);
    root := DependencyHasRoot(smooths, partials, fb, lpColMap, lps, relations);
    if relations == [] {
      assert Cols(relations) == {};
      assert y == {};
    }
  }

  /** If moreover every relation's root squares to its value modulo `n`, a solution gives two
      integers whose squares are congruent modulo `n`. */
  lemma SolutionIsCongruence(smooths: Batch, partials: Batch, fb: seq<nat>,
                             lpColMap: map<nat, nat>, lps: seq<nat>,
                             reduced: seq<set<nat>>, colMap: seq<nat>, labels: seq<set<nat>>,
                             y: set<nat>, relations: seq<nat>, roots: seq<int>, n: int)
    returns (x: int, root: int)
    requires Prepared(smooths, partials, lpColMap, |fb|, lps)
    requires ExponentsOk(smooths, partials)
    requires ReducedFrom(ParityRows(smooths, partials, lpColMap), reduced, colMap, labels)
    requires Kernel(reduced, Below(|reduced|), y)
    requires Increasing(relations) && Cols(relations) == Comb(labels, y)
    requires |roots| == smooths.numRelations + partials.numRelations
    requires forall r :: 0 <= r < |roots| ==>
               Congruent(roots[r] * roots[r], RelationValues(smooths, partials, fb)[r], n)
    ensures forall k :: 0 <= k < |relations| ==> relations[k] < |roots|
    ensures x == Product(roots, relations)
    ensures Congruent(x * x, root * root, n)
  {
    root := SolutionIsSquare(smooths, partials, fb, lpColMap, lps, reduced, colMap, labels, y,
                             relations);
    x := Product(roots, relations);
    ProductCongruence(n, roots, RelationValues(smooths, partials, fb), relations);
  }

  /** Nothing is lost: every set of relations whose rows cancel comes from exactly one
      solution of the reduced matrix. */
  lemma EveryDependencyIsFound(expanded: Csr, result: PreprocessResult, colMap: seq<nat>,
                               x: set<nat>)
    requires expanded.Valid() && result.Valid()
    requires ReducedFrom(expanded.Vectors(), result.reduced.Vectors(), colMap,
                         Labels(result.tree, result.rowMap))
    requires Kernel(expanded.Vectors(), Below(expanded.nRows), x)
    ensures exists y ::
              && Kernel(result.reduced.Vectors(), Below(result.reduced.nRows), y)
              && Comb(Labels(result.tree, result.rowMap), y) == x
              && forall z | z <= Below(result.reduced.nRows)
                            && Comb(Labels(result.tree, result.rowMap), z) == x :: z == y
  {
    PassBijection(expanded.Vectors(), result.reduced.Vectors(), colMap,
                  Labels(result.tree, result.rowMap), x);
  }
}
