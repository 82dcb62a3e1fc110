/** The whole way from relations to a square: expanded matrix, reduction, truncation, character
    columns, a solution of the resulting matrix, and its expansion. */
module ExpandedPath {
  import opened Gf2
  import opened SparseRows
  import opened Reduction
  import opened Passes
  import opened CsrMatrix
  import opened MergeTrees
  import opened Relations
  import opened ExpandedMatrix
  import opened PerfectSquares
  import opened Preprocess
  import opened CharacterColumns
  import opened Truncation

  // ---------------------------------------------------------------------------
  // What a solution of the final matrix means
  // ---------------------------------------------------------------------------

  /** A selection of the rows of `m` cancels exactly when the relations it expands to cancel in
      the original matrix and so do their character vectors; different selections expand to
      different sets of relations. */
  ghost predicate Faithful(rows: seq<set<nat>>, m: seq<set<nat>>, labels: seq<set<nat>>,
                        chars: seq<set<nat>>)
  {
    && |labels| == |m|
    && Independent(labels, Below(|m|))
    && forall y :: y <= Below(|m|) ==>
         (Kernel(m, Below(|m|), y) <==> Cancels(rows, chars, Comb(labels, y)))
  }

  ghost predicate Cancels(rows: seq<set<nat>>, chars: seq<set<nat>>, x: set<nat>) {
    Kernel(rows, Below(|rows|), x) && Comb(chars, x) == {}
  }

  lemma ReducedIsFaithful(rows: seq<set<nat>>, m: seq<set<nat>>, colMap: seq<nat>,
                       labels: seq<set<nat>>)
    requires ReducedFrom(rows, m, colMap, labels)
    ensures Faithful(rows, m, labels, [])
  {
    hide Comb;
    forall y | y <= Below(|m|)
      ensures Kernel(m, Below(|m|), y) <==> Cancels(rows, [], Comb(labels, y))
    {
      PassKernel(rows, m, colMap, labels, y);
      NoChars(Comb(labels, y));
    }
  }

  lemma NoChars(x: set<nat>)
    ensures Comb([], x) == {}
  {
  }

  lemma KeptIndependent(labels: seq<set<nat>>, kept: seq<nat>)
    requires Independent(labels, Below(|labels|)) && Increasing(kept)
    requires forall j :: 0 <= j < |kept| ==> kept[j] < |labels|
    ensures Independent(Pick(labels, kept), Below(|kept|))
  {
    hide Comb, Increasing, Rename;
    forall y | y <= Below(|kept|) && Comb(Pick(labels, kept), y) == {} ensures y == {} {
      CombPick(labels, kept, y);
      RenameWithin(kept, y, |labels|);
      assert Rename(kept, y) == {};
    }
  }

  lemma RenameWithin(kept: seq<nat>, y: set<nat>, n: nat)
    requires y <= Below(|kept|) && forall j :: 0 <= j < |kept| ==> kept[j] < n
    ensures Rename(kept, y) <= Below(n)
    ensures Rename(kept, y) == {} ==> y == {}
  {
    if j :| j in y {
      assert kept[j] in Rename(kept, y);
    }
  }

  /** Dropping rows keeps the meaning of what is left. */
  lemma TruncatedIsFaithful(rows: seq<set<nat>>, input: Csr, output: Csr, labels: seq<set<nat>>,
                         kept: seq<nat>, colMap: seq<nat>)
    requires input.Valid() && output.Valid() && RowsKept(input, output, kept, colMap)
    requires Faithful(rows, input.Vectors(), labels, [])
    ensures |kept| == output.nRows && forall j :: 0 <= j < |kept| ==> kept[j] < |labels|
    ensures Faithful(rows, output.Vectors(), Pick(labels, kept), [])
  {
    var labels' := Pick(labels, kept);
    KeptIndependent(labels, kept);
    forall y | y <= Below(output.nRows)
      ensures Kernel(output.Vectors(), Below(output.nRows), y)
              <==> Cancels(rows, [], Comb(labels', y))
    {
      hide Comb, Cancels, Kernel, Rename, Increasing;
      TruncatedKernel(input, output, kept, colMap, y);
      CombPick(labels, kept, y);
      RenameWithin(kept, y, input.nRows);
    }
  }

  /** Character columns add that the character vectors cancel. */
  lemma AugmentedIsFaithful(rows: seq<set<nat>>, m: seq<set<nat>>, m': seq<set<nat>>,
                         bits: seq<set<nat>>, base: nat, labels: seq<set<nat>>,
                         chars: seq<set<nat>>)
    requires Faithful(rows, m, labels, []) && Augmented(m, m', bits, base)
    requires forall r :: 0 <= r < |m| ==> bits[r] == Comb(chars, labels[r])
    ensures Faithful(rows, m', labels, chars)
  {
    forall y | y <= Below(|m'|)
      ensures Kernel(m', Below(|m'|), y) <==> Cancels(rows, chars, Comb(labels, y))
    {
      AugmentedKernel(m, m', bits, base, labels, chars, y);
      assert Kernel(m, Below(|m|), y) <==> Cancels(rows, [], Comb(labels, y));
      NoChars(Comb(labels, y));
    }
  }

  lemma AppendedIsAugmented(m: Csr, m': Csr, chars: CharColumns)
    requires m.Valid() && m'.Valid() && m'.nRows == m.nRows && |chars.columns| == chars.k
    requires forall i :: 0 <= i < m.nRows ==>
               RowAppended(m.Row(i), m'.Row(i), m.nCols, chars.RowBits(i))
    ensures Augmented(m.Vectors(), m'.Vectors(),
                      seq(m.nRows, r requires 0 <= r < m.nRows => chars.RowBits(r)), m.nCols)
  {
  }

  // ---------------------------------------------------------------------------
  // The stages
  // ---------------------------------------------------------------------------

  datatype Config = Config(
    kMax: nat,
    maxWeight: nat,
    truncationFactor: real,
    truncationMinRows: nat,
    truncationExcess: nat,
    useChars: bool,
    charCount: nat)

  const CHAR_COL_COUNT: nat := 32

  /** The matrix that is solved and what is kept to expand its solutions. */
  datatype Problem = Problem(matrix: Csr, rowMap: seq<nat>, tree: MergeTree)
  {
    ghost predicate Valid() {
      && matrix.Valid() && tree.Valid() && |rowMap| == matrix.nRows
      && forall r :: 0 <= r < |rowMap| ==> tree.Has(rowMap[r])
    }
  }

  /** Which rows truncation kept, where their columns went, and the order it took them in. */
  datatype Choice = Choice(kept: seq<nat>, colMap: seq<nat>, order: seq<nat>)

  /** Truncation is due when it is asked for, the matrix is large enough, and it has more rows than
      the target. */
  predicate Due(m: Csr, config: Config) {
    && config.truncationFactor > 0.0 && m.nRows > config.truncationMinRows
    && m.nRows > m.nCols + CHAR_COL_COUNT + config.truncationExcess
  }

  /** When due, exactly the target number of rows is left: those the coverage pass needs, filled
      up in the order of weight.  Otherwise nothing changes. */
  ghost predicate TruncatedTo(p: Problem, q: Problem, config: Config, choice: Choice)
    requires p.Valid() && q.Valid()
  {
    var target := p.matrix.nCols + CHAR_COL_COUNT + config.truncationExcess;
    if Due(p.matrix, config) then
      && q.tree == p.tree && q.matrix.nRows == target
      && RowsKept(p.matrix, q.matrix, choice.kept, choice.colMap)
      && (forall j :: 0 <= j < |choice.kept| ==> q.rowMap[j] == p.rowMap[choice.kept[j]])
      && Ordered(RowWeights(p.matrix), choice.order)
      && Cols(choice.order) == Below(p.matrix.nRows)
      && (forall k :: 0 <= k < |choice.order| ==> choice.order[k] < p.matrix.nRows)
      && Cols(choice.kept) == TopUp(choice.order,
           Greedy(p.matrix.Vectors(), choice.order, |choice.order|), target, |choice.order|)
    else q == p
  }

  /** Truncation, when it is asked for and the matrix is large enough. */
  method Truncate(p: Problem, config: Config, ghost rows: seq<set<nat>>)
    returns (q: Problem, ghost choice: Choice)
    requires p.Valid() && Faithful(rows, p.matrix.Vectors(), Labels(p.tree, p.rowMap), [])
    ensures q.Valid() && q.tree == p.tree
    ensures TruncatedTo(p, q, config, choice)
    ensures Faithful(rows, q.matrix.Vectors(), Labels(q.tree, q.rowMap), [])
  {
    hide Faithful, RowsKept, Ordered, Greedy, TopUp, RowWeights, Csr.Valid;
    q, choice := p, Choice([], [], []);
    if config.truncationFactor > 0.0 && p.matrix.nRows > config.truncationMinRows {
      var t;
      ghost var kept, colMap, order;
      t, kept, colMap, order := TruncateMatrix(p.matrix, p.rowMap, config.truncationFactor,
                                               CHAR_COL_COUNT, config.truncationExcess);
      if t.rowsRemoved > 0 {
        q, choice := Problem(t.truncated, t.rowMap, p.tree), Choice(kept, colMap, order);
        TruncatedIsFaithful(rows, p.matrix, t.truncated, Labels(p.tree, p.rowMap), kept, colMap);
        KeptLabels(p.tree, p.rowMap, t.rowMap, kept);
      }
    }
  }

  lemma KeptLabels(tree: MergeTree, rowMap: seq<nat>, rowMap': seq<nat>, kept: seq<nat>)
    requires tree.Valid() && forall r :: 0 <= r < |rowMap| ==> tree.Has(rowMap[r])
    requires |rowMap'| == |kept| && forall j :: 0 <= j < |kept| ==> kept[j] < |rowMap|
    requires forall j :: 0 <= j < |kept| ==> rowMap'[j] == rowMap[kept[j]]
    ensures forall r :: 0 <= r < |rowMap'| ==> tree.Has(rowMap'[r])
    ensures Labels(tree, rowMap') == Pick(Labels(tree, rowMap), kept)
  {
  }

  /** The character vectors of the leaves, or none when they are switched off. */
  ghost function Chars(smooths: Batch, partials: Batch, numLeaves: nat, config: Config)
    : seq<set<nat>>
    requires config.charCount <= MAX_BITS
  {
    if config.useChars then
      LeafChars(smooths, partials, smooths.numRelations, numLeaves, config.charCount)
    else []
  }

  /** Every row is followed by the sum of the character vectors of its relations, unless that is
      switched off. */
  ghost predicate AugmentedTo(p: Problem, q: Problem, smooths: Batch, partials: Batch,
                              config: Config)
    requires p.Valid() && q.Valid() && config.charCount <= MAX_BITS
  {
    if config.useChars then
      && q.matrix.nRows == p.matrix.nRows && q.matrix.nCols == p.matrix.nCols + config.charCount
      && forall r :: 0 <= r < p.matrix.nRows ==>
           RowAppended(p.matrix.Row(r), q.matrix.Row(r), p.matrix.nCols,
                       Comb(Chars(smooths, partials, p.tree.numLeaves, config),
                            Labels(p.tree, p.rowMap)[r]))
    else q == p
  }

  /** Character columns, unless they are switched off. */
  method AddChars(p: Problem, smooths: Batch, partials: Batch, config: Config,
                  ghost rows: seq<set<nat>>) returns (q: Problem)
    requires p.Valid() && Faithful(rows, p.matrix.Vectors(), Labels(p.tree, p.rowMap), [])
    requires config.charCount <= MAX_BITS
    ensures q.Valid() && q.tree == p.tree && q.rowMap == p.rowMap
    ensures AugmentedTo(p, q, smooths, partials, config)
    ensures Faithful(rows, q.matrix.Vectors(), Labels(q.tree, q.rowMap),
                  Chars(smooths, partials, p.tree.numLeaves, config))
  {
    hide Faithful, Augmented;
    q := p;
    if config.useChars {
      var chars := ProductCharacterColumns(p.rowMap, p.tree, smooths, partials,
                                           smooths.numRelations, config.charCount);
      var matrix := AppendCharacterColumns(p.matrix, chars, p.matrix.nRows);
      AppendedIsAugmented(p.matrix, matrix, chars);
      var n := p.matrix.nRows;
      AugmentedIsFaithful(rows, p.matrix.Vectors(), matrix.Vectors(),
                       seq(n, r requires 0 <= r < n => chars.RowBits(r)), p.matrix.nCols,
                       Labels(p.tree, p.rowMap),
                       Chars(smooths, partials, p.tree.numLeaves, config));
      q := Problem(matrix, p.rowMap, p.tree);
    }
  }

  /** What the stages produced on the way. */
  datatype Path = Path(
    expanded: Csr,
    reduced: PreprocessResult,
    stages: Stages,
    truncated: Problem,
    choice: Choice)

  /** Every stage was carried out: the parity matrix, all three passes, truncation, characters. */
  ghost predicate PathOk(g: Path, p: Problem, smooths: Batch, partials: Batch,
                         lpColMap: map<nat, nat>, config: Config)
    requires p.Valid() && smooths.Valid() && partials.Valid() && config.charCount <= MAX_BITS
    requires forall i :: 0 <= i < partials.numRelations ==> partials.largePrimes[i] in lpColMap
  {
    && g.expanded.Valid() && g.reduced.Valid() && g.truncated.Valid()
    && g.stages.singles.reduced.Shaped() && g.stages.merged.Shaped()
    && g.expanded.Vectors() == ParityRows(smooths, partials, lpColMap)
    && StagesOk(g.expanded, g.stages, g.reduced, config.kMax, config.maxWeight)
    && TruncatedTo(Problem(g.reduced.reduced, g.reduced.rowMap, g.reduced.tree), g.truncated,
                   config, g.choice)
    && AugmentedTo(g.truncated, p, smooths, partials, config)
  }

  /** Builds, reduces, truncates and augments the matrix. */
  method PrepareMatrix(smooths: Batch, partials: Batch, fbSize: nat, config: Config)
    returns (p: Problem, ghost lpColMap: map<nat, nat>, ghost lps: seq<nat>, ghost path: Path)
    requires BatchOk(smooths, fbSize) && BatchOk(partials, fbSize)
    requires config.charCount <= MAX_BITS
    ensures p.Valid()
    ensures Prepared(smooths, partials, lpColMap, fbSize, lps)
    ensures PathOk(path, p, smooths, partials, lpColMap, config)
    ensures Faithful(ParityRows(smooths, partials, lpColMap), p.matrix.Vectors(),
                  Labels(p.tree, p.rowMap), Chars(smooths, partials, p.tree.numLeaves, config))
  {
    assert smooths.Valid() && partials.Valid();
    hide Faithful, ReducedFrom, BatchOk, Csr.Valid, Batch.Valid, StagesOk, TruncatedTo,
      AugmentedTo;
    var expanded, result;
    ghost var colMap;
    expanded, lps := Build(smooths, partials, fbSize);
    lpColMap := expanded.lpColMap;
    ghost var rows := ParityRows(smooths, partials, lpColMap);
    ghost var stages, choice;
    result, colMap, stages := PreprocessMatrix(expanded.matrix, config.kMax, config.maxWeight);
    ReducedIsFaithful(rows, result.reduced.Vectors(), colMap, Labels(result.tree, result.rowMap));
    p := Problem(result.reduced, result.rowMap, result.tree);
    p, choice := Truncate(p, config, rows);
    path := Path(expanded.matrix, result, stages, p, choice);
    p := AddChars(p, smooths, partials, config, rows);
  }

  /** The whole path with any solver of the final matrix.  Whenever the solver's answer is a
      solution, the relations found multiply to a square, their character bits cancel, and a
      solution that is not zero gives at least one relation. */
  method FindSquare(smooths: Batch, partials: Batch, fb: seq<nat>, config: Config,
                    solver: Csr -> seq<bv64>)
    returns (relations: seq<nat>, ghost p: Problem, ghost root: int,
             ghost lpColMap: map<nat, nat>, ghost lps: seq<nat>, ghost path: Path)
    requires BatchOk(smooths, |fb|) && BatchOk(partials, |fb|) && ExponentsOk(smooths, partials)
    requires config.charCount <= MAX_BITS
    ensures p.Valid() && Increasing(relations)
    ensures Prepared(smooths, partials, lpColMap, |fb|, lps)
    ensures PathOk(path, p, smooths, partials, lpColMap, config)
    ensures Cols(relations)
            == Comb(Labels(p.tree, p.rowMap), Selection(solver(p.matrix), p.matrix.nRows))
    ensures var n := p.matrix.nRows;
            var y := Selection(solver(p.matrix), n);
            Kernel(p.matrix.Vectors(), Below(n), y) ==>
              && (forall k :: 0 <= k < |relations| ==>
                    relations[k] < smooths.numRelations + partials.numRelations)
              && Product(RelationValues(smooths, partials, fb), relations) == root * root
              && Comb(Chars(smooths, partials, p.tree.numLeaves, config), Cols(relations)) == {}
              && (y != {} ==> relations != [])
  {
    hide Faithful, Comb, ExponentsOk, Chars, Kernel, PathOk;
    var q;
    q, lpColMap, lps, path := PrepareMatrix(smooths, partials, |fb|, config);
    p, root := q, 0;
    var packed := solver(q.matrix);
    relations := ExpandKernelVector(packed, q.matrix.nRows, q.rowMap, q.tree);
    ghost var n := q.matrix.nRows;
    ghost var y := Selection(packed, n);
    if Kernel(q.matrix.Vectors(), Below(n), y) {
      root := FoundSquare(smooths, partials, fb, lpColMap, lps, q.matrix.Vectors(),
                          Labels(q.tree, q.rowMap),
                          Chars(smooths, partials, q.tree.numLeaves, config), y, relations);
    }
  }

  lemma FoundSquare(smooths: Batch, partials: Batch, fb: seq<nat>, lpColMap: map<nat, nat>,
                    lps: seq<nat>, m: seq<set<nat>>, labels: seq<set<nat>>,
                    chars: seq<set<nat>>, y: set<nat>, relations: seq<nat>)
    returns (root: int)
    requires Prepared(smooths, partials, lpColMap, |fb|, lps)
    requires ExponentsOk(smooths, partials)
    requires Faithful(ParityRows(smooths, partials, lpColMap), m, labels, chars)
    requires Kernel(m, Below(|m|), y)
    requires Increasing(relations) && Cols(relations) == Comb(labels, y)
    ensures forall k :: 0 <= k < |relations| ==>
              relations[k] < smooths.numRelations + partials.numRelations
    ensures Product(RelationValues(smooths, partials, fb), relations) == root * root
    ensures Comb(chars, Cols(relations)) == {}
    ensures y != {} ==> relations != []
  {
    hide ExponentsOk, Comb, Increasing;
    assert Cancels(ParityRows(smooths, partials, lpColMap), chars, Comb(labels, y));
    root := DependencyHasRoot(smooths, partials, fb, lpColMap, lps, relations);
    if relations == [] {
      assert Cols(relations) == {};
      assert y == {};
    }
  }

  /** The character bits of leaf `l` are those of relation `l`, in the order of the matrix rows. */
  lemma LeafBitsAreRelationBits(smooths: Batch, partials: Batch, l: nat)
    requires smooths.Valid() && partials.Valid()
    requires l < smooths.numRelations + partials.numRelations
    requires |smooths.charBits| == smooths.numRelations
    requires |partials.charBits| == partials.numRelations
    ensures LeafCharBits(smooths, partials, smooths.numRelations, l)
            == RelationOf(smooths, partials, l).charBits
  {
  }
}
