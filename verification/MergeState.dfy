/** The working state of the two merge passes and its two elementary steps. */
module MergeState {
  import opened Gf2
  import opened SparseRows
  import opened Reduction
  import opened Passes
  import opened CsrMatrix
  import opened ColumnIndex
  import opened MergeTrees

  datatype State = State(
    rows: seq<seq<nat>>,
    nodeOf: seq<nat>,
    alive: seq<bool>,
    index: Index,
    tree: MergeTree)

  /** What both merge loops keep between iterations.  `combos` names the input rows each live
      row is the sum of; the merge tree tells the same story about the leaves. */
  ghost predicate Inv(s: State, input: seq<set<nat>>, labels: seq<set<nat>>,
                      combos: seq<set<nat>>, nCols: nat)
  {
    && |s.rows| == |s.nodeOf| == |s.alive| == |combos|
    && RowsOk(s.rows, nCols)
    && Exact(s.index, s.rows, nCols)
    && (forall r :: 0 <= r < |s.rows| && !s.alive[r] ==> s.rows[r] == [])
    && Reduces(input, ColSets(s.rows), combos, Alive(s.alive))
    && TreeAgrees(s.tree, s.nodeOf, s.alive, labels, combos)
  }

  ghost predicate TreeAgrees(tree: MergeTree, nodeOf: seq<nat>, alive: seq<bool>,
                             labels: seq<set<nat>>, combos: seq<set<nat>>)
    requires |nodeOf| == |alive| == |combos|
  {
    && tree.Valid()
    && forall r :: 0 <= r < |alive| && alive[r] ==>
         tree.Has(nodeOf[r]) && tree.Label(nodeOf[r]) == Comb(labels, combos[r])
  }

  function Live(flags: seq<bool>): nat {
    if |flags| == 0 then 0
    else Live(flags[..|flags| - 1]) + (if flags[|flags| - 1] then 1 else 0)
  }

  lemma {:induction false} LiveDrops(flags: seq<bool>, r: nat)
    requires r < |flags| && flags[r]
    ensures Live(flags[r := false]) == Live(flags) - 1
  {
    var m := |flags| - 1;
    var flags' := flags[r := false];
    if r == m {
      assert flags'[..m] == flags[..m];
    } else {
      LiveDrops(flags[..m], r);
      assert flags'[..m] == flags[..m][r := false];
    }
  }

  lemma {:induction false} LiveAll(n: nat)
    ensures Live(seq(n, _ => true)) == n
  {
    if n > 0 {
      LiveAll(n - 1);
      assert seq(n, _ => true)[..n - 1] == seq(n - 1, _ => true);
    }
  }

  lemma {:induction false} LiveCount(flags: seq<bool>)
    ensures Live(flags) == |Alive(flags)|
  {
    if |flags| == 0 {
      assert Alive(flags) == {};
    } else {
      var m := |flags| - 1;
      LiveCount(flags[..m]);
      assert Alive(flags) == if flags[m] then Alive(flags[..m]) + {m} else Alive(flags[..m]);
    }
  }

  lemma ReducesLocal(input: seq<set<nat>>, rows: seq<set<nat>>, rows': seq<set<nat>>,
                     combos: seq<set<nat>>, alive: set<nat>)
    requires Reduces(input, rows, combos, alive)
    requires |rows| == |rows'|
    requires forall r :: r in alive && r < |rows| ==> rows[r] == rows'[r]
    ensures Reduces(input, rows', combos, alive)
  {
  }

  lemma TreeStep(tree: MergeTree, nodeOf: seq<nat>, alive: seq<bool>, labels: seq<set<nat>>,
                 combos: seq<set<nat>>, left: nat, right: nat, source: nat, target: nat)
    requires |nodeOf| == |alive| == |combos|
    requires TreeAgrees(tree, nodeOf, alive, labels, combos)
    requires source < |alive| && target < |alive| && alive[source] && alive[target]
    requires (left == source && right == target) || (left == target && right == source)
    ensures TreeAgrees(tree.Grow(nodeOf[left], nodeOf[right]),
                       nodeOf[target := tree.numLeaves + |tree.nodes|], alive, labels,
                       combos[target := Add(combos[source], combos[target])])
  {
    var tree' := tree.Grow(nodeOf[left], nodeOf[right]);
    forall r | 0 <= r < |alive| && alive[r]
      ensures tree'.Valid() && tree'.Leaves(nodeOf[r]) == tree.Leaves(nodeOf[r])
    {
      GrowKeepsLeaves(tree, nodeOf[left], nodeOf[right], nodeOf[r]);
    }
    LabelOfNode(tree', |tree.nodes|);
    CombAdd(labels, combos[source], combos[target]);
  }

  lemma SumInRange(s: State, source: nat, target: nat, newRow: seq<nat>, nCols: nat)
    requires RowsOk(s.rows, nCols) && source < |s.rows| && target < |s.rows|
    requires Cols(newRow) == Add(Cols(s.rows[source]), Cols(s.rows[target]))
    ensures InRange(newRow, nCols)
  {
    forall k | 0 <= k < |newRow| ensures newRow[k] < nCols {
      assert newRow[k] in Cols(newRow);
    }
  }

  /** Adds live row `source` to live row `target` and records the merge. */
  method CombineRows(s: State, left: nat, right: nat, source: nat, target: nat,
                     newRow: seq<nat>, ghost input: seq<set<nat>>,
                     ghost labels: seq<set<nat>>, ghost combos: seq<set<nat>>, nCols: nat)
    returns (s': State, ghost combos': seq<set<nat>>)
    requires Inv(s, input, labels, combos, nCols)
    requires source < |s.alive| && target < |s.alive| && source != target
    requires s.alive[source] && s.alive[target]
    requires (left == source && right == target) || (left == target && right == source)
    requires Increasing(newRow)
    requires Cols(newRow) == Add(Cols(s.rows[source]), Cols(s.rows[target]))
    ensures Inv(s', input, labels, combos', nCols)
    ensures s'.rows == s.rows[target := newRow]
    ensures s'.alive == s.alive
    ensures |combos| == |s.alive|
    ensures combos' == combos[target := Add(combos[source], combos[target])]
    ensures s'.tree == s.tree.Grow(s.nodeOf[left], s.nodeOf[right])
    ensures forall c :: 0 <= c < nCols ==>
              s'.index.colWeight[c] == s.index.colWeight[c]
                - (if c in s.rows[target] then 1 else 0) + (if c in newRow then 1 else 0)
  {
    hide Reduces, Comb, TreeAgrees;
    SumInRange(s, source, target, newRow, nCols);
    var tree := s.tree.Grow(s.nodeOf[left], s.nodeOf[right]);
    var newNode := s.tree.numLeaves + |s.tree.nodes|;
    var index := ReplaceRow(s.index, s.rows, nCols, target, s.rows[target], newRow);
    s' := State(s.rows[target := newRow], s.nodeOf[target := newNode], s.alive, index, tree);
    combos' := combos[target := Add(combos[source], combos[target])];
    AddLiveRow(input, ColSets(s.rows), combos, Alive(s.alive), source, target);
    assert ColSets(s'.rows) == ColSets(s.rows)[target := Cols(newRow)];
    TreeStep(s.tree, s.nodeOf, s.alive, labels, combos, left, right, source, target);
  }

  /** Deletes a live row that is the only holder of column `c`. */
  method KillRow(s: State, p: nat, ghost c: nat, ghost input: seq<set<nat>>,
                 ghost labels: seq<set<nat>>, ghost combos: seq<set<nat>>, nCols: nat)
    returns (s': State)
    requires Inv(s, input, labels, combos, nCols)
    requires p < |s.alive| && s.alive[p]
    requires c < nCols && s.index.colWeight[c] == 1 && c in s.rows[p]
    ensures Inv(s', input, labels, combos, nCols)
    ensures s'.rows == s.rows[p := []]
    ensures s'.alive == s.alive[p := false]
    ensures s'.tree == s.tree
    ensures forall d :: 0 <= d < nCols ==>
              s'.index.colWeight[d] == s.index.colWeight[d] - (if d in s.rows[p] then 1 else 0)
  {
    var index := DeleteRow(s.index, s.rows, nCols, p, s.rows[p]);
    s' := State(s.rows[p := []], s.nodeOf, s.alive[p := false], index, s.tree);
    assert Hits(ColSets(s.rows), Alive(s.alive), c) == {p} by {
      SoleHolder(s.index, s.rows, nCols, p, c);
    }
    DropUnusedRow(input, ColSets(s.rows), combos, Alive(s.alive), p, c);
    assert Alive(s'.alive) == Alive(s.alive) - {p};
    ReducesLocal(input, ColSets(s.rows), ColSets(s'.rows), combos, Alive(s'.alive));
  }

  lemma SoleHolder(x: Index, rows: seq<seq<nat>>, nCols: nat, p: nat, c: nat)
    requires Exact(x, rows, nCols)
    requires p < |rows| && c < nCols && c in rows[p] && x.colWeight[c] == 1
    ensures forall r: nat :: r < |rows| && c in rows[r] ==> r == p
  {
    assert p in x.colRows[c];
    forall r: nat | r < |rows| && c in rows[r] ensures r == p {
      assert r in x.colRows[c];
    }
  }

  // ---------------------------------------------------------------------------
  // Start and end of a merge pass
  // ---------------------------------------------------------------------------

  datatype MergeResult = MergeResult(
    reduced: Csr,
    rowMap: seq<nat>,
    tree: MergeTree,
    mergesPerformed: nat,
    rowsRemoved: nat)
  {
    /** The matrix is well formed and every row has its node in a well-formed tree. */
    ghost predicate Valid() {
      && reduced.Valid()
      && tree.Valid()
      && |rowMap| == reduced.nRows
      && forall j :: 0 <= j < |rowMap| ==> tree.Has(rowMap[j])
    }

    ghost function RowLabels(): seq<set<nat>>
      requires Valid()
    {
      Labels(tree, rowMap)
    }
  }

  /** Splits the matrix into rows and indexes its columns; row `r` starts at node `rowMap[r]`. */
  method Start(input: Csr, rowMap: seq<nat>, tree: MergeTree) returns (s: State)
    requires input.Valid() && |rowMap| == input.nRows
    requires tree.Valid() && forall j :: 0 <= j < |rowMap| ==> tree.Has(rowMap[j])
    ensures Inv(s, input.Vectors(), Labels(tree, rowMap), Units(input.nRows), input.nCols)
    ensures s.rows == input.Rows() && s.nodeOf == rowMap && s.tree == tree
    ensures Live(s.alive) == input.nRows == |s.alive|
    ensures forall r :: 0 <= r < input.nRows ==> s.alive[r]
    ensures forall c :: 0 <= c < input.nCols ==>
              s.index.colWeight[c] == Weight(input.Vectors(), c)
              && Increasing(s.index.colRows[c])
  {
    var rows := input.ToRows();
    forall r | 0 <= r < |rows| ensures Increasing(rows[r]) && InRange(rows[r], input.nCols) {
      forall k | 0 <= k < |rows[r]| ensures rows[r][k] < input.nCols {
        assert rows[r][k] in Cols(input.Row(r));
      }
    }
    var index := BuildIndex(rows, input.nCols);
    s := State(rows, rowMap, seq(input.nRows, _ => true), index, tree);
    LiveAll(input.nRows);
    ReducesSelf(input.Vectors());
    assert Alive(s.alive) == Below(input.nRows);
    forall r | 0 <= r < |rowMap|
      ensures tree.Label(rowMap[r]) == Comb(Labels(tree, rowMap), Units(input.nRows)[r])
    {
      CombSingleton(Labels(tree, rowMap), r);
    }
    forall c | 0 <= c < input.nCols
      ensures s.index.colWeight[c] == Weight(input.Vectors(), c)
    {
      StoredWeight(index, rows, input.nCols, c);
    }
  }

  /** Renumbers the live rows and used columns. */
  method Finish(s: State, ghost input: seq<set<nat>>, ghost labels: seq<set<nat>>,
                ghost combos: seq<set<nat>>, nCols: nat)
    returns (reduced: Csr, rowMap: seq<nat>, ghost colMap: seq<nat>, ghost rowCombos: seq<set<nat>>,
             ghost origin: seq<nat>)
    requires Inv(s, input, labels, combos, nCols)
    ensures reduced.Valid() && |rowMap| == reduced.nRows == Live(s.alive)
    ensures |colMap| == reduced.nCols
    ensures ReducedFrom(input, reduced.Vectors(), colMap, rowCombos)
    ensures |rowCombos| == |rowMap|
    ensures forall j :: 0 <= j < |rowMap| ==> s.tree.Has(rowMap[j])
    ensures Labels(s.tree, rowMap) == ComposeCombos(labels, rowCombos)
    ensures forall c: nat :: c in colMap <==> c < nCols && s.index.colWeight[c] > 0
    ensures forall d :: 0 <= d < |colMap| ==>
              && colMap[d] < nCols
              && Weight(reduced.Vectors(), d) == s.index.colWeight[colMap[d]]
    ensures |origin| == reduced.nRows && Enumerates(origin, Alive(s.alive))
    ensures (forall j :: 0 <= j < |origin| ==> origin[j] < |combos|)
            && rowCombos == Pick(combos, origin)
    ensures forall j :: 0 <= j < reduced.nRows ==>
              origin[j] < |s.rows| && |reduced.Row(j)| == |s.rows[origin[j]]|
    ensures forall j :: 0 <= j < reduced.nRows ==>
              Rename(colMap, reduced.Vectors()[j]) == Cols(s.rows[origin[j]])
  {
    hide Reduces, ReducedFrom, Comb, Live, Weight;
    forall r | 0 <= r < |s.rows| && s.alive[r]
      ensures forall k :: 0 <= k < |s.rows[r]| ==>
                s.rows[r][k] < |s.index.colWeight| && s.index.colWeight[s.rows[r][k]] > 0
    {
      HeldIsPositive(s.index, s.rows, nCols, r);
    }
    var list, columns;
    reduced, list, columns := Compact(s.rows, s.alive, s.index.colWeight);
    colMap, origin := columns, list;
    LiveCount(s.alive);
    IncreasingCard(list);
    CompactedPass(input, s.rows, s.alive, combos, colMap, list, reduced);
    rowCombos := Pick(combos, list);
    rowMap := [];
    for j := 0 to |list|
      invariant |rowMap| == j
      invariant forall i :: 0 <= i < j ==> rowMap[i] == s.nodeOf[list[i]]
    {
      rowMap := rowMap + [s.nodeOf[list[j]]];
    }
    forall j | 0 <= j < |list|
      ensures s.tree.Has(rowMap[j]) && s.tree.Label(rowMap[j]) == Comb(labels, rowCombos[j])
      ensures |reduced.Row(j)| == |s.rows[list[j]]|
      ensures Rename(colMap, reduced.Vectors()[j]) == Cols(s.rows[list[j]])
    {
      assert list[j] in Cols(list);
      assert reduced.Rows()[j] == reduced.Row(j);
      RowRenamedMeaning(colMap, s.rows[list[j]], reduced.Row(j));
    }
    forall d | 0 <= d < |colMap|
      ensures colMap[d] < nCols
      ensures Weight(reduced.Vectors(), d) == s.index.colWeight[colMap[d]]
    {
      assert colMap[d] in colMap;
      CompactedWeight(s.rows, s.alive, colMap, list, reduced, d);
      StoredWeight(s.index, s.rows, nCols, colMap[d]);
    }
  }
}
