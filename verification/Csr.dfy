/** Compressed sparse row matrices and their compaction. */
module CsrMatrix {
  import opened Gf2
  import opened SparseRows
  import opened Reduction
  import opened Passes

  datatype Csr = Csr(rowOffsets: seq<nat>, colIndices: seq<nat>, nRows: nat, nCols: nat) {

    /** The offsets delimit one slice of `colIndices` per row. */
    ghost predicate Shaped() {
      && |rowOffsets| == nRows + 1
      && rowOffsets[0] == 0
      && (forall i, j :: 0 <= i <= j <= nRows ==> rowOffsets[i] <= rowOffsets[j])
      && rowOffsets[nRows] == |colIndices|
    }

    function Row(r: nat): seq<nat>
      requires Shaped() && r < nRows
    {
      colIndices[rowOffsets[r]..rowOffsets[r + 1]]
    }

    /** Every row is strictly increasing and in range. */
    ghost predicate Valid() {
      && Shaped()
      && forall r :: 0 <= r < nRows ==> Increasing(Row(r)) && Cols(Row(r)) <= Below(nCols)
    }

    ghost function Rows(): (rows: seq<seq<nat>>)
      requires Shaped()
      ensures |rows| == nRows
      ensures forall r :: 0 <= r < nRows ==> rows[r] == Row(r)
    {
      seq(nRows, r requires 0 <= r < nRows => Row(r))
    }

    /** The matrix as a sequence of GF(2) vectors. */
    ghost function Vectors(): (v: seq<set<nat>>)
      requires Shaped()
      ensures |v| == nRows
      ensures forall r :: 0 <= r < nRows ==> v[r] == Cols(Row(r))
    {
      ColSets(Rows())
    }

    /** Splits the matrix into separate rows. */
    method ToRows() returns (rows: seq<seq<nat>>)
      requires Shaped()
      ensures rows == Rows()
    {
      rows := [];
      for r := 0 to nRows
        invariant |rows| == r
        invariant forall k :: 0 <= k < r ==> rows[k] == Row(k)
      {
        rows := rows + [colIndices[rowOffsets[r]..rowOffsets[r + 1]]];
      }
    }

    /** Appends one row at the end. */
    function AppendRow(row: seq<nat>): Csr {
      Csr(rowOffsets + [|colIndices| + |row|], colIndices + row, nRows + 1, nCols)
    }
  }

  lemma AppendRowRows(m: Csr, row: seq<nat>)
    requires m.Shaped()
    ensures m.AppendRow(row).Shaped()
    ensures m.AppendRow(row).Rows() == m.Rows() + [row]
  {
    var m' := m.AppendRow(row);
    forall i, j | 0 <= i <= j <= m'.nRows ensures m'.rowOffsets[i] <= m'.rowOffsets[j] {
      if j == m'.nRows && i <= m.nRows {
        assert m.rowOffsets[i] <= m.rowOffsets[m.nRows];
      }
    }
    forall r | 0 <= r < m'.nRows ensures m'.Row(r) == (m.Rows() + [row])[r] {
      if r < m.nRows {
        assert m.rowOffsets[r + 1] <= m.rowOffsets[m.nRows];
      }
    }
  }

  /** Number of rows that hold column `c`. */
  ghost function Weight(rows: seq<set<nat>>, c: nat): nat {
    |Hits(rows, Below(|rows|), c)|
  }

  ghost function Alive(flags: seq<bool>): (s: set<nat>)
    ensures forall r: nat :: r in s <==> r < |flags| && flags[r]
  {
    set r | r in Below(|flags|) && flags[r]
  }

  // ---------------------------------------------------------------------------
  // Column renumbering
  // ---------------------------------------------------------------------------

  datatype NewCol = Dead | New(col: nat)

  /** `colMap` lists the used columns and `oldToNew` is its inverse. */
  ghost predicate Renumbers(colWeight: seq<nat>, oldToNew: seq<NewCol>, colMap: seq<nat>) {
    && |oldToNew| == |colWeight|
    && Increasing(colMap)
    && (forall k :: 0 <= k < |colMap| ==>
          colMap[k] < |colWeight| && colWeight[colMap[k]] > 0 && oldToNew[colMap[k]] == New(k))
    && (forall c :: 0 <= c < |colWeight| && colWeight[c] > 0 ==>
          oldToNew[c].New? && oldToNew[c].col < |colMap| && colMap[oldToNew[c].col] == c)
  }

  method RenumberColumns(colWeight: seq<nat>) returns (oldToNew: seq<NewCol>, colMap: seq<nat>)
    ensures Renumbers(colWeight, oldToNew, colMap)
  {
    oldToNew, colMap := [], [];
    for c := 0 to |colWeight|
      invariant |oldToNew| == c
      invariant Increasing(colMap)
      invariant forall k :: 0 <= k < |colMap| ==>
                  colMap[k] < c && colWeight[colMap[k]] > 0 && oldToNew[colMap[k]] == New(k)
      invariant forall d :: 0 <= d < c && colWeight[d] > 0 ==>
                  oldToNew[d].New? && oldToNew[d].col < |colMap| && colMap[oldToNew[d].col] == d
    {
      if colWeight[c] > 0 {
        oldToNew := oldToNew + [New(|colMap|)];
        colMap := colMap + [c];
      } else {
        oldToNew := oldToNew + [Dead];
      }
    }
  }

  /** `row'` is `row` written in the new column numbers. */
  ghost predicate RowRenamed(colMap: seq<nat>, row: seq<nat>, row': seq<nat>) {
    && |row'| == |row|
    && forall k :: 0 <= k < |row| ==> row'[k] < |colMap| && colMap[row'[k]] == row[k]
  }

  method RenameRow(colWeight: seq<nat>, oldToNew: seq<NewCol>, colMap: seq<nat>, row: seq<nat>)
    returns (row': seq<nat>)
    requires Renumbers(colWeight, oldToNew, colMap)
    requires forall k :: 0 <= k < |row| ==> row[k] < |colWeight| && colWeight[row[k]] > 0
    ensures RowRenamed(colMap, row, row')
  {
    row' := [];
    for k := 0 to |row|
      invariant |row'| == k
      invariant forall i :: 0 <= i < k ==> row'[i] < |colMap| && colMap[row'[i]] == row[i]
    {
      row' := row' + [oldToNew[row[k]].col];
    }
  }

  lemma RowRenamedMeaning(colMap: seq<nat>, row: seq<nat>, row': seq<nat>)
    requires Increasing(colMap) && Increasing(row) && RowRenamed(colMap, row, row')
    ensures Increasing(row')
    ensures Cols(row') <= Below(|colMap|)
    ensures Rename(colMap, Cols(row')) == Cols(row)
  {
    forall i, j | 0 <= i < j < |row'| ensures row'[i] < row'[j] {
      assert colMap[row'[i]] < colMap[row'[j]];
    }
    forall c | c in row ensures c in Rename(colMap, Cols(row')) {
      var k :| 0 <= k < |row| && row[k] == c;
      assert row'[k] in row';
    }
    forall c | c in Rename(colMap, Cols(row')) ensures c in row {
      var d :| d in Cols(row') && d < |colMap| && colMap[d] == c;
      var k :| 0 <= k < |row'| && row'[k] == d;
      assert row[k] == c;
    }
  }

  // ---------------------------------------------------------------------------
  // Compaction of live rows and used columns
  // ---------------------------------------------------------------------------

  /** The live rows in ascending order, written in new column numbers. */
  ghost predicate Compacted(rows: seq<seq<nat>>, alive: seq<bool>, colMap: seq<nat>,
                            list: seq<nat>, output: seq<seq<nat>>)
  {
    && |output| == |list|
    && Enumerates(list, Alive(alive))
    && (forall j :: 0 <= j < |list| ==> list[j] < |rows|)
    && (forall j :: 0 <= j < |list| ==> RowRenamed(colMap, rows[list[j]], output[j]))
  }

  lemma AliveStep(alive: seq<bool>, r: nat)
    requires r < |alive|
    ensures Alive(alive[..r + 1]) ==
            if alive[r] then Alive(alive[..r]) + {r} else Alive(alive[..r])
  {
    assert alive[..r + 1] == alive[..r] + [alive[r]];
  }

  method Compact(rows: seq<seq<nat>>, alive: seq<bool>, colWeight: seq<nat>)
    returns (reduced: Csr, list: seq<nat>, colMap: seq<nat>)
    requires |alive| == |rows|
    requires forall r :: 0 <= r < |rows| && alive[r] ==> Increasing(rows[r])
    requires forall r :: 0 <= r < |rows| && alive[r] ==>
               forall k :: 0 <= k < |rows[r]| ==>
                 rows[r][k] < |colWeight| && colWeight[rows[r][k]] > 0
    ensures reduced.Valid() && reduced.nRows == |list| && reduced.nCols == |colMap|
    ensures Increasing(colMap)
    ensures forall c: nat :: c in colMap <==> c < |colWeight| && colWeight[c] > 0
    ensures Compacted(rows, alive, colMap, list, reduced.Rows())
  {
    hide Alive;
    var oldToNew;
    oldToNew, colMap := RenumberColumns(colWeight);
    forall c: nat | c < |colWeight| && colWeight[c] > 0 ensures c in colMap {
      assert colMap[oldToNew[c].col] == c;
    }
    reduced := Csr([0], [], 0, |colMap|);
    list := [];
    assert Alive(alive[..0]) == {};
    for r := 0 to |rows|
      invariant reduced.Shaped() && reduced.nCols == |colMap|
      invariant reduced.nRows == |list|
      invariant forall j :: 0 <= j < |list| ==> list[j] < r && alive[list[j]]
      invariant Increasing(list)
      invariant Cols(list) == Alive(alive[..r])
      invariant forall j :: 0 <= j < |list| ==>
                  RowRenamed(colMap, rows[list[j]], reduced.Rows()[j])
    {
      AliveStep(alive, r);
      if alive[r] {
        var row := RenameRow(colWeight, oldToNew, colMap, rows[r]);
        AppendRowRows(reduced, row);
        reduced := reduced.AppendRow(row);
        ColsAppend(list, r);
        list := list + [r];
      }
    }
    assert alive[..|rows|] == alive;
    forall j | 0 <= j < |list|
      ensures Increasing(reduced.Row(j)) && Cols(reduced.Row(j)) <= Below(reduced.nCols)
    {
      assert reduced.Rows()[j] == reduced.Row(j);
      RowRenamedMeaning(colMap, rows[list[j]], reduced.Row(j));
    }
  }

  /** Compaction turns the loop invariant of a reduction into a finished pass. */
  lemma CompactedPass(input: seq<set<nat>>, rows: seq<seq<nat>>, alive: seq<bool>,
                      combos: seq<set<nat>>, colMap: seq<nat>, list: seq<nat>, reduced: Csr)
    requires reduced.Shaped() && |alive| == |rows|
    requires forall r :: 0 <= r < |rows| && alive[r] ==> Increasing(rows[r])
    requires Increasing(colMap)
    requires Compacted(rows, alive, colMap, list, reduced.Rows())
    requires Reduces(input, ColSets(rows), combos, Alive(alive))
    ensures ReducedFrom(input, reduced.Vectors(), colMap, Pick(combos, list))
  {
    forall j | 0 <= j < |list|
      ensures reduced.Vectors()[j] <= Below(|colMap|)
      ensures Rename(colMap, reduced.Vectors()[j]) == ColSets(rows)[list[j]]
    {
      assert list[j] in Cols(list);
      assert reduced.Rows()[j] == reduced.Row(j);
      RowRenamedMeaning(colMap, rows[list[j]], reduced.Row(j));
    }
    FinishPass(input, ColSets(rows), combos, Alive(alive), list, colMap, reduced.Vectors());
  }

  lemma {:induction false} RenameCard(f: seq<nat>, s: set<nat>)
    requires Increasing(f) && s <= Below(|f|)
    ensures |Rename(f, s)| == |s|
    decreases |s|
  {
    if s == {} {
      assert Rename(f, s) == {};
    } else {
      var e :| e in s;
      RenameCard(f, s - {e});
      InRename(f, s - {e}, e);
      assert Rename(f, s) == Rename(f, s - {e}) + {f[e]};
    }
  }

  /** Compaction keeps the weight of every column that survives. */
  lemma CompactedWeight(rows: seq<seq<nat>>, alive: seq<bool>, colMap: seq<nat>,
                        list: seq<nat>, reduced: Csr, d: nat)
    requires reduced.Shaped() && |alive| == |rows|
    requires forall r :: 0 <= r < |rows| && alive[r] ==> Increasing(rows[r])
    requires Increasing(colMap) && d < |colMap|
    requires Compacted(rows, alive, colMap, list, reduced.Rows())
    requires forall r :: 0 <= r < |rows| && !alive[r] ==> rows[r] == []
    ensures Weight(reduced.Vectors(), d) == Weight(ColSets(rows), colMap[d])
  {
    var out := reduced.Vectors();
    var h := Hits(out, Below(|out|), d);
    var h' := Hits(ColSets(rows), Below(|rows|), colMap[d]);
    forall j | 0 <= j < |list| ensures d in out[j] <==> colMap[d] in rows[list[j]] {
      assert list[j] in Cols(list);
      assert reduced.Rows()[j] == reduced.Row(j);
      RowRenamedMeaning(colMap, rows[list[j]], reduced.Row(j));
      InRename(colMap, Cols(reduced.Row(j)), d);
    }
    assert Rename(list, h) == h' by {
      forall r | r in h' ensures r in Rename(list, h) {
        assert alive[r];
        assert r in Cols(list);
        var j :| 0 <= j < |list| && list[j] == r;
        assert j in h;
      }
    }
    RenameCard(list, h);
  }
}
