/** The inverted index of the merge passes: for every column its weight and the list of the
    rows that hold it, kept up to date while rows change. */
module ColumnIndex {
  import opened Gf2
  import opened SparseRows
  import opened CsrMatrix

  ghost predicate RowsOk(rows: seq<seq<nat>>, nCols: nat) {
    forall r :: 0 <= r < |rows| ==> Increasing(rows[r]) && InRange(rows[r], nCols)
  }

  ghost predicate InRange(row: seq<nat>, nCols: nat) {
    forall k :: 0 <= k < |row| ==> row[k] < nCols
  }

  datatype Index = Index(colWeight: seq<nat>, colRows: seq<seq<nat>>)

  /** `colRows[c]` lists exactly the rows that hold column `c`, each once, and `colWeight[c]`
      is their number. */
  ghost predicate Exact(x: Index, rows: seq<seq<nat>>, nCols: nat) {
    && |x.colWeight| == |x.colRows| == nCols
    && forall c :: 0 <= c < nCols ==>
         && Distinct(x.colRows[c])
         && x.colWeight[c] == |x.colRows[c]|
         && ListsHolders(x.colRows[c], rows, c)
  }

  ghost predicate ListsHolders(list: seq<nat>, rows: seq<seq<nat>>, c: nat) {
    forall r: nat :: r in list <==> r < |rows| && c in rows[r]
  }

  lemma {:induction false} DistinctCard(s: seq<nat>)
    requires Distinct(s)
    ensures |Cols(s)| == |s|
  {
    if |s| == 0 {
      assert Cols(s) == {};
    } else {
      var m := |s| - 1;
      DistinctCard(s[..m]);
      ColsSnoc(s, m);
      assert s[..m + 1] == s;
      assert s[m] !in s[..m];
    }
  }

  /** The stored weight is the number of rows that hold the column. */
  lemma StoredWeight(x: Index, rows: seq<seq<nat>>, nCols: nat, c: nat)
    requires Exact(x, rows, nCols) && c < nCols
    ensures x.colWeight[c] == Weight(ColSets(rows), c)
  {
    assert Hits(ColSets(rows), Below(|rows|), c) == Cols(x.colRows[c]);
    DistinctCard(x.colRows[c]);
  }

  // ---------------------------------------------------------------------------
  // List surgery
  // ---------------------------------------------------------------------------

  function Without(s: seq<nat>, r: nat): (t: seq<nat>)
    ensures forall e :: e in t <==> e in s && e != r
  {
    if |s| == 0 then []
    else if s[|s| - 1] == r then Without(s[..|s| - 1], r)
    else Without(s[..|s| - 1], r) + [s[|s| - 1]]
  }

  lemma {:induction false} WithoutDistinct(s: seq<nat>, r: nat)
    requires Distinct(s)
    ensures Distinct(Without(s, r))
    ensures |Without(s, r)| == if r in s then |s| - 1 else |s|
  {
    if |s| > 0 {
      var m := |s| - 1;
      WithoutDistinct(s[..m], r);
      assert s == s[..m] + [s[m]];
      assert s[m] !in s[..m];
    }
  }

  lemma DistinctAppend(s: seq<nat>, r: nat)
    requires Distinct(s) && r !in s
    ensures Distinct(s + [r])
  {
  }

  // ---------------------------------------------------------------------------
  // Loops over the columns of one row
  // ---------------------------------------------------------------------------

  method Decrement(weight: seq<nat>, row: seq<nat>) returns (w: seq<nat>)
    requires Increasing(row) && InRange(row, |weight|)
    requires forall k :: 0 <= k < |row| ==> weight[row[k]] > 0
    ensures |w| == |weight|
    ensures forall c :: 0 <= c < |w| ==> w[c] == if c in row then weight[c] - 1 else weight[c]
  {
    w := weight;
    for k := 0 to |row|
      invariant |w| == |weight|
      invariant forall c :: 0 <= c < |w| ==>
                  w[c] == if c in row[..k] then weight[c] - 1 else weight[c]
    {
      assert row[k] !in row[..k];
      assert row[..k + 1] == row[..k] + [row[k]];
      w := w[row[k] := w[row[k]] - 1];
    }
    assert row[..|row|] == row;
  }

  method Increment(weight: seq<nat>, row: seq<nat>) returns (w: seq<nat>)
    requires Increasing(row) && InRange(row, |weight|)
    ensures |w| == |weight|
    ensures forall c :: 0 <= c < |w| ==> w[c] == if c in row then weight[c] + 1 else weight[c]
  {
    w := weight;
    for k := 0 to |row|
      invariant |w| == |weight|
      invariant forall c :: 0 <= c < |w| ==>
                  w[c] == if c in row[..k] then weight[c] + 1 else weight[c]
    {
      assert row[k] !in row[..k];
      assert row[..k + 1] == row[..k] + [row[k]];
      w := w[row[k] := w[row[k]] + 1];
    }
    assert row[..|row|] == row;
  }

  /** Removes row `r` from the lists of the columns of `row` that are not in `keep`. */
  method Unregister(colRows: seq<seq<nat>>, row: seq<nat>, keep: seq<nat>, r: nat)
    returns (lists: seq<seq<nat>>)
    requires Increasing(row) && InRange(row, |colRows|)
    ensures |lists| == |colRows|
    ensures forall c :: 0 <= c < |lists| ==>
              lists[c] == if c in row && c !in keep then Without(colRows[c], r) else colRows[c]
  {
    lists := colRows;
    for k := 0 to |row|
      invariant |lists| == |colRows|
      invariant forall c :: 0 <= c < |lists| ==>
                  lists[c] == if c in row[..k] && c !in keep then Without(colRows[c], r)
                              else colRows[c]
    {
      assert row[k] !in row[..k];
      assert row[..k + 1] == row[..k] + [row[k]];
      if row[k] !in keep {
        lists := lists[row[k] := Without(lists[row[k]], r)];
      }
    }
    assert row[..|row|] == row;
  }

  /** Counts the columns of `row`, and lists row `r` under those that are new to it. */
  method Register(x: Index, row: seq<nat>, before: seq<nat>, r: nat) returns (x': Index)
    requires |x.colWeight| == |x.colRows|
    requires Increasing(row) && InRange(row, |x.colRows|)
    ensures |x'.colWeight| == |x'.colRows| == |x.colRows|
    ensures forall c :: 0 <= c < |x.colRows| ==>
              && x'.colWeight[c] == (if c in row then x.colWeight[c] + 1 else x.colWeight[c])
              && x'.colRows[c] == (if c in row && c !in before then x.colRows[c] + [r]
                                   else x.colRows[c])
  {
    x' := x;
    for k := 0 to |row|
      invariant |x'.colWeight| == |x'.colRows| == |x.colRows|
      invariant forall c :: 0 <= c < |x.colRows| ==>
                  && x'.colWeight[c] == (if c in row[..k] then x.colWeight[c] + 1
                                         else x.colWeight[c])
                  && x'.colRows[c] == (if c in row[..k] && c !in before then x.colRows[c] + [r]
                                       else x.colRows[c])
    {
      var c := row[k];
      assert c !in row[..k];
      assert row[..k + 1] == row[..k] + [c];
      var lists := x'.colRows;
      if c !in before {
        lists := lists[c := lists[c] + [r]];
      }
      x' := Index(x'.colWeight[c := x'.colWeight[c] + 1], lists);
    }
    assert row[..|row|] == row;
  }

  // ---------------------------------------------------------------------------
  // Row updates
  // ---------------------------------------------------------------------------

  lemma HeldIsPositive(x: Index, rows: seq<seq<nat>>, nCols: nat, r: nat)
    requires Exact(x, rows, nCols) && RowsOk(rows, nCols) && r < |rows|
    ensures forall k :: 0 <= k < |rows[r]| ==> x.colWeight[rows[r][k]] > 0
  {
    forall k | 0 <= k < |rows[r]| ensures x.colWeight[rows[r][k]] > 0 {
      assert r in x.colRows[rows[r][k]];
    }
  }

  /** Replaces row `r`: the weights of the old columns go down and those of the new ones up,
      the row leaves the lists of cancelled columns and joins those of new ones. */
  method ReplaceRow(x: Index, ghost rows: seq<seq<nat>>, ghost nCols: nat, r: nat,
                    row: seq<nat>, newRow: seq<nat>) returns (x': Index)
    requires RowsOk(rows, nCols) && Exact(x, rows, nCols)
    requires r < |rows| && rows[r] == row
    requires Increasing(newRow) && InRange(newRow, nCols)
    ensures Exact(x', rows[r := newRow], nCols)
    ensures RowsOk(rows[r := newRow], nCols)
    ensures forall c :: 0 <= c < nCols ==>
              x'.colWeight[c] == x.colWeight[c] - (if c in row then 1 else 0)
                                 + (if c in newRow then 1 else 0)
  {
    HeldIsPositive(x, rows, nCols, r);
    var weight := Decrement(x.colWeight, row);
    var lists := Unregister(x.colRows, row, newRow, r);
    x' := Register(Index(weight, lists), newRow, row, r);
    ghost var rows' := rows[r := newRow];
    forall c | 0 <= c < nCols
      ensures Distinct(x'.colRows[c]) && ListsHolders(x'.colRows[c], rows', c)
      ensures x'.colWeight[c] == |x'.colRows[c]|
      ensures x'.colWeight[c] == x.colWeight[c] - (if c in row then 1 else 0)
                                 + (if c in newRow then 1 else 0)
    {
      assert r in x.colRows[c] <==> c in row;
      WithoutDistinct(x.colRows[c], r);
      if r !in x.colRows[c] {
        DistinctAppend(x.colRows[c], r);
      }
    }
  }

  /** Deletes row `r` from the index. */
  method DeleteRow(x: Index, ghost rows: seq<seq<nat>>, ghost nCols: nat, r: nat, row: seq<nat>)
    returns (x': Index)
    requires RowsOk(rows, nCols) && Exact(x, rows, nCols)
    requires r < |rows| && rows[r] == row
    ensures Exact(x', rows[r := []], nCols)
    ensures RowsOk(rows[r := []], nCols)
    ensures forall c :: 0 <= c < nCols ==>
              x'.colWeight[c] == x.colWeight[c] - (if c in row then 1 else 0)
  {
    x' := ReplaceRow(x, rows, nCols, r, row, []);
  }

  /** An exact index whose lists are ascending. */
  ghost predicate Ascending(x: Index, rows: seq<seq<nat>>, nCols: nat) {
    Exact(x, rows, nCols) && forall c :: 0 <= c < nCols ==> Increasing(x.colRows[c])
  }

  /** Registering one more row under its columns. */
  lemma OneMoreRow(before: Index, x: Index, rows: seq<seq<nat>>, nCols: nat, r: nat, c: nat)
    requires r < |rows| && Ascending(before, rows[..r], nCols) && c < nCols
    requires |x.colWeight| == |x.colRows| == nCols
    requires x.colWeight[c]
             == (if c in rows[r] then before.colWeight[c] + 1 else before.colWeight[c])
    requires x.colRows[c] == (if c in rows[r] then before.colRows[c] + [r] else before.colRows[c])
    ensures Distinct(x.colRows[c]) && ListsHolders(x.colRows[c], rows[..r + 1], c)
    ensures x.colWeight[c] == |x.colRows[c]| && Increasing(x.colRows[c])
  {
    var list := before.colRows[c];
    assert rows[..r + 1] == rows[..r] + [rows[r]];
    forall k | 0 <= k < |list| ensures list[k] < r {
      assert list[k] in list;
    }
    DistinctAppend(list, r);
  }

  /** Builds the index of a fresh matrix. */
  method BuildIndex(rows: seq<seq<nat>>, nCols: nat) returns (x: Index)
    requires RowsOk(rows, nCols)
    ensures Ascending(x, rows, nCols)
  {
    x := Index(seq(nCols, _ => 0), seq(nCols, _ => []));
    for r := 0 to |rows|
      invariant |x.colWeight| == |x.colRows| == nCols
      invariant Ascending(x, rows[..r], nCols)
    {
      var before := x;
      x := Register(before, rows[r], [], r);
      hide Distinct, ListsHolders, Increasing;
      forall c | 0 <= c < nCols
        ensures Distinct(x.colRows[c]) && ListsHolders(x.colRows[c], rows[..r + 1], c)
        ensures x.colWeight[c] == |x.colRows[c]| && Increasing(x.colRows[c])
      {
        OneMoreRow(before, x, rows, nCols, r, c);
      }
    }
    assert rows[..|rows|] == rows;
  }
}
