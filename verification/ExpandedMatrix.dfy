/** Building the parity matrix: sign, two, factor base primes, large primes. */
module ExpandedMatrix {
  import opened Gf2
  import opened SparseRows
  import opened CsrMatrix
  import opened MergeTrees
  import opened Relations

  datatype LpCol = NoLp | LpCol(col: nat)

  /** The factor base columns with odd exponent, shifted past sign and two. */
  ghost function OddFactors(factors: seq<Factor>): set<nat> {
    set k | 0 <= k < |factors| && factors[k].count % 2 == 1 :: factors[k].index + 2
  }

  /** The columns of one relation. */
  ghost function RowOf(rel: Relation, lp: LpCol): set<nat> {
    (if rel.sign != 1 then {0} else {})
    + (if rel.val2 % 2 == 1 then {1} else {})
    + OddFactors(rel.factors)
    + (if lp.LpCol? then {lp.col} else {})
  }

  lemma OddFactorsStep(factors: seq<Factor>, k: nat)
    requires k < |factors|
    ensures OddFactors(factors[..k + 1]) ==
            OddFactors(factors[..k]) + if factors[k].count % 2 == 1 then {factors[k].index + 2}
                                       else {}
  {
    assert factors[..k + 1] == factors[..k] + [factors[k]];
    forall c
      ensures c in OddFactors(factors[..k + 1]) <==>
              (c in OddFactors(factors[..k])
               || (factors[k].count % 2 == 1 && c == factors[k].index + 2))
    {
      if c in OddFactors(factors[..k]) {
        var j :| 0 <= j < k && factors[j].count % 2 == 1 && factors[j].index + 2 == c;
        assert factors[..k + 1][j] == factors[j];
      }
      if factors[k].count % 2 == 1 && c == factors[k].index + 2 {
        assert factors[..k + 1][k] == factors[k];
      }
      if c in OddFactors(factors[..k + 1]) {
        var j :| 0 <= j < k + 1 && factors[..k + 1][j].count % 2 == 1
                 && factors[..k + 1][j].index + 2 == c;
        if j < k {
          assert factors[..k][j] == factors[j];
        }
      }
    }
  }

  lemma OddFactorsFresh(factors: seq<Factor>, k: nat, fbSize: nat)
    requires k < |factors| && FactorsOk(factors, fbSize)
    ensures factors[k].index + 2 !in OddFactors(factors[..k])
    ensures forall c :: c in OddFactors(factors[..k]) ==> 2 <= c < fbSize + 2
  {
  }

  // ---------------------------------------------------------------------------
  // One row
  // ---------------------------------------------------------------------------

  /** The number of factors with odd exponent. */
  method CountFactors(factors: seq<Factor>, ghost fbSize: nat) returns (count: nat)
    requires FactorsOk(factors, fbSize)
    ensures count == |OddFactors(factors)|
  {
    count := 0;
    assert OddFactors(factors[..0]) == {};
    for j := 0 to |factors|
      invariant count == |OddFactors(factors[..j])|
    {
      OddFactorsStep(factors, j);
      OddFactorsFresh(factors, j, fbSize);
      if factors[j].count % 2 == 1 {
        count := count + 1;
      }
    }
    assert factors[..|factors|] == factors;
  }

  /** Pass 1: the number of columns of a row. */
  method CountRowCols(rel: Relation, lp: LpCol, ghost fbSize: nat) returns (count: nat)
    requires FactorsOk(rel.factors, fbSize)
    requires lp.LpCol? ==> lp.col >= fbSize + 2
    ensures count == |RowOf(rel, lp)|
  {
    count := 0;
    if rel.sign != 1 { count := count + 1; }
    if rel.val2 % 2 == 1 { count := count + 1; }
    var odd := CountFactors(rel.factors, fbSize);
    count := count + odd;
    if lp.LpCol? { count := count + 1; }
    RowCard(rel, lp, fbSize);
  }

  lemma RowCard(rel: Relation, lp: LpCol, fbSize: nat)
    requires FactorsOk(rel.factors, fbSize)
    requires lp.LpCol? ==> lp.col >= fbSize + 2
    ensures |RowOf(rel, lp)| == (if rel.sign != 1 then 1 else 0)
              + (if rel.val2 % 2 == 1 then 1 else 0) + |OddFactors(rel.factors)|
              + (if lp.LpCol? then 1 else 0)
  {
    var a := if rel.sign != 1 then {0} else {};
    var b := if rel.val2 % 2 == 1 then {1} else {};
    var o := OddFactors(rel.factors);
    var d := if lp.LpCol? then {lp.col} else {};
    OddFactorsRange(rel.factors, fbSize);
    hide OddFactors, FactorsOk;
    DisjointCard(a, b);
    DisjointCard(a + b, o);
    DisjointCard(a + b + o, d);
  }

  lemma DisjointCard(a: set<nat>, b: set<nat>)
    requires a !! b
    ensures |a + b| == |a| + |b|
  {
  }

  lemma OddFactorsRange(factors: seq<Factor>, fbSize: nat)
    requires FactorsOk(factors, fbSize)
    ensures forall c :: c in OddFactors(factors) ==> 2 <= c < fbSize + 2
  {
  }

  /** Sorts distinct columns. */
  method SortColumns(cols: seq<nat>) returns (sorted: seq<nat>)
    requires forall i, j :: 0 <= i < j < |cols| ==> cols[i] != cols[j]
    ensures Increasing(sorted) && Cols(sorted) == Cols(cols)
  {
    sorted := [];
    for i := 0 to |cols|
      invariant Increasing(sorted) && Cols(sorted) == Cols(cols[..i])
    {
      assert cols[i] !in Cols(cols[..i]);
      ColsSnoc(cols, i);
      sorted := InsertSorted(sorted, cols[i]);
    }
    assert cols[..|cols|] == cols;
  }

  /** The factor base columns with odd exponent, in the order the factors are listed. */
  method CollectFactors(factors: seq<Factor>, ghost fbSize: nat) returns (cols: seq<nat>)
    requires FactorsOk(factors, fbSize)
    ensures Cols(cols) == OddFactors(factors)
    ensures forall i, j :: 0 <= i < j < |cols| ==> cols[i] != cols[j]
  {
    cols := [];
    assert OddFactors(factors[..0]) == {};
    for j := 0 to |factors|
      invariant Cols(cols) == OddFactors(factors[..j])
      invariant forall i, k :: 0 <= i < k < |cols| ==> cols[i] != cols[k]
    {
      OddFactorsStep(factors, j);
      OddFactorsFresh(factors, j, fbSize);
      if factors[j].count % 2 == 1 {
        assert factors[j].index + 2 !in Cols(cols);
        ColsAppend(cols, factors[j].index + 2);
        cols := cols + [factors[j].index + 2];
      }
    }
    assert factors[..|factors|] == factors;
  }

  /** The sign and prime-2 columns of a row. */
  method HeadColumns(rel: Relation) returns (head: seq<nat>)
    ensures Increasing(head) && forall k :: 0 <= k < |head| ==> head[k] < 2
    ensures Cols(head) == (if rel.sign != 1 then {0} else {})
                          + (if rel.val2 % 2 == 1 then {1} else {})
  {
    head := [];
    if rel.sign != 1 { head := head + [0]; }
    if rel.val2 % 2 == 1 { head := head + [1]; }
  }

  /** Pass 2: the columns of a row in ascending order. */
  method FillRowCols(rel: Relation, lp: LpCol, ghost fbSize: nat) returns (row: seq<nat>)
    requires FactorsOk(rel.factors, fbSize)
    requires lp.LpCol? ==> lp.col >= fbSize + 2
    ensures Increasing(row) && Cols(row) == RowOf(rel, lp)
  {
    var head := HeadColumns(rel);
    var fb := CollectFactors(rel.factors, fbSize);
    fb := SortColumns(fb);
    OddFactorsRange(rel.factors, fbSize);
    forall k | 0 <= k < |fb| ensures 2 <= fb[k] < fbSize + 2 {
      assert fb[k] in Cols(fb);
    }
    ConcatIncreasing(head, fb);
    row := head + fb;
    if lp.LpCol? {
      assert forall k :: 0 <= k < |row| ==> row[k] < fbSize + 2;
      ConcatIncreasing(row, [lp.col]);
      row := row + [lp.col];
    }
  }

  lemma ConcatIncreasing(a: seq<nat>, b: seq<nat>)
    requires Increasing(a) && Increasing(b)
    requires forall i, j :: 0 <= i < |a| && 0 <= j < |b| ==> a[i] < b[j]
    ensures Increasing(a + b) && Cols(a + b) == Cols(a) + Cols(b)
  {
  }

  // ---------------------------------------------------------------------------
  // Large prime columns
  // ---------------------------------------------------------------------------

  /** The large primes `lps`, in the order they were first met, own the columns after the
      factor base. */
  ghost predicate LpColumns(lpColMap: map<nat, nat>, lps: seq<nat>, fbSize: nat) {
    && (forall k :: 0 <= k < |lps| ==> lps[k] in lpColMap && lpColMap[lps[k]] == fbSize + 2 + k)
    && (forall lp :: lp in lpColMap ==>
          fbSize + 2 <= lpColMap[lp] < fbSize + 2 + |lps|
          && lps[lpColMap[lp] - (fbSize + 2)] == lp)
  }

  method AssignLpColumns(partials: Batch, fbSize: nat)
    returns (lpColMap: map<nat, nat>, nextLpCol: nat, ghost lps: seq<nat>)
    requires partials.Valid()
    ensures LpColumns(lpColMap, lps, fbSize)
    ensures nextLpCol == fbSize + 2 + |lps|
    ensures forall i :: 0 <= i < partials.numRelations ==> partials.largePrimes[i] in lpColMap
    ensures forall lp :: lp in lpColMap ==> lp in partials.largePrimes
  {
    lpColMap, lps, nextLpCol := map[], [], fbSize + 2;
    for i := 0 to partials.numRelations
      invariant LpColumns(lpColMap, lps, fbSize)
      invariant nextLpCol == fbSize + 2 + |lps|
      invariant forall k :: 0 <= k < i ==> partials.largePrimes[k] in lpColMap
      invariant forall lp :: lp in lpColMap ==> lp in partials.largePrimes
    {
      var lp := partials.largePrimes[i];
      if lp !in lpColMap {
        lpColMap := lpColMap[lp := nextLpCol];
        lps := lps + [lp];
        nextLpCol := nextLpCol + 1;
      }
    }
  }

  // ---------------------------------------------------------------------------
  // The whole matrix
  // ---------------------------------------------------------------------------

  datatype ExpandedResult = ExpandedResult(matrix: Csr, lpColMap: map<nat, nat>, numLpCols: nat)

  /** What the builder expects of a batch. */
  ghost predicate BatchOk(b: Batch, fbSize: nat) {
    && b.Valid()
    && forall i :: 0 <= i < b.numRelations ==> RelationFactorsOk(b, i, fbSize)
  }

  ghost predicate RelationFactorsOk(b: Batch, i: nat, fbSize: nat)
    requires b.Valid() && i < b.numRelations
  {
    b.CoversLess(b.numRelations, i + 1);
    FactorsOk(b.FactorsOf(i), fbSize)
  }

  /** Row `r` of the matrix: smooth relations first, then partial relations. */
  ghost function RelationOf(smooths: Batch, partials: Batch, r: nat): Relation
    requires smooths.Valid() && partials.Valid()
    requires r < smooths.numRelations + partials.numRelations
  {
    if r < smooths.numRelations then
      smooths.CoversLess(smooths.numRelations, r + 1);
      smooths.At(r)
    else
      var i := r - smooths.numRelations;
      partials.CoversLess(partials.numRelations, i + 1);
      partials.At(i)
  }

  ghost function LpOf(smooths: Batch, partials: Batch, lpColMap: map<nat, nat>, r: nat): LpCol
    requires smooths.Valid() && partials.Valid()
    requires r < smooths.numRelations + partials.numRelations
    requires forall i :: 0 <= i < partials.numRelations ==> partials.largePrimes[i] in lpColMap
  {
    if r < smooths.numRelations then NoLp
    else LpCol(lpColMap[partials.largePrimes[r - smooths.numRelations]])
  }

  /** A relation together with its large prime column. */
  method Fetch(smooths: Batch, partials: Batch, lpColMap: map<nat, nat>, r: nat,
               ghost fbSize: nat, ghost lps: seq<nat>)
    returns (rel: Relation, lp: LpCol)
    requires BatchOk(smooths, fbSize) && BatchOk(partials, fbSize)
    requires r < smooths.numRelations + partials.numRelations
    requires forall i :: 0 <= i < partials.numRelations ==> partials.largePrimes[i] in lpColMap
    requires LpColumns(lpColMap, lps, fbSize)
    ensures rel == RelationOf(smooths, partials, r)
    ensures lp == LpOf(smooths, partials, lpColMap, r)
    ensures FactorsOk(rel.factors, fbSize)
    ensures lp.LpCol? ==> fbSize + 2 <= lp.col < fbSize + 2 + |lps|
  {
    if r < smooths.numRelations {
      smooths.CoversLess(smooths.numRelations, r + 1);
      assert RelationFactorsOk(smooths, r, fbSize);
      rel, lp := smooths.At(r), NoLp;
    } else {
      var i := r - smooths.numRelations;
      partials.CoversLess(partials.numRelations, i + 1);
      assert RelationFactorsOk(partials, i, fbSize);
      rel, lp := partials.At(i), LpCol(lpColMap[partials.largePrimes[i]]);
    }
  }

  /** The matrix rows as the relations define them. */
  ghost function ParityRows(smooths: Batch, partials: Batch, lpColMap: map<nat, nat>)
    : (rows: seq<set<nat>>)
    requires smooths.Valid() && partials.Valid()
    requires forall i :: 0 <= i < partials.numRelations ==> partials.largePrimes[i] in lpColMap
    ensures |rows| == smooths.numRelations + partials.numRelations
    ensures forall r :: 0 <= r < |rows| ==>
              rows[r] == RowOf(RelationOf(smooths, partials, r),
                               LpOf(smooths, partials, lpColMap, r))
  {
    seq(smooths.numRelations + partials.numRelations,
        r requires 0 <= r < smooths.numRelations + partials.numRelations =>
          RowOf(RelationOf(smooths, partials, r), LpOf(smooths, partials, lpColMap, r)))
  }

  /** Everything the two passes over the relations rely on. */
  ghost predicate Prepared(smooths: Batch, partials: Batch, lpColMap: map<nat, nat>,
                           fbSize: nat, lps: seq<nat>)
  {
    && BatchOk(smooths, fbSize) && BatchOk(partials, fbSize)
    && (forall i :: 0 <= i < partials.numRelations ==> partials.largePrimes[i] in lpColMap)
    && LpColumns(lpColMap, lps, fbSize)
  }

  ghost function Lengths(rows: seq<set<nat>>): (n: seq<nat>)
    ensures |n| == |rows| && forall r :: 0 <= r < |rows| ==> n[r] == |rows[r]|
  {
    seq(|rows|, r requires 0 <= r < |rows| => |rows[r]|)
  }

  /** The length of one row. */
  method CountRow(smooths: Batch, partials: Batch, lpColMap: map<nat, nat>, r: nat,
                  ghost fbSize: nat, ghost lps: seq<nat>) returns (count: nat)
    requires Prepared(smooths, partials, lpColMap, fbSize, lps)
    requires r < smooths.numRelations + partials.numRelations
    ensures count == |ParityRows(smooths, partials, lpColMap)[r]|
  {
    var rel, lp := Fetch(smooths, partials, lpColMap, r, fbSize, lps);
    count := CountRowCols(rel, lp, fbSize);
  }

  /** Pass 1: the length of every row. */
  method RowCounts(smooths: Batch, partials: Batch, lpColMap: map<nat, nat>,
                   ghost fbSize: nat, ghost lps: seq<nat>) returns (counts: seq<nat>)
    requires Prepared(smooths, partials, lpColMap, fbSize, lps)
    ensures var rows := ParityRows(smooths, partials, lpColMap);
            |counts| == |rows| && forall r :: 0 <= r < |rows| ==> counts[r] == |rows[r]|
  {
    hide RelationFactorsOk, LpColumns, RowOf, FactorsOk;
    ghost var lengths := Lengths(ParityRows(smooths, partials, lpColMap));
    counts := [];
    for r := 0 to smooths.numRelations + partials.numRelations
      invariant counts == lengths[..r]
    {
      var count := CountRow(smooths, partials, lpColMap, r, fbSize, lps);
      counts := counts + [count];
    }
  }

  ghost predicate RunningSums(offsets: seq<nat>, counts: seq<nat>) {
    && |offsets| == |counts| + 1 && offsets[0] == 0
    && forall r :: 0 <= r < |counts| ==> offsets[r + 1] == offsets[r] + counts[r]
  }

  method PrefixSums(counts: seq<nat>) returns (offsets: seq<nat>)
    ensures RunningSums(offsets, counts)
  {
    offsets := [0];
    for r := 0 to |counts|
      invariant |offsets| == r + 1 && offsets[0] == 0
      invariant forall k :: 0 <= k < r ==> offsets[k + 1] == offsets[k] + counts[k]
    {
      offsets := offsets + [offsets[r] + counts[r]];
    }
  }

  lemma {:induction false} SumsMonotone(offsets: seq<nat>, counts: seq<nat>, i: nat, j: nat)
    requires RunningSums(offsets, counts) && i <= j < |offsets|
    ensures offsets[i] <= offsets[j]
    decreases j
  {
    if i < j {
      SumsMonotone(offsets, counts, i, j - 1);
      assert offsets[(j - 1) + 1] == offsets[j - 1] + counts[j - 1];
    }
  }

  lemma RowInRange(rel: Relation, lp: LpCol, fbSize: nat, nCols: nat)
    requires FactorsOk(rel.factors, fbSize) && fbSize + 2 <= nCols
    requires lp.LpCol? ==> lp.col < nCols
    ensures RowOf(rel, lp) <= Below(nCols)
  {
    OddFactorsRange(rel.factors, fbSize);
  }

  ghost predicate RowWritten(row: seq<nat>, cols: set<nat>, nCols: nat) {
    Increasing(row) && Cols(row) == cols && cols <= Below(nCols)
  }

  /** The first `n` rows are written to their slices. */
  ghost predicate Written(colIndices: seq<nat>, offsets: seq<nat>, counts: seq<nat>,
                          rows: seq<set<nat>>, n: nat, nCols: nat)
    requires RunningSums(offsets, counts) && n <= |counts| == |rows|
  {
    && |colIndices| == offsets[n]
    && forall k :: 0 <= k < n ==> SliceWritten(colIndices, offsets, rows, k, nCols)
  }

  ghost predicate SliceWritten(colIndices: seq<nat>, offsets: seq<nat>, rows: seq<set<nat>>,
                               k: nat, nCols: nat)
    requires k + 1 < |offsets| && k < |rows|
  {
    && offsets[k] <= offsets[k + 1] <= |colIndices|
    && RowWritten(colIndices[offsets[k]..offsets[k + 1]], rows[k], nCols)
  }

  lemma WrittenStep(colIndices: seq<nat>, row: seq<nat>, offsets: seq<nat>, counts: seq<nat>,
                    rows: seq<set<nat>>, n: nat, nCols: nat)
    requires RunningSums(offsets, counts) && n < |counts| == |rows|
    requires Written(colIndices, offsets, counts, rows, n, nCols)
    requires RowWritten(row, rows[n], nCols) && |row| == counts[n]
    ensures Written(colIndices + row, offsets, counts, rows, n + 1, nCols)
  {
    var after := colIndices + row;
    forall k | 0 <= k < n + 1 ensures SliceWritten(after, offsets, rows, k, nCols) {
      if k < n {
        assert SliceWritten(colIndices, offsets, rows, k, nCols);
        assert after[offsets[k]..offsets[k + 1]] == colIndices[offsets[k]..offsets[k + 1]];
      } else {
        assert after[offsets[k]..offsets[k + 1]] == row;
      }
    }
  }

  /** Pass 2: writes every row to the slice that pass 1 reserved for it. */
  method FillRows(smooths: Batch, partials: Batch, lpColMap: map<nat, nat>, offsets: seq<nat>,
                  nCols: nat, ghost counts: seq<nat>, ghost fbSize: nat, ghost lps: seq<nat>)
    returns (colIndices: seq<nat>)
    requires Prepared(smooths, partials, lpColMap, fbSize, lps)
    requires nCols == fbSize + 2 + |lps|
    requires RunningSums(offsets, counts)
    requires var rows := ParityRows(smooths, partials, lpColMap);
             |counts| == |rows| && forall r :: 0 <= r < |rows| ==> counts[r] == |rows[r]|
    ensures Written(colIndices, offsets, counts, ParityRows(smooths, partials, lpColMap),
                    |counts|, nCols)
  {
    ghost var rows := ParityRows(smooths, partials, lpColMap);
    colIndices := [];
    for r := 0 to smooths.numRelations + partials.numRelations
      invariant Written(colIndices, offsets, counts, rows, r, nCols)
    {
      var rel, lp := Fetch(smooths, partials, lpColMap, r, fbSize, lps);
      var row := FillRowCols(rel, lp, fbSize);
      IncreasingCard(row);
      RowInRange(rel, lp, fbSize, nCols);
      WrittenStep(colIndices, row, offsets, counts, rows, r, nCols);
      colIndices := colIndices + row;
    }
  }

  lemma WrittenMatrix(m: Csr, counts: seq<nat>, rows: seq<set<nat>>)
    requires RunningSums(m.rowOffsets, counts) && |counts| == |rows| == m.nRows
    requires Written(m.colIndices, m.rowOffsets, counts, rows, |counts|, m.nCols)
    ensures m.Valid() && m.Vectors() == rows
  {
    forall i, j | 0 <= i <= j <= m.nRows ensures m.rowOffsets[i] <= m.rowOffsets[j] {
      SumsMonotone(m.rowOffsets, counts, i, j);
    }
    forall r | 0 <= r < m.nRows ensures RowWritten(m.Row(r), rows[r], m.nCols) {
      assert SliceWritten(m.colIndices, m.rowOffsets, rows, r, m.nCols);
    }
  }

  /** Builds the parity matrix of all relations. */
  method Build(smooths: Batch, partials: Batch, fbSize: nat)
    returns (result: ExpandedResult, ghost lps: seq<nat>)
    requires BatchOk(smooths, fbSize) && BatchOk(partials, fbSize)
    ensures result.matrix.Valid()
    ensures result.matrix.nCols == fbSize + 2 + result.numLpCols && result.numLpCols == |lps|
    ensures Prepared(smooths, partials, result.lpColMap, fbSize, lps)
    ensures forall k :: 0 <= k < |lps| ==> lps[k] in partials.largePrimes
    ensures result.matrix.Vectors() == ParityRows(smooths, partials, result.lpColMap)
  {
    var lpColMap, nextLpCol;
    lpColMap, nextLpCol, lps := AssignLpColumns(partials, fbSize);
    ghost var rows := ParityRows(smooths, partials, lpColMap);
    var counts := RowCounts(smooths, partials, lpColMap, fbSize, lps);
    var offsets := PrefixSums(counts);
    var colIndices := FillRows(smooths, partials, lpColMap, offsets, nextLpCol, counts,
                               fbSize, lps);
    var matrix := Csr(offsets, colIndices, smooths.numRelations + partials.numRelations,
                      nextLpCol);
    WrittenMatrix(matrix, counts, rows);
    result := ExpandedResult(matrix, lpColMap, nextLpCol - (fbSize + 2));
    forall k | 0 <= k < |lps| ensures lps[k] in partials.largePrimes {
      assert lps[k] in lpColMap;
    }
  }
}
