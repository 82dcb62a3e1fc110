/** Keeping only as many rows as the solver needs without losing a column. */
module Truncation {
  import opened Basics
  import opened Gf2
  import opened SparseRows
  import opened Reduction
  import opened Passes
  import opened CsrMatrix
  import opened ColumnIndex
  import opened MergeState
  import opened Singletons

  datatype TruncationResult = TruncationResult(
    truncated: Csr,
    rowMap: seq<nat>,
    rowsRemoved: nat,
    colsRemoved: nat)

  // ---------------------------------------------------------------------------
  // Row order
  // ---------------------------------------------------------------------------

  /** Lighter rows first, ties by row index. */
  predicate Before(weight: seq<nat>, a: nat, b: nat)
    requires a < |weight| && b < |weight|
  {
    weight[a] < weight[b] || (weight[a] == weight[b] && a < b)
  }

  ghost predicate Ordered(weight: seq<nat>, s: seq<nat>) {
    && (forall i :: 0 <= i < |s| ==> s[i] < |weight|)
    && forall i, j :: 0 <= i < j < |s| ==> Before(weight, s[i], s[j])
  }

  /** All row indices, sorted by weight and index. */
  method SortRows(weight: seq<nat>) returns (indices: seq<nat>)
    ensures Ordered(weight, indices) && Cols(indices) == Below(|weight|)
  {
    indices := [];
    for r := 0 to |weight|
      invariant Ordered(weight, indices) && Cols(indices) == Below(r)
    {
      assert r !in Cols(indices);
      indices := InsertByWeight(weight, indices, r);
    }
  }

  method InsertByWeight(weight: seq<nat>, s: seq<nat>, r: nat) returns (t: seq<nat>)
    requires Ordered(weight, s) && r < |weight| && r !in s
    ensures Ordered(weight, t) && Cols(t) == Cols(s) + {r}
  {
    var i := |s|;
    while i > 0 && Before(weight, r, s[i - 1])
      invariant 0 <= i <= |s|
      invariant forall k :: i <= k < |s| ==> Before(weight, r, s[k])
    {
      i := i - 1;
    }
    InsertedOrder(weight, s, r, i);
    t := s[..i] + [r] + s[i..];
  }

  lemma InsertedOrder(weight: seq<nat>, s: seq<nat>, r: nat, i: nat)
    requires Ordered(weight, s) && r < |weight| && r !in s && i <= |s|
    requires forall k :: i <= k < |s| ==> Before(weight, r, s[k])
    requires i > 0 ==> !Before(weight, r, s[i - 1])
    ensures Ordered(weight, s[..i] + [r] + s[i..])
    ensures Cols(s[..i] + [r] + s[i..]) == Cols(s) + {r}
  {
    var t := s[..i] + [r] + s[i..];
    forall k | 0 <= k < i ensures Before(weight, s[k], r) {
      assert s[i - 1] in s && s[i - 1] != r;
      assert k == i - 1 || Before(weight, s[k], s[i - 1]);
    }
    forall a, b | 0 <= a < b < |t| ensures Before(weight, t[a], t[b]) {
      OrderAt(weight, s, r, i, a, b);
    }
    InsertedElements(s, r, i);
  }

  lemma OrderAt(weight: seq<nat>, s: seq<nat>, r: nat, i: nat, a: nat, b: nat)
    requires Ordered(weight, s) && r < |weight| && i <= |s|
    requires forall k :: i <= k < |s| ==> Before(weight, r, s[k])
    requires forall k :: 0 <= k < i ==> Before(weight, s[k], r)
    requires a < b < |s| + 1
    ensures var t := s[..i] + [r] + s[i..];
            t[a] < |weight| && t[b] < |weight| && Before(weight, t[a], t[b])
  {
    var t := s[..i] + [r] + s[i..];
    assert t[a] == if a < i then s[a] else if a == i then r else s[a - 1];
    assert t[b] == if b < i then s[b] else if b == i then r else s[b - 1];
  }

  // ---------------------------------------------------------------------------
  // Admitting rows
  // ---------------------------------------------------------------------------

  /** The columns with a positive count. */
  ghost function Positive(count: seq<nat>): set<nat> {
    set c | c in Below(|count|) && count[c] > 0
  }

  datatype Admission = Admission(admitted: seq<bool>, count: nat, coverage: seq<nat>, covered: nat)

  /** The counters of a selection agree with the rows it admits. */
  ghost predicate Tracks(s: Admission, rows: seq<set<nat>>, nCols: nat) {
    && |s.admitted| == |rows| && |s.coverage| == nCols
    && s.count == Live(s.admitted)
    && WeightsOf(rows, Alive(s.admitted), s.coverage)
    && s.covered == |Positive(s.coverage)|
  }

  lemma PositiveStep(count: seq<nat>, c: nat)
    requires c < |count|
    ensures Positive(count[..c + 1]) ==
            if count[c] > 0 then Positive(count[..c]) + {c} else Positive(count[..c])
  {
  }

  method CountPositive(count: seq<nat>) returns (n: nat)
    ensures n == |Positive(count)|
  {
    n := 0;
    assert Positive(count[..0]) == {};
    for c := 0 to |count|
      invariant n == |Positive(count[..c])|
    {
      PositiveStep(count, c);
      if count[c] > 0 {
        n := n + 1;
      }
    }
    assert count[..|count|] == count;
  }

  /** `after` counts the first `k` columns of the row on top of `before`. */
  ghost predicate CountsRow(before: seq<nat>, after: seq<nat>, row: seq<nat>, k: nat) {
    && |after| == |before| && k <= |row|
    && forall c :: 0 <= c < |after| ==> after[c] == before[c] + if c in row[..k] then 1 else 0
  }

  lemma CountColumn(before: seq<nat>, after: seq<nat>, row: seq<nat>, k: nat)
    requires Increasing(row) && k < |row| && row[k] < |after|
    requires CountsRow(before, after, row, k)
    ensures CountsRow(before, after[row[k] := after[row[k]] + 1], row, k + 1)
  {
    assert row[k] !in row[..k];
    assert row[..k + 1] == row[..k] + [row[k]];
  }

  /** One more covered column if the counter was zero. */
  lemma CoverColumn(coverage: seq<nat>, c: nat)
    requires c < |coverage|
    ensures |Positive(coverage[c := coverage[c] + 1])|
            == |Positive(coverage)| + if coverage[c] == 0 then 1 else 0
  {
    assert Positive(coverage[c := coverage[c] + 1]) == Positive(coverage) + {c};
    if coverage[c] > 0 {
      assert Positive(coverage) + {c} == Positive(coverage);
    }
  }

  /** Counts the columns of one more row. */
  method CoverRow(coverage0: seq<nat>, covered0: nat, row: seq<nat>)
    returns (coverage: seq<nat>, covered: nat)
    requires covered0 == |Positive(coverage0)|
    requires Increasing(row) && InRange(row, |coverage0|)
    ensures |coverage| == |coverage0|
    ensures forall c :: 0 <= c < |coverage| ==>
              coverage[c] == coverage0[c] + if c in row then 1 else 0
    ensures covered == |Positive(coverage)|
  {
    hide Positive;
    coverage, covered := coverage0, covered0;
    for k := 0 to |row|
      invariant CountsRow(coverage0, coverage, row, k)
      invariant covered == |Positive(coverage)|
    {
      CountColumn(coverage0, coverage, row, k);
      CoverColumn(coverage, row[k]);
      if coverage[row[k]] == 0 {
        covered := covered + 1;
      }
      coverage := coverage[row[k] := coverage[row[k]] + 1];
    }
    assert row[..|row|] == row;
  }

  lemma {:induction false} LiveGrows(flags: seq<bool>, r: nat)
    requires r < |flags| && !flags[r]
    ensures Live(flags[r := true]) == Live(flags) + 1
  {
    LiveDrops(flags[r := true], r);
    assert flags[r := true][r := false] == flags;
  }

  method AdmitRow(s: Admission, input: Csr, r: nat) returns (s': Admission)
    requires input.Valid() && Tracks(s, input.Vectors(), input.nCols)
    requires r < input.nRows && !s.admitted[r]
    ensures Tracks(s', input.Vectors(), input.nCols)
    ensures s'.admitted == s.admitted[r := true] && s'.count == s.count + 1
    ensures Positive(s'.coverage) == Positive(s.coverage) + Cols(input.Row(r))
    ensures Alive(s'.admitted) == Alive(s.admitted) + {r}
  {
    var row := input.Row(r);
    forall k | 0 <= k < |row| ensures row[k] < input.nCols {
      assert row[k] in Cols(row);
    }
    var coverage, covered := CoverRow(s.coverage, s.covered, row);
    s' := Admission(s.admitted[r := true], s.count + 1, coverage, covered);
    WeightsGrow(input.Vectors(), Alive(s.admitted), s.coverage, coverage, row, r);
    assert Alive(s'.admitted) == Alive(s.admitted) + {r};
    LiveGrows(s.admitted, r);
    forall c: nat
      ensures c in Positive(coverage) <==> c in Positive(s.coverage) + Cols(row)
    {
      assert c in Cols(row) ==> c < input.nCols;
    }
  }

  // ---------------------------------------------------------------------------
  // Which rows are to be admitted
  // ---------------------------------------------------------------------------

  /** The columns of a set of rows. */
  ghost function Covered(rows: seq<set<nat>>, admitted: set<nat>): (s: set<nat>)
    ensures forall c :: c in s <==> exists r :: r in admitted && r < |rows| && c in rows[r]
  {
    set r, c | r in admitted && r < |rows| && c in rows[r] :: c
  }

  /** After `k` rows of the order: every row that touches a column no earlier one covers. */
  ghost function Greedy(rows: seq<set<nat>>, order: seq<nat>, k: nat): set<nat>
    requires k <= |order| && forall i :: 0 <= i < |order| ==> order[i] < |rows|
  {
    if k == 0 then {}
    else
      var before, r := Greedy(rows, order, k - 1), order[k - 1];
      if rows[r] <= Covered(rows, before) then before else before + {r}
  }

  /** The first rows of the order that are missing, as long as there are too few. */
  ghost function TopUp(order: seq<nat>, admitted: set<nat>, target: nat, k: nat): set<nat>
    requires k <= |order|
  {
    if k == 0 then admitted
    else
      var before := TopUp(order, admitted, target, k - 1);
      if |before| < target then before + {order[k - 1]} else before
  }

  lemma GreedyStep(rows: seq<set<nat>>, order: seq<nat>, k: nat, covered: set<nat>)
    requires k < |order| && forall i :: 0 <= i < |order| ==> order[i] < |rows|
    requires covered == Covered(rows, Greedy(rows, order, k))
    ensures Greedy(rows, order, k + 1)
            == if rows[order[k]] <= covered then Greedy(rows, order, k)
               else Greedy(rows, order, k) + {order[k]}
  {
  }

  lemma TopUpStep(order: seq<nat>, admitted: set<nat>, target: nat, k: nat)
    requires k < |order| && |TopUp(order, admitted, target, k)| < target
    ensures TopUp(order, admitted, target, k + 1)
            == TopUp(order, admitted, target, k) + {order[k]}
  {
  }

  lemma {:induction false} GreedyDone(rows: seq<set<nat>>, order: seq<nat>, i: nat, k: nat)
    requires i <= k <= |order| && forall j :: 0 <= j < |order| ==> order[j] < |rows|
    requires forall r :: 0 <= r < |rows| ==> rows[r] <= Covered(rows, Greedy(rows, order, i))
    ensures Greedy(rows, order, k) == Greedy(rows, order, i)
    decreases k - i
  {
    if i < k {
      GreedyDone(rows, order, i, k - 1);
    }
  }

  lemma {:induction false} TopUpDone(order: seq<nat>, admitted: set<nat>, target: nat, i: nat,
                                     k: nat)
    requires i <= k <= |order| && |TopUp(order, admitted, target, i)| >= target
    ensures TopUp(order, admitted, target, k) == TopUp(order, admitted, target, i)
    decreases k - i
  {
    if i < k {
      TopUpDone(order, admitted, target, i, k - 1);
    }
  }

  /** The coverage counters are positive exactly on the columns of the admitted rows. */
  lemma PositiveIsCovered(s: Admission, rows: seq<set<nat>>, nCols: nat)
    requires Tracks(s, rows, nCols)
    requires forall r :: 0 <= r < |rows| ==> rows[r] <= Below(nCols)
    ensures Positive(s.coverage) == Covered(rows, Alive(s.admitted))
  {
    var a := Alive(s.admitted);
    forall c: nat ensures c in Positive(s.coverage) <==> c in Covered(rows, a) {
      if c < nCols {
        var h := Hits(rows, a, c);
        if r :| r in a && r < |rows| && c in rows[r] {
          assert r in h;
        }
        if |h| > 0 {
          var r :| r in h;
          assert r in a && c in rows[r];
        }
      } else {
        assert c !in Below(nCols);
      }
    }
  }

  /** Does the row touch a column that is not covered yet? */
  method IsUseful(row: seq<nat>, coverage: seq<nat>) returns (useful: bool)
    requires InRange(row, |coverage|)
    ensures useful <==> !(Cols(row) <= Positive(coverage))
  {
    useful := false;
    for k := 0 to |row|
      invariant !useful
      invariant forall i :: 0 <= i < k ==> coverage[row[i]] > 0
    {
      if coverage[row[k]] < 1 {
        assert row[k] in Cols(row);
        useful := true;
        break;
      }
    }
  }

  lemma Grows(s: set<nat>, t: set<nat>)
    requires s <= t && s != t
    ensures |s| < |t|
  {
    assert t == s + (t - s);
    assert t - s != {};
  }

  /** One step of the coverage pass: the row is admitted if it touches an uncovered column. */
  method CoverStep(s: Admission, input: Csr, r: nat) returns (s': Admission)
    requires input.Valid() && Tracks(s, input.Vectors(), input.nCols)
    requires r < input.nRows && !s.admitted[r]
    ensures Tracks(s', input.Vectors(), input.nCols)
    ensures |s'.admitted| == input.nRows && |s'.coverage| == input.nCols
    ensures Positive(s.coverage) + Cols(input.Row(r)) == Positive(s'.coverage)
    ensures forall k :: 0 <= k < input.nRows && k != r ==> s'.admitted[k] == s.admitted[k]
    ensures s.count <= s'.count <= s.count + 1
    ensures s'.count - s.count <= s'.covered - s.covered
    ensures Alive(s'.admitted) == if Cols(input.Row(r)) <= Positive(s.coverage)
                                  then Alive(s.admitted) else Alive(s.admitted) + {r}
  {
    hide Alive, Positive, WeightsOf, Live;
    var row := input.Row(r);
    forall k | 0 <= k < |row| ensures row[k] < |s.coverage| {
      assert row[k] in Cols(row);
    }
    s' := s;
    var useful := IsUseful(row, s.coverage);
    if useful {
      s' := AdmitRow(s, input, r);
      Grows(Positive(s.coverage), Positive(s'.coverage));
    }
  }

  ghost predicate AllRowsIn(input: Csr, list: seq<nat>, n: nat, covered: set<nat>)
    requires input.Valid() && n <= |list|
  {
    forall k :: 0 <= k < n ==> list[k] < input.nRows && Cols(input.Row(list[k])) <= covered
  }

  method EmptySelection(input: Csr) returns (s: Admission)
    requires input.Valid()
    ensures Tracks(s, input.Vectors(), input.nCols)
    ensures s.count == 0 && s.covered == 0
    ensures |s.admitted| == input.nRows && |s.coverage| == input.nCols
    ensures forall r :: 0 <= r < input.nRows ==> !s.admitted[r]
  {
    s := Admission(seq(input.nRows, _ => false), 0, seq(input.nCols, _ => 0), 0);
    LiveNone(input.nRows);
    assert Alive(s.admitted) == {};
    assert Positive(s.coverage) == {};
    WeightsStart(input.Vectors(), s.coverage);
  }

  /** The coverage step keeps to the greedy choice. */
  lemma GreedyStepTaken(s: Admission, input: Csr, order: seq<nat>, i: nat)
    requires input.Valid() && Tracks(s, input.Vectors(), input.nCols) && i < |order|
    requires forall k :: 0 <= k < |order| ==> order[k] < input.nRows
    requires Alive(s.admitted) == Greedy(input.Vectors(), order, i)
    ensures Greedy(input.Vectors(), order, i + 1)
            == if Cols(input.Row(order[i])) <= Positive(s.coverage)
               then Alive(s.admitted) else Alive(s.admitted) + {order[i]}
  {
    hide Tracks, Positive, Alive, Greedy;
    AllBelow(input);
    PositiveIsCovered(s, input.Vectors(), input.nCols);
    GreedyStep(input.Vectors(), order, i, Positive(s.coverage));
  }

  /** Once every column is covered no further row is taken. */
  lemma GreedyEnds(s: Admission, input: Csr, order: seq<nat>, i: nat)
    requires input.Valid() && Tracks(s, input.Vectors(), input.nCols) && i <= |order|
    requires forall k :: 0 <= k < |order| ==> order[k] < input.nRows
    requires Alive(s.admitted) == Greedy(input.Vectors(), order, i)
    requires Positive(s.coverage) == Below(input.nCols)
    ensures Greedy(input.Vectors(), order, |order|) == Alive(s.admitted)
  {
    hide Tracks, Positive, Alive, Greedy;
    AllBelow(input);
    PositiveIsCovered(s, input.Vectors(), input.nCols);
    GreedyDone(input.Vectors(), order, i, |order|);
  }

  /** The coverage pass after `i` rows of the order. */
  ghost predicate CoverInv(s: Admission, input: Csr, order: seq<nat>, i: nat, target: nat)
    requires input.Valid() && i <= |order|
    requires forall k :: 0 <= k < |order| ==> order[k] < input.nRows
  {
    && Tracks(s, input.Vectors(), input.nCols)
    && s.count <= s.covered && s.count <= target
    && Alive(s.admitted) == Greedy(input.Vectors(), order, i)
    && AllRowsIn(input, order, i, Positive(s.coverage))
    && |s.admitted| == input.nRows
    && forall k :: i <= k < |order| ==> !s.admitted[order[k]]
  }

  lemma AllRowsInStep(input: Csr, list: seq<nat>, n: nat, covered: set<nat>, more: set<nat>)
    requires input.Valid() && n < |list| && list[n] < input.nRows
    requires AllRowsIn(input, list, n, covered)
    requires covered + Cols(input.Row(list[n])) == more
    ensures AllRowsIn(input, list, n + 1, more)
  {
  }

  /** One step of the coverage pass in the order. */
  method CoverNext(s: Admission, input: Csr, order: seq<nat>, i: nat, target: nat)
    returns (s': Admission)
    requires input.Valid() && i < |order|
    requires forall k :: 0 <= k < |order| ==> order[k] < input.nRows
    requires forall j, k :: 0 <= j < k < |order| ==> order[j] != order[k]
    requires CoverInv(s, input, order, i, target) && s.count < target
    ensures CoverInv(s', input, order, i + 1, target)
  {
    hide Tracks, Positive, Alive, Greedy, AllRowsIn, Csr.Valid;
    GreedyStepTaken(s, input, order, i);
    s' := CoverStep(s, input, order[i]);
    AllRowsInStep(input, order, i, Positive(s.coverage), Positive(s'.coverage));
  }

  /** With every column covered the pass can stop. */
  lemma CoverEnds(s: Admission, input: Csr, order: seq<nat>, i: nat, target: nat)
    requires input.Valid() && i <= |order|
    requires forall k :: 0 <= k < |order| ==> order[k] < input.nRows
    requires CoverInv(s, input, order, i, target)
    requires i == |order| || s.count >= input.nCols
    requires Cols(order) == Below(input.nRows)
    ensures Alive(s.admitted) == Greedy(input.Vectors(), order, |order|)
    ensures forall r :: 0 <= r < input.nRows ==> Cols(input.Row(r)) <= Positive(s.coverage)
  {
    hide Tracks, Positive, Alive, Greedy;
    if i < |order| {
      AllCovered(s, input.Vectors(), input.nCols);
      GreedyEnds(s, input, order, i);
      AllBelow(input);
    } else {
      forall r | 0 <= r < input.nRows ensures Cols(input.Row(r)) <= Positive(s.coverage) {
        assert r in Cols(order);
      }
    }
  }

  /** Coverage pass: admits every row that touches an uncovered column. */
  method CoverageGreedy(input: Csr, indices: seq<nat>, target: nat) returns (s: Admission)
    requires input.Valid() && input.nCols <= target
    requires Cols(indices) == Below(input.nRows)
    requires forall i, j :: 0 <= i < j < |indices| ==> indices[i] != indices[j]
    ensures Tracks(s, input.Vectors(), input.nCols)
    ensures s.count <= target
    ensures forall k :: 0 <= k < |indices| ==> indices[k] < input.nRows
    ensures Alive(s.admitted) == Greedy(input.Vectors(), indices, |indices|)
    ensures forall r :: 0 <= r < input.nRows ==> Cols(input.Row(r)) <= Positive(s.coverage)
  {
    hide Tracks, Positive, Alive, Greedy, Csr.Valid, CoverInv;
    s := EmptySelection(input);
    forall k | 0 <= k < |indices| ensures indices[k] < input.nRows {
      assert indices[k] in Cols(indices);
    }
    CoverStarts(s, input, indices, target);
    var i := 0;
    while i < |indices| && s.count < target
      invariant i <= |indices| && CoverInv(s, input, indices, i, target)
      decreases |indices| - i
    {
      s := CoverNext(s, input, indices, i, target);
      i := i + 1;
    }
    CoverTracks(s, input, indices, i, target);
    CoverEnds(s, input, indices, i, target);
  }

  lemma CoverStarts(s: Admission, input: Csr, order: seq<nat>, target: nat)
    requires input.Valid() && Tracks(s, input.Vectors(), input.nCols)
    requires forall k :: 0 <= k < |order| ==> order[k] < input.nRows
    requires s.count == 0 && s.covered == 0 && |s.admitted| == input.nRows
    requires forall r :: 0 <= r < input.nRows ==> !s.admitted[r]
    ensures CoverInv(s, input, order, 0, target)
  {
    hide Tracks, Positive, Csr.Valid;
    assert Alive(s.admitted) == {};
  }

  lemma CoverTracks(s: Admission, input: Csr, order: seq<nat>, i: nat, target: nat)
    requires input.Valid() && i <= |order|
    requires forall k :: 0 <= k < |order| ==> order[k] < input.nRows
    requires CoverInv(s, input, order, i, target)
    ensures Tracks(s, input.Vectors(), input.nCols) && s.count <= target
  {
    hide Tracks, Positive, Alive, Greedy, Csr.Valid;
  }

  lemma {:induction false} LiveNone(n: nat)
    ensures Live(seq(n, _ => false)) == 0
  {
    if n > 0 {
      LiveNone(n - 1);
      assert seq(n, _ => false)[..n - 1] == seq(n - 1, _ => false);
    }
  }

  /** A coverage with as many covered columns as there are columns covers all of them. */
  lemma AllCovered(s: Admission, rows: seq<set<nat>>, nCols: nat)
    requires Tracks(s, rows, nCols) && s.covered >= nCols
    ensures Positive(s.coverage) == Below(nCols)
  {
    var coverage := s.coverage;
    BelowCard(|coverage|);
    if Positive(coverage) != Below(|coverage|) {
      Grows(Positive(coverage), Below(|coverage|));
    }
  }

  /** One step of the fill pass. */
  method FillStep(s: Admission, input: Csr, r: nat) returns (s': Admission)
    requires input.Valid() && Tracks(s, input.Vectors(), input.nCols)
    requires r < input.nRows
    ensures Tracks(s', input.Vectors(), input.nCols)
    ensures s.count <= s'.count <= s.count + 1
    ensures Positive(s.coverage) <= Positive(s'.coverage)
    ensures s'.admitted == s.admitted[r := true]
    ensures Alive(s'.admitted) == Alive(s.admitted) + {r}
  {
    s' := s;
    if !s.admitted[r] {
      s' := AdmitRow(s, input, r);
    } else {
      assert r in Alive(s.admitted);
    }
  }

  ghost predicate AllIn(admitted: seq<bool>, list: seq<nat>, n: nat)
    requires n <= |list|
  {
    forall k :: 0 <= k < n ==> list[k] < |admitted| && admitted[list[k]]
  }

  lemma AllInStep(admitted: seq<bool>, list: seq<nat>, i: nat)
    requires i < |list| && list[i] < |admitted| && AllIn(admitted, list, i)
    ensures AllIn(admitted[list[i] := true], list, i + 1)
  {
  }

  lemma AllBelow(input: Csr)
    requires input.Valid()
    ensures forall r :: 0 <= r < input.nRows ==> Cols(input.Row(r)) <= Below(input.nCols)
  {
  }

  /** Fill pass: tops the selection up to `target` rows with the lightest remaining ones. */
  method Fill(s0: Admission, input: Csr, indices: seq<nat>, target: nat) returns (s: Admission)
    requires input.Valid() && Tracks(s0, input.Vectors(), input.nCols)
    requires s0.count <= target <= input.nRows
    requires Cols(indices) == Below(input.nRows)
    ensures Tracks(s, input.Vectors(), input.nCols)
    ensures s.count == target
    ensures Positive(s0.coverage) <= Positive(s.coverage)
    ensures Alive(s.admitted) == TopUp(indices, Alive(s0.admitted), target, |indices|)
  {
    hide Positive, Alive, WeightsOf, Live;
    s := s0;
    assert Alive(s.admitted) == TopUp(indices, Alive(s0.admitted), target, 0);
    hide TopUp;
    for i := 0 to |indices|
      invariant Alive(s.admitted) == TopUp(indices, Alive(s0.admitted), target, i)
      invariant Tracks(s, input.Vectors(), input.nCols) && s.count <= target
      invariant Positive(s0.coverage) <= Positive(s.coverage)
      invariant AllIn(s.admitted, indices, i)
    {
      LiveCount(s.admitted);
      if s.count >= target {
        TopUpDone(indices, Alive(s0.admitted), target, i, |indices|);
        return;
      }
      assert indices[i] in Cols(indices);
      ghost var before := s.admitted;
      TopUpStep(indices, Alive(s0.admitted), target, i);
      s := FillStep(s, input, indices[i]);
      AllInStep(before, indices, i);
    }
    AllAdmitted(s.admitted, indices);
  }

  lemma AllAdmitted(admitted: seq<bool>, indices: seq<nat>)
    requires Cols(indices) == Below(|admitted|)
    requires AllIn(admitted, indices, |indices|)
    ensures Live(admitted) == |admitted|
  {
    forall r | 0 <= r < |admitted| ensures admitted[r] {
      assert r in Cols(indices);
    }
    assert Alive(admitted) == Below(|admitted|);
    LiveCount(admitted);
    BelowCard(|admitted|);
  }

  // ---------------------------------------------------------------------------
  // The truncation
  // ---------------------------------------------------------------------------

  /** `output` consists of the rows `kept` of `input` without the columns nobody covers. */
  ghost predicate RowsKept(input: Csr, output: Csr, kept: seq<nat>, colMap: seq<nat>)
    requires input.Valid() && output.Valid()
  {
    && Increasing(kept) && |kept| == output.nRows
    && Increasing(colMap) && |colMap| == output.nCols
    && (forall c: nat :: c in colMap <==> c < input.nCols && Weight(input.Vectors(), c) > 0)
    && forall j :: 0 <= j < |kept| ==>
         && kept[j] < input.nRows
         && Rename(colMap, output.Vectors()[j]) == input.Vectors()[kept[j]]
  }

  lemma InRowsOfInput(input: Csr, c: nat)
    requires input.Valid() && c < input.nCols
    ensures Weight(input.Vectors(), c) > 0 <==>
            exists r :: 0 <= r < input.nRows && c in input.Row(r)
  {
    var h := Hits(input.Vectors(), Below(input.nRows), c);
    if r :| 0 <= r < input.nRows && c in input.Row(r) {
      assert r in h;
    }
    if |h| > 0 {
      var r :| r in h;
      assert c in input.Row(r);
    }
  }

  /** A selection that covers every row's columns covers exactly the columns in use. */
  lemma CoversAll(input: Csr, s: Admission)
    requires input.Valid() && Tracks(s, input.Vectors(), input.nCols)
    requires forall r :: 0 <= r < input.nRows ==> Cols(input.Row(r)) <= Positive(s.coverage)
    ensures forall c :: 0 <= c < input.nCols ==>
              (s.coverage[c] > 0 <==> Weight(input.Vectors(), c) > 0)
  {
    forall c | 0 <= c < input.nCols
      ensures s.coverage[c] > 0 <==> Weight(input.Vectors(), c) > 0
    {
      InRowsOfInput(input, c);
      HitsMono(input.Vectors(), Alive(s.admitted), Below(input.nRows), c);
      if r :| 0 <= r < input.nRows && c in input.Row(r) {
        assert c in Cols(input.Row(r));
      }
    }
  }

  lemma SameCoverage(input: Csr, s: Admission, inputCount: seq<nat>)
    requires input.Valid() && Tracks(s, input.Vectors(), input.nCols)
    requires forall r :: 0 <= r < input.nRows ==> Cols(input.Row(r)) <= Positive(s.coverage)
    requires |inputCount| == input.nCols
    requires WeightsOf(input.Vectors(), Below(input.nRows), inputCount)
    ensures Positive(s.coverage) == Positive(inputCount)
  {
    CoversAll(input, s);
    forall c | 0 <= c < input.nCols
      ensures inputCount[c] > 0 <==> Weight(input.Vectors(), c) > 0
    {
    }
  }

  /** The selected rows, renumbered. */
  method Materialise(input: Csr, inputRowMap: seq<nat>, s: Admission)
    returns (result: TruncationResult, ghost kept: seq<nat>, ghost colMap: seq<nat>)
    requires input.Valid() && |inputRowMap| == input.nRows
    requires Tracks(s, input.Vectors(), input.nCols)
    requires forall r :: 0 <= r < input.nRows ==> Cols(input.Row(r)) <= Positive(s.coverage)
    ensures result.truncated.Valid()
    ensures RowsKept(input, result.truncated, kept, colMap)
    ensures |result.rowMap| == |kept| == s.count
    ensures Cols(kept) == Alive(s.admitted)
    ensures forall j :: 0 <= j < |kept| ==> result.rowMap[j] == inputRowMap[kept[j]]
    ensures result.rowsRemoved == input.nRows - |kept|
    ensures result.colsRemoved == input.nCols - |colMap|
  {
    hide WeightsOf, Weight, Live;
    CoversAll(input, s);
    var rows := input.ToRows();
    forall r | 0 <= r < |rows| && s.admitted[r]
      ensures forall k :: 0 <= k < |rows[r]| ==>
                rows[r][k] < |s.coverage| && s.coverage[rows[r][k]] > 0
    {
      CoveredRow(input.Row(r), s.coverage);
    }
    var truncated, selected, columns := Compact(rows, s.admitted, s.coverage);
    kept, colMap := selected, columns;
    LiveCount(s.admitted);
    IncreasingCard(kept);
    var rowMap: seq<nat> := [];
    for j := 0 to |selected|
      invariant |rowMap| == j
      invariant forall i :: 0 <= i < j ==> rowMap[i] == inputRowMap[kept[i]]
    {
      rowMap := rowMap + [inputRowMap[selected[j]]];
    }
    KeptRows(input, truncated, s.admitted, kept, colMap);
    forall d | 0 <= d < |colMap| ensures colMap[d] < input.nCols {
      assert colMap[d] in colMap;
    }
    ColMapShort(colMap, input.nCols);
    ColMapShort(kept, input.nRows);
    result := TruncationResult(truncated, rowMap, input.nRows - |selected|,
                               input.nCols - truncated.nCols);
  }

  lemma CoveredRow(row: seq<nat>, coverage: seq<nat>)
    requires Cols(row) <= Positive(coverage)
    ensures forall k :: 0 <= k < |row| ==> row[k] < |coverage| && coverage[row[k]] > 0
  {
    forall k | 0 <= k < |row| ensures row[k] < |coverage| && coverage[row[k]] > 0 {
      assert row[k] in Cols(row);
    }
  }

  lemma KeptRows(input: Csr, output: Csr, alive: seq<bool>, kept: seq<nat>, colMap: seq<nat>)
    requires input.Valid() && output.Valid() && |alive| == input.nRows
    requires Increasing(colMap)
    requires Compacted(input.Rows(), alive, colMap, kept, output.Rows())
    ensures forall j :: 0 <= j < |kept| ==>
              && kept[j] < input.nRows
              && Rename(colMap, output.Vectors()[j]) == input.Vectors()[kept[j]]
  {
    forall j | 0 <= j < |kept|
      ensures Rename(colMap, output.Vectors()[j]) == input.Vectors()[kept[j]]
    {
      assert output.Rows()[j] == output.Row(j) && input.Rows()[kept[j]] == input.Row(kept[j]);
      RowRenamedMeaning(colMap, input.Row(kept[j]), output.Row(j));
    }
  }

  function RowWeights(input: Csr): (w: seq<nat>)
    requires input.Shaped()
    ensures |w| == input.nRows
  {
    seq(input.nRows, r requires 0 <= r < input.nRows => |input.Row(r)|)
  }

  lemma OrderedDistinct(weight: seq<nat>, order: seq<nat>)
    requires Ordered(weight, order)
    ensures forall i, j :: 0 <= i < j < |order| ==> order[i] != order[j]
  {
  }

  /** A selection of `target` rows needs no filling. */
  lemma FullSelection(s: Admission, input: Csr, order: seq<nat>, target: nat)
    requires input.Valid() && Tracks(s, input.Vectors(), input.nCols) && s.count >= target
    ensures TopUp(order, Alive(s.admitted), target, |order|) == Alive(s.admitted)
  {
    LiveCount(s.admitted);
    TopUpDone(order, Alive(s.admitted), target, 0, |order|);
  }

  /** Truncates to `nCols + nExtraCols + kExcess` rows.  The coverage pass admits at most one
      row per column, and the target is at least the number of columns, so coverage is always
      complete before the target is reached and the relaxation fallback is dead code. */
  method TruncateMatrix(input: Csr, inputRowMap: seq<nat>, truncationFactor: real,
                        nExtraCols: nat, kExcess: nat)
    returns (result: TruncationResult, ghost kept: seq<nat>, ghost colMap: seq<nat>,
             ghost order: seq<nat>)
    requires input.Valid() && |inputRowMap| == input.nRows
    ensures result.truncated.Valid()
    ensures result.rowsRemoved == input.nRows - result.truncated.nRows
    ensures truncationFactor <= 0.0 || input.nRows <= input.nCols + nExtraCols + kExcess ==>
              result == TruncationResult(input, inputRowMap, 0, 0)
    ensures truncationFactor > 0.0 && input.nRows > input.nCols + nExtraCols + kExcess ==>
              && result.truncated.nRows == input.nCols + nExtraCols + kExcess
              && RowsKept(input, result.truncated, kept, colMap)
              && |result.rowMap| == |kept|
              && forall j :: 0 <= j < |kept| ==> result.rowMap[j] == inputRowMap[kept[j]]
    // the kept rows: those the coverage pass needs, then the lightest others
    ensures truncationFactor > 0.0 && input.nRows > input.nCols + nExtraCols + kExcess ==>
              && Ordered(RowWeights(input), order) && Cols(order) == Below(input.nRows)
              && (forall k :: 0 <= k < |order| ==> order[k] < input.nRows)
              && Cols(kept) == TopUp(order, Greedy(input.Vectors(), order, |order|),
                                     input.nCols + nExtraCols + kExcess, |order|)
  {
    hide WeightsOf, Live, Increasing, Greedy, TopUp, Alive, Ordered;
    kept, colMap, order := [], [], [];
    if truncationFactor <= 0.0 {
      return TruncationResult(input, inputRowMap, 0, 0), [], [], [];
    }
    var target := Min(input.nCols + nExtraCols + kExcess, input.nRows);
    if input.nRows <= target {
      return TruncationResult(input, inputRowMap, 0, 0), [], [], [];
    }
    var inputCount := CountWeights(input);
    var colsWithCoverage := CountPositive(inputCount);
    var indices := SortRows(RowWeights(input));
    order := indices;
    OrderedDistinct(RowWeights(input), indices);
    var s := CoverageGreedy(input, indices, target);
    ghost var needed := Alive(s.admitted);
    if s.count < target {
      s := Fill(s, input, indices, target);
    } else {
      FullSelection(s, input, indices, target);
    }
    SameCoverage(input, s, inputCount);
    if s.covered < colsWithCoverage {
      assert false;
    }
    result, kept, colMap := Materialise(input, inputRowMap, s);
  }

  // ---------------------------------------------------------------------------
  // Dependencies
  // ---------------------------------------------------------------------------

  /** A selection of kept rows is a dependency of the truncated matrix exactly when the same
      rows, with zeros for the dropped ones, are a dependency of the input. */
  lemma TruncatedKernel(input: Csr, output: Csr, kept: seq<nat>, colMap: seq<nat>, y: set<nat>)
    requires input.Valid() && output.Valid()
    requires RowsKept(input, output, kept, colMap)
    requires y <= Below(output.nRows)
    ensures Kernel(output.Vectors(), Below(output.nRows), y) <==>
            Kernel(input.Vectors(), Below(input.nRows), Rename(kept, y))
  {
    var rows, rows' := input.Vectors(), output.Vectors();
    RenameComb(colMap, rows', y);
    assert RenameAll(colMap, rows') == Pick(rows, kept);
    CombPick(rows, kept, y);
    CombWithin(rows', y, Below(output.nCols));
    RenameEmpty(colMap, Comb(rows', y));
    assert Rename(kept, y) <= Below(input.nRows);
  }

  // ---------------------------------------------------------------------------
  // Which rows are kept
  // ---------------------------------------------------------------------------

  /** The order takes lighter rows first and equally heavy ones by index. */
  lemma LightestFirst(weight: seq<nat>, order: seq<nat>, i: nat, j: nat)
    requires Ordered(weight, order) && i < j < |order|
    ensures weight[order[i]] < weight[order[j]]
            || (weight[order[i]] == weight[order[j]] && order[i] < order[j])
  {
    assert Before(weight, order[i], order[j]);
  }

  /** Together the admitted rows cover what all rows so far cover. */
  lemma {:induction false} GreedyCovers(rows: seq<set<nat>>, order: seq<nat>, k: nat, c: nat)
    requires k <= |order| && forall i :: 0 <= i < |order| ==> order[i] < |rows|
    ensures c in Covered(rows, Greedy(rows, order, k)) <==>
            exists j :: 0 <= j < k && c in rows[order[j]]
  {
    if k > 0 {
      GreedyCovers(rows, order, k - 1, c);
      var before, r := Greedy(rows, order, k - 1), order[k - 1];
      assert c in Covered(rows, before + {r}) <==> c in Covered(rows, before) || c in rows[r];
    }
  }

  lemma {:induction false} GreedyLater(rows: seq<set<nat>>, order: seq<nat>, i: nat, k: nat)
    requires i < k <= |order| && Distinct(order)
    requires forall j :: 0 <= j < |order| ==> order[j] < |rows|
    ensures order[i] in Greedy(rows, order, k) <==> order[i] in Greedy(rows, order, i + 1)
    decreases k
  {
    if i + 1 < k {
      GreedyLater(rows, order, i, k - 1);
    }
  }

  lemma {:induction false} GreedyWithin(rows: seq<set<nat>>, order: seq<nat>, k: nat)
    requires k <= |order| && forall j :: 0 <= j < |order| ==> order[j] < |rows|
    ensures forall r :: r in Greedy(rows, order, k) ==> exists j :: 0 <= j < k && order[j] == r
  {
    if k > 0 {
      GreedyWithin(rows, order, k - 1);
    }
  }

  /** The coverage pass admits exactly the rows that are the first of the order to touch some
      column. */
  lemma AdmittedIff(rows: seq<set<nat>>, order: seq<nat>, i: nat)
    requires i < |order| && Distinct(order)
    requires forall j :: 0 <= j < |order| ==> order[j] < |rows|
    ensures order[i] in Greedy(rows, order, |order|) <==>
            exists c :: c in rows[order[i]] && forall j :: 0 <= j < i ==> c !in rows[order[j]]
  {
    GreedyLater(rows, order, i, |order|);
    GreedyWithin(rows, order, i);
    var before := Greedy(rows, order, i);
    assert order[i] !in before;
    GreedyStep(rows, order, i, Covered(rows, before));
    forall c | c in rows[order[i]]
      ensures c in Covered(rows, before) <==> exists j :: 0 <= j < i && c in rows[order[j]]
    {
      GreedyCovers(rows, order, i, c);
    }
    if !(rows[order[i]] <= Covered(rows, before)) {
      var c :| c in rows[order[i]] && c !in Covered(rows, before);
      assert forall j :: 0 <= j < i ==> c !in rows[order[j]];
    }
  }

  lemma {:induction false} TopUpShort(order: seq<nat>, admitted: set<nat>, target: nat, k: nat)
    requires k <= |order| && |TopUp(order, admitted, target, k)| < target
    ensures forall i :: 0 <= i < k ==> order[i] in TopUp(order, admitted, target, k)
  {
    if k > 0 {
      var before := TopUp(order, admitted, target, k - 1);
      Sub(before, TopUp(order, admitted, target, k));
      TopUpShort(order, admitted, target, k - 1);
    }
  }

  /** The fill takes no row while an earlier one of the order is left out. */
  lemma {:induction false} FilledInOrder(order: seq<nat>, admitted: set<nat>, target: nat, k: nat,
                                         i: nat, j: nat)
    requires i < j < k <= |order| && Distinct(order)
    requires order[j] in TopUp(order, admitted, target, k) && order[j] !in admitted
    ensures order[i] in TopUp(order, admitted, target, k)
    decreases k
  {
    var before := TopUp(order, admitted, target, k - 1);
    if order[j] in before && j < k - 1 {
      FilledInOrder(order, admitted, target, k - 1, i, j);
    } else {
      TopUpWithin(order, admitted, target, k - 1);
      TopUpShort(order, admitted, target, k - 1);
    }
  }

  lemma {:induction false} TopUpWithin(order: seq<nat>, admitted: set<nat>, target: nat, k: nat)
    requires k <= |order|
    ensures forall r :: r in TopUp(order, admitted, target, k) ==>
              r in admitted || exists j :: 0 <= j < k && order[j] == r
  {
    if k > 0 {
      TopUpWithin(order, admitted, target, k - 1);
    }
  }
}
