/** Eliminating columns of weight three and more with a pivot row. */
module HigherWeight {
  import opened Basics
  import opened Gf2
  import opened SparseRows
  import opened Reduction
  import opened Passes
  import opened CsrMatrix
  import opened ColumnIndex
  import opened MergeTrees
  import opened MergeState
  import opened WeightTwo

  datatype Planned = Planned(row: nat, candidate: seq<nat>)

  /** The fill-in cap: the given limit or twice the average row weight, whichever is larger. */
  function EffectiveMax(maxWeight: nat, nnz: nat, nRows: nat): nat {
    Max(maxWeight, 2 * nnz / Max(1, nRows))
  }

  // ---------------------------------------------------------------------------
  // Planning
  // ---------------------------------------------------------------------------

  /** The first lightest row of a list. */
  method LightestRow(rows: seq<seq<nat>>, containing: seq<nat>) returns (pivotIdx: nat)
    requires |containing| > 0
    requires forall k :: 0 <= k < |containing| ==> containing[k] < |rows|
    ensures pivotIdx < |containing|
    ensures forall k :: 0 <= k < |containing| ==>
              |rows[containing[pivotIdx]]| <= |rows[containing[k]]|
    ensures forall k :: 0 <= k < pivotIdx ==>
              |rows[containing[pivotIdx]]| < |rows[containing[k]]|
  {
    pivotIdx := 0;
    for i := 1 to |containing|
      invariant pivotIdx < i
      invariant forall k :: 0 <= k < i ==>
                  |rows[containing[pivotIdx]]| <= |rows[containing[k]]|
      invariant forall k :: 0 <= k < pivotIdx ==>
                  |rows[containing[pivotIdx]]| < |rows[containing[k]]|
    {
      if |rows[containing[i]]| < |rows[containing[pivotIdx]]| {
        pivotIdx := i;
      }
    }
  }

  /** `t` is the sum of two rows, written as a row. */
  ghost predicate IsSum(rows: seq<seq<nat>>, pivot: nat, r: nat, t: seq<nat>)
    requires pivot < |rows| && r < |rows|
  {
    Increasing(t) && Cols(t) == Add(Cols(rows[pivot]), Cols(rows[r]))
  }

  /** `p` plans to replace a row that is not the pivot by its sum with the pivot row. */
  ghost predicate PlanStep(rows: seq<seq<nat>>, pivot: nat, p: Planned, cap: nat) {
    && pivot < |rows| && p.row < |rows| && p.row != pivot
    && IsSum(rows, pivot, p.row, p.candidate)
    && |p.candidate| <= cap
  }

  /** The sum of the two rows is no heavier than the cap. */
  ghost predicate Fits(rows: seq<seq<nat>>, pivot: nat, r: nat, cap: nat)
    requires pivot < |rows| && r < |rows|
  {
    forall t :: IsSum(rows, pivot, r, t) ==> |t| <= cap
  }

  /** The sums of all rows of the list with the one at `p` fit. */
  ghost predicate AllFit(rows: seq<seq<nat>>, list: seq<nat>, p: nat, cap: nat)
    requires p < |list|
    requires forall k :: 0 <= k < |list| ==> list[k] < |rows|
  {
    forall k :: 0 <= k < |list| && k != p ==> Fits(rows, list[p], list[k], cap)
  }

  /** Position in a list of the `k`-th entry when the entry at `skip` is left out. */
  function Skipping(skip: nat, k: nat): nat {
    if k < skip then k else k + 1
  }

  /** The sum of a row with the pivot row, unless it is above the cap. */
  method PlanRow(rows: seq<seq<nat>>, pivot: nat, r: nat, cap: nat)
    returns (p: Planned, fits: bool)
    requires pivot < |rows| && r < |rows| && r != pivot
    requires Increasing(rows[pivot]) && Increasing(rows[r])
    ensures fits <==> Fits(rows, pivot, r, cap)
    ensures fits ==> PlanStep(rows, pivot, p, cap)
    ensures p.row == r
  {
    var candidate := XorRows(rows[pivot], rows[r]);
    p, fits := Planned(r, candidate), |candidate| <= cap;
    assert IsSum(rows, pivot, r, candidate);
    forall t | IsSum(rows, pivot, r, t) ensures t == candidate {
      IncreasingUnique(t, candidate);
    }
  }

  /** Plans every sum with the pivot row, and gives up at the first one above the cap. */
  method PlanColumn(rows: seq<seq<nat>>, containing: seq<nat>, pivotIdx: nat, cap: nat)
    returns (plan: seq<Planned>, feasible: bool)
    requires pivotIdx < |containing|
    requires forall k :: 0 <= k < |containing| ==>
               containing[k] < |rows| && Increasing(rows[containing[k]])
    requires Distinct(containing)
    ensures !feasible ==> exists k :: 0 <= k < |containing| && k != pivotIdx
                                      && !Fits(rows, containing[pivotIdx], containing[k], cap)
    ensures feasible ==> |plan| == |containing| - 1
    ensures feasible ==> forall k :: 0 <= k < |plan| ==>
              && PlanStep(rows, containing[pivotIdx], plan[k], cap)
              && plan[k].row == containing[Skipping(pivotIdx, k)]
  {
    var pivot := containing[pivotIdx];
    plan, feasible := [], true;
    for i := 0 to |containing|
      invariant feasible
      invariant |plan| == if i <= pivotIdx then i else i - 1
      invariant forall k :: 0 <= k < |plan| ==>
                  && PlanStep(rows, pivot, plan[k], cap)
                  && plan[k].row == containing[Skipping(pivotIdx, k)]
    {
      if i != pivotIdx {
        var p, fits := PlanRow(rows, pivot, containing[i], cap);
        if !fits {
          return [], false;
        }
        plan := plan + [p];
      }
    }
  }

  // ---------------------------------------------------------------------------
  // Committing
  // ---------------------------------------------------------------------------

  /** The rows from position `i` of the plan on still wait for their sum with the pivot. */
  ghost predicate Waiting(s: State, pivot: nat, plan: seq<Planned>, i: nat, c: nat, cap: nat) {
    && |s.rows| == |s.alive|
    && Holder(s, pivot, c)
    && forall k :: i <= k < |plan| ==>
         PlanStep(s.rows, pivot, plan[k], cap) && Holder(s, plan[k].row, c)
  }

  ghost predicate PlanDistinct(plan: seq<Planned>) {
    forall i, j :: 0 <= i < j < |plan| ==> plan[i].row != plan[j].row
  }

  /** No row is heavier than the cap or than it was at the start. */
  ghost predicate Bounded(rows: seq<seq<nat>>, rows0: seq<seq<nat>>, cap: nat) {
    |rows| == |rows0| && forall r :: 0 <= r < |rows| ==> |rows[r]| <= Max(cap, |rows0[r]|)
  }

  lemma BoundedStep(rows: seq<seq<nat>>, rows0: seq<seq<nat>>, cap: nat, r: nat, row: seq<nat>)
    requires Bounded(rows, rows0, cap) && r < |rows| && |row| <= cap
    ensures Bounded(rows[r := row], rows0, cap)
  {
  }

  /** A column nothing holds stays that way. */
  ghost predicate ZerosKept(before: seq<nat>, after: seq<nat>) {
    |before| == |after| && forall c :: 0 <= c < |before| && before[c] == 0 ==> after[c] == 0
  }

  lemma ZerosKeptTrans(a: seq<nat>, b: seq<nat>, c: seq<nat>)
    requires ZerosKept(a, b) && ZerosKept(b, c)
    ensures ZerosKept(a, c)
  {
  }

  /** Adding one row to another brings no column back. */
  lemma CombineKeepsZeros(s: State, nCols: nat, pivot: nat, r: nat, newRow: seq<nat>,
                          after: seq<nat>)
    requires Exact(s.index, s.rows, nCols) && |after| == nCols
    requires pivot < |s.rows| && r < |s.rows|
    requires Cols(newRow) == Add(Cols(s.rows[pivot]), Cols(s.rows[r]))
    requires forall c :: 0 <= c < nCols ==>
               after[c] == s.index.colWeight[c]
                 - (if c in s.rows[r] then 1 else 0) + (if c in newRow then 1 else 0)
    ensures ZerosKept(s.index.colWeight, after)
  {
    InAdd(newRow, s.rows[pivot], s.rows[r]);
    forall c | 0 <= c < nCols && s.index.colWeight[c] == 0 ensures after[c] == 0 {
      assert s.index.colRows[c] == [];
      assert r !in s.index.colRows[c] && pivot !in s.index.colRows[c];
    }
  }

  /** The first `i` steps of the plan are done, and nothing else changed. */
  ghost predicate Applied(rows: seq<seq<nat>>, rows': seq<seq<nat>>, plan: seq<Planned>, i: nat) {
    && |rows'| == |rows|
    && (forall k :: 0 <= k < |plan| ==> plan[k].row < |rows|)
    && (forall k :: 0 <= k < i && k < |plan| ==> rows'[plan[k].row] == plan[k].candidate)
    && forall r :: 0 <= r < |rows| && (forall k :: 0 <= k < i && k < |plan| ==> plan[k].row != r)
         ==> rows'[r] == rows[r]
  }

  lemma AppliedStep(rows: seq<seq<nat>>, mid: seq<seq<nat>>, plan: seq<Planned>, i: nat)
    requires Applied(rows, mid, plan, i) && i < |plan| && PlanDistinct(plan)
    ensures Applied(rows, mid[plan[i].row := plan[i].candidate], plan, i + 1)
  {
    var rows' := mid[plan[i].row := plan[i].candidate];
    forall r | 0 <= r < |rows| && (forall k :: 0 <= k < i + 1 ==> plan[k].row != r)
      ensures rows'[r] == rows[r]
    {
      assert plan[i].row != r;
    }
  }

  /** Applies the whole plan. */
  method Commit(start: State, c: nat, pivot: nat, plan: seq<Planned>, ghost cap: nat,
                ghost rows0: seq<seq<nat>>, ghost input: seq<set<nat>>,
                ghost labels: seq<set<nat>>, ghost combos0: seq<set<nat>>, nCols: nat)
    returns (s: State, ghost combos: seq<set<nat>>)
    requires Inv(start, input, labels, combos0, nCols)
    requires c < nCols && Waiting(start, pivot, plan, 0, c, cap) && PlanDistinct(plan)
    requires start.index.colWeight[c] == |plan| + 1
    requires Bounded(start.rows, rows0, cap)
    ensures Inv(s, input, labels, combos, nCols)
    ensures s.alive == start.alive
    ensures Holder(s, pivot, c) && s.index.colWeight[c] == 1
    ensures Bounded(s.rows, rows0, cap)
    ensures ZerosKept(start.index.colWeight, s.index.colWeight)
    ensures Applied(start.rows, s.rows, plan, |plan|)
  {
    hide Applied, Reduces, TreeAgrees, Bounded;
    s, combos := start, combos0;
    NothingApplied(start, pivot, plan, c, cap);
    for i := 0 to |plan|
      invariant Applied(start.rows, s.rows, plan, i)
      invariant Inv(s, input, labels, combos, nCols)
      invariant s.alive == start.alive
      invariant Waiting(s, pivot, plan, i, c, cap)
      invariant s.index.colWeight[c] == |plan| + 1 - i
      invariant Bounded(s.rows, rows0, cap)
      invariant ZerosKept(start.index.colWeight, s.index.colWeight)
    {
      var r, candidate := plan[i].row, plan[i].candidate;
      InAdd(candidate, s.rows[pivot], s.rows[r]);
      var s';
      s', combos := CombineRows(s, pivot, r, pivot, r, candidate, input, labels, combos, nCols);
      WaitingStep(s, s', pivot, plan, i, c, cap);
      BoundedStep(s.rows, rows0, cap, r, candidate);
      CombineKeepsZeros(s, nCols, pivot, r, candidate, s'.index.colWeight);
      AppliedStep(start.rows, s.rows, plan, i);
      ZerosKeptTrans(start.index.colWeight, s.index.colWeight, s'.index.colWeight);
      s := s';
    }
  }

  lemma NothingApplied(s: State, pivot: nat, plan: seq<Planned>, c: nat, cap: nat)
    requires Waiting(s, pivot, plan, 0, c, cap)
    ensures Applied(s.rows, s.rows, plan, 0)
  {
    forall k | 0 <= k < |plan| ensures plan[k].row < |s.rows| {
      assert PlanStep(s.rows, pivot, plan[k], cap);
    }
  }

  lemma WaitingStep(s: State, s': State, pivot: nat, plan: seq<Planned>, i: nat, c: nat, cap: nat)
    requires i < |plan| && PlanDistinct(plan)
    requires Waiting(s, pivot, plan, i, c, cap)
    requires s'.rows == s.rows[plan[i].row := plan[i].candidate] && s'.alive == s.alive
    ensures Waiting(s', pivot, plan, i + 1, c, cap)
  {
    forall k | i + 1 <= k < |plan|
      ensures PlanStep(s'.rows, pivot, plan[k], cap) && Holder(s', plan[k].row, c)
    {
      assert PlanStep(s.rows, pivot, plan[k], cap) && Holder(s, plan[k].row, c);
      assert plan[k].row != plan[i].row;
    }
  }

  /** The live rows of a column's list. */
  method LiveRows(list: seq<nat>, alive: seq<bool>) returns (containing: seq<nat>)
    requires forall k :: 0 <= k < |list| ==> list[k] < |alive| && alive[list[k]]
    ensures containing == list
  {
    containing := [];
    for k := 0 to |list|
      invariant containing == list[..k]
    {
      if alive[list[k]] {
        containing := containing + [list[k]];
      }
      assert list[..k + 1] == list[..k] + [list[k]];
    }
  }

  /** Everything the listing of a column with at least two holders says. */
  lemma ListedHolders(s: State, nCols: nat, c: nat)
    requires |s.rows| == |s.alive| && RowsOk(s.rows, nCols)
    requires Exact(s.index, s.rows, nCols) && c < nCols
    requires forall r :: 0 <= r < |s.rows| && !s.alive[r] ==> s.rows[r] == []
    ensures Distinct(s.index.colRows[c]) && |s.index.colRows[c]| == s.index.colWeight[c]
    ensures forall k :: 0 <= k < |s.index.colRows[c]| ==>
              Holder(s, s.index.colRows[c][k], c) && Increasing(s.rows[s.index.colRows[c][k]])
  {
    forall k | 0 <= k < |s.index.colRows[c]|
      ensures Holder(s, s.index.colRows[c][k], c)
    {
      assert s.index.colRows[c][k] in s.index.colRows[c];
    }
  }

  /** Every holder of column `c` but one lightest holder can take the sum with that one. */
  ghost predicate Feasible(rows: seq<seq<nat>>, list: seq<nat>, cap: nat)
    requires forall k :: 0 <= k < |list| ==> list[k] < |rows|
  {
    exists p :: 0 <= p < |list| && FirstLightest(rows, list, p)
                && AllFit(rows, list, p, cap)
  }

  ghost predicate FirstLightest(rows: seq<seq<nat>>, list: seq<nat>, p: nat)
    requires forall k :: 0 <= k < |list| ==> list[k] < |rows|
    requires p < |list|
  {
    && (forall k :: 0 <= k < |list| ==> |rows[list[p]]| <= |rows[list[k]]|)
    && (forall k :: 0 <= k < p ==> |rows[list[p]]| < |rows[list[k]]|)
  }

  lemma FirstLightestUnique(rows: seq<seq<nat>>, list: seq<nat>, p: nat, q: nat)
    requires forall k :: 0 <= k < |list| ==> list[k] < |rows|
    requires p < |list| && q < |list|
    requires FirstLightest(rows, list, p) && FirstLightest(rows, list, q)
    ensures p == q
  {
    var m, n := |rows[list[p]]|, |rows[list[q]]|;
    assert p < q ==> n < m;
    assert q < p ==> m < n;
  }

  /** A complete plan shows that every sum fits. */
  lemma PlanFits(rows: seq<seq<nat>>, list: seq<nat>, p: nat, plan: seq<Planned>, cap: nat)
    requires p < |list| && |plan| == |list| - 1
    requires forall k :: 0 <= k < |list| ==> list[k] < |rows|
    requires forall k :: 0 <= k < |plan| ==>
               PlanStep(rows, list[p], plan[k], cap) && plan[k].row == list[Skipping(p, k)]
    ensures AllFit(rows, list, p, cap)
  {
    forall k | 0 <= k < |list| && k != p ensures Fits(rows, list[p], list[k], cap) {
      var q := plan[if k < p then k else k - 1];
      assert q.row == list[k];
      forall t | IsSum(rows, list[p], list[k], t) ensures |t| <= cap {
        IncreasingUnique(t, q.candidate);
      }
    }
  }

  lemma PlanIsWaiting(s: State, containing: seq<nat>, pivotIdx: nat, plan: seq<Planned>,
                      c: nat, cap: nat)
    requires pivotIdx < |containing| && Distinct(containing)
    requires forall k :: 0 <= k < |containing| ==> Holder(s, containing[k], c)
    requires |plan| == |containing| - 1
    requires forall k :: 0 <= k < |plan| ==>
               PlanStep(s.rows, containing[pivotIdx], plan[k], cap)
    requires forall k :: 0 <= k < |plan| ==> plan[k].row == containing[Skipping(pivotIdx, k)]
    ensures Waiting(s, containing[pivotIdx], plan, 0, c, cap) && PlanDistinct(plan)
  {
  }

  /** Eliminating column `c` with a pivot: the pivot row is added to every other holder of the
      column and then deleted, and nothing else changes. */
  ghost predicate PivotStep(s: State, s': State, c: nat, pivot: nat) {
    && pivot < |s.rows| == |s.alive| == |s'.rows|
    && s.alive[pivot] && s'.alive == s.alive[pivot := false]
    && forall r :: 0 <= r < |s.rows| ==>
         Cols(s'.rows[r]) == if r == pivot then {}
                             else if c in s.rows[r] then Add(Cols(s.rows[pivot]), Cols(s.rows[r]))
                             else Cols(s.rows[r])
  }

  /** The column was eliminated with the first lightest row of its list. */
  ghost predicate Eliminated(s: State, s': State, c: nat) {
    && c < |s.index.colRows|
    && (forall k :: 0 <= k < |s.index.colRows[c]| ==> s.index.colRows[c][k] < |s.rows|)
    && exists p :: 0 <= p < |s.index.colRows[c]| && FirstLightest(s.rows, s.index.colRows[c], p)
                   && PivotStep(s, s', c, s.index.colRows[c][p])
  }

  lemma PlanMeaning(s: State, mid: seq<seq<nat>>, c: nat, p: nat, plan: seq<Planned>, cap: nat,
                    nCols: nat)
    requires Exact(s.index, s.rows, nCols) && c < nCols && p < |s.index.colRows[c]|
    requires |plan| == |s.index.colRows[c]| - 1
    requires forall k :: 0 <= k < |s.index.colRows[c]| ==> s.index.colRows[c][k] < |s.rows|
    requires forall k :: 0 <= k < |plan| ==>
               && PlanStep(s.rows, s.index.colRows[c][p], plan[k], cap)
               && plan[k].row == s.index.colRows[c][Skipping(p, k)]
    requires Applied(s.rows, mid, plan, |plan|)
    ensures |mid| == |s.rows|
    ensures forall r :: 0 <= r < |s.rows| && r != s.index.colRows[c][p] ==>
              Cols(mid[r]) == if c in s.rows[r]
                              then Add(Cols(s.rows[s.index.colRows[c][p]]), Cols(s.rows[r]))
                              else Cols(s.rows[r])
  {
    var list := s.index.colRows[c];
    forall r | 0 <= r < |s.rows| && r != list[p]
      ensures Cols(mid[r]) == if c in s.rows[r] then Add(Cols(s.rows[list[p]]), Cols(s.rows[r]))
                              else Cols(s.rows[r])
    {
      if c in s.rows[r] {
        assert r in list;
        var k :| 0 <= k < |list| && list[k] == r;
        var q := if k < p then k else k - 1;
        assert plan[q].row == list[Skipping(p, q)] == r;
        assert PlanStep(s.rows, list[p], plan[q], cap);
      } else {
        forall k | 0 <= k < |plan| ensures plan[k].row != r {
          assert list[Skipping(p, k)] in list;
        }
      }
    }
  }

  /** Eliminates column `c` completely or leaves everything as it is. */
  method TryColumn(s: State, c: nat, cap: nat, ghost rows0: seq<seq<nat>>,
                   ghost input: seq<set<nat>>, ghost labels: seq<set<nat>>,
                   ghost combos: seq<set<nat>>, nCols: nat)
    returns (s': State, eliminated: bool, ghost combos': seq<set<nat>>)
    requires Inv(s, input, labels, combos, nCols)
    requires c < nCols && s.index.colWeight[c] >= 2
    requires Bounded(s.rows, rows0, cap)
    ensures Inv(s', input, labels, combos', nCols)
    ensures Bounded(s'.rows, rows0, cap)
    ensures !eliminated ==> s' == s && combos' == combos
    ensures ZerosKept(s.index.colWeight, s'.index.colWeight)
    ensures eliminated ==> Live(s'.alive) == Live(s.alive) - 1 && s'.index.colWeight[c] == 0
    ensures forall k :: 0 <= k < |s.index.colRows[c]| ==> s.index.colRows[c][k] < |s.rows|
    ensures eliminated <==> Feasible(s.rows, s.index.colRows[c], cap)
    ensures eliminated ==> Eliminated(s, s', c)
  {
    hide Reduces, TreeAgrees, Live, Applied;
    ListedHolders(s, nCols, c);
    var containing := LiveRows(s.index.colRows[c], s.alive);
    var pivotIdx := LightestRow(s.rows, containing);
    var pivot := containing[pivotIdx];
    var plan, feasible := PlanColumn(s.rows, containing, pivotIdx, cap);
    FeasibleAtPivot(s.rows, containing, pivotIdx, cap);
    if feasible {
      PlanFits(s.rows, containing, pivotIdx, plan, cap);
    }
    s', combos', eliminated := s, combos, feasible && |plan| > 0;
    if eliminated {
      PlanIsWaiting(s, containing, pivotIdx, plan, c, cap);
      s', combos' := Commit(s, c, pivot, plan, cap, rows0, input, labels, combos, nCols);
      ghost var mid := s';
      s' := KillRow(s', pivot, c, input, labels, combos', nCols);
      ZerosKeptTrans(s.index.colWeight, mid.index.colWeight, s'.index.colWeight);
      LiveDrops(s.alive, pivot);
      PlanMeaning(s, mid.rows, c, pivotIdx, plan, cap, nCols);
      assert PivotStep(s, s', c, pivot);
    }
  }

  lemma FeasibleAtPivot(rows: seq<seq<nat>>, list: seq<nat>, p: nat, cap: nat)
    requires forall k :: 0 <= k < |list| ==> list[k] < |rows|
    requires p < |list| && FirstLightest(rows, list, p)
    ensures Feasible(rows, list, cap) <==> AllFit(rows, list, p, cap)
  {
    if Feasible(rows, list, cap) {
      var q :| 0 <= q < |list| && FirstLightest(rows, list, q)
               && AllFit(rows, list, q, cap);
      FirstLightestUnique(rows, list, p, q);
    }
  }

  // ---------------------------------------------------------------------------
  // The pass
  // ---------------------------------------------------------------------------

  /** Column `c` can be eliminated within the cap. */
  ghost predicate Eliminable(s: State, c: nat, cap: nat) {
    && c < |s.index.colRows|
    && (forall k :: 0 <= k < |s.index.colRows[c]| ==> s.index.colRows[c][k] < |s.rows|)
    && Feasible(s.rows, s.index.colRows[c], cap)
  }

  /** No column of weight `w` can be eliminated. */
  ghost predicate NoneEliminable(s: State, w: nat, cap: nat) {
    forall c: nat :: c < |s.index.colWeight| && s.index.colWeight[c] == w ==> !Eliminable(s, c, cap)
  }

  lemma ListLength(s: State, input: seq<set<nat>>, labels: seq<set<nat>>, combos: seq<set<nat>>,
                   nCols: nat, c: nat)
    requires Inv(s, input, labels, combos, nCols) && c < |s.index.colWeight|
    ensures c < nCols && c < |s.index.colRows| && s.index.colWeight[c] == |s.index.colRows[c]|
  {
  }

  /** All columns of weight `w`, in ascending order. */
  ghost predicate TargetsOk(targets: seq<nat>, weight: seq<nat>, w: nat) {
    && Increasing(targets)
    && forall c: nat :: c in targets <==> c < |weight| && weight[c] == w
  }

  method ColumnsOfWeight(weight: seq<nat>, w: nat) returns (list: seq<nat>)
    ensures TargetsOk(list, weight, w)
    ensures forall k :: 0 <= k < |list| ==> list[k] < |weight|
  {
    list := [];
    for c := 0 to |weight|
      invariant forall k :: 0 <= k < |list| ==> list[k] < c && weight[list[k]] == w
      invariant forall d: nat :: d < c && weight[d] == w ==> d in list
      invariant Increasing(list)
    {
      if weight[c] == w {
        list := list + [c];
      }
    }
  }

  /** The columns of `gone` were held by some row before and by none after, and no column came
      back. */
  ghost predicate Emptied(before: seq<nat>, after: seq<nat>, gone: set<nat>) {
    && ZerosKept(before, after)
    && forall c :: c in gone ==> c < |before| && before[c] > 0 && after[c] == 0
  }

  lemma EmptiedNone(w: seq<nat>)
    ensures Emptied(w, w, {})
  {
  }

  lemma EmptiedStep(first: seq<nat>, before: seq<nat>, after: seq<nat>, gone: set<nat>, c: nat)
    requires Emptied(first, before, gone) && ZerosKept(before, after)
    requires c < |before| && before[c] > 0 && after[c] == 0
    ensures c !in gone
    ensures Emptied(first, after, gone + {c})
  {
  }

  lemma EmptiedTrans(a: seq<nat>, b: seq<nat>, c: seq<nat>, g: set<nat>, h: set<nat>)
    requires Emptied(a, b, g) && Emptied(b, c, h)
    ensures Emptied(a, c, g + h) && |g + h| == |g| + |h|
  {
    assert g !! h;
  }

  /** The columns some row holds. */
  ghost function Used(m: Csr): set<nat>
    requires m.Shaped()
  {
    set c | c in Below(m.nCols) && Weight(m.Vectors(), c) > 0
  }

  /** The surviving columns and the emptied ones are different used columns of the input. */
  lemma UsedSplit(m: Csr, before: seq<nat>, after: seq<nat>, gone: set<nat>, colMap: seq<nat>)
    requires m.Shaped() && |before| == m.nCols && Emptied(before, after, gone)
    requires forall c :: 0 <= c < m.nCols ==> before[c] == Weight(m.Vectors(), c)
    requires Increasing(colMap)
    requires forall c: nat :: c in colMap <==> c < m.nCols && after[c] > 0
    ensures gone <= Used(m) && (forall c :: c in gone ==> c !in colMap)
    ensures |colMap| + |gone| <= |Used(m)|
  {
    hide Weight;
    IncreasingCard(colMap);
    assert Cols(colMap) + gone <= Used(m) && Cols(colMap) !! gone;
    assert |Cols(colMap) + gone| == |colMap| + |gone|;
    assert Used(m) == (Cols(colMap) + gone) + (Used(m) - (Cols(colMap) + gone));
  }

  /** What a round does at one of its columns: if the column has between two and `kMax` holders
      by now and can be eliminated within the cap it is, otherwise nothing happens. */
  ghost predicate Handled(s: State, s': State, c: nat, kMax: nat, cap: nat) {
    && c < |s.index.colWeight|
    && if 2 <= s.index.colWeight[c] <= kMax && Eliminable(s, c, cap) then Eliminated(s, s', c)
       else s' == s
  }

  /** The columns a round works off and the states before, between and after them. */
  datatype RoundRun = RoundRun(targets: seq<nat>, states: seq<State>)

  /** All columns of weight `w` at the beginning of the round are handled, in ascending order. */
  ghost predicate RoundOk(r: RoundRun, w: nat, kMax: nat, cap: nat) {
    && Trace(r.targets, r.states, |r.targets|, kMax, cap)
    && TargetsOk(r.targets, r.states[0].index.colWeight, w)
  }

  /** The first `i` columns are handled one after the other. */
  ghost predicate Trace(targets: seq<nat>, states: seq<State>, i: nat, kMax: nat, cap: nat) {
    && i <= |targets| && |states| == i + 1
    && forall k :: 0 <= k < i ==> Handled(states[k], states[k + 1], targets[k], kMax, cap)
  }

  lemma NoTargetEliminable(targets: seq<nat>, s: State, w: nat, cap: nat)
    requires TargetsOk(targets, s.index.colWeight, w)
    requires forall k :: 0 <= k < |targets| ==> !Eliminable(s, targets[k], cap)
    ensures NoneEliminable(s, w, cap)
  {
    hide Eliminable;
    forall c: nat | c < |s.index.colWeight| && s.index.colWeight[c] == w
      ensures !Eliminable(s, c, cap)
    {
      assert c in targets;
    }
  }

  lemma TraceStart(targets: seq<nat>, s: State, kMax: nat, cap: nat)
    ensures Trace(targets, [s], 0, kMax, cap)
  {
  }

  lemma TraceSnoc(targets: seq<nat>, states: seq<State>, i: nat, s: State, kMax: nat, cap: nat)
    requires Trace(targets, states, i, kMax, cap) && i < |targets|
    requires Handled(states[i], s, targets[i], kMax, cap)
    ensures Trace(targets, states + [s], i + 1, kMax, cap)
  {
    hide Handled;
    var states' := states + [s];
    forall k | 0 <= k < i + 1 ensures Handled(states'[k], states'[k + 1], targets[k], kMax, cap) {
      assert k < i ==> Handled(states[k], states[k + 1], targets[k], kMax, cap);
    }
  }

  /** One round for every weight 3, 4, ..., `w - 1`, each beginning where the one before ended. */
  ghost predicate RoundsOk(rounds: seq<RoundRun>, first: State, last: State, w: nat, kMax: nat,
                           cap: nat)
  {
    && |rounds| + 3 == w
    && (forall i :: 0 <= i < |rounds| ==> RoundOk(rounds[i], i + 3, kMax, cap))
    && (forall i :: 0 <= i < |rounds| ==> rounds[i].states[0] == Reached(rounds, first, i))
    && last == Reached(rounds, first, |rounds|)
  }

  /** The state before round `i`. */
  ghost function Reached(rounds: seq<RoundRun>, first: State, i: nat): State
    requires i <= |rounds|
  {
    if i == 0 || |rounds[i - 1].states| == 0 then first
    else rounds[i - 1].states[|rounds[i - 1].states| - 1]
  }

  lemma RoundsSnoc(rounds: seq<RoundRun>, first: State, mid: State, last: State, w: nat,
                   kMax: nat, cap: nat, r: RoundRun)
    requires RoundsOk(rounds, first, mid, w, kMax, cap) && RoundOk(r, w, kMax, cap)
    requires r.states[0] == mid && r.states[|r.states| - 1] == last
    ensures RoundsOk(rounds + [r], first, last, w + 1, kMax, cap)
  {
    hide RoundOk, Reached;
    var rounds' := rounds + [r];
    ReachedSnoc(rounds, first, r, w, kMax, cap);
    forall i | 0 <= i < |rounds'|
      ensures RoundOk(rounds'[i], i + 3, kMax, cap)
      ensures |rounds'[i].states| > 0 && rounds'[i].states[0] == Reached(rounds', first, i)
    {
      assert rounds'[i] == if i < |rounds| then rounds[i] else r;
      RoundStarts(rounds'[i], i + 3, kMax, cap);
    }
  }

  lemma ReachedSnoc(rounds: seq<RoundRun>, first: State, r: RoundRun, w: nat, kMax: nat, cap: nat)
    requires RoundOk(r, w, kMax, cap)
    ensures |r.states| > 0
    ensures forall i :: 0 <= i <= |rounds| ==>
              Reached(rounds + [r], first, i) == Reached(rounds, first, i)
    ensures Reached(rounds + [r], first, |rounds| + 1) == r.states[|r.states| - 1]
  {
    RoundStarts(r, w, kMax, cap);
    hide RoundOk;
    forall i | 0 <= i <= |rounds|
      ensures Reached(rounds + [r], first, i) == Reached(rounds, first, i)
    {
      assert i > 0 ==> (rounds + [r])[i - 1] == rounds[i - 1];
    }
  }

  lemma RoundStarts(r: RoundRun, w: nat, kMax: nat, cap: nat)
    requires RoundOk(r, w, kMax, cap)
    ensures |r.states| > 0
  {
  }

  /** One column of a round, unless it is gone or too heavy by now. */
  method TryTarget(s: State, c: nat, kMax: nat, cap: nat, ghost rows0: seq<seq<nat>>,
                   ghost input: seq<set<nat>>, ghost labels: seq<set<nat>>,
                   ghost combos: seq<set<nat>>, nCols: nat)
    returns (s': State, done: bool, ghost combos': seq<set<nat>>)
    requires Inv(s, input, labels, combos, nCols) && Bounded(s.rows, rows0, cap)
    requires c < |s.index.colWeight|
    ensures Inv(s', input, labels, combos', nCols) && Bounded(s'.rows, rows0, cap)
    ensures |s'.index.colWeight| == |s.index.colWeight|
    ensures ZerosKept(s.index.colWeight, s'.index.colWeight)
    ensures Live(s'.alive) == Live(s.alive) - if done then 1 else 0
    ensures done ==> s.index.colWeight[c] > 0 && s'.index.colWeight[c] == 0
    ensures !done ==> s' == s && combos' == combos
    ensures !done && 2 <= s.index.colWeight[c] <= kMax ==> !Eliminable(s, c, cap)
    ensures Handled(s, s', c, kMax, cap)
  {
    hide Feasible, Bounded, Eliminated;
    ListLength(s, input, labels, combos, nCols, c);
    hide Inv;
    s', done, combos' := s, false, combos;
    if s.index.colWeight[c] == 0 || s.index.colWeight[c] > kMax {
      return;
    }
    if |s.index.colRows[c]| < 2 {
      return;
    }
    s', done, combos' := TryColumn(s, c, cap, rows0, input, labels, combos, nCols);
  }

  /** One round over the columns that have weight `w` when the round begins. */
  method Round(start: State, w: nat, kMax: nat, cap: nat, ghost rows0: seq<seq<nat>>,
               ghost input: seq<set<nat>>, ghost labels: seq<set<nat>>,
               ghost combos0: seq<set<nat>>, nCols: nat)
    returns (s: State, eliminated: nat, ghost combos: seq<set<nat>>, ghost gone: set<nat>,
             ghost run: RoundRun)
    requires Inv(start, input, labels, combos0, nCols) && Bounded(start.rows, rows0, cap)
    // every column of weight `w` is eliminated if it can be when its turn comes
    ensures RoundOk(run, w, kMax, cap)
    ensures run.states[0] == start && run.states[|run.states| - 1] == s
    ensures Inv(s, input, labels, combos, nCols) && Bounded(s.rows, rows0, cap)
    // as many columns disappear as rows
    ensures Emptied(start.index.colWeight, s.index.colWeight, gone) && |gone| == eliminated
    ensures eliminated == Live(start.alive) - Live(s.alive)
    // a round that eliminates nothing found nothing to eliminate
    ensures eliminated == 0 ==> s == start && (2 <= w <= kMax ==> NoneEliminable(start, w, cap))
  {
    hide Inv, Bounded, Emptied, ZerosKept, Eliminable, Live, Handled, Trace, TargetsOk,
      NoneEliminable;
    s, combos, eliminated, gone := start, combos0, 0, {};
    ghost var states := [start];
    EmptiedNone(start.index.colWeight);
    var targetCols := ColumnsOfWeight(start.index.colWeight, w);
    TraceStart(targetCols, start, kMax, cap);
    for i := 0 to |targetCols|
      invariant Inv(s, input, labels, combos, nCols) && Bounded(s.rows, rows0, cap)
      invariant |s.index.colWeight| == |start.index.colWeight|
      invariant eliminated == Live(start.alive) - Live(s.alive)
      invariant Emptied(start.index.colWeight, s.index.colWeight, gone) && |gone| == eliminated
      invariant eliminated == 0 ==> s == start
      invariant eliminated == 0 && 2 <= w <= kMax ==>
                  forall k :: 0 <= k < i ==> !Eliminable(start, targetCols[k], cap)
      invariant |states| == i + 1 && states[0] == start && states[i] == s
      invariant Trace(targetCols, states, i, kMax, cap)
    {
      var c, done := targetCols[i], false;
      ghost var before := s.index.colWeight;
      s, done, combos := TryTarget(s, c, kMax, cap, rows0, input, labels, combos, nCols);
      if done {
        EmptiedStep(start.index.colWeight, before, s.index.colWeight, gone, c);
        eliminated, gone := eliminated + 1, gone + {c};
      }
      TraceSnoc(targetCols, states, i, s, kMax, cap);
      states := states + [s];
    }
    run := RoundRun(targetCols, states);
    if eliminated == 0 && 2 <= w <= kMax {
      NoTargetEliminable(targetCols, start, w, cap);
    }
  }

  /** The rounds for the weights 3, 4, ..., `kMax`. */
  method AllRounds(first: State, kMax: nat, cap: nat, ghost rows0: seq<seq<nat>>,
                   ghost input: seq<set<nat>>, ghost labels: seq<set<nat>>,
                   ghost combos0: seq<set<nat>>, nCols: nat)
    returns (s: State, eliminated: nat, rowsRemoved: nat, ghost combos: seq<set<nat>>,
             ghost gone: set<nat>, ghost rounds: seq<RoundRun>)
    requires Inv(first, input, labels, combos0, nCols) && Bounded(first.rows, rows0, cap)
    ensures Inv(s, input, labels, combos, nCols) && Bounded(s.rows, rows0, cap)
    ensures eliminated == rowsRemoved == Live(first.alive) - Live(s.alive)
    ensures Emptied(first.index.colWeight, s.index.colWeight, gone) && |gone| == eliminated
    ensures eliminated == 0 ==> forall w: nat :: 3 <= w <= kMax ==> NoneEliminable(first, w, cap)
    ensures RoundsOk(rounds, first, s, Max(kMax, 2) + 1, kMax, cap)
  {
    hide Inv, Bounded, Emptied, NoneEliminable, Live, RoundsOk, RoundOk;
    s, combos, gone, eliminated, rowsRemoved, rounds := first, combos0, {}, 0, 0, [];
    NoRounds(first, kMax, cap);
    EmptiedNone(first.index.colWeight);
    var w := 3;
    while w <= kMax
      invariant Inv(s, input, labels, combos, nCols) && Bounded(s.rows, rows0, cap)
      invariant eliminated == rowsRemoved == Live(first.alive) - Live(s.alive)
      invariant Emptied(first.index.colWeight, s.index.colWeight, gone) && |gone| == eliminated
      invariant eliminated == 0 ==>
                  s == first && forall v: nat :: 3 <= v < w ==> NoneEliminable(first, v, cap)
      invariant w <= Max(kMax, 2) + 1 && RoundsOk(rounds, first, s, w, kMax, cap)
      decreases kMax + 1 - w
    {
      var n;
      ghost var before, mid, g, run := s.index.colWeight, s, {}, RoundRun([], []);
      s, n, combos, g, run := Round(s, w, kMax, cap, rows0, input, labels, combos, nCols);
      RoundsSnoc(rounds, first, mid, s, w, kMax, cap, run);
      rounds := rounds + [run];
      EmptiedTrans(first.index.colWeight, before, s.index.colWeight, gone, g);
      gone := gone + g;
      eliminated, rowsRemoved := eliminated + n, rowsRemoved + n;
      w := w + 1;
    }
  }

  lemma NoRounds(first: State, kMax: nat, cap: nat)
    ensures RoundsOk([], first, first, 3, kMax, cap)
  {
  }

  /** The state indexes the rows of a matrix, with ascending lists. */
  ghost predicate Indexes(s: State, m: Csr)
    requires m.Shaped()
  {
    && s.rows == m.Rows() && |s.alive| == m.nRows && (forall r :: 0 <= r < m.nRows ==> s.alive[r])
    && Exact(s.index, s.rows, m.nCols)
    && forall c :: 0 <= c < m.nCols ==> Increasing(s.index.colRows[c])
  }

  /** The matrix holds the live rows of the state, in order, without the empty columns. */
  ghost predicate Holds(s: State, m: Csr, nCols: nat, colMap: seq<nat>, origin: seq<nat>)
    requires m.Shaped()
  {
    && Exact(s.index, s.rows, nCols)
    && Increasing(colMap) && |colMap| == m.nCols
    && (forall c: nat :: c in colMap <==> c < nCols && s.index.colWeight[c] > 0)
    && |origin| == m.nRows && Enumerates(origin, Alive(s.alive))
    && forall j :: 0 <= j < m.nRows ==>
         origin[j] < |s.rows| && Rename(colMap, m.Vectors()[j]) == Cols(s.rows[origin[j]])
  }

  /** The output is what the rounds for the weights 3 to `kMax` make of the input. */
  ghost predicate Outcome(input: Csr, output: Csr, colMap: seq<nat>, origin: seq<nat>,
                          rounds: seq<RoundRun>, first: State, last: State, kMax: nat, cap: nat)
    requires input.Shaped() && output.Shaped()
  {
    && Indexes(first, input)
    && RoundsOk(rounds, first, last, Max(kMax, 2) + 1, kMax, cap)
    && Holds(last, output, input.nCols, colMap, origin)
  }

  /** No column of weight three to `kMax` can be eliminated within the cap; its holders are taken
      in ascending order. */
  ghost predicate NothingEliminable(m: Csr, kMax: nat, cap: nat)
    requires m.Shaped()
  {
    forall c: nat, list: seq<nat> ::
      c < m.nCols && 3 <= Weight(m.Vectors(), c) <= kMax
      && Increasing(list) && ListsHolders(list, m.Rows(), c) ==>
        !FeasibleList(m.Rows(), list, cap)
  }

  ghost predicate FeasibleList(rows: seq<seq<nat>>, list: seq<nat>, cap: nat) {
    (forall k :: 0 <= k < |list| ==> list[k] < |rows|) && Feasible(rows, list, cap)
  }

  lemma StartEliminable(m: Csr, s: State, kMax: nat, cap: nat)
    requires m.Valid() && s.rows == m.Rows() && Exact(s.index, s.rows, m.nCols)
    requires forall c :: 0 <= c < m.nCols ==>
               s.index.colWeight[c] == Weight(m.Vectors(), c) && Increasing(s.index.colRows[c])
    requires forall w: nat :: 3 <= w <= kMax ==> NoneEliminable(s, w, cap)
    ensures NothingEliminable(m, kMax, cap)
  {
    hide Feasible, Csr.Rows, Csr.Vectors, Weight;
    forall c: nat, list: seq<nat> |
      c < m.nCols && 3 <= Weight(m.Vectors(), c) <= kMax
      && Increasing(list) && ListsHolders(list, m.Rows(), c)
      ensures !FeasibleList(m.Rows(), list, cap)
    {
      var w := Weight(m.Vectors(), c);
      assert NoneEliminable(s, w, cap) && s.index.colWeight[c] == w;
      assert Cols(list) == Cols(s.index.colRows[c]);
      IncreasingUnique(list, s.index.colRows[c]);
    }
  }

  lemma PassMaps(input: seq<set<nat>>, output: seq<set<nat>>, colMap: seq<nat>,
                 combos: seq<set<nat>>)
    requires ReducedFrom(input, output, colMap, combos)
    ensures Increasing(colMap)
  {
  }

  /** Eliminates columns of weight 3 up to `kMax`, lightest first. */
  method MergeHigherWeight(input: MergeResult, kMax: nat, maxWeight: nat)
    returns (result: MergeResult, ghost colMap: seq<nat>, ghost combos: seq<set<nat>>,
             ghost origin: seq<nat>, ghost gone: set<nat>, ghost rounds: seq<RoundRun>,
             ghost first: State, ghost last: State)
    requires input.Valid()
    ensures result.Valid()
    // every column that can be eliminated when its turn comes is
    ensures Outcome(input.reduced, result.reduced, colMap, origin, rounds, first, last, kMax,
              EffectiveMax(maxWeight, |input.reduced.colIndices|, input.reduced.nRows))
    ensures ReducedFrom(input.reduced.Vectors(), result.reduced.Vectors(), colMap, combos)
    ensures |colMap| == result.reduced.nCols
    ensures forall d :: 0 <= d < |colMap| ==> colMap[d] < input.reduced.nCols
    ensures result.RowLabels() == ComposeCombos(input.RowLabels(), combos)
    // unless no column can be eliminated within the cap, one is
    ensures result.rowsRemoved == 0 ==>
              NothingEliminable(input.reduced, kMax,
                EffectiveMax(maxWeight, |input.reduced.colIndices|, input.reduced.nRows))
    // one row goes with every eliminated column
    ensures gone <= Used(input.reduced) && forall c :: c in gone ==> c !in colMap
    ensures |gone| == result.mergesPerformed == result.rowsRemoved
                   == input.reduced.nRows - result.reduced.nRows
    ensures |Used(input.reduced)| - result.reduced.nCols >= result.rowsRemoved
    // no row becomes heavier than the cap or than it was
    ensures |origin| == result.reduced.nRows && Increasing(origin)
    ensures forall j :: 0 <= j < result.reduced.nRows ==>
              && origin[j] < input.reduced.nRows
              && |result.reduced.Row(j)| <=
                   Max(EffectiveMax(maxWeight, |input.reduced.colIndices|, input.reduced.nRows),
                       |input.reduced.Row(origin[j])|)
    // no column is empty
    ensures forall d :: 0 <= d < result.reduced.nCols ==> Weight(result.reduced.Vectors(), d) > 0
  {
    hide Feasible, NoneEliminable, NothingEliminable, Emptied, Used, Weight, Reduces, TreeAgrees,
      ReducedFrom, Increasing, Exact, RowsOk, RoundsOk;
    var m := input.reduced;
    var nCols := m.nCols;
    var s := Start(m, input.rowMap, input.tree);
    var cap := EffectiveMax(maxWeight, |m.colIndices|, m.nRows);
    ghost var vectors, labels, rows0 := m.Vectors(), input.RowLabels(), m.Rows();
    first := s;
    var eliminated, rowsRemoved;
    s, eliminated, rowsRemoved, combos, gone, rounds :=
      AllRounds(s, kMax, cap, rows0, vectors, labels, Units(m.nRows), nCols);
    if eliminated == 0 {
      StartEliminable(m, first, kMax, cap);
    }
    StateWidth(first, vectors, labels, Units(m.nRows), nCols);
    StateWidth(s, vectors, labels, combos, nCols);
    last := s;
    var reduced, rowMap;
    ghost var rowCombos;
    reduced, rowMap, colMap, rowCombos, origin := Finish(s, vectors, labels, combos, nCols);
    combos := rowCombos;
    assert Increasing(colMap) by {
      PassMaps(vectors, reduced.Vectors(), colMap, combos);
    }
    UsedSplit(m, first.index.colWeight, s.index.colWeight, gone, colMap);
    result := MergeResult(reduced, rowMap, s.tree, eliminated, rowsRemoved);
    forall d | 0 <= d < reduced.nCols ensures Weight(reduced.Vectors(), d) > 0 {
      assert colMap[d] in colMap;
    }
  }

  /** A row weight is within the cap exactly when it is within the given limit or at most twice the
      average row weight of the input. */
  lemma WithinCapIff(maxWeight: nat, nnz: nat, nRows: nat, k: nat)
    requires nRows > 0
    ensures k <= EffectiveMax(maxWeight, nnz, nRows) <==> k <= maxWeight || k * nRows <= 2 * nnz
  {
    AtMostQuotient(2 * nnz, nRows, k);
  }

  lemma AtMostQuotient(a: nat, b: nat, k: nat)
    requires b > 0
    ensures k <= a / b <==> k * b <= a
  {
    var q, r := a / b, a % b;
    assert a == q * b + r;
    if k <= q {
      Multiples(k, q, b);
    } else {
      Multiples(q + 1, k, b);
      assert (q + 1) * b == q * b + b;
    }
  }

  lemma Multiples(x: nat, y: nat, b: nat)
    requires x <= y
    ensures x * b <= y * b
  {
    assert y * b == x * b + (y - x) * b;
  }
}
