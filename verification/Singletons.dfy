/** Iterated removal of rows that hold a column no other live row holds. */
module Singletons {
  import opened Gf2
  import opened SparseRows
  import opened Reduction
  import opened Passes
  import opened CsrMatrix
  import opened ColumnIndex
  import opened MergeState

  const MAX_SINGLETON_ITERATIONS: nat := 100

  datatype SingletonResult = SingletonResult(
    reduced: Csr,
    rowMap: seq<nat>,
    colMap: seq<nat>,
    iterations: nat,
    rowsRemoved: nat,
    colsRemoved: nat)

  /** Some column of the row is held by no other live row. */
  ghost predicate HasSingleton(rows: seq<set<nat>>, alive: set<nat>, r: nat)
    requires r < |rows|
  {
    exists c :: c in rows[r] && |Hits(rows, alive, c)| == 1
  }

  /** Every column a row of `s` touches is touched at least twice within `s`. */
  ghost predicate Stable(rows: seq<set<nat>>, s: set<nat>) {
    forall r, c :: r in s && r < |rows| && c in rows[r] ==> |Hits(rows, s, c)| >= 2
  }

  // ---------------------------------------------------------------------------
  // The passes as functions
  // ---------------------------------------------------------------------------

  /** One scan over the rows `r`, `r + 1`, ... in order; removals take effect at once. */
  ghost function Scan(rows: seq<set<nat>>, alive: set<nat>, r: nat): (s: set<nat>)
    requires r <= |rows|
    ensures s <= alive
    decreases |rows| - r
  {
    if r == |rows| then alive
    else Scan(rows, if r in alive && HasSingleton(rows, alive, r) then alive - {r} else alive,
              r + 1)
  }

  /** The live rows after `k` scans. */
  ghost function Scans(rows: seq<set<nat>>, k: nat): (s: set<nat>)
    ensures s <= Below(|rows|)
  {
    if k == 0 then Below(|rows|) else Scan(rows, Scans(rows, k - 1), 0)
  }

  lemma HitsMono(rows: seq<set<nat>>, s: set<nat>, t: set<nat>, c: nat)
    requires s <= t
    ensures Hits(rows, s, c) <= Hits(rows, t, c)
    ensures |Hits(rows, s, c)| <= |Hits(rows, t, c)|
  {
    Sub(Hits(rows, s, c), Hits(rows, t, c));
  }

  lemma Sub(s: set<nat>, t: set<nat>)
    requires s <= t
    ensures |s| <= |t|
  {
    assert t == s + (t - s);
  }

  lemma OneElement(s: set<nat>, e: nat)
    requires |s| == 1 && e in s
    ensures s == {e}
  {
    assert |s - {e}| == 0;
    assert s == {e} + (s - {e});
  }

  /** A row of a stable set is never removed. */
  lemma {:induction false} ScanKeepsStable(rows: seq<set<nat>>, alive: set<nat>, r: nat,
                                           s: set<nat>)
    requires r <= |rows| && s <= alive && Stable(rows, s)
    ensures s <= Scan(rows, alive, r)
    decreases |rows| - r
  {
    if r < |rows| {
      if r in s && HasSingleton(rows, alive, r) {
        var c :| c in rows[r] && |Hits(rows, alive, c)| == 1;
        HitsMono(rows, s, alive, c);
        assert false;
      }
      ScanKeepsStable(rows, if r in alive && HasSingleton(rows, alive, r) then alive - {r}
                            else alive, r + 1, s);
    }
  }

  /** Whatever is stable survives any number of scans. */
  lemma {:induction false} ScansKeepStable(rows: seq<set<nat>>, k: nat, s: set<nat>)
    requires s <= Below(|rows|) && Stable(rows, s)
    ensures s <= Scans(rows, k)
  {
    if k > 0 {
      ScansKeepStable(rows, k - 1, s);
      ScanKeepsStable(rows, Scans(rows, k - 1), 0, s);
    }
  }

  lemma {:induction false} ScanUnchanged(rows: seq<set<nat>>, alive: set<nat>, r: nat)
    requires r <= |rows| && alive <= Below(|rows|)
    ensures Scan(rows, alive, r) == alive <==>
            forall k :: r <= k < |rows| && k in alive ==> !HasSingleton(rows, alive, k)
    decreases |rows| - r
  {
    if r < |rows| {
      if r in alive && HasSingleton(rows, alive, r) {
        assert r !in Scan(rows, alive - {r}, r + 1);
      } else {
        ScanUnchanged(rows, alive, r + 1);
      }
    }
  }

  /** A scan removes nothing exactly when the live rows are stable. */
  lemma FixpointIsStable(rows: seq<set<nat>>, alive: set<nat>)
    requires alive <= Below(|rows|)
    ensures Scan(rows, alive, 0) == alive <==> Stable(rows, alive)
  {
    ScanUnchanged(rows, alive, 0);
    if forall k :: 0 <= k < |rows| && k in alive ==> !HasSingleton(rows, alive, k) {
      forall r, c | r in alive && r < |rows| && c in rows[r]
        ensures |Hits(rows, alive, c)| >= 2
      {
        assert !HasSingleton(rows, alive, r);
        assert r in Hits(rows, alive, c);
      }
    }
    if Stable(rows, alive) {
      forall k | 0 <= k < |rows| && k in alive ensures !HasSingleton(rows, alive, k) {
      }
    }
  }

  lemma {:induction false} ScansSettled(rows: seq<set<nat>>, k: nat, m: nat)
    requires k <= m && Scan(rows, Scans(rows, k), 0) == Scans(rows, k)
    ensures Scans(rows, m) == Scans(rows, k)
  {
    if k < m {
      ScansSettled(rows, k, m - 1);
    }
  }

  // ---------------------------------------------------------------------------
  // The method
  // ---------------------------------------------------------------------------

  ghost predicate WeightsOf(rows: seq<set<nat>>, alive: set<nat>, weight: seq<nat>) {
    forall c :: 0 <= c < |weight| ==> weight[c] == |Hits(rows, alive, c)|
  }

  lemma WeightsGrow(rows: seq<set<nat>>, alive: set<nat>, before: seq<nat>, after: seq<nat>,
                    row: seq<nat>, r: nat)
    requires r < |rows| && r !in alive && rows[r] == Cols(row)
    requires WeightsOf(rows, alive, before) && |after| == |before|
    requires forall c :: 0 <= c < |after| ==>
               after[c] == if c in row then before[c] + 1 else before[c]
    ensures WeightsOf(rows, alive + {r}, after)
  {
    forall c | 0 <= c < |after| ensures after[c] == |Hits(rows, alive + {r}, c)| {
      if c in row {
        assert Hits(rows, alive + {r}, c) == Hits(rows, alive, c) + {r};
      } else {
        assert Hits(rows, alive + {r}, c) == Hits(rows, alive, c);
      }
    }
  }

  lemma WeightsStart(rows: seq<set<nat>>, weight: seq<nat>)
    requires forall c :: 0 <= c < |weight| ==> weight[c] == 0
    ensures WeightsOf(rows, {}, weight)
  {
    forall c | 0 <= c < |weight| ensures Hits(rows, {}, c) == {} {
    }
  }

  method CountWeights(input: Csr) returns (weight: seq<nat>)
    requires input.Valid()
    ensures |weight| == input.nCols
    ensures WeightsOf(input.Vectors(), Below(input.nRows), weight)
  {
    hide WeightsOf;
    weight := seq(input.nCols, _ => 0);
    ghost var rows := input.Vectors();
    WeightsStart(rows, weight);
    for r := 0 to input.nRows
      invariant |weight| == input.nCols
      invariant WeightsOf(rows, Below(r), weight)
    {
      var row := input.Row(r);
      RowColumns(input, r);
      ghost var before := weight;
      weight := Increment(weight, row);
      WeightsGrow(rows, Below(r), before, weight, row, r);
    }
  }

  lemma RowColumns(input: Csr, r: nat)
    requires input.Valid() && r < input.nRows
    ensures Increasing(input.Row(r)) && InRange(input.Row(r), input.nCols)
  {
    var row := input.Row(r);
    forall k | 0 <= k < |row| ensures row[k] < input.nCols {
      assert row[k] in Cols(row);
    }
  }

  /** Looks for a column of weight one. */
  method FindSingleton(row: seq<nat>, weight: seq<nat>) returns (found: bool)
    requires InRange(row, |weight|)
    ensures found <==> exists k :: 0 <= k < |row| && weight[row[k]] == 1
  {
    found := false;
    for k := 0 to |row|
      invariant !found
      invariant forall i :: 0 <= i < k ==> weight[row[i]] != 1
    {
      if weight[row[k]] == 1 {
        found := true;
        break;
      }
    }
  }

  lemma SingletonMeaning(rows: seq<set<nat>>, alive: set<nat>, weight: seq<nat>, row: seq<nat>,
                         r: nat)
    requires r < |rows| && rows[r] == Cols(row) && InRange(row, |weight|)
    requires WeightsOf(rows, alive, weight)
    ensures HasSingleton(rows, alive, r) <==> exists k :: 0 <= k < |row| && weight[row[k]] == 1
  {
    if HasSingleton(rows, alive, r) {
      var c :| c in rows[r] && |Hits(rows, alive, c)| == 1;
      var k :| 0 <= k < |row| && row[k] == c;
      assert weight[row[k]] == 1;
    }
    if k :| 0 <= k < |row| && weight[row[k]] == 1 {
      assert row[k] in rows[r];
    }
  }

  /** Takes one live row out of the weights. */
  method RemoveRow(ghost rows: seq<set<nat>>, ghost alive: set<nat>, weight: seq<nat>,
                   row: seq<nat>, r: nat) returns (w: seq<nat>)
    requires r < |rows| && r in alive && rows[r] == Cols(row)
    requires Increasing(row) && InRange(row, |weight|)
    requires WeightsOf(rows, alive, weight)
    ensures |w| == |weight|
    ensures WeightsOf(rows, alive - {r}, w)
  {
    forall k | 0 <= k < |row| ensures weight[row[k]] > 0 {
      assert r in Hits(rows, alive, row[k]);
    }
    w := Decrement(weight, row);
    forall c | 0 <= c < |w| ensures w[c] == |Hits(rows, alive - {r}, c)| {
      if c in row {
        assert Hits(rows, alive, c) == Hits(rows, alive - {r}, c) + {r};
      } else {
        assert Hits(rows, alive, c) == Hits(rows, alive - {r}, c);
      }
    }
  }

  /** No dependency uses a row that was removed. */
  ghost predicate Kept(rows: seq<set<nat>>, alive: set<nat>) {
    forall x :: Kernel(rows, Below(|rows|), x) ==> x <= alive
  }

  /** A row with a singleton column takes part in no dependency. */
  lemma SingletonUnused(rows: seq<set<nat>>, alive: set<nat>, r: nat)
    requires r < |rows| && r in alive && HasSingleton(rows, alive, r)
    requires Kept(rows, alive)
    ensures Kept(rows, alive - {r})
  {
    var c :| c in rows[r] && |Hits(rows, alive, c)| == 1;
    OneElement(Hits(rows, alive, c), r);
    forall x | Kernel(rows, Below(|rows|), x) ensures x <= alive - {r} {
      assert r in x ==> Hits(rows, x, c) == {r} by {
        assert Hits(rows, x, c) <= Hits(rows, alive, c);
      }
      InComb(rows, x, c);
    }
  }

  lemma KeptReduces(rows: seq<set<nat>>, alive: set<nat>)
    requires Kept(rows, alive) && alive <= Below(|rows|)
    ensures Reduces(rows, rows, Units(|rows|), alive)
  {
    ReducesSelf(rows);
    forall x | Kernel(rows, Below(|rows|), x)
      ensures exists y :: y <= alive && Comb(Units(|rows|), y) == x
    {
      CombUnits(|rows|, x);
      assert x <= alive;
    }
  }

  lemma AliveDrop(alive: seq<bool>, r: nat)
    requires r < |alive|
    ensures Alive(alive[r := false]) == Alive(alive) - {r}
  {
  }

  /** What the removal loop keeps. */
  ghost predicate ScanInv(rows: seq<set<nat>>, nCols: nat, alive: seq<bool>, weight: seq<nat>) {
    && |alive| == |rows| && |weight| == nCols
    && WeightsOf(rows, Alive(alive), weight)
    && Kept(rows, Alive(alive))
  }

  /** Removes row `r` if it is live and holds a singleton column. */
  method ScanRow(input: Csr, alive: seq<bool>, weight: seq<nat>, r: nat)
    returns (alive': seq<bool>, weight': seq<nat>, gone: bool)
    requires input.Valid() && ScanInv(input.Vectors(), input.nCols, alive, weight) && r < input.nRows
    ensures ScanInv(input.Vectors(), input.nCols, alive', weight')
    ensures gone <==> alive[r] && HasSingleton(input.Vectors(), Alive(alive), r)
    ensures !gone ==> alive' == alive
    ensures gone ==> alive' == alive[r := false] && Alive(alive') == Alive(alive) - {r}
  {
    alive', weight', gone := alive, weight, false;
    if alive[r] {
      ghost var rows := input.Vectors();
      var row := input.Row(r);
      RowColumns(input, r);
      SingletonMeaning(rows, Alive(alive), weight, row, r);
      gone := FindSingleton(row, weight);
      if gone {
        SingletonUnused(rows, Alive(alive), r);
        weight' := RemoveRow(rows, Alive(alive), weight, row, r);
        alive' := alive[r := false];
        AliveDrop(alive, r);
      }
    }
  }

  /** One pass over the rows. */
  method ScanPass(input: Csr, alive0: seq<bool>, weight0: seq<nat>)
    returns (alive: seq<bool>, weight: seq<nat>, removed: nat)
    requires input.Valid() && ScanInv(input.Vectors(), input.nCols, alive0, weight0)
    ensures ScanInv(input.Vectors(), input.nCols, alive, weight)
    ensures Alive(alive) == Scan(input.Vectors(), Alive(alive0), 0)
    ensures Live(alive) == Live(alive0) - removed
    ensures removed == 0 ==> alive == alive0
  {
    hide Live, Alive, HasSingleton, Kept, WeightsOf;
    alive, weight, removed := alive0, weight0, 0;
    for r := 0 to input.nRows
      invariant ScanInv(input.Vectors(), input.nCols, alive, weight)
      invariant Scan(input.Vectors(), Alive(alive), r) == Scan(input.Vectors(), Alive(alive0), 0)
      invariant Live(alive) == Live(alive0) - removed
      invariant removed == 0 ==> alive == alive0
    {
      var alive', gone;
      alive', weight, gone := ScanRow(input, alive, weight, r);
      if gone {
        LiveDrops(alive, r);
        removed := removed + 1;
      }
      alive := alive';
    }
  }

  lemma Settled(rows: seq<set<nat>>, k: nat)
    requires k < MAX_SINGLETON_ITERATIONS
    requires Scan(rows, Scans(rows, k), 0) == Scans(rows, k)
    ensures Scans(rows, MAX_SINGLETON_ITERATIONS) == Scans(rows, k)
    ensures Stable(rows, Scans(rows, k))
  {
    ScansSettled(rows, k, MAX_SINGLETON_ITERATIONS);
    FixpointIsStable(rows, Scans(rows, k));
  }

  lemma NothingLeft(rows: seq<set<nat>>, alive: seq<bool>)
    requires Live(alive) <= 0
    ensures Stable(rows, Alive(alive))
  {
    LiveCount(alive);
    assert Alive(alive) == {};
  }

  method StartScan(input: Csr) returns (alive: seq<bool>, weight: seq<nat>)
    requires input.Valid()
    ensures ScanInv(input.Vectors(), input.nCols, alive, weight)
    ensures Alive(alive) == Scans(input.Vectors(), 0)
    ensures Live(alive) == input.nRows
  {
    weight := CountWeights(input);
    alive := seq(input.nRows, _ => true);
    LiveAll(input.nRows);
    assert Alive(alive) == Below(input.nRows);
  }

  /** The number of passes: up to and with the first one that changes nothing, or the bound. */
  ghost predicate PassCount(rows: seq<set<nat>>, n: nat) {
    && 1 <= n <= MAX_SINGLETON_ITERATIONS
    && (forall k: nat :: k + 1 < n ==> Scans(rows, k + 1) != Scans(rows, k))
    && (n == MAX_SINGLETON_ITERATIONS || Scans(rows, n) == Scans(rows, n - 1))
  }

  /** As many flags, as many live rows. */
  lemma SameAlive(a: seq<bool>, b: seq<bool>)
    requires Alive(a) == Alive(b)
    ensures Live(a) == Live(b)
  {
    LiveCount(a);
    LiveCount(b);
  }

  /** Repeats the passes until one removes nothing or the bound is reached. */
  method ScanAll(input: Csr) returns (alive: seq<bool>, weight: seq<nat>, iteration: nat)
    requires input.Valid()
    ensures ScanInv(input.Vectors(), input.nCols, alive, weight)
    ensures Alive(alive) == Scans(input.Vectors(), MAX_SINGLETON_ITERATIONS)
    ensures Alive(alive) == Scans(input.Vectors(), iteration)
    ensures iteration < MAX_SINGLETON_ITERATIONS || input.nRows <= MAX_SINGLETON_ITERATIONS
            ==> Stable(input.Vectors(), Alive(alive))
    ensures PassCount(input.Vectors(), iteration)
  {
    hide ScanInv, Stable, Scan, Live, Alive;
    ghost var rows := input.Vectors();
    alive, weight := StartScan(input);
    var totalRemoved := 0;
    iteration := 0;
    while iteration < MAX_SINGLETON_ITERATIONS
      invariant iteration <= MAX_SINGLETON_ITERATIONS
      invariant ScanInv(rows, input.nCols, alive, weight)
      invariant Alive(alive) == Scans(rows, iteration)
      invariant Live(alive) == input.nRows - totalRemoved
      invariant iteration <= totalRemoved
      invariant forall k: nat :: k < iteration ==> Scans(rows, k + 1) != Scans(rows, k)
    {
      var removed;
      ghost var before := alive;
      alive, weight, removed := ScanPass(input, alive, weight);
      if Alive(alive) == Alive(before) {
        SameAlive(alive, before);
      }
      totalRemoved := totalRemoved + removed;
      iteration := iteration + 1;
      if removed == 0 {
        Settled(rows, iteration - 1);
        return;
      }
    }
    if input.nRows <= MAX_SINGLETON_ITERATIONS {
      NothingLeft(rows, alive);
    }
  }

  /** The output holds the rows that survive the passes, without the columns none of them holds. */
  ghost predicate Outcome(input: Csr, result: SingletonResult)
    requires input.Shaped() && result.reduced.Shaped()
  {
    var rows, left := input.Vectors(), Cols(result.rowMap);
    && PassCount(rows, result.iterations) && left == Scans(rows, result.iterations)
    && Increasing(result.rowMap) && |result.rowMap| == result.reduced.nRows
    && Increasing(result.colMap) && |result.colMap| == result.reduced.nCols
    && (forall c: nat :: c in result.colMap <==> c < input.nCols && Hits(rows, left, c) != {})
    && forall j :: 0 <= j < |result.rowMap| ==>
         result.rowMap[j] < input.nRows
         && Rename(result.colMap, result.reduced.Vectors()[j]) == rows[result.rowMap[j]]
  }

  lemma PositiveIsHit(rows: seq<set<nat>>, nCols: nat, alive: seq<bool>, weight: seq<nat>, c: nat)
    requires ScanInv(rows, nCols, alive, weight) && c < nCols
    ensures weight[c] > 0 <==> Hits(rows, Alive(alive), c) != {}
  {
    assert weight[c] == |Hits(rows, Alive(alive), c)|;
  }

  lemma KeptRowRenamed(input: Csr, reduced: Csr, colMap: seq<nat>, rowMap: seq<nat>, j: nat)
    requires input.Shaped() && reduced.Shaped() && j < |rowMap| == reduced.nRows
    requires ReducedFrom(input.Vectors(), reduced.Vectors(), colMap, Singles(rowMap))
    requires rowMap[j] < input.nRows
    ensures Rename(colMap, reduced.Vectors()[j]) == input.Vectors()[rowMap[j]]
  {
    CombSingleton(input.Vectors(), rowMap[j]);
  }

  lemma UsedColumns(input: Csr, alive: seq<bool>, weight: seq<nat>, r: nat)
    requires input.Valid() && ScanInv(input.Vectors(), input.nCols, alive, weight)
    requires r < input.nRows && alive[r]
    ensures forall k :: 0 <= k < |input.Row(r)| ==>
              input.Row(r)[k] < |weight| && weight[input.Row(r)[k]] > 0
  {
    var row := input.Row(r);
    forall k | 0 <= k < |row| ensures row[k] < |weight| && weight[row[k]] > 0 {
      assert row[k] in Cols(row);
      assert r in Hits(input.Vectors(), Alive(alive), row[k]);
    }
  }

  /** Removes singleton rows pass by pass, at most `MAX_SINGLETON_ITERATIONS` times. */
  method RemoveSingletons(input: Csr) returns (result: SingletonResult)
    requires input.Valid()
    ensures result.reduced.Valid()
    ensures |result.rowMap| == result.reduced.nRows && |result.colMap| == result.reduced.nCols
    ensures Increasing(result.rowMap) && Increasing(result.colMap)
    ensures Outcome(input, result)
    // a row is kept exactly when it survives all passes
    ensures Cols(result.rowMap) == Scans(input.Vectors(), MAX_SINGLETON_ITERATIONS)
    ensures result.rowsRemoved == input.nRows - result.reduced.nRows
    // the dependencies are the same
    ensures ReducedFrom(input.Vectors(), result.reduced.Vectors(), result.colMap,
                        Singles(result.rowMap))
    ensures forall d :: 0 <= d < |result.colMap| ==> result.colMap[d] < input.nCols
    ensures result.colsRemoved == input.nCols - result.reduced.nCols
    // when a pass removed nothing, no column of weight one is left
    ensures result.iterations < MAX_SINGLETON_ITERATIONS || input.nRows <= MAX_SINGLETON_ITERATIONS
            ==> Stable(input.Vectors(), Cols(result.rowMap))
  {
    var alive, weight, iteration := ScanAll(input);
    var rows := input.ToRows();
    forall r | 0 <= r < |rows| && alive[r]
      ensures forall k :: 0 <= k < |rows[r]| ==>
                rows[r][k] < |weight| && weight[rows[r][k]] > 0
    {
      UsedColumns(input, alive, weight, r);
    }
    var reduced, rowMap, colMap := Compact(rows, alive, weight);
    KeptReduces(input.Vectors(), Alive(alive));
    CompactedPass(input.Vectors(), rows, alive, Units(input.nRows), colMap, rowMap, reduced);
    assert Pick(Units(input.nRows), rowMap) == Singles(rowMap);
    forall d | 0 <= d < |colMap| ensures colMap[d] < input.nCols {
      assert colMap[d] in colMap;
    }
    forall j | 0 <= j < |rowMap| ensures rowMap[j] < input.nRows {
      assert rowMap[j] in Cols(rowMap);
    }
    ColMapShort(colMap, input.nCols);
    ColMapShort(rowMap, input.nRows);
    result := SingletonResult(reduced, rowMap, colMap, iteration, input.nRows - |rowMap|,
                              input.nCols - |colMap|);
    forall c: nat | c < input.nCols
      ensures weight[c] > 0 <==> Hits(input.Vectors(), Alive(alive), c) != {}
    {
      PositiveIsHit(input.Vectors(), input.nCols, alive, weight, c);
    }
    forall j | 0 <= j < |rowMap|
      ensures Rename(colMap, reduced.Vectors()[j]) == input.Vectors()[rowMap[j]]
    {
      KeptRowRenamed(input, reduced, colMap, rowMap, j);
    }
  }

  lemma ColMapShort(colMap: seq<nat>, n: nat)
    requires Increasing(colMap) && forall d :: 0 <= d < |colMap| ==> colMap[d] < n
    ensures |colMap| <= n
  {
    IncreasingCard(colMap);
    BelowCard(n);
    Sub(Cols(colMap), Below(n));
  }

  lemma {:induction false} BelowCard(n: nat)
    ensures |Below(n)| == n
  {
    if n > 0 {
      BelowCard(n - 1);
    }
  }

  // ---------------------------------------------------------------------------
  // Largest stable set, and the limit of the pass bound
  // ---------------------------------------------------------------------------

  /** The live rows after the listed rows are removed. */
  ghost function LiveAfter(rows: seq<set<nat>>, order: seq<nat>): set<nat> {
    Below(|rows|) - Cols(order)
  }

  /** Some removal order: every listed row is live and holds a singleton when its turn comes. */
  ghost predicate Removal(rows: seq<set<nat>>, order: seq<nat>) {
    forall k :: 0 <= k < |order| ==>
      order[k] in LiveAfter(rows, order[..k])
      && HasSingleton(rows, LiveAfter(rows, order[..k]), order[k])
  }

  /** No row is left to remove. */
  ghost predicate Exhausted(rows: seq<set<nat>>, order: seq<nat>) {
    forall r :: r in LiveAfter(rows, order) ==> !HasSingleton(rows, LiveAfter(rows, order), r)
  }

  ghost predicate LargestStable(rows: seq<set<nat>>, s: set<nat>) {
    && s <= Below(|rows|) && Stable(rows, s)
    && forall t: set<nat> :: t <= Below(|rows|) && Stable(rows, t) ==> t <= s
  }

  lemma {:induction false} RemovalKeepsStable(rows: seq<set<nat>>, order: seq<nat>, s: set<nat>)
    requires Removal(rows, order) && s <= Below(|rows|) && Stable(rows, s)
    ensures s <= LiveAfter(rows, order)
  {
    if |order| > 0 {
      var m := |order| - 1;
      forall k | 0 <= k < m ensures order[..m][..k] == order[..k] {
      }
      RemovalKeepsStable(rows, order[..m], s);
      if order[m] in s {
        var c :| c in rows[order[m]] && |Hits(rows, LiveAfter(rows, order[..m]), c)| == 1;
        HitsMono(rows, s, LiveAfter(rows, order[..m]), c);
        assert false;
      }
      assert order == order[..m] + [order[m]];
    }
  }

  /** Whatever the order, removing until nothing can be removed leaves the largest stable set. */
  lemma AnyOrderLeavesLargest(rows: seq<set<nat>>, order: seq<nat>)
    requires Removal(rows, order) && Exhausted(rows, order)
    ensures LargestStable(rows, LiveAfter(rows, order))
  {
    ScanUnchanged(rows, LiveAfter(rows, order), 0);
    FixpointIsStable(rows, LiveAfter(rows, order));
    forall t: set<nat> | t <= Below(|rows|) && Stable(rows, t)
      ensures t <= LiveAfter(rows, order)
    {
      RemovalKeepsStable(rows, order, t);
    }
  }

  /** Any two orders of removal end with the same rows. */
  lemma OrderIsIrrelevant(rows: seq<set<nat>>, p: seq<nat>, q: seq<nat>)
    requires Removal(rows, p) && Exhausted(rows, p)
    requires Removal(rows, q) && Exhausted(rows, q)
    ensures LiveAfter(rows, p) == LiveAfter(rows, q)
  {
    AnyOrderLeavesLargest(rows, p);
    AnyOrderLeavesLargest(rows, q);
  }

  lemma RemovalSnoc(rows: seq<set<nat>>, order: seq<nat>, r: nat)
    requires Removal(rows, order) && r in LiveAfter(rows, order)
    requires HasSingleton(rows, LiveAfter(rows, order), r)
    ensures Removal(rows, order + [r])
    ensures LiveAfter(rows, order + [r]) == LiveAfter(rows, order) - {r}
  {
    var order' := order + [r];
    forall k | 0 <= k < |order'|
      ensures order'[k] in LiveAfter(rows, order'[..k])
      ensures HasSingleton(rows, LiveAfter(rows, order'[..k]), order'[k])
    {
      assert order'[..k] == if k < |order| then order[..k] else order;
    }
  }

  lemma {:induction false} ScanIsRemoval(rows: seq<set<nat>>, order: seq<nat>, r: nat)
    returns (order': seq<nat>)
    requires Removal(rows, order) && r <= |rows|
    ensures Removal(rows, order')
    ensures LiveAfter(rows, order') == Scan(rows, LiveAfter(rows, order), r)
    decreases |rows| - r
  {
    order' := order;
    if r < |rows| {
      if r in LiveAfter(rows, order) && HasSingleton(rows, LiveAfter(rows, order), r) {
        RemovalSnoc(rows, order, r);
        order' := order + [r];
      }
      order' := ScanIsRemoval(rows, order', r + 1);
    }
  }

  /** The passes follow one of these orders, the one that scans upward. */
  lemma {:induction false} ScansAreRemoval(rows: seq<set<nat>>, k: nat) returns (order: seq<nat>)
    ensures Removal(rows, order) && LiveAfter(rows, order) == Scans(rows, k)
  {
    hide Scan, HasSingleton, Below;
    order := [];
    if k > 0 {
      order := ScansAreRemoval(rows, k - 1);
      order := ScanIsRemoval(rows, order, 0);
    }
  }

  /** The passes have reached what every exhaustive order of removal reaches exactly when the
      surviving rows are stable, and then these are the largest stable set of rows. */
  lemma SurvivorsAreLargest(rows: seq<set<nat>>, k: nat, order: seq<nat>)
    requires Removal(rows, order) && Exhausted(rows, order)
    ensures LiveAfter(rows, order) <= Scans(rows, k)
    ensures Scans(rows, k) == LiveAfter(rows, order) <==> Stable(rows, Scans(rows, k))
    ensures Stable(rows, Scans(rows, k)) <==> LargestStable(rows, Scans(rows, k))
  {
    AnyOrderLeavesLargest(rows, order);
    ScansKeepStable(rows, k, LiveAfter(rows, order));
  }

  /** A ladder of rows `{1}`, `{1, 2}`, `{2, 3}`, ... whose last column is a singleton. */
  ghost function Ladder(n: nat): (rows: seq<set<nat>>)
    ensures |rows| == n
    ensures forall r :: 0 <= r < n ==> rows[r] == if r == 0 then {1} else {r, r + 1}
  {
    seq(n, r requires 0 <= r < n => if r == 0 then {1} else {r, r + 1})
  }

  lemma LadderHits(n: nat, m: nat, c: nat)
    requires 1 <= c <= m <= n
    ensures Hits(Ladder(n), Below(m), c) == if c < m then {c - 1, c} else {c - 1}
  {
    var rows := Ladder(n);
    forall r: nat | r < m ensures c in rows[r] <==> r == c - 1 || r == c {
    }
  }

  lemma LadderRung(n: nat, m: nat, r: nat)
    requires 1 < m <= n && r < m
    ensures HasSingleton(Ladder(n), Below(m), r) <==> r == m - 1
  {
    var rows := Ladder(n);
    LadderHits(n, m, r + 1);
    assert r + 1 in rows[r];
    if r < m - 1 {
      forall c | c in rows[r] ensures |Hits(rows, Below(m), c)| == 2 {
        assert c == r + 1 || c == r;
        LadderHits(n, m, c);
        assert |{c - 1, c}| == 2;
      }
    }
  }

  lemma {:induction false} LadderScan(n: nat, m: nat, r: nat)
    requires 1 < m <= n && r < m
    ensures Scan(Ladder(n), Below(m), r) == Below(m - 1)
    decreases m - r
  {
    LadderRung(n, m, r);
    if r == m - 1 {
      assert Below(m) - {r} == Below(m - 1);
      LadderTail(n, m - 1, m);
    } else {
      LadderScan(n, m, r + 1);
    }
  }

  lemma {:induction false} LadderTail(n: nat, m: nat, r: nat)
    requires m <= r <= n
    ensures Scan(Ladder(n), Below(m), r) == Below(m)
    decreases n - r
  {
    if r < n {
      LadderTail(n, m, r + 1);
    }
  }

  lemma {:induction false} LadderScans(n: nat, k: nat)
    requires k < n
    ensures Scans(Ladder(n), k) == Below(n - k)
  {
    hide Ladder, Scan, Below;
    if k > 0 {
      LadderScans(n, k - 1);
      LadderScan(n, n - k + 1, 0);
    }
  }

  /** With more rows than the pass bound a column of weight one can survive. */
  lemma LadderDoesNotConverge(n: nat)
    requires n > MAX_SINGLETON_ITERATIONS
    ensures var left := Scans(Ladder(n), MAX_SINGLETON_ITERATIONS);
            var m := n - MAX_SINGLETON_ITERATIONS;
            left == Below(m) && |Hits(Ladder(n), left, m)| == 1 && !Stable(Ladder(n), left)
  {
    var m := n - MAX_SINGLETON_ITERATIONS;
    LadderScans(n, MAX_SINGLETON_ITERATIONS);
    LadderHits(n, m, m);
    assert m - 1 in Below(m) && m in Ladder(n)[m - 1];
  }

  /** A pass that leaves rows unstable has removed at least one. */
  lemma {:induction false} ScansShrink(rows: seq<set<nat>>, k: nat)
    ensures Stable(rows, Scans(rows, k)) || |Scans(rows, k)| + k <= |rows|
  {
    if k == 0 {
      BelowCard(|rows|);
    } else {
      var before := Scans(rows, k - 1);
      ScansShrink(rows, k - 1);
      FixpointIsStable(rows, before);
      if Scans(rows, k) != before {
        var r :| r in before && r !in Scans(rows, k);
        Sub(Scans(rows, k), before - {r});
      }
    }
  }

  /** The pass bound is harmless for all matrices of `n` rows exactly up to the bound itself. */
  lemma ConvergesIff(n: nat)
    ensures (forall rows: seq<set<nat>> :: |rows| == n ==>
               Stable(rows, Scans(rows, MAX_SINGLETON_ITERATIONS)))
            <==> n <= MAX_SINGLETON_ITERATIONS
  {
    if n <= MAX_SINGLETON_ITERATIONS {
      forall rows: seq<set<nat>> | |rows| == n
        ensures Stable(rows, Scans(rows, MAX_SINGLETON_ITERATIONS))
      {
        ScansShrink(rows, MAX_SINGLETON_ITERATIONS);
      }
    } else {
      LadderDoesNotConverge(n);
      assert |Ladder(n)| == n;
    }
  }

  /** The ladder as a matrix the pass accepts. */
  function LadderMatrix(n: nat): Csr
    requires n > 0
  {
    Csr(seq(n + 1, r => if r == 0 then 0 else 2 * r - 1), seq(2 * n - 1, k => k / 2 + 1), n, n + 1)
  }

  lemma LadderRow(n: nat, r: nat)
    requires r < n
    ensures var m := LadderMatrix(n);
            m.Shaped() && m.Row(r) == if r == 0 then [1] else [r, r + 1]
  {
  }

  lemma LadderMatrixRows(n: nat)
    requires n > 0
    ensures var m := LadderMatrix(n); m.Valid() && m.Vectors() == Ladder(n)
  {
    var m := LadderMatrix(n);
    hide LadderMatrix;
    forall r | 0 <= r < n
      ensures m.Shaped() && Increasing(m.Row(r)) && Cols(m.Row(r)) <= Below(n + 1)
      ensures Cols(m.Row(r)) == Ladder(n)[r]
    {
      LadderRow(n, r);
    }
  }

  lemma LadderLeft(n: nat, rowMap: seq<nat>)
    requires n > MAX_SINGLETON_ITERATIONS && Increasing(rowMap)
    requires Cols(rowMap) == Scans(Ladder(n), MAX_SINGLETON_ITERATIONS)
    ensures |rowMap| == n - MAX_SINGLETON_ITERATIONS
    ensures !Stable(Ladder(n), Cols(rowMap))
  {
    hide Scans, Stable, Hits, Increasing, Cols, Ladder, Below;
    LadderDoesNotConverge(n);
    IncreasingCard(rowMap);
    BelowCard(n - MAX_SINGLETON_ITERATIONS);
  }

  /** For every size above the bound, an input on which the pass stops with a singleton left. */
  method SingletonLeft(n: nat) returns (input: Csr, result: SingletonResult)
    requires n > MAX_SINGLETON_ITERATIONS
    ensures input.Valid() && input.nRows == n
    ensures result.reduced.nRows == n - MAX_SINGLETON_ITERATIONS
    ensures !Stable(input.Vectors(), Cols(result.rowMap))
  {
    hide Scans, Stable, ReducedFrom, Ladder, Hits, Increasing, Cols, Below, Singles, Csr.Valid;
    input := LadderMatrix(n);
    LadderMatrixRows(n);
    hide LadderMatrix;
    result := RemoveSingletons(input);
    LadderLeft(n, result.rowMap);
  }
}
