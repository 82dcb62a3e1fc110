/** Merging the two rows of every column of weight two. */
module WeightTwo {
  import opened Gf2
  import opened SparseRows
  import opened Reduction
  import opened Passes
  import opened CsrMatrix
  import opened ColumnIndex
  import opened MergeTrees
  import opened MergeState
  import opened PairMerges

  /** Every column of weight two is queued. */
  ghost predicate Queued(weight: seq<nat>, w2: set<nat>) {
    && (forall c :: c in w2 ==> c < |weight|)
    && forall c :: 0 <= c < |weight| && weight[c] == 2 ==> c in w2
  }

  ghost predicate SameParity(before: seq<nat>, after: seq<nat>) {
    |before| == |after| && forall c :: 0 <= c < |before| ==> before[c] % 2 == after[c] % 2
  }

  method Smallest(s: set<nat>) returns (m: nat)
    requires s != {}
    ensures m in s && forall e :: e in s ==> m <= e
  {
    m :| m in s;
    var rest := s - {m};
    while rest != {}
      invariant m in s && rest <= s
      invariant forall e :: e in s - rest ==> m <= e
      decreases rest
    {
      var e :| e in rest;
      if e < m {
        m := e;
      }
      assert s - (rest - {e}) == (s - rest) + {e};
      rest := rest - {e};
    }
    assert s - rest == s;
  }

  /** Queues the columns of one row that have weight two now. */
  method QueueRow(weight: seq<nat>, row: seq<nat>, w2: set<nat>) returns (queue: set<nat>)
    requires InRange(row, |weight|)
    ensures forall c :: c in queue <==> c in w2 || (c in row && weight[c] == 2)
  {
    queue := w2;
    for k := 0 to |row|
      invariant forall c :: c in queue <==> c in w2 || (c in row[..k] && weight[c] == 2)
    {
      assert row[..k + 1] == row[..k] + [row[k]];
      if weight[row[k]] == 2 {
        queue := queue + {row[k]};
      }
    }
    assert row[..|row|] == row;
  }

  datatype Found = Missing | Row(r: nat)

  /** The first two live rows of a column's list. */
  method FirstTwoAlive(list: seq<nat>, alive: seq<bool>) returns (r1: Found, r2: Found)
    requires forall k :: 0 <= k < |list| ==> list[k] < |alive| && alive[list[k]]
    ensures |list| == 2 ==> r1 == Row(list[0]) && r2 == Row(list[1])
  {
    r1, r2 := Missing, Missing;
    for k := 0 to |list|
      invariant k <= 1
      invariant k == 0 ==> r1 == Missing && r2 == Missing
      invariant k > 0 ==> r1 == Row(list[0]) && r2 == Missing
    {
      if alive[list[k]] {
        if r1 == Missing {
          r1 := Row(list[k]);
        } else {
          r2 := Row(list[k]);
          break;
        }
      }
    }
  }

  lemma AddCommutes(a: set<nat>, b: set<nat>)
    ensures Add(a, b) == Add(b, a)
  {
  }

  lemma InAdd(row: seq<nat>, a: seq<nat>, b: seq<nat>)
    requires Cols(row) == Add(Cols(a), Cols(b))
    ensures forall c: nat :: c in row <==> ((c in a) != (c in b))
  {
    forall c: nat ensures c in row <==> ((c in a) != (c in b)) {
      assert c in row <==> c in Cols(row);
      assert c in a <==> c in Cols(a);
      assert c in b <==> c in Cols(b);
    }
  }

  /** The weight change of one merge: a column both rows hold loses two holders. */
  ghost predicate PairDropped(before: seq<nat>, after: seq<nat>, row1: seq<nat>, row2: seq<nat>) {
    && |after| == |before|
    && forall d :: 0 <= d < |before| ==>
         before[d] == after[d] + if d in row1 && d in row2 then 2 else 0
  }

  /** Queues the columns whose weight has become two. */
  method Requeue(weight: seq<nat>, ghost before: seq<nat>, row1: seq<nat>, row2: seq<nat>,
                 newRow: seq<nat>, w2: set<nat>, ghost c: nat) returns (queue: set<nat>)
    requires PairDropped(before, weight, row1, row2)
    requires InRange(row1, |weight|) && InRange(row2, |weight|) && InRange(newRow, |weight|)
    requires Queued(before, w2 + {c}) && c in row1 && c in row2
    ensures Queued(weight, queue)
  {
    queue := QueueRow(weight, row1, w2);
    queue := QueueRow(weight, row2, queue);
    queue := QueueRow(weight, newRow, queue);
    forall d | 0 <= d < |weight| && weight[d] == 2 ensures d in queue {
      if d !in row1 {
        assert before[d] == 2;
        assert d in w2 + {c};
      }
    }
  }

  /** Replaces row `r1` by the sum of rows `r1` and `r2` and deletes `r2`. */
  method MergePair(s: State, ghost c: nat, r1: nat, r2: nat, newRow: seq<nat>,
                   ghost input: seq<set<nat>>, ghost labels: seq<set<nat>>,
                   ghost combos: seq<set<nat>>, nCols: nat)
    returns (s': State, ghost combos': seq<set<nat>>)
    requires Inv(s, input, labels, combos, nCols)
    requires c < nCols && s.index.colWeight[c] == 2
    requires r1 < |s.rows| && r2 < |s.rows| && r1 != r2
    requires s.alive[r1] && s.alive[r2] && c in s.rows[r1] && c in s.rows[r2]
    requires Increasing(newRow) && Cols(newRow) == Add(Cols(s.rows[r1]), Cols(s.rows[r2]))
    ensures Inv(s', input, labels, combos', nCols)
    ensures s'.alive == s.alive[r2 := false]
    ensures s'.rows == s.rows[r1 := newRow][r2 := []]
    ensures |combos| == |s.alive| && combos' == combos[r1 := Add(combos[r2], combos[r1])]
    ensures InRange(newRow, nCols)
    ensures PairDropped(s.index.colWeight, s'.index.colWeight, s.rows[r1], s.rows[r2])
    ensures s'.tree == s.tree.Grow(s.nodeOf[r1], s.nodeOf[r2])
  {
    AddCommutes(Cols(s.rows[r1]), Cols(s.rows[r2]));
    InAdd(newRow, s.rows[r1], s.rows[r2]);
    var mid;
    mid, combos' := CombineRows(s, r1, r2, r2, r1, newRow, input, labels, combos, nCols);
    assert mid.rows[r1] == newRow && mid.rows[r2] == s.rows[r2];
    s' := KillRow(mid, r2, c, input, labels, combos', nCols);
  }

  function MaxPlusOne(s: seq<nat>): (m: nat)
    ensures forall k :: 0 <= k < |s| ==> s[k] < m
    ensures |s| > 0 ==> m - 1 in s
    ensures |s| == 0 ==> m == 0
  {
    if |s| == 0 then 0
    else
      var m := MaxPlusOne(s[..|s| - 1]);
      assert s == s[..|s| - 1] + [s[|s| - 1]];
      if s[|s| - 1] < m then m else s[|s| - 1] + 1
  }

  /** The label of a row that is still a single relation. */
  lemma LeafLabels(tree: MergeTree, rowMap: seq<nat>)
    requires tree.Valid() && forall r :: 0 <= r < |rowMap| ==> rowMap[r] < tree.numLeaves
    ensures Labels(tree, rowMap) == Singles(rowMap)
  {
    forall r | 0 <= r < |rowMap| ensures tree.Label(rowMap[r]) == {rowMap[r]} {
      LabelOfLeaf(tree, rowMap[r]);
    }
  }

  lemma PairDroppedParity(before: seq<nat>, after: seq<nat>, row1: seq<nat>, row2: seq<nat>)
    requires PairDropped(before, after, row1, row2)
    ensures SameParity(before, after)
    ensures NotAbove(after, before)
  {
    forall c | 0 <= c < |before| ensures before[c] % 2 == after[c] % 2 && after[c] <= before[c] {
      assert before[c] == after[c] || before[c] == after[c] + 2;
    }
  }

  /** The two rows listed under a column of weight two are live and hold the column. */
  lemma TwoHolders(s: State, nCols: nat, c: nat)
    requires |s.rows| == |s.alive|
    requires Exact(s.index, s.rows, nCols) && c < nCols && s.index.colWeight[c] == 2
    requires forall r :: 0 <= r < |s.rows| && !s.alive[r] ==> s.rows[r] == []
    ensures |s.index.colRows[c]| == 2 && s.index.colRows[c][0] != s.index.colRows[c][1]
    ensures forall k :: 0 <= k < 2 ==> Holder(s, s.index.colRows[c][k], c)
  {
    forall k | 0 <= k < 2 ensures Holder(s, s.index.colRows[c][k], c) {
      assert s.index.colRows[c][k] in s.index.colRows[c];
    }
  }

  ghost predicate Holder(s: State, r: nat, c: nat) {
    r < |s.alive| == |s.rows| && s.alive[r] && c in s.rows[r]
  }

  /** The step is a merge of the pair: its rows are the only holders of a column, the kept one
      becomes the sum and takes over the input rows of the other. */
  ghost predicate Merges(s: State, s': State, combos: seq<set<nat>>, combos': seq<set<nat>>,
                         p: Pair)
    requires |s.rows| == |s.alive| == |combos|
  {
    && Mergeable(ColSets(s.rows), p)
    && s.alive[p.kept] && s.alive[p.gone]
    && ColSets(s'.rows) == MergeRows(ColSets(s.rows), p)
    && s'.alive == s.alive[p.gone := false]
    && combos' == combos[p.kept := Add(combos[p.gone], combos[p.kept])]
  }

  lemma HoldersMergeable(s: State, nCols: nat, c: nat, r1: nat, r2: nat)
    requires Exact(s.index, s.rows, nCols) && c < nCols
    requires s.index.colRows[c] == [r1, r2] && r1 != r2
    ensures Mergeable(ColSets(s.rows), Pair(r1, r2))
  {
    var rows := ColSets(s.rows);
    assert r1 in s.index.colRows[c] && r2 in s.index.colRows[c];
    assert Hits(rows, Below(|rows|), c) == {r1, r2};
  }

  /** Merges the two holders of a column of weight two. */
  method MergeColumn(s: State, c: nat, w2: set<nat>, ghost input: seq<set<nat>>,
                     ghost labels: seq<set<nat>>, ghost combos: seq<set<nat>>, nCols: nat)
    returns (s': State, queue: set<nat>, ghost combos': seq<set<nat>>, ghost pair: Pair)
    requires Inv(s, input, labels, combos, nCols)
    requires c < nCols && s.index.colWeight[c] == 2
    requires Queued(s.index.colWeight, w2 + {c})
    ensures Inv(s', input, labels, combos', nCols)
    ensures |s.rows| == |s.alive| == |combos| && Merges(s, s', combos, combos', pair)
    ensures c < |s.index.colRows| && s.index.colRows[c] == [pair.kept, pair.gone]
    ensures Queued(s'.index.colWeight, queue)
    ensures SameParity(s.index.colWeight, s'.index.colWeight)
    ensures NotAbove(s'.index.colWeight, s.index.colWeight)
    ensures Live(s'.alive) == Live(s.alive) - 1
  {
    hide Reduces, TreeAgrees, Live, SameParity, NotAbove, Queued;
    TwoHolders(s, nCols, c);
    var f1, f2 := FirstTwoAlive(s.index.colRows[c], s.alive);
    var r1, r2 := f1.r, f2.r;
    assert Holder(s, r1, c) && Holder(s, r2, c);
    assert InRange(s.rows[r1], nCols) && InRange(s.rows[r2], nCols);
    var newRow := XorRows(s.rows[r1], s.rows[r2]);
    s', combos' := MergePair(s, c, r1, r2, newRow, input, labels, combos, nCols);
    pair := Pair(r1, r2);
    assert s.index.colRows[c] == [r1, r2];
    HoldersMergeable(s, nCols, c, r1, r2);
    assert Cols([]) == {};
    assert ColSets(s'.rows) == MergeRows(ColSets(s.rows), pair);
    LiveDrops(s.alive, r2);
    PairDroppedParity(s.index.colWeight, s'.index.colWeight, s.rows[r1], s.rows[r2]);
    queue := Requeue(s'.index.colWeight, s.index.colWeight, s.rows[r1], s.rows[r2], newRow, w2, c);
  }

  /** The state is where a run of pair merges from the input leads. */
  ghost predicate OnRun(s: State, combos: seq<set<nat>>, input: seq<set<nat>>, pairs: seq<Pair>) {
    && Run(input, pairs)
    && ColSets(s.rows) == RunRows(input, pairs)
    && |s.alive| == |combos| == |input|
    && forall r :: 0 <= r < |input| ==> BlockOf(s.alive[r], combos[r], Blocks(|input|, pairs)[r])
  }

  /** Live rows carry their block, the others have none. */
  ghost predicate BlockOf(live: bool, combo: set<nat>, block: set<nat>) {
    if live then block == combo && block != {} else block == {}
  }

  lemma OnRunStart(s: State, input: seq<set<nat>>)
    requires ColSets(s.rows) == input && |s.alive| == |input|
    requires forall r :: 0 <= r < |input| ==> s.alive[r]
    ensures OnRun(s, Units(|input|), input, [])
  {
  }

  lemma OnRunStep(s: State, s': State, combos: seq<set<nat>>, combos': seq<set<nat>>,
                  input: seq<set<nat>>, pairs: seq<Pair>, p: Pair)
    requires OnRun(s, combos, input, pairs)
    requires |s.rows| == |s.alive| == |combos| && Merges(s, s', combos, combos', p)
    ensures OnRun(s', combos', input, pairs + [p])
  {
    var n := |input|;
    var blocks := Blocks(n, pairs);
    BlocksPartition(input, pairs);
    RunSnoc(input, pairs, p);
    assert Blocks(n, pairs + [p]) == MergeRows(blocks, p) by {
      assert (pairs + [p])[..|pairs|] == pairs;
    }
    assert blocks[p.kept] !! blocks[p.gone];
    assert BlockOf(s.alive[p.kept], combos[p.kept], blocks[p.kept]);
    assert BlockOf(s.alive[p.gone], combos[p.gone], blocks[p.gone]);
    hide Run, RunRows, Mergeable, Blocks, Partition, Rooted;
    forall r | 0 <= r < n
      ensures BlockOf(s'.alive[r], combos'[r], MergeRows(blocks, p)[r])
    {
      assert BlockOf(s.alive[r], combos[r], blocks[r]);
    }
  }

  lemma ParitySelf(w: seq<nat>)
    ensures SameParity(w, w) && NotAbove(w, w)
  {
  }

  lemma ParityStep(a: seq<nat>, b: seq<nat>, c: seq<nat>)
    requires SameParity(a, b) && NotAbove(b, a) && SameParity(b, c) && NotAbove(c, b)
    ensures SameParity(a, c) && NotAbove(c, a)
  {
  }

  /** The columns of weight two. */
  method TwoWeighted(weight: seq<nat>) returns (w2: set<nat>)
    ensures forall d :: d in w2 <==> 0 <= d < |weight| && weight[d] == 2
  {
    w2 := {};
    for c := 0 to |weight|
      invariant forall d :: d in w2 <==> 0 <= d < c && weight[d] == 2
    {
      if weight[c] == 2 {
        w2 := w2 + {c};
      }
    }
  }

  /** The merge loop: takes the smallest queued column, and merges its two rows if its weight
      is still two. */
  method MergeAll(start: State, ghost input: seq<set<nat>>, ghost labels: seq<set<nat>>,
                  nCols: nat)
    returns (s: State, merges: nat, ghost combos: seq<set<nat>>, ghost pairs: seq<Pair>)
    requires Inv(start, input, labels, Units(|input|), nCols)
    requires ColSets(start.rows) == input && |start.alive| == |input|
    requires forall r :: 0 <= r < |input| ==> start.alive[r]
    ensures Inv(s, input, labels, combos, nCols)
    ensures OnRun(s, combos, input, pairs) && |pairs| == merges
    ensures forall d :: 0 <= d < nCols ==> s.index.colWeight[d] != 2
    ensures SameParity(start.index.colWeight, s.index.colWeight)
    ensures NotAbove(s.index.colWeight, start.index.colWeight)
    ensures merges == Live(start.alive) - Live(s.alive)
    ensures merges == 0 ==> s.index == start.index
  {
    hide OnRun, Merges, Inv, SameParity, NotAbove, Live;
    s, combos, merges, pairs := start, Units(|input|), 0, [];
    OnRunStart(start, input);
    StateWidth(start, input, labels, combos, nCols);
    ParitySelf(start.index.colWeight);
    var w2 := TwoWeighted(start.index.colWeight);
    while w2 != {}
      invariant Inv(s, input, labels, combos, nCols)
      invariant |s.index.colWeight| == nCols
      invariant OnRun(s, combos, input, pairs) && |pairs| == merges
      invariant Queued(s.index.colWeight, w2)
      invariant SameParity(start.index.colWeight, s.index.colWeight)
      invariant NotAbove(s.index.colWeight, start.index.colWeight)
      invariant merges == Live(start.alive) - Live(s.alive)
      invariant merges == 0 ==> s == start
      decreases Live(s.alive), |w2|
    {
      var c := Smallest(w2);
      w2 := w2 - {c};
      if s.index.colWeight[c] != 2 {
        continue;
      }
      ghost var s0, combos0, pair := s, combos, Pair(0, 0);
      s, w2, combos, pair := MergeColumn(s, c, w2, input, labels, combos, nCols);
      OnRunStep(s0, s, combos0, combos, input, pairs, pair);
      StateWidth(s, input, labels, combos, nCols);
      ParityStep(start.index.colWeight, s0.index.colWeight, s.index.colWeight);
      pairs := pairs + [pair];
      merges := merges + 1;
    }
    forall d | 0 <= d < nCols ensures s.index.colWeight[d] != 2 {
      assert d !in w2;
    }
  }

  ghost predicate NotAbove(low: seq<nat>, high: seq<nat>) {
    |low| == |high| && forall c :: 0 <= c < |low| ==> low[c] <= high[c]
  }

  /** What merging does to column weights: a surviving column keeps its parity, never gets
      heavier, and has neither weight zero nor weight two; a column that disappears had even
      weight. */
  ghost predicate WeightsMerged(input: seq<set<nat>>, nCols: nat, output: seq<set<nat>>,
                                colMap: seq<nat>)
  {
    && (forall d :: 0 <= d < |colMap| ==>
          colMap[d] < nCols && ColumnMerged(Weight(input, colMap[d]), Weight(output, d)))
    && forall c: nat :: c < nCols && c !in colMap ==> Weight(input, c) % 2 == 0
  }

  ghost predicate ColumnMerged(before: nat, after: nat) {
    after % 2 == before % 2 && after <= before && after != 0 && after != 2
  }

  lemma MergedWeights(input: seq<set<nat>>, output: seq<set<nat>>, colMap: seq<nat>,
                      before: seq<nat>, after: seq<nat>)
    requires SameParity(before, after) && NotAbove(after, before)
    requires forall c :: 0 <= c < |before| ==> before[c] == Weight(input, c)
    requires forall c :: 0 <= c < |after| ==> after[c] != 2
    requires forall c: nat :: c in colMap <==> c < |after| && after[c] > 0
    requires forall d :: 0 <= d < |colMap| ==>
               colMap[d] < |after| && Weight(output, d) == after[colMap[d]]
    ensures WeightsMerged(input, |before|, output, colMap)
    ensures forall d :: 0 <= d < |colMap| && Weight(input, colMap[d]) % 2 == 0 ==>
              Weight(output, d) >= 4
  {
    hide Weight;
    forall d | 0 <= d < |colMap|
      ensures colMap[d] < |before| && ColumnMerged(Weight(input, colMap[d]), Weight(output, d))
    {
      assert colMap[d] in colMap;
    }
  }

  /** The indexed weights of a state on a run are those of the run. */
  lemma RunWeights(s: State, combos: seq<set<nat>>, input: seq<set<nat>>, pairs: seq<Pair>,
                   nCols: nat, c: nat)
    requires Exact(s.index, s.rows, nCols) && RowsOk(s.rows, nCols)
    requires OnRun(s, combos, input, pairs)
    ensures Weight(RunRows(input, pairs), c) == if c < nCols then s.index.colWeight[c] else 0
  {
    if c < nCols {
      StoredWeight(s.index, s.rows, nCols, c);
    } else {
      hide RunRows, Run;
      var rows := ColSets(s.rows);
      forall r: nat | r < |rows| ensures c !in rows[r] {
        assert InRange(s.rows[r], nCols);
      }
      assert Hits(rows, Below(|rows|), c) == {};
    }
  }

  /** What the run says about the compacted matrix. */
  lemma RunOutcome(input: seq<set<nat>>, pairs: seq<Pair>, after: seq<nat>,
                   output: seq<set<nat>>, colMap: seq<nat>)
    requires Run(input, pairs)
    requires forall c: nat :: Weight(RunRows(input, pairs), c)
                              == if c < |after| then after[c] else 0
    requires forall c :: 0 <= c < |after| ==> after[c] != 2
    requires forall c: nat :: c in colMap <==> c < |after| && after[c] > 0
    requires forall d :: 0 <= d < |colMap| ==>
               colMap[d] < |after| && Weight(output, d) == after[colMap[d]]
    ensures Finished(RunRows(input, pairs))
    ensures forall d :: 0 <= d < |colMap| ==>
              Weight(output, d) == Weight(RunRows(input, pairs), colMap[d])
    ensures (forall d :: 0 <= d < |colMap| ==> Weight(output, d) >= 3)
            <==> !HasOne(input) && !SharedOnTheWay(input, pairs)
  {
    hide Weight, Run, RunRows, SharedOnTheWay;
    WeightOneIff(input, pairs);
    var final := RunRows(input, pairs);
    if c: nat :| Weight(final, c) == 1 {
      assert c in colMap;
      var d :| 0 <= d < |colMap| && colMap[d] == c;
      assert Weight(output, d) == 1;
    } else {
      forall d | 0 <= d < |colMap| ensures Weight(output, d) >= 3 {
        assert colMap[d] in colMap;
        assert Weight(final, colMap[d]) != 1;
      }
    }
  }

  /** The output rows are the blocks of the run. */
  lemma RunBlocks(s: State, combos: seq<set<nat>>, input: seq<set<nat>>, pairs: seq<Pair>,
                  origin: seq<nat>, b: set<nat>)
    requires OnRun(s, combos, input, pairs) && Enumerates(origin, Alive(s.alive))
    requires forall j :: 0 <= j < |origin| ==> origin[j] < |combos|
    ensures b in Pick(combos, origin) <==> b != {} && b in Blocks(|input|, pairs)
  {
    hide Run, RunRows, Blocks;
    var blocks := Blocks(|input|, pairs);
    if b in Pick(combos, origin) {
      var j :| 0 <= j < |origin| && combos[origin[j]] == b;
      assert origin[j] in Cols(origin);
      assert BlockOf(s.alive[origin[j]], combos[origin[j]], blocks[origin[j]]);
    }
    if b != {} && b in blocks {
      var r :| 0 <= r < |blocks| && blocks[r] == b;
      assert BlockOf(s.alive[r], combos[r], blocks[r]);
      assert r in Cols(origin);
      var j :| 0 <= j < |origin| && origin[j] == r;
      assert Pick(combos, origin)[j] == b;
    }
  }

  /** The output is what an exhaustive run of pair merges makes of the input. */
  ghost predicate Outcome(input: Csr, output: Csr, colMap: seq<nat>, combos: seq<set<nat>>,
                          pairs: seq<Pair>)
    requires input.Shaped() && output.Shaped()
  {
    && Run(input.Vectors(), pairs) && Finished(RunRows(input.Vectors(), pairs))
    && (forall b: set<nat> :: b in combos <==> b != {} && b in Blocks(input.nRows, pairs))
    && |colMap| == output.nCols
    && ReducedFrom(input.Vectors(), output.Vectors(), colMap, combos)
    && forall d :: 0 <= d < |colMap| ==>
         Weight(output.Vectors(), d) == Weight(RunRows(input.Vectors(), pairs), colMap[d])
  }

  /** Merges columns of weight two until none is left. */
  method MergeWeight2(input: Csr, inputRowMap: seq<nat>)
    returns (result: MergeResult, ghost colMap: seq<nat>, ghost combos: seq<set<nat>>,
             ghost pairs: seq<Pair>)
    requires input.Valid() && |inputRowMap| == input.nRows
    ensures result.Valid()
    ensures ReducedFrom(input.Vectors(), result.reduced.Vectors(), colMap, combos)
    ensures Outcome(input, result.reduced, colMap, combos, pairs)
    ensures |colMap| == result.reduced.nCols
    ensures forall d :: 0 <= d < |colMap| ==> colMap[d] < input.nCols
    ensures result.RowLabels() == ComposeCombos(Singles(inputRowMap), combos)
    ensures result.mergesPerformed == result.rowsRemoved == input.nRows - result.reduced.nRows
    ensures result.rowsRemoved == 0 ==>
              forall c: nat :: c < input.nCols ==> Weight(input.Vectors(), c) != 2
    ensures WeightsMerged(input.Vectors(), input.nCols, result.reduced.Vectors(), colMap)
    // an input column of even weight disappears or ends with weight four or more
    ensures forall d :: 0 <= d < |colMap| && Weight(input.Vectors(), colMap[d]) % 2 == 0 ==>
              Weight(result.reduced.Vectors(), d) >= 4
    // the merges, and the exact condition for all columns to end with weight three or more
    ensures |pairs| == result.mergesPerformed
    ensures (forall d :: 0 <= d < |colMap| ==> Weight(result.reduced.Vectors(), d) >= 3)
            <==> !HasOne(input.Vectors()) && !SharedOnTheWay(input.Vectors(), pairs)
  {
    hide Reduces, TreeAgrees, ReducedFrom, Increasing, Weight, WeightsMerged;
    hide OnRun, Run, RunRows, Blocks, HasOne, SharedOnTheWay, Finished, Exact, RowsOk;
    var nCols := input.nCols;
    var numLeaves := MaxPlusOne(inputRowMap);
    var tree := MergeTree(numLeaves, []);
    var s := Start(input, inputRowMap, tree);
    LeafLabels(tree, inputRowMap);
    ghost var vectors, labels := input.Vectors(), Singles(inputRowMap);
    ghost var weight0 := s.index.colWeight;
    assert |weight0| == nCols by {
      StateWidth(s, vectors, labels, Units(input.nRows), nCols);
    }
    var merges;
    s, merges, combos, pairs := MergeAll(s, vectors, labels, nCols);
    forall c: nat
      ensures Weight(RunRows(vectors, pairs), c)
              == if c < nCols then s.index.colWeight[c] else 0
    {
      RunWeights(s, combos, vectors, pairs, nCols, c);
    }
    StateWidth(s, vectors, labels, combos, nCols);

    var reduced, rowMap;
    ghost var rowCombos, origin;
    reduced, rowMap, colMap, rowCombos, origin := Finish(s, vectors, labels, combos, nCols);
    assert Run(vectors, pairs) by {
      OnRunFacts(s, combos, vectors, pairs);
    }
    forall b: set<nat> ensures b in rowCombos <==> b != {} && b in Blocks(input.nRows, pairs) {
      RunBlocks(s, combos, vectors, pairs, origin, b);
    }
    RunOutcome(vectors, pairs, s.index.colWeight, reduced.Vectors(), colMap);
    combos := rowCombos;
    result := MergeResult(reduced, rowMap, s.tree, merges, merges);
    MergedWeights(vectors, reduced.Vectors(), colMap, weight0, s.index.colWeight);
  }

  lemma OnRunFacts(s: State, combos: seq<set<nat>>, input: seq<set<nat>>, pairs: seq<Pair>)
    requires OnRun(s, combos, input, pairs)
    ensures Run(input, pairs)
  {
  }

  lemma StateWidth(s: State, input: seq<set<nat>>, labels: seq<set<nat>>,
                   combos: seq<set<nat>>, nCols: nat)
    requires Inv(s, input, labels, combos, nCols)
    ensures |s.index.colWeight| == nCols
    ensures s.tree.Valid()
  {
  }

  // ---------------------------------------------------------------------------
  // Columns of weight one
  // ---------------------------------------------------------------------------

  /** Two equal rows and a third one sharing a column: no column has weight one, and still the
      merge leaves the shared column with weight one. */
  method SharedColumn() returns (input: Csr, result: MergeResult)
    ensures input.Valid() && result.Valid()
    ensures forall c: nat :: c < input.nCols ==> Weight(input.Vectors(), c) >= 2
    ensures exists d :: 0 <= d < result.reduced.nCols
                        && Weight(result.reduced.Vectors(), d) == 1
  {
    input := Csr([0, 2, 4, 5], [0, 1, 0, 1, 1], 3, 2);
    SharedColumnInput(input);
    ghost var colMap, combos, pairs;
    result, colMap, combos, pairs := MergeWeight2(input, [0, 1, 2]);
    assert Weight(input.Vectors(), 1) == 3;
    assert 1 in colMap;
    ghost var d :| 0 <= d < |colMap| && colMap[d] == 1;
    assert Weight(result.reduced.Vectors(), d) % 2 == Weight(input.Vectors(), colMap[d]) % 2;
    SharedColumnResult(input.Vectors(), result.reduced.Vectors(), colMap, d);
  }

  lemma FewRows(rows: seq<set<nat>>, c: nat, n: nat)
    requires |rows| == n
    ensures Weight(rows, c) <= n
  {
    SubCard(Hits(rows, Below(n), c), n);
  }

  lemma {:induction false} SubCard(s: set<nat>, n: nat)
    requires s <= Below(n)
    ensures |s| <= n
  {
    if n > 0 {
      SubCard(s - {n - 1}, n - 1);
      assert s <= (s - {n - 1}) + {n - 1};
      if n - 1 in s {
        assert s == (s - {n - 1}) + {n - 1};
      } else {
        assert s == s - {n - 1};
      }
    } else {
      assert s == {};
    }
  }

  lemma SharedColumnWeights(rows: seq<set<nat>>)
    requires |rows| == 3 && rows[0] == {0, 1} && rows[1] == {0, 1} && rows[2] == {1}
    ensures Weight(rows, 0) == 2 && Weight(rows, 1) == 3
  {
    assert Hits(rows, Below(3), 0) == {0, 1};
    assert Hits(rows, Below(3), 1) == {0, 1, 2};
  }

  lemma SharedColumnShape(m: Csr)
    requires m == Csr([0, 2, 4, 5], [0, 1, 0, 1, 1], 3, 2)
    ensures m.Shaped()
    ensures m.Row(0) == [0, 1] && m.Row(1) == [0, 1] && m.Row(2) == [1]
  {
  }

  lemma SharedColumnInput(m: Csr)
    requires m == Csr([0, 2, 4, 5], [0, 1, 0, 1, 1], 3, 2)
    ensures m.Valid()
    ensures Weight(m.Vectors(), 0) == 2 && Weight(m.Vectors(), 1) == 3
    ensures forall c: nat :: c < m.nCols ==> Weight(m.Vectors(), c) >= 2
  {
    SharedColumnShape(m);
    forall r | 0 <= r < 3 ensures Increasing(m.Row(r)) && Cols(m.Row(r)) <= Below(m.nCols) {
      assert r == 0 || r == 1 || r == 2;
    }
    var v := m.Vectors();
    assert v[0] == Cols(m.Row(0)) == {0, 1};
    assert v[1] == Cols(m.Row(1)) == {0, 1};
    assert v[2] == Cols(m.Row(2)) == {1};
    SharedColumnWeights(v);
    forall c: nat | c < m.nCols ensures Weight(v, c) >= 2 {
      assert c == 0 || c == 1;
    }
  }

  lemma SharedColumnResult(input: seq<set<nat>>, output: seq<set<nat>>, colMap: seq<nat>, d: nat)
    requires |output| <= 2 && d < |colMap| && colMap[d] == 1
    requires Weight(input, 1) == 3
    requires Weight(output, d) % 2 == Weight(input, colMap[d]) % 2
    ensures Weight(output, d) == 1
  {
    FewRows(output, d, |output|);
  }
}
