/** Merging pairs of rows that share a column of weight two, in any order.

    Rows are GF(2) vectors; the blocks of a run name the input rows each current row is the
    sum of. */
module PairMerges {
  import opened Gf2
  import opened Reduction
  import opened CsrMatrix

  datatype Pair = Pair(kept: nat, gone: nat)

  /** The kept row becomes the sum of both rows, the other one is emptied. */
  ghost function MergeRows(rows: seq<set<nat>>, p: Pair): (r: seq<set<nat>>)
    ensures |r| == |rows|
  {
    if p.kept < |rows| && p.gone < |rows| then
      rows[p.kept := Add(rows[p.kept], rows[p.gone])][p.gone := {}]
    else rows
  }

  ghost function RunRows(rows: seq<set<nat>>, pairs: seq<Pair>): (r: seq<set<nat>>)
    ensures |r| == |rows|
  {
    if |pairs| == 0 then rows
    else MergeRows(RunRows(rows, pairs[..|pairs| - 1]), pairs[|pairs| - 1])
  }

  /** The two rows are the only holders of some column. */
  ghost predicate Mergeable(rows: seq<set<nat>>, p: Pair) {
    && p.kept < |rows| && p.gone < |rows| && p.kept != p.gone
    && exists c: nat :: Hits(rows, Below(|rows|), c) == {p.kept, p.gone}
  }

  ghost predicate Run(rows: seq<set<nat>>, pairs: seq<Pair>) {
    forall k :: 0 <= k < |pairs| ==> Mergeable(RunRows(rows, pairs[..k]), pairs[k])
  }

  /** No column of weight two is left. */
  ghost predicate Finished(rows: seq<set<nat>>) {
    forall c: nat :: Weight(rows, c) != 2
  }

  lemma RunLast(rows: seq<set<nat>>, pairs: seq<Pair>)
    requires Run(rows, pairs) && |pairs| > 0
    ensures var m := |pairs| - 1;
            Run(rows, pairs[..m]) && Mergeable(RunRows(rows, pairs[..m]), pairs[m])
  {
    hide Mergeable, RunRows;
    var m := |pairs| - 1;
    forall k | 0 <= k < m ensures pairs[..m][..k] == pairs[..k] {
    }
  }

  lemma RunSnoc(rows: seq<set<nat>>, pairs: seq<Pair>, p: Pair)
    requires Run(rows, pairs) && Mergeable(RunRows(rows, pairs), p)
    ensures Run(rows, pairs + [p])
    ensures RunRows(rows, pairs + [p]) == MergeRows(RunRows(rows, pairs), p)
  {
    hide Mergeable, MergeRows;
    var pairs' := pairs + [p];
    forall k | 0 <= k < |pairs'| ensures Mergeable(RunRows(rows, pairs'[..k]), pairs'[k]) {
      assert pairs'[..k] == if k < |pairs| then pairs[..k] else pairs;
    }
    assert pairs'[..|pairs|] == pairs;
  }

  // ---------------------------------------------------------------------------
  // Columns of weight one
  // ---------------------------------------------------------------------------

  ghost predicate HasOne(rows: seq<set<nat>>) {
    exists c: nat :: Weight(rows, c) == 1
  }

  /** Besides their column of weight two the rows share one of weight three. */
  ghost predicate SharesThree(rows: seq<set<nat>>, p: Pair) {
    && p.kept < |rows| && p.gone < |rows|
    && exists d: nat :: Weight(rows, d) == 3 && d in rows[p.kept] && d in rows[p.gone]
  }

  ghost predicate SharedOnTheWay(rows: seq<set<nat>>, pairs: seq<Pair>) {
    exists k :: 0 <= k < |pairs| && SharesThree(RunRows(rows, pairs[..k]), pairs[k])
  }

  lemma TwoLess(s: set<nat>, a: nat, b: nat)
    requires a in s && b in s && a != b
    ensures |s| == |s - {a, b}| + 2
  {
    assert s == (s - {a, b}) + {a, b};
  }

  lemma OneSwapped(s: set<nat>, a: nat, b: nat)
    requires a !in s && b in s
    ensures |s| == |s - {b} + {a}|
  {
    assert s == (s - {b}) + {b};
  }

  /** Holders before and after: only the two merged rows change. */
  lemma MergedCount(h: set<nat>, h': set<nat>, kept: nat, gone: nat)
    requires kept != gone && gone !in h'
    requires kept in h' <==> ((kept in h) != (gone in h))
    requires forall r :: r != kept && r != gone ==> (r in h <==> r in h')
    ensures |h| == |h'| + if kept in h && gone in h then 2 else 0
  {
    var rest := h - {kept, gone};
    if gone !in h {
      assert h == h';
    } else if kept in h {
      TwoLess(h, kept, gone);
      assert h' == rest;
    } else {
      OneSwapped(h, kept, gone);
      assert h' == h - {gone} + {kept};
    }
  }

  /** A merge takes two holders from every column both rows hold and none from the others. */
  lemma MergedWeight(rows: seq<set<nat>>, p: Pair, c: nat)
    requires p.kept < |rows| && p.gone < |rows| && p.kept != p.gone
    ensures Weight(rows, c) == Weight(MergeRows(rows, p), c)
              + if c in rows[p.kept] && c in rows[p.gone] then 2 else 0
  {
    var all := Below(|rows|);
    MergedCount(Hits(rows, all, c), Hits(MergeRows(rows, p), all, c), p.kept, p.gone);
  }

  lemma OneAfterMerge(rows: seq<set<nat>>, p: Pair)
    requires p.kept < |rows| && p.gone < |rows| && p.kept != p.gone
    ensures HasOne(MergeRows(rows, p)) <==> HasOne(rows) || SharesThree(rows, p)
  {
    hide Weight, MergeRows;
    forall c: nat
      ensures Weight(rows, c) == Weight(MergeRows(rows, p), c)
                + if c in rows[p.kept] && c in rows[p.gone] then 2 else 0
    {
      MergedWeight(rows, p, c);
    }
    if HasOne(rows) {
      var c: nat :| Weight(rows, c) == 1;
      assert Weight(MergeRows(rows, p), c) == 1;
    } else if SharesThree(rows, p) {
      var d: nat :| Weight(rows, d) == 3 && d in rows[p.kept] && d in rows[p.gone];
      assert Weight(MergeRows(rows, p), d) == 1;
    }
    if HasOne(MergeRows(rows, p)) {
      var c: nat :| Weight(MergeRows(rows, p), c) == 1;
      assert Weight(rows, c) == 1 || Weight(rows, c) == 3;
    }
  }

  /** A column of weight one is left at the end of a run exactly when there was one at the start
      or some merged pair shared a column of weight three. */
  lemma {:induction false} WeightOneIff(rows: seq<set<nat>>, pairs: seq<Pair>)
    requires Run(rows, pairs)
    ensures HasOne(RunRows(rows, pairs)) <==> HasOne(rows) || SharedOnTheWay(rows, pairs)
  {
    hide HasOne, SharesThree, MergeRows;
    if |pairs| > 0 {
      var m := |pairs| - 1;
      RunLast(rows, pairs);
      WeightOneIff(rows, pairs[..m]);
      OneAfterMerge(RunRows(rows, pairs[..m]), pairs[m]);
      forall k | 0 <= k < m ensures pairs[..m][..k] == pairs[..k] {
      }
      if SharedOnTheWay(rows, pairs[..m]) {
        var k :| 0 <= k < m && SharesThree(RunRows(rows, pairs[..m][..k]), pairs[..m][k]);
        assert SharesThree(RunRows(rows, pairs[..k]), pairs[k]);
      }
      if SharedOnTheWay(rows, pairs) {
        var k :| 0 <= k < |pairs| && SharesThree(RunRows(rows, pairs[..k]), pairs[k]);
        assert k < m ==> SharesThree(RunRows(rows, pairs[..m][..k]), pairs[..m][k]);
      }
    }
  }

  // ---------------------------------------------------------------------------
  // Blocks
  // ---------------------------------------------------------------------------

  /** The input rows each current row is the sum of. */
  ghost function Blocks(n: nat, pairs: seq<Pair>): (b: seq<set<nat>>)
    ensures |b| == n
  {
    RunRows(Units(n), pairs)
  }

  ghost function Sums(rows: seq<set<nat>>, blocks: seq<set<nat>>): (s: seq<set<nat>>)
    ensures |s| == |blocks|
    ensures forall r :: 0 <= r < |blocks| ==> s[r] == Comb(rows, blocks[r])
  {
    seq(|blocks|, r requires 0 <= r < |blocks| => Comb(rows, blocks[r]))
  }

  lemma {:induction false} RowsAreSums(rows: seq<set<nat>>, pairs: seq<Pair>)
    ensures RunRows(rows, pairs) == Sums(rows, Blocks(|rows|, pairs))
  {
    hide Comb;
    var n := |rows|;
    if |pairs| == 0 {
      forall r | 0 <= r < n ensures Comb(rows, {r}) == rows[r] {
        CombSingleton(rows, r);
      }
    } else {
      var m := |pairs| - 1;
      var p, b := pairs[m], Blocks(n, pairs[..m]);
      RowsAreSums(rows, pairs[..m]);
      CombEmpty(rows);
      if p.kept < n && p.gone < n {
        CombAdd(rows, b[p.kept], b[p.gone]);
      }
      assert RunRows(rows, pairs) == MergeRows(Sums(rows, b), p);
      assert MergeRows(Sums(rows, b), p) == Sums(rows, MergeRows(b, p));
    }
  }

  ghost predicate Disjoint(blocks: seq<set<nat>>) {
    forall r, q :: 0 <= r < q < |blocks| ==> blocks[r] !! blocks[q]
  }

  ghost predicate InSome(blocks: seq<set<nat>>, i: nat) {
    exists r :: 0 <= r < |blocks| && i in blocks[r]
  }

  ghost predicate Covers(blocks: seq<set<nat>>, n: nat) {
    forall i: nat :: InSome(blocks, i) <==> i < n
  }

  ghost predicate Partition(blocks: seq<set<nat>>, n: nat) {
    Disjoint(blocks) && Covers(blocks, n)
  }

  /** A block that is not empty belongs to one of its own rows. */
  ghost predicate Rooted(blocks: seq<set<nat>>) {
    forall r :: 0 <= r < |blocks| && blocks[r] != {} ==> r in blocks[r]
  }

  lemma MergePartition(blocks: seq<set<nat>>, n: nat, p: Pair)
    requires Partition(blocks, n) && Rooted(blocks)
    requires p.kept < |blocks| && p.gone < |blocks| && p.kept != p.gone
    requires blocks[p.kept] != {}
    ensures Partition(MergeRows(blocks, p), n) && Rooted(MergeRows(blocks, p))
  {
    var b := MergeRows(blocks, p);
    assert blocks[p.kept] !! blocks[p.gone];
    assert b[p.kept] == blocks[p.kept] + blocks[p.gone];
    forall i: nat ensures InSome(b, i) <==> InSome(blocks, i) {
      if r :| 0 <= r < |blocks| && i in blocks[r] {
        assert i in b[if r == p.gone then p.kept else r];
      }
      if r :| 0 <= r < |b| && i in b[r] {
        assert i in blocks[r] || i in blocks[p.gone];
      }
    }
  }

  lemma UnitsPartition(n: nat)
    ensures Partition(Units(n), n) && Rooted(Units(n))
  {
    forall i: nat ensures InSome(Units(n), i) <==> i < n {
      assert i < n ==> i in Units(n)[i];
    }
  }

  lemma {:induction false} BlocksPartition(rows: seq<set<nat>>, pairs: seq<Pair>)
    requires Run(rows, pairs)
    ensures Partition(Blocks(|rows|, pairs), |rows|) && Rooted(Blocks(|rows|, pairs))
  {
    hide Partition, Rooted, Comb, Run;
    var n := |rows|;
    if |pairs| == 0 {
      UnitsPartition(n);
    } else {
      var m := |pairs| - 1;
      RunLast(rows, pairs);
      BlocksPartition(rows, pairs[..m]);
      HolderBlock(rows, pairs[..m], pairs[m]);
      hide Mergeable, MergeRows;
      MergePartition(Blocks(n, pairs[..m]), n, pairs[m]);
    }
  }

  lemma HolderBlock(rows: seq<set<nat>>, pairs: seq<Pair>, p: Pair)
    requires Mergeable(RunRows(rows, pairs), p)
    ensures Blocks(|rows|, pairs)[p.kept] != {} && Blocks(|rows|, pairs)[p.gone] != {}
  {
    hide Comb, RunRows, Blocks;
    var now := RunRows(rows, pairs);
    var c: nat :| Hits(now, Below(|now|), c) == {p.kept, p.gone};
    assert p.kept in Hits(now, Below(|now|), c) && p.gone in Hits(now, Below(|now|), c);
    RowsAreSums(rows, pairs);
    CombEmpty(rows);
  }

  // ---------------------------------------------------------------------------
  // The order is irrelevant
  // ---------------------------------------------------------------------------

  ghost predicate Refines(fine: seq<set<nat>>, coarse: seq<set<nat>>) {
    forall r :: 0 <= r < |fine| ==> WithinSome(fine[r], coarse)
  }

  ghost predicate WithinSome(s: set<nat>, coarse: seq<set<nat>>) {
    exists j :: 0 <= j < |coarse| && s <= coarse[j]
  }

  /** The fine blocks inside one coarse block. */
  ghost function Inside(fine: seq<set<nat>>, block: set<nat>): set<nat> {
    set r | r in Below(|fine|) && fine[r] != {} && fine[r] <= block
  }

  lemma CoarseBlock(fine: seq<set<nat>>, coarse: seq<set<nat>>, n: nat, j: nat)
    requires Partition(fine, n) && Partition(coarse, n) && Refines(fine, coarse)
    requires j < |coarse|
    ensures Comb(fine, Inside(fine, coarse[j])) == coarse[j]
  {
    hide Comb, Inside, Partition, Refines;
    var y := Inside(fine, coarse[j]);
    forall i: nat ensures i in Comb(fine, y) <==> i in coarse[j] {
      InComb(fine, y, i);
      if i in coarse[j] {
        var r := FineBlock(fine, coarse, n, j, i);
      } else {
        NoFineBlock(fine, coarse[j], i);
      }
    }
  }

  lemma FineBlock(fine: seq<set<nat>>, coarse: seq<set<nat>>, n: nat, j: nat, i: nat)
    returns (r: nat)
    requires Partition(fine, n) && Partition(coarse, n) && Refines(fine, coarse)
    requires j < |coarse| && i in coarse[j]
    ensures Hits(fine, Inside(fine, coarse[j]), i) == {r}
  {
    assert InSome(coarse, i) && InSome(fine, i);
    r :| 0 <= r < |fine| && i in fine[r];
    assert WithinSome(fine[r], coarse);
    var k :| 0 <= k < |coarse| && fine[r] <= coarse[k];
    assert i in coarse[k];
    assert k == j;
    assert r in Inside(fine, coarse[j]);
    assert forall q :: 0 <= q < |fine| && q != r ==> i !in fine[q];
  }

  lemma NoFineBlock(fine: seq<set<nat>>, block: set<nat>, i: nat)
    requires i !in block
    ensures Hits(fine, Inside(fine, block), i) == {}
  {
  }

  /** The parity of a coarse sum is that of the number of fine sums in it that hold `c`. */
  lemma CoarseSum(rows: seq<set<nat>>, fine: seq<set<nat>>, coarse: seq<set<nat>>, j: nat, c: nat)
    requires Partition(fine, |rows|) && Partition(coarse, |rows|) && Refines(fine, coarse)
    requires j < |coarse|
    ensures c in Comb(rows, coarse[j])
            <==> Odd(Hits(Sums(rows, fine), Inside(fine, coarse[j]), c))
  {
    hide Comb, Partition, Refines, Odd;
    var y := Inside(fine, coarse[j]);
    CoarseBlock(fine, coarse, |rows|, j);
    CombComb(rows, Sums(rows, fine), fine, y);
    InComb(Sums(rows, fine), y, c);
  }

  /** Two blocks that alone hold a column and lie in different coarse blocks make these the
      only holders among the coarse sums. */
  lemma DifferentCoarseBlocks(rows: seq<set<nat>>, fine: seq<set<nat>>, coarse: seq<set<nat>>,
                              p: Pair, ja: nat, jb: nat)
    requires Partition(fine, |rows|) && Partition(coarse, |rows|) && Refines(fine, coarse)
    requires Mergeable(Sums(rows, fine), p)
    requires ja < |coarse| && jb < |coarse| && ja != jb
    requires fine[p.kept] <= coarse[ja] && fine[p.gone] <= coarse[jb]
    requires fine[p.kept] != {} && fine[p.gone] != {}
    ensures !Finished(Sums(rows, coarse))
  {
    hide Comb, Covers, Refines, Finished, Disjoint, Inside, Odd;
    var sums, csums := Sums(rows, fine), Sums(rows, coarse);
    var c: nat :| Hits(sums, Below(|sums|), c) == {p.kept, p.gone};
    forall j | 0 <= j < |coarse| ensures c in csums[j] <==> j == ja || j == jb {
      CoarseSum(rows, fine, coarse, j, c);
      HitsInside(sums, fine, coarse, p, ja, jb, j, c);
    }
    TwoHoldersOnly(csums, ja, jb, c);
  }

  lemma TwoHoldersOnly(rows: seq<set<nat>>, a: nat, b: nat, c: nat)
    requires a < |rows| && b < |rows| && a != b
    requires forall r :: 0 <= r < |rows| ==> (c in rows[r] <==> r == a || r == b)
    ensures !Finished(rows)
  {
    assert Hits(rows, Below(|rows|), c) == {a, b};
    TwoLess({a, b}, a, b);
    assert {a, b} - {a, b} == {};
    assert Weight(rows, c) == 2;
  }

  lemma HitsInside(sums: seq<set<nat>>, fine: seq<set<nat>>, coarse: seq<set<nat>>, p: Pair,
                   ja: nat, jb: nat, j: nat, c: nat)
    requires |sums| == |fine| && Disjoint(coarse)
    requires p.kept < |fine| && p.gone < |fine| && p.kept != p.gone
    requires ja < |coarse| && jb < |coarse| && ja != jb && j < |coarse|
    requires fine[p.kept] <= coarse[ja] && fine[p.gone] <= coarse[jb]
    requires fine[p.kept] != {} && fine[p.gone] != {}
    requires Hits(sums, Below(|sums|), c) == {p.kept, p.gone}
    ensures Odd(Hits(sums, Inside(fine, coarse[j]), c)) <==> j == ja || j == jb
  {
    var e :| e in fine[p.kept];
    var f :| f in fine[p.gone];
    assert e in coarse[ja] && f in coarse[jb];
    var h := Hits(sums, Inside(fine, coarse[j]), c);
    assert h <= Hits(sums, Below(|sums|), c);
    assert p.kept in Hits(sums, Below(|sums|), c) && p.gone in Hits(sums, Below(|sums|), c);
    if j == ja {
      assert h == {p.kept};
    } else if j == jb {
      assert h == {p.gone};
    } else {
      assert h == {};
    }
  }

  lemma MergeRefines(rows: seq<set<nat>>, fine: seq<set<nat>>, coarse: seq<set<nat>>, p: Pair)
    requires Partition(fine, |rows|) && Partition(coarse, |rows|) && Refines(fine, coarse)
    requires Finished(Sums(rows, coarse)) && Mergeable(Sums(rows, fine), p)
    requires fine[p.kept] != {} && fine[p.gone] != {}
    ensures Refines(MergeRows(fine, p), coarse)
  {
    hide Partition, Finished;
    assert p.kept < |fine| && p.gone < |fine|;
    hide Mergeable, Sums;
    assert WithinSome(fine[p.kept], coarse) && WithinSome(fine[p.gone], coarse);
    var ja :| 0 <= ja < |coarse| && fine[p.kept] <= coarse[ja];
    var jb :| 0 <= jb < |coarse| && fine[p.gone] <= coarse[jb];
    if ja != jb {
      DifferentCoarseBlocks(rows, fine, coarse, p, ja, jb);
      assert false;
    }
    var b := MergeRows(fine, p);
    forall r | 0 <= r < |b| ensures WithinSome(b[r], coarse) {
      if r == p.kept || r == p.gone {
        assert b[r] <= coarse[ja];
      } else {
        assert b[r] == fine[r] && WithinSome(fine[r], coarse);
      }
    }
  }

  lemma UnitsRefine(coarse: seq<set<nat>>, n: nat)
    requires Partition(coarse, n)
    ensures Refines(Units(n), coarse)
  {
    forall r | 0 <= r < n ensures WithinSome(Units(n)[r], coarse) {
      assert InSome(coarse, r);
      var j :| 0 <= j < |coarse| && r in coarse[j];
      assert Units(n)[r] <= coarse[j];
    }
  }

  /** No run leaves any partition that is closed under merging. */
  lemma {:induction false} RunRefines(rows: seq<set<nat>>, pairs: seq<Pair>,
                                      coarse: seq<set<nat>>)
    requires Run(rows, pairs) && Partition(coarse, |rows|) && Finished(Sums(rows, coarse))
    ensures Refines(Blocks(|rows|, pairs), coarse)
  {
    hide Partition, Finished, Refines, Run, Sums, MergeRows;
    var n := |rows|;
    if |pairs| == 0 {
      UnitsRefine(coarse, n);
    } else {
      var m := |pairs| - 1;
      RunLast(rows, pairs);
      RunRefines(rows, pairs[..m], coarse);
      BlocksPartition(rows, pairs[..m]);
      HolderBlock(rows, pairs[..m], pairs[m]);
      RowsAreSums(rows, pairs[..m]);
      MergeRefines(rows, Blocks(n, pairs[..m]), coarse, pairs[m]);
    }
  }

  lemma SameBlocks(a: seq<set<nat>>, b: seq<set<nat>>, s: set<nat>)
    requires Disjoint(a) && Refines(a, b) && Refines(b, a) && s in a && s != {}
    ensures s in b
  {
    var r :| 0 <= r < |a| && a[r] == s;
    assert WithinSome(a[r], b);
    var j :| 0 <= j < |b| && s <= b[j];
    assert WithinSome(b[j], a);
    hide Refines;
    var k :| 0 <= k < |a| && b[j] <= a[k];
    assert k == r by {
      var e :| e in s;
      assert e in a[r] && e in a[k];
    }
    hide Disjoint;
    assert b[j] == s;
  }

  /** All exhaustive runs end with the same blocks, whatever order the columns are taken in. */
  lemma OrderIsIrrelevant(rows: seq<set<nat>>, p: seq<Pair>, q: seq<Pair>, s: set<nat>)
    requires Run(rows, p) && Finished(RunRows(rows, p))
    requires Run(rows, q) && Finished(RunRows(rows, q))
    requires s != {}
    ensures s in Blocks(|rows|, p) <==> s in Blocks(|rows|, q)
  {
    hide Run, Finished, RunRows, Disjoint, Covers, Refines, Blocks;
    var n := |rows|;
    BlocksPartition(rows, p);
    BlocksPartition(rows, q);
    RowsAreSums(rows, p);
    RowsAreSums(rows, q);
    RunRefines(rows, p, Blocks(n, q));
    RunRefines(rows, q, Blocks(n, p));
    if s in Blocks(n, p) {
      SameBlocks(Blocks(n, p), Blocks(n, q), s);
    }
    if s in Blocks(n, q) {
      SameBlocks(Blocks(n, q), Blocks(n, p), s);
    }
  }

  // ---------------------------------------------------------------------------
  // Column weights at the end
  // ---------------------------------------------------------------------------

  /** The blocks whose rows add up to a vector that holds `c`. */
  ghost function OddBlocks(rows: seq<set<nat>>, blocks: seq<set<nat>>, c: nat): set<set<nat>> {
    set s | s in blocks && c in Comb(rows, s)
  }

  lemma {:induction false} ImageCard(blocks: seq<set<nat>>, x: set<nat>)
    requires Disjoint(blocks) && forall r :: r in x ==> r < |blocks| && blocks[r] != {}
    ensures |set r | r in x :: blocks[r]| == |x|
    decreases |x|
  {
    if x != {} {
      var r :| r in x;
      ImageCard(blocks, x - {r});
      var rest := set q | q in x - {r} :: blocks[q];
      var e :| e in blocks[r];
      forall q | q in x - {r} ensures blocks[q] != blocks[r] {
        assert e !in blocks[q];
      }
      assert (set q | q in x :: blocks[q]) == rest + {blocks[r]};
    }
  }

  lemma WeightIsOddBlocks(rows: seq<set<nat>>, blocks: seq<set<nat>>, c: nat)
    requires Disjoint(blocks)
    ensures Weight(Sums(rows, blocks), c) == |OddBlocks(rows, blocks, c)|
  {
    hide Comb;
    var sums := Sums(rows, blocks);
    var h := Hits(sums, Below(|sums|), c);
    CombEmpty(rows);
    ImageCard(blocks, h);
    var image := set r | r in h :: blocks[r];
    forall s | s in OddBlocks(rows, blocks, c) ensures s in image {
      var r :| 0 <= r < |blocks| && blocks[r] == s;
      assert r in h;
    }
    assert image == OddBlocks(rows, blocks, c);
  }

  /** Every exhaustive run leaves every column with the same weight. */
  lemma SameWeights(rows: seq<set<nat>>, p: seq<Pair>, q: seq<Pair>, c: nat)
    requires Run(rows, p) && Finished(RunRows(rows, p))
    requires Run(rows, q) && Finished(RunRows(rows, q))
    ensures Weight(RunRows(rows, p), c) == Weight(RunRows(rows, q), c)
  {
    hide Run, Finished, RunRows, Refines, Blocks, Comb, Weight, Disjoint, Covers;
    var n := |rows|;
    BlocksPartition(rows, p);
    BlocksPartition(rows, q);
    RowsAreSums(rows, p);
    RowsAreSums(rows, q);
    WeightIsOddBlocks(rows, Blocks(n, p), c);
    WeightIsOddBlocks(rows, Blocks(n, q), c);
    CombEmpty(rows);
    forall s: set<nat> | s != {} ensures s in Blocks(n, p) <==> s in Blocks(n, q) {
      OrderIsIrrelevant(rows, p, q, s);
    }
    assert OddBlocks(rows, Blocks(n, p), c) == OddBlocks(rows, Blocks(n, q), c);
  }

  /** Whether some merged pair shares a column of weight three depends on the input alone, if it
      has no column of weight one: all exhaustive runs agree. */
  lemma SharingIsIrrelevant(rows: seq<set<nat>>, p: seq<Pair>, q: seq<Pair>)
    requires Run(rows, p) && Finished(RunRows(rows, p))
    requires Run(rows, q) && Finished(RunRows(rows, q))
    requires !HasOne(rows)
    ensures SharedOnTheWay(rows, p) <==> SharedOnTheWay(rows, q)
  {
    hide Run, Finished, RunRows, SharedOnTheWay, Weight;
    WeightOneIff(rows, p);
    WeightOneIff(rows, q);
    forall c: nat ensures Weight(RunRows(rows, p), c) == Weight(RunRows(rows, q), c) {
      SameWeights(rows, p, q, c);
    }
  }
}
