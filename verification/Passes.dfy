/** Whole reduction passes: the rows and columns that survive are renumbered.

    `colMap` sends a new column to the old one it stands for, `combos[j]` is the set of input
    rows whose sum is output row `j`. */
module Passes {
  import opened Gf2
  import opened SparseRows
  import opened Reduction

  ghost function Rename(colMap: seq<nat>, s: set<nat>): set<nat> {
    set c | c in s && c < |colMap| :: colMap[c]
  }

  /** The output is a renumbered reduction of the input: row `j` of the output is the sum of
      the input rows `combos[j]`, and expanding selections of output rows is a bijection
      between the dependencies of the output and those of the input. */
  ghost predicate ReducedFrom(input: seq<set<nat>>, output: seq<set<nat>>, colMap: seq<nat>,
                              combos: seq<set<nat>>)
  {
    && Increasing(colMap)
    && |output| == |combos|
    && (forall j :: 0 <= j < |output| ==> output[j] <= Below(|colMap|))
    && (forall j :: 0 <= j < |combos| ==> combos[j] <= Below(|input|))
    && (forall j :: 0 <= j < |output| ==> Rename(colMap, output[j]) == Comb(input, combos[j]))
    && Independent(combos, Below(|output|))
    && Complete(input, combos, Below(|output|))
  }

  // ---------------------------------------------------------------------------
  // Renaming columns
  // ---------------------------------------------------------------------------

  lemma InRename(colMap: seq<nat>, s: set<nat>, c: nat)
    requires Increasing(colMap) && c < |colMap|
    ensures colMap[c] in Rename(colMap, s) <==> c in s
  {
  }

  ghost function RenameAll(colMap: seq<nat>, rows: seq<set<nat>>): (r: seq<set<nat>>)
    ensures |r| == |rows|
    ensures forall j :: 0 <= j < |rows| ==> r[j] == Rename(colMap, rows[j])
  {
    seq(|rows|, j requires 0 <= j < |rows| => Rename(colMap, rows[j]))
  }

  /** Renaming columns injectively commutes with adding rows. */
  lemma RenameComb(colMap: seq<nat>, rows: seq<set<nat>>, x: set<nat>)
    requires Increasing(colMap)
    requires forall r :: 0 <= r < |rows| ==> rows[r] <= Below(|colMap|)
    ensures Rename(colMap, Comb(rows, x)) == Comb(RenameAll(colMap, rows), x)
  {
    var rows' := RenameAll(colMap, rows);
    forall c: nat | c < |colMap|
      ensures colMap[c] in Comb(rows', x) <==> c in Comb(rows, x)
    {
      assert Hits(rows', x, colMap[c]) == Hits(rows, x, c) by {
        forall r: nat | r < |rows| ensures colMap[c] in rows'[r] <==> c in rows[r] {
          InRename(colMap, rows[r], c);
        }
      }
      InComb(rows, x, c);
      InComb(rows', x, colMap[c]);
    }
    assert Comb(rows, x) <= Below(|colMap|);
    forall d | d in Comb(rows', x) ensures d in Rename(colMap, Comb(rows, x)) {
      var r :| r in x && r < |rows'| && d in rows'[r];
      var c :| c in rows[r] && c < |colMap| && colMap[c] == d;
      assert c in Comb(rows, x);
    }
  }

  lemma RenameEmpty(colMap: seq<nat>, s: set<nat>)
    requires s <= Below(|colMap|)
    ensures Rename(colMap, s) == {} <==> s == {}
  {
    if c :| c in s {
      assert colMap[c] in Rename(colMap, s);
    }
  }

  lemma RenameRename(outer: seq<nat>, inner: seq<nat>, both: seq<nat>, s: set<nat>)
    requires |both| == |inner|
    requires forall c :: 0 <= c < |inner| ==> inner[c] < |outer| && both[c] == outer[inner[c]]
    ensures Rename(both, s) == Rename(outer, Rename(inner, s))
  {
    forall d | d in Rename(both, s) ensures d in Rename(outer, Rename(inner, s)) {
      var c :| c in s && c < |both| && both[c] == d;
      assert inner[c] in Rename(inner, s);
    }
  }

  // ---------------------------------------------------------------------------
  // Kernels of passes
  // ---------------------------------------------------------------------------

  lemma OutputSum(input: seq<set<nat>>, output: seq<set<nat>>, colMap: seq<nat>,
                  combos: seq<set<nat>>, y: set<nat>)
    requires ReducedFrom(input, output, colMap, combos)
    requires y <= Below(|output|)
    ensures Rename(colMap, Comb(output, y)) == Comb(input, Comb(combos, y))
    ensures Comb(combos, y) <= Below(|input|)
    ensures Comb(output, y) <= Below(|colMap|)
  {
    RenameComb(colMap, output, y);
    CombComb(input, RenameAll(colMap, output), combos, y);
    CombWithin(combos, y, Below(|input|));
    CombWithin(output, y, Below(|colMap|));
  }

  /** A selection of output rows is a dependency exactly when its expansion is one. */
  lemma PassKernel(input: seq<set<nat>>, output: seq<set<nat>>, colMap: seq<nat>,
                   combos: seq<set<nat>>, y: set<nat>)
    requires ReducedFrom(input, output, colMap, combos)
    requires y <= Below(|output|)
    ensures Kernel(output, Below(|output|), y) <==> Kernel(input, Below(|input|), Comb(combos, y))
  {
    OutputSum(input, output, colMap, combos, y);
    RenameEmpty(colMap, Comb(output, y));
  }

  /** Every dependency of the input is the expansion of exactly one dependency of the output. */
  lemma PassBijection(input: seq<set<nat>>, output: seq<set<nat>>, colMap: seq<nat>,
                      combos: seq<set<nat>>, x: set<nat>)
    requires ReducedFrom(input, output, colMap, combos)
    requires Kernel(input, Below(|input|), x)
    ensures exists y ::
              && Kernel(output, Below(|output|), y) && Comb(combos, y) == x
              && forall z :: z <= Below(|output|) && Comb(combos, z) == x ==> z == y
  {
    var y :| y <= Below(|output|) && Comb(combos, y) == x;
    PassKernel(input, output, colMap, combos, y);
    forall z | z <= Below(|output|) && Comb(combos, z) == x ensures z == y {
      ExpansionInjective(combos, Below(|output|), y, z);
    }
  }

  // ---------------------------------------------------------------------------
  // Composition
  // ---------------------------------------------------------------------------

  ghost function ComposeMaps(outer: seq<nat>, inner: seq<nat>): (m: seq<nat>)
    requires forall c :: 0 <= c < |inner| ==> inner[c] < |outer|
    ensures |m| == |inner|
    ensures forall c :: 0 <= c < |inner| ==> m[c] == outer[inner[c]]
  {
    seq(|inner|, c requires 0 <= c < |inner| => outer[inner[c]])
  }

  ghost function ComposeCombos(first: seq<set<nat>>, second: seq<set<nat>>): (g: seq<set<nat>>)
    ensures |g| == |second|
    ensures forall j :: 0 <= j < |second| ==> g[j] == Comb(first, second[j])
  {
    seq(|second|, j requires 0 <= j < |second| => Comb(first, second[j]))
  }

  /** Two passes, one after the other, are one pass. */
  lemma ComposePasses(a: seq<set<nat>>, b: seq<set<nat>>, c: seq<set<nat>>,
                      map1: seq<nat>, combos1: seq<set<nat>>,
                      map2: seq<nat>, combos2: seq<set<nat>>)
    requires ReducedFrom(a, b, map1, combos1)
    requires ReducedFrom(b, c, map2, combos2)
    requires forall k :: 0 <= k < |map2| ==> map2[k] < |map1|
    ensures ReducedFrom(a, c, ComposeMaps(map1, map2), ComposeCombos(combos1, combos2))
  {
    var m, g := ComposeMaps(map1, map2), ComposeCombos(combos1, combos2);
    forall j | 0 <= j < |c|
      ensures g[j] <= Below(|a|) && Rename(m, c[j]) == Comb(a, g[j])
    {
      OutputSum(a, b, map1, combos1, combos2[j]);
      RenameRename(map1, map2, m, c[j]);
    }
    forall y | y <= Below(|c|)
      ensures Comb(g, y) == Comb(combos1, Comb(combos2, y))
      ensures Comb(combos2, y) <= Below(|b|)
    {
      CombComb(combos1, g, combos2, y);
      CombWithin(combos2, y, Below(|b|));
    }
    forall x | Kernel(a, Below(|a|), x)
      ensures exists y :: y <= Below(|c|) && Comb(g, y) == x
    {
      var z :| z <= Below(|b|) && Comb(combos1, z) == x;
      PassKernel(a, b, map1, combos1, z);
      var y :| y <= Below(|c|) && Comb(combos2, y) == z;
      assert Comb(g, y) == x;
    }
  }

  // ---------------------------------------------------------------------------
  // From the loop invariant to a pass
  // ---------------------------------------------------------------------------

  /** `list` enumerates the live rows in ascending order. */
  ghost predicate Enumerates(list: seq<nat>, alive: set<nat>) {
    Increasing(list) && Cols(list) == alive
  }

  /** The rows at the positions `list`, in that order. */
  ghost function Pick(rows: seq<set<nat>>, list: seq<nat>): (p: seq<set<nat>>)
    requires forall j :: 0 <= j < |list| ==> list[j] < |rows|
    ensures |p| == |list|
    ensures forall j :: 0 <= j < |list| ==> p[j] == rows[list[j]]
  {
    seq(|list|, j requires 0 <= j < |list| => rows[list[j]])
  }

  ghost function Singles(list: seq<nat>): (p: seq<set<nat>>)
    ensures |p| == |list|
    ensures forall j :: 0 <= j < |list| ==> p[j] == {list[j]}
  {
    seq(|list|, j requires 0 <= j < |list| => {list[j]})
  }

  lemma {:induction false} CombSingles(list: seq<nat>, y: set<nat>)
    requires Increasing(list) && y <= Below(|list|)
    ensures Comb(Singles(list), y) == Rename(list, y)
    decreases |y|
  {
    if y == {} {
      CombEmpty(Singles(list));
    } else {
      var j :| j in y;
      CombSingles(list, y - {j});
      CombSplit(Singles(list), y, j);
      InRename(list, y - {j}, j);
      assert Rename(list, y) == Rename(list, y - {j}) + {list[j]};
    }
  }

  lemma CombPick(combos: seq<set<nat>>, list: seq<nat>, y: set<nat>)
    requires Increasing(list) && y <= Below(|list|)
    requires forall j :: 0 <= j < |list| ==> list[j] < |combos|
    ensures Comb(Pick(combos, list), y) == Comb(combos, Rename(list, y))
  {
    forall j | j in y ensures Pick(combos, list)[j] == Comb(combos, Singles(list)[j]) {
      CombSingleton(combos, list[j]);
    }
    CombComb(combos, Pick(combos, list), Singles(list), y);
    CombSingles(list, y);
  }

  lemma PickMeaning(combos: seq<set<nat>>, alive: set<nat>, list: seq<nat>)
    requires Enumerates(list, alive)
    requires forall j :: 0 <= j < |list| ==> list[j] < |combos|
    ensures forall y :: y <= Below(|list|) ==>
              Comb(Pick(combos, list), y) == Comb(combos, Rename(list, y))
              && Rename(list, y) <= alive
  {
    hide Comb;
    forall y | y <= Below(|list|)
      ensures Comb(Pick(combos, list), y) == Comb(combos, Rename(list, y))
      ensures Rename(list, y) <= alive
    {
      CombPick(combos, list, y);
      forall r | r in Rename(list, y) ensures r in alive {
        assert r in Cols(list);
      }
    }
  }

  lemma PickIndependent(combos: seq<set<nat>>, alive: set<nat>, list: seq<nat>)
    requires Independent(combos, alive) && Enumerates(list, alive)
    requires forall j :: 0 <= j < |list| ==> list[j] < |combos|
    ensures Independent(Pick(combos, list), Below(|list|))
  {
    hide Comb;
    PickMeaning(combos, alive, list);
    forall y | y <= Below(|list|) && Comb(Pick(combos, list), y) == {} ensures y == {} {
      RenameEmpty(list, y);
    }
  }

  lemma PickComplete(input: seq<set<nat>>, combos: seq<set<nat>>, alive: set<nat>,
                     list: seq<nat>)
    requires Complete(input, combos, alive) && Enumerates(list, alive)
    requires forall j :: 0 <= j < |list| ==> list[j] < |combos|
    ensures Complete(input, Pick(combos, list), Below(|list|))
  {
    hide Comb;
    PickMeaning(combos, alive, list);
    forall x | Kernel(input, Below(|input|), x)
      ensures exists y :: y <= Below(|list|) && Comb(Pick(combos, list), y) == x
    {
      var z :| z <= alive && Comb(combos, z) == x;
      var y := set j | j in Below(|list|) && list[j] in z;
      RenameBack(list, z, y);
    }
  }

  lemma RenameBack(list: seq<nat>, z: set<nat>, y: set<nat>)
    requires z <= Cols(list)
    requires y == set j | j in Below(|list|) && list[j] in z
    ensures Rename(list, y) == z
  {
    forall r | r in z ensures r in Rename(list, y) {
      var j :| 0 <= j < |list| && list[j] == r;
      assert j in y;
    }
  }

  /** Renumbering the live rows and the columns they touch turns the loop invariant into a
      pass. */
  lemma FinishPass(input: seq<set<nat>>, rows: seq<set<nat>>, combos: seq<set<nat>>,
                   alive: set<nat>, list: seq<nat>, colMap: seq<nat>, output: seq<set<nat>>)
    requires Reduces(input, rows, combos, alive)
    requires Enumerates(list, alive)
    requires Increasing(colMap)
    requires |output| == |list|
    requires forall j :: 0 <= j < |list| ==> list[j] < |rows|
    requires forall j :: 0 <= j < |list| ==>
               output[j] <= Below(|colMap|) && Rename(colMap, output[j]) == rows[list[j]]
    ensures ReducedFrom(input, output, colMap, Pick(combos, list))
  {
    hide Comb, Independent, Complete;
    forall j | 0 <= j < |list| ensures list[j] in alive {
      assert list[j] in Cols(list);
    }
    PickIndependent(combos, alive, list);
    PickComplete(input, combos, alive, list);
  }
}
