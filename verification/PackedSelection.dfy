/** Selecting the merged rows of a solution in the packed pipeline, through a composed row map. */
module PackedSelection {

  import opened Gf2
  import opened SparseRows
  import opened Reduction
  import opened Passes
  import opened MergeTrees

  // ---------------------------------------------------------------------------
  // Selecting rows
  // ---------------------------------------------------------------------------

  /** The mapped rows of the selected positions below `n`, in order of position. */
  function Chosen(packed: seq<bv64>, n: nat, rowMap: seq<nat>): seq<nat>
    requires n <= |rowMap|
  {
    if n == 0 then []
    else
      Chosen(packed, n - 1, rowMap)
      + if Selects(packed, n - 1) then [rowMap[n - 1]] else []
  }

  /** The mapped rows of a packed solution, sorted; missing words select nothing. */
  method SelectKernelVectorRows(packed: seq<bv64>, numReducedRows: nat, rowMap: seq<nat>)
    returns (selected: seq<nat>)
    requires numReducedRows <= |rowMap|
    ensures Sorted(selected)
    ensures multiset(selected) == multiset(Chosen(packed, numReducedRows, rowMap))
  {
    selected := [];
    for i := 0 to numReducedRows
      invariant selected == Chosen(packed, i, rowMap)
    {
      if i / 64 < |packed| && BitSet(packed[i / 64], i % 64) {
        selected := selected + [rowMap[i]];
      }
    }
    selected := Sort(selected);
  }

  lemma RenameAdds(list: seq<nat>, x: set<nat>, i: nat)
    requires i < |list|
    ensures Rename(list, x + {i}) == Rename(list, x) + {list[i]}
  {
  }

  /** The chosen rows are the images of the selected positions. */
  lemma {:induction false} ChosenCols(packed: seq<bv64>, n: nat, rowMap: seq<nat>)
    requires n <= |rowMap|
    ensures Cols(Chosen(packed, n, rowMap)) == Rename(rowMap, Selection(packed, n))
  {
    hide Rename, Selects;
    if n > 0 {
      var i, before := n - 1, Selection(packed, n - 1);
      ChosenCols(packed, i, rowMap);
      SelectionStep(packed, i);
      hide Selection;
      RenameAdds(rowMap, before, i);
      ColsAppended(Chosen(packed, i, rowMap), rowMap[i]);
      assert Chosen(packed, i, rowMap) + [] == Chosen(packed, i, rowMap);
    } else {
      assert Selection(packed, 0) == {};
      assert Rename(rowMap, {}) == {} by { RenameNothing(rowMap); }
    }
  }

  lemma RenameNothing(list: seq<nat>)
    ensures Rename(list, {}) == {}
  {
  }

  lemma ColsAppended(s: seq<nat>, e: nat)
    ensures Cols(s + [e]) == Cols(s) + {e}
  {
  }

  // ---------------------------------------------------------------------------
  // The composed row map
  // ---------------------------------------------------------------------------

  /** Row `i` of the further reduced matrix stands for row `outer[inner[i]]`. */
  method ComposeRowMaps(outer: seq<nat>, inner: seq<nat>) returns (composed: seq<nat>)
    requires forall i :: 0 <= i < |inner| ==> inner[i] < |outer|
    ensures Composes(outer, inner, composed)
  {
    composed := [];
    for i := 0 to |inner|
      invariant |composed| == i
      invariant forall k :: 0 <= k < i ==> composed[k] == outer[inner[k]]
    {
      composed := composed + [outer[inner[i]]];
    }
  }

  ghost predicate Composes(outer: seq<nat>, inner: seq<nat>, composed: seq<nat>) {
    && |composed| == |inner|
    && forall i :: 0 <= i < |inner| ==> inner[i] < |outer| && composed[i] == outer[inner[i]]
  }

  /** The sum over selected positions of a row list is the sum over the rows listed there. */
  lemma {:induction false} CombImage(rows: seq<set<nat>>, list: seq<nat>, x: set<nat>)
    requires Distinct(list) && x <= Below(|list|)
    requires forall j :: 0 <= j < |list| ==> list[j] < |rows|
    ensures Comb(Pick(rows, list), x) == Comb(rows, Rename(list, x))
    decreases |x|
  {
    if x == {} {
      CombEmpty(Pick(rows, list));
      CombEmpty(rows);
      assert Rename(list, {}) == {};
    } else {
      var j :| j in x;
      var less := Rename(list, x - {j});
      CombImage(rows, list, x - {j});
      CombSplit(Pick(rows, list), x, j);
      assert Rename(list, x) == less + {list[j]};
      assert list[j] !in less;
      assert (less + {list[j]}) - {list[j]} == less;
      CombSplit(rows, less + {list[j]}, list[j]);
    }
  }

  lemma RenameComposes(outer: seq<nat>, inner: seq<nat>, composed: seq<nat>, y: set<nat>)
    requires Composes(outer, inner, composed) && y <= Below(|inner|)
    ensures Rename(outer, Rename(inner, y)) == Rename(composed, y)
  {
    forall e | e in Rename(composed, y) ensures e in Rename(outer, Rename(inner, y)) {
      var i :| i in y && i < |composed| && composed[i] == e;
      assert inner[i] in Rename(inner, y);
    }
  }

  /** After a further reduction of the extracted rows `gf2Map` of a merged matrix, the merged
      rows picked through the composed map cancel, for every solution of the reduced matrix. */
  lemma ComposedSelectionCancels(merged: seq<set<nat>>, gf2Map: seq<nat>,
                                 reduced: seq<set<nat>>, colMap: seq<nat>, rowMap: seq<nat>,
                                 composed: seq<nat>, y: set<nat>)
    requires Distinct(gf2Map) && forall j :: 0 <= j < |gf2Map| ==> gf2Map[j] < |merged|
    requires ReducedFrom(Pick(merged, gf2Map), reduced, colMap, Singles(rowMap))
    requires Increasing(rowMap) && Composes(gf2Map, rowMap, composed)
    requires Kernel(reduced, Below(|reduced|), y)
    ensures Kernel(merged, Below(|merged|), Rename(composed, y))
    ensures y != {} ==> Rename(composed, y) != {}
  {
    hide Comb, Independent, Complete;
    PassKernel(Pick(merged, gf2Map), reduced, colMap, Singles(rowMap), y);
    CombSingles(rowMap, y);
    CombImage(merged, gf2Map, Rename(rowMap, y));
    RenameComposes(gf2Map, rowMap, composed, y);
    if y != {} {
      var i :| i in y;
      assert composed[i] in Rename(composed, y);
    }
  }

  /** So the rows `SelectKernelVectorRows` returns cancel. */
  lemma SelectedRowsCancel(merged: seq<set<nat>>, gf2Map: seq<nat>, reduced: seq<set<nat>>,
                           colMap: seq<nat>, rowMap: seq<nat>, composed: seq<nat>,
                           packed: seq<bv64>, selected: seq<nat>)
    requires Distinct(gf2Map) && forall j :: 0 <= j < |gf2Map| ==> gf2Map[j] < |merged|
    requires ReducedFrom(Pick(merged, gf2Map), reduced, colMap, Singles(rowMap))
    requires Increasing(rowMap) && Composes(gf2Map, rowMap, composed)
    requires Kernel(reduced, Below(|reduced|), Selection(packed, |reduced|))
    requires multiset(selected) == multiset(Chosen(packed, |composed|, composed))
    ensures Comb(merged, Cols(selected)) == {}
  {
    hide Comb, Kernel, Independent, Complete, Chosen, Rename, Selection;
    var chosen := Chosen(packed, |composed|, composed);
    assert |composed| == |reduced| && |Singles(rowMap)| == |rowMap|;
    hide ReducedFrom;
    ChosenCols(packed, |composed|, composed);
    SameElements(selected, chosen);
    ComposedSelectionCancels(merged, gf2Map, reduced, colMap, rowMap, composed,
                             Selection(packed, |reduced|));
    KernelSums(merged, Cols(selected));
  }

  lemma SameElements(s: seq<nat>, t: seq<nat>)
    requires multiset(s) == multiset(t)
    ensures Cols(s) == Cols(t)
  {
    forall c: nat ensures c in Cols(s) <==> c in Cols(t) {
      assert c in s <==> c in multiset(s);
      assert c in t <==> c in multiset(t);
    }
  }

  lemma KernelSums(rows: seq<set<nat>>, x: set<nat>)
    requires Kernel(rows, Below(|rows|), x)
    ensures Comb(rows, x) == {}
  {
  }
}
