/** The merge history of the matrix reduction: a DAG whose leaves are relations. */
module MergeTrees {
  import opened Basics
  import opened Gf2
  import opened SparseRows

  datatype Node = Node(left: nat, right: nat)

  /** Indices below `numLeaves` are leaves; node `k` of `nodes` has index `numLeaves + k`. */
  datatype MergeTree = MergeTree(numLeaves: nat, nodes: seq<Node>) {

    ghost predicate Valid() {
      forall k :: 0 <= k < |nodes| ==>
        nodes[k].left < numLeaves + k && nodes[k].right < numLeaves + k
    }

    predicate Has(idx: nat) {
      idx < numLeaves + |nodes|
    }

    /** All leaves below a node, with multiplicity, in the order the traversal meets them. */
    ghost function Leaves(idx: nat): seq<nat>
      requires Valid() && Has(idx)
      decreases idx
    {
      if idx < numLeaves then [idx]
      else
        var n := nodes[idx - numLeaves];
        Leaves(n.right) + Leaves(n.left)
    }

    /** Number of nodes the traversal from `idx` visits. */
    ghost function Visits(idx: nat): (v: nat)
      requires Valid() && Has(idx)
      ensures v > 0
      decreases idx
    {
      if idx < numLeaves then 1
      else
        var n := nodes[idx - numLeaves];
        1 + Visits(n.right) + Visits(n.left)
    }

    /** The leaves that occur an odd number of times below a node. */
    ghost function Label(idx: nat): set<nat>
      requires Valid() && Has(idx)
    {
      OddOnes(Leaves(idx))
    }

    function Grow(left: nat, right: nat): MergeTree {
      this.(nodes := nodes + [Node(left, right)])
    }

    /** Expands a node to the leaves below it with an explicit stack. */
    method Expand(idx: nat) returns (out: seq<nat>)
      requires Valid() && Has(idx)
      ensures out == Leaves(idx)
    {
      out := [];
      var work: seq<nat> := [] + [idx];
      PendingPush([], idx);
      while |work| > 0
        invariant forall k :: 0 <= k < |work| ==> Has(work[k])
        invariant out + Pending(work) == Leaves(idx)
        decreases PendingVisits(work)
      {
        var top := work[|work| - 1];
        ghost var before := work;
        work := work[..|work| - 1];
        PendingPush(work, top);
        assert work + [top] == before;
        if top < numLeaves {
          Assoc(out, [top], Pending(work));
          out := out + [top];
        } else {
          var n := nodes[top - numLeaves];
          PendingNode(work, top);
          work := work + [n.left];
          work := work + [n.right];
        }
      }
    }

    lemma PendingNode(work: seq<nat>, idx: nat)
      requires Valid() && Has(idx) && idx >= numLeaves
      requires forall k :: 0 <= k < |work| ==> Has(work[k])
      ensures var n := nodes[idx - numLeaves];
              && Has(n.left) && Has(n.right)
              && Pending(work + [n.left] + [n.right]) == Pending(work + [idx])
              && PendingVisits(work + [n.left] + [n.right]) < PendingVisits(work + [idx])
    {
      var n := nodes[idx - numLeaves];
      hide Pending, PendingVisits;
      PendingPush(work, n.left);
      PendingPush(work + [n.left], n.right);
      PendingPush(work, idx);
      Assoc(Leaves(n.right), Leaves(n.left), Pending(work));
    }

    static lemma Assoc(a: seq<nat>, b: seq<nat>, c: seq<nat>)
      ensures a + (b + c) == (a + b) + c
    {
    }

    lemma PendingPush(work: seq<nat>, idx: nat)
      requires Valid() && Has(idx)
      requires forall k :: 0 <= k < |work| ==> Has(work[k])
      ensures Pending(work + [idx]) == Leaves(idx) + Pending(work)
      ensures PendingVisits(work + [idx]) == Visits(idx) + PendingVisits(work)
    {
      assert (work + [idx])[..|work|] == work;
    }

    /** What is still to be produced from the stack: the last entry comes first. */
    ghost function Pending(work: seq<nat>): seq<nat>
      requires Valid()
      requires forall k :: 0 <= k < |work| ==> Has(work[k])
    {
      if |work| == 0 then []
      else Leaves(work[|work| - 1]) + Pending(work[..|work| - 1])
    }

    ghost function PendingVisits(work: seq<nat>): nat
      requires Valid()
      requires forall k :: 0 <= k < |work| ==> Has(work[k])
    {
      if |work| == 0 then 0
      else Visits(work[|work| - 1]) + PendingVisits(work[..|work| - 1])
    }
  }

  // ---------------------------------------------------------------------------
  // Multiplicity modulo two
  // ---------------------------------------------------------------------------

  ghost function OddOnes(s: seq<nat>): set<nat> {
    set l | l in s && multiset(s)[l] % 2 == 1
  }

  /** Concatenating leaf lists adds their parities: even numbers of occurrences cancel. */
  lemma OddOnesConcat(s: seq<nat>, t: seq<nat>)
    ensures OddOnes(s + t) == Add(OddOnes(s), OddOnes(t))
  {
    assert multiset(s + t) == multiset(s) + multiset(t);
    forall l: nat ensures l in OddOnes(s + t) <==> l in Add(OddOnes(s), OddOnes(t)) {
      assert l in s <==> multiset(s)[l] > 0;
      assert l in t <==> multiset(t)[l] > 0;
      assert l in s + t <==> multiset(s + t)[l] > 0;
    }
  }

  lemma OddOnesSingle(l: nat)
    ensures OddOnes([l]) == {l}
  {
  }

  /** The label of a merged node is the sum of its children's labels. */
  lemma LabelOfNode(tree: MergeTree, k: nat)
    requires tree.Valid() && k < |tree.nodes|
    ensures tree.Label(tree.numLeaves + k) ==
            Add(tree.Label(tree.nodes[k].left), tree.Label(tree.nodes[k].right))
  {
    var n := tree.nodes[k];
    OddOnesConcat(tree.Leaves(n.right), tree.Leaves(n.left));
  }

  lemma LabelOfLeaf(tree: MergeTree, l: nat)
    requires tree.Valid() && l < tree.numLeaves
    ensures tree.Label(l) == {l}
  {
    OddOnesSingle(l);
  }

  /** Labels only name leaves. */
  lemma {:induction false} LeavesAreLeaves(tree: MergeTree, idx: nat)
    requires tree.Valid() && tree.Has(idx)
    ensures forall l :: l in tree.Leaves(idx) ==> l < tree.numLeaves
    decreases idx
  {
    if idx >= tree.numLeaves {
      var n := tree.nodes[idx - tree.numLeaves];
      LeavesAreLeaves(tree, n.left);
      LeavesAreLeaves(tree, n.right);
    }
  }

  /** Appending a node changes no existing expansion. */
  lemma {:induction false} GrowKeepsLeaves(tree: MergeTree, left: nat, right: nat, idx: nat)
    requires tree.Valid() && tree.Has(left) && tree.Has(right) && tree.Has(idx)
    ensures tree.Grow(left, right).Valid()
    ensures tree.Grow(left, right).Leaves(idx) == tree.Leaves(idx)
    decreases idx
  {
    if idx >= tree.numLeaves {
      var n := tree.nodes[idx - tree.numLeaves];
      GrowKeepsLeaves(tree, left, right, n.left);
      GrowKeepsLeaves(tree, left, right, n.right);
    }
  }

  ghost function Labels(tree: MergeTree, rowMap: seq<nat>): (g: seq<set<nat>>)
    requires tree.Valid() && forall j :: 0 <= j < |rowMap| ==> tree.Has(rowMap[j])
    ensures |g| == |rowMap|
    ensures forall j :: 0 <= j < |rowMap| ==> g[j] == tree.Label(rowMap[j])
  {
    seq(|rowMap|, j requires 0 <= j < |rowMap| => tree.Label(rowMap[j]))
  }

  // ---------------------------------------------------------------------------
  // Sorting
  // ---------------------------------------------------------------------------

  /** The elements of a set in ascending order. */
  method Ascending(s: set<nat>) returns (r: seq<nat>)
    ensures Increasing(r) && Cols(r) == s
  {
    r := [];
    var rest := s;
    while rest != {}
      invariant rest <= s
      invariant Increasing(r) && Cols(r) == s - rest
      decreases rest
    {
      var e :| e in rest;
      assert e !in Cols(r);
      r := InsertSorted(r, e);
      rest := rest - {e};
    }
  }

  // ---------------------------------------------------------------------------
  // Expanding a kernel vector
  // ---------------------------------------------------------------------------

  predicate BitSet(word: bv64, bit: nat)
    requires bit < 64
  {
    word & (1 << bit) != 0
  }

  /** Row `i` is selected by bit `i % 64` of word `i / 64`; missing words select nothing. */
  predicate Selects(packed: seq<bv64>, i: nat) {
    i / 64 < |packed| && BitSet(packed[i / 64], i % 64)
  }

  ghost function Selection(packed: seq<bv64>, n: nat): set<nat> {
    set i | i in Below(n) && Selects(packed, i)
  }

  lemma {:induction false} SelectionTail(packed: seq<bv64>, i: nat, n: nat)
    requires i <= n && i / 64 >= |packed|
    ensures Selection(packed, n) == Selection(packed, i)
  {
    forall k: nat | i <= k ensures !Selects(packed, k) {
      assert i / 64 <= k / 64;
    }
  }

  lemma SelectionStep(packed: seq<bv64>, i: nat)
    ensures Selection(packed, i + 1) ==
            if Selects(packed, i) then Selection(packed, i) + {i} else Selection(packed, i)
  {
  }

  /** The leaves whose counter is odd. */
  function OddKeys(freq: map<nat, nat>): set<nat> {
    set l | l in freq && freq[l] % 2 == 1
  }

  lemma WrapFlipsParity(n: nat)
    ensures ((n + 1) % WORD32) % 2 != n % 2
  {
  }

  lemma SetFlips(freq: map<nat, nat>, l: nat, v: nat)
    requires v % 2 != (if l in freq then freq[l] else 0) % 2
    ensures OddKeys(freq[l := v]) == Add(OddKeys(freq), {l})
  {
  }

  /** Counting a leaf once more flips it, even when the 32-bit counter wraps around. */
  lemma CountFlips(freq: map<nat, nat>, l: nat)
    ensures var count := if l in freq then freq[l] else 0;
            OddKeys(freq[l := (count + 1) % WORD32]) == Add(OddKeys(freq), {l})
  {
    hide OddKeys;
    var count := if l in freq then freq[l] else 0;
    WrapFlipsParity(count);
    SetFlips(freq, l, (count + 1) % WORD32);
  }

  lemma OddOnesStep(s: seq<nat>, k: nat)
    requires k < |s|
    ensures OddOnes(s[..k + 1]) == Add(OddOnes(s[..k]), {s[k]})
  {
    assert s[..k + 1] == s[..k] + [s[k]];
    OddOnesConcat(s[..k], [s[k]]);
    OddOnesSingle(s[k]);
  }

  /** Counts every leaf of a list. */
  method CountLeaves(freq: map<nat, nat>, leaves: seq<nat>) returns (freq': map<nat, nat>)
    ensures OddKeys(freq') == Add(OddKeys(freq), OddOnes(leaves))
  {
    freq' := freq;
    assert OddOnes(leaves[..0]) == {};
    for k := 0 to |leaves|
      invariant OddKeys(freq') == Add(OddKeys(freq), OddOnes(leaves[..k]))
    {
      var leaf := leaves[k];
      var count := if leaf in freq' then freq'[leaf] else 0;
      CountFlips(freq', leaf);
      OddOnesStep(leaves, k);
      freq' := freq'[leaf := (count + 1) % WORD32];
    }
    assert leaves[..|leaves|] == leaves;
  }

  /** Selecting one more row adds its label to the sum. */
  lemma SelectionSum(packed: seq<bv64>, labels: seq<set<nat>>, i: nat)
    requires i < |labels|
    ensures Comb(labels, Selection(packed, i + 1)) ==
            if Selects(packed, i) then Add(Comb(labels, Selection(packed, i)), labels[i])
            else Comb(labels, Selection(packed, i))
  {
    SelectionStep(packed, i);
    if Selects(packed, i) {
      assert Selection(packed, i + 1) - {i} == Selection(packed, i);
      CombSplit(labels, Selection(packed, i + 1), i);
    }
  }

  /** Maps a solution over the reduced rows back to relations: the leaves of all selected
      rows, each kept when it occurs an odd number of times. */
  method ExpandKernelVector(packed: seq<bv64>, numReducedRows: nat, rowMap: seq<nat>,
                            tree: MergeTree) returns (result: seq<nat>)
    requires tree.Valid() && numReducedRows == |rowMap|
    requires forall j :: 0 <= j < |rowMap| ==> tree.Has(rowMap[j])
    ensures Increasing(result)
    ensures Cols(result) == Comb(Labels(tree, rowMap), Selection(packed, numReducedRows))
  {
    hide Comb;
    var freq: map<nat, nat> := map[];
    ghost var labels := Labels(tree, rowMap);
    assert Selection(packed, 0) == {};
    CombEmpty(labels);
    var i := 0;
    while i < numReducedRows
      invariant 0 <= i <= numReducedRows
      invariant OddKeys(freq) == Comb(labels, Selection(packed, i))
    {
      if i / 64 >= |packed| {
        SelectionTail(packed, i, numReducedRows);
        break;
      }
      SelectionSum(packed, labels, i);
      if BitSet(packed[i / 64], i % 64) {
        var leaves := tree.Expand(rowMap[i]);
        freq := CountLeaves(freq, leaves);
      }
      i := i + 1;
    }
    result := Ascending(OddKeys(freq));
  }
}
