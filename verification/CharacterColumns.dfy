/** Branch character columns: one extra column per character bit, composed over the merge
    tree and appended to the reduced matrix. */
module CharacterColumns {
  import opened Gf2
  import opened SparseRows
  import opened Reduction
  import opened Passes
  import opened CsrMatrix
  import opened MergeTrees
  import opened Relations

  const MAX_BITS: nat := 32

  predicate Bit(v: bv32, j: nat)
    requires j < MAX_BITS
  {
    (v >> j) & 1 == 1
  }

  lemma XorBit(a: bv32, b: bv32, j: nat)
    requires j < MAX_BITS
    ensures Bit(a ^ b, j) <==> (Bit(a, j) != Bit(b, j))
  {
    var s := j as bv6;
    assert (a ^ b) >> s == (a >> s) ^ (b >> s);
  }

  /** The character bits of a relation as a set of bit numbers below `k`. */
  ghost function BitsOf(v: bv32, k: nat): set<nat>
    requires k <= MAX_BITS
  {
    set j | j in Below(k) && Bit(v, j)
  }

  lemma XorBits(a: bv32, b: bv32, k: nat)
    requires k <= MAX_BITS
    ensures BitsOf(a ^ b, k) == Add(BitsOf(a, k), BitsOf(b, k))
  {
    forall j: nat ensures j in BitsOf(a ^ b, k) <==> j in Add(BitsOf(a, k), BitsOf(b, k)) {
      if j < k {
        XorBit(a, b, j);
      }
    }
  }

  lemma ZeroBits(k: nat)
    requires k <= MAX_BITS
    ensures BitsOf(0, k) == {}
  {
    forall j: nat | j < k ensures !Bit(0, j) {
      var s := j as bv6;
      assert (0 as bv32) >> s == 0;
    }
  }

  // ---------------------------------------------------------------------------
  // Composition over the merge tree
  // ---------------------------------------------------------------------------

  /** The stored character bits of a leaf: smooth relations first, then partial ones; missing
      bits count as zero. */
  function LeafCharBits(smooths: Batch, partials: Batch, ns: nat, leaf: nat): bv32 {
    if leaf < ns then
      (if leaf < |smooths.charBits| then smooths.charBits[leaf] else 0)
    else
      var p := leaf - ns;
      if p < |partials.charBits| then partials.charBits[p] else 0
  }

  /** The character vectors of the first `n` leaves. */
  ghost function LeafChars(smooths: Batch, partials: Batch, ns: nat, n: nat, k: nat)
    : (rows: seq<set<nat>>)
    requires k <= MAX_BITS
    ensures |rows| == n
    ensures forall l :: 0 <= l < n ==>
              rows[l] == BitsOf(LeafCharBits(smooths, partials, ns, l), k)
  {
    seq(n, l requires 0 <= l < n => BitsOf(LeafCharBits(smooths, partials, ns, l), k))
  }

  datatype CharColumns = CharColumns(k: nat, columns: seq<seq<nat>>) {
    /** One column of zeros and ones per bit, one entry per row. */
    ghost predicate Shaped(nRows: nat) {
      |columns| == k && forall j :: 0 <= j < k ==> |columns[j]| == nRows
    }

    /** The bits set for row `r`. */
    ghost function RowBits(r: nat): set<nat>
      requires |columns| == k
    {
      set j | j in Below(k) && r < |columns[j]| && columns[j][r] == 1
    }
  }

  /** XOR of the character bits of a list of leaves, with multiplicity. */
  method XorLeaves(smooths: Batch, partials: Batch, ns: nat, leaves: seq<nat>, ghost n: nat,
                   ghost k: nat) returns (v: bv32)
    requires k <= MAX_BITS && forall i :: 0 <= i < |leaves| ==> leaves[i] < n
    ensures BitsOf(v, k) == Comb(LeafChars(smooths, partials, ns, n, k), OddOnes(leaves))
  {
    ghost var chars := LeafChars(smooths, partials, ns, n, k);
    v := 0;
    ZeroBits(k);
    assert OddOnes(leaves[..0]) == {};
    CombEmpty(chars);
    for i := 0 to |leaves|
      invariant BitsOf(v, k) == Comb(chars, OddOnes(leaves[..i]))
    {
      var bits := LeafCharBits(smooths, partials, ns, leaves[i]);
      XorBits(v, bits, k);
      OddOnesStep(leaves, i);
      CombAdd(chars, OddOnes(leaves[..i]), {leaves[i]});
      CombSingleton(chars, leaves[i]);
      v := v ^ bits;
    }
    assert leaves[..|leaves|] == leaves;
  }

  /** Unpacks the first `k` bits, lowest first. */
  method Unpack(v: bv32, k: nat) returns (bits: seq<nat>)
    requires k <= MAX_BITS
    ensures |bits| == k && BitsOf(v, k) <= Below(k)
    ensures forall j :: 0 <= j < k ==> bits[j] == if j in BitsOf(v, k) then 1 else 0
  {
    bits := [];
    for j := 0 to k
      invariant |bits| == j
      invariant forall i :: 0 <= i < j ==> bits[i] == if i in BitsOf(v, k) then 1 else 0
    {
      bits := bits + [if Bit(v, j) then 1 else 0];
    }
  }

  /** Appends one row to column-major storage. */
  method PushRow(columns: seq<seq<nat>>, bits: seq<nat>) returns (columns': seq<seq<nat>>)
    requires |bits| == |columns|
    ensures |columns'| == |columns|
    ensures forall j :: 0 <= j < |columns| ==> columns'[j] == columns[j] + [bits[j]]
  {
    columns' := [];
    for j := 0 to |columns|
      invariant |columns'| == j
      invariant forall i :: 0 <= i < j ==> columns'[i] == columns[i] + [bits[i]]
    {
      columns' := columns' + [columns[j] + [bits[j]]];
    }
  }

  /** The character columns of the reduced rows: row `r` gets the sum of the character vectors
      of its leaves. */
  method ProductCharacterColumns(rowMap: seq<nat>, tree: MergeTree, smooths: Batch,
                                 partials: Batch, ns: nat, k: nat)
    returns (result: CharColumns)
    requires tree.Valid() && k <= MAX_BITS
    requires forall r :: 0 <= r < |rowMap| ==> tree.Has(rowMap[r])
    ensures result.k == k && result.Shaped(|rowMap|)
    ensures forall r :: 0 <= r < |rowMap| ==>
              result.RowBits(r) == Comb(LeafChars(smooths, partials, ns, tree.numLeaves, k),
                                        Labels(tree, rowMap)[r])
  {
    hide LeafChars, BitsOf, Comb, Labels;
    ghost var chars := LeafChars(smooths, partials, ns, tree.numLeaves, k);
    ghost var labels := Labels(tree, rowMap);
    var columns := seq(k, _ => []);
    for r := 0 to |rowMap|
      invariant CharColumns(k, columns).Shaped(r)
      invariant forall i :: 0 <= i < r ==>
                  CharColumns(k, columns).RowBits(i) == Comb(chars, labels[i])
    {
      var leaves := tree.Expand(rowMap[r]);
      LeavesAreLeaves(tree, rowMap[r]);
      forall i | 0 <= i < |leaves| ensures leaves[i] < tree.numLeaves {
        assert leaves[i] in leaves;
      }
      var v := XorLeaves(smooths, partials, ns, leaves, tree.numLeaves, k);
      var bits := Unpack(v, k);
      ghost var before := CharColumns(k, columns);
      columns := PushRow(columns, bits);
      PushedBits(before, CharColumns(k, columns), bits, r, BitsOf(v, k));
    }
    result := CharColumns(k, columns);
  }

  lemma PushedBits(before: CharColumns, after: CharColumns, bits: seq<nat>, r: nat, s: set<nat>)
    requires before.k == after.k == |bits| && before.Shaped(r) && |after.columns| == after.k
    requires forall j :: 0 <= j < before.k ==> after.columns[j] == before.columns[j] + [bits[j]]
    requires s <= Below(before.k)
    requires forall j :: 0 <= j < before.k ==> bits[j] == if j in s then 1 else 0
    ensures after.Shaped(r + 1)
    ensures forall i :: 0 <= i < r ==> after.RowBits(i) == before.RowBits(i)
    ensures after.RowBits(r) == s
  {
  }

  // ---------------------------------------------------------------------------
  // Appending
  // ---------------------------------------------------------------------------

  ghost function Shift(base: nat, s: set<nat>): set<nat> {
    set j | j in s :: base + j
  }

  /** The columns of one row that the appended characters add. */
  method CharEntries(chars: CharColumns, base: nat, i: nat, ghost nRows: nat)
    returns (entries: seq<nat>)
    requires chars.Shaped(nRows) && i < nRows
    ensures Increasing(entries) && Cols(entries) == Shift(base, chars.RowBits(i))
    ensures forall e :: e in entries ==> base <= e < base + chars.k
  {
    entries := [];
    for j := 0 to chars.k
      invariant Increasing(entries)
      invariant forall i :: 0 <= i < |entries| ==> entries[i] < base + j
      invariant forall e :: e in entries <==>
                  base <= e < base + j && chars.columns[e - base][i] == 1
    {
      if chars.columns[j][i] == 1 {
        entries := entries + [base + j];
      }
    }
    forall e ensures e in Cols(entries) <==> e in Shift(base, chars.RowBits(i)) {
      if e in entries {
        assert e - base in chars.RowBits(i);
      }
    }
  }

  /** What appending does to one row: the old entries stay in front. */
  ghost predicate RowAppended(row: seq<nat>, row': seq<nat>, base: nat, bits: set<nat>) {
    row <= row' && Increasing(row') && Cols(row') == Cols(row) + Shift(base, bits)
  }

  lemma AppendedRow(row: seq<nat>, entries: seq<nat>, base: nat, bits: set<nat>)
    requires Increasing(row) && Cols(row) <= Below(base)
    requires Increasing(entries) && Cols(entries) == Shift(base, bits)
    requires forall e :: e in entries ==> base <= e
    ensures RowAppended(row, row + entries, base, bits)
  {
    forall i, j | 0 <= i < |row| && 0 <= j < |entries| ensures row[i] < entries[j] {
      assert row[i] in Cols(row) && entries[j] in entries;
    }
    forall c ensures c in Cols(row + entries) <==> c in Cols(row) + Shift(base, bits) {
      assert c in row + entries <==> c in row || c in entries;
      assert c in entries <==> c in Cols(entries);
    }
  }

  /** Appends the character columns after the existing ones. */
  method AppendCharacterColumns(csr: Csr, chars: CharColumns, nRels: nat) returns (csr': Csr)
    requires csr.Valid() && csr.nRows == nRels && chars.Shaped(nRels)
    ensures csr'.Valid() && csr'.nRows == csr.nRows && csr'.nCols == csr.nCols + chars.k
    ensures forall i :: 0 <= i < nRels ==>
              RowAppended(csr.Row(i), csr'.Row(i), csr.nCols, chars.RowBits(i))
  {
    var base := csr.nCols;
    csr' := Csr([0], [], 0, csr.nCols + chars.k);
    for i := 0 to nRels
      invariant csr'.Shaped() && csr'.nRows == i && csr'.nCols == csr.nCols + chars.k
      invariant forall r :: 0 <= r < i ==>
                  RowAppended(csr.Row(r), csr'.Rows()[r], base, chars.RowBits(r))
    {
      var row := csr.Row(i);
      var entries := CharEntries(chars, base, i, nRels);
      AppendedRow(row, entries, base, chars.RowBits(i));
      AppendRowRows(csr', row + entries);
      csr' := csr'.AppendRow(row + entries);
    }
    forall i | 0 <= i < nRels
      ensures RowAppended(csr.Row(i), csr'.Row(i), base, chars.RowBits(i))
      ensures Cols(csr'.Row(i)) <= Below(csr'.nCols)
    {
      assert csr'.Rows()[i] == csr'.Row(i);
    }
  }

  // ---------------------------------------------------------------------------
  // What the extra columns buy
  // ---------------------------------------------------------------------------

  /** `rows'` is `rows` with the character vectors `bits` appended after `base` columns. */
  ghost predicate Augmented(rows: seq<set<nat>>, rows': seq<set<nat>>, bits: seq<set<nat>>,
                            base: nat)
  {
    && |rows| == |rows'| == |bits|
    && forall r :: 0 <= r < |rows| ==>
         rows[r] <= Below(base) && rows'[r] == rows[r] + Shift(base, bits[r])
  }

  lemma AugmentedSum(rows: seq<set<nat>>, rows': seq<set<nat>>, bits: seq<set<nat>>, base: nat,
                     y: set<nat>)
    requires Augmented(rows, rows', bits, base)
    ensures Comb(rows', y) == Comb(rows, y) + Shift(base, Comb(bits, y))
  {
    forall c: nat
      ensures c in Comb(rows', y) <==> c in Comb(rows, y) + Shift(base, Comb(bits, y))
    {
      InComb(rows', y, c);
      InComb(rows, y, c);
      if c < base {
        assert Hits(rows', y, c) == Hits(rows, y, c);
      } else {
        InComb(bits, y, c - base);
        assert Hits(rows, y, c) == {};
        assert Hits(rows', y, c) == Hits(bits, y, c - base) by {
          forall r: nat | r < |rows| ensures c in rows'[r] <==> c - base in bits[r] {
            if c in rows'[r] {
              assert c !in rows[r];
              var j :| j in bits[r] && base + j == c;
            }
            if c - base in bits[r] {
              assert base + (c - base) in Shift(base, bits[r]);
            }
          }
        }
        assert c in Shift(base, Comb(bits, y)) <==> c - base in Comb(bits, y) by {
          if c - base in Comb(bits, y) {
            assert base + (c - base) in Shift(base, Comb(bits, y));
          }
        }
      }
    }
  }

  /** A selection solves the augmented matrix exactly when it solves the reduced matrix and
      the character bits of the relations it expands to cancel. */
  lemma AugmentedKernel(rows: seq<set<nat>>, rows': seq<set<nat>>, bits: seq<set<nat>>,
                        base: nat, labels: seq<set<nat>>, leafChars: seq<set<nat>>,
                        y: set<nat>)
    requires Augmented(rows, rows', bits, base)
    requires |labels| == |rows| && y <= Below(|rows|)
    requires forall r :: 0 <= r < |rows| ==> bits[r] == Comb(leafChars, labels[r])
    ensures Kernel(rows', Below(|rows'|), y) <==>
            Kernel(rows, Below(|rows|), y) && Comb(leafChars, Comb(labels, y)) == {}
  {
    AugmentedSum(rows, rows', bits, base, y);
    CombComb(leafChars, bits, labels, y);
    if j :| j in Comb(bits, y) {
      assert base + j in Shift(base, Comb(bits, y));
    }
  }

  /** With the character columns appended, every solution still expands to a dependency of the
      original matrix, and the character bits of its relations XOR to zero. */
  lemma CharacterSolution(expanded: Csr, reduced: Csr, augmented: Csr, rowMap: seq<nat>,
                          tree: MergeTree, colMap: seq<nat>, chars: CharColumns,
                          smooths: Batch, partials: Batch, ns: nat, y: set<nat>)
    requires expanded.Valid() && reduced.Valid() && augmented.Valid() && tree.Valid()
    requires |rowMap| == reduced.nRows == augmented.nRows
    requires forall r :: 0 <= r < |rowMap| ==> tree.Has(rowMap[r])
    requires ReducedFrom(expanded.Vectors(), reduced.Vectors(), colMap, Labels(tree, rowMap))
    requires chars.k <= MAX_BITS && chars.Shaped(reduced.nRows)
    requires forall r :: 0 <= r < |rowMap| ==>
               chars.RowBits(r) == Comb(LeafChars(smooths, partials, ns, tree.numLeaves, chars.k),
                                        Labels(tree, rowMap)[r])
    requires forall r :: 0 <= r < reduced.nRows ==>
               RowAppended(reduced.Row(r), augmented.Row(r), reduced.nCols, chars.RowBits(r))
    requires y <= Below(reduced.nRows)
    ensures Kernel(augmented.Vectors(), Below(augmented.nRows), y) <==>
            && Kernel(expanded.Vectors(), Below(expanded.nRows), Comb(Labels(tree, rowMap), y))
            && Comb(LeafChars(smooths, partials, ns, tree.numLeaves, chars.k),
                    Comb(Labels(tree, rowMap), y)) == {}
  {
    var bits := seq(reduced.nRows, r requires 0 <= r < reduced.nRows => chars.RowBits(r));
    AugmentedKernel(reduced.Vectors(), augmented.Vectors(), bits, reduced.nCols,
                    Labels(tree, rowMap),
                    LeafChars(smooths, partials, ns, tree.numLeaves, chars.k), y);
    PassKernel(expanded.Vectors(), reduced.Vectors(), colMap, Labels(tree, rowMap), y);
  }
}
