/** Batches of relations in structure-of-arrays form. */
module Relations {
  datatype Factor = Factor(index: nat, count: nat)

  /** One relation, gathered from all arrays of a batch. */
  datatype Relation = Relation(
    sqrtQ: nat,
    sign: nat,
    val2: int,
    largePrime: nat,
    charBits: bv32,
    factors: seq<Factor>)

  datatype Batch = Batch(
    sqrtQ: seq<nat>,
    signs: seq<nat>,
    val2Exps: seq<int>,
    largePrimes: seq<nat>,
    charBits: seq<bv32>,
    factorOffsets: seq<nat>,
    factorIndices: seq<nat>,
    factorCounts: seq<nat>,
    numRelations: nat,
    numFactors: nat)
  {
    /** Every array covers the first `n` relations and the offsets delimit their factors.
        The character bits may be missing. */
    ghost predicate Covers(n: nat) {
      && |sqrtQ| >= n && |signs| >= n && |val2Exps| >= n && |largePrimes| >= n
      && |factorOffsets| > n
      && factorOffsets[0] == 0
      && (forall i, j :: 0 <= i <= j <= n ==> factorOffsets[i] <= factorOffsets[j])
      && factorOffsets[n] <= |factorIndices|
      && factorOffsets[n] <= |factorCounts|
    }

    ghost predicate Valid() {
      Covers(numRelations)
    }

    function FactorsOf(i: nat): (f: seq<Factor>)
      requires Covers(i + 1)
    {
      var lo, hi := factorOffsets[i], factorOffsets[i + 1];
      seq(hi - lo, k requires 0 <= k < hi - lo =>
            Factor(factorIndices[lo + k], factorCounts[lo + k]))
    }

    /** Relation `i`; character bits that are missing read as zero. */
    function At(i: nat): Relation
      requires Covers(i + 1)
    {
      Relation(sqrtQ[i], signs[i], val2Exps[i], largePrimes[i],
               if i < |charBits| then charBits[i] else 0, FactorsOf(i))
    }

    lemma CoversLess(n: nat, m: nat)
      requires Covers(n) && m <= n
      ensures Covers(m)
    {
      assert factorOffsets[m] <= factorOffsets[n];
    }
  }

  /** A batch without relations, with all its arrays empty. */
  const CLEARED := Batch([], [], [], [], [], [], [], [], 0, 0)

  /** Factor indices are pairwise different and below the factor base size. */
  ghost predicate FactorsOk(factors: seq<Factor>, fbSize: nat) {
    && (forall k :: 0 <= k < |factors| ==> factors[k].index < fbSize)
    && forall j, k :: 0 <= j < k < |factors| ==> factors[j].index != factors[k].index
  }
}
