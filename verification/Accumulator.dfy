/** The relation accumulator of the coordinator, and the in-place dedup of a checkpoint batch. */
module Accumulators {

  import opened Relations
  import opened RelationHash

  // ---------------------------------------------------------------------------
  // Batches as lists of relations
  // ---------------------------------------------------------------------------

  function Listed(b: Batch): (r: seq<Relation>)
    requires b.Valid()
    ensures |r| == b.numRelations
  {
    seq(b.numRelations, i requires 0 <= i < b.numRelations => Entry(b, i))
  }

  function Entry(b: Batch, i: nat): Relation
    requires b.Valid() && i < b.numRelations
  {
    b.CoversLess(b.numRelations, i + 1);
    b.At(i)
  }

  /** A batch that is exactly filled, with one character word per relation. */
  ghost predicate Exact(b: Batch) {
    && b.Valid()
    && |b.sqrtQ| == |b.signs| == |b.val2Exps| == |b.largePrimes| == |b.charBits| == b.numRelations
    && |b.factorOffsets| == b.numRelations + 1
    && |b.factorIndices| == |b.factorCounts| == b.numFactors
    && b.factorOffsets[b.numRelations] == b.numFactors
  }

  const EMPTY := Batch([], [], [], [], [], [0], [], [], 0, 0)

  /** One relation appended; `bits` are its character bits. */
  function Appended(dest: Batch, src: Batch, i: nat, bits: bv32): Batch
    requires src.Covers(i + 1)
  {
    var lo, hi := src.factorOffsets[i], src.factorOffsets[i + 1];
    Batch(
      dest.sqrtQ + [src.sqrtQ[i]],
      dest.signs + [src.signs[i]],
      dest.val2Exps + [src.val2Exps[i]],
      dest.largePrimes + [src.largePrimes[i]],
      dest.charBits + [bits],
      dest.factorOffsets + [dest.numFactors + (hi - lo)],
      dest.factorIndices + src.factorIndices[lo..hi],
      dest.factorCounts + src.factorCounts[lo..hi],
      dest.numRelations + 1,
      dest.numFactors + (hi - lo))
  }

  method AppendSingleRelation(dest: Batch, src: Batch, i: nat, bits: bv32) returns (r: Batch)
    requires src.Covers(i + 1)
    ensures r == Appended(dest, src, i, bits)
  {
    var start, end := src.factorOffsets[i], src.factorOffsets[i + 1];
    var indices, counts := dest.factorIndices, dest.factorCounts;
    for f := start to end
      invariant indices == dest.factorIndices + src.factorIndices[start..f]
      invariant counts == dest.factorCounts + src.factorCounts[start..f]
    {
      indices := indices + [src.factorIndices[f]];
      counts := counts + [src.factorCounts[f]];
    }
    var total := dest.numFactors + (end - start);
    r := Batch(dest.sqrtQ + [src.sqrtQ[i]], dest.signs + [src.signs[i]],
               dest.val2Exps + [src.val2Exps[i]], dest.largePrimes + [src.largePrimes[i]],
               dest.charBits + [bits], dest.factorOffsets + [total], indices, counts,
               dest.numRelations + 1, total);
  }

  lemma AppendedExact(dest: Batch, src: Batch, i: nat, bits: bv32)
    requires Exact(dest) && src.Covers(i + 1)
    ensures Exact(Appended(dest, src, i, bits))
  {
  }

  lemma AppendedKeeps(dest: Batch, src: Batch, i: nat, bits: bv32, k: nat)
    requires Exact(dest) && src.Covers(i + 1) && k < dest.numRelations
    requires Exact(Appended(dest, src, i, bits))
    ensures Entry(Appended(dest, src, i, bits), k) == Entry(dest, k)
  {
    var q := Appended(dest, src, i, bits);
    dest.CoversLess(dest.numRelations, k + 1);
    q.CoversLess(q.numRelations, k + 1);
    assert dest.factorOffsets[k + 1] <= dest.numFactors;
    assert q.FactorsOf(k) == dest.FactorsOf(k);
  }

  lemma AppendedLast(dest: Batch, src: Batch, i: nat, bits: bv32)
    requires Exact(dest) && src.Covers(i + 1)
    requires Exact(Appended(dest, src, i, bits))
    ensures Entry(Appended(dest, src, i, bits), dest.numRelations)
            == src.At(i).(charBits := bits)
  {
    var q, n := Appended(dest, src, i, bits), dest.numRelations;
    q.CoversLess(q.numRelations, n + 1);
    assert q.factorOffsets[n] == dest.numFactors;
    assert q.FactorsOf(n) == src.FactorsOf(i);
  }

  /** Appending to the arrays appends to the list. */
  lemma AppendedListed(dest: Batch, src: Batch, i: nat, bits: bv32)
    requires Exact(dest) && src.Covers(i + 1)
    ensures Exact(Appended(dest, src, i, bits)) && Appended(dest, src, i, bits).Valid()
    ensures Listed(Appended(dest, src, i, bits))
            == Listed(dest) + [src.At(i).(charBits := bits)]
  {
    AppendedExact(dest, src, i, bits);
    hide Appended, Entry;
    var q := Appended(dest, src, i, bits);
    assert q.numRelations == dest.numRelations + 1 by { AppendedCount(dest, src, i, bits); }
    AppendedLast(dest, src, i, bits);
    forall k | 0 <= k < dest.numRelations ensures Listed(q)[k] == Listed(dest)[k] {
      AppendedKeeps(dest, src, i, bits, k);
    }
  }

  lemma AppendedCount(dest: Batch, src: Batch, i: nat, bits: bv32)
    requires src.Covers(i + 1)
    ensures Appended(dest, src, i, bits).numRelations == dest.numRelations + 1
  {
  }

  /** Character bits do not enter the hash. */
  lemma HashWithoutBits(r: Relation, bits: bv32)
    ensures Hash(r.(charBits := bits)) == Hash(r)
  {
  }

  /** One more list element in a dedup. */
  lemma DedupNext(list: seq<Relation>, i: nat, seen: set<nat>)
    requires i < |list|
    ensures Dedup(list[..i + 1], seen)
            == Dedup(list[..i], seen)
               + if Hash(list[i]) in seen + Hashes(list[..i]) then [] else [list[i]]
    ensures Hashes(list[..i + 1]) == Hashes(list[..i]) + {Hash(list[i])}
  {
    hide Hash;
    assert list[..i + 1][..i] == list[..i] && list[..i + 1] == list[..i] + [list[i]];
    HashesConcat(list[..i], [list[i]]);
    OneHash(list[i]);
  }

  // ---------------------------------------------------------------------------
  // Dedup in place
  // ---------------------------------------------------------------------------

  /** The relations as the checkpoint dedup sees them: character bits only if every relation has
      them. */
  function ViewOf(b: Batch): (r: seq<Relation>)
    requires b.Valid()
    ensures |r| == b.numRelations
  {
    var hasChar := |b.charBits| == b.numRelations;
    seq(b.numRelations, i requires 0 <= i < b.numRelations =>
      Entry(b, i).(charBits := if hasChar then b.charBits[i] else 0))
  }

  function NewOnly(r: Relation, seen: set<nat>): seq<Relation> {
    if Hash(r) in seen then [] else [r]
  }

  method AppendIfNew(dest: Batch, seen: set<nat>, src: Batch, i: nat, bits: bv32)
    returns (r: Batch, seenNow: set<nat>)
    requires dest.Valid() && Exact(dest) && src.Covers(i + 1)
    ensures r.Valid() && Exact(r)
    ensures Listed(r) == Listed(dest) + NewOnly(src.At(i).(charBits := bits), seen)
    ensures seenNow == seen + {Hash(src.At(i).(charBits := bits))}
  {
    hide Hash, Exact, Appended;
    var h := ComputeRelationHash(src, i);
    HashWithoutBits(src.At(i), bits);
    r, seenNow := dest, seen + {h};
    if h !in seen {
      AppendedListed(dest, src, i, bits);
      r := AppendSingleRelation(dest, src, i, bits);
    } else {
      assert Listed(dest) + [] == Listed(dest);
    }
  }

  method DedupRelations(b: Batch) returns (r: Batch)
    requires b.Valid()
    ensures b.numRelations == 0 ==> r == b
    ensures b.numRelations > 0 ==>
              r.Valid() && Exact(r) && Listed(r) == Dedup(ViewOf(b), {})
  {
    if b.numRelations == 0 {
      return b;
    }
    r := EMPTY;
    EmptyListed();
    hide Hash, Hashes, Exact, Batch.At, Listed, Dedup, ViewOf, Entry, NewOnly;
    var seen: set<nat> := {};
    var hasChar := |b.charBits| == b.numRelations;
    ghost var list := ViewOf(b);
    StartDedup(list);
    for i := 0 to b.numRelations
      invariant r.Valid() && Exact(r) && Listed(r) == Dedup(list[..i], {})
      invariant seen == Hashes(list[..i])
    {
      b.CoversLess(b.numRelations, i + 1);
      var bits := if hasChar then b.charBits[i] else 0;
      ViewAt(b, i);
      DedupStep(list, i);
      r, seen := AppendIfNew(r, seen, b, i, bits);
    }
    assert list[..b.numRelations] == list;
  }

  lemma StartDedup(list: seq<Relation>)
    ensures Dedup(list[..0], {}) == [] && Hashes(list[..0]) == {}
  {
  }

  lemma ViewAt(b: Batch, i: nat)
    requires b.Valid() && i < b.numRelations && b.Covers(i + 1)
    ensures var bits := if |b.charBits| == b.numRelations then b.charBits[i] else 0;
            ViewOf(b)[i] == b.At(i).(charBits := bits)
  {
  }

  lemma DedupStep(list: seq<Relation>, i: nat)
    requires i < |list|
    ensures Dedup(list[..i + 1], {})
            == Dedup(list[..i], {}) + NewOnly(list[i], Hashes(list[..i]))
    ensures Hashes(list[..i + 1]) == Hashes(list[..i]) + {Hash(list[i])}
  {
    hide Hash;
    DedupNext(list, i, {});
    assert {} + Hashes(list[..i]) == Hashes(list[..i]);
  }

  lemma EmptyListed()
    ensures EMPTY.Valid() && Exact(EMPTY) && Listed(EMPTY) == [] && Hashes([]) == {}
  {
  }

  // ---------------------------------------------------------------------------
  // The accumulator
  // ---------------------------------------------------------------------------

  /** Relations counted for the sources below `k`. */
  function SourceTotal(perSource: map<nat, nat>, k: nat): nat {
    if k == 0 then 0
    else SourceTotal(perSource, k - 1) + if k - 1 in perSource then perSource[k - 1] else 0
  }

  function CountOf(perSource: map<nat, nat>, id: nat): nat {
    if id in perSource then perSource[id] else 0
  }

  lemma {:induction false} SourceBumped(perSource: map<nat, nat>, id: nat, k: nat)
    ensures SourceTotal(perSource[id := CountOf(perSource, id) + 1], k)
            == SourceTotal(perSource, k) + if id < k then 1 else 0
  {
    if k > 0 {
      SourceBumped(perSource, id, k - 1);
    }
  }

  const SOURCES: nat := 256

  class RelationAccumulator {
    var accumulated: Batch
    var seen: set<nat>
    var perSource: map<nat, nat>

    /** The arrays are exact, `seen` holds the hashes of what is accumulated, all different, and
        the per-source counts add up. */
    ghost predicate Valid()
      reads this
    {
      && accumulated.Valid() && Exact(accumulated)
      && seen == Hashes(Listed(accumulated))
      && Distinct(Listed(accumulated))
      && SourceTotal(perSource, SOURCES) == accumulated.numRelations
    }

    constructor ()
      ensures Valid() && accumulated == EMPTY && seen == {}
    {
      accumulated, seen, perSource := EMPTY, {}, map[];
      new;
      EmptyListed();
      NoSources(SOURCES);
    }

    /** Relation `i` of a batch, unless its hash was seen. */
    method AddOne(batch: Batch, i: nat, sourceId: nat)
      requires Valid() && batch.Valid() && i < batch.numRelations && sourceId < SOURCES
      modifies this
      ensures Valid()
      ensures Listed(accumulated)
              == old(Listed(accumulated)) + NewOnly(Entry(batch, i), old(seen))
      ensures seen == old(seen) + {Hash(Entry(batch, i))}
      ensures forall id :: id != sourceId ==>
                CountOf(perSource, id) == CountOf(old(perSource), id)
    {
      hide Hash, Hashes, Exact, Appended, SourceTotal, Distinct;
      batch.CoversLess(batch.numRelations, i + 1);
      ghost var list, r := Listed(accumulated), Entry(batch, i);
      var h := ComputeRelationHash(batch, i);
      AddedHash(list, r);
      if h !in seen {
        var bits := if i < |batch.charBits| then batch.charBits[i] else 0;
        assert r.(charBits := bits) == r;
        AppendedListed(accumulated, batch, i, bits);
        AppendedCount(accumulated, batch, i, bits);
        SourceBumped(perSource, sourceId, SOURCES);
        accumulated := AppendSingleRelation(accumulated, batch, i, bits);
        perSource := perSource[sourceId := CountOf(perSource, sourceId) + 1];
      } else {
        assert list + [] == list;
        assert seen + {h} == seen;
      }
      seen := seen + {h};
    }

    method AddRelations(batch: Batch, sourceId: nat)
      requires Valid() && batch.Valid() && sourceId < SOURCES
      modifies this
      ensures Valid()
      ensures Listed(accumulated)
              == old(Listed(accumulated)) + Dedup(Listed(batch), old(seen))
      ensures seen == old(seen) + Hashes(Listed(batch))
      ensures forall id :: id != sourceId ==>
                CountOf(perSource, id) == CountOf(old(perSource), id)
    {
      hide Hash, Hashes, Exact, SourceTotal, Distinct, Entry, CountOf, Batch.Covers;
      ghost var start, list, seen0 := Listed(accumulated), Listed(batch), seen;
      assert start + Dedup(list[..0], seen) == start && seen + Hashes(list[..0]) == seen by {
        EmptyListed();
      }
      for i := 0 to batch.numRelations
        invariant Valid()
        invariant Listed(accumulated) == start + Dedup(list[..i], seen0)
        invariant seen == seen0 + Hashes(list[..i])
        invariant forall id :: id != sourceId ==>
                    CountOf(perSource, id) == CountOf(old(perSource), id)
      {
        DedupNext(list, i, seen0);
        assert list[i] == Entry(batch, i);
        AddOne(batch, i, sourceId);
        assert seen0 + Hashes(list[..i]) + {Hash(list[i])} == seen0 + Hashes(list[..i + 1]);
      }
      assert list[..batch.numRelations] == list;
    }
  }

  lemma AddedHash(list: seq<Relation>, r: Relation)
    ensures Hashes(list + [r]) == Hashes(list) + {Hash(r)}
    ensures Distinct(list) && Hash(r) !in Hashes(list) ==> Distinct(list + [r])
  {
    hide Hash;
    HashesConcat(list, [r]);
    OneHash(r);
  }

  lemma {:induction false} NoSources(k: nat)
    ensures SourceTotal(map[], k) == 0
  {
    if k > 0 {
      NoSources(k - 1);
    }
  }

  /** All relations of a list of batches. */
  ghost function AllOf(batches: seq<Batch>, k: nat): seq<Relation>
    requires k <= |batches| && forall i :: 0 <= i < |batches| ==> batches[i].Valid()
  {
    if k == 0 then [] else AllOf(batches, k - 1) + Listed(batches[k - 1])
  }

  lemma NothingYet(batches: seq<Batch>)
    requires forall i :: 0 <= i < |batches| ==> batches[i].Valid()
    ensures AllOf(batches, 0) == [] && Dedup(AllOf(batches, 0), {}) == []
  {
  }

  /** Feeding batches one at a time leaves the first occurrences of their concatenation. */
  method Ingest(batches: seq<Batch>, sources: seq<nat>) returns (acc: RelationAccumulator)
    requires |sources| == |batches|
    requires forall i :: 0 <= i < |batches| ==> batches[i].Valid() && sources[i] < SOURCES
    ensures fresh(acc) && acc.Valid()
    ensures Listed(acc.accumulated) == Dedup(AllOf(batches, |batches|), {})
  {
    hide Hash, Hashes, Exact, SourceTotal, Distinct, Listed, CountOf, Dedup, Batch.Covers;
    assert Dedup(AllOf(batches, 0), {}) == [] by { NothingYet(batches); }
    acc := new RelationAccumulator();
    EmptyListed();
    for i := 0 to |batches|
      invariant fresh(acc) && acc.Valid()
      invariant Listed(acc.accumulated) == Dedup(AllOf(batches, i), {})
      invariant acc.seen == Hashes(AllOf(batches, i))
    {
      DedupConcat(AllOf(batches, i), Listed(batches[i]), {});
      HashesConcat(AllOf(batches, i), Listed(batches[i]));
      assert {} + Hashes(AllOf(batches, i)) == Hashes(AllOf(batches, i));
      acc.AddRelations(batches[i], sources[i]);
    }
  }
}
