/** Coalescing: several batches merged into one, encoded, sent and decoded. */
module BatchMerge {

  import opened Basics
  import opened Bytes
  import opened ByteCodec
  import opened Relations
  import opened BatchCodec

  // ---------------------------------------------------------------------------
  // What a merge has to produce
  // ---------------------------------------------------------------------------

  ghost predicate Mergeable(batches: seq<Batch>, counts: seq<nat>) {
    && |batches| == |counts|
    && forall i :: 0 <= i < |batches| && counts[i] > 0 ==> batches[i].Covers(counts[i])
  }

  function Total(counts: seq<nat>, k: nat): nat
    requires k <= |counts|
  {
    if k == 0 then 0 else Total(counts, k - 1) + counts[k - 1]
  }

  /** Factors of the first `counts[i]` relations of batch `i`. */
  function FactorCount(batches: seq<Batch>, counts: seq<nat>, i: nat): nat
    requires i < |batches| == |counts|
  {
    if counts[i] > 0 && |batches[i].factorOffsets| > counts[i]
    then batches[i].factorOffsets[counts[i]] else 0
  }

  function TotalFactors(batches: seq<Batch>, counts: seq<nat>, k: nat): nat
    requires k <= |batches| == |counts|
  {
    if k == 0 then 0 else TotalFactors(batches, counts, k - 1) + FactorCount(batches, counts, k - 1)
  }

  /** The relations of the first `k` inputs, one after the other. */
  ghost function AllItems(batches: seq<Batch>, counts: seq<nat>, k: nat): (r: seq<Relation>)
    requires Mergeable(batches, counts) && k <= |batches|
    ensures |r| == Total(counts, k)
  {
    if k == 0 then []
    else
      AllItems(batches, counts, k - 1)
      + if counts[k - 1] == 0 then [] else Items(batches[k - 1], counts[k - 1])
  }

  ghost predicate Merged(out: Batch, batches: seq<Batch>, counts: seq<nat>)
    requires Mergeable(batches, counts)
  {
    var n := Total(counts, |counts|);
    && out.numRelations == n
    && (n == 0 ==> out == CLEARED)
    && (n > 0 ==>
          && out.Valid()
          && out.numFactors == out.factorOffsets[n] == TotalFactors(batches, counts, |batches|)
          && Items(out, n) == AllItems(batches, counts, |batches|))
  }

  // ---------------------------------------------------------------------------
  // One input pasted at the cursors
  // ---------------------------------------------------------------------------

  /** A block copy into a preallocated array. */
  function Blit<T>(dst: seq<T>, at: nat, src: seq<T>): (r: seq<T>)
    requires at + |src| <= |dst|
    ensures |r| == |dst|
    ensures forall i :: 0 <= i < |dst| ==>
              r[i] == if at <= i < at + |src| then src[i - at] else dst[i]
  {
    dst[..at] + src + dst[at + |src|..]
  }

  function Shifted(s: seq<nat>, shift: nat): (r: seq<nat>)
    ensures |r| == |s|
    ensures forall i :: 0 <= i < |r| ==> r[i] == s[i] + shift
  {
    seq(|s|, i requires 0 <= i < |s| => s[i] + shift)
  }

  /** The arrays have room for the final sizes. */
  ghost predicate Sized(out: Batch, rels: nat, facs: nat) {
    && |out.sqrtQ| == |out.signs| == |out.val2Exps| == |out.largePrimes| == |out.charBits| == rels
    && |out.factorOffsets| == rels + 1
    && |out.factorIndices| == |out.factorCounts| == facs
  }

  function Offsets(out: seq<nat>, rel: nat, fac: nat, b: Batch, n: nat): (r: seq<nat>)
    requires b.Covers(n) && n > 0 && rel + n < |out|
    ensures |r| == |out|
  {
    if rel == 0 then Blit(out, 0, b.factorOffsets[..n + 1])
    else Blit(out, rel + 1, Shifted(b.factorOffsets[1..n + 1], fac))
  }

  /** Input `b` can be pasted at the cursors. */
  ghost predicate Pastes(out: Batch, rel: nat, fac: nat, b: Batch, n: nat) {
    && b.Covers(n) && n > 0
    && rel + n <= out.numRelations && fac + b.factorOffsets[n] <= out.numFactors
    && Sized(out, out.numRelations, out.numFactors)
    && out.factorOffsets[0] == 0 && out.factorOffsets[rel] == fac && out.Covers(rel)
  }

  function Paste(out: Batch, rel: nat, fac: nat, b: Batch, n: nat): (q: Batch)
    requires Pastes(out, rel, fac, b, n)
    ensures q.numRelations == out.numRelations && q.numFactors == out.numFactors
  {
    var nf := b.factorOffsets[n];
    Batch(
      Blit(out.sqrtQ, rel, b.sqrtQ[..n]),
      Blit(out.signs, rel, b.signs[..n]),
      Blit(out.val2Exps, rel, b.val2Exps[..n]),
      Blit(out.largePrimes, rel, b.largePrimes[..n]),
      if |b.charBits| >= n then Blit(out.charBits, rel, b.charBits[..n]) else out.charBits,
      Offsets(out.factorOffsets, rel, fac, b, n),
      Blit(out.factorIndices, fac, b.factorIndices[..nf]),
      Blit(out.factorCounts, fac, b.factorCounts[..nf]),
      out.numRelations, out.numFactors)
  }

  /** The first `rel` relations are filled in, they use the first `fac` factors, and the
      character bits behind them are still zero. */
  ghost predicate Filled(out: Batch, rel: nat, fac: nat, list: seq<Relation>) {
    && |list| == rel <= out.numRelations
    && Sized(out, out.numRelations, out.numFactors)
    && fac <= out.numFactors
    && out.factorOffsets[rel] == fac
    && out.Covers(rel)
    && (forall i :: 0 <= i < rel ==> Shows(out, i, list[i]))
    && forall i :: rel <= i < out.numRelations ==> out.charBits[i] == 0
  }

  ghost predicate Shows(out: Batch, i: nat, r: Relation) {
    out.Covers(i + 1) && out.At(i) == r
  }

  lemma OffsetsPasted(out: Batch, rel: nat, fac: nat, b: Batch, n: nat)
    requires Pastes(out, rel, fac, b, n)
    ensures var o := Offsets(out.factorOffsets, rel, fac, b, n);
            && (forall i :: 0 <= i <= rel ==> o[i] == out.factorOffsets[i])
            && forall j :: 0 <= j <= n ==> o[rel + j] == b.factorOffsets[j] + fac
  {
    var o := Offsets(out.factorOffsets, rel, fac, b, n);
    if rel > 0 {
      var s := Shifted(b.factorOffsets[1..n + 1], fac);
      forall j | 0 <= j <= n ensures o[rel + j] == b.factorOffsets[j] + fac {
        if j > 0 {
          assert o[rel + j] == s[j - 1] == b.factorOffsets[1..n + 1][j - 1] + fac;
        }
      }
    }
  }

  lemma PasteCovers(out: Batch, rel: nat, fac: nat, b: Batch, n: nat)
    requires Pastes(out, rel, fac, b, n)
    ensures Paste(out, rel, fac, b, n).Covers(rel + n)
    ensures Paste(out, rel, fac, b, n).factorOffsets[rel + n] == fac + b.factorOffsets[n]
  {
    hide Blit, Offsets;
    var q := Paste(out, rel, fac, b, n);
    OffsetsPasted(out, rel, fac, b, n);
    forall i, j | 0 <= i <= j <= rel + n ensures q.factorOffsets[i] <= q.factorOffsets[j] {
      if i <= rel {
        assert q.factorOffsets[i] == out.factorOffsets[i] <= fac;
      } else {
        assert q.factorOffsets[rel + (i - rel)] == b.factorOffsets[i - rel] + fac;
      }
      if j > rel {
        assert q.factorOffsets[rel + (j - rel)] == b.factorOffsets[j - rel] + fac;
      } else {
        assert q.factorOffsets[j] == out.factorOffsets[j];
      }
    }
  }

  /** Pasting leaves the relations before the cursor alone. */
  lemma PasteKeeps(out: Batch, rel: nat, fac: nat, b: Batch, n: nat, i: nat)
    requires Pastes(out, rel, fac, b, n) && i < rel
    ensures var q := Paste(out, rel, fac, b, n);
            q.Covers(i + 1) && out.Covers(i + 1) && q.At(i) == out.At(i)
  {
    hide Offsets;
    var q := Paste(out, rel, fac, b, n);
    PasteCovers(out, rel, fac, b, n);
    OffsetsPasted(out, rel, fac, b, n);
    q.CoversLess(rel + n, i + 1);
    out.CoversLess(rel, i + 1);
    var lo, hi := out.factorOffsets[i], out.factorOffsets[i + 1];
    assert q.factorOffsets[i] == lo && q.factorOffsets[i + 1] == hi;
    assert hi <= fac;
    assert q.FactorsOf(i) == out.FactorsOf(i);
  }

  /** Behind the cursor come the relations of the input. */
  lemma PasteShows(out: Batch, rel: nat, fac: nat, b: Batch, n: nat, j: nat)
    requires Pastes(out, rel, fac, b, n) && j < n
    requires forall i :: rel <= i < out.numRelations ==> out.charBits[i] == 0
    ensures var q := Paste(out, rel, fac, b, n);
            q.Covers(rel + j + 1) && q.At(rel + j) == Item(b, n, j)
  {
    hide Offsets;
    var q := Paste(out, rel, fac, b, n);
    PasteCovers(out, rel, fac, b, n);
    OffsetsPasted(out, rel, fac, b, n);
    q.CoversLess(rel + n, rel + j + 1);
    b.CoversLess(n, j + 1);
    assert q.factorOffsets[rel + (j + 1)] == b.factorOffsets[j + 1] + fac;
    PasteFactors(out, rel, fac, b, n, j);
    hide Batch.Covers, Batch.FactorsOf;
  }

  lemma PasteFactors(out: Batch, rel: nat, fac: nat, b: Batch, n: nat, j: nat)
    requires Pastes(out, rel, fac, b, n) && j < n && b.Covers(j + 1)
    requires var q := Paste(out, rel, fac, b, n);
             && q.Covers(rel + j + 1)
             && q.factorOffsets[rel + j] == b.factorOffsets[j] + fac
             && q.factorOffsets[rel + j + 1] == b.factorOffsets[j + 1] + fac
    ensures Paste(out, rel, fac, b, n).FactorsOf(rel + j) == b.FactorsOf(j)
  {
    hide Offsets;
    var q := Paste(out, rel, fac, b, n);
    var nf, lo, hi := b.factorOffsets[n], b.factorOffsets[j], b.factorOffsets[j + 1];
    assert hi <= nf;
    hide Batch.Covers;
    forall k | 0 <= k < hi - lo ensures q.FactorsOf(rel + j)[k] == b.FactorsOf(j)[k] {
      assert q.factorIndices[lo + fac + k] == b.factorIndices[..nf][lo + k];
      assert q.factorCounts[lo + fac + k] == b.factorCounts[..nf][lo + k];
    }
  }

  lemma PasteFills(out: Batch, rel: nat, fac: nat, list: seq<Relation>, b: Batch, n: nat)
    requires Filled(out, rel, fac, list)
    requires b.Covers(n) && n > 0
    requires rel + n <= out.numRelations && fac + b.factorOffsets[n] <= out.numFactors
    ensures Pastes(out, rel, fac, b, n)
    ensures Filled(Paste(out, rel, fac, b, n), rel + n, fac + b.factorOffsets[n],
                   list + Items(b, n))
  {
    var q := Paste(out, rel, fac, b, n);
    PasteCovers(out, rel, fac, b, n);
    var all := list + Items(b, n);
    forall i | 0 <= i < rel + n ensures Shows(q, i, all[i]) {
      if i < rel {
        assert Shows(out, i, list[i]);
        PasteKeeps(out, rel, fac, b, n, i);
      } else {
        PasteShows(out, rel, fac, b, n, i - rel);
        assert all[i] == Items(b, n)[i - rel];
      }
    }
  }

  lemma {:induction false} CountsBound(batches: seq<Batch>, counts: seq<nat>, k: nat)
    requires |batches| == |counts| && k <= |counts|
    ensures Total(counts, k) <= Total(counts, |counts|)
    ensures TotalFactors(batches, counts, k) <= TotalFactors(batches, counts, |counts|)
    decreases |counts| - k
  {
    if k < |counts| {
      CountsBound(batches, counts, k + 1);
    }
  }

  lemma FilledIsMerged(out: Batch, batches: seq<Batch>, counts: seq<nat>)
    requires Mergeable(batches, counts)
    requires out.numRelations == Total(counts, |counts|) > 0
    requires out.numFactors == TotalFactors(batches, counts, |counts|)
    requires Filled(out, out.numRelations, out.numFactors,
                    AllItems(batches, counts, |batches|))
    ensures Merged(out, batches, counts)
  {
    var n, list := out.numRelations, AllItems(batches, counts, |batches|);
    forall i | 0 <= i < n ensures Items(out, n)[i] == list[i] {
      assert Shows(out, i, list[i]);
      out.CoversLess(n, i + 1);
      assert out.At(i).charBits == out.charBits[i];
    }
    assert Items(out, n) == list;
  }

  /** The sizes of the merged batch. */
  method MergedSizes(batches: seq<Batch>, counts: seq<nat>) returns (rels: nat, facs: nat)
    requires Mergeable(batches, counts)
    ensures rels == Total(counts, |counts|)
    ensures facs == TotalFactors(batches, counts, |counts|)
  {
    rels, facs := 0, 0;
    for i := 0 to |batches|
      invariant rels == Total(counts, i) && facs == TotalFactors(batches, counts, i)
    {
      var n := counts[i];
      if n == 0 {
        continue;
      }
      rels := rels + n;
      if |batches[i].factorOffsets| > n {
        facs := facs + batches[i].factorOffsets[n];
      }
    }
  }

  lemma InputFits(batches: seq<Batch>, counts: seq<nat>, i: nat)
    requires Mergeable(batches, counts) && i < |batches| && counts[i] > 0
    ensures var b, n := batches[i], counts[i];
            && b.Covers(n) && n < |b.factorOffsets|
            && Total(counts, i + 1) == Total(counts, i) + n
            && TotalFactors(batches, counts, i + 1)
               == TotalFactors(batches, counts, i) + b.factorOffsets[n]
            && AllItems(batches, counts, i + 1) == AllItems(batches, counts, i) + Items(b, n)
  {
    hide Items;
  }

  lemma NoInput(batches: seq<Batch>, counts: seq<nat>, i: nat)
    requires Mergeable(batches, counts) && i < |batches| && counts[i] == 0
    ensures Total(counts, i + 1) == Total(counts, i)
    ensures TotalFactors(batches, counts, i + 1) == TotalFactors(batches, counts, i)
    ensures AllItems(batches, counts, i + 1) == AllItems(batches, counts, i)
  {
    hide Items;
  }

  lemma InputPasted(out: Batch, batches: seq<Batch>, counts: seq<nat>, i: nat, rel: nat, fac: nat)
    requires Mergeable(batches, counts) && i < |batches| && counts[i] > 0
    requires out.numRelations == Total(counts, |counts|)
    requires out.numFactors == TotalFactors(batches, counts, |counts|)
    requires rel == Total(counts, i) && fac == TotalFactors(batches, counts, i)
    requires Filled(out, rel, fac, AllItems(batches, counts, i))
    ensures var b, n := batches[i], counts[i];
            && b.Covers(n) && n < |b.factorOffsets|
            && rel + n == Total(counts, i + 1)
            && fac + b.factorOffsets[n] == TotalFactors(batches, counts, i + 1)
            && Pastes(out, rel, fac, b, n)
            && Filled(Paste(out, rel, fac, b, n), rel + n, fac + b.factorOffsets[n],
                      AllItems(batches, counts, i + 1))
  {
    hide Items, Paste, Pastes, Filled, Sized, Batch.Covers, AllItems, Total, TotalFactors;
    InputFits(batches, counts, i);
    CountsBound(batches, counts, i + 1);
    var list := AllItems(batches, counts, i);
    FilledSized(out, rel, fac, list);
    PasteFills(out, rel, fac, list, batches[i], counts[i]);
  }

  /** The first `i` inputs are pasted and both cursors stand behind them. */
  ghost predicate Pasted(out: Batch, rel: nat, fac: nat, batches: seq<Batch>, counts: seq<nat>,
                         i: nat)
    requires Mergeable(batches, counts)
  {
    && i <= |counts|
    && out.numRelations == Total(counts, |counts|)
    && out.numFactors == TotalFactors(batches, counts, |counts|)
    && rel == Total(counts, i) && fac == TotalFactors(batches, counts, i)
    && Filled(out, rel, fac, AllItems(batches, counts, i))
  }

  /** One round of the merge: copy the arrays, advance both cursors. */
  method PasteInput(out: Batch, rel: nat, fac: nat, batches: seq<Batch>, counts: seq<nat>, i: nat)
    returns (q: Batch, nextRel: nat, nextFac: nat)
    requires Mergeable(batches, counts) && i < |batches|
    requires Pasted(out, rel, fac, batches, counts, i)
    ensures Pasted(q, nextRel, nextFac, batches, counts, i + 1)
  {
    hide Items, Paste, Pastes, Filled, Sized, Batch.Covers, AllItems, Total, TotalFactors;
    q, nextRel, nextFac := out, rel, fac;
    var b, n := batches[i], counts[i];
    if n == 0 {
      NoInput(batches, counts, i);
      return;
    }
    InputPasted(out, batches, counts, i, rel, fac);
    q := Paste(out, rel, fac, b, n);
    nextRel, nextFac := rel + n, fac + b.factorOffsets[n];
  }

  /** Arrays of the final sizes, all zero. */
  function Blank(rels: nat, facs: nat): (out: Batch)
    ensures out.numRelations == rels && out.numFactors == facs
  {
    Batch(seq(rels, _ => 0), seq(rels, _ => 0), seq(rels, _ => 0), seq(rels, _ => 0),
          seq(rels, _ => 0), seq(rels + 1, _ => 0), seq(facs, _ => 0), seq(facs, _ => 0),
          rels, facs)
  }

  /** Merges the first `counts[i]` relations of every input, with running cursors into
      preallocated arrays. */
  method MergeRelationBatches(batches: seq<Batch>, counts: seq<nat>) returns (out: Batch)
    requires Mergeable(batches, counts)
    ensures Merged(out, batches, counts)
  {
    assert |batches| == |counts|;
    hide Mergeable, Filled, AllItems, Total, TotalFactors, Merged, WithSentinel, FactorCount,
      Blank, Pasted;
    var rels, facs := MergedSizes(batches, counts);
    if rels == 0 {
      EmptyMerged(batches, counts);
      return CLEARED;
    }
    out := Blank(rels, facs);
    var rel, fac := 0, 0;
    NothingPasted(batches, counts);
    for i := 0 to |batches|
      invariant Pasted(out, rel, fac, batches, counts, i)
    {
      out, rel, fac := PasteInput(out, rel, fac, batches, counts, i);
    }
    AllPasted(out, rel, fac, batches, counts);
    out := WithSentinel(out, rels, facs);
  }

  lemma NothingPasted(batches: seq<Batch>, counts: seq<nat>)
    requires Mergeable(batches, counts)
    ensures Pasted(Blank(Total(counts, |counts|), TotalFactors(batches, counts, |counts|)), 0, 0,
                   batches, counts, 0)
  {
    StartsFilled(batches, counts, Total(counts, |counts|),
                 TotalFactors(batches, counts, |counts|));
    hide Filled, AllItems, Blank;
  }

  /** The sentinel write changes nothing any more. */
  lemma AllPasted(out: Batch, rel: nat, fac: nat, batches: seq<Batch>, counts: seq<nat>)
    requires Mergeable(batches, counts) && Total(counts, |counts|) > 0
    requires Pasted(out, rel, fac, batches, counts, |batches|)
    ensures |out.factorOffsets| > rel == Total(counts, |counts|)
    ensures fac == TotalFactors(batches, counts, |counts|)
    ensures WithSentinel(out, rel, fac) == out && Merged(out, batches, counts)
  {
    hide Filled, AllItems, WithSentinel, Merged;
    SentinelWritten(out, rel, fac, AllItems(batches, counts, |batches|));
    FilledIsMerged(out, batches, counts);
  }

  lemma EmptyMerged(batches: seq<Batch>, counts: seq<nat>)
    requires Mergeable(batches, counts) && Total(counts, |counts|) == 0
    ensures Merged(CLEARED, batches, counts)
  {
  }

  function WithSentinel(out: Batch, rels: nat, facs: nat): Batch
    requires |out.factorOffsets| > rels
  {
    out.(factorOffsets := out.factorOffsets[rels := facs])
  }

  /** The final offset already has the value the sentinel write gives it. */
  lemma SentinelWritten(out: Batch, rels: nat, facs: nat, list: seq<Relation>)
    requires Filled(out, rels, facs, list)
    ensures |out.factorOffsets| > rels && WithSentinel(out, rels, facs) == out
  {
    assert out.factorOffsets[rels := facs] == out.factorOffsets;
  }

  lemma FilledSized(out: Batch, rel: nat, fac: nat, list: seq<Relation>)
    requires Filled(out, rel, fac, list)
    ensures Sized(out, out.numRelations, out.numFactors) && out.factorOffsets[rel] == fac
  {
  }

  lemma StartsFilled(batches: seq<Batch>, counts: seq<nat>, rels: nat, facs: nat)
    requires Mergeable(batches, counts)
    ensures Total(counts, 0) == 0 == TotalFactors(batches, counts, 0)
    ensures Filled(Blank(rels, facs), 0, 0, AllItems(batches, counts, 0))
  {
  }

  // ---------------------------------------------------------------------------
  // The incremental batch message
  // ---------------------------------------------------------------------------

  ghost predicate Sendable(b: Batch, n: nat) {
    && (n > 0 ==> b.Covers(n) && Fits(b, n))
    && |Encode(b, n)| < WORD32
  }

  /** Two batches, each behind its length. */
  ghost function EncodeIncremental(full: Batch, nf: nat, partial: Batch, np: nat): seq<byte>
    requires Sendable(full, nf) && Sendable(partial, np)
  {
    var f, p := Encode(full, nf), Encode(partial, np);
    LittleEndian(|f|, 4) + (f + (LittleEndian(|p|, 4) + p))
  }

  datatype Incremental = Rejected | Accepted(full: Read<Batch>, partial: Read<Batch>)

  /** The length prefixes are checked against the data; a batch that does not decode within its
      length is left to the receiver as empty. */
  function DecodeIncremental(s: seq<byte>): Incremental {
    if |s| < 8 then Rejected
    else
      match TakeOne(s, 4)
      case Short => Rejected
      case Got(fl, s1) =>
        if fl > |s1| then Rejected
        else
          match TakeOne(s1[fl..], 4)
          case Short => Rejected
          case Got(pl, s2) =>
            if pl > |s2| then Rejected else Accepted(Decode(s1[..fl]), Decode(s2[..pl]))
  }

  lemma IncrementalRoundTrip(full: Batch, nf: nat, partial: Batch, np: nat)
    requires Sendable(full, nf) && Sendable(partial, np)
    ensures DecodeIncremental(EncodeIncremental(full, nf, partial, np))
            == Accepted(Decode(Encode(full, nf)), Decode(Encode(partial, np)))
  {
    hide Encode, Decode, TakeOne;
    Pow256Values();
    var f, p := Encode(full, nf), Encode(partial, np);
    var lp := LittleEndian(|p|, 4);
    TakeOnePut(|f|, 4, f + (lp + p));
    assert (f + (lp + p))[|f|..] == lp + p && (f + (lp + p))[..|f|] == f;
    TakeOnePut(|p|, 4, p);
    assert p[..|p|] == p;
  }

  /** A truncated message is rejected. */
  lemma IncrementalPrefix(full: Batch, nf: nat, partial: Batch, np: nat, cut: nat)
    requires Sendable(full, nf) && Sendable(partial, np)
    requires cut < |EncodeIncremental(full, nf, partial, np)|
    ensures DecodeIncremental(EncodeIncremental(full, nf, partial, np)[..cut]).Rejected?
  {
    hide Encode, Decode;
    Pow256Values();
    var s := EncodeIncremental(full, nf, partial, np);
    var f, p := Encode(full, nf), Encode(partial, np);
    var lf, lp := LittleEndian(|f|, 4), LittleEndian(|p|, 4);
    if cut >= 8 {
      assert s[..cut][..4] == lf;
      LittleEndianRoundTrip(|f|, 4);
      if 4 + |f| + 4 <= cut {
        assert s[..cut][4..][|f|..][..4] == lp;
        LittleEndianRoundTrip(|p|, 4);
      }
    }
  }

  /** The relations a received batch holds. */
  ghost predicate Holds(r: Read<Batch>, list: seq<Relation>) {
    && r.Got?
    && r.value.numRelations == |list|
    && (|list| > 0 ==> r.value.Valid() && Items(r.value, |list|) == list)
  }

  lemma SentBatchHolds(out: Batch, batches: seq<Batch>, counts: seq<nat>)
    requires Mergeable(batches, counts) && Merged(out, batches, counts)
    requires Sendable(out, out.numRelations)
    ensures Holds(Decode(Encode(out, out.numRelations)), AllItems(batches, counts, |batches|))
  {
    hide Encode, Decode, Items;
    var n := out.numRelations;
    assert Encode(out, n) + [] == Encode(out, n);
    if n == 0 {
      EmptyRoundTrip(out, []);
    } else {
      RoundTrip(out, n, []);
    }
  }

  /** Coalescing, encoding and decoding together are concatenation. */
  lemma CoalescedIsConcatenation(full: Batch, fulls: seq<Batch>, fullCounts: seq<nat>,
                                 partial: Batch, partials: seq<Batch>, partialCounts: seq<nat>)
    requires Mergeable(fulls, fullCounts) && Merged(full, fulls, fullCounts)
    requires Mergeable(partials, partialCounts) && Merged(partial, partials, partialCounts)
    requires Sendable(full, full.numRelations) && Sendable(partial, partial.numRelations)
    ensures var r := DecodeIncremental(EncodeIncremental(full, full.numRelations, partial,
                                                        partial.numRelations));
            && r.Accepted?
            && Holds(r.full, AllItems(fulls, fullCounts, |fulls|))
            && Holds(r.partial, AllItems(partials, partialCounts, |partials|))
  {
    hide Encode, Decode, Merged, Holds, DecodeIncremental, EncodeIncremental;
    IncrementalRoundTrip(full, full.numRelations, partial, partial.numRelations);
    SentBatchHolds(full, fulls, fullCounts);
    SentBatchHolds(partial, partials, partialCounts);
  }
}
