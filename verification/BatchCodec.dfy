/** The wire form of a relation batch, and the merge of several batches into one. */
module BatchCodec {

  import opened Basics
  import opened Bytes
  import opened ByteCodec
  import opened Relations

  // ---------------------------------------------------------------------------
  // What a batch says about its first n relations
  // ---------------------------------------------------------------------------

  /** Relation `i` of the first `n`, as a transfer of `n` relations sees it: the character bits
      count only if there is one for each. */
  function Item(b: Batch, n: nat, i: nat): Relation
    requires i < n && b.Covers(n)
  {
    b.CoversLess(n, i + 1);
    b.At(i).(charBits := if |b.charBits| >= n then b.charBits[i] else 0)
  }

  function Items(b: Batch, n: nat): (r: seq<Relation>)
    requires b.Covers(n)
    ensures |r| == n
  {
    seq(n, i requires 0 <= i < n => Item(b, n, i))
  }

  /** The values fit the C++ types of the arrays and of the two header words. */
  ghost predicate Fits(b: Batch, n: nat)
    requires b.Covers(n)
  {
    && n < WORD32 && b.factorOffsets[n] < WORD32
    && Below(b.sqrtQ[..n], Pow256(64)) && Below(b.signs[..n], Pow256(1))
    && Int32s(b.val2Exps[..n]) && Below(b.largePrimes[..n], Pow256(16))
    && Below(b.factorIndices[..b.factorOffsets[n]], Pow256(4))
    && Below(b.factorCounts[..b.factorOffsets[n]], Pow256(1))
  }

  // ---------------------------------------------------------------------------
  // Encoding and decoding
  // ---------------------------------------------------------------------------

  function Shape(n: nat, nf: nat): seq<Section> {
    [Section(n, 64), Section(n, 1), Section(n, 4), Section(n, 16), Section(n, 4),
     Section(n + 1, 8), Section(nf, 4), Section(nf, 1)]
  }

  /** The bits of the first `n` relations, or zeros if the batch has too few. */
  function BitsFor(b: Batch, n: nat): (r: seq<bv32>)
    ensures |r| == n
  {
    if |b.charBits| >= n then b.charBits[..n] else seq(n, _ => 0)
  }

  ghost function Arrays(b: Batch, n: nat): (xs: seq<seq<nat>>)
    requires b.Covers(n) && Fits(b, n)
  {
    var nf := b.factorOffsets[n];
    [b.sqrtQ[..n], b.signs[..n], ToWords(b.val2Exps[..n]), b.largePrimes[..n],
     BitsToWords(BitsFor(b, n)), b.factorOffsets[..n + 1], b.factorIndices[..nf],
     b.factorCounts[..nf]]
  }

  lemma ArraysShaped(b: Batch, n: nat)
    requires b.Covers(n) && Fits(b, n)
    ensures Shaped(Arrays(b, n), Shape(n, b.factorOffsets[n]))
  {
    Pow256Values();
    var offsets := b.factorOffsets[..n + 1];
    forall i | 0 <= i < |offsets| ensures offsets[i] < Pow256(8) {
      assert offsets[i] == b.factorOffsets[i] <= b.factorOffsets[n];
    }
  }

  /** The bytes of a batch: for no relations just the two header words. */
  ghost function Encode(b: Batch, n: nat): seq<byte>
    requires n > 0 ==> b.Covers(n) && Fits(b, n)
  {
    if n == 0 then LittleEndian(0, 4) + LittleEndian(0, 4)
    else
      var nf := b.factorOffsets[n];
      LittleEndian(n, 4) + (LittleEndian(nf, 4) + PutFrom(Arrays(b, n), Shape(n, nf), 0))
  }

  function EmptyBatch(nf: nat): Batch {
    Batch([], [], [], [], [], [0], seq(nf, _ => 0), seq(nf, _ => 0), 0, nf)
  }

  function BatchOf(n: nat, nf: nat, xs: seq<seq<nat>>): Batch
    requires Shaped(xs, Shape(n, nf))
  {
    Pow256Values();
    Batch(xs[0], xs[1], FromWords(xs[2]), xs[3], WordsToBits(xs[4]), xs[5], xs[6], xs[7], n, nf)
  }

  /** Reads a batch off the front; the bytes behind it are left. */
  function Decode(s: seq<byte>): Read<Batch> {
    match TakeOne(s, 4)
    case Short => Short
    case Got(n, s1) =>
      match TakeOne(s1, 4)
      case Short => Short
      case Got(nf, s2) =>
        if n == 0 then Got(EmptyBatch(nf), s2)
        else
          match TakeFrom(s2, Shape(n, nf), 0)
          case Short => Short
          case Got(xs, rest) =>
            TakeFromShaped(s2, Shape(n, nf), 0);
            assert Shape(n, nf)[0..] == Shape(n, nf);
            Got(BatchOf(n, nf, xs), rest)
  }

  /** Decoding returns the arrays that were written and leaves what follows them. */
  lemma DecodeEncode(b: Batch, n: nat, rest: seq<byte>)
    requires n > 0 && b.Covers(n) && Fits(b, n)
    ensures Shaped(Arrays(b, n), Shape(n, b.factorOffsets[n]))
    ensures Decode(Encode(b, n) + rest)
            == Got(BatchOf(n, b.factorOffsets[n], Arrays(b, n)), rest)
  {
    hide TakeOne, TakeFrom, PutFrom, Arrays, Shape, BatchOf;
    var nf := b.factorOffsets[n];
    ArraysShaped(b, n);
    var h0, h1 := LittleEndian(n, 4), LittleEndian(nf, 4);
    var body := PutFrom(Arrays(b, n), Shape(n, nf), 0);
    assert (h0 + (h1 + body)) + rest == h0 + (h1 + (body + rest));
    Pow256Values();
    TakeOnePut(n, 4, h1 + (body + rest));
    TakeOnePut(nf, 4, body + rest);
    TakeFromPut(Arrays(b, n), Shape(n, nf), 0, rest);
    assert Arrays(b, n)[0..] == Arrays(b, n);
  }

  /** Two batches with the same first entries describe the same relations. */
  lemma SameItems(b: Batch, c: Batch, n: nat)
    requires b.Covers(n) && |c.sqrtQ| >= n && |c.signs| >= n && |c.val2Exps| >= n
    requires |c.largePrimes| >= n && |c.charBits| >= n && |c.factorOffsets| > n
    requires c.sqrtQ[..n] == b.sqrtQ[..n] && c.signs[..n] == b.signs[..n]
    requires c.val2Exps[..n] == b.val2Exps[..n] && c.largePrimes[..n] == b.largePrimes[..n]
    requires c.charBits[..n] == BitsFor(b, n)
    requires c.factorOffsets[..n + 1] == b.factorOffsets[..n + 1]
    requires var nf := b.factorOffsets[n];
             && |c.factorIndices| >= nf && |c.factorCounts| >= nf
             && c.factorIndices[..nf] == b.factorIndices[..nf]
             && c.factorCounts[..nf] == b.factorCounts[..nf]
    ensures c.Covers(n) && Items(c, n) == Items(b, n)
  {
    SamePrefix(b.factorOffsets, c.factorOffsets, n + 1);
    forall i | 0 <= i < n ensures Item(c, n, i) == Item(b, n, i) {
      SameItem(b, c, n, i);
    }
  }

  lemma SamePrefix<T>(s: seq<T>, t: seq<T>, n: nat)
    requires n <= |s| && n <= |t| && s[..n] == t[..n]
    ensures forall i :: 0 <= i < n ==> s[i] == t[i]
  {
    forall i | 0 <= i < n ensures s[i] == t[i] {
      assert s[..n][i] == t[..n][i];
    }
  }

  lemma SameItem(b: Batch, c: Batch, n: nat, i: nat)
    requires i < n && b.Covers(n) && c.Covers(n) && |c.charBits| >= n
    requires c.sqrtQ[..n] == b.sqrtQ[..n] && c.signs[..n] == b.signs[..n]
    requires c.val2Exps[..n] == b.val2Exps[..n] && c.largePrimes[..n] == b.largePrimes[..n]
    requires c.charBits[..n] == BitsFor(b, n)
    requires c.factorOffsets[i] == b.factorOffsets[i]
    requires c.factorOffsets[i + 1] == b.factorOffsets[i + 1]
    requires var nf := b.factorOffsets[n];
             && |c.factorIndices| >= nf && |c.factorCounts| >= nf
             && c.factorIndices[..nf] == b.factorIndices[..nf]
             && c.factorCounts[..nf] == b.factorCounts[..nf]
    ensures Item(c, n, i) == Item(b, n, i)
  {
    var nf, lo, hi := b.factorOffsets[n], b.factorOffsets[i], b.factorOffsets[i + 1];
    b.CoversLess(n, i + 1);
    c.CoversLess(n, i + 1);
    assert c.sqrtQ[..n][i] == b.sqrtQ[..n][i] && c.signs[..n][i] == b.signs[..n][i];
    assert c.val2Exps[..n][i] == b.val2Exps[..n][i];
    assert c.largePrimes[..n][i] == b.largePrimes[..n][i];
    assert c.charBits[..n][i] == BitsFor(b, n)[i];
    assert hi <= nf;
    forall k | 0 <= k < hi - lo ensures c.FactorsOf(i)[k] == b.FactorsOf(i)[k] {
      assert c.factorIndices[..nf][lo + k] == b.factorIndices[..nf][lo + k];
      assert c.factorCounts[..nf][lo + k] == b.factorCounts[..nf][lo + k];
    }
    assert c.FactorsOf(i) == b.FactorsOf(i);
  }

  /** Decoding an encoded batch gives back its first `n` relations with their factors. */
  lemma RoundTrip(b: Batch, n: nat, rest: seq<byte>)
    requires n > 0 && b.Covers(n) && Fits(b, n)
    ensures var d := Decode(Encode(b, n) + rest);
            && d.Got? && d.rest == rest
            && d.value.Valid() && d.value.numRelations == n
            && d.value.numFactors == b.factorOffsets[n]
            && Items(d.value, n) == Items(b, n)
  {
    hide Decode, Encode;
    DecodeEncode(b, n, rest);
    var nf := b.factorOffsets[n];
    var c := BatchOf(n, nf, Arrays(b, n));
    FromToWords(b.val2Exps[..n]);
    BitsRoundTrip(BitsFor(b, n));
    SameItems(b, c, n);
  }

  /** The encoding of no relations is a header that decodes to the empty batch. */
  lemma EmptyRoundTrip(b: Batch, rest: seq<byte>)
    ensures Decode(Encode(b, 0) + rest) == Got(EmptyBatch(0), rest)
  {
    var h := LittleEndian(0, 4);
    assert Encode(b, 0) + rest == h + (h + rest);
    Pow256Values();
    TakeOnePut(0, 4, h + rest);
    TakeOnePut(0, 4, rest);
    assert EmptyBatch(0) == Batch([], [], [], [], [], [0], [], [], 0, 0);
  }

  lemma DecodeExtends(s: seq<byte>, more: seq<byte>)
    requires Decode(s).Got?
    ensures Decode(s + more) == Got(Decode(s).value, Decode(s).rest + more)
  {
    hide TakeOne, TakeFrom, BatchOf, Shape;
    TakeOneExtends(s, 4, more);
    var t0 := TakeOne(s, 4);
    TakeOneExtends(t0.rest, 4, more);
    var t1 := TakeOne(t0.rest, 4);
    if t0.value != 0 {
      TakeFromExtends(t1.rest, Shape(t0.value, t1.value), 0, more);
    }
  }

  /** No strict prefix of an encoding decodes. */
  lemma PrefixIsRejected(b: Batch, n: nat, cut: nat)
    requires n > 0 && b.Covers(n) && Fits(b, n)
    requires cut < |Encode(b, n)|
    ensures Decode(Encode(b, n)[..cut]).Short?
  {
    hide Decode, Encode;
    var s := Encode(b, n);
    if Decode(s[..cut]).Got? {
      DecodeExtends(s[..cut], s[cut..]);
      assert s[..cut] + s[cut..] == s && s + [] == s;
      DecodeEncode(b, n, []);
    }
  }
}
