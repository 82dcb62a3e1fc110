/** The version 2 relation file: header, metadata, smooth relations and partials. */
module RelationFile {

  import opened Basics
  import opened Bytes
  import opened ByteCodec
  import opened Relations

  const V2_MAGIC: seq<nat> := [77, 80, 81, 83, 95, 86, 50, 0]
  const FLAG_HAS_PARTIALS: nat := 1
  const FLAG_HAS_METADATA: nat := 2
  const FLAG_HAS_CHAR_BITS: nat := 4

  datatype Meta = Meta(
    N: nat,
    factorBase: seq<nat>,
    lpBound: nat,
    sieveBound: nat,
    auxPrimes: seq<nat>,
    tS: seq<nat>,
    r: nat,
    hasCharBits: bool)

  /** What a reader gets. */
  datatype Contents = Contents(full: Batch, partials: Batch, meta: Meta)

  const NO_META := Meta(0, [], 0, 0, [], [], 0, false)

  // ---------------------------------------------------------------------------
  // One batch
  // ---------------------------------------------------------------------------

  const WIDTHS: seq<nat> := [64, 1, 4, 16, 8, 4, 1]

  function Widths(hasChar: bool): seq<nat> {
    if hasChar then WIDTHS + [4] else WIDTHS
  }

  /** The values fit the element types, the lengths the 64-bit counters. */
  ghost predicate BatchFits(b: Batch) {
    && b.numRelations < WORD64 && b.numFactors < WORD64
    && Int32s(b.val2Exps)
    && VecsFit(Vecs(b, true), Widths(true))
  }

  ghost function Vecs(b: Batch, hasChar: bool): (xs: seq<seq<nat>>)
    requires Int32s(b.val2Exps)
    ensures |xs| == |Widths(hasChar)|
  {
    [b.sqrtQ, b.signs, ToWords(b.val2Exps), b.largePrimes, b.factorOffsets, b.factorIndices,
     b.factorCounts] + if hasChar then [BitsToWords(b.charBits)] else []
  }

  ghost function PutBatch(b: Batch, hasChar: bool): seq<byte>
    requires BatchFits(b)
  {
    LittleEndian(b.numRelations, 8)
    + (LittleEndian(b.numFactors, 8) + PutVecs(Vecs(b, hasChar), Widths(hasChar), 0))
  }

  function BatchOf(nr: nat, nf: nat, xs: seq<seq<nat>>): Batch
    requires |xs| == 7 || (|xs| == 8 && Below(xs[7], WORD32))
  {
    Batch(xs[0], xs[1], FromWords(xs[2]), xs[3], if |xs| == 8 then WordsToBits(xs[7]) else [],
          xs[4], xs[5], xs[6], nr, nf)
  }

  function TakeBatch(s: seq<byte>, hasChar: bool): Read<Batch> {
    match TakeOne(s, 8)
    case Short => Short
    case Got(nr, s1) =>
      match TakeOne(s1, 8)
      case Short => Short
      case Got(nf, s2) =>
        match TakeVecs(s2, Widths(hasChar), 0)
        case Short => Short
        case Got(xs, rest) =>
          Pow256Values();
          TakeVecsBelow(s2, Widths(hasChar), 0);
          assert hasChar ==> Below(xs[7], Pow256(Widths(hasChar)[0 + 7]));
          Got(BatchOf(nr, nf, xs), rest)
  }

  /** What survives of a batch: everything, the character bits only if they are written. */
  function Kept(b: Batch, hasChar: bool): Batch {
    if hasChar then b else b.(charBits := [])
  }

  lemma VecsShape(b: Batch, hasChar: bool)
    requires BatchFits(b)
    ensures VecsFit(Vecs(b, hasChar), Widths(hasChar))
  {
    var all := Vecs(b, true);
    if !hasChar {
      var xs, ws := Vecs(b, false), Widths(false);
      forall i | 0 <= i < |xs| ensures |xs[i]| < WORD64 && Below(xs[i], Pow256(ws[i])) {
        assert xs[i] == all[i] && ws[i] == Widths(true)[i];
      }
    }
  }

  /** The lists of a batch are the batch again, up to the unwritten character bits. */
  lemma VecsBack(b: Batch, hasChar: bool)
    requires BatchFits(b)
    ensures var xs := Vecs(b, hasChar);
            && (|xs| == 7 || (|xs| == 8 && Below(xs[7], WORD32)))
            && BatchOf(b.numRelations, b.numFactors, xs) == Kept(b, hasChar)
  {
    var xs := Vecs(b, hasChar);
    assert xs[2] == ToWords(b.val2Exps) && (hasChar ==> xs[7] == BitsToWords(b.charBits));
    FromToWords(b.val2Exps);
    BitsRoundTrip(b.charBits);
  }

  lemma TakeBatchPut(b: Batch, hasChar: bool, rest: seq<byte>)
    requires BatchFits(b)
    ensures TakeBatch(PutBatch(b, hasChar) + rest, hasChar) == Got(Kept(b, hasChar), rest)
  {
    var xs := Vecs(b, hasChar);
    VecsBack(b, hasChar);
    VecsShape(b, hasChar);
    hide TakeOne, TakeVecs, PutVecs, Vecs, Widths, BatchOf, Kept, ToWords, FromWords;
    var n, f := LittleEndian(b.numRelations, 8), LittleEndian(b.numFactors, 8);
    var v := PutVecs(xs, Widths(hasChar), 0);
    assert (n + (f + v)) + rest == n + (f + (v + rest));
    Pow256Values();
    TakeOnePut(b.numRelations, 8, f + (v + rest));
    TakeOnePut(b.numFactors, 8, v + rest);
    TakeVecsPut(xs, Widths(hasChar), 0, rest);
    assert xs[0..] == xs;
  }

  lemma TakeBatchExtends(s: seq<byte>, hasChar: bool, more: seq<byte>)
    requires TakeBatch(s, hasChar).Got?
    ensures TakeBatch(s + more, hasChar)
            == Got(TakeBatch(s, hasChar).value, TakeBatch(s, hasChar).rest + more)
  {
    hide TakeOne, TakeVecs, Widths, BatchOf;
    TakeOneExtends(s, 8, more);
    var s1 := TakeOne(s, 8).rest;
    TakeOneExtends(s1, 8, more);
    TakeVecsExtends(TakeOne(s1, 8).rest, Widths(hasChar), 0, more);
  }

  // ---------------------------------------------------------------------------
  // Metadata
  // ---------------------------------------------------------------------------

  ghost predicate MetaFits(m: Meta) {
    && m.N < Pow256(64) && m.lpBound < WORD64 && m.sieveBound < WORD32
    && |m.factorBase| < WORD32 && Below(m.factorBase, WORD32)
    && m.r < WORD32 && m.r <= |m.auxPrimes| && m.r <= |m.tS|
    && Below(m.auxPrimes[..m.r], WORD64) && Below(m.tS[..m.r], WORD64)
  }

  function PutMeta(m: Meta): seq<byte>
    requires m.r <= |m.auxPrimes| && m.r <= |m.tS|
  {
    LittleEndian(m.N, 64) + (LittleEndian(|m.factorBase|, 4) + (PutWords(m.factorBase, 4)
    + (LittleEndian(m.lpBound, 8) + (LittleEndian(m.sieveBound, 4) + PutExtension(m)))))
  }

  /** Auxiliary primes and roots, only if there are any. */
  function PutExtension(m: Meta): seq<byte>
    requires m.r <= |m.auxPrimes| && m.r <= |m.tS|
  {
    if m.r == 0 then []
    else LittleEndian(m.r, 4) + (PutWords(m.auxPrimes[..m.r], 8) + PutWords(m.tS[..m.r], 8))
  }

  function TakeMeta(s: seq<byte>, hasChar: bool): Read<Meta> {
    match TakeOne(s, 64)
    case Short => Short
    case Got(n, s1) =>
      match TakeOne(s1, 4)
      case Short => Short
      case Got(fb, s2) =>
        match Take(s2, fb, 4)
        case Short => Short
        case Got(base, s3) =>
          match TakeOne(s3, 8)
          case Short => Short
          case Got(lp, s4) =>
            match TakeOne(s4, 4)
            case Short => Short
            case Got(sb, s5) =>
              var m := Meta(n, base, lp, sb, [], [], 0, hasChar);
              if hasChar then TakeExtension(s5, m) else Got(m, s5)
  }

  function TakeExtension(s: seq<byte>, m: Meta): Read<Meta> {
    match TakeOne(s, 4)
    case Short => Short
    case Got(r, s1) =>
      match Take(s1, r, 8)
      case Short => Short
      case Got(aux, s2) =>
        match Take(s2, r, 8)
        case Short => Short
        case Got(t, rest) => Got(m.(auxPrimes := aux, tS := t, r := r), rest)
  }

  /** The metadata a reader gets back. */
  function KeptMeta(m: Meta): Meta
    requires m.r <= |m.auxPrimes| && m.r <= |m.tS|
  {
    m.(auxPrimes := m.auxPrimes[..m.r], tS := m.tS[..m.r], hasCharBits := m.r > 0)
  }

  lemma TakeExtensionPut(m: Meta, base: Meta, rest: seq<byte>)
    requires MetaFits(m) && m.r > 0
    ensures TakeExtension(PutExtension(m) + rest, base)
            == Got(base.(auxPrimes := m.auxPrimes[..m.r], tS := m.tS[..m.r], r := m.r), rest)
  {
    hide Take, TakeOne, PutWords, LittleEndian;
    var r, a, t := LittleEndian(m.r, 4), PutWords(m.auxPrimes[..m.r], 8), PutWords(m.tS[..m.r], 8);
    assert (r + (a + t)) + rest == r + (a + (t + rest));
    Pow256Values();
    TakeOnePut(m.r, 4, a + (t + rest));
    TakePut(m.auxPrimes[..m.r], 8, t + rest);
    TakePut(m.tS[..m.r], 8, rest);
  }

  lemma TakeMetaPut(m: Meta, rest: seq<byte>)
    requires MetaFits(m)
    ensures TakeMeta(PutMeta(m) + rest, m.r > 0) == Got(KeptMeta(m), rest)
  {
    hide Take, TakeOne, PutWords, LittleEndian, PutExtension, TakeExtension;
    var n, f, b := LittleEndian(m.N, 64), LittleEndian(|m.factorBase|, 4),
                   PutWords(m.factorBase, 4);
    var l, s, e := LittleEndian(m.lpBound, 8), LittleEndian(m.sieveBound, 4), PutExtension(m);
    assert (n + (f + (b + (l + (s + e))))) + rest == n + (f + (b + (l + (s + (e + rest)))));
    Pow256Values();
    TakeOnePut(m.N, 64, f + (b + (l + (s + (e + rest)))));
    TakeOnePut(|m.factorBase|, 4, b + (l + (s + (e + rest))));
    TakePut(m.factorBase, 4, l + (s + (e + rest)));
    TakeOnePut(m.lpBound, 8, s + (e + rest));
    TakeOnePut(m.sieveBound, 4, e + rest);
    if m.r > 0 {
      TakeExtensionPut(m, Meta(m.N, m.factorBase, m.lpBound, m.sieveBound, [], [], 0, true), rest);
    } else {
      NoExtension(m);
      assert [] + rest == rest;
      assert m.auxPrimes[..0] == [] && m.tS[..0] == [];
    }
  }

  lemma NoExtension(m: Meta)
    requires m.r == 0
    ensures PutExtension(m) == []
  {
  }

  lemma TakeMetaExtends(s: seq<byte>, hasChar: bool, more: seq<byte>)
    requires TakeMeta(s, hasChar).Got?
    ensures TakeMeta(s + more, hasChar)
            == Got(TakeMeta(s, hasChar).value, TakeMeta(s, hasChar).rest + more)
  {
    hide Take, TakeOne;
    var t1 := TakeOne(s, 64);
    TakeOneExtends(s, 64, more);
    var t2 := TakeOne(t1.rest, 4);
    TakeOneExtends(t1.rest, 4, more);
    var t3 := Take(t2.rest, t2.value, 4);
    TakeExtends(t2.rest, t2.value, 4, more);
    var t4 := TakeOne(t3.rest, 8);
    TakeOneExtends(t3.rest, 8, more);
    var t5 := TakeOne(t4.rest, 4);
    TakeOneExtends(t4.rest, 4, more);
    if hasChar {
      var t6 := TakeOne(t5.rest, 4);
      TakeOneExtends(t5.rest, 4, more);
      var t7 := Take(t6.rest, t6.value, 8);
      TakeExtends(t6.rest, t6.value, 8, more);
      TakeExtends(t7.rest, t6.value, 8, more);
    }
  }

  // ---------------------------------------------------------------------------
  // The file
  // ---------------------------------------------------------------------------

  const HEADER := [Section(8, 1), Section(1, 4), Section(1, 4)]

  function Flags(partials: Batch, m: Meta): nat {
    FLAG_HAS_METADATA
    + (if partials.numRelations > 0 then FLAG_HAS_PARTIALS else 0)
    + if m.r > 0 then FLAG_HAS_CHAR_BITS else 0
  }

  predicate HasFlag(flags: nat, flag: nat)
    requires flag > 0
  {
    flags / flag % 2 == 1
  }

  ghost predicate FileFits(full: Batch, partials: Batch, m: Meta) {
    BatchFits(full) && BatchFits(partials) && MetaFits(m)
  }

  ghost function PutPartials(partials: Batch, m: Meta): seq<byte>
    requires BatchFits(partials)
  {
    if partials.numRelations > 0 then PutBatch(partials, m.r > 0) else []
  }

  ghost function PutSections(full: Batch, partials: Batch, m: Meta): seq<byte>
    requires FileFits(full, partials, m)
  {
    PutMeta(m) + (PutBatch(full, m.r > 0) + PutPartials(partials, m))
  }

  /** The bytes of a relation file. */
  ghost function SerializeV2(full: Batch, partials: Batch, m: Meta): seq<byte>
    requires FileFits(full, partials, m)
  {
    PutFrom([V2_MAGIC, [2], [Flags(partials, m)]], HEADER, 0) + PutSections(full, partials, m)
  }

  /** Reads section by section; what follows the last section is ignored. `Short` stands for any
      failure. */
  function DeserializeV2(s: seq<byte>): Read<Contents> {
    match TakeFrom(s, HEADER, 0)
    case Short => Short
    case Got(h, s1) =>
      TakeFromShaped(s, HEADER, 0);
      assert HEADER[0..] == HEADER;
      var flags := h[2][0];
      if h[0] != V2_MAGIC || h[1] != [2] then Short else ReadSections(s1, flags)
  }

  function ReadSections(s: seq<byte>, flags: nat): Read<Contents> {
    var hasChar := HasFlag(flags, FLAG_HAS_CHAR_BITS);
    var meta := if HasFlag(flags, FLAG_HAS_METADATA) then TakeMeta(s, hasChar)
                else Got(NO_META.(hasCharBits := hasChar), s);
    match meta
    case Short => Short
    case Got(m, s1) =>
      match TakeBatch(s1, hasChar)
      case Short => Short
      case Got(full, s2) =>
        if HasFlag(flags, FLAG_HAS_PARTIALS) then
          match TakeBatch(s2, hasChar)
          case Short => Short
          case Got(partials, rest) => Got(Contents(full, partials, m), rest)
        else Got(Contents(full, CLEARED, m), s2)
  }

  /** What a file keeps of its inputs: character bits and auxiliary primes only for `r > 0`,
      partials only if there are any. */
  function KeptContents(full: Batch, partials: Batch, m: Meta): Contents
    requires m.r <= |m.auxPrimes| && m.r <= |m.tS|
  {
    Contents(Kept(full, m.r > 0),
             if partials.numRelations > 0 then Kept(partials, m.r > 0) else CLEARED,
             KeptMeta(m))
  }

  lemma FlagsRead(partials: Batch, m: Meta)
    ensures var f := Flags(partials, m);
            && f < 8
            && HasFlag(f, FLAG_HAS_METADATA)
            && (HasFlag(f, FLAG_HAS_PARTIALS) <==> partials.numRelations > 0)
            && (HasFlag(f, FLAG_HAS_CHAR_BITS) <==> m.r > 0)
  {
  }

  lemma SectionsRoundTrip(full: Batch, partials: Batch, m: Meta, rest: seq<byte>)
    requires FileFits(full, partials, m)
    ensures ReadSections(PutSections(full, partials, m) + rest, Flags(partials, m))
            == Got(KeptContents(full, partials, m), rest)
  {
    FlagsRead(partials, m);
    hide TakeMeta, PutMeta, TakeBatch, PutBatch, Flags, HasFlag, Kept, KeptMeta, BatchFits;
    var k, f, p := PutMeta(m), PutBatch(full, m.r > 0), PutPartials(partials, m);
    assert (k + (f + p)) + rest == k + (f + (p + rest));
    TakeMetaPut(m, f + (p + rest));
    TakeBatchPut(full, m.r > 0, p + rest);
    if partials.numRelations > 0 {
      TakeBatchPut(partials, m.r > 0, rest);
    } else {
      assert [] + rest == rest;
    }
  }

  lemma HeaderRoundTrip(flags: nat, s: seq<byte>)
    requires flags < 8
    ensures DeserializeV2(PutFrom([V2_MAGIC, [2], [flags]], HEADER, 0) + s)
            == ReadSections(s, flags)
  {
    var xs := [V2_MAGIC, [2], [flags]];
    assert Shaped(xs, HEADER) by {
      Pow256Values();
    }
    hide TakeFrom, PutFrom, ReadSections;
    TakeFromPut(xs, HEADER, 0, s);
    assert xs[0..] == xs;
  }

  /** Reading recovers what was written, whatever bytes follow. */
  lemma FileRoundTrip(full: Batch, partials: Batch, m: Meta, rest: seq<byte>)
    requires FileFits(full, partials, m)
    ensures DeserializeV2(SerializeV2(full, partials, m) + rest)
            == Got(KeptContents(full, partials, m), rest)
  {
    hide PutFrom, PutSections, DeserializeV2, ReadSections, KeptContents, Flags, HasFlag, FileFits;
    FlagsRead(partials, m);
    SectionsRoundTrip(full, partials, m, rest);
    HeaderRoundTrip(Flags(partials, m), PutSections(full, partials, m) + rest);
    var h := PutFrom([V2_MAGIC, [2], [Flags(partials, m)]], HEADER, 0);
    assert (h + PutSections(full, partials, m)) + rest == h + (PutSections(full, partials, m) + rest);
  }

  lemma FileExtends(s: seq<byte>, more: seq<byte>)
    requires DeserializeV2(s).Got?
    ensures DeserializeV2(s + more)
            == Got(DeserializeV2(s).value, DeserializeV2(s).rest + more)
  {
    hide TakeFrom, TakeMeta, TakeBatch, HasFlag;
    TakeFromExtends(s, HEADER, 0, more);
    TakeFromShaped(s, HEADER, 0);
    assert HEADER[0..] == HEADER;
    var s1, flags := TakeFrom(s, HEADER, 0).rest, TakeFrom(s, HEADER, 0).value[2][0];
    var hasChar := HasFlag(flags, FLAG_HAS_CHAR_BITS);
    if HasFlag(flags, FLAG_HAS_METADATA) {
      TakeMetaExtends(s1, hasChar, more);
    }
    var s2 := if HasFlag(flags, FLAG_HAS_METADATA) then TakeMeta(s1, hasChar).rest else s1;
    TakeBatchExtends(s2, hasChar, more);
    if HasFlag(flags, FLAG_HAS_PARTIALS) {
      TakeBatchExtends(TakeBatch(s2, hasChar).rest, hasChar, more);
    }
  }

  /** A truncated file is not readable. */
  lemma TruncatedFileFails(full: Batch, partials: Batch, m: Meta, cut: nat)
    requires FileFits(full, partials, m)
    requires cut < |SerializeV2(full, partials, m)|
    ensures DeserializeV2(SerializeV2(full, partials, m)[..cut]).Short?
  {
    hide DeserializeV2, SerializeV2;
    var s := SerializeV2(full, partials, m);
    if DeserializeV2(s[..cut]).Got? {
      FileExtends(s[..cut], s[cut..]);
      assert s[..cut] + s[cut..] == s && s + [] == s;
      FileRoundTrip(full, partials, m, []);
    }
  }

  /** A file reads only if it starts with the magic bytes and the version 2. */
  lemma HeaderChecked(s: seq<byte>)
    requires DeserializeV2(s).Got?
    ensures |s| >= 16 && s[..8] == V2_MAGIC && FromLittleEndian(s[8..12]) == 2
  {
    hide ReadSections, FromLittleEndian, GetWords;
    var s1, s2 := s[8..], s[12..];
    assert HEADER[0] == Section(8, 1) && HEADER[1] == Section(1, 4) && HEADER[2] == Section(1, 4);
    GetBytes(s[..8]);
    assert s[8..][..4] == s[8..12];
    OneWord(s[8..12], 4);
    assert s[8..][4..] == s[12..];
  }
}
