/** The relation file as it is written and read, one field after the other. */
module FileStream {

  import opened Basics
  import opened Bytes
  import opened ByteCodec
  import opened Relations
  import opened RelationFile

  // ---------------------------------------------------------------------------
  // Writing
  // ---------------------------------------------------------------------------

  /** Appends words of `k` bytes, element by element. */
  method PutEach(buf: seq<byte>, xs: seq<nat>, k: nat) returns (r: seq<byte>)
    ensures r == buf + PutWords(xs, k)
  {
    hide LittleEndian;
    r := buf;
    assert PutWords(xs[..0], k) == [];
    for i := 0 to |xs|
      invariant r == buf + PutWords(xs[..i], k)
    {
      OneMoreWord(xs, i, k);
      r := r + LittleEndian(xs[i], k);
    }
    assert xs[..|xs|] == xs;
  }

  lemma OneMoreWord(xs: seq<nat>, i: nat, k: nat)
    requires i < |xs|
    ensures PutWords(xs[..i + 1], k) == PutWords(xs[..i], k) + LittleEndian(xs[i], k)
  {
    assert xs[..i + 1] == xs[..i] + [xs[i]];
    PutWordsConcat(xs[..i], [xs[i]], k);
    assert PutWords([xs[i]], k) == LittleEndian(xs[i], k) + PutWords([], k);
  }

  /** An array behind its length. */
  function Vec(xs: seq<nat>, k: nat): seq<byte> {
    LittleEndian(|xs|, 8) + PutWords(xs, k)
  }

  method WriteVec(buf: seq<byte>, xs: seq<nat>, k: nat) returns (r: seq<byte>)
    ensures r == buf + Vec(xs, k)
  {
    hide LittleEndian, PutWords;
    r := buf + LittleEndian(|xs|, 8);
    if |xs| > 0 {
      r := PutEach(r, xs, k);
    } else {
      assert PutWords(xs, k) == [] by { NoWords(k); }
    }
  }

  lemma NoWords(k: nat)
    ensures PutWords([], k) == []
  {
  }

  /** The arrays of a batch in file order. */
  method WriteBatch(buf: seq<byte>, b: Batch, hasChar: bool) returns (r: seq<byte>)
    requires BatchFits(b)
    ensures r == buf + PutBatch(b, hasChar)
  {
    hide LittleEndian, PutVecs, VecsFit, Vec, PutBatch, Vecs, Widths;
    r := buf + LittleEndian(b.numRelations, 8);
    r := r + LittleEndian(b.numFactors, 8);
    ghost var before := r;
    r := WriteArrays(r, b);
    if hasChar {
      r := WriteVec(r, BitsToWords(b.charBits), 4);
    }
    BatchVecs(b, hasChar);
    hide Arrays;
    BatchBytes(b, hasChar);
  }

  /** The seven arrays every batch has. */
  function Arrays(b: Batch): seq<byte>
    requires Int32s(b.val2Exps)
  {
    Vec(b.sqrtQ, 64) + Vec(b.signs, 1) + Vec(ToWords(b.val2Exps), 4) + Vec(b.largePrimes, 16)
    + Vec(b.factorOffsets, 8) + Vec(b.factorIndices, 4) + Vec(b.factorCounts, 1)
  }

  method WriteArrays(buf: seq<byte>, b: Batch) returns (r: seq<byte>)
    requires Int32s(b.val2Exps)
    ensures r == buf + Arrays(b)
  {
    hide Vec, ToWords;
    r := WriteVec(buf, b.sqrtQ, 64);
    r := WriteVec(r, b.signs, 1);
    r := WriteVec(r, ToWords(b.val2Exps), 4);
    r := WriteVec(r, b.largePrimes, 16);
    r := WriteVec(r, b.factorOffsets, 8);
    r := WriteVec(r, b.factorIndices, 4);
    r := WriteVec(r, b.factorCounts, 1);
    Append7(buf, Vec(b.sqrtQ, 64), Vec(b.signs, 1), Vec(ToWords(b.val2Exps), 4),
            Vec(b.largePrimes, 16), Vec(b.factorOffsets, 8), Vec(b.factorIndices, 4),
            Vec(b.factorCounts, 1));
  }

  lemma BatchBytes(b: Batch, hasChar: bool)
    requires BatchFits(b)
    ensures PutBatch(b, hasChar)
            == LittleEndian(b.numRelations, 8) + LittleEndian(b.numFactors, 8)
               + PutVecs(Vecs(b, hasChar), Widths(hasChar), 0)
  {
    hide LittleEndian, PutVecs, Vecs, Widths, BatchFits;
  }

  lemma Append7(x: seq<byte>, a: seq<byte>, b: seq<byte>, c: seq<byte>, d: seq<byte>,
                e: seq<byte>, f: seq<byte>, g: seq<byte>)
    ensures x + a + b + c + d + e + f + g == x + (a + b + c + d + e + f + g)
  {
  }

  lemma BatchVecs(b: Batch, hasChar: bool)
    requires BatchFits(b)
    ensures PutVecs(Vecs(b, hasChar), Widths(hasChar), 0)
            == Arrays(b) + if hasChar then Vec(BitsToWords(b.charBits), 4) else []
  {
    hide Vec, ToWords, BitsToWords, VecsFit, PutVecs;
    SevenVecs(Vecs(b, hasChar), Widths(hasChar), hasChar);
  }

  lemma SevenVecs(xs: seq<seq<nat>>, ws: seq<nat>, eight: bool)
    requires |xs| == |ws| == if eight then 8 else 7
    ensures PutVecs(xs, ws, 0)
            == Vec(xs[0], ws[0]) + Vec(xs[1], ws[1]) + Vec(xs[2], ws[2]) + Vec(xs[3], ws[3])
               + Vec(xs[4], ws[4]) + Vec(xs[5], ws[5]) + Vec(xs[6], ws[6])
               + if eight then Vec(xs[7], ws[7]) else []
  {
    hide PutVecs, Vec;
    LastVec(xs, ws, eight);
    VecFirst(xs, ws, 6);
    VecFirst(xs, ws, 5);
    VecFirst(xs, ws, 4);
    VecFirst(xs, ws, 3);
    VecFirst(xs, ws, 2);
    VecFirst(xs, ws, 1);
    VecFirst(xs, ws, 0);
    Regroup(Vec(xs[0], ws[0]), Vec(xs[1], ws[1]), Vec(xs[2], ws[2]), Vec(xs[3], ws[3]),
            Vec(xs[4], ws[4]), Vec(xs[5], ws[5]), Vec(xs[6], ws[6]),
            if eight then Vec(xs[7], ws[7]) else []);
  }

  lemma LastVec(xs: seq<seq<nat>>, ws: seq<nat>, hasChar: bool)
    requires |xs| == |ws| == if hasChar then 8 else 7
    ensures PutVecs(xs, ws, 7) == if hasChar then Vec(xs[7], ws[7]) else []
  {
    hide LittleEndian, PutWords;
    if hasChar {
      assert PutVecs(xs, ws, 8) == [];
    }
  }

  lemma VecFirst(xs: seq<seq<nat>>, ws: seq<nat>, i: nat)
    requires i < |xs| == |ws|
    ensures PutVecs(xs, ws, i) == Vec(xs[i], ws[i]) + PutVecs(xs, ws, i + 1)
  {
    hide LittleEndian, PutWords;
  }

  lemma Regroup(a: seq<byte>, b: seq<byte>, c: seq<byte>, d: seq<byte>, e: seq<byte>,
                f: seq<byte>, g: seq<byte>, h: seq<byte>)
    ensures a + (b + (c + (d + (e + (f + (g + h)))))) == a + b + c + d + e + f + g + h
  {
  }

  /** Writes a relation file. */
  method WriteRelationFile(full: Batch, partials: Batch, m: Meta) returns (f: seq<byte>)
    requires FileFits(full, partials, m)
    ensures f == SerializeV2(full, partials, m)
  {
    hide LittleEndian, PutWords, PutBatch, BatchFits, PutFrom, PutMeta;
    var hasChar := m.r > 0;
    var flags := FLAG_HAS_METADATA;
    if partials.numRelations > 0 {
      flags := flags + FLAG_HAS_PARTIALS;
    }
    if hasChar {
      flags := flags + FLAG_HAS_CHAR_BITS;
    }
    f := PutWords(V2_MAGIC, 1) + LittleEndian(2, 4) + LittleEndian(flags, 4);
    HeaderBytes(flags);
    ghost var header := f;
    f := WriteMeta(f, m);
    f := WriteBatch(f, full, hasChar);
    if partials.numRelations > 0 {
      f := WriteBatch(f, partials, hasChar);
    }
    FileBytes(full, partials, m, header);
  }

  lemma FileBytes(full: Batch, partials: Batch, m: Meta, header: seq<byte>)
    requires FileFits(full, partials, m)
    requires header == PutFrom([V2_MAGIC, [2], [Flags(partials, m)]], HEADER, 0)
    ensures SerializeV2(full, partials, m)
            == header + PutMeta(m) + PutBatch(full, m.r > 0) + PutPartials(partials, m)
  {
    hide PutBatch, BatchFits, PutFrom, PutMeta, PutPartials, Flags;
  }

  lemma HeaderBytes(flags: nat)
    ensures PutFrom([V2_MAGIC, [2], [flags]], HEADER, 0)
            == PutWords(V2_MAGIC, 1) + LittleEndian(2, 4) + LittleEndian(flags, 4)
  {
    SingleWord(2, 4);
    SingleWord(flags, 4);
    hide PutWords, LittleEndian, PutFrom;
    PutThree([V2_MAGIC, [2], [flags]], HEADER);
  }

  lemma PutThree(xs: seq<seq<nat>>, sh: seq<Section>)
    requires |xs| == |sh| == 3
    ensures PutFrom(xs, sh, 0)
            == PutWords(xs[0], sh[0].width) + PutWords(xs[1], sh[1].width)
               + PutWords(xs[2], sh[2].width)
  {
    hide PutWords;
    assert PutFrom(xs, sh, 3) == [];
    assert PutFrom(xs, sh, 2) == PutWords(xs[2], sh[2].width);
    assert PutFrom(xs, sh, 1) == PutWords(xs[1], sh[1].width) + PutWords(xs[2], sh[2].width);
  }

  lemma SingleWord(n: nat, k: nat)
    ensures PutWords([n], k) == LittleEndian(n, k)
  {
    assert PutWords([n], k) == LittleEndian(n, k) + PutWords([n][1..], k);
    assert PutWords([], k) == [];
  }

  method WriteMeta(buf: seq<byte>, m: Meta) returns (f: seq<byte>)
    requires m.r <= |m.auxPrimes| && m.r <= |m.tS|
    ensures f == buf + PutMeta(m)
  {
    hide LittleEndian, PutWords;
    f := buf + LittleEndian(m.N, 64);
    f := f + LittleEndian(|m.factorBase|, 4);
    f := PutEach(f, m.factorBase, 4);
    f := f + LittleEndian(m.lpBound, 8);
    f := f + LittleEndian(m.sieveBound, 4);
    ghost var before := f;
    if m.r > 0 {
      f := f + LittleEndian(m.r, 4);
      f := PutEach(f, m.auxPrimes[..m.r], 8);
      f := PutEach(f, m.tS[..m.r], 8);
    }
    assert f == before + PutExtension(m);
  }

  // ---------------------------------------------------------------------------
  // Reading
  // ---------------------------------------------------------------------------

  /** A stream over the bytes of a file; the first short read makes every later one fail. */
  class InStream {
    const data: seq<byte>
    var pos: nat
    var good: bool

    ghost predicate Valid()
      reads this
    {
      pos <= |data|
    }

    ghost function Rest(): seq<byte>
      requires Valid()
      reads this
    {
      data[pos..]
    }

    /** Opens the file and seeks; a position behind the end makes reading fail. */
    constructor (data: seq<byte>, offset: nat)
      ensures Valid() && this.data == data && good == (offset <= |data|)
      ensures good ==> pos == offset && Rest() == data[offset..]
    {
      this.data := data;
      pos := if offset <= |data| then offset else |data|;
      good := offset <= |data|;
    }

    method ReadWords(n: nat, k: nat) returns (xs: seq<nat>)
      requires Valid()
      modifies this
      ensures Valid()
      ensures if old(good) && Take(old(Rest()), n, k).Got?
              then good && xs == Take(old(Rest()), n, k).value
                   && Rest() == Take(old(Rest()), n, k).rest
              else !good && pos == old(pos) && |xs| == n
    {
      hide GetWords;
      if !good || pos + n * k > |data| {
        good := false;
        return seq(n, _ => 0);
      }
      assert data[pos..][..n * k] == data[pos..pos + n * k];
      xs := GetWords(data[pos..pos + n * k], n, k);
      pos := pos + n * k;
    }

    method ReadWord(k: nat) returns (x: nat)
      requires Valid()
      modifies this
      ensures Valid()
      ensures if old(good) && TakeOne(old(Rest()), k).Got?
              then good && x == TakeOne(old(Rest()), k).value
                   && Rest() == TakeOne(old(Rest()), k).rest
              else !good && pos == old(pos)
    {
      hide FromLittleEndian;
      if !good || pos + k > |data| {
        good := false;
        return 0;
      }
      assert data[pos..][..k] == data[pos..pos + k];
      x := FromLittleEndian(data[pos..pos + k]);
      pos := pos + k;
    }

    /** Reads the length of an array and its words. */
    method ReadVec(k: nat) returns (xs: seq<nat>)
      requires Valid()
      modifies this
      ensures Valid()
      ensures var t := TakeVec(old(Rest()), k);
              if old(good) && t.Got? then good && xs == t.value && Rest() == t.rest
              else !good
    {
      hide Take, TakeOne;
      var n := ReadWord(8);
      if !good {
        return [];
      }
      xs := ReadWords(n, k);
    }
  }

  function TakeVec(s: seq<byte>, k: nat): Read<seq<nat>> {
    match TakeOne(s, 8)
    case Short => Short
    case Got(n, rest) => Take(rest, n, k)
  }

  lemma TakeVecsFirst(s: seq<byte>, ws: seq<nat>, i: nat)
    requires i < |ws|
    ensures TakeVecs(s, ws, i)
            == (match TakeVec(s, ws[i])
                case Short => Short
                case Got(x, rest) => Prepend([x], TakeVecs(rest, ws, i + 1)))
  {
    hide Take, TakeOne;
  }

  /** All arrays of a list of widths, one after the other. */
  method ReadVecs(s: InStream, ws: seq<nat>) returns (xs: seq<seq<nat>>)
    requires s.Valid() && s.good
    modifies s
    ensures s.Valid()
    ensures var t := TakeVecs(old(s.Rest()), ws, 0);
            if t.Got? then s.good && xs == t.value && s.Rest() == t.rest else !s.good
  {
    hide TakeVec, TakeVecs;
    ghost var all := TakeVecs(s.Rest(), ws, 0);
    xs := [];
    assert Prepend([], all) == all by { PrependNone(all); }
    for i := 0 to |ws|
      invariant s.Valid() && s.good && all == Prepend(xs, TakeVecs(s.Rest(), ws, i))
    {
      TakeVecsFirst(s.Rest(), ws, i);
      ghost var rest := s.Rest();
      var x := s.ReadVec(ws[i]);
      if !s.good {
        return;
      }
      PrependMore(xs, x, TakeVecs(s.Rest(), ws, i + 1));
      xs := xs + [x];
    }
    NoMoreVecs(s.Rest(), ws);
    assert xs + [] == xs;
  }

  lemma PrependNone(r: Read<seq<seq<nat>>>)
    ensures Prepend([], r) == r
  {
    if r.Got? {
      assert [] + r.value == r.value;
    }
  }

  lemma PrependMore(xs: seq<seq<nat>>, x: seq<nat>, r: Read<seq<seq<nat>>>)
    ensures Prepend(xs, Prepend([x], r)) == Prepend(xs + [x], r)
  {
    if r.Got? {
      assert xs + ([x] + r.value) == xs + [x] + r.value;
    }
  }

  lemma NoMoreVecs(s: seq<byte>, ws: seq<nat>)
    ensures TakeVecs(s, ws, |ws|) == Got([], s)
  {
  }

  method ReadBatch(s: InStream, hasChar: bool) returns (b: Batch)
    requires s.Valid() && s.good
    modifies s
    ensures s.Valid()
    ensures var t := TakeBatch(old(s.Rest()), hasChar);
            if t.Got? then s.good && b == t.value && s.Rest() == t.rest else !s.good
  {
    hide TakeOne, TakeVecs, BatchOf;
    b := CLEARED;
    var nr := s.ReadWord(8);
    if !s.good {
      return;
    }
    var nf := s.ReadWord(8);
    if !s.good {
      return;
    }
    ghost var rest := s.Rest();
    var xs := ReadVecs(s, Widths(hasChar));
    if !s.good {
      return;
    }
    Pow256Values();
    TakeVecsBelow(rest, Widths(hasChar), 0);
    assert hasChar ==> Below(xs[7], Pow256(Widths(hasChar)[0 + 7]));
    b := BatchOf(nr, nf, xs);
  }

  method ReadMeta(s: InStream, hasChar: bool) returns (m: Meta)
    requires s.Valid() && s.good
    modifies s
    ensures s.Valid()
    ensures var t := TakeMeta(old(s.Rest()), hasChar);
            if t.Got? then s.good && m == t.value && s.Rest() == t.rest else !s.good
  {
    hide Take, TakeOne;
    m := NO_META;
    var n := s.ReadWord(64);
    var fbSize := s.ReadWord(4);
    if !s.good {
      return;
    }
    var base := s.ReadWords(fbSize, 4);
    var lp := s.ReadWord(8);
    var sb := s.ReadWord(4);
    if !s.good {
      return;
    }
    m := Meta(n, base, lp, sb, [], [], 0, hasChar);
    if hasChar {
      var r := s.ReadWord(4);
      if !s.good {
        return;
      }
      var aux := s.ReadWords(r, 8);
      var t := s.ReadWords(r, 8);
      m := m.(auxPrimes := aux, tS := t, r := r);
    }
  }

  /** Reads a relation file; bytes behind the last section are left unread. */
  method ReadRelationFile(file: seq<byte>) returns (ok: bool, c: Contents)
    ensures var t := DeserializeV2(file);
            ok == t.Got? && (ok ==> c == t.value)
  {
    hide Take, TakeOne, TakeMeta, TakeBatch, HasFlag;
    c := Contents(CLEARED, CLEARED, NO_META);
    var s := new InStream(file, 0);
    assert file[0..] == file;
    HeaderTaken(file);
    var magic := s.ReadWords(8, 1);
    var version := s.ReadWord(4);
    var flags := s.ReadWord(4);
    if !s.good || magic != V2_MAGIC || version != 2 {
      return false, c;
    }
    var hasChar := HasFlag(flags, FLAG_HAS_CHAR_BITS);
    var meta := NO_META.(hasCharBits := hasChar);
    if HasFlag(flags, FLAG_HAS_METADATA) {
      meta := ReadMeta(s, hasChar);
      if !s.good {
        return false, c;
      }
    }
    var full := ReadBatch(s, hasChar);
    if !s.good {
      return false, c;
    }
    var partials := CLEARED;
    if HasFlag(flags, FLAG_HAS_PARTIALS) {
      partials := ReadBatch(s, hasChar);
    }
    return s.good, Contents(full, partials, meta);
  }

  /** The header, field by field. */
  lemma HeaderTaken(s: seq<byte>)
    ensures DeserializeV2(s) ==
            match Take(s, 8, 1)
            case Short => Short
            case Got(magic, s1) =>
              (match TakeOne(s1, 4)
               case Short => Short
               case Got(version, s2) =>
                 (match TakeOne(s2, 4)
                  case Short => Short
                  case Got(flags, s3) =>
                    if magic != V2_MAGIC || version != 2 then Short else ReadSections(s3, flags)))
  {
    hide ReadSections, GetWords;
    var t0 := Take(s, 8, 1);
    if t0.Got? {
      OneWord(t0.rest, 4);
      if TakeOne(t0.rest, 4).Got? {
        OneWord(TakeOne(t0.rest, 4).rest, 4);
      }
    }
    TakeThree(s, HEADER);
  }

  lemma OneWord(s: seq<byte>, k: nat)
    ensures Take(s, 1, k) ==
            match TakeOne(s, k) case Short => Short case Got(x, rest) => Got([x], rest)
  {
    hide FromLittleEndian;
    assert 1 * k == k;
    if |s| >= k {
      var w := s[..k];
      assert w[..k] == w;
      var none := GetWords(w[k..], 0, k);
      assert none == [];
      assert GetWords(w, 1, k) == [FromLittleEndian(w)] + none == [FromLittleEndian(w)];
      assert s[..1 * k] == w && s[1 * k..] == s[k..];
    }
  }

  lemma TakeThree(s: seq<byte>, sh: seq<Section>)
    requires |sh| == 3
    ensures TakeFrom(s, sh, 0) ==
            match Take(s, sh[0].count, sh[0].width)
            case Short => Short
            case Got(a, s1) =>
              (match Take(s1, sh[1].count, sh[1].width)
               case Short => Short
               case Got(b, s2) =>
                 (match Take(s2, sh[2].count, sh[2].width)
                  case Short => Short
                  case Got(c, s3) => Got([a, b, c], s3)))
  {
    hide Take;
    var t0 := Take(s, sh[0].count, sh[0].width);
    if t0.Got? {
      var t1 := Take(t0.rest, sh[1].count, sh[1].width);
      if t1.Got? {
        var t2 := Take(t1.rest, sh[2].count, sh[2].width);
        if t2.Got? {
          assert TakeFrom(t2.rest, sh, 3) == Got([], t2.rest);
          assert TakeFrom(t1.rest, sh, 2) == Got([t2.value] + [], t2.rest);
          assert [t2.value] + [] == [t2.value];
          assert TakeFrom(t0.rest, sh, 1) == Got([t1.value] + [t2.value], t2.rest);
          assert [t0.value] + ([t1.value] + [t2.value]) == [t0.value, t1.value, t2.value];
        } else {
          assert TakeFrom(t1.rest, sh, 2) == Short;
        }
      } else {
        assert TakeFrom(t0.rest, sh, 1) == Short;
      }
    }
  }
}
