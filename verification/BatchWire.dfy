/** The buffer-level serializer and deserializer of relation batches. */
module BatchWire {

  import opened Basics
  import opened Bytes
  import opened ByteCodec
  import opened Relations
  import opened BatchCodec

  // ---------------------------------------------------------------------------
  // Writing
  // ---------------------------------------------------------------------------

  /** Copies bytes into the buffer and advances the offset. */
  method WriteBytes(buf: array<byte>, offset: nat, src: seq<byte>) returns (next: nat)
    requires offset + |src| <= buf.Length
    modifies buf
    ensures next == offset + |src|
    ensures buf[..next] == old(buf[..offset]) + src
  {
    for i := 0 to |src|
      invariant buf[..offset + i] == old(buf[..offset]) + src[..i]
    {
      buf[offset + i] := src[i];
      assert src[..i + 1] == src[..i] + [src[i]];
      assert buf[..offset + i + 1] == buf[..offset + i] + [src[i]];
    }
    assert src[..|src|] == src;
    next := offset + |src|;
  }

  /** The encoding of a nonempty batch, section by section. */
  lemma EncodeFlat(b: Batch, n: nat)
    requires n > 0 && b.Covers(n) && Fits(b, n)
    ensures var nf := b.factorOffsets[n];
            Encode(b, n) ==
            LittleEndian(n, 4) + LittleEndian(nf, 4) + PutWords(b.sqrtQ[..n], 64)
            + PutWords(b.signs[..n], 1) + PutWords(ToWords(b.val2Exps[..n]), 4)
            + PutWords(b.largePrimes[..n], 16) + PutWords(BitsToWords(BitsFor(b, n)), 4)
            + PutWords(b.factorOffsets[..n + 1], 8) + PutWords(b.factorIndices[..nf], 4)
            + PutWords(b.factorCounts[..nf], 1)
  {
    hide PutWords, LittleEndian, ToWords, BitsToWords, BitsFor;
    var nf := b.factorOffsets[n];
    var xs, sh := Arrays(b, n), Shape(n, nf);
    var p := seq(8, i requires 0 <= i < 8 => PutWords(xs[i], sh[i].width));
    var tail: seq<byte> := [];
    assert PutFrom(xs, sh, 8) == [];
    assert PutFrom(xs, sh, 7) == p[7] + [] == p[7];
    assert PutFrom(xs, sh, 6) == p[6] + p[7];
    assert PutFrom(xs, sh, 5) == p[5] + (p[6] + p[7]);
    assert PutFrom(xs, sh, 4) == p[4] + (p[5] + (p[6] + p[7]));
    assert PutFrom(xs, sh, 3) == p[3] + (p[4] + (p[5] + (p[6] + p[7])));
    assert PutFrom(xs, sh, 2) == p[2] + (p[3] + (p[4] + (p[5] + (p[6] + p[7]))));
    assert PutFrom(xs, sh, 1) == p[1] + (p[2] + (p[3] + (p[4] + (p[5] + (p[6] + p[7])))));
    assert PutFrom(xs, sh, 0) == p[0] + PutFrom(xs, sh, 1);
    Regroup(LittleEndian(n, 4), LittleEndian(nf, 4), p);
  }

  lemma Regroup(a: seq<byte>, b: seq<byte>, p: seq<seq<byte>>)
    requires |p| == 8
    ensures a + (b + (p[0] + (p[1] + (p[2] + (p[3] + (p[4] + (p[5] + (p[6] + p[7]))))))))
            == a + b + p[0] + p[1] + p[2] + p[3] + p[4] + p[5] + p[6] + p[7]
  {
  }

  /** Serializes the first `count` relations. The buffer is exactly filled, except that for no
      relations it is sized with room for one offset that is never written. */
  method SerializeRelationBatch(b: Batch, count: nat) returns (buf: array<byte>, length: nat)
    requires count > 0 ==> b.Covers(count) && Fits(b, count)
    requires count < WORD32
    ensures fresh(buf)
    ensures length == (if count > 0 then buf.Length else buf.Length - 8)
    ensures buf[..length] == Encode(b, count)
  {
    hide PutWords, LittleEndian, Encode, Fits;
    var nf := 0;
    if count > 0 && |b.factorOffsets| > count {
      nf := b.factorOffsets[count];
    }
    var total := 8 + count * (64 + 1 + 4 + 16 + 4) + (count + 1) * 8 + nf * 4 + nf;
    buf := new byte[total];
    var offset := WriteBytes(buf, 0, LittleEndian(count, 4));
    assert buf[..offset] == LittleEndian(count, 4);
    offset := WriteBytes(buf, offset, LittleEndian(nf, 4));
    if count > 0 {
      EncodeFlat(b, count);
      assert Int32s(b.val2Exps[..count]) by { FitsInt32(b, count); }
      offset := WriteBytes(buf, offset, PutWords(b.sqrtQ[..count], 64));
      offset := WriteBytes(buf, offset, PutWords(b.signs[..count], 1));
      offset := WriteBytes(buf, offset, PutWords(ToWords(b.val2Exps[..count]), 4));
      offset := WriteBytes(buf, offset, PutWords(b.largePrimes[..count], 16));
      if |b.charBits| >= count {
        offset := WriteBytes(buf, offset, PutWords(BitsToWords(b.charBits[..count]), 4));
      } else {
        offset := WriteBytes(buf, offset, PutWords(BitsToWords(seq(count, _ => 0)), 4));
      }
      offset := WriteBytes(buf, offset, PutWords(b.factorOffsets[..count + 1], 8));
      if nf > 0 {
        offset := WriteBytes(buf, offset, PutWords(b.factorIndices[..nf], 4));
        offset := WriteBytes(buf, offset, PutWords(b.factorCounts[..nf], 1));
      } else {
        assert PutWords(b.factorIndices[..nf], 4) == [] == PutWords(b.factorCounts[..nf], 1);
      }
    } else {
      assert Encode(b, 0) == LittleEndian(0, 4) + LittleEndian(0, 4) by { EmptyEncoding(b); }
    }
    length := offset;
  }

  lemma FitsInt32(b: Batch, n: nat)
    requires b.Covers(n) && Fits(b, n)
    ensures Int32s(b.val2Exps[..n])
  {
  }

  lemma EmptyEncoding(b: Batch)
    ensures Encode(b, 0) == LittleEndian(0, 4) + LittleEndian(0, 4)
  {
  }

  // ---------------------------------------------------------------------------
  // Reading
  // ---------------------------------------------------------------------------

  /** Bounds-checked reader: a read past the end fails and stays where it was. */
  class SafeReader {
    const data: seq<byte>
    var pos: nat
    var ok: bool

    ghost predicate Valid()
      reads this
    {
      pos <= |data|
    }

    ghost function Rest(): seq<byte>
      requires Valid()
      reads this
    {
      data[pos..]
    }

    constructor (data: seq<byte>)
      ensures Valid() && this.data == data && ok && Rest() == data
    {
      this.data, pos, ok := data, 0, true;
    }

    /** Reads `n` words of `k` bytes; words that cannot be read stay zero. */
    method ReadWords(n: nat, k: nat) returns (xs: seq<nat>)
      requires Valid()
      modifies this
      ensures Valid()
      ensures var t := Take(old(Rest()), n, k);
              if t.Got? then ok == old(ok) && xs == t.value && Rest() == t.rest
              else !ok && pos == old(pos) && xs == seq(n, _ => 0)
    {
      hide GetWords;
      if pos + n * k > |data| {
        ok := false;
        return seq(n, _ => 0);
      }
      assert data[pos..][..n * k] == data[pos..pos + n * k];
      xs := GetWords(data[pos..pos + n * k], n, k);
      pos := pos + n * k;
    }

    method ReadWord(k: nat) returns (x: nat)
      requires Valid()
      modifies this
      ensures Valid()
      ensures var t := TakeOne(old(Rest()), k);
              if t.Got? then ok == old(ok) && x == t.value && Rest() == t.rest
              else !ok && pos == old(pos) && x == 0
    {
      hide FromLittleEndian;
      if pos + k > |data| {
        ok := false;
        return 0;
      }
      assert data[pos..][..k] == data[pos..pos + k];
      x := FromLittleEndian(data[pos..pos + k]);
      pos := pos + k;
    }
  }

  /** How far reading the sections of `s` has got. */
  ghost predicate Progress(s: seq<byte>, shape: seq<Section>, i: nat, got: seq<seq<nat>>,
                           rest: seq<byte>, ok: bool)
    requires i <= |shape|
  {
    if ok then TakeFrom(s, shape, 0) == Prepend(got, TakeFrom(rest, shape, i))
    else TakeFrom(s, shape, 0).Short?
  }

  lemma ProgressStarts(s: seq<byte>, shape: seq<Section>)
    ensures Progress(s, shape, 0, [], s, true)
  {
    var t := TakeFrom(s, shape, 0);
    if t.Got? {
      assert [] + t.value == t.value;
    }
  }

  lemma ProgressStep(s: seq<byte>, shape: seq<Section>, i: nat, got: seq<seq<nat>>,
                     rest: seq<byte>, ok: bool)
    requires i < |shape| && Progress(s, shape, i, got, rest, ok)
    ensures var t := Take(rest, shape[i].count, shape[i].width);
            if t.Got? then Progress(s, shape, i + 1, got + [t.value], t.rest, ok)
            else Progress(s, shape, i + 1, got, rest, false)
  {
    var t := Take(rest, shape[i].count, shape[i].width);
    if ok && t.Got? {
      var u := TakeFrom(t.rest, shape, i + 1);
      if u.Got? {
        assert got + ([t.value] + u.value) == got + [t.value] + u.value;
      }
    }
  }

  /** Reads section `i`; `got` are the sections read so far. */
  method ReadSection(r: SafeReader, count: nat, width: nat, ghost s: seq<byte>,
                     ghost shape: seq<Section>, ghost i: nat, ghost got: seq<seq<nat>>)
    returns (x: seq<nat>, ghost more: seq<seq<nat>>)
    requires r.Valid() && i < |shape| && shape[i] == Section(count, width)
    requires Progress(s, shape, i, got, r.Rest(), r.ok)
    modifies r
    ensures r.Valid()
    ensures Progress(s, shape, i + 1, more, r.Rest(), r.ok)
    ensures r.ok ==> old(r.ok) && more == got + [x]
  {
    hide Take, Progress;
    ProgressStep(s, shape, i, got, r.Rest(), r.ok);
    ghost var t := Take(r.Rest(), count, width);
    x := r.ReadWords(count, width);
    more := if t.Got? then got + [x] else got;
  }

  lemma EmptySection(s: seq<byte>, shape: seq<Section>, i: nat, got: seq<seq<nat>>,
                     rest: seq<byte>, ok: bool)
    requires i < |shape| && shape[i].count == 0 && Progress(s, shape, i, got, rest, ok)
    ensures Progress(s, shape, i + 1, got + [[]], rest, ok)
  {
    hide Progress;
    ProgressStep(s, shape, i, got, rest, ok);
    assert rest[..0] == [] && rest[0..] == rest;
  }

  lemma ProgressDone(s: seq<byte>, shape: seq<Section>, got: seq<seq<nat>>, rest: seq<byte>)
    requires Progress(s, shape, |shape|, got, rest, true)
    ensures TakeFrom(s, shape, 0) == Got(got, rest) && Shaped(got, shape)
  {
    assert got + [] == got;
    TakeFromShaped(s, shape, 0);
    assert shape[0..] == shape;
  }

  /** Reads the eight arrays of a nonempty batch. */
  method ReadArrays(r: SafeReader, n: nat, nf: nat, ghost shape: seq<Section>)
    returns (xs: seq<seq<nat>>)
    requires r.Valid() && r.ok && shape == Shape(n, nf)
    modifies r
    ensures r.Valid() && |xs| == 8
    ensures r.ok ==> TakeFrom(old(r.Rest()), shape, 0) == Got(xs, r.Rest())
    ensures !r.ok ==> TakeFrom(old(r.Rest()), shape, 0).Short?
  {
    hide Take, TakeFrom, Progress, Shape, Shaped;
    ghost var s := r.Rest();
    ShapeSections(n, nf);
    ProgressStarts(s, shape);
    var a0, m0 := ReadSection(r, n, 64, s, shape, 0, []);
    var a1, m1 := ReadSection(r, n, 1, s, shape, 1, m0);
    var a2, m2 := ReadSection(r, n, 4, s, shape, 2, m1);
    var a3, m3 := ReadSection(r, n, 16, s, shape, 3, m2);
    var a4, m4 := ReadSection(r, n, 4, s, shape, 4, m3);
    var a5, m5 := ReadSection(r, n + 1, 8, s, shape, 5, m4);
    var a6: seq<nat>, a7: seq<nat> := [], [];
    ghost var m6, m7 := m5 + [[]], m5 + [[]] + [[]];
    if nf > 0 {
      a6, m6 := ReadSection(r, nf, 4, s, shape, 6, m5);
      a7, m7 := ReadSection(r, nf, 1, s, shape, 7, m6);
    } else {
      EmptySection(s, shape, 6, m5, r.Rest(), r.ok);
      EmptySection(s, shape, 7, m6, r.Rest(), r.ok);
    }
    xs := [a0, a1, a2, a3, a4, a5, a6, a7];
    if r.ok {
      assert m7 == xs;
      ProgressDone(s, shape, m7, r.Rest());
    } else {
      ProgressFailed(s, shape, 8, m7, r.Rest());
    }
  }

  /** Decodes a batch; returns the number of relations, 0 for data that does not decode. */
  method DeserializeRelationBatch(data: seq<byte>) returns (n: nat, out: Batch)
    ensures Decode(data).Short? ==> n == 0
    ensures Decode(data).Got? ==> out == Decode(data).value && n == out.numRelations
  {
    hide Take, TakeOne, TakeFrom, FromWords, WordsToBits, Decode, Shape, EmptyBatch;
    out := EmptyBatch(0);
    if |data| < 8 {
      ShortHeader(data);
      return 0, out;
    }
    HeaderReads(data);
    var r := new SafeReader(data);
    n := r.ReadWord(4);
    var nf := r.ReadWord(4);
    out := EmptyBatch(nf);
    DecodeBody(data, n, nf, r.Rest());
    if n > 0 {
      var xs := ReadArrays(r, n, nf, Shape(n, nf));
      if !r.ok {
        return 0, out;
      }
      out := BatchOf(n, nf, xs);
    }
  }

  lemma ProgressFailed(s: seq<byte>, shape: seq<Section>, i: nat, got: seq<seq<nat>>,
                       rest: seq<byte>)
    requires i <= |shape| && Progress(s, shape, i, got, rest, false)
    ensures TakeFrom(s, shape, 0).Short?
  {
  }

  lemma ShapeSections(n: nat, nf: nat)
    ensures var sh := Shape(n, nf);
            && |sh| == 8 && sh[0] == Section(n, 64) && sh[1] == Section(n, 1)
            && sh[2] == Section(n, 4) && sh[3] == Section(n, 16) && sh[4] == Section(n, 4)
            && sh[5] == Section(n + 1, 8) && sh[6] == Section(nf, 4) && sh[7] == Section(nf, 1)
  {
  }

  /** Decoding behind the two header words. */
  lemma DecodeBody(data: seq<byte>, n: nat, nf: nat, s: seq<byte>)
    requires TakeOne(data, 4).Got? && TakeOne(data, 4).value == n
    requires TakeOne(TakeOne(data, 4).rest, 4) == Got(nf, s)
    ensures n == 0 ==> Decode(data) == Got(EmptyBatch(nf), s)
    ensures n > 0 && TakeFrom(s, Shape(n, nf), 0).Short? ==> Decode(data).Short?
    ensures n > 0 && TakeFrom(s, Shape(n, nf), 0).Got? ==>
              var xs := TakeFrom(s, Shape(n, nf), 0).value;
              && Shaped(xs, Shape(n, nf))
              && Decode(data) == Got(BatchOf(n, nf, xs), TakeFrom(s, Shape(n, nf), 0).rest)
    ensures EmptyBatch(nf).numRelations == 0
  {
    hide TakeOne, TakeFrom, BatchOf, Shape;
    if n > 0 && TakeFrom(s, Shape(n, nf), 0).Got? {
      TakeFromShaped(s, Shape(n, nf), 0);
      assert Shape(n, nf)[0..] == Shape(n, nf);
    }
  }

  lemma ShortHeader(data: seq<byte>)
    requires |data| < 8
    ensures Decode(data).Short?
  {
  }

  lemma HeaderReads(data: seq<byte>)
    requires |data| >= 8
    ensures TakeOne(data, 4).Got? && TakeOne(TakeOne(data, 4).rest, 4).Got?
  {
  }
}
