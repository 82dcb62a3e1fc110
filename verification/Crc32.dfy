/** The table-driven CRC-32 of the frame protocol (section 8 of RFC 1952). */
module Crc32 {
  import opened Bytes

  const POLYNOMIAL: nat := 0xEDB88320
  const ALL_ONES: nat := 0xFFFFFFFF

  ghost predicate Word(x: nat) {
    x < 0x1_0000_0000
  }

  /** One bit of the division. */
  function BitStep(crc: nat): nat {
    Xor(crc / 2, if crc % 2 == 1 then POLYNOMIAL else 0)
  }

  function BitSteps(crc: nat, k: nat): nat
    decreases k
  {
    if k == 0 then crc else BitSteps(BitStep(crc), k - 1)
  }

  /** The bit-serial checksum register after one more byte. */
  function ByteStep(crc: nat, b: byte): nat {
    BitSteps(Xor(crc, b), 8)
  }

  /** The bit-serial register after a whole string. */
  function Register(crc: nat, data: seq<byte>): nat {
    if |data| == 0 then crc
    else ByteStep(Register(crc, data[..|data| - 1]), data[|data| - 1])
  }

  /** The bit-serial definition of the checksum. */
  function Crc(data: seq<byte>): nat {
    Xor(Register(ALL_ONES, data), ALL_ONES)
  }

  // ---------------------------------------------------------------------------
  // Words stay words
  // ---------------------------------------------------------------------------

  lemma BitStepWord(crc: nat)
    requires Word(crc)
    ensures Word(BitStep(crc))
  {
    Pow2Values();
    XorRange(crc / 2, if crc % 2 == 1 then POLYNOMIAL else 0, 32);
  }

  lemma {:induction false} BitStepsWord(crc: nat, k: nat)
    requires Word(crc)
    ensures Word(BitSteps(crc, k))
    decreases k
  {
    if k > 0 {
      BitStepWord(crc);
      BitStepsWord(BitStep(crc), k - 1);
    }
  }

  lemma ByteStepWord(crc: nat, b: byte)
    requires Word(crc)
    ensures Word(Xor(crc, b)) && Word(ByteStep(crc, b))
  {
    Pow2Values();
    XorRange(crc, b, 32);
    BitStepsWord(Xor(crc, b), 8);
  }

  lemma {:induction false} RegisterWord(crc: nat, data: seq<byte>)
    requires Word(crc)
    ensures Word(Register(crc, data))
  {
    if |data| > 0 {
      RegisterWord(crc, data[..|data| - 1]);
      ByteStepWord(Register(crc, data[..|data| - 1]), data[|data| - 1]);
    }
  }

  lemma CrcWord(data: seq<byte>)
    ensures Word(Crc(data))
  {
    RegisterWord(ALL_ONES, data);
    Pow2Values();
    XorRange(Register(ALL_ONES, data), ALL_ONES, 32);
  }

  // ---------------------------------------------------------------------------
  // Linearity and the table step
  // ---------------------------------------------------------------------------

  lemma XorSwap(a: nat, b: nat, c: nat, d: nat)
    ensures Xor(Xor(a, b), Xor(c, d)) == Xor(Xor(a, c), Xor(b, d))
  {
    XorAssoc(a, b, Xor(c, d));
    XorAssoc(b, c, d);
    XorComm(b, c);
    XorAssoc(c, b, d);
    XorAssoc(a, c, Xor(b, d));
  }

  lemma StepLinear(x: nat, y: nat)
    ensures BitStep(Xor(x, y)) == Xor(BitStep(x), BitStep(y))
  {
    var p := if x % 2 == 1 then POLYNOMIAL else 0;
    var q := if y % 2 == 1 then POLYNOMIAL else 0;
    XorBits(x, y);
    XorSwap(x / 2, p, y / 2, q);
    assert Xor(p, q) == if x % 2 == y % 2 then 0 else POLYNOMIAL by {
      XorSelf(p);
      XorZero(p);
      XorZero(q);
    }
  }

  lemma {:induction false} StepsLinear(x: nat, y: nat, k: nat)
    ensures BitSteps(Xor(x, y), k) == Xor(BitSteps(x, k), BitSteps(y, k))
    decreases k
  {
    hide BitStep;
    if k > 0 {
      StepLinear(x, y);
      StepsLinear(BitStep(x), BitStep(y), k - 1);
    }
  }

  function Shr(x: nat, k: nat): nat
    decreases k
  {
    if k == 0 then x else Shr(x / 2, k - 1)
  }

  /** The `k` low bits. */
  function Low(x: nat, k: nat): nat
    decreases k
  {
    if k == 0 then 0 else x % 2 + 2 * Low(x / 2, k - 1)
  }

  /** Only the low bits feed the polynomial; the high bits just move down. */
  lemma {:induction false} StepsSplit(x: nat, k: nat)
    ensures BitSteps(x, k) == Xor(Shr(x, k), BitSteps(Low(x, k), k))
    decreases k
  {
    hide Xor;
    if k == 0 {
      XorZero(x);
    } else {
      var h, p := x / 2, if x % 2 == 1 then POLYNOMIAL else 0;
      var low := Low(h, k - 1);
      StepsSplit(h, k - 1);
      StepsLinear(h, p, k - 1);
      StepsLinear(low, p, k - 1);
      assert Low(x, k) == x % 2 + 2 * low;
      assert BitStep(x) == Xor(h, p) && BitStep(Low(x, k)) == Xor(low, p);
      XorAssoc(Shr(h, k - 1), BitSteps(low, k - 1), BitSteps(p, k - 1));
    }
  }

  lemma ByteShift(x: nat)
    ensures Shr(x, 8) == x / 256 && Low(x, 8) == x % 256
  {
    var x1 := x / 2; var x2 := x1 / 2; var x3 := x2 / 2; var x4 := x3 / 2;
    var x5 := x4 / 2; var x6 := x5 / 2; var x7 := x6 / 2; var x8 := x7 / 2;
    assert x8 == x / 256;
    assert Shr(x7, 1) == x8 && Shr(x6, 2) == x8 && Shr(x5, 3) == x8 && Shr(x4, 4) == x8;
    assert Shr(x3, 5) == x8 && Shr(x2, 6) == x8 && Shr(x1, 7) == x8;
    assert Low(x7, 1) == x7 - 2 * x8 && Low(x6, 2) == x6 - 4 * x8;
    assert Low(x5, 3) == x5 - 8 * x8 && Low(x4, 4) == x4 - 16 * x8;
    assert Low(x3, 5) == x3 - 32 * x8 && Low(x2, 6) == x2 - 64 * x8;
    assert Low(x1, 7) == x1 - 128 * x8;
  }

  /** One table look-up does eight bit steps. */
  lemma TableStep(x: nat)
    ensures BitSteps(x, 8) == Xor(x / 256, BitSteps(x % 256, 8))
  {
    hide BitSteps, Shr, Low;
    StepsSplit(x, 8);
    ByteShift(x);
  }

  lemma {:induction false} ShrXor(x: nat, y: nat, k: nat)
    ensures Shr(Xor(x, y), k) == Xor(Shr(x, k), Shr(y, k))
    decreases k
  {
    if k > 0 {
      XorBits(x, y);
      ShrXor(x / 2, y / 2, k - 1);
    }
  }

  lemma ByteBelow(crc: nat, b: byte)
    ensures Xor(crc, b) / 256 == crc / 256
  {
    ByteShift(Xor(crc, b));
    ByteShift(crc);
    ByteShift(b);
    ShrXor(crc, b, 8);
    XorZero(crc / 256);
  }

  // ---------------------------------------------------------------------------
  // The table and the loop
  // ---------------------------------------------------------------------------

  ghost predicate TableOk(table: seq<nat>) {
    |table| == 256 && forall i :: 0 <= i < 256 ==> table[i] == BitSteps(i, 8)
  }

  method InitTable() returns (table: seq<nat>)
    ensures TableOk(table)
  {
    hide BitStep;
    table := [];
    for i := 0 to 256
      invariant |table| == i
      invariant forall k :: 0 <= k < i ==> table[k] == BitSteps(k, 8)
    {
      var crc := i;
      for j := 0 to 8
        invariant BitSteps(crc, 8 - j) == BitSteps(i, 8)
      {
        crc := BitStep(crc);
      }
      table := table + [crc];
    }
  }

  /** The table-driven loop computes the bit-serial checksum. */
  method ComputeCRC32(table: seq<nat>, data: seq<byte>) returns (result: nat)
    requires TableOk(table)
    ensures result == Crc(data)
  {
    hide BitSteps, Xor;
    var crc := ALL_ONES;
    for i := 0 to |data|
      invariant crc == Register(ALL_ONES, data[..i])
    {
      TableStep(Xor(crc, data[i]));
      ByteBelow(crc, data[i]);
      assert data[..i + 1][..i] == data[..i];
      crc := Xor(crc / 256, table[Xor(crc, data[i]) % 256]);
    }
    assert data[..|data|] == data;
    result := Xor(crc, ALL_ONES);
  }

  // ---------------------------------------------------------------------------
  // Error detection
  // ---------------------------------------------------------------------------

  /** The top bit of the polynomial makes a bit step reversible. */
  lemma StepInjective(x: nat, y: nat)
    requires Word(x) && Word(y) && BitStep(x) == BitStep(y)
    ensures x == y
  {
    hide Xor;
    if x % 2 == y % 2 {
      XorCancel(x / 2, y / 2, if x % 2 == 1 then POLYNOMIAL else 0);
    } else if x % 2 == 1 {
      TopBit(x / 2, y / 2);
    } else {
      TopBit(y / 2, x / 2);
    }
  }

  lemma TopBit(a: nat, b: nat)
    requires a < 0x8000_0000 && b < 0x8000_0000
    ensures Xor(a, POLYNOMIAL) != Xor(b, 0)
  {
    Pow2Values();
    XorZero(b);
    if Xor(a, POLYNOMIAL) == b {
      XorAssoc(a, a, POLYNOMIAL);
      XorSelf(a);
      XorZero(POLYNOMIAL);
      XorRange(a, b, 31);
    }
  }

  lemma {:induction false} StepsInjective(x: nat, y: nat, k: nat)
    requires Word(x) && Word(y) && BitSteps(x, k) == BitSteps(y, k)
    ensures x == y
    decreases k
  {
    hide BitStep;
    if k > 0 {
      BitStepWord(x);
      BitStepWord(y);
      StepsInjective(BitStep(x), BitStep(y), k - 1);
      StepInjective(x, y);
    }
  }

  /** A difference in the register survives any common suffix. */
  lemma {:induction false} RegisterInjective(x: nat, y: nat, data: seq<byte>)
    requires Word(x) && Word(y) && Register(x, data) == Register(y, data)
    ensures x == y
  {
    hide BitSteps, Xor;
    if |data| > 0 {
      var n := |data| - 1;
      var a, b := Register(x, data[..n]), Register(y, data[..n]);
      RegisterWord(x, data[..n]);
      RegisterWord(y, data[..n]);
      ByteStepWord(a, data[n]);
      ByteStepWord(b, data[n]);
      StepsInjective(Xor(a, data[n]), Xor(b, data[n]), 8);
      XorCancel(a, b, data[n]);
      RegisterInjective(x, y, data[..n]);
    }
  }

  lemma {:induction false} RegisterConcat(crc: nat, s: seq<byte>, t: seq<byte>)
    ensures Register(crc, s + t) == Register(Register(crc, s), t)
  {
    hide ByteStep;
    if |t| == 0 {
      assert s + t == s;
    } else {
      var n := |t| - 1;
      assert (s + t)[..|s + t| - 1] == s + t[..n];
      RegisterConcat(crc, s, t[..n]);
    }
  }

  lemma RegisterSnoc(crc: nat, s: seq<byte>, b: byte)
    ensures Register(crc, s + [b]) == ByteStep(Register(crc, s), b)
  {
    hide ByteStep;
    assert (s + [b])[..|s|] == s;
  }

  /** Two strings that differ in exactly one byte never have the same checksum. */
  lemma OneByteChangesCrc(data: seq<byte>, p: nat, b: byte)
    requires p < |data| && data[p] != b
    ensures Crc(data[p := b]) != Crc(data)
  {
    hide Register, BitSteps, Xor;
    var head, c, tail := data[..p], data[p], data[p + 1..];
    assert data == head + [c] + tail;
    assert data[p := b] == head + [b] + tail;
    var r := Register(ALL_ONES, head);
    if Crc(data[p := b]) == Crc(data) {
      XorCancel(Register(ALL_ONES, data[p := b]), Register(ALL_ONES, data), ALL_ONES);
      RegisterConcat(ALL_ONES, head + [c], tail);
      RegisterConcat(ALL_ONES, head + [b], tail);
      RegisterSnoc(ALL_ONES, head, c);
      RegisterSnoc(ALL_ONES, head, b);
      RegisterWord(ALL_ONES, head);
      ByteStepWord(r, b);
      ByteStepWord(r, c);
      RegisterInjective(ByteStep(r, b), ByteStep(r, c), tail);
      StepsInjective(Xor(r, b), Xor(r, c), 8);
      XorComm(r, b);
      XorComm(r, c);
      XorCancel(b, c, r);
    }
  }

  /** The single bit of the byte 0x80 leaves the register as the reversed polynomial of
      section 8 of RFC 1952, and the checksum of the empty string is 0. */
  lemma PolynomialShiftedOut()
    ensures BitSteps(0x80, 8) == 0xEDB88320 && Crc([]) == 0
  {
    EvenSteps(1, 7, 1);
    assert Pow2(7) == 0x80 by {
      assert Pow2(3) == 8;
      assert Pow2(6) == 64;
    }
    XorZero(POLYNOMIAL);
    assert BitStep(1) == POLYNOMIAL;
    assert BitSteps(1, 1) == BitSteps(BitStep(1), 0);
    XorSelf(ALL_ONES);
    assert Register(ALL_ONES, []) == ALL_ONES;
  }

  lemma EvenStep(z: nat)
    ensures BitStep(2 * z) == z
  {
    XorZero(z);
  }

  /** Zero bits are shifted out without effect. */
  lemma {:induction false} EvenSteps(x: nat, k: nat, m: nat)
    ensures BitSteps(x * Pow2(k), k + m) == BitSteps(x, m)
  {
    hide BitStep;
    if k > 0 {
      var z := x * Pow2(k - 1);
      assert x * Pow2(k) == 2 * z;
      EvenStep(z);
      EvenSteps(x, k - 1, m);
    } else {
      assert x * 1 == x;
    }
  }
}
