/** Arrays of fixed-width little-endian words, and a reader that consumes bytes from the front. */
module ByteCodec {

  import opened Basics
  import opened Bytes

  /** A read either runs short or yields a value and the bytes behind it. */
  datatype Read<+T> = Short | Got(value: T, rest: seq<byte>)

  ghost predicate Below(xs: seq<nat>, bound: nat) {
    forall i :: 0 <= i < |xs| ==> xs[i] < bound
  }

  function PutWords(xs: seq<nat>, k: nat): (s: seq<byte>)
    ensures |s| == |xs| * k
  {
    if |xs| == 0 then [] else LittleEndian(xs[0], k) + PutWords(xs[1..], k)
  }

  lemma Rows(n: nat, k: nat)
    requires n > 0
    ensures n * k == k + (n - 1) * k
  {
  }

  function GetWords(s: seq<byte>, n: nat, k: nat): (xs: seq<nat>)
    requires |s| == n * k
    ensures |xs| == n
  {
    if n == 0 then []
    else
      Rows(n, k);
      [FromLittleEndian(s[..k])] + GetWords(s[k..], n - 1, k)
  }

  /** Reads `n` words of `k` bytes. */
  function Take(s: seq<byte>, n: nat, k: nat): Read<seq<nat>> {
    if |s| < n * k then Short else Got(GetWords(s[..n * k], n, k), s[n * k..])
  }

  /** Reads one word of `k` bytes. */
  function TakeOne(s: seq<byte>, k: nat): Read<nat> {
    if |s| < k then Short else Got(FromLittleEndian(s[..k]), s[k..])
  }

  /** Words of one byte are the bytes. */
  lemma {:induction false} GetBytes(s: seq<byte>)
    ensures GetWords(s, |s|, 1) == s
  {
    if |s| > 0 {
      GetBytes(s[1..]);
      assert s[..1][1..] == [] && FromLittleEndian([]) == 0;
      assert FromLittleEndian(s[..1]) == s[0];
      assert s == [s[0]] + s[1..];
    }
  }

  lemma OneWord(s: seq<byte>, k: nat)
    requires |s| == k
    ensures GetWords(s, 1, k) == [FromLittleEndian(s)]
  {
    assert s[..k] == s;
  }

  lemma {:induction false} GetPut(xs: seq<nat>, k: nat)
    requires Below(xs, Pow256(k))
    ensures GetWords(PutWords(xs, k), |xs|, k) == xs
  {
    if |xs| > 0 {
      var s := PutWords(xs, k);
      Rows(|xs|, k);
      assert s[..k] == LittleEndian(xs[0], k) && s[k..] == PutWords(xs[1..], k);
      LittleEndianRoundTrip(xs[0], k);
      GetPut(xs[1..], k);
    }
  }

  lemma {:induction false} GetBelow(s: seq<byte>, n: nat, k: nat)
    requires |s| == n * k
    ensures Below(GetWords(s, n, k), Pow256(k))
  {
    if n > 0 {
      Rows(n, k);
      FromLittleEndianRange(s[..k]);
      GetBelow(s[k..], n - 1, k);
    }
  }

  /** Reading an array back, whatever follows it. */
  lemma TakePut(xs: seq<nat>, k: nat, rest: seq<byte>)
    requires Below(xs, Pow256(k))
    ensures Take(PutWords(xs, k) + rest, |xs|, k) == Got(xs, rest)
  {
    var s := PutWords(xs, k);
    GetPut(xs, k);
    hide GetWords, PutWords;
    var m := |xs| * k;
    assert (s + rest)[..m] == s && (s + rest)[m..] == rest;
  }

  lemma TakeOnePut(x: nat, k: nat, rest: seq<byte>)
    requires x < Pow256(k)
    ensures TakeOne(LittleEndian(x, k) + rest, k) == Got(x, rest)
  {
    var s := LittleEndian(x, k);
    assert (s + rest)[..k] == s && (s + rest)[k..] == rest;
    LittleEndianRoundTrip(x, k);
  }

  /** A read that succeeds is not changed by more bytes behind it. */
  lemma TakeExtends(s: seq<byte>, n: nat, k: nat, more: seq<byte>)
    requires Take(s, n, k).Got?
    ensures Take(s + more, n, k) == Got(Take(s, n, k).value, Take(s, n, k).rest + more)
  {
    hide GetWords;
    var m := n * k;
    assert (s + more)[..m] == s[..m] && (s + more)[m..] == s[m..] + more;
  }

  lemma TakeOneExtends(s: seq<byte>, k: nat, more: seq<byte>)
    requires TakeOne(s, k).Got?
    ensures TakeOne(s + more, k) == Got(TakeOne(s, k).value, TakeOne(s, k).rest + more)
  {
    hide FromLittleEndian;
    assert (s + more)[..k] == s[..k] && (s + more)[k..] == s[k..] + more;
  }

  lemma {:induction false} PutWordsConcat(xs: seq<nat>, ys: seq<nat>, k: nat)
    ensures PutWords(xs + ys, k) == PutWords(xs, k) + PutWords(ys, k)
  {
    if |xs| == 0 {
      assert xs + ys == ys;
    } else {
      assert (xs + ys)[1..] == xs[1..] + ys;
      PutWordsConcat(xs[1..], ys, k);
    }
  }

  // ---------------------------------------------------------------------------
  // Several arrays in a row
  // ---------------------------------------------------------------------------

  /** An array of `count` words of `width` bytes. */
  datatype Section = Section(count: nat, width: nat)

  ghost predicate Shaped(xs: seq<seq<nat>>, shape: seq<Section>) {
    && |xs| == |shape|
    && forall i :: 0 <= i < |xs| ==>
         |xs[i]| == shape[i].count && Below(xs[i], Pow256(shape[i].width))
  }

  /** The sections from number `i` on. */
  function PutFrom(xs: seq<seq<nat>>, shape: seq<Section>, i: nat): seq<byte>
    requires |xs| == |shape| && i <= |xs|
    decreases |xs| - i
  {
    if i == |xs| then [] else PutWords(xs[i], shape[i].width) + PutFrom(xs, shape, i + 1)
  }

  function Prepend(first: seq<seq<nat>>, r: Read<seq<seq<nat>>>): Read<seq<seq<nat>>> {
    match r
    case Short => Short
    case Got(xs, rest) => Got(first + xs, rest)
  }

  function TakeFrom(s: seq<byte>, shape: seq<Section>, i: nat): Read<seq<seq<nat>>>
    requires i <= |shape|
    decreases |shape| - i
  {
    if i == |shape| then Got([], s)
    else
      match Take(s, shape[i].count, shape[i].width)
      case Short => Short
      case Got(x, rest) => Prepend([x], TakeFrom(rest, shape, i + 1))
  }

  lemma {:induction false} TakeFromPut(xs: seq<seq<nat>>, shape: seq<Section>, i: nat,
                                       rest: seq<byte>)
    requires Shaped(xs, shape) && i <= |shape|
    ensures TakeFrom(PutFrom(xs, shape, i) + rest, shape, i) == Got(xs[i..], rest)
    decreases |shape| - i
  {
    hide Take, PutWords;
    if i < |shape| {
      var here, later := PutWords(xs[i], shape[i].width), PutFrom(xs, shape, i + 1);
      assert (here + later) + rest == here + (later + rest);
      TakePut(xs[i], shape[i].width, later + rest);
      TakeFromPut(xs, shape, i + 1, rest);
      assert [xs[i]] + xs[i + 1..] == xs[i..];
    } else {
      assert [] + rest == rest && xs[i..] == [];
    }
  }

  lemma {:induction false} TakeFromExtends(s: seq<byte>, shape: seq<Section>, i: nat,
                                           more: seq<byte>)
    requires i <= |shape| && TakeFrom(s, shape, i).Got?
    ensures TakeFrom(s + more, shape, i)
            == Got(TakeFrom(s, shape, i).value, TakeFrom(s, shape, i).rest + more)
    decreases |shape| - i
  {
    hide Take;
    if i < |shape| {
      TakeExtends(s, shape[i].count, shape[i].width, more);
      TakeFromExtends(Take(s, shape[i].count, shape[i].width).rest, shape, i + 1, more);
    }
  }

  lemma {:induction false} TakeFromShaped(s: seq<byte>, shape: seq<Section>, i: nat)
    requires i <= |shape| && TakeFrom(s, shape, i).Got?
    ensures Shaped(TakeFrom(s, shape, i).value, shape[i..])
    decreases |shape| - i
  {
    if i < |shape| {
      var k := shape[i];
      GetBelow(s[..k.count * k.width], k.count, k.width);
      var t := Take(s, k.count, k.width);
      TakeFromShaped(t.rest, shape, i + 1);
      assert [k] + shape[i + 1..] == shape[i..];
    }
  }

  // ---------------------------------------------------------------------------
  // Arrays behind their 64-bit length
  // ---------------------------------------------------------------------------

  ghost predicate VecsFit(xs: seq<seq<nat>>, widths: seq<nat>) {
    && |xs| == |widths|
    && forall i :: 0 <= i < |xs| ==> |xs[i]| < WORD64 && Below(xs[i], Pow256(widths[i]))
  }

  function PutVecs(xs: seq<seq<nat>>, widths: seq<nat>, i: nat): seq<byte>
    requires |xs| == |widths| && i <= |xs|
    decreases |xs| - i
  {
    if i == |xs| then []
    else LittleEndian(|xs[i]|, 8) + (PutWords(xs[i], widths[i]) + PutVecs(xs, widths, i + 1))
  }

  function TakeVecs(s: seq<byte>, widths: seq<nat>, i: nat): Read<seq<seq<nat>>>
    requires i <= |widths|
    decreases |widths| - i
  {
    if i == |widths| then Got([], s)
    else
      match TakeOne(s, 8)
      case Short => Short
      case Got(n, rest) =>
        match Take(rest, n, widths[i])
        case Short => Short
        case Got(x, later) => Prepend([x], TakeVecs(later, widths, i + 1))
  }

  lemma {:induction false} TakeVecsPut(xs: seq<seq<nat>>, widths: seq<nat>, i: nat,
                                       rest: seq<byte>)
    requires VecsFit(xs, widths) && i <= |xs|
    ensures TakeVecs(PutVecs(xs, widths, i) + rest, widths, i) == Got(xs[i..], rest)
    decreases |xs| - i
  {
    hide Take, TakeOne, PutWords, LittleEndian;
    if i < |xs| {
      var n, here := LittleEndian(|xs[i]|, 8), PutWords(xs[i], widths[i]);
      var later := PutVecs(xs, widths, i + 1);
      assert (n + (here + later)) + rest == n + (here + (later + rest));
      Pow256Values();
      TakeOnePut(|xs[i]|, 8, here + (later + rest));
      TakePut(xs[i], widths[i], later + rest);
      TakeVecsPut(xs, widths, i + 1, rest);
      assert [xs[i]] + xs[i + 1..] == xs[i..];
    } else {
      assert [] + rest == rest && xs[i..] == [];
    }
  }

  lemma {:induction false} TakeVecsExtends(s: seq<byte>, widths: seq<nat>, i: nat,
                                           more: seq<byte>)
    requires i <= |widths| && TakeVecs(s, widths, i).Got?
    ensures TakeVecs(s + more, widths, i)
            == Got(TakeVecs(s, widths, i).value, TakeVecs(s, widths, i).rest + more)
    decreases |widths| - i
  {
    hide Take, TakeOne;
    if i < |widths| {
      TakeOneExtends(s, 8, more);
      var n := TakeOne(s, 8);
      TakeExtends(n.rest, n.value, widths[i], more);
      TakeVecsExtends(Take(n.rest, n.value, widths[i]).rest, widths, i + 1, more);
    }
  }

  lemma {:induction false} TakeVecsBelow(s: seq<byte>, widths: seq<nat>, i: nat)
    requires i <= |widths| && TakeVecs(s, widths, i).Got?
    ensures |TakeVecs(s, widths, i).value| == |widths| - i
    ensures forall j :: 0 <= j < |widths| - i ==>
              Below(TakeVecs(s, widths, i).value[j], Pow256(widths[i + j]))
    decreases |widths| - i
  {
    hide Below, Pow256, TakeOne;
    if i < |widths| {
      var n := TakeOne(s, 8);
      var t := Take(n.rest, n.value, widths[i]);
      GetBelow(n.rest[..n.value * widths[i]], n.value, widths[i]);
      TakeVecsBelow(t.rest, widths, i + 1);
      var vs, ws := TakeVecs(s, widths, i).value, TakeVecs(t.rest, widths, i + 1).value;
      forall j | 0 <= j < |widths| - i ensures Below(vs[j], Pow256(widths[i + j])) {
        if j > 0 {
          assert vs[j] == ws[j - 1];
          assert Below(ws[j - 1], Pow256(widths[i + 1 + (j - 1)]));
        }
      }
    }
  }

  // ---------------------------------------------------------------------------
  // Signed and bit-vector words
  // ---------------------------------------------------------------------------

  /** Two's complement. */
  function ToWord(i: int): nat
    requires -0x8000_0000 <= i < 0x8000_0000
  {
    if i < 0 then i + WORD32 else i
  }

  function FromWord(n: nat): int {
    if n < 0x8000_0000 then n else n - WORD32
  }

  ghost predicate Int32s(s: seq<int>) {
    forall i :: 0 <= i < |s| ==> -0x8000_0000 <= s[i] < 0x8000_0000
  }

  function ToWords(s: seq<int>): (r: seq<nat>)
    requires Int32s(s)
    ensures |r| == |s| && Below(r, WORD32)
  {
    seq(|s|, i requires 0 <= i < |s| => ToWord(s[i]))
  }

  function FromWords(s: seq<nat>): (r: seq<int>)
    ensures |r| == |s|
  {
    seq(|s|, i requires 0 <= i < |s| => FromWord(s[i]))
  }

  lemma FromToWords(s: seq<int>)
    requires Int32s(s)
    ensures FromWords(ToWords(s)) == s
  {
  }

  function BitsToWords(s: seq<bv32>): (r: seq<nat>)
    ensures |r| == |s| && Below(r, WORD32)
  {
    seq(|s|, i requires 0 <= i < |s| => s[i] as nat)
  }

  function WordsToBits(s: seq<nat>): (r: seq<bv32>)
    requires Below(s, WORD32)
    ensures |r| == |s|
  {
    seq(|s|, i requires 0 <= i < |s| => s[i] as bv32)
  }

  lemma BitsRoundTrip(s: seq<bv32>)
    ensures WordsToBits(BitsToWords(s)) == s
  {
    forall i | 0 <= i < |s| ensures WordsToBits(BitsToWords(s))[i] == s[i] {
      BitRoundTrip(s[i]);
    }
  }

  lemma BitRoundTrip(b: bv32)
    ensures (b as nat) as bv32 == b
  {
  }
}
