/** The dedup hash of a relation, and keeping the first relation of every hash. */
module RelationHash {

  import opened Basics
  import opened Bytes
  import opened Relations

  const MAGIC: nat := 0x9e3779b9

  // ---------------------------------------------------------------------------
  // The hash
  // ---------------------------------------------------------------------------

  /** XOR of all elements. */
  function XorAll(s: seq<nat>): nat {
    if |s| == 0 then 0 else Xor(XorAll(s[..|s| - 1]), s[|s| - 1])
  }

  function CountWords(factors: seq<Factor>): (r: seq<nat>)
    ensures |r| == |factors|
  {
    seq(|factors|, k requires 0 <= k < |factors| => factors[k].count)
  }

  function IndexWords(factors: seq<Factor>): (r: seq<nat>)
    ensures |r| == |factors|
  {
    seq(|factors|, k requires 0 <= k < |factors| => factors[k].index * MAGIC % WORD32)
  }

  /** Plus or minus a power of two as a 32-bit word; only the low five bits of the exponent
      count, and every sign byte other than 1 is negative. */
  function SignWord(sign: nat, val2: int): nat {
    var shifted := Pow2(val2 % 32) % WORD32;
    if sign != 1 then (WORD32 - shifted) % WORD32 else shifted
  }

  function Hash(r: Relation): nat {
    (|r.factors| % 0x1_0000) * 0x1_0000_0000_0000
    + XorAll(CountWords(r.factors)) * WORD32
    + Xor(XorAll(IndexWords(r.factors)), SignWord(r.sign, r.val2))
  }

  method ComputeRelationHash(b: Batch, i: nat) returns (h: nat)
    requires b.Covers(i + 1)
    ensures h == Hash(b.At(i))
  {
    var start, end := b.factorOffsets[i], b.factorOffsets[i + 1];
    ghost var factors := b.FactorsOf(i);
    ghost var counts, indices := CountWords(factors), IndexWords(factors);
    var expXor, bodyXor := 0, 0;
    for k := start to end
      invariant expXor == XorAll(counts[..k - start])
      invariant bodyXor == XorAll(indices[..k - start])
    {
      ghost var n := k - start;
      assert counts[..n + 1][..n] == counts[..n] && indices[..n + 1][..n] == indices[..n];
      expXor := Xor(expXor, b.factorCounts[k]);
      bodyXor := Xor(bodyXor, b.factorIndices[k] * MAGIC % WORD32);
    }
    assert counts[..end - start] == counts && indices[..end - start] == indices;
    bodyXor := Xor(bodyXor, SignWord(b.signs[i], b.val2Exps[i]));
    h := ((end - start) % 0x1_0000) * 0x1_0000_0000_0000 + expXor * WORD32 + bodyXor;
  }

  ghost predicate ByteCounts(r: Relation) {
    forall k :: 0 <= k < |r.factors| ==> r.factors[k].count < 256
  }

  lemma {:induction false} XorAllBelow(s: seq<nat>, k: nat)
    requires forall i :: 0 <= i < |s| ==> s[i] < Pow2(k)
    ensures XorAll(s) < Pow2(k)
  {
    if |s| > 0 {
      XorAllBelow(s[..|s| - 1], k);
      XorRange(XorAll(s[..|s| - 1]), s[|s| - 1], k);
    }
  }

  /** With byte counts the three fields of the hash do not overlap, so that adding them is the
      same as combining their bits, and the hash fits 64 bits. */
  lemma HashFields(r: Relation)
    requires ByteCounts(r)
    ensures XorAll(CountWords(r.factors)) < 0x1_0000
    ensures Xor(XorAll(IndexWords(r.factors)), SignWord(r.sign, r.val2)) < WORD32
    ensures Hash(r) < 0x1_0000_0000_0000_0000
  {
    Pow2Values();
    XorAllBelow(CountWords(r.factors), 8);
    XorAllBelow(IndexWords(r.factors), 32);
    XorRange(XorAll(IndexWords(r.factors)), SignWord(r.sign, r.val2), 32);
  }

  lemma {:induction false} XorAllConcat(s: seq<nat>, t: seq<nat>)
    ensures XorAll(s + t) == Xor(XorAll(s), XorAll(t))
    decreases |t|
  {
    if |t| == 0 {
      assert s + t == s;
      XorZero(XorAll(s));
    } else {
      var n := |t| - 1;
      assert (s + t)[..|s + t| - 1] == s + t[..n];
      XorAllConcat(s, t[..n]);
      XorAssoc(XorAll(s), XorAll(t[..n]), t[n]);
    }
  }

  lemma XorAllOne(x: nat)
    ensures XorAll([x]) == x
  {
    assert [x][..0] == [];
    XorZero(x);
  }

  /** Moving an element to the end does not change the XOR. */
  lemma XorAllMove(s: seq<nat>, i: nat)
    requires i < |s|
    ensures XorAll(s) == Xor(XorAll(s[..i] + s[i + 1..]), s[i])
  {
    hide Xor, XorAll;
    var a, x, b := s[..i], s[i], s[i + 1..];
    assert s == a + ([x] + b);
    XorAllConcat(a, [x] + b);
    XorAllConcat([x], b);
    XorAllConcat(a, b);
    XorAllOne(x);
    XorComm(x, XorAll(b));
    XorAssoc(XorAll(a), XorAll(b), x);
  }

  lemma {:induction false} XorAllPermuted(s: seq<nat>, t: seq<nat>)
    requires multiset(s) == multiset(t)
    ensures XorAll(s) == XorAll(t)
    decreases |s|
  {
    if |s| > 0 {
      var n, x := |s| - 1, s[|s| - 1];
      assert s == s[..n] + [x];
      assert x in multiset(t);
      var i :| 0 <= i < |t| && t[i] == x;
      assert t == t[..i] + [x] + t[i + 1..];
      var rest := t[..i] + t[i + 1..];
      assert multiset(s[..n]) == multiset(s) - multiset{x};
      assert multiset(rest) == multiset(t) - multiset{x};
      XorAllPermuted(s[..n], rest);
      XorAllMove(t, i);
    } else {
      assert |multiset(t)| == 0;
    }
  }

  lemma {:induction false} WordsPermuted(f: seq<Factor>, g: seq<Factor>)
    requires multiset(f) == multiset(g)
    ensures multiset(CountWords(f)) == multiset(CountWords(g))
    ensures multiset(IndexWords(f)) == multiset(IndexWords(g))
    ensures |f| == |g|
    decreases |f|
  {
    assert |f| == |multiset(f)| == |multiset(g)| == |g|;
    if |f| > 0 {
      var n, x := |f| - 1, f[|f| - 1];
      assert f == f[..n] + [x];
      assert x in multiset(g);
      var i :| 0 <= i < |g| && g[i] == x;
      var rest := g[..i] + g[i + 1..];
      assert g == g[..i] + [x] + g[i + 1..];
      assert multiset(f[..n]) == multiset(f) - multiset{x};
      assert multiset(rest) == multiset(g) - multiset{x};
      WordsPermuted(f[..n], rest);
      SplitWords(f, n);
      SplitWords(g, i);
      assert f[..n] + f[n + 1..] == f[..n];
    }
  }

  lemma SplitWords(g: seq<Factor>, i: nat)
    requires i < |g|
    ensures var rest := g[..i] + g[i + 1..];
            && multiset(CountWords(g)) == multiset(CountWords(rest)) + multiset{g[i].count}
            && multiset(IndexWords(g))
               == multiset(IndexWords(rest)) + multiset{g[i].index * MAGIC % WORD32}
  {
    var rest := g[..i] + g[i + 1..];
    var c, d := CountWords(g), IndexWords(g);
    assert CountWords(rest) == c[..i] + c[i + 1..];
    assert IndexWords(rest) == d[..i] + d[i + 1..];
    assert c == c[..i] + [c[i]] + c[i + 1..];
    assert d == d[..i] + [d[i]] + d[i + 1..];
  }

  /** The hash does not depend on the order of the factors, nor on the character bits, the square
      root value and the large prime. */
  lemma HashIgnoresOrder(r: Relation, q: Relation)
    requires multiset(r.factors) == multiset(q.factors)
    requires r.sign == q.sign && r.val2 == q.val2
    ensures Hash(r) == Hash(q)
  {
    WordsPermuted(r.factors, q.factors);
    XorAllPermuted(CountWords(r.factors), CountWords(q.factors));
    XorAllPermuted(IndexWords(r.factors), IndexWords(q.factors));
  }

  // ---------------------------------------------------------------------------
  // What the hash tells apart
  // ---------------------------------------------------------------------------

  lemma XorInjective(a: nat, x: nat, y: nat)
    requires Xor(a, x) == Xor(a, y)
    ensures x == y
  {
    XorComm(a, x);
    XorComm(a, y);
    XorCancel(x, y, a);
  }

  lemma FieldsApart(a: nat, b: nat, c: nat, a': nat, b': nat, c': nat)
    requires b < 0x1_0000 && b' < 0x1_0000 && c < WORD32 && c' < WORD32
    requires a * 0x1_0000_0000_0000 + b * WORD32 + c
             == a' * 0x1_0000_0000_0000 + b' * WORD32 + c'
    ensures a == a' && b == b' && c == c'
  {
  }

  /** Two hashes are equal exactly when all three fields are: the number of factors modulo 2^16,
      the XOR of the counts, and the XOR of the index words with the word of sign and exponent. */
  lemma HashEqualIff(r: Relation, q: Relation)
    requires ByteCounts(r) && ByteCounts(q)
    ensures Hash(r) == Hash(q) <==>
            && |r.factors| % 0x1_0000 == |q.factors| % 0x1_0000
            && XorAll(CountWords(r.factors)) == XorAll(CountWords(q.factors))
            && Xor(XorAll(IndexWords(r.factors)), SignWord(r.sign, r.val2))
               == Xor(XorAll(IndexWords(q.factors)), SignWord(q.sign, q.val2))
  {
    hide XorAll, CountWords, IndexWords, SignWord;
    HashFields(r);
    HashFields(q);
    if Hash(r) == Hash(q) {
      FieldsApart(|r.factors| % 0x1_0000, XorAll(CountWords(r.factors)),
                  Xor(XorAll(IndexWords(r.factors)), SignWord(r.sign, r.val2)),
                  |q.factors| % 0x1_0000, XorAll(CountWords(q.factors)),
                  Xor(XorAll(IndexWords(q.factors)), SignWord(q.sign, q.val2)));
    }
  }

  /** The inverse of the multiplier modulo 2^32. */
  const MAGIC_INVERSE: nat := 0x144cbc89

  /** Multiplying by the odd constant loses nothing modulo 2^32. */
  lemma MagicUndone(a: nat)
    requires a < WORD32
    ensures (a * MAGIC % WORD32) * MAGIC_INVERSE % WORD32 == a
  {
    var m := a * MAGIC;
    assert MAGIC * MAGIC_INVERSE == 210485888 * WORD32 + 1;
    assert m == m / WORD32 * WORD32 + m % WORD32;
    assert (m % WORD32) * MAGIC_INVERSE
           == a * (MAGIC * MAGIC_INVERSE) - (m / WORD32 * MAGIC_INVERSE) * WORD32;
    assert a * (MAGIC * MAGIC_INVERSE) == (a * 210485888) * WORD32 + a;
    Remainder((m % WORD32) * MAGIC_INVERSE, a * 210485888 - m / WORD32 * MAGIC_INVERSE, a);
  }

  lemma Remainder(x: int, k: int, a: nat)
    requires x == k * WORD32 + a && a < WORD32
    ensures x % WORD32 == a
  {
  }

  /** Replacing one element changes the XOR. */
  lemma XorAllReplaced(s: seq<nat>, i: nat, x: nat)
    requires i < |s| && x != s[i]
    ensures XorAll(s[i := x]) != XorAll(s)
  {
    hide XorAll;
    var t := s[i := x];
    XorAllMove(s, i);
    XorAllMove(t, i);
    assert t[..i] + t[i + 1..] == s[..i] + s[i + 1..];
    if XorAll(t) == XorAll(s) {
      XorInjective(XorAll(s[..i] + s[i + 1..]), x, s[i]);
    }
  }

  /** Relations that differ in one prime have different hashes. */
  lemma OtherIndexOtherHash(r: Relation, i: nat, index: nat)
    requires ByteCounts(r) && i < |r.factors|
    requires r.factors[i].index < WORD32 && index < WORD32 && index != r.factors[i].index
    ensures Hash(r.(factors := r.factors[i := r.factors[i].(index := index)])) != Hash(r)
  {
    hide XorAll, SignWord, Hash;
    var q := r.(factors := r.factors[i := r.factors[i].(index := index)]);
    var word := index * MAGIC % WORD32;
    MagicUndone(index);
    MagicUndone(r.factors[i].index);
    assert IndexWords(q.factors) == IndexWords(r.factors)[i := word];
    XorAllReplaced(IndexWords(r.factors), i, word);
    HashEqualIff(r, q);
    var sign := SignWord(r.sign, r.val2);
    XorComm(XorAll(IndexWords(r.factors)), sign);
    XorComm(XorAll(IndexWords(q.factors)), sign);
    if Hash(q) == Hash(r) {
      XorInjective(sign, XorAll(IndexWords(q.factors)), XorAll(IndexWords(r.factors)));
    }
  }

  /** Relations that differ in the multiplicity of one prime have different hashes. */
  lemma OtherCountOtherHash(r: Relation, i: nat, count: nat)
    requires ByteCounts(r) && i < |r.factors| && count < 256 && count != r.factors[i].count
    ensures Hash(r.(factors := r.factors[i := r.factors[i].(count := count)])) != Hash(r)
  {
    hide XorAll, SignWord, Hash;
    var q := r.(factors := r.factors[i := r.factors[i].(count := count)]);
    assert CountWords(q.factors) == CountWords(r.factors)[i := count];
    XorAllReplaced(CountWords(r.factors), i, count);
    HashEqualIff(r, q);
  }

  /** Relations whose numbers of factors differ modulo 2^16 have different hashes. */
  lemma OtherLengthOtherHash(r: Relation, q: Relation)
    requires ByteCounts(r) && ByteCounts(q)
    requires |r.factors| % 0x1_0000 != |q.factors| % 0x1_0000
    ensures Hash(r) != Hash(q)
  {
    hide Hash;
    HashEqualIff(r, q);
  }

  /** The words of powers of two below 2^32 are different. */
  lemma {:induction false} Pow2Order(j: nat, k: nat)
    requires j < k
    ensures 2 * Pow2(j) <= Pow2(k)
    decreases k
  {
    if j + 1 < k {
      Pow2Order(j, k - 1);
    }
  }

  /** The word of sign and exponent: equal exactly for equal signs and exponents modulo 32, except
      that for the remainder 31 the sign does not show. */
  lemma SignWordIff(sign: nat, val2: int, sign': nat, val2': int)
    ensures SignWord(sign, val2) == SignWord(sign', val2') <==>
            && val2 % 32 == val2' % 32
            && ((sign != 1 <==> sign' != 1) || val2 % 32 == 31)
  {
    hide SignWord, Pow2;
    var j, k := val2 % 32, val2' % 32;
    SignWordValue(sign, val2);
    SignWordValue(sign', val2');
    if j < k {
      Pow2Order(j, k);
    } else if k < j {
      Pow2Order(k, j);
    }
    Pow2Top(j);
    Pow2Top(k);
    Pow2Of32();
  }

  lemma SignWordValue(sign: nat, val2: int)
    ensures SignWord(sign, val2)
            == if sign != 1 then WORD32 - Pow2(val2 % 32) else Pow2(val2 % 32)
  {
    Pow2Top(val2 % 32);
    Pow2Of32();
  }

  lemma Pow2Of32()
    ensures Pow2(32) == WORD32
  {
    Pow2Values();
  }

  lemma Pow2Top(j: nat)
    requires j < 32
    ensures 0 < Pow2(j) && 2 * Pow2(j) <= Pow2(32)
    ensures 2 * Pow2(j) == Pow2(32) <==> j == 31
  {
    Pow2Order(j, 32);
    if j < 31 {
      Pow2Order(j, 31);
      Pow2Order(31, 32);
    }
  }

  /** Relations that differ in sign and power of two alone have equal hashes exactly when the
      exponents agree modulo 32 and the signs agree or the remainder is 31. */
  lemma SignAndTwoIff(r: Relation, sign: nat, val2: int)
    requires ByteCounts(r)
    ensures Hash(r.(sign := sign, val2 := val2)) == Hash(r) <==>
            && val2 % 32 == r.val2 % 32
            && ((sign != 1 <==> r.sign != 1) || val2 % 32 == 31)
  {
    hide XorAll, SignWord, Hash;
    var q := r.(sign := sign, val2 := val2);
    HashEqualIff(q, r);
    SignWordIff(sign, val2, r.sign, r.val2);
    if Xor(XorAll(IndexWords(r.factors)), SignWord(sign, val2))
       == Xor(XorAll(IndexWords(r.factors)), SignWord(r.sign, r.val2)) {
      XorInjective(XorAll(IndexWords(r.factors)), SignWord(sign, val2), SignWord(r.sign, r.val2));
    }
  }

  // ---------------------------------------------------------------------------
  // First occurrences
  // ---------------------------------------------------------------------------

  /** Whether the hash of element `i` did not occur before. */
  ghost predicate First(list: seq<Relation>, seen: set<nat>, i: nat)
    requires i < |list|
  {
    Hash(list[i]) !in seen && forall j :: 0 <= j < i ==> Hash(list[j]) != Hash(list[i])
  }

  function Hashes(list: seq<Relation>): (h: set<nat>)
    ensures forall x :: x in h <==> exists i :: 0 <= i < |list| && Hash(list[i]) == x
  {
    set i | 0 <= i < |list| :: Hash(list[i])
  }

  /** The elements whose hash is new, in order. */
  function Dedup(list: seq<Relation>, seen: set<nat>): seq<Relation> {
    if |list| == 0 then []
    else
      var before, last := list[..|list| - 1], list[|list| - 1];
      Dedup(before, seen) + if Hash(last) in seen + Hashes(before) then [] else [last]
  }

  lemma HashesConcat(a: seq<Relation>, b: seq<Relation>)
    ensures Hashes(a + b) == Hashes(a) + Hashes(b)
  {
    hide Hash;
    forall x | x in Hashes(a) + Hashes(b) ensures x in Hashes(a + b) {
      if x in Hashes(a) {
        var i :| 0 <= i < |a| && Hash(a[i]) == x;
        assert (a + b)[i] == a[i];
      } else {
        var i :| 0 <= i < |b| && Hash(b[i]) == x;
        assert (a + b)[|a| + i] == b[i];
      }
    }
  }

  /** Feeding two lists one after the other is feeding their concatenation. */
  lemma {:induction false} DedupConcat(a: seq<Relation>, b: seq<Relation>, seen: set<nat>)
    ensures Dedup(a + b, seen) == Dedup(a, seen) + Dedup(b, seen + Hashes(a))
    decreases |b|
  {
    hide Hash, Hashes;
    if |b| == 0 {
      assert a + b == a;
    } else {
      var n := |b| - 1;
      assert (a + b)[..|a + b| - 1] == a + b[..n] && (a + b)[|a + b| - 1] == b[n];
      DedupConcat(a, b[..n], seen);
      HashesConcat(a, b[..n]);
      assert seen + (Hashes(a) + Hashes(b[..n])) == seen + Hashes(a) + Hashes(b[..n]);
    }
  }

  lemma {:induction false} DedupHashes(list: seq<Relation>, seen: set<nat>)
    ensures Hashes(Dedup(list, seen)) == Hashes(list) - seen
  {
    hide Hash;
    if |list| > 0 {
      var before, last := list[..|list| - 1], list[|list| - 1];
      DedupHashes(before, seen);
      assert list == before + [last];
      HashesConcat(before, [last]);
      OneHash(last);
      HashesConcat(Dedup(before, seen), [last]);
      assert Dedup(before, seen) + [] == Dedup(before, seen);
    }
  }

  lemma OneHash(r: Relation)
    ensures Hashes([r]) == {Hash(r)}
  {
    hide Hash;
    assert [r][0] == r;
  }

  /** No hash is kept twice. */
  ghost predicate Distinct(list: seq<Relation>) {
    forall i, j :: 0 <= i < j < |list| ==> Hash(list[i]) != Hash(list[j])
  }

  lemma {:induction false} DedupDistinct(list: seq<Relation>, seen: set<nat>)
    ensures Distinct(Dedup(list, seen))
  {
    hide Hash;
    if |list| > 0 {
      var before, last := list[..|list| - 1], list[|list| - 1];
      DedupDistinct(before, seen);
      DedupHashes(before, seen);
      var d := Dedup(before, seen);
      forall i | 0 <= i < |d| ensures Hash(d[i]) in Hashes(before) {
        assert Hash(d[i]) in Hashes(d);
      }
    }
  }

  /** Nothing is dropped from a list of new, different hashes. */
  lemma {:induction false} DedupNothing(list: seq<Relation>, seen: set<nat>)
    requires Distinct(list) && Hashes(list) !! seen
    ensures Dedup(list, seen) == list
  {
    hide Hash;
    if |list| > 0 {
      var before, last := list[..|list| - 1], list[|list| - 1];
      assert list == before + [last];
      HashesConcat(before, [last]);
      OneHash(last);
      DedupNothing(before, seen);
    }
  }

  /** Deduplicating again changes nothing. */
  lemma DedupIdempotent(list: seq<Relation>)
    ensures Dedup(Dedup(list, {}), {}) == Dedup(list, {})
  {
    DedupDistinct(list, {});
    DedupNothing(Dedup(list, {}), {});
  }

  /** Deduplicating a first part early does not change the result. */
  lemma DedupEarly(a: seq<Relation>, b: seq<Relation>)
    ensures Dedup(Dedup(a, {}) + b, {}) == Dedup(a + b, {})
  {
    hide Hash, Hashes;
    DedupConcat(Dedup(a, {}), b, {});
    DedupConcat(a, b, {});
    DedupIdempotent(a);
    DedupHashes(a, {});
    assert Hashes(a) - {} == Hashes(a);
  }

  /** An element is kept exactly if no earlier one has its hash. */
  lemma {:induction false} KeptIffFirst(list: seq<Relation>, seen: set<nat>, i: nat)
    requires i < |list|
    ensures First(list, seen, i) <==>
            Dedup(list[..i + 1], seen) == Dedup(list[..i], seen) + [list[i]]
    ensures !First(list, seen, i) <==> Dedup(list[..i + 1], seen) == Dedup(list[..i], seen)
  {
    hide Hash;
    assert list[..i + 1][..i] == list[..i];
    assert Hash(list[i]) in Hashes(list[..i]) <==>
           exists j :: 0 <= j < i && Hash(list[j]) == Hash(list[i]) by {
      forall j | 0 <= j < i && Hash(list[j]) == Hash(list[i])
        ensures Hash(list[i]) in Hashes(list[..i])
      {
        assert list[..i][j] == list[j];
      }
    }
    if First(list, seen, i) {
      assert |Dedup(list[..i + 1], seen)| == |Dedup(list[..i], seen)| + 1;
    } else {
      assert |Dedup(list[..i + 1], seen)| == |Dedup(list[..i], seen)|;
    }
  }
}
