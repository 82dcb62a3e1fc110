/** Initial contiguous ranges of the cluster nodes, proportional to their multiprocessor counts. */
module ContiguousRanges {

  import opened Basics
  datatype ContiguousRange = ContiguousRange(nodeId: nat, start: nat, count: nat)

  // ---------------------------------------------------------------------------
  // Arithmetic of one range
  // ---------------------------------------------------------------------------

  function CeilDiv(a: nat, b: nat): nat
    requires b > 0
  {
    (a + b - 1) / b
  }

  function RoundUp(a: nat, q: nat): nat
    requires q > 0
  {
    CeilDiv(a, q) * q
  }

  /** Estimated windows; `5 * H` is computed in 32 bits, and is not 0 for a nonzero `H`. */
  function WindowEstimate(nodes: nat, target: nat, H: nat): nat
    requires 0 < H < WORD32
  {
    Max(4 * nodes, CeilDiv(target, 5 * H % WORD32) * 2)
  }

  /** Sum of the multiprocessor counts in 32 bits; all zero means an equal split. */
  function Share(smCounts: seq<nat>): (s: nat)
    requires |smCounts| > 0
    ensures s > 0
  {
    var total := Sum(smCounts, |smCounts|) % WORD32;
    if total == 0 then |smCounts| else total
  }

  function Sum(s: seq<nat>, k: nat): nat
    requires k <= |s|
  {
    if k == 0 then 0 else Sum(s, k - 1) + s[k - 1]
  }

  function Windows(estimate: nat, sm: nat, share: nat): (w: nat)
    requires share > 0
    ensures w > 0
  {
    Max(CeilDiv(estimate * sm, share), 1)
  }

  function Count(windows: nat, H: nat, Q: nat): nat {
    if Q > 1 then RoundUp(windows * H, Q) else windows * H
  }

  function Counts(smCounts: seq<nat>, target: nat, H: nat, Q: nat): (c: seq<nat>)
    requires |smCounts| > 0 && 0 < H < WORD32
    ensures |c| == |smCounts|
  {
    var estimate, share := WindowEstimate(|smCounts|, target, H), Share(smCounts);
    seq(|smCounts|, i requires 0 <= i < |smCounts| =>
      Count(Windows(estimate, smCounts[i], share), H, Q))
  }

  // ---------------------------------------------------------------------------
  // The loop
  // ---------------------------------------------------------------------------

  /** Ranges follow each other from 0 with the given counts. */
  ghost predicate LaidOut(ranges: seq<ContiguousRange>, counts: seq<nat>, k: nat) {
    && |ranges| == k <= |counts|
    && forall i :: 0 <= i < k ==>
         ranges[i] == ContiguousRange(i % 256, Sum(counts, i), counts[i])
  }

  method ComputeShare(smCounts: seq<nat>) returns (share: nat)
    requires |smCounts| > 0
    ensures share == Share(smCounts)
  {
    share := 0;
    for i := 0 to |smCounts|
      invariant share == Sum(smCounts, i) % WORD32
    {
      share := (share + smCounts[i]) % WORD32;
    }
    if share == 0 {
      share := |smCounts|;
    }
  }

  /** At least one window, aligned to the quantum. */
  method RangeCount(estimate: nat, sm: nat, share: nat, H: nat, Q: nat) returns (count: nat)
    requires share > 0
    ensures count == Count(Windows(estimate, sm, share), H, Q)
  {
    var windows := CeilDiv(estimate * sm, share);
    if windows == 0 {
      windows := 1;
    }
    count := windows * H;
    if Q > 1 {
      count := RoundUp(count, Q);
    }
  }

  method ComputeContiguousRanges(smCounts: seq<nat>, target: nat, H: nat, Q: nat)
    returns (ranges: seq<ContiguousRange>)
    requires H < WORD32
    ensures |smCounts| == 0 || H == 0 ==> ranges == []
    ensures |smCounts| > 0 && H > 0 ==>
              LaidOut(ranges, Counts(smCounts, target, H, Q), |smCounts|)
  {
    var nodes := |smCounts|;
    if nodes == 0 || H == 0 {
      return [];
    }
    assert 5 * H % WORD32 > 0;
    var estimate := Max(4 * nodes, CeilDiv(target, 5 * H % WORD32) * 2);
    hide Share, CeilDiv, Windows, Count, WindowEstimate;
    var share := ComputeShare(smCounts);
    ranges := [];
    var cursor := 0;
    ghost var counts := Counts(smCounts, target, H, Q);
    for i := 0 to nodes
      invariant LaidOut(ranges, counts, i) && cursor == Sum(counts, i)
    {
      var count := RangeCount(estimate, smCounts[i], share, H, Q);
      ranges := ranges + [ContiguousRange(i % 256, cursor, count)];
      cursor := cursor + count;
    }
  }

  // ---------------------------------------------------------------------------
  // Tiling
  // ---------------------------------------------------------------------------

  predicate InRange(r: ContiguousRange, a: nat) {
    r.start <= a < r.start + r.count
  }

  lemma {:induction false} SumMonotone(s: seq<nat>, j: nat, k: nat)
    requires j <= k <= |s|
    ensures Sum(s, j) <= Sum(s, k)
    decreases k - j
  {
    if j < k {
      SumMonotone(s, j, k - 1);
    }
  }

  lemma {:induction false} FindRange(counts: seq<nat>, k: nat, a: nat) returns (i: nat)
    requires k <= |counts| && a < Sum(counts, k)
    ensures i < k && Sum(counts, i) <= a < Sum(counts, i) + counts[i]
  {
    if a >= Sum(counts, k - 1) {
      i := k - 1;
    } else {
      i := FindRange(counts, k - 1, a);
    }
  }

  lemma InBothRanges(ranges: seq<ContiguousRange>, counts: seq<nat>, i: nat, j: nat, a: nat)
    requires LaidOut(ranges, counts, |counts|) && i < j < |ranges|
    ensures !(InRange(ranges[i], a) && InRange(ranges[j], a))
  {
    SumMonotone(counts, i + 1, j);
  }

  lemma InSomeRange(ranges: seq<ContiguousRange>, counts: seq<nat>, a: nat)
    requires LaidOut(ranges, counts, |counts|)
    ensures a < Sum(counts, |counts|) <==> exists i :: 0 <= i < |ranges| && InRange(ranges[i], a)
  {
    if a < Sum(counts, |counts|) {
      var i := FindRange(counts, |counts|, a);
      assert InRange(ranges[i], a);
    }
    forall i | 0 <= i < |ranges| && InRange(ranges[i], a) ensures a < Sum(counts, |counts|) {
      SumMonotone(counts, i + 1, |counts|);
    }
  }

  /** Every index up to the total lies in exactly one range, and no other index in any. */
  lemma RangesTile(ranges: seq<ContiguousRange>, counts: seq<nat>, a: nat)
    requires LaidOut(ranges, counts, |counts|)
    ensures a < Sum(counts, |counts|) <==> exists i :: 0 <= i < |ranges| && InRange(ranges[i], a)
    ensures forall i, j :: 0 <= i < j < |ranges| ==>
              !(InRange(ranges[i], a) && InRange(ranges[j], a))
  {
    hide InRange, Sum;
    InSomeRange(ranges, counts, a);
    forall i, j | 0 <= i < j < |ranges| ensures !(InRange(ranges[i], a) && InRange(ranges[j], a)) {
      InBothRanges(ranges, counts, i, j, a);
    }
  }

  // ---------------------------------------------------------------------------
  // Alignment
  // ---------------------------------------------------------------------------

  lemma Scale(a: nat, b: nat, d: nat)
    requires a <= b
    ensures a * d <= b * d
  {
    assert b * d == a * d + (b - a) * d;
  }

  lemma DivideProduct(m: nat, d: nat, r: nat)
    requires d > 0 && r < d
    ensures (m * d + r) / d == m && (m * d + r) % d == r
  {
    var x := m * d + r;
    var q := x / d;
    Division(x, d);
    if q < m {
      Scale(q + 1, m, d);
    } else if q > m {
      Scale(m + 1, q, d);
    }
  }

  lemma Division(x: nat, d: nat)
    requires d > 0
    ensures x == x / d * d + x % d
    ensures forall q: nat :: (q + 1) * d == q * d + d
  {
  }

  lemma MultipleOf(m: nat, d: nat)
    requires d > 0
    ensures m * d % d == 0
  {
    DivideProduct(m, d, 0);
  }

  lemma Quotient(a: nat, d: nat)
    requires d > 0 && a % d == 0
    ensures a == a / d * d
  {
  }

  lemma RoundUpBounds(a: nat, q: nat)
    requires q > 0
    ensures a <= RoundUp(a, q) < a + q
    ensures RoundUp(a, q) % q == 0
  {
    MultipleOf(CeilDiv(a, q), q);
    var x := a + q - 1;
    assert x == x / q * q + x % q;
  }

  /** A multiple stays what it is. */
  lemma RoundUpMultiple(a: nat, q: nat)
    requires q > 0 && a % q == 0
    ensures RoundUp(a, q) == a
  {
    Quotient(a, q);
    DivideProduct(a / q, q, q - 1);
  }

  lemma MultipleTrans(a: nat, b: nat, c: nat)
    requires b > 0 && c > 0 && a % b == 0 && b % c == 0
    ensures a % c == 0
  {
    Quotient(a, b);
    Quotient(b, c);
    var x, y := a / b, b / c;
    assert a == x * (y * c) == (x * y) * c;
    MultipleOf(x * y, c);
  }

  /** A count is a multiple of the quantum, and if window or quantum divides the other also of
      the window. */
  lemma CountAligned(windows: nat, H: nat, Q: nat)
    requires windows > 0 && H > 0 && Q > 0
    ensures Count(windows, H, Q) > 0 && Count(windows, H, Q) % Q == 0
    ensures H % Q == 0 || Q % H == 0 ==> Count(windows, H, Q) % H == 0
    ensures H % Q == 0 ==> Count(windows, H, Q) == windows * H
  {
    var c := windows * H;
    assert c > 0;
    MultipleOf(windows, H);
    if Q > 1 {
      RoundUpBounds(c, Q);
      if H % Q == 0 {
        MultipleTrans(c, H, Q);
        RoundUpMultiple(c, Q);
      } else if Q % H == 0 {
        MultipleTrans(RoundUp(c, Q), Q, H);
      }
    }
  }

  /** Quantum rounding keeps every count a multiple of the window exactly if one of window and
      quantum divides the other. */
  lemma AlignedIff(H: nat, Q: nat)
    requires H > 0 && Q > 0
    ensures (forall w: nat :: w > 0 ==> Count(w, H, Q) % H == 0) <==> H % Q == 0 || Q % H == 0
  {
    if H % Q == 0 || Q % H == 0 {
      forall w: nat | w > 0 ensures Count(w, H, Q) % H == 0 {
        CountAligned(w, H, Q);
      }
    }
    if Count(1, H, Q) % H == 0 && Q > 1 {
      OneWindow(H, Q);
    }
  }

  /** Every range is a nonempty multiple of the quantum and, if window or quantum divides the
      other, of the window. */
  lemma RangesAligned(smCounts: seq<nat>, target: nat, H: nat, Q: nat)
    requires |smCounts| > 0 && 0 < H < WORD32 && Q > 0
    ensures var c := Counts(smCounts, target, H, Q);
            && (forall i :: 0 <= i < |c| ==> c[i] > 0 && c[i] % Q == 0)
            && (H % Q == 0 || Q % H == 0 ==> forall i :: 0 <= i < |c| ==> c[i] % H == 0)
  {
    hide WindowEstimate, Share, CeilDiv, Count;
    var estimate, share := WindowEstimate(|smCounts|, target, H), Share(smCounts);
    var c := Counts(smCounts, target, H, Q);
    forall i | 0 <= i < |c|
      ensures c[i] > 0 && c[i] % Q == 0
      ensures H % Q == 0 || Q % H == 0 ==> c[i] % H == 0
    {
      CountAligned(Windows(estimate, smCounts[i], share), H, Q);
    }
  }

  lemma OneWindow(H: nat, Q: nat)
    requires H > 0 && Q > 1 && RoundUp(H, Q) % H == 0
    ensures H % Q == 0 || Q % H == 0
  {
    RoundUpBounds(H, Q);
    var r := RoundUp(H, Q);
    Quotient(r, H);
    if r != H {
      TwiceAtLeast(r / H, H);
      assert H < Q;
      DivideProduct(1, Q, H - 1);
    }
  }

  lemma TwiceAtLeast(k: nat, H: nat)
    requires H > 0 && k * H >= H && k * H != H
    ensures k * H >= 2 * H
  {
    if k >= 2 {
      Scale(2, k, H);
    }
  }

  // ---------------------------------------------------------------------------
  // The total
  // ---------------------------------------------------------------------------

  lemma CeilDivBound(a: nat, b: nat)
    requires b > 0
    ensures CeilDiv(a, b) * b >= a
  {
    RoundUpBounds(a, b);
  }

  lemma CountAtLeast(windows: nat, H: nat, Q: nat)
    requires H > 0
    ensures Count(windows, H, Q) >= windows * H
  {
    if Q > 1 {
      RoundUpBounds(windows * H, Q);
    }
  }

  /** Scaled by the share, the counts make up the estimate times the sum of the shares. */
  lemma {:induction false} SumOfCeilings(smCounts: seq<nat>, target: nat, H: nat, Q: nat, k: nat)
    requires |smCounts| > 0 && 0 < H < WORD32 && k <= |smCounts|
    ensures Sum(Counts(smCounts, target, H, Q), k) * Share(smCounts)
            >= WindowEstimate(|smCounts|, target, H) * Sum(smCounts, k) * H
  {
    hide WindowEstimate, Share, CeilDiv, Count;
    if k > 0 {
      SumOfCeilings(smCounts, target, H, Q, k - 1);
      var e, s := WindowEstimate(|smCounts|, target, H), Share(smCounts);
      var counts := Counts(smCounts, target, H, Q);
      var w := Windows(e, smCounts[k - 1], s);
      CountAtLeast(w, H, Q);
      CeilDivBound(e * smCounts[k - 1], s);
      assert w * s >= e * smCounts[k - 1] by { Scale(CeilDiv(e * smCounts[k - 1], s), w, s); }
      AddTerm(Sum(counts, k - 1), counts[k - 1], s, e, Sum(smCounts, k - 1), smCounts[k - 1], H, w);
    }
  }

  lemma AddTerm(before: nat, count: nat, s: nat, e: nat, sumBefore: nat, sm: nat, H: nat, w: nat)
    requires before * s >= e * sumBefore * H
    requires count >= w * H && w * s >= e * sm
    ensures (before + count) * s >= e * (sumBefore + sm) * H
  {
    Scale(w * H, count, s);
    Scale(e * sm, w * s, H);
    assert w * H * s == w * s * H;
    assert (before + count) * s == before * s + count * s;
    assert e * (sumBefore + sm) * H == e * sumBefore * H + e * sm * H by {
      assert e * (sumBefore + sm) == e * sumBefore + e * sm;
    }
  }

  lemma CancelFactor(a: nat, b: nat, s: nat)
    requires s > 0 && a * s >= b * s
    ensures a >= b
  {
    if a < b {
      Scale(a + 1, b, s);
    }
  }

  lemma {:induction false} AllZero(smCounts: seq<nat>, k: nat)
    requires k <= |smCounts| && Sum(smCounts, |smCounts|) == 0
    ensures Sum(smCounts, k) == 0
    ensures forall i :: 0 <= i < k ==> smCounts[i] == 0
  {
    SumMonotone(smCounts, k, |smCounts|);
    if k > 0 {
      AllZero(smCounts, k - 1);
    }
  }

  /** With no multiprocessors reported every node gets one window. */
  lemma {:induction false} EqualSplit(smCounts: seq<nat>, target: nat, H: nat, Q: nat, k: nat)
    requires |smCounts| > 0 && 0 < H < WORD32 && Q > 0 && H % Q == 0 && k <= |smCounts|
    requires Sum(smCounts, |smCounts|) == 0
    ensures Sum(Counts(smCounts, target, H, Q), k) == k * H
  {
    hide WindowEstimate, Count;
    if k > 0 {
      EqualSplit(smCounts, target, H, Q, k - 1);
      AllZero(smCounts, |smCounts|);
      var e, s := WindowEstimate(|smCounts|, target, H), Share(smCounts);
      assert e * smCounts[k - 1] == 0;
      assert CeilDiv(0, s) == 0 by { DivideProduct(0, s, s - 1); }
      CountAligned(1, H, Q);
      assert k * H == (k - 1) * H + H;
    }
  }

  /** The ranges hold the estimated number of windows, if and only if some node reports a
      multiprocessor. */
  lemma TotalIsEnoughIff(smCounts: seq<nat>, target: nat, H: nat, Q: nat)
    requires 0 < |smCounts| < WORD32 && 0 < H < WORD32 && Q > 0 && H % Q == 0
    ensures Sum(Counts(smCounts, target, H, Q), |smCounts|)
            >= WindowEstimate(|smCounts|, target, H) * H
            <==> Sum(smCounts, |smCounts|) > 0
  {
    var n, e, s := |smCounts|, WindowEstimate(|smCounts|, target, H), Share(smCounts);
    assert e >= 4 * n;
    hide WindowEstimate, Share, CeilDiv, Counts, Sum;
    var total, sms := Sum(Counts(smCounts, target, H, Q), n), Sum(smCounts, n);
    if sms > 0 {
      ShareAtMost(smCounts);
      SumOfCeilings(smCounts, target, H, Q, n);
      EnoughWindows(total, s, e, sms, H);
    } else {
      EqualSplit(smCounts, target, H, Q, n);
      TooFewWindows(n, e, H);
    }
  }

  lemma ShareAtMost(smCounts: seq<nat>)
    requires 0 < |smCounts| < WORD32 && Sum(smCounts, |smCounts|) > 0
    ensures 0 < Share(smCounts) <= Sum(smCounts, |smCounts|)
  {
  }

  lemma EnoughWindows(total: nat, s: nat, e: nat, sms: nat, H: nat)
    requires 0 < s <= sms && total * s >= e * sms * H
    ensures total >= e * H
  {
    Scale(s, sms, e * H);
    assert e * sms * H == sms * (e * H) && s * (e * H) == (e * H) * s;
    CancelFactor(total, e * H, s);
  }

  lemma TooFewWindows(n: nat, e: nat, H: nat)
    requires n > 0 && H > 0 && e >= 4 * n
    ensures n * H < e * H
  {
    Scale(4 * n, e, H);
    assert 4 * n * H == 4 * (n * H) && n * H > 0;
  }

  // ---------------------------------------------------------------------------
  // Proportional shares
  // ---------------------------------------------------------------------------

  /** A rounded-up quotient is the least number of times the divisor covers the dividend. */
  lemma CeilDivExact(a: nat, b: nat)
    requires b > 0
    ensures CeilDiv(a, b) * b >= a
    ensures a > 0 ==> CeilDiv(a, b) > 0 && (CeilDiv(a, b) - 1) * b < a
    ensures a == 0 ==> CeilDiv(a, b) == 0
  {
    RoundUpBounds(a, b);
    var c := CeilDiv(a, b);
    assert (c - 1) * b == c * b - b;
    if a == 0 {
      DivideProduct(0, b, b - 1);
    }
  }

  /** The estimate: enough windows for the target and four per node, and not more than that takes:
      a window counts for two and a half times the hypercube, and they come in pairs. */
  lemma EstimateExact(nodes: nat, target: nat, H: nat)
    requires H > 0 && 5 * H < WORD32
    ensures var e := WindowEstimate(nodes, target, H);
            && e >= 4 * nodes && e * (5 * H) >= 2 * target
            && (e == 4 * nodes || (e % 2 == 0 && e >= 2 && (e - 2) * (5 * H) < 2 * target))
  {
    var d := 5 * H;
    assert d % WORD32 == d;
    var c := CeilDiv(target, d);
    CeilDivExact(target, d);
    hide CeilDiv;
    var e := WindowEstimate(nodes, target, H);
    assert e == Max(4 * nodes, c * 2);
    Scale(c * 2, e, d);
    assert (c * 2) * d == 2 * (c * d);
    if e != 4 * nodes {
      assert e == c * 2 && c > 0;
      assert (e - 2) * d == 2 * ((c - 1) * d);
    }
  }

  /** The windows of a node: its share of the estimate in proportion to its multiprocessors, rounded
      up, and one window for a node that reports none. */
  lemma WindowsExact(estimate: nat, sm: nat, share: nat)
    requires share > 0 && estimate > 0
    ensures var w := Windows(estimate, sm, share);
            && w > 0 && w * share >= estimate * sm
            && (sm > 0 ==> (w - 1) * share < estimate * sm)
            && (sm == 0 ==> w == 1)
  {
    var a, c := estimate * sm, CeilDiv(estimate * sm, share);
    CeilDivExact(a, share);
    hide CeilDiv;
    if sm > 0 {
      Scale(1, sm, estimate);
      assert sm * estimate == a;
    } else {
      assert a == 0;
    }
  }

  lemma ShareIsTotal(smCounts: seq<nat>)
    requires |smCounts| > 0 && 0 < Sum(smCounts, |smCounts|) < WORD32
    ensures Share(smCounts) == Sum(smCounts, |smCounts|)
  {
  }

  lemma CountExact(w: nat, H: nat, Q: nat)
    requires w > 0 && H > 0 && Q > 0
    ensures w * H <= Count(w, H, Q) < w * H + Q && Count(w, H, Q) % Q == 0
  {
    CountAligned(w, H, Q);
    if Q > 1 {
      RoundUpBounds(w * H, Q);
    }
  }

  /** Every node's count is `w` windows rounded up to the quantum, where `w` is its proportional
      share of the estimate rounded up. */
  lemma NodeShare(smCounts: seq<nat>, target: nat, H: nat, Q: nat, i: nat) returns (w: nat)
    requires i < |smCounts| && 0 < H < WORD32 && Q > 0
    requires 0 < Sum(smCounts, |smCounts|) < WORD32
    ensures var (c, e, total) := (Counts(smCounts, target, H, Q)[i],
                                  WindowEstimate(|smCounts|, target, H),
                                  Sum(smCounts, |smCounts|));
            && w > 0 && w * H <= c < w * H + Q && c % Q == 0
            && w * total >= e * smCounts[i]
            && (smCounts[i] > 0 ==> (w - 1) * total < e * smCounts[i])
            && (smCounts[i] == 0 ==> w == 1)
  {
    var e := WindowEstimate(|smCounts|, target, H);
    assert e >= 4 * |smCounts|;
    hide WindowEstimate, Count, Sum, Windows;
    ShareIsTotal(smCounts);
    w := Windows(e, smCounts[i], Share(smCounts));
    WindowsExact(e, smCounts[i], Share(smCounts));
    CountExact(w, H, Q);
  }

  /** Scaled by the total, the first `k` counts exceed their proportional share by at most one
      window and one quantum each. */
  lemma {:induction false} SumAtMost(smCounts: seq<nat>, target: nat, H: nat, Q: nat, k: nat)
    returns (windows: nat)
    requires k <= |smCounts| && 0 < H < WORD32 && Q > 0
    requires 0 < Sum(smCounts, |smCounts|) < WORD32
    ensures Sum(Counts(smCounts, target, H, Q), k) <= windows * H + k * (Q - 1)
    ensures windows * Sum(smCounts, |smCounts|)
            <= WindowEstimate(|smCounts|, target, H) * Sum(smCounts, k)
               + k * Sum(smCounts, |smCounts|)
  {
    hide WindowEstimate, Count, Windows, Share;
    if k == 0 {
      windows := 0;
    } else {
      var before := SumAtMost(smCounts, target, H, Q, k - 1);
      var w := NodeShare(smCounts, target, H, Q, k - 1);
      windows := before + w;
      AddAtMost(Sum(Counts(smCounts, target, H, Q), k - 1), Counts(smCounts, target, H, Q)[k - 1],
                before, w, WindowEstimate(|smCounts|, target, H), Sum(smCounts, k - 1),
                smCounts[k - 1], Sum(smCounts, |smCounts|), H, Q, k);
    }
  }

  lemma AddAtMost(sum: nat, count: nat, before: nat, w: nat, e: nat, sumBefore: nat, sm: nat,
                  total: nat, H: nat, Q: nat, k: nat)
    requires Q > 0 && k > 0 && w > 0
    requires sum <= before * H + (k - 1) * (Q - 1) && count < w * H + Q
    requires before * total <= e * sumBefore + (k - 1) * total
    requires (sm > 0 ==> (w - 1) * total < e * sm) && (sm == 0 ==> w == 1)
    ensures sum + count <= (before + w) * H + k * (Q - 1)
    ensures (before + w) * total <= e * (sumBefore + sm) + k * total
  {
    assert (before + w) * H == before * H + w * H;
    assert k * (Q - 1) == (k - 1) * (Q - 1) + (Q - 1);
    assert (before + w) * total == before * total + w * total;
    assert (w - 1) * total == w * total - total;
    assert e * (sumBefore + sm) == e * sumBefore + e * sm;
    assert k * total == (k - 1) * total + total;
    assert e * sm >= 0;
  }

  /** All ranges together hold at most one window and one quantum per node more than the estimate
      asks for. */
  lemma TotalAtMost(smCounts: seq<nat>, target: nat, H: nat, Q: nat)
    requires |smCounts| > 0 && 0 < H < WORD32 && Q > 0
    requires 0 < Sum(smCounts, |smCounts|) < WORD32
    ensures var n := |smCounts|;
            Sum(Counts(smCounts, target, H, Q), n)
            <= (WindowEstimate(n, target, H) + n) * H + n * (Q - 1)
  {
    hide WindowEstimate, Counts, Sum;
    var n, total := |smCounts|, Sum(smCounts, |smCounts|);
    var e := WindowEstimate(n, target, H);
    var windows := SumAtMost(smCounts, target, H, Q, n);
    assert (e + n) * total == e * total + n * total;
    CancelFactor(e + n, windows, total);
    Scale(windows, e + n, H);
  }
}
