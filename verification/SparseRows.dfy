/** Sparse rows: strictly increasing sequences of column indices. */
module SparseRows {
  import opened Gf2

  ghost predicate Increasing(s: seq<nat>) {
    forall i, j :: 0 <= i < j < |s| ==> s[i] < s[j]
  }

  ghost function Cols(row: seq<nat>): set<nat> {
    set c | c in row
  }

  ghost function ColSets(rows: seq<seq<nat>>): (s: seq<set<nat>>)
    ensures |s| == |rows|
    ensures forall r :: 0 <= r < |rows| ==> s[r] == Cols(rows[r])
  {
    seq(|rows|, r requires 0 <= r < |rows| => Cols(rows[r]))
  }

  lemma ColsSnoc(row: seq<nat>, k: nat)
    requires k < |row|
    ensures Cols(row[..k + 1]) == Cols(row[..k]) + {row[k]}
  {
    assert row[..k + 1] == row[..k] + [row[k]];
  }

  lemma {:induction false} IncreasingCard(a: seq<nat>)
    requires Increasing(a)
    ensures |Cols(a)| == |a|
  {
    if |a| == 0 {
      assert Cols(a) == {};
    } else {
      var m := |a| - 1;
      IncreasingCard(a[..m]);
      ColsSnoc(a, m);
      assert a[..m + 1] == a;
      assert a[m] !in a[..m];
    }
  }

  lemma LastIsMax(a: seq<nat>)
    requires Increasing(a) && |a| > 0
    ensures forall c :: c in a ==> c <= a[|a| - 1]
    ensures Cols(a[..|a| - 1]) == Cols(a) - {a[|a| - 1]}
  {
    var m := |a| - 1;
    ColsSnoc(a, m);
    assert a[..m + 1] == a;
    assert a[m] !in a[..m];
  }

  /** A strictly increasing sequence is determined by its set of elements. */
  lemma {:induction false} IncreasingUnique(a: seq<nat>, b: seq<nat>)
    requires Increasing(a) && Increasing(b)
    requires Cols(a) == Cols(b)
    ensures a == b
  {
    IncreasingCard(a);
    IncreasingCard(b);
    if |a| > 0 {
      var m := |a| - 1;
      LastIsMax(a);
      LastIsMax(b);
      assert a[m] in Cols(b) && b[m] in Cols(a);
      IncreasingUnique(a[..m], b[..m]);
      assert a == a[..m] + [a[m]] && b == b[..m] + [b[m]];
    }
  }

  // ---------------------------------------------------------------------------
  // Sorting
  // ---------------------------------------------------------------------------

  predicate Distinct(s: seq<nat>) {
    forall i, j :: 0 <= i < j < |s| ==> s[i] != s[j]
  }

  predicate Sorted(s: seq<nat>) {
    forall i, j :: 0 <= i < j < |s| ==> s[i] <= s[j]
  }

  method Insert(s: seq<nat>, e: nat) returns (r: seq<nat>)
    requires Sorted(s)
    ensures Sorted(r) && multiset(r) == multiset(s) + multiset{e}
  {
    hide Sorted;
    var i := |s|;
    while i > 0 && s[i - 1] > e
      invariant 0 <= i <= |s|
      invariant forall k :: i <= k < |s| ==> s[k] > e
    {
      i := i - 1;
    }
    assert i > 0 ==> s[i - 1] <= e;
    InsertedSorted(s, e, i);
    InsertedElements(s, e, i);
    r := s[..i] + [e] + s[i..];
  }

  lemma InsertedSorted(s: seq<nat>, e: nat, i: nat)
    requires Sorted(s) && i <= |s| && (i > 0 ==> s[i - 1] <= e)
    requires forall k :: i <= k < |s| ==> s[k] > e
    ensures Sorted(s[..i] + [e] + s[i..])
  {
    var t := s[..i] + [e] + s[i..];
    forall a, b | 0 <= a < b < |t| ensures t[a] <= t[b] {
      assert t[a] == if a < i then s[a] else if a == i then e else s[a - 1];
      assert t[b] == if b < i then s[b] else if b == i then e else s[b - 1];
      assert a < i ==> s[a] <= s[i - 1];
    }
  }

  lemma InsertedElements(s: seq<nat>, e: nat, i: nat)
    requires i <= |s|
    ensures multiset(s[..i] + [e] + s[i..]) == multiset(s) + multiset{e}
    ensures Cols(s[..i] + [e] + s[i..]) == Cols(s) + {e}
  {
    assert s == s[..i] + s[i..];
  }

  method Sort(s: seq<nat>) returns (r: seq<nat>)
    ensures Sorted(r) && multiset(r) == multiset(s)
  {
    r := [];
    for i := 0 to |s|
      invariant Sorted(r) && multiset(r) == multiset(s[..i])
    {
      assert s[..i + 1] == s[..i] + [s[i]];
      r := Insert(r, s[i]);
    }
    assert s[..|s|] == s;
  }

  lemma {:induction false} DistinctOnce(s: seq<nat>)
    requires Distinct(s)
    ensures forall e :: multiset(s)[e] <= 1
  {
    if |s| > 0 {
      var m := |s| - 1;
      DistinctOnce(s[..m]);
      assert s == s[..m] + [s[m]];
      assert s[m] !in s[..m];
    }
  }

  lemma OnceDistinct(s: seq<nat>)
    requires forall e :: multiset(s)[e] <= 1
    ensures Distinct(s)
  {
    forall i, j | 0 <= i < j < |s| ensures s[i] != s[j] {
      var front, back := s[..j], s[j..];
      assert s == front + back;
      assert front[i] in front && back[0] in back;
      assert multiset(s)[s[j]] == multiset(front)[s[j]] + multiset(back)[s[j]];
    }
  }

  lemma InsertedIncreasing(s: seq<nat>, e: nat, r: seq<nat>)
    requires Increasing(s) && e !in s
    requires Sorted(r) && multiset(r) == multiset(s) + multiset{e}
    ensures Increasing(r) && Cols(r) == Cols(s) + {e}
  {
    DistinctOnce(s);
    OnceDistinct(r);
    forall c: nat ensures c in Cols(r) <==> c in Cols(s) + {e} {
      assert c in r <==> c in multiset(r);
    }
  }

  /** Inserts a new element into a strictly increasing sequence. */
  method InsertSorted(s: seq<nat>, e: nat) returns (r: seq<nat>)
    requires Increasing(s) && e !in s
    ensures Increasing(r) && Cols(r) == Cols(s) + {e}
  {
    r := Insert(s, e);
    InsertedIncreasing(s, e, r);
  }

  // ---------------------------------------------------------------------------
  // Row addition
  // ---------------------------------------------------------------------------

  lemma ColsAppend(row: seq<nat>, c: nat)
    ensures Cols(row + [c]) == Cols(row) + {c}
  {
  }

  lemma AddFresh(a: set<nat>, b: set<nat>, c: nat)
    requires c !in a && c !in b
    ensures Add(a + {c}, b) == Add(a, b) + {c} == Add(a, b + {c})
    ensures Add(a + {c}, b + {c}) == Add(a, b)
  {
  }

  /** `result` is the sum of the first `i` entries of `a` and the first `j` entries of `b`,
      and everything read so far is below everything still to come. */
  ghost predicate Merging(result: seq<nat>, a: seq<nat>, b: seq<nat>, i: nat, j: nat) {
    && i <= |a| && j <= |b|
    && Increasing(result)
    && Cols(result) == Add(Cols(a[..i]), Cols(b[..j]))
    && (i < |a| ==> AllLess(result, a[i]) && AllLess(b[..j], a[i]))
    && (j < |b| ==> AllLess(result, b[j]) && AllLess(a[..i], b[j]))
  }

  ghost predicate AllLess(s: seq<nat>, e: nat) {
    forall k :: 0 <= k < |s| ==> s[k] < e
  }

  lemma TakeFirst(result: seq<nat>, a: seq<nat>, b: seq<nat>, i: nat, j: nat)
    requires Increasing(a) && Increasing(b) && Merging(result, a, b, i, j)
    requires i < |a| && (j < |b| ==> a[i] < b[j])
    ensures Merging(result + [a[i]], a, b, i + 1, j)
  {
    assert a[i] !in b[..j] && a[i] !in a[..i];
    ColsSnoc(a, i);
    AddFresh(Cols(a[..i]), Cols(b[..j]), a[i]);
    ColsAppend(result, a[i]);
    assert a[..i + 1] == a[..i] + [a[i]];
  }

  lemma TakeSecond(result: seq<nat>, a: seq<nat>, b: seq<nat>, i: nat, j: nat)
    requires Increasing(a) && Increasing(b) && Merging(result, a, b, i, j)
    requires j < |b| && (i < |a| ==> b[j] < a[i])
    ensures Merging(result + [b[j]], a, b, i, j + 1)
  {
    assert b[j] !in a[..i] && b[j] !in b[..j];
    ColsSnoc(b, j);
    AddFresh(Cols(a[..i]), Cols(b[..j]), b[j]);
    ColsAppend(result, b[j]);
    assert b[..j + 1] == b[..j] + [b[j]];
  }

  lemma Cancel(result: seq<nat>, a: seq<nat>, b: seq<nat>, i: nat, j: nat)
    requires Increasing(a) && Increasing(b) && Merging(result, a, b, i, j)
    requires i < |a| && j < |b| && a[i] == b[j]
    ensures Merging(result, a, b, i + 1, j + 1)
  {
    assert a[i] !in a[..i] && b[j] !in b[..j];
    ColsSnoc(a, i);
    ColsSnoc(b, j);
    AddFresh(Cols(a[..i]), Cols(b[..j]), a[i]);
    assert a[..i + 1] == a[..i] + [a[i]] && b[..j + 1] == b[..j] + [b[j]];
  }

  /** Row addition by merging two sorted rows; entries present in both cancel. */
  method XorRows(a: seq<nat>, b: seq<nat>) returns (result: seq<nat>)
    requires Increasing(a) && Increasing(b)
    ensures Increasing(result)
    ensures Cols(result) == Add(Cols(a), Cols(b))
  {
    result := [];
    var i, j := 0, 0;
    assert Cols(a[..0]) == {} == Cols(b[..0]);
    while i < |a| && j < |b|
      invariant Merging(result, a, b, i, j)
      decreases |a| + |b| - i - j
    {
      if a[i] < b[j] {
        TakeFirst(result, a, b, i, j);
        result := result + [a[i]];
        i := i + 1;
      } else if a[i] > b[j] {
        TakeSecond(result, a, b, i, j);
        result := result + [b[j]];
        j := j + 1;
      } else {
        Cancel(result, a, b, i, j);
        i, j := i + 1, j + 1;
      }
    }
    while i < |a|
      invariant Merging(result, a, b, i, j) && (i < |a| ==> j == |b|)
    {
      TakeFirst(result, a, b, i, j);
      result := result + [a[i]];
      i := i + 1;
    }
    while j < |b|
      invariant Merging(result, a, b, i, j) && i == |a|
    {
      TakeSecond(result, a, b, i, j);
      result := result + [b[j]];
      j := j + 1;
    }
    assert a[..i] == a && b[..j] == b;
  }
}
