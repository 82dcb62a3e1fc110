/** Linear algebra over GF(2).

    A vector is the finite set of its nonzero coordinates and addition is the symmetric
    difference.  A matrix is a sequence of rows.  A selection of rows is again a vector:
    the set of the selected row indices. */
module Gf2 {

  /** Sum of two vectors over GF(2). */
  function Add(a: set<nat>, b: set<nat>): set<nat> {
    (a - b) + (b - a)
  }

  ghost predicate Odd(s: set<nat>) {
    |s| % 2 == 1
  }

  /** The selected rows that have a one in column `c`. */
  ghost function Hits(rows: seq<set<nat>>, x: set<nat>, c: nat): set<nat> {
    set r | r in x && r < |rows| && c in rows[r]
  }

  /** Sum of the selected rows: the columns hit an odd number of times. */
  ghost function Comb(rows: seq<set<nat>>, x: set<nat>): set<nat> {
    set r, c | r in x && r < |rows| && c in rows[r] && Odd(Hits(rows, x, c)) :: c
  }

  /** `x` selects rows among `alive` only and they add up to zero. */
  ghost predicate Kernel(rows: seq<set<nat>>, alive: set<nat>, x: set<nat>) {
    x <= alive && Comb(rows, x) == {}
  }

  /** The indices below `n`. */
  ghost function Below(n: nat): (s: set<nat>)
    ensures forall r :: r in s <==> 0 <= r < n
  {
    if n == 0 then {} else Below(n - 1) + {n - 1}
  }

  // ---------------------------------------------------------------------------
  // Addition and parity
  // ---------------------------------------------------------------------------

  lemma AddParity(a: set<nat>, b: set<nat>)
    ensures Odd(Add(a, b)) <==> (Odd(a) != Odd(b))
  {
    assert a == (a - b) + (a * b);
    assert b == (b - a) + (a * b);
    assert |a| == |a - b| + |a * b|;
    assert |b| == |b - a| + |a * b|;
    assert |Add(a, b)| == |a - b| + |b - a|;
  }

  lemma InComb(rows: seq<set<nat>>, x: set<nat>, c: nat)
    ensures c in Comb(rows, x) <==> Odd(Hits(rows, x, c))
  {
    if Odd(Hits(rows, x, c)) {
      var h := Hits(rows, x, c);
      assert h != {};
      var r :| r in h;
      assert r in x && r < |rows| && c in rows[r];
    }
  }

  /** The sum over a selection is linear in the selection. */
  lemma CombAdd(rows: seq<set<nat>>, x: set<nat>, y: set<nat>)
    ensures Comb(rows, Add(x, y)) == Add(Comb(rows, x), Comb(rows, y))
  {
    forall c: nat
      ensures c in Comb(rows, Add(x, y)) <==> c in Add(Comb(rows, x), Comb(rows, y))
    {
      assert Hits(rows, Add(x, y), c) == Add(Hits(rows, x, c), Hits(rows, y, c));
      AddParity(Hits(rows, x, c), Hits(rows, y, c));
      InComb(rows, x, c);
      InComb(rows, y, c);
      InComb(rows, Add(x, y), c);
    }
  }

  lemma CombEmpty(rows: seq<set<nat>>)
    ensures Comb(rows, {}) == {}
  {
  }

  lemma CombSingleton(rows: seq<set<nat>>, r: nat)
    requires r < |rows|
    ensures Comb(rows, {r}) == rows[r]
  {
    forall c: nat
      ensures c in Comb(rows, {r}) <==> c in rows[r]
    {
      InComb(rows, {r}, c);
      if c in rows[r] {
        assert Hits(rows, {r}, c) == {r};
      } else {
        assert Hits(rows, {r}, c) == {};
      }
    }
  }

  /** Taking one row out of a selection subtracts that row from the sum. */
  lemma CombSplit(rows: seq<set<nat>>, x: set<nat>, r: nat)
    requires r in x && r < |rows|
    ensures Comb(rows, x) == Add(Comb(rows, x - {r}), rows[r])
  {
    assert Add(x - {r}, {r}) == x;
    CombAdd(rows, x - {r}, {r});
    CombSingleton(rows, r);
  }

  /** Sums of sums: if every selected row of `outer` is itself a sum of rows of `inner`,
      then so is the sum of the selection. */
  lemma {:induction false} CombComb(inner: seq<set<nat>>, outer: seq<set<nat>>,
                                    combos: seq<set<nat>>, y: set<nat>)
    requires |combos| == |outer|
    requires forall r :: r in y ==> r < |outer|
    requires forall r :: r in y ==> outer[r] == Comb(inner, combos[r])
    ensures Comb(outer, y) == Comb(inner, Comb(combos, y))
    decreases |y|
  {
    if y == {} {
      CombEmpty(outer);
      CombEmpty(combos);
      CombEmpty(inner);
    } else {
      var r :| r in y;
      CombComb(inner, outer, combos, y - {r});
      CombSplit(outer, y, r);
      CombSplit(combos, y, r);
      CombAdd(inner, Comb(combos, y - {r}), combos[r]);
    }
  }

  /** Only the rows that are selected matter. */
  lemma CombLocal(rows: seq<set<nat>>, rows': seq<set<nat>>, x: set<nat>)
    requires |rows| == |rows'|
    requires forall r :: r in x && r < |rows| ==> rows[r] == rows'[r]
    ensures Comb(rows, x) == Comb(rows', x)
  {
    forall c: nat ensures c in Comb(rows, x) <==> c in Comb(rows', x) {
      assert Hits(rows, x, c) == Hits(rows', x, c);
      InComb(rows, x, c);
      InComb(rows', x, c);
    }
  }
}
