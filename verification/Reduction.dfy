/** What it means for a matrix reduction to keep the left kernel.

    The rows that are still alive are sums of input rows; `combos[r]` records which input
    rows were added to form row `r`. */
module Reduction {
  import opened Gf2

  /** No nonempty selection of live rows uses every input row an even number of times. */
  ghost predicate Independent(combos: seq<set<nat>>, alive: set<nat>) {
    forall y :: y <= alive && Comb(combos, y) == {} ==> y == {}
  }

  /** Every dependency of the input is the expansion of a selection of live rows. */
  ghost predicate Complete(input: seq<set<nat>>, combos: seq<set<nat>>, alive: set<nat>) {
    forall x :: Kernel(input, Below(|input|), x) ==> exists y :: y <= alive && Comb(combos, y) == x
  }

  /** Each live row is the sum of the input rows its combination names. */
  ghost predicate Explained(input: seq<set<nat>>, rows: seq<set<nat>>, combos: seq<set<nat>>,
                            alive: set<nat>)
  {
    && |rows| == |combos|
    && forall r :: r in alive ==>
         r < |rows| && combos[r] <= Below(|input|) && rows[r] == Comb(input, combos[r])
  }

  /** The invariant of every reduction loop. */
  ghost predicate Reduces(input: seq<set<nat>>, rows: seq<set<nat>>, combos: seq<set<nat>>,
                          alive: set<nat>)
  {
    && Explained(input, rows, combos, alive)
    && Independent(combos, alive)
    && Complete(input, combos, alive)
  }

  lemma CombWithin(combos: seq<set<nat>>, y: set<nat>, bound: set<nat>)
    requires forall r :: r in y && r < |combos| ==> combos[r] <= bound
    ensures Comb(combos, y) <= bound
  {
  }

  /** A selection of live rows is a dependency of the current rows exactly when its
      expansion is a dependency of the input. */
  lemma ExpansionIsDependency(input: seq<set<nat>>, rows: seq<set<nat>>, combos: seq<set<nat>>,
                              alive: set<nat>, y: set<nat>)
    requires Explained(input, rows, combos, alive)
    requires y <= alive
    ensures Kernel(rows, alive, y) <==> Kernel(input, Below(|input|), Comb(combos, y))
  {
    CombComb(input, rows, combos, y);
    CombWithin(combos, y, Below(|input|));
  }

  /** Different selections expand to different selections. */
  lemma ExpansionInjective(combos: seq<set<nat>>, alive: set<nat>, y: set<nat>, z: set<nat>)
    requires Independent(combos, alive)
    requires y <= alive && z <= alive
    requires Comb(combos, y) == Comb(combos, z)
    ensures y == z
  {
    CombAdd(combos, y, z);
    assert Add(y, z) <= alive;
    assert Comb(combos, Add(y, z)) == {};
    assert Add(y, z) == {};
  }

  // ---------------------------------------------------------------------------
  // Start of a reduction
  // ---------------------------------------------------------------------------

  ghost function Units(n: nat): (u: seq<set<nat>>)
    ensures |u| == n
    ensures forall r :: 0 <= r < n ==> u[r] == {r}
  {
    seq(n, r requires 0 <= r < n => {r})
  }

  lemma {:induction false} CombUnits(n: nat, y: set<nat>)
    requires y <= Below(n)
    ensures Comb(Units(n), y) == y
    decreases |y|
  {
    if y == {} {
      CombEmpty(Units(n));
    } else {
      var r :| r in y;
      CombUnits(n, y - {r});
      CombSplit(Units(n), y, r);
      assert Add(y - {r}, {r}) == y;
    }
  }

  lemma ReducesSelf(input: seq<set<nat>>)
    ensures Reduces(input, input, Units(|input|), Below(|input|))
  {
    var n := |input|;
    forall r | r in Below(n) ensures input[r] == Comb(input, Units(n)[r]) {
      CombSingleton(input, r);
    }
    forall y | y <= Below(n) ensures Comb(Units(n), y) == y {
      CombUnits(n, y);
    }
  }

  // ---------------------------------------------------------------------------
  // Dropping a row that no dependency uses
  // ---------------------------------------------------------------------------

  lemma DropUnusedRow(input: seq<set<nat>>, rows: seq<set<nat>>, combos: seq<set<nat>>,
                      alive: set<nat>, p: nat, c: nat)
    requires Reduces(input, rows, combos, alive)
    requires p in alive && Hits(rows, alive, c) == {p}
    ensures Reduces(input, rows, combos, alive - {p})
  {
    forall x | Kernel(input, Below(|input|), x)
      ensures exists y :: y <= alive - {p} && Comb(combos, y) == x
    {
      var y :| y <= alive && Comb(combos, y) == x;
      assert p in y ==> Hits(rows, y, c) == {p} by {
        assert Hits(rows, y, c) <= Hits(rows, alive, c);
      }
      ExpansionIsDependency(input, rows, combos, alive, y);
      InComb(rows, y, c);
      assert y <= alive - {p};
    }
  }

  // ---------------------------------------------------------------------------
  // Adding one live row to another
  // ---------------------------------------------------------------------------

  /** The selection before the addition that a selection after it stands for: the source row
      is used once more exactly when the target row is. */
  ghost function Undo(y: set<nat>, source: nat, target: nat): set<nat> {
    if target in y then Add(y, {source}) else y
  }

  lemma CombAddRow(rows: seq<set<nat>>, y: set<nat>, source: nat, target: nat)
    requires source < |rows| && target < |rows| && source != target
    ensures Comb(rows[target := Add(rows[source], rows[target])], y) ==
            Comb(rows, Undo(y, source, target))
  {
    var rows' := rows[target := Add(rows[source], rows[target])];
    if target in y {
      CombSplit(rows', y, target);
      CombLocal(rows, rows', y - {target});
      CombSplit(rows, y, target);
      CombSingleton(rows, source);
      CombAdd(rows, y, {source});
    } else {
      CombLocal(rows, rows', y);
    }
  }

  /** Adding one live row to another keeps the correspondence between dependencies. */
  lemma AddLiveRow(input: seq<set<nat>>, rows: seq<set<nat>>, combos: seq<set<nat>>,
                   alive: set<nat>, source: nat, target: nat)
    requires Reduces(input, rows, combos, alive)
    requires source in alive && target in alive && source != target
    ensures Reduces(input, rows[target := Add(rows[source], rows[target])],
                    combos[target := Add(combos[source], combos[target])], alive)
  {
    var combos' := combos[target := Add(combos[source], combos[target])];
    CombAdd(input, combos[source], combos[target]);
    forall y | y <= alive
      ensures Comb(combos', y) == Comb(combos, Undo(y, source, target))
      ensures Undo(y, source, target) <= alive
      ensures Undo(Undo(y, source, target), source, target) == y
    {
      CombAddRow(combos, y, source, target);
    }
    forall y | y <= alive && Comb(combos', y) == {} ensures y == {} {
      assert Undo(y, source, target) == {};
      assert target !in y;
    }
    forall x | Kernel(input, Below(|input|), x)
      ensures exists y :: y <= alive && Comb(combos', y) == x
    {
      var z :| z <= alive && Comb(combos, z) == x;
      assert Comb(combos', Undo(z, source, target)) == x;
    }
  }
}
