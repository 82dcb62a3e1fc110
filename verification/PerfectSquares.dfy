/** Why a dependency is worth having: the relations it selects multiply to a square. */
module PerfectSquares {
  import opened Gf2
  import opened SparseRows
  import opened Relations
  import opened ExpandedMatrix

  function Pow(b: int, e: nat): int {
    if e == 0 then 1 else b * Pow(b, e - 1)
  }

  /** Product of the factor base primes of a relation, with multiplicity. */
  function FactorProduct(factors: seq<Factor>, fb: seq<nat>): int
    requires forall k :: 0 <= k < |factors| ==> factors[k].index < |fb|
  {
    if |factors| == 0 then 1
    else
      var k := |factors| - 1;
      FactorProduct(factors[..k], fb) * Pow(fb[factors[k].index], factors[k].count)
  }

  /** The signed number a relation factors. */
  function Value(rel: Relation, fb: seq<nat>, lp: nat): int
    requires forall k :: 0 <= k < |rel.factors| ==> rel.factors[k].index < |fb|
    requires rel.val2 >= 0
  {
    (if rel.sign != 1 then -1 else 1) * Pow(2, rel.val2) * FactorProduct(rel.factors, fb) * lp
  }

  /** What each matrix column stands for: the sign, two, the factor base, the large primes. */
  function ColumnValues(fb: seq<nat>, lps: seq<nat>): seq<int> {
    var head: seq<int> := [-1, 2];
    head + seq(|fb|, k requires 0 <= k < |fb| => fb[k] as int)
         + seq(|lps|, k requires 0 <= k < |lps| => lps[k] as int)
  }

  /** Product of the values of a set of columns. */
  ghost function Monomial(values: seq<int>, s: set<nat>): int {
    if |values| == 0 then 1
    else
      var c := |values| - 1;
      Monomial(values[..c], s) * if c in s then values[c] else 1
  }

  // ---------------------------------------------------------------------------
  // Arithmetic
  // ---------------------------------------------------------------------------

  lemma MulSquares(a: int, s: int, b: int, t: int)
    ensures (a * (s * s)) * (b * (t * t)) == (a * b) * ((s * t) * (s * t))
  {
    var ss, tt := s * s, t * t;
    assert (a * ss) * (b * tt) == (a * b) * (ss * tt);
    assert ss * tt == (s * t) * (s * t);
  }

  lemma {:induction false} EvenPow(b: int, e: nat)
    ensures Pow(b, e) == (if e % 2 == 1 then b else 1) * (Pow(b, e / 2) * Pow(b, e / 2))
  {
    if e >= 2 {
      EvenPow(b, e - 2);
      var h := Pow(b, e / 2 - 1);
      assert (e - 2) / 2 == e / 2 - 1;
      assert Pow(b, e / 2) == b * h;
      var o := if e % 2 == 1 then b else 1;
      assert Pow(b, e) == b * Pow(b, e - 1) == b * (b * Pow(b, e - 2));
      assert b * (b * (o * (h * h))) == o * ((b * h) * (b * h));
    }
  }

  // ---------------------------------------------------------------------------
  // Monomials
  // ---------------------------------------------------------------------------

  lemma {:induction false} MonomialLocal(values: seq<int>, s: set<nat>, t: set<nat>)
    requires forall c :: 0 <= c < |values| ==> (c in s <==> c in t)
    ensures Monomial(values, s) == Monomial(values, t)
  {
    if |values| > 0 {
      MonomialLocal(values[..|values| - 1], s, t);
    }
  }

  lemma {:induction false} MonomialEmpty(values: seq<int>)
    ensures Monomial(values, {}) == 1
  {
    if |values| > 0 {
      MonomialEmpty(values[..|values| - 1]);
    }
  }

  lemma {:induction false} MonomialFresh(values: seq<int>, s: set<nat>, c: nat)
    requires c < |values| && c !in s
    ensures Monomial(values, s + {c}) == Monomial(values, s) * values[c]
  {
    var n := |values| - 1;
    if c == n {
      MonomialLocal(values[..n], s + {c}, s);
    } else {
      MonomialFresh(values[..n], s, c);
      var m, v, w := Monomial(values[..n], s), values[c], if n in s then values[n] else 1;
      assert (m * v) * w == (m * w) * v;
    }
  }

  lemma MulStep(ms: int, mt: int, ma: int, mi: int, v: int, inS: bool, inT: bool)
    requires ms * mt == ma * (mi * mi)
    ensures var a, b := if inS then v else 1, if inT then v else 1;
            var c, d := if inS != inT then v else 1, if inS && inT then v else 1;
            (ms * a) * (mt * b) == (ma * c) * ((mi * d) * (mi * d))
  {
    var q := mi * mi;
    if inS && inT {
      assert (ms * v) * (mt * v) == (ms * mt) * (v * v);
      assert (mi * v) * (mi * v) == q * (v * v);
      assert (ma * q) * (v * v) == ma * (q * (v * v));
    } else if inS {
      assert (ms * v) * mt == (ms * mt) * v;
      assert (ma * q) * v == (ma * v) * q;
    } else if inT {
      assert ms * (mt * v) == (ms * mt) * v;
      assert (ma * q) * v == (ma * v) * q;
    }
  }

  /** Multiplying monomials adds their column sets, up to the square of what cancels. */
  lemma {:induction false} MonomialMul(values: seq<int>, s: set<nat>, t: set<nat>)
    ensures Monomial(values, s) * Monomial(values, t) ==
            Monomial(values, Add(s, t)) *
            (Monomial(values, s * t) * Monomial(values, s * t))
  {
    if |values| > 0 {
      var n := |values| - 1;
      var v := values[..n];
      MonomialMul(v, s, t);
      MulStep(Monomial(v, s), Monomial(v, t), Monomial(v, Add(s, t)), Monomial(v, s * t),
              values[n], n in s, n in t);
    }
  }

  // ---------------------------------------------------------------------------
  // One relation
  // ---------------------------------------------------------------------------

  lemma ColumnValueAt(fb: seq<nat>, lps: seq<nat>)
    ensures var v := ColumnValues(fb, lps);
            && |v| == 2 + |fb| + |lps| && v[0] == -1 && v[1] == 2
            && (forall k :: 0 <= k < |fb| ==> v[k + 2] == fb[k])
            && (forall k :: 0 <= k < |lps| ==> v[|fb| + 2 + k] == lps[k])
  {
  }

  /** The factor base part is the product of its odd columns, up to a square. */
  lemma {:induction false} FactorSquare(factors: seq<Factor>, fb: seq<nat>, lps: seq<nat>)
    returns (s: int)
    requires FactorsOk(factors, |fb|)
    ensures FactorProduct(factors, fb) ==
            Monomial(ColumnValues(fb, lps), OddFactors(factors)) * (s * s)
    decreases |factors|
  {
    var values := ColumnValues(fb, lps);
    if |factors| == 0 {
      assert OddFactors(factors) == {};
      MonomialEmpty(values);
      s := 1;
    } else {
      var k := |factors| - 1;
      var t := FactorSquare(factors[..k], fb, lps);
      var p, e := fb[factors[k].index], factors[k].count;
      EvenPow(p, e);
      OddFactorsStep(factors, k);
      assert factors[..k + 1] == factors;
      OddFactorsFresh(factors, k, |fb|);
      ColumnValueAt(fb, lps);
      var m := Monomial(values, OddFactors(factors[..k]));
      var h := Pow(p, e / 2);
      s := t * h;
      if e % 2 == 1 {
        MonomialFresh(values, OddFactors(factors[..k]), factors[k].index + 2);
        MulSquares(m, t, p, h);
      } else {
        assert OddFactors(factors) == OddFactors(factors[..k]);
        MulSquares(m, t, 1, h);
      }
    }
  }

  /** A relation's value is the product of the columns of its row, up to a square. */
  lemma RowSquare(rel: Relation, lp: LpCol, fb: seq<nat>, lps: seq<nat>, lpValue: nat)
    returns (s: int)
    requires FactorsOk(rel.factors, |fb|) && rel.val2 >= 0
    requires lp == NoLp ==> lpValue == 1
    requires lp.LpCol? ==> |fb| + 2 <= lp.col < |fb| + 2 + |lps|
                           && lps[lp.col - (|fb| + 2)] == lpValue
    ensures Value(rel, fb, lpValue) ==
            Monomial(ColumnValues(fb, lps), RowOf(rel, lp)) * (s * s)
  {
    var values := ColumnValues(fb, lps);
    ColumnValueAt(fb, lps);
    var t := FactorSquare(rel.factors, fb, lps);
    OddFactorsRange(rel.factors, |fb|);
    EvenPow(2, rel.val2);
    var h := Pow(2, rel.val2 / 2);
    var odd := OddFactors(rel.factors);
    var f := Monomial(values, odd);

    var withTwo := odd + if rel.val2 % 2 == 1 then {1} else {};
    var two := if rel.val2 % 2 == 1 then 2 else 1;
    assert Monomial(values, withTwo) == f * two by {
      if rel.val2 % 2 == 1 { MonomialFresh(values, odd, 1); } else { assert withTwo == odd; }
    }
    var withSign := withTwo + if rel.sign != 1 then {0} else {};
    var sgn := if rel.sign != 1 then -1 else 1;
    assert Monomial(values, withSign) == f * two * sgn by {
      if rel.sign != 1 { MonomialFresh(values, withTwo, 0); } else { assert withSign == withTwo; }
    }
    var all := withSign + if lp.LpCol? then {lp.col} else {};
    assert Monomial(values, all) == f * two * sgn * lpValue by {
      if lp.LpCol? { MonomialFresh(values, withSign, lp.col); } else { assert all == withSign; }
    }
    assert all == RowOf(rel, lp);
    s := h * t;
    ValueShape(sgn, two, h, f, t, lpValue);
  }

  lemma ValueShape(sgn: int, two: int, h: int, f: int, t: int, lp: int)
    ensures sgn * (two * (h * h)) * (f * (t * t)) * lp ==
            (f * two * sgn * lp) * ((h * t) * (h * t))
  {
    MulSquares(two, h, f, t);
    var q := (h * t) * (h * t);
    assert sgn * (two * (h * h)) * (f * (t * t)) == sgn * ((two * (h * h)) * (f * (t * t)));
    assert sgn * ((two * f) * q) * lp == (f * two * sgn * lp) * q;
  }

  // ---------------------------------------------------------------------------
  // A selection of relations
  // ---------------------------------------------------------------------------

  /** Product over a list of relations. */
  ghost function Product(values: seq<int>, list: seq<nat>): int
    requires forall k :: 0 <= k < |list| ==> list[k] < |values|
  {
    if |list| == 0 then 1
    else Product(values, list[..|list| - 1]) * values[list[|list| - 1]]
  }

  /** Row `r` accounts for value `r` up to a square. */
  ghost predicate SquareOff(columns: seq<int>, row: set<nat>, value: int) {
    exists s {:trigger s * s} :: value == Monomial(columns, row) * (s * s)
  }

  /** The product of the selected values is the product of the columns of the row sum, up to
      a square. */
  lemma {:induction false} SelectionSquare(columns: seq<int>, rows: seq<set<nat>>,
                                           values: seq<int>, list: seq<nat>)
    returns (s: int)
    requires |rows| == |values| && Increasing(list)
    requires forall k :: 0 <= k < |list| ==> list[k] < |values|
    requires forall r :: 0 <= r < |rows| ==> SquareOff(columns, rows[r], values[r])
    ensures Product(values, list) ==
            Monomial(columns, Comb(rows, Cols(list))) * (s * s)
    decreases |list|
  {
    if |list| == 0 {
      assert Cols(list) == {};
      CombEmpty(rows);
      MonomialEmpty(columns);
      s := 1;
    } else {
      var k := |list| - 1;
      var t := SelectionSquare(columns, rows, values, list[..k]);
      var r := list[k];
      assert SquareOff(columns, rows[r], values[r]);
      var u: int :| values[r] == Monomial(columns, rows[r]) * (u * u);
      LastIsMax(list);
      var before := Comb(rows, Cols(list[..k]));
      assert r in Cols(list);
      CombSplit(rows, Cols(list), r);
      assert Comb(rows, Cols(list)) == Add(before, rows[r]);
      MulSquares(Monomial(columns, before), t, Monomial(columns, rows[r]), u);
      MonomialMul(columns, before, rows[r]);
      var m, i := Monomial(columns, Add(before, rows[r])), Monomial(columns, before * rows[r]);
      MulSquares(m, i, 1, t * u);
      s := i * (t * u);
    }
  }

  /** The relations of a dependency multiply to the square of an integer. */
  lemma DependencyIsSquare(columns: seq<int>, rows: seq<set<nat>>, values: seq<int>,
                           list: seq<nat>) returns (root: int)
    requires |rows| == |values| && Increasing(list)
    requires forall r :: 0 <= r < |rows| ==> SquareOff(columns, rows[r], values[r])
    requires Kernel(rows, Below(|rows|), Cols(list))
    ensures forall k :: 0 <= k < |list| ==> list[k] < |values|
    ensures Product(values, list) == root * root
  {
    forall k | 0 <= k < |list| ensures list[k] < |values| {
      assert list[k] in Cols(list);
    }
    root := SelectionSquare(columns, rows, values, list);
    MonomialEmpty(columns);
  }

  // ---------------------------------------------------------------------------
  // Congruence of squares
  // ---------------------------------------------------------------------------

  function Times(q: int, n: int): int {
    q * n
  }

  /** `a` and `b` differ by a multiple of `n`. */
  ghost predicate Congruent(a: int, b: int, n: int) {
    exists q :: a - b == Times(q, n)
  }

  lemma CongruentMul(n: int, a: int, b: int, c: int, d: int)
    requires Congruent(a, b, n) && Congruent(c, d, n)
    ensures Congruent(a * c, b * d, n)
  {
    var k :| a - b == Times(k, n);
    var l :| c - d == Times(l, n);
    assert a * c - b * d == (a - b) * c + b * (c - d);
    assert (k * n) * c == (k * c) * n;
    assert b * (l * n) == (b * l) * n;
    assert (k * c) * n + (b * l) * n == (k * c + b * l) * n;
    assert a * c - b * d == Times(k * c + b * l, n);
  }

  /** If every root squares to its value modulo `n`, so do the products. */
  lemma {:induction false} ProductCongruence(n: int, roots: seq<int>, values: seq<int>,
                                             list: seq<nat>)
    requires |roots| == |values|
    requires forall k :: 0 <= k < |list| ==> list[k] < |values|
    requires forall r :: 0 <= r < |values| ==> Congruent(roots[r] * roots[r], values[r], n)
    ensures Congruent(Product(roots, list) * Product(roots, list), Product(values, list), n)
    decreases |list|
  {
    if |list| == 0 {
      assert 1 * 1 - 1 == Times(0, n);
    } else {
      var k := |list| - 1;
      var r := list[k];
      ProductCongruence(n, roots, values, list[..k]);
      var x, y := Product(roots, list[..k]), roots[r];
      CongruentMul(n, x * x, Product(values, list[..k]), y * y, values[r]);
      assert (x * y) * (x * y) == (x * x) * (y * y);
    }
  }
}
