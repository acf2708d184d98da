/**
 Polynomials by their coefficients in increasing order: evaluation, derivatives and reversal.
 Doubles are idealised as reals, and a coefficient counts as zero when it is zero.
 */
module PolynomialAlgebra {
  import opened Sums

  /** Coefficients as the class keeps them: at least one, and no superfluous leading zero. */
  predicate Trimmed(p: seq<real>)
  {
    |p| == 1 || (|p| > 1 && p[|p| - 1] != 0.0)
  }

  function Trim(p: seq<real>): seq<real>
  {
    if |p| <= 1 || p[|p| - 1] != 0.0 then p else Trim(p[..|p| - 1])
  }

  lemma {:induction false} TrimKeepsValue(p: seq<real>, t: real)
    ensures Value(Trim(p), t) == Value(p, t)
    ensures p != [] ==> Trimmed(Trim(p))
  {
    if |p| > 1 && p[|p| - 1] == 0.0 {
      var q := p[..|p| - 1];
      TrimKeepsValue(q, t);
      SumSame(Terms(p, t), Terms(q, t), |q|);
    }
  }

  // ---------------------------------------------------------------- derivatives

  /** k * (k - 1) * ... * (k - n + 1) */
  function Falling(k: nat, n: nat): real
    requires n <= k
  {
    if n == 0 then 1.0 else Falling(k, n - 1) * ((k - n + 1) as real)
  }

  lemma {:induction false} FallingIsPositive(k: nat, n: nat)
    requires n <= k
    ensures Falling(k, n) > 0.0
  {
    if n > 0 {
      FallingIsPositive(k, n - 1);
    }
  }

  lemma FallingStep(k: nat, n: nat)
    requires n <= k
    ensures Falling(k, n) == if n == 0 then 1.0 else Falling(k, n - 1) * ((k - n + 1) as real)
  {
  }

  lemma {:induction false} FallingSplits(k: nat, n: nat, m: nat)
    requires n + m <= k
    ensures Falling(k, n + m) == Falling(k, n) * Falling(k - n, m)
  {
    hide *;
    FallingStep(k - n, m);
    FallingStep(k, n + m);
    if m > 0 {
      FallingSplits(k, n, m - 1);
      Associate(Falling(k, n), Falling(k - n, m - 1), (k - n - m + 1) as real);
    }
  }

  lemma Associate(a: real, b: real, c: real)
    ensures (a * b) * c == a * (b * c)
  {
  }

  /** The coefficients of the n-th derivative. */
  function Derived(p: seq<real>, n: nat): seq<real>
  {
    if n >= |p| then [0.0] else seq(|p| - n, i requires 0 <= i < |p| - n => p[i + n] * Falling(i + n, n))
  }

  lemma DerivedIsTrimmed(p: seq<real>, n: nat)
    requires Trimmed(p)
    ensures Trimmed(Derived(p, n))
  {
    if n < |p| {
      FallingIsPositive(|p| - 1, n);
    }
  }

  lemma DerivedAt(p: seq<real>, n: nat, i: nat)
    requires n + i < |p|
    ensures |Derived(p, n)| == |p| - n && Derived(p, n)[i] == p[i + n] * Falling(i + n, n)
  {
  }

  lemma ComposeAt(p: seq<real>, n: nat, m: nat, i: nat)
    requires n + m + i < |p|
    ensures Derived(Derived(p, n), m)[i] == Derived(p, n + m)[i]
  {
    hide *;
    var k := i + m + n;
    DerivedAt(p, n, i + m);
    DerivedAt(Derived(p, n), m, i);
    DerivedAt(p, n + m, i);
    FallingSplits(k, n, m);
    ComposeFactors(p[k], Falling(k, n), Falling(i + m, m), Falling(k, n + m), Derived(p, n)[i + m],
                   Derived(Derived(p, n), m)[i]);
  }

  lemma ComposeFactors(x: real, a: real, b: real, ab: real, first: real, both: real)
    requires ab == a * b && first == x * a && both == first * b
    ensures both == x * ab
  {
    Associate(x, a, b);
  }

  /** Derivatives compose, also past the degree. */
  lemma DerivativesCompose(p: seq<real>, n: nat, m: nat)
    ensures Derived(Derived(p, n), m) == Derived(p, n + m)
  {
    if n + m < |p| {
      assert |Derived(Derived(p, n), m)| == |Derived(p, n + m)|;
      forall i: nat | i < |p| - n - m ensures Derived(Derived(p, n), m)[i] == Derived(p, n + m)[i] {
        ComposeAt(p, n, m, i);
      }
    } else if n < |p| {
      assert m >= |Derived(p, n)|;
    } else {
      assert Derived(p, n) == [0.0];
      if m == 0 {
        assert Derived([0.0], 0)[0] == 0.0 * Falling(0, 0);
        assert Derived([0.0], 0) == [0.0];
      }
    }
  }

  /** The first derivative read off the coefficients without their first. */
  lemma DerivedCons(p: seq<real>)
    requires |p| >= 2
    ensures |Derived(p, 1)| == |p| - 1 && Derived(p, 1)[0] == p[1]
    ensures forall i :: 0 <= i < |p| - 1 ==> Derived(p, 1)[i] == p[i + 1] * ((i + 1) as real)
  {
    forall i | 0 <= i < |p| - 1 ensures Derived(p, 1)[i] == p[i + 1] * ((i + 1) as real) {
      assert Falling(i + 1, 1) == Falling(i + 1, 0) * ((i + 1) as real);
    }
  }

  /** What is left of P(t + h) after its linear part, divided by h^2. */
  function Remainder(p: seq<real>, t: real, h: real): real
  {
    if |p| <= 1 then 0.0 else (t + h) * Remainder(p[1..], t, h) + Eval(Derived(p[1..], 1), t)
  }

  lemma EvalStep(p: seq<real>, t: real)
    requires p != []
    ensures Eval(p, t) == p[0] + t * Eval(p[1..], t)
  {
  }

  lemma DerivedSplits(p: seq<real>, k: nat)
    requires k + 2 < |p|
    ensures Derived(p, 1)[1..][k] == p[1..][1..][k] + Derived(p[1..], 1)[k]
  {
    DerivedCons(p);
    DerivedCons(p[1..]);
    assert p[k + 2] * ((k + 2) as real) == p[k + 2] + p[k + 2] * ((k + 1) as real);
  }

  lemma ShiftOfConstant(p: seq<real>, t: real)
    requires |p| == 2
    ensures Eval(Derived(p, 1), t) == Eval(p[1..], t) + t * Eval(Derived(p[1..], 1), t)
  {
    DerivedCons(p);
    assert Derived(p, 1) == p[1..] && Derived(p[1..], 1) == [0.0] && [0.0][1..] == [];
    assert Eval([0.0], t) == 0.0 + t * 0.0;
  }

  /** The product rule for t * P(t). */
  lemma {:induction false} DerivativeOfShift(p: seq<real>, t: real)
    requires |p| >= 2
    ensures Eval(Derived(p, 1), t) == Eval(p[1..], t) + t * Eval(Derived(p[1..], 1), t)
  {
    hide *;
    if |p| == 2 {
      ShiftOfConstant(p, t);
    } else {
      var d, q, e := Derived(p, 1), p[1..], Derived(p[1..], 1);
      DerivedCons(p);
      DerivedCons(q);
      forall k: nat | k < |e| ensures d[1..][k] == q[1..][k] + e[k] {
        DerivedSplits(p, k);
      }
      EvalSum(d[1..], q[1..], e, t);
      EvalStep(d, t);
      EvalStep(q, t);
      SumRule(t, q[0], Eval(q[1..], t), Eval(e, t));
    }
  }

  lemma SumRule(t: real, a: real, u: real, v: real)
    ensures a + t * (u + v) == (a + t * u) + t * v
  {
  }

  lemma {:induction false} EvalSum(s: seq<real>, p: seq<real>, q: seq<real>, t: real)
    requires |s| == |p| == |q| && forall k :: 0 <= k < |s| ==> s[k] == p[k] + q[k]
    ensures Eval(s, t) == Eval(p, t) + Eval(q, t)
  {
    if s != [] {
      EvalSum(s[1..], p[1..], q[1..], t);
    }
  }

  /** The slope of a + t * q(t), from the slope d and the remainder r of q. */
  lemma SlopeStep(t: real, h: real, a: real, q: real, qh: real, d: real, r: real, p: real, ph: real, dp: real, rp: real)
    requires qh == q + h * d + h * h * r
    requires p == a + t * q && ph == a + (t + h) * qh && dp == q + t * d && rp == (t + h) * r + d
    ensures ph == p + h * dp + h * h * rp
  {
    assert (t + h) * qh == (t + h) * q + (t + h) * (h * d) + (t + h) * (h * h * r);
    assert (t + h) * (h * d) == h * (t * d) + h * h * d;
    assert (t + h) * (h * h * r) == h * h * ((t + h) * r);
    assert h * dp == h * q + h * (t * d);
    assert h * h * rp == h * h * ((t + h) * r) + h * h * d;
  }

  lemma RemainderStep(p: seq<real>, t: real, h: real)
    requires |p| > 1
    ensures Remainder(p, t, h) == (t + h) * Remainder(p[1..], t, h) + Eval(Derived(p[1..], 1), t)
  {
  }

  /** The first derivative is the slope: P(t + h) = P(t) + h P'(t) + h^2 R for a polynomial R in t and h. */
  lemma {:induction false} DerivativeIsSlope(p: seq<real>, t: real, h: real)
    ensures Eval(p, t + h) == Eval(p, t) + h * Eval(Derived(p, 1), t) + h * h * Remainder(p, t, h)
  {
    hide *;
    if |p| <= 1 {
      SlopeOfConstant(p, t, h);
    } else {
      var q := p[1..];
      DerivativeIsSlope(q, t, h);
      DerivativeOfShift(p, t);
      EvalStep(p, t);
      EvalStep(p, t + h);
      RemainderStep(p, t, h);
      SlopeStep(t, h, p[0], Eval(q, t), Eval(q, t + h), Eval(Derived(q, 1), t), Remainder(q, t, h),
                Eval(p, t), Eval(p, t + h), Eval(Derived(p, 1), t), Remainder(p, t, h));
    }
  }

  lemma SlopeOfConstant(p: seq<real>, t: real, h: real)
    requires |p| <= 1
    ensures Eval(p, t + h) == Eval(p, t) + h * Eval(Derived(p, 1), t) + h * h * Remainder(p, t, h)
  {
    assert Derived(p, 1) == [0.0] && [0.0][1..] == [];
    assert Eval([0.0], t) == 0.0 + t * 0.0;
    if |p| == 1 {
      assert p[1..] == [];
    }
  }

  // ---------------------------------------------------------------- reversal

  /** The conversion matrix: column j holds the coefficients of (c - t)^j. */
  function Entry(c: real, row: nat, col: nat): real
    decreases col
  {
    if col < row then 0.0
    else if col == 0 then 1.0
    else if row == 0 then c * Entry(c, 0, col - 1)
    else c * Entry(c, row, col - 1) - Entry(c, row - 1, col - 1)
  }

  function EntryTerms(c: real, t: real, col: nat): nat -> real
  {
    (row: nat) => Entry(c, row, col) * Pow(t, row)
  }

  lemma EntryRecurrence(c: real, row: nat, col: nat)
    requires col > 0
    ensures Entry(c, row, col) == c * Entry(c, row, col - 1) - if row == 0 then 0.0 else Entry(c, row - 1, col - 1)
  {
  }

  lemma ColumnArithmetic(c: real, t: real, s: real, s': real, a: real, b: real, power: real, entry: real, total: real)
    requires entry == c * a - b && total == c * s - t * s' + entry * (t * power)
    ensures total == c * (s + a * (t * power)) - t * (s' + b * power)
  {
    assert (c * a - b) * (t * power) == c * (a * (t * power)) - t * (b * power);
    assert c * (s + a * (t * power)) == c * s + c * (a * (t * power));
    assert t * (s' + b * power) == t * s' + t * (b * power);
  }

  lemma SumOne(c: real, t: real, col: nat)
    ensures Sum(EntryTerms(c, t, col), 1) == Entry(c, 0, col) && Sum(EntryTerms(c, t, col), 0) == 0.0
  {
    assert Pow(t, 0) == 1.0;
    assert EntryTerms(c, t, col)(0) == Entry(c, 0, col) * Pow(t, 0);
    assert Sum(EntryTerms(c, t, col), 1) == Sum(EntryTerms(c, t, col), 0) + EntryTerms(c, t, col)(0);
  }

  lemma SumMore(c: real, t: real, col: nat, n: nat)
    requires n > 0
    ensures Sum(EntryTerms(c, t, col), n) == Sum(EntryTerms(c, t, col), n - 1) + Entry(c, n - 1, col) * Pow(t, n - 1)
  {
  }

  lemma {:induction false} ColumnStep(c: real, t: real, col: nat, n: nat)
    requires col > 0 && n > 0
    ensures Sum(EntryTerms(c, t, col), n)
         == c * Sum(EntryTerms(c, t, col - 1), n) - t * Sum(EntryTerms(c, t, col - 1), n - 1)
    decreases n
  {
    hide *;
    EntryRecurrence(c, n - 1, col);
    if n == 1 {
      SumOne(c, t, col);
      SumOne(c, t, col - 1);
    } else {
      ColumnStep(c, t, col, n - 1);
      SumMore(c, t, col, n);
      SumMore(c, t, col - 1, n);
      SumMore(c, t, col - 1, n - 1);
      PowStep(t, n - 1);
      ColumnArithmetic(c, t, Sum(EntryTerms(c, t, col - 1), n - 1), Sum(EntryTerms(c, t, col - 1), n - 2),
                       Entry(c, n - 1, col - 1), Entry(c, n - 2, col - 1), Pow(t, n - 2),
                       Entry(c, n - 1, col), Sum(EntryTerms(c, t, col), n));
    }
  }

  lemma PowStep(t: real, n: nat)
    requires n > 0
    ensures Pow(t, n) == t * Pow(t, n - 1)
  {
  }

  /** The columns of the matrix are the powers of c - t. */
  lemma {:induction false} ColumnIsPower(c: real, t: real, col: nat, n: nat)
    requires col < n
    ensures Sum(EntryTerms(c, t, col), n) == Pow(c - t, col)
    decreases col, n
  {
    if col == 0 {
      if n == 1 {
        assert Sum(EntryTerms(c, t, 0), 1) == 0.0 + Entry(c, 0, 0) * 1.0;
      } else {
        ColumnIsPower(c, t, 0, n - 1);
        assert EntryTerms(c, t, 0)(n - 1) == 0.0 * Pow(t, n - 1);
      }
    } else {
      ColumnStep(c, t, col, n);
      ColumnIsPower(c, t, col - 1, n);
      assert Sum(EntryTerms(c, t, col - 1), n)
          == Sum(EntryTerms(c, t, col - 1), n - 1) + EntryTerms(c, t, col - 1)(n - 1);
      assert EntryTerms(c, t, col - 1)(n - 1) == Entry(c, n - 1, col - 1) * Pow(t, n - 1);
      if col < n - 1 || col == n - 1 {
        assert Entry(c, n - 1, col - 1) == 0.0;
      }
      PowerStep(c, t, Pow(c - t, col - 1));
    }
  }

  lemma PowerStep(c: real, t: real, x: real)
    ensures c * x - t * x == (c - t) * x
  {
  }

  function Product(p: seq<real>, c: real, row: nat): nat -> real
  {
    (col: nat) => if col < |p| then Entry(c, row, col) * p[col] else 0.0
  }

  /** The matrix times the coefficients. */
  function Reversed(p: seq<real>, c: real): seq<real>
  {
    seq(|p|, row requires 0 <= row < |p| => Sum(Product(p, c, row), |p|))
  }

  function Cells(p: seq<real>, c: real, t: real): (nat, nat) -> real
  {
    (row: nat, col: nat) => if col < |p| then (Entry(c, row, col) * p[col]) * Pow(t, row) else 0.0
  }

  lemma RowOfCells(p: seq<real>, c: real, t: real, row: nat)
    requires row < |p|
    ensures Terms(Reversed(p, c), t)(row) == RowSums(Cells(p, c, t), |p|)(row)
  {
    SumScale(Product(p, c, row), Row(Cells(p, c, t), row), Pow(t, row), |p|);
  }

  lemma ColumnOfCells(p: seq<real>, c: real, t: real, col: nat)
    requires col < |p|
    ensures ColumnSums(Cells(p, c, t), |p|)(col) == Terms(p, c - t)(col)
  {
    var column := Column(Cells(p, c, t), col);
    forall row: nat | row < |p| ensures column(row) == p[col] * EntryTerms(c, t, col)(row) {
      CellAt(p, c, t, row, col);
    }
    SumScale(EntryTerms(c, t, col), column, p[col], |p|);
    ColumnIsPower(c, t, col, |p|);
  }

  lemma CellAt(p: seq<real>, c: real, t: real, row: nat, col: nat)
    requires col < |p|
    ensures Column(Cells(p, c, t), col)(row) == p[col] * EntryTerms(c, t, col)(row)
  {
    var e, x, power := Entry(c, row, col), p[col], Pow(t, row);
    assert Column(Cells(p, c, t), col)(row) == (e * x) * power && EntryTerms(c, t, col)(row) == e * power;
    assert (e * x) * power == x * (e * power);
  }

  /** Reversal over [t0, t1], with c = t0 + t1, is G(t) = P(c - t). */
  lemma ReversedValue(p: seq<real>, c: real, t: real)
    ensures Value(Reversed(p, c), t) == Value(p, c - t)
  {
    var cells := Cells(p, c, t);
    forall row: nat | row < |p| ensures Terms(Reversed(p, c), t)(row) == RowSums(cells, |p|)(row) {
      RowOfCells(p, c, t, row);
    }
    SumSame(Terms(Reversed(p, c), t), RowSums(cells, |p|), |p|);
    SumSwap(cells, |p|, |p|);
    forall col: nat | col < |p| ensures ColumnSums(cells, |p|)(col) == Terms(p, c - t)(col) {
      ColumnOfCells(p, c, t, col);
    }
    SumSame(ColumnSums(cells, |p|), Terms(p, c - t), |p|);
  }

  /** Reversing twice over the same interval gives back the same coefficients. */
  lemma ReversedTwice(p: seq<real>, c: real)
    ensures Reversed(Reversed(p, c), c) == p
  {
    forall t: real ensures Value(Reversed(Reversed(p, c), c), t) == Value(p, t) {
      ReversedValue(Reversed(p, c), c, t);
      ReversedValue(p, c, c - t);
      assert c - (c - t) == t;
    }
    SameValuesSameCoefficients(Reversed(Reversed(p, c), c), p);
  }

  lemma {:induction false} DiagonalAlternates(c: real, n: nat)
    ensures Entry(c, n, n) == Pow(-1.0, n)
  {
    if n > 0 {
      DiagonalAlternates(c, n - 1);
    }
  }

  lemma {:induction false} SignIsNotZero(n: nat)
    ensures Pow(-1.0, n) == 1.0 || Pow(-1.0, n) == -1.0
  {
    if n > 0 {
      SignIsNotZero(n - 1);
    }
  }

  /** Reversal keeps the degree: the leading coefficient only changes its sign. */
  lemma ReversedLeading(p: seq<real>, c: real)
    requires p != []
    ensures |Reversed(p, c)| == |p|
    ensures Reversed(p, c)[|p| - 1] == Pow(-1.0, |p| - 1) * p[|p| - 1]
    ensures Trimmed(p) ==> Trimmed(Reversed(p, c))
  {
    var n := |p| - 1;
    var row := Product(p, c, n);
    forall col: nat | col < n ensures row(col) == 0.0 {
      assert row(col) == Entry(c, n, col) * p[col] == 0.0 * p[col];
    }
    ZeroSum(row, n);
    DiagonalAlternates(c, n);
    assert Sum(row, n + 1) == Sum(row, n) + row(n);
    SignIsNotZero(n);
  }

  // ---------------------------------------------------------------- derivatives and reversal

  lemma EntryDerivativeArithmetic(c: real, i: real, j: real, e: real, left: real, diag: real, below: real, next: real)
    requires e == c * left - diag && i * e == -(j * diag)
    requires (i + 1.0) * below == -(j * left) && next == c * below - e
    ensures (i + 1.0) * next == -((j + 1.0) * e)
  {
    assert j * e == c * (j * left) - j * diag;
    assert (i + 1.0) * next == c * ((i + 1.0) * below) - (i + 1.0) * e;
  }

  lemma FirstColumnDerivative(c: real, i: nat)
    ensures ((i + 1) as real) * Entry(c, i + 1, 1) == -(1.0 * Entry(c, i, 0))
  {
    assert i == 0 ==> Entry(c, 1, 1) == c * Entry(c, 1, 0) - Entry(c, 0, 0);
  }

  /** The derivative of (c - t)^(j + 1) is -(j + 1) (c - t)^j, entry by entry. */
  lemma {:induction false} EntryDerivative(c: real, i: nat, j: nat)
    ensures ((i + 1) as real) * Entry(c, i + 1, j + 1) == -(((j + 1) as real) * Entry(c, i, j))
    decreases j
  {
    hide *;
    if j == 0 {
      FirstColumnDerivative(c, i);
    } else {
      EntryDerivative(c, i, j - 1);
      EntryRecurrence(c, i + 1, j + 1);
      EntryRecurrence(c, i, j);
      var diag := if i == 0 then 0.0 else Entry(c, i - 1, j - 1);
      if i > 0 {
        EntryDerivative(c, i - 1, j - 1);
      }
      EntryDerivativeArithmetic(c, i as real, j as real, Entry(c, i, j), Entry(c, i, j - 1), diag,
                                Entry(c, i + 1, j), Entry(c, i + 1, j + 1));
    }
  }

  function Scale(a: real, p: seq<real>): seq<real>
  {
    seq(|p|, k requires 0 <= k < |p| => a * p[k])
  }

  lemma TermDerivative(i: real, j: real, entry: real, next: real, x: real)
    requires (i + 1.0) * next == -((j + 1.0) * entry)
    ensures (i + 1.0) * (next * x) == -1.0 * (entry * (x * (j + 1.0)))
  {
    assert (i + 1.0) * (next * x) == ((i + 1.0) * next) * x;
    assert entry * (x * (j + 1.0)) == ((j + 1.0) * entry) * x;
  }

  lemma ProductAt(p: seq<real>, c: real, row: nat, col: nat)
    requires col < |p|
    ensures Product(p, c, row)(col) == Entry(c, row, col) * p[col]
    ensures col == 0 < row ==> Product(p, c, row)(col) == 0.0
  {
    assert col == 0 < row ==> Product(p, c, row)(col) == 0.0 * p[col];
  }

  lemma ReversedAt(p: seq<real>, c: real, row: nat)
    requires row < |p|
    ensures |Reversed(p, c)| == |p| && Reversed(p, c)[row] == Sum(Product(p, c, row), |p|)
  {
  }

  lemma TermAt(p: seq<real>, c: real, i: nat, k: nat)
    requires i + 1 < |p| && k + 1 < |p|
    ensures ((i + 1) as real) * Product(p, c, i + 1)(k + 1) == -1.0 * Product(Derived(p, 1), c, i)(k)
  {
    hide *;
    DerivedCons(p);
    EntryDerivative(c, i, k);
    ProductAt(p, c, i + 1, k + 1);
    ProductAt(Derived(p, 1), c, i, k);
    TermDerivative(i as real, k as real, Entry(c, i, k), Entry(c, i + 1, k + 1), p[k + 1]);
  }

  /** One coefficient of the derivative of a reversal. */
  lemma DerivativeOfReversedAt(p: seq<real>, c: real, i: nat)
    requires i + 1 < |p|
    ensures |Reversed(p, c)| == |p| && |Reversed(Derived(p, 1), c)| == |p| - 1
    ensures ((i + 1) as real) * Reversed(p, c)[i + 1] == -1.0 * Reversed(Derived(p, 1), c)[i]
  {
    hide *;
    DerivedCons(p);
    ReversedAt(p, c, i + 1);
    ReversedAt(Derived(p, 1), c, i);
    var n := |p| - 1;
    var row, q := Product(p, c, i + 1), Product(Derived(p, 1), c, i);
    var shifted := (k: nat) => row(k + 1);
    ProductAt(p, c, i + 1, 0);
    SumShift(row, shifted, n);
    forall k: nat | k < n ensures ((i + 1) as real) * shifted(k) == -1.0 * q(k) {
      TermAt(p, c, i, k);
    }
    SumProportional(shifted, q, (i + 1) as real, -1.0, n);
  }

  lemma DerivativeOfReversed(p: seq<real>, c: real)
    requires p != []
    ensures Derived(Reversed(p, c), 1) == Scale(-1.0, Reversed(Derived(p, 1), c))
  {
    var l, r := Derived(Reversed(p, c), 1), Scale(-1.0, Reversed(Derived(p, 1), c));
    if |p| == 1 {
      assert Derived(p, 1) == [0.0];
      ReversedLeading([0.0], c);
      assert Reversed([0.0], c)[0] == Pow(-1.0, 0) * 0.0;
      assert l == [0.0] && r == [0.0];
    } else {
      DerivedCons(p);
      DerivedCons(Reversed(p, c));
      assert |l| == |r| == |p| - 1;
      forall i: nat | i < |l| ensures l[i] == r[i] {
        DerivativeOfReversedAt(p, c, i);
      }
    }
  }

  lemma DerivativeOfScaled(a: real, p: seq<real>)
    ensures Derived(Scale(a, p), 1) == Scale(a, Derived(p, 1))
  {
    if |p| >= 2 {
      DerivedCons(p);
      DerivedCons(Scale(a, p));
      forall i | 0 <= i < |p| - 1 ensures Derived(Scale(a, p), 1)[i] == Scale(a, Derived(p, 1))[i] {
        Associate(a, p[i + 1], (i + 1) as real);
      }
    } else {
      assert Scale(a, [0.0]) == [0.0] by {
        assert Scale(a, [0.0])[0] == a * 0.0;
      }
    }
  }

  lemma ScaleTwice(a: real, b: real, ab: real, p: seq<real>)
    requires ab == a * b
    ensures Scale(a, Scale(b, p)) == Scale(ab, p)
  {
    forall k | 0 <= k < |p| ensures Scale(a, Scale(b, p))[k] == Scale(ab, p)[k] {
      Associate(a, b, p[k]);
    }
  }

  lemma DerivedZero(p: seq<real>)
    requires p != []
    ensures Derived(p, 0) == p && Scale(1.0, p) == p
  {
  }

  /** The n-th derivative of a reversal is the reversal of the n-th derivative, with the sign (-1)^n. */
  lemma {:induction false} DerivativesOfReversed(p: seq<real>, c: real, n: nat)
    requires p != []
    ensures Derived(Reversed(p, c), n) == Scale(Pow(-1.0, n), Reversed(Derived(p, n), c))
  {
    hide *;
    if n == 0 {
      DerivedZero(p);
      ReversedAt(p, c, 0);
      DerivedZero(Reversed(p, c));
      PowZero(-1.0);
    } else {
      var q, sign := Derived(p, n - 1), Pow(-1.0, n - 1);
      DerivedNotEmpty(p, n - 1);
      PowStep(-1.0, n);
      DerivativesOfReversed(p, c, n - 1);
      DerivativesCompose(Reversed(p, c), n - 1, 1);
      DerivativesCompose(p, n - 1, 1);
      DerivativeOfScaled(sign, Reversed(q, c));
      DerivativeOfReversed(q, c);
      ScaleTwice(sign, -1.0, Pow(-1.0, n), Reversed(Derived(q, 1), c));
    }
  }

  lemma DerivedNotEmpty(p: seq<real>, n: nat)
    ensures Derived(p, n) != []
  {
  }

  lemma PowZero(x: real)
    ensures Pow(x, 0) == 1.0
  {
  }
}
