/**
 Finite sums of reals, powers, and the value of a polynomial given by its coefficients.
 */
module Sums {
  import opened Reals

  function Sum(f: nat -> real, n: nat): real
  {
    if n == 0 then 0.0 else Sum(f, n - 1) + f(n - 1)
  }

  function Pow(x: real, n: nat): real
  {
    if n == 0 then 1.0 else x * Pow(x, n - 1)
  }

  lemma {:induction false} SumSame(f: nat -> real, g: nat -> real, n: nat)
    requires forall k: nat :: k < n ==> f(k) == g(k)
    ensures Sum(f, n) == Sum(g, n)
  {
    if n > 0 {
      SumSame(f, g, n - 1);
    }
  }

  lemma {:induction false} SumScale(f: nat -> real, g: nat -> real, a: real, n: nat)
    requires forall k: nat :: k < n ==> g(k) == a * f(k)
    ensures Sum(g, n) == a * Sum(f, n)
  {
    if n > 0 {
      SumScale(f, g, a, n - 1);
    }
  }

  lemma {:induction false} SumProportional(f: nat -> real, g: nat -> real, a: real, b: real, n: nat)
    requires forall k: nat :: k < n ==> a * f(k) == b * g(k)
    ensures a * Sum(f, n) == b * Sum(g, n)
  {
    if n > 0 {
      SumProportional(f, g, a, b, n - 1);
    }
  }

  lemma {:induction false} SumAdd(f: nat -> real, g: nat -> real, h: nat -> real, n: nat)
    requires forall k: nat :: k < n ==> h(k) == f(k) + g(k)
    ensures Sum(h, n) == Sum(f, n) + Sum(g, n)
  {
    if n > 0 {
      SumAdd(f, g, h, n - 1);
    }
  }

  /** Dropping a first term that is zero. */
  lemma {:induction false} SumShift(f: nat -> real, g: nat -> real, n: nat)
    requires f(0) == 0.0 && forall k: nat :: k < n ==> f(k + 1) == g(k)
    ensures Sum(f, n + 1) == Sum(g, n)
  {
    if n == 0 {
      assert Sum(f, 1) == Sum(f, 0) + f(0);
    } else {
      SumShift(f, g, n - 1);
      assert f((n - 1) + 1) == g(n - 1);
    }
  }

  function Row(f: (nat, nat) -> real, i: nat): nat -> real
  {
    (j: nat) => f(i, j)
  }

  function Column(f: (nat, nat) -> real, j: nat): nat -> real
  {
    (i: nat) => f(i, j)
  }

  function RowSums(f: (nat, nat) -> real, n: nat): nat -> real
  {
    (i: nat) => Sum(Row(f, i), n)
  }

  function ColumnSums(f: (nat, nat) -> real, m: nat): nat -> real
  {
    (j: nat) => Sum(Column(f, j), m)
  }

  /** The order of a double sum does not matter. */
  lemma {:induction false} SumSwap(f: (nat, nat) -> real, m: nat, n: nat)
    ensures Sum(RowSums(f, n), m) == Sum(ColumnSums(f, m), n)
  {
    if m == 0 {
      ZeroSum(ColumnSums(f, 0), n);
    } else {
      SumSwap(f, m - 1, n);
      SumAdd(ColumnSums(f, m - 1), Row(f, m - 1), ColumnSums(f, m), n);
    }
  }

  lemma {:induction false} ZeroSum(f: nat -> real, n: nat)
    requires forall k: nat :: k < n ==> f(k) == 0.0
    ensures Sum(f, n) == 0.0
  {
    if n > 0 {
      ZeroSum(f, n - 1);
    }
  }

  // ---------------------------------------------------------------- values of polynomials

  function Terms(p: seq<real>, t: real): nat -> real
  {
    (k: nat) => if k < |p| then p[k] * Pow(t, k) else 0.0
  }

  /** c[0] + c[1] * t + c[2] * t^2 + ... */
  function Value(p: seq<real>, t: real): real
  {
    Sum(Terms(p, t), |p|)
  }

  /** The value from the k-th coefficient on, divided by t^k. */
  function Horner(p: seq<real>, t: real, k: nat): real
    requires k <= |p|
    decreases |p| - k
  {
    if k == |p| then 0.0 else p[k] + t * Horner(p, t, k + 1)
  }

  lemma {:induction false} HornerIsSum(p: seq<real>, t: real, k: nat)
    requires k <= |p|
    ensures Value(p, t) == Sum(Terms(p, t), k) + Pow(t, k) * Horner(p, t, k)
    decreases |p| - k
  {
    if k < |p| {
      HornerIsSum(p, t, k + 1);
      HornerStep(Sum(Terms(p, t), k), Pow(t, k), p[k], t, Horner(p, t, k + 1));
    }
  }

  lemma HornerStep(s: real, power: real, c: real, t: real, h: real)
    ensures (s + c * power) + (t * power) * h == s + power * (c + t * h)
  {
    assert (t * power) * h == power * (t * h);
    assert power * (c + t * h) == power * c + power * (t * h);
  }

  lemma ValueIsHorner(p: seq<real>, t: real)
    ensures Value(p, t) == Horner(p, t, 0)
  {
    HornerIsSum(p, t, 0);
  }

  /** The same value by recursion on the coefficients, which the arguments below follow. */
  function Eval(p: seq<real>, t: real): real
  {
    if p == [] then 0.0 else p[0] + t * Eval(p[1..], t)
  }

  lemma {:induction false} HornerIsEval(p: seq<real>, t: real, k: nat)
    requires k <= |p|
    ensures Horner(p, t, k) == Eval(p[k..], t)
    decreases |p| - k
  {
    if k < |p| {
      HornerIsEval(p, t, k + 1);
      assert p[k..][1..] == p[k + 1..];
    }
  }

  lemma ValueIsEval(p: seq<real>, t: real)
    ensures Value(p, t) == Eval(p, t)
  {
    ValueIsHorner(p, t);
    HornerIsEval(p, t, 0);
    assert p[0..] == p;
  }

  // ---------------------------------------------------------------- coefficients are determined by values

  function AbsSum(p: seq<real>): (r: real)
    ensures r >= 0.0
  {
    if p == [] then 0.0 else Abs(p[0]) + AbsSum(p[1..])
  }

  lemma ScaledBound(t: real, v: real, b: real, x: real)
    requires 0.0 <= t && Abs(v) <= b && x == t * v
    ensures Abs(x) <= t * b
  {
    if v >= 0.0 {
      assert 0.0 <= x;
      assert t * v <= t * b;
    } else {
      assert t * (-v) == -x;
      assert t * (-v) <= t * b;
    }
  }

  lemma StepBound(a: real, t: real, v: real, b: real, r: real)
    requires 0.0 <= t <= 1.0 && Abs(v) <= b && r == a + t * v
    ensures Abs(r) <= Abs(a) + b
  {
    var x := t * v;
    ScaledBound(t, v, b, x);
    assert t * b <= b;
  }

  lemma {:induction false} EvalBound(p: seq<real>, t: real)
    requires 0.0 <= t <= 1.0
    ensures Abs(Eval(p, t)) <= AbsSum(p)
  {
    if p != [] {
      EvalBound(p[1..], t);
      StepBound(p[0], t, Eval(p[1..], t), AbsSum(p[1..]), Eval(p, t));
    }
  }

  ghost predicate Vanishes(p: seq<real>)
  {
    forall t: real :: 0.0 < t <= 1.0 ==> Eval(p, t) == 0.0
  }

  /** A bounded change cannot cancel a constant if it is scaled down enough. */
  lemma SmallEnough(a: real, b: real) returns (t: real)
    requires a != 0.0 && b >= 0.0
    ensures 0.0 < t <= 1.0 && t * b < Abs(a)
  {
    var d := Abs(a) + b;
    t := Abs(a) / (2.0 * d);
    assert t * (2.0 * d) == Abs(a);
    assert t > 0.0;
    assert 2.0 * (t * d) == Abs(a);
    assert t * d == t * Abs(a) + t * b;
  }

  lemma ConstantTermVanishes(p: seq<real>)
    requires p != [] && Vanishes(p)
    ensures p[0] == 0.0
  {
    if p[0] != 0.0 {
      var b := AbsSum(p[1..]);
      var t := SmallEnough(p[0], b);
      var x := t * Eval(p[1..], t);
      EvalBound(p[1..], t);
      ScaledBound(t, Eval(p[1..], t), b, x);
      var e := Eval(p, t);
      assert false;
    }
  }

  lemma {:induction false} VanishingIsZero(p: seq<real>)
    requires Vanishes(p)
    ensures forall k :: 0 <= k < |p| ==> p[k] == 0.0
  {
    if p != [] {
      ConstantTermVanishes(p);
      forall t: real | 0.0 < t <= 1.0 ensures Eval(p[1..], t) == 0.0 {
        assert Eval(p, t) == 0.0;
      }
      VanishingIsZero(p[1..]);
      forall k | 0 <= k < |p| ensures p[k] == 0.0 {
        assert k > 0 ==> p[k] == p[1..][k - 1];
      }
    }
  }

  lemma {:induction false} EvalDifference(p: seq<real>, q: seq<real>, d: seq<real>, t: real)
    requires |p| == |q| == |d| && forall k :: 0 <= k < |p| ==> d[k] == p[k] - q[k]
    ensures Eval(d, t) == Eval(p, t) - Eval(q, t)
  {
    if p != [] {
      EvalDifference(p[1..], q[1..], d[1..], t);
    }
  }

  /** Two polynomials of the same length with the same values have the same coefficients. */
  lemma SameValuesSameCoefficients(p: seq<real>, q: seq<real>)
    requires |p| == |q| && forall t: real :: Value(p, t) == Value(q, t)
    ensures p == q
  {
    var d := seq(|p|, k requires 0 <= k < |p| => p[k] - q[k]);
    forall t: real | 0.0 < t <= 1.0 ensures Eval(d, t) == 0.0 {
      assert Value(p, t) == Value(q, t);
      ValueIsEval(p, t);
      ValueIsEval(q, t);
      EvalDifference(p, q, d, t);
    }
    VanishingIsZero(d);
    forall k | 0 <= k < |p| ensures p[k] == q[k] {
      assert d[k] == 0.0;
    }
  }
}
