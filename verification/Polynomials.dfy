/**
 The polynomial class: its loops are proved to compute the functions of module PolynomialAlgebra.
 */
module Polynomials {
  import opened Sums
  import opened PolynomialAlgebra

  lemma {:induction false} TrimIsPrefix(c: seq<real>, order: nat)
    requires order < |c| && (forall k :: order < k < |c| ==> c[k] == 0.0) && (order == 0 || c[order] != 0.0)
    ensures Trim(c) == c[..order + 1]
  {
    if order + 1 == |c| {
      assert c[..order + 1] == c;
    } else {
      var shorter := c[..|c| - 1];
      TrimIsPrefix(shorter, order);
      assert shorter[..order + 1] == c[..order + 1];
    }
  }

  // ---------------------------------------------------------------- quadratic roots

  lemma CompleteSquare(a: real, b: real, c: real, x: real)
    ensures 4.0 * a * (a * x * x + b * x + c) == (2.0 * a * x + b) * (2.0 * a * x + b) - (b * b - 4.0 * a * c)
  {
    assert (2.0 * a * x + b) * (2.0 * a * x + b) == 4.0 * a * (a * x * x) + 4.0 * a * (b * x) + b * b;
  }

  lemma SquareRoots(u: real, d: real)
    requires d >= 0.0
    ensures u * u == d * d <==> u == d || u == -d
  {
    assert u * u - d * d == (u - d) * (u + d);
  }

  lemma SolveLinear(a: real, b: real, u: real, x: real)
    requires a != 0.0
    ensures 2.0 * a * x + b == u <==> x == (-b + u) / (2.0 * a)
  {
    var y := (-b + u) / (2.0 * a);
    assert y * (2.0 * a) == -b + u;
    assert 2.0 * a * x + b == u ==> (x - y) * (2.0 * a) == 0.0;
  }

  /** A quadratic vanishes exactly where the square in its completed form is the discriminant. */
  lemma QuadraticVanishes(a: real, b: real, c: real, x: real)
    requires a != 0.0
    ensures a * x * x + b * x + c == 0.0 <==> (2.0 * a * x + b) * (2.0 * a * x + b) == b * b - 4.0 * a * c
  {
    CompleteSquare(a, b, c, x);
    var q := a * x * x + b * x + c;
    assert 4.0 * a * q == 0.0 ==> q == 0.0;
  }

  lemma SquareSolved(a: real, b: real, d: real, root: real, x: real)
    requires a != 0.0 && (d > 0.0 ==> root > 0.0 && root * root == d)
    ensures (2.0 * a * x + b) * (2.0 * a * x + b) == d <==>
            if d == 0.0 then x == -b / (2.0 * a)
            else d > 0.0 && (x == (-b + root) / (2.0 * a) || x == (-b - root) / (2.0 * a))
  {
    var u := 2.0 * a * x + b;
    if d > 0.0 {
      SquareRoots(u, root);
      SolveLinear(a, b, root, x);
      SolveLinear(a, b, -root, x);
    } else if d == 0.0 {
      SquareRoots(u, 0.0);
      SolveLinear(a, b, 0.0, x);
    } else {
      assert u * u >= 0.0;
    }
  }

  /** The quadratic formula gives every root and nothing else. */
  lemma QuadraticRootsExact(a: real, b: real, c: real, d: real, root: real, x: real)
    requires a != 0.0 && d == b * b - 4.0 * a * c && (d > 0.0 ==> root > 0.0 && root * root == d)
    ensures a * x * x + b * x + c == 0.0 <==>
            if d == 0.0 then x == -b / (2.0 * a)
            else d > 0.0 && (x == (-b + root) / (2.0 * a) || x == (-b - root) / (2.0 * a))
  {
    QuadraticVanishes(a, b, c, x);
    SquareSolved(a, b, d, root, x);
  }

  /** The real roots of a quadratic, given the square root of a positive discriminant. */
  method QuadraticRealRoots(a: real, b: real, c: real, root: real) returns (roots: seq<real>)
    requires a != 0.0
    requires b * b - 4.0 * a * c > 0.0 ==> root > 0.0 && root * root == b * b - 4.0 * a * c
    ensures forall x: real :: x in roots <==> a * x * x + b * x + c == 0.0
    ensures |roots| == if b * b - 4.0 * a * c == 0.0 then 1 else if b * b - 4.0 * a * c > 0.0 then 2 else 0
  {
    roots := [];
    var discriminant := b * b - 4.0 * a * c;
    if discriminant == 0.0 {
      roots := roots + [-b / (2.0 * a)];
    } else if discriminant > 0.0 {
      roots := roots + [(-b + root) / (2.0 * a)];
      roots := roots + [(-b - root) / (2.0 * a)];
    }
    forall x: real ensures x in roots <==> a * x * x + b * x + c == 0.0 {
      QuadraticRootsExact(a, b, c, discriminant, root, x);
    }
  }

  lemma LowDegreeValue(p: seq<real>, t: real)
    requires 1 <= |p| <= 3
    ensures Value(p, t) ==
            if |p| == 1 then p[0]
            else if |p| == 2 then p[0] + p[1] * t
            else p[2] * t * t + p[1] * t + p[0]
  {
    ValueIsHorner(p, t);
    assert Horner(p, t, |p|) == 0.0;
    assert Horner(p, t, |p| - 1) == p[|p| - 1] + t * 0.0;
    if |p| == 3 {
      assert t * (p[1] + t * p[2]) == p[1] * t + p[2] * t * t;
    }
  }

  // ---------------------------------------------------------------- the class

  datatype DerivativeResult = NegativeOrder | Derivative(polynomial: Polynomial)

  class Polynomial {
    var coefficients: seq<real>

    ghost predicate Valid()
      reads this
    {
      Trimmed(coefficients)
    }

    constructor (c: seq<real>)
      requires c != []
      ensures Valid() && coefficients == Trim(c)
    {
      coefficients := c;
      new;
      SetCoefficients(c);
    }

    /** Removes the highest coefficients that are zero; the first always stays. */
    method SetCoefficients(c: seq<real>)
      requires c != []
      modifies this
      ensures Valid() && coefficients == Trim(c)
    {
      var order := 0;
      var k := |c| - 1;
      while k > 0
        invariant 0 <= k < |c| && order == 0
        invariant forall j :: k < j < |c| ==> c[j] == 0.0
      {
        if c[k] != 0.0 {
          order := k;
          break;
        }
        k := k - 1;
      }
      coefficients := c[..order + 1];
      TrimIsPrefix(c, order);
    }

    method Evaluate(t: real) returns (value: real)
      requires Valid()
      ensures value == Value(coefficients, t)
    {
      var index := |coefficients| - 1;
      value := coefficients[index];
      index := index - 1;
      while index >= 0
        invariant -1 <= index < |coefficients| - 1
        invariant value == Horner(coefficients, t, index + 1)
      {
        value := value * t;
        value := value + coefficients[index];
        index := index - 1;
      }
      ValueIsHorner(coefficients, t);
    }

    method Factor(index: nat, order: nat) returns (factor: real)
      requires order <= index
      ensures factor == Falling(index, order)
    {
      factor := 1.0;
      var k := index;
      while k > index - order
        invariant index - order <= k <= index
        invariant factor == Falling(index, index - k)
      {
        factor := factor * (k as real);
        k := k - 1;
      }
    }

    method DerivedCoefficients(order: nat) returns (derived: seq<real>)
      requires 0 < order < |coefficients|
      ensures derived == Derived(coefficients, order)
    {
      hide *;
      var size := |coefficients| - order;
      var a := new real[size];
      var index := |coefficients| - 1;
      DerivedAt(coefficients, order, 0);
      while index >= order
        invariant order - 1 <= index < |coefficients|
        invariant forall i :: index - order < i < size ==> a[i] == Derived(coefficients, order)[i]
      {
        var factor := Factor(index, order);
        a[index - order] := coefficients[index] * factor;
        DerivedAt(coefficients, order, index - order);
        index := index - 1;
      }
      derived := a[..];
    }

    /** The polynomial of the order-th derivative; a negative order is an error. */
    method TakeDerivative(order: int) returns (r: DerivativeResult)
      requires Valid()
      ensures order < 0 <==> r.NegativeOrder?
      ensures order >= 0 ==>
                fresh(r.polynomial) && r.polynomial.Valid() && r.polynomial.coefficients == Derived(coefficients, order)
    {
      if order < 0 {
        return NegativeOrder;
      }
      var derived := coefficients;
      if order == 0 {
        DerivedZero(coefficients);
      } else if |coefficients| - order <= 0 {
        derived := [0.0];
      } else {
        derived := DerivedCoefficients(order);
      }
      DerivedIsTrimmed(coefficients, order);
      TrimmedIsFixed(derived);
      var result := new Polynomial(derived);
      r := Derivative(result);
    }

    /** The polynomial t -> P(t0 + t1 - t). */
    method Reverse(t0: real, t1: real) returns (r: Polynomial)
      requires Valid()
      ensures fresh(r) && r.Valid() && r.coefficients == Reversed(coefficients, t0 + t1)
    {
      var size, c := |coefficients|, t0 + t1;
      var m := ConversionMatrix(size, c);
      var product := new real[size];
      for row := 0 to size
        invariant forall i :: 0 <= i < row ==> product[i] == Reversed(coefficients, c)[i]
        invariant forall i: nat :: i < size ==> RowFilled(m, i, c)
      {
        product[row] := RowTimesVector(m, row, c, coefficients);
        ReversedAt(coefficients, c, row);
      }
      assert product[..] == Reversed(coefficients, c);
      ReversedLeading(coefficients, c);
      TrimmedIsFixed(product[..]);
      r := new Polynomial(product[..]);
    }

    /**
     The parameters at which the polynomial takes a value, for degrees up to two; `root` is the square
     root of the discriminant.  The set is exact except for a constant polynomial at its own value.
     */
    method LevelSet(level: real, root: real) returns (levels: seq<real>)
      requires Valid() && |coefficients| <= 3
      requires |coefficients| == 3 ==>
                 var d := coefficients[1] * coefficients[1] - 4.0 * coefficients[2] * (coefficients[0] - level);
                 d > 0.0 ==> root > 0.0 && root * root == d
      ensures |coefficients| == 1 ==> levels == []
      ensures IsLevelSet(coefficients, level, levels) <==> !(|coefficients| == 1 && coefficients[0] == level)
    {
      var order := |coefficients| - 1;
      levels := [];
      if order < 1 {
        ConstantLevelSet(coefficients, level);
        return;
      }
      var constant := coefficients[0] - level;
      if order == 1 {
        levels := [-constant / coefficients[1]];
        LinearLevelSet(coefficients, level);
      } else {
        levels := QuadraticRealRoots(coefficients[2], coefficients[1], constant, root);
        QuadraticLevelSet(coefficients, level, levels);
      }
    }
  }

  /** `levels` are exactly the parameters at which the polynomial takes the value `level`. */
  ghost predicate IsLevelSet(p: seq<real>, level: real, levels: seq<real>)
  {
    forall t: real :: t in levels <==> Value(p, t) == level
  }

  lemma ConstantLevelSet(p: seq<real>, level: real)
    requires |p| == 1
    ensures IsLevelSet(p, level, []) <==> p[0] != level
  {
    hide Value;
    forall t: real ensures Value(p, t) == p[0] {
      LowDegreeValue(p, t);
    }
    assert Value(p, 0.0) == p[0];
  }

  lemma LinearLevelSet(p: seq<real>, level: real)
    requires |p| == 2 && p[1] != 0.0
    ensures IsLevelSet(p, level, [-(p[0] - level) / p[1]])
  {
    hide Value;
    forall t: real ensures t in [-(p[0] - level) / p[1]] <==> Value(p, t) == level {
      LowDegreeValue(p, t);
      LinearRoot(p[1], p[0] - level, t);
    }
  }

  lemma QuadraticLevelSet(p: seq<real>, level: real, levels: seq<real>)
    requires |p| == 3
    requires forall x: real :: x in levels <==> p[2] * x * x + p[1] * x + (p[0] - level) == 0.0
    ensures IsLevelSet(p, level, levels)
  {
    hide Value;
    forall t: real ensures t in levels <==> Value(p, t) == level {
      LowDegreeValue(p, t);
    }
  }

  // ---------------------------------------------------------------- the conversion matrix

  ghost predicate RowFilled(m: array2<real>, row: nat, c: real)
    requires row < m.Length0
    reads m
  {
    forall j: nat :: j < m.Length1 ==> m[row, j] == Entry(c, row, j)
  }

  ghost predicate RowsEmpty(m: array2<real>, from: nat)
    reads m
  {
    forall i: nat, j: nat :: from <= i < m.Length0 && j < m.Length1 ==> m[i, j] == 0.0
  }

  lemma EntryCorner(c: real)
    ensures Entry(c, 0, 0) == 1.0
  {
  }

  lemma BelowDiagonal(c: real, row: nat)
    ensures forall j: nat :: j < row ==> Entry(c, row, j) == 0.0
  {
  }

  method FillFirstRow(m: array2<real>, c: real)
    requires m.Length0 == m.Length1 > 0 && RowsEmpty(m, 0)
    modifies m
    ensures RowFilled(m, 0, c) && RowsEmpty(m, 1)
  {
    hide Entry;
    m[0, 0] := 1.0;
    EntryCorner(c);
    for col := 1 to m.Length1
      invariant forall j: nat :: j < col ==> m[0, j] == Entry(c, 0, j)
      invariant RowsEmpty(m, 1)
    {
      m[0, col] := c * m[0, col - 1];
      EntryRecurrence(c, 0, col);
    }
  }

  method FillRow(m: array2<real>, row: nat, c: real)
    requires 0 < row < m.Length0 == m.Length1
    requires RowFilled(m, row - 1, c) && RowsEmpty(m, row)
    modifies m
    ensures RowFilled(m, row, c) && RowsEmpty(m, row + 1)
    ensures forall i: nat, j: nat :: i < row && j < m.Length1 ==> m[i, j] == old(m[i, j])
  {
    hide Entry;
    BelowDiagonal(c, row);
    for col := row to m.Length1
      invariant forall i: nat, j: nat :: i < row && j < m.Length1 ==> m[i, j] == old(m[i, j])
      invariant forall j: nat :: j < col ==> m[row, j] == Entry(c, row, j)
      invariant RowsEmpty(m, row + 1)
    {
      m[row, col] := c * m[row, col - 1] - m[row - 1, col - 1];
      EntryRecurrence(c, row, col);
    }
  }

  /** Fills the conversion matrix by its recurrence; below the diagonal it stays zero. */
  method ConversionMatrix(size: nat, c: real) returns (m: array2<real>)
    requires size > 0
    ensures fresh(m) && m.Length0 == m.Length1 == size
    ensures forall row: nat :: row < size ==> RowFilled(m, row, c)
  {
    m := new real[size, size]((i, j) => 0.0);
    FillFirstRow(m, c);
    for row := 1 to size
      invariant forall i: nat :: i < row ==> RowFilled(m, i, c)
      invariant RowsEmpty(m, row)
    {
      label before:
      FillRow(m, row, c);
      forall i: nat | i < row ensures RowFilled(m, i, c) {
        assert old@before(RowFilled(m, i, c));
      }
    }
  }

  method RowTimesVector(m: array2<real>, row: nat, c: real, p: seq<real>) returns (sum: real)
    requires row < m.Length0 && m.Length1 == |p| && RowFilled(m, row, c)
    ensures sum == Sum(Product(p, c, row), |p|)
  {
    sum := 0.0;
    for col := 0 to |p|
      invariant sum == Sum(Product(p, c, row), col)
    {
      ProductAt(p, c, row, col);
      sum := sum + m[row, col] * p[col];
    }
  }

  lemma LinearRoot(a: real, b: real, t: real)
    requires a != 0.0
    ensures b + a * t == 0.0 <==> t == -b / a
  {
    var y := -b / a;
    assert y * a == -b;
    assert b + a * t == 0.0 ==> (t - y) * a == 0.0;
  }

  lemma TrimmedIsFixed(p: seq<real>)
    requires Trimmed(p)
    ensures Trim(p) == p
  {
  }
}
