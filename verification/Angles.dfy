/**
 Angles in radians: wrapping into [-pi, pi], the distance between two angles on the circle, and
 unrolling a series of angles.  Doubles are idealised as reals.
 */
module Angles {
  import opened Reals

  const PI: real := 3.14159265358979323846264338327

  /** k full turns. */
  function Turns(k: int): real
  {
    2.0 * PI * (k as real)
  }

  ghost predicate Congruent(a: real, b: real)
  {
    exists k: int :: a == b + Turns(k)
  }

  lemma TurnsAdd(j: int, k: int)
    ensures Turns(j + k) == Turns(j) + Turns(k) && Turns(-k) == -Turns(k)
  {
  }

  lemma CongruentTurns(a: real, b: real, k: int)
    requires a == b + Turns(k)
    ensures Congruent(a, b) && Congruent(b, a)
  {
    TurnsAdd(0, k);
    assert b == a + Turns(-k);
  }

  lemma CongruentTrans(a: real, b: real, c: real)
    requires Congruent(a, b) && Congruent(b, c)
    ensures Congruent(a, c)
  {
    var j: int :| a == b + Turns(j);
    var k: int :| b == c + Turns(k);
    TurnsAdd(j, k);
    CongruentTurns(a, c, j + k);
  }

  lemma CongruentSym(a: real, b: real)
    requires Congruent(a, b)
    ensures Congruent(b, a)
  {
    var k: int :| a == b + Turns(k);
    CongruentTurns(a, b, k);
  }

  // ---------------------------------------------------------------- wrapping

  function Ceiling(x: real): int
  {
    -((-x).Floor)
  }

  /** The angle brought into [-pi, pi] by the least number of turns. */
  function Wrapped(angle: real): real
  {
    if angle > PI then angle - Turns(Ceiling((angle - PI) / (2.0 * PI)))
    else if angle < -PI then angle + Turns(Ceiling((-PI - angle) / (2.0 * PI)))
    else angle
  }

  lemma TurnsUp(y: real)
    ensures 2.0 * PI * y <= Turns(Ceiling(y)) < 2.0 * PI * (y + 1.0)
  {
    var n := Ceiling(y);
    assert y <= n as real < y + 1.0;
  }

  /** Wrapping gives a congruent angle in range; which end a half turn lands on depends on the side it came from. */
  lemma WrappedSpec(angle: real)
    ensures -PI <= Wrapped(angle) <= PI && Congruent(Wrapped(angle), angle)
    ensures angle > PI ==> Wrapped(angle) > -PI
    ensures angle < -PI ==> Wrapped(angle) < PI
  {
    if angle > PI {
      var y := (angle - PI) / (2.0 * PI);
      TurnsUp(y);
      TurnsAdd(0, Ceiling(y));
      CongruentTurns(Wrapped(angle), angle, -Ceiling(y));
    } else if angle < -PI {
      var y := (-PI - angle) / (2.0 * PI);
      TurnsUp(y);
      CongruentTurns(Wrapped(angle), angle, Ceiling(y));
    } else {
      CongruentTurns(angle, angle, 0);
    }
  }

  lemma WrappedTurns(angle: real) returns (k: int)
    ensures Wrapped(angle) == angle + Turns(k)
  {
    hide Wrapped, Turns;
    WrappedSpec(angle);
    k :| Wrapped(angle) == angle + Turns(k);
  }

  /** Taking off one turn at a time does not change where the angle ends up. */
  lemma WrapStep(angle: real)
    ensures angle > PI ==> Wrapped(angle - 2.0 * PI) == Wrapped(angle)
    ensures angle < -PI ==> Wrapped(angle + 2.0 * PI) == Wrapped(angle)
  {
    if angle > PI {
      var y := (angle - PI) / (2.0 * PI);
      assert ((angle - 2.0 * PI) - PI) / (2.0 * PI) == y - 1.0;
      CeilingStep(y);
      TurnsAdd(Ceiling(y - 1.0), 1);
    } else if angle < -PI {
      var y := (-PI - angle) / (2.0 * PI);
      assert (-PI - (angle + 2.0 * PI)) / (2.0 * PI) == y - 1.0;
      CeilingStep(y);
      TurnsAdd(Ceiling(y - 1.0), 1);
    }
  }

  lemma CeilingStep(y: real)
    ensures Ceiling(y - 1.0) == Ceiling(y) - 1
    ensures 0.0 < y <= 1.0 ==> Ceiling(y) == 1
  {
  }

  method WrapToPi(angle: real) returns (r: real)
    ensures r == Wrapped(angle)
  {
    r := angle;
    while r > PI
      invariant Wrapped(r) == Wrapped(angle)
      invariant r != angle ==> r > -PI
      decreases r
    {
      WrapStep(r);
      r := r - 2.0 * PI;
    }
    while r < -PI
      invariant Wrapped(r) == Wrapped(angle) && r <= PI
      decreases -r
    {
      WrapStep(r);
      r := r + 2.0 * PI;
    }
  }

  // ---------------------------------------------------------------- distance on the circle

  /** The floating-point remainder for a non-negative argument. */
  function Remainder(x: real, y: real): real
    requires x >= 0.0 && y > 0.0
  {
    x - y * ((x / y).Floor as real)
  }

  function AngleDiff(a: real, b: real): real
  {
    PI - Abs(Remainder(Abs(a - b), 2.0 * PI) - PI)
  }

  lemma RemainderRange(x: real) returns (m: int)
    requires x >= 0.0
    ensures 0.0 <= Remainder(x, 2.0 * PI) < 2.0 * PI && x == Remainder(x, 2.0 * PI) + Turns(m)
  {
    m := (x / (2.0 * PI)).Floor;
    assert m as real <= x / (2.0 * PI) < m as real + 1.0;
  }

  /** No whole number of turns brings a remainder closer to zero than the way round on either side. */
  lemma ShortestWay(r: real, j: int)
    requires 0.0 <= r < 2.0 * PI
    ensures PI - Abs(r - PI) <= Abs(r + Turns(j))
  {
    if j >= 0 {
      assert Turns(j) >= 0.0;
    } else {
      assert Turns(j) <= -2.0 * PI;
    }
  }

  /** No turn makes the difference smaller than the circular distance. */
  lemma DiffIsLeast(a: real, b: real, k: int)
    ensures AngleDiff(a, b) <= Abs(a - b + Turns(k))
  {
    var d := Abs(a - b);
    var m := RemainderRange(d);
    var r := Remainder(d, 2.0 * PI);
    if a - b >= 0.0 {
      TurnsAdd(m, k);
      ShortestWay(r, m + k);
    } else {
      TurnsAdd(m, -k);
      TurnsAdd(0, k);
      ShortestWay(r, m - k);
    }
  }

  /** The circular distance is the difference after some number of turns. */
  lemma DiffIsAttained(a: real, b: real) returns (k: int)
    ensures Abs(a - b + Turns(k)) == AngleDiff(a, b)
  {
    var d := Abs(a - b);
    var m := RemainderRange(d);
    var r := Remainder(d, 2.0 * PI);
    var j := if r <= PI then -m else -m - 1;
    TurnsAdd(0, m);
    TurnsAdd(-m, -1);
    TurnsAdd(0, j);
    k := if a - b >= 0.0 then j else -j;
  }

  /** So it is a distance: it satisfies the triangle inequality, and it is at most half a turn. */
  lemma DiffTriangle(a: real, b: real, c: real)
    ensures AngleDiff(a, c) <= AngleDiff(a, b) + AngleDiff(b, c)
    ensures 0.0 <= AngleDiff(a, b) <= PI
  {
    var j := DiffIsAttained(a, b);
    var k := DiffIsAttained(b, c);
    TurnsAdd(j, k);
    DiffIsLeast(a, c, j + k);
    var m := RemainderRange(Abs(a - b));
  }

  /** A difference of at most half a turn that is right up to turns is the circular distance. */
  lemma HalfTurnIsLeast(a: real, b: real, k: int)
    requires Abs(a - b + Turns(k)) <= PI
    ensures Abs(a - b + Turns(k)) == AngleDiff(a, b)
  {
    var v := a - b + Turns(k);
    DiffIsLeast(a, b, k);
    var j := DiffIsAttained(a, b);
    TurnsAdd(k, j - k);
    assert a - b + Turns(j) == v + Turns(j - k);
    if j > k {
      assert Turns(j - k) >= 2.0 * PI;
    } else if j < k {
      assert Turns(j - k) <= -2.0 * PI;
    }
  }

  /** The distance on the circle is the size of the wrapped difference. */
  lemma DiffIsWrapped(a: real, b: real)
    ensures AngleDiff(a, b) == Abs(Wrapped(a - b))
  {
    hide Wrapped, AngleDiff, Turns;
    WrappedSpec(a - b);
    var k := WrappedTurns(a - b);
    HalfTurnIsLeast(a, b, k);
  }

  /** Two angles are at distance zero exactly when they are the same up to full turns. */
  lemma DiffZeroIffCongruent(a: real, b: real)
    ensures AngleDiff(a, b) == 0.0 <==> Congruent(a, b)
  {
    hide AngleDiff, Turns;
    if Congruent(a, b) {
      var k: int :| a == b + Turns(k);
      TurnsAdd(0, k);
      HalfTurnIsLeast(a, b, -k);
    }
    if AngleDiff(a, b) == 0.0 {
      var k := DiffIsAttained(a, b);
      TurnsAdd(0, k);
      CongruentTurns(a, b, -k);
    }
  }

  // ---------------------------------------------------------------- unrolling

  function Unroll(previous: real, angle: real): real
  {
    var diff := Wrapped(angle) - Wrapped(previous);
    if Abs(diff) <= PI then previous + diff
    else if diff > 0.0 then previous - (2.0 * PI - diff)
    else previous + (2.0 * PI + diff)
  }

  lemma UnrollTurns(previous: real, angle: real) returns (k: int)
    ensures Unroll(previous, angle) == angle + Turns(k)
    ensures Abs(Unroll(previous, angle) - previous) <= PI
  {
    hide Wrapped, Congruent;
    WrappedSpec(previous);
    WrappedSpec(angle);
    var i := WrappedTurns(angle);
    var j := WrappedTurns(previous);
    var diff := Wrapped(angle) - Wrapped(previous);
    var extra := if Abs(diff) <= PI then 0 else if diff > 0.0 then -1 else 1;
    k := i - j + extra;
    TurnsAdd(i, -j);
    TurnsAdd(0, j);
    TurnsAdd(i - j, extra);
    assert Turns(1) == 2.0 * PI && Turns(0) == 0.0 && Turns(-1) == -2.0 * PI;
  }

  lemma HalfTurn(previous: real, angle: real)
    ensures Abs(Wrapped(angle) - Wrapped(previous)) == PI ==>
              Unroll(previous, angle) - previous == Wrapped(angle) - Wrapped(previous)
  {
    hide Wrapped;
  }

  /**
   One output: congruent to its input, and as far from the last output as the two are apart on the circle.  Half
   a turn goes the way the wrapped angles go.
   */
  lemma UnrollSpec(previous: real, angle: real)
    ensures Congruent(Unroll(previous, angle), angle)
    ensures Abs(Unroll(previous, angle) - previous) == AngleDiff(previous, angle) <= PI
    ensures Abs(Wrapped(angle) - Wrapped(previous)) == PI ==>
              Unroll(previous, angle) - previous == Wrapped(angle) - Wrapped(previous)
  {
    HalfTurn(previous, angle);
    hide Unroll, AngleDiff, Congruent, Turns;
    var k := UnrollTurns(previous, angle);
    CongruentTurns(Unroll(previous, angle), angle, k);
    TurnsAdd(0, k);
    assert previous - angle + Turns(-k) == -(Unroll(previous, angle) - previous);
    HalfTurnIsLeast(previous, angle, -k);
  }

  function UnrollAll(start: real, angles: seq<real>): (r: seq<real>)
    ensures |r| == |angles|
    decreases |angles|
  {
    if angles == [] then [] else
      var first := Unroll(start, angles[0]);
      [first] + UnrollAll(first, angles[1..])
  }

  /** Two congruent angles within half a turn of a third, one of them strictly, are the same. */
  lemma CloseCongruentSame(a: real, b: real, p: real)
    requires Congruent(a, b) && Abs(a - p) <= PI && Abs(b - p) < PI
    ensures a == b
  {
    var k: int :| a == b + Turns(k);
    assert k > 0 ==> Turns(k) >= 2.0 * PI;
    assert k < 0 ==> Turns(k) <= -2.0 * PI;
  }

  /** A sequence that starts near `start` and never jumps by half a turn or more. */
  ghost predicate Continuous(start: real, xs: seq<real>)
    decreases |xs|
  {
    xs == [] || (Abs(xs[0] - start) < PI && Continuous(xs[0], xs[1..]))
  }

  ghost predicate AllCongruent(xs: seq<real>, ys: seq<real>)
  {
    |xs| == |ys| && forall i :: 0 <= i < |xs| ==> Congruent(xs[i], ys[i])
  }

  /** What the unroller holds just before input i of a run. */
  function Held(start: real, angles: seq<real>, i: nat): real
    requires i <= |angles|
  {
    if i == 0 then start else UnrollAll(start, angles)[i - 1]
  }

  lemma UnrollAllStep(start: real, angles: seq<real>, i: nat)
    requires 0 < i < |angles|
    ensures UnrollAll(start, angles)[i] == UnrollAll(Unroll(start, angles[0]), angles[1..])[i - 1]
    ensures Held(start, angles, i) == Held(Unroll(start, angles[0]), angles[1..], i - 1)
  {
    hide Unroll;
  }

  /** Every output of a run is congruent to its input, and as far from the output before as the input is. */
  lemma {:induction false} UnrollRun(start: real, angles: seq<real>, i: nat)
    requires i < |angles|
    ensures Congruent(UnrollAll(start, angles)[i], angles[i])
    ensures Abs(UnrollAll(start, angles)[i] - Held(start, angles, i))
         == AngleDiff(Held(start, angles, i), angles[i]) <= PI
    decreases i
  {
    hide Unroll, AngleDiff, Congruent, Abs;
    if i == 0 {
      UnrollSpec(start, angles[0]);
    } else {
      hide *;
      UnrollAllStep(start, angles, i);
      UnrollRun(Unroll(start, angles[0]), angles[1..], i - 1);
    }
  }

  /**
   Unrolling undoes wrapping: a continuous series of angles is recovered from any representation of its
   angles modulo full turns.
   */
  lemma {:induction false} UnrollRecovers(start: real, xs: seq<real>, ys: seq<real>)
    requires Continuous(start, xs) && AllCongruent(xs, ys)
    ensures UnrollAll(start, ys) == xs
    decreases |xs|
  {
    hide Unroll, AngleDiff, Congruent;
    if xs != [] {
      UnrollSpec(start, ys[0]);
      assert Congruent(xs[0], ys[0]);
      CongruentSym(xs[0], ys[0]);
      CongruentTrans(Unroll(start, ys[0]), ys[0], xs[0]);
      CloseCongruentSame(Unroll(start, ys[0]), xs[0], start);
      UnrollRecovers(xs[0], xs[1..], ys[1..]);
    }
  }

  class AngleUnroller {
    var unrolledAngle: real

    constructor (initial: real)
      ensures unrolledAngle == initial
    {
      unrolledAngle := initial;
    }

    method UnrollAngle(angle: real) returns (r: real)
      modifies this
      ensures r == unrolledAngle == Unroll(old(unrolledAngle), angle)
      ensures Congruent(r, angle) && Abs(r - old(unrolledAngle)) == AngleDiff(old(unrolledAngle), angle)
    {
      UnrollSpec(unrolledAngle, angle);
      var previous := WrapToPi(unrolledAngle);
      var wrapped := WrapToPi(angle);
      var diff := wrapped - previous;
      if Abs(diff) <= PI {
        unrolledAngle := unrolledAngle + diff;
      } else if diff > 0.0 {
        unrolledAngle := unrolledAngle - (2.0 * PI - diff);
      } else {
        unrolledAngle := unrolledAngle + (2.0 * PI + diff);
      }
      r := unrolledAngle;
    }
  }
}
