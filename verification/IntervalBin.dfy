/**
 The tables behind the digit count, and that every line of them is right.
 */
module DigitTable {

  const UINT64_MAX: nat := 0xFFFF_FFFF_FFFF_FFFF

  const TEN_TO_THE: seq<nat> :=
    [1, 10, 100, 1000, 10000, 100000, 1000000, 10000000, 100000000, 1000000000,
     10000000000, 100000000000, 1000000000000, 10000000000000, 100000000000000,
     1000000000000000, 10000000000000000, 100000000000000000, 1000000000000000000, UINT64_MAX]

  /** The guess for each bit length, in four rows. */
  const GUESS_0: seq<nat> := [0, 0, 0, 0, 1, 1, 1, 2, 2, 2, 3, 3, 3, 3, 4, 4, 4]
  const GUESS_1: seq<nat> := [5, 5, 5, 6, 6, 6, 6, 7, 7, 7, 8, 8, 8, 9, 9, 9, 9]
  const GUESS_2: seq<nat> := [10, 10, 10, 11, 11, 11, 12, 12, 12, 12, 13, 13, 13, 14, 14, 14, 15]
  const GUESS_3: seq<nat> := [15, 15, 15, 16, 16, 16, 17, 17, 17, 18, 18, 18, 18, 19]

  function Guess(bits: nat): nat
    requires bits <= 64
  {
    if bits < 17 then GUESS_0[bits]
    else if bits < 34 then GUESS_1[bits - 17]
    else if bits < 51 then GUESS_2[bits - 34]
    else GUESS_3[bits - 51]
  }

  // ---------------------------------------------------------------- digits

  function PowerOfTwo(n: nat): nat
  {
    if n == 0 then 1 else 2 * PowerOfTwo(n - 1)
  }

  function PowerOfTen(n: nat): nat
  {
    if n == 0 then 1 else 10 * PowerOfTen(n - 1)
  }

  lemma PowersOfTwo()
    ensures PowerOfTwo(1) == 2 && PowerOfTwo(4) == 0x10 && PowerOfTwo(8) == 0x100
    ensures PowerOfTwo(12) == 0x1000 && PowerOfTwo(16) == 0x10000 && PowerOfTwo(20) == 0x100000
    ensures PowerOfTwo(24) == 0x1000000 && PowerOfTwo(28) == 0x10000000 && PowerOfTwo(32) == 0x100000000
    ensures PowerOfTwo(36) == 0x1000000000 && PowerOfTwo(40) == 0x10000000000 && PowerOfTwo(44) == 0x100000000000
    ensures PowerOfTwo(48) == 0x1000000000000 && PowerOfTwo(52) == 0x10000000000000
    ensures PowerOfTwo(56) == 0x100000000000000 && PowerOfTwo(60) == 0x1000000000000000
    ensures PowerOfTwo(64) == 0x10000000000000000 && PowerOfTwo(31) == 0x8000_0000
    ensures PowerOfTwo(63) == 0x8000_0000_0000_0000
  {
    assert PowerOfTwo(4) == 0x10;
    assert PowerOfTwo(8) == 0x100;
    assert PowerOfTwo(12) == 0x1000;
    assert PowerOfTwo(16) == 0x10000;
    assert PowerOfTwo(20) == 0x100000;
    assert PowerOfTwo(24) == 0x1000000;
    assert PowerOfTwo(28) == 0x10000000;
    assert PowerOfTwo(32) == 0x100000000;
    assert PowerOfTwo(36) == 0x1000000000;
    assert PowerOfTwo(40) == 0x10000000000;
    assert PowerOfTwo(44) == 0x100000000000;
    assert PowerOfTwo(48) == 0x1000000000000;
    assert PowerOfTwo(52) == 0x10000000000000;
    assert PowerOfTwo(56) == 0x100000000000000;
    assert PowerOfTwo(60) == 0x1000000000000000;
    assert PowerOfTwo(64) == 0x10000000000000000;
  }

  lemma PowersOfTen()
    ensures PowerOfTen(3) == 1000 && PowerOfTen(6) == 1000000
    ensures PowerOfTen(9) == 1000000000 && PowerOfTen(12) == 1000000000000
    ensures PowerOfTen(15) == 1000000000000000 && PowerOfTen(18) == 1000000000000000000
    ensures PowerOfTen(19) == 10000000000000000000 && PowerOfTen(20) == 100000000000000000000
  {
    assert PowerOfTen(3) == 1000;
    assert PowerOfTen(6) == 1000000;
    assert PowerOfTen(9) == 1000000000;
    assert PowerOfTen(12) == 1000000000000;
    assert PowerOfTen(15) == 1000000000000000;
    assert PowerOfTen(18) == 1000000000000000000;
  }

  /** The number of decimal digits; zero has none. */
  function Digits(x: nat): nat
  {
    if x == 0 then 0 else 1 + Digits(x / 10)
  }

  /** Leading zeros of a 32-bit number that is not zero. */
  function CountLeadingZeros(v: nat): (z: nat)
    requires 0 < v < 0x1_0000_0000
    ensures z <= 31 && PowerOfTwo(31 - z) <= v < PowerOfTwo(32 - z)
    decreases 0x1_0000_0000 - v
  {
    PowersOfTwo();
    if v >= 0x8000_0000 then 0 else 1 + CountLeadingZeros(2 * v)
  }

  lemma {:induction false} PowerOfTwoAdds(m: nat, n: nat)
    ensures PowerOfTwo(m + n) == PowerOfTwo(m) * PowerOfTwo(n)
  {
    if m > 0 {
      PowerOfTwoAdds(m - 1, n);
      DoubleFirst(PowerOfTwo(m - 1), PowerOfTwo(n));
    }
  }

  lemma DoubleFirst(a: nat, b: nat)
    ensures 2 * (a * b) == (2 * a) * b
  {
  }

  /** The bit length brackets the number between two powers of two. */
  function BaseTwoDigits(x: nat): (b: nat)
    requires x <= UINT64_MAX
    ensures x == 0 ==> b == 0
    ensures x > 0 ==> 1 <= b <= 64 && PowerOfTwo(b - 1) <= x < PowerOfTwo(b)
  {
    var hi, lo := x / 0x1_0000_0000, x % 0x1_0000_0000;
    if hi == 0 then (if lo != 0 then 32 - CountLeadingZeros(lo) else 0)
    else
      HighHalf(x, hi, lo, CountLeadingZeros(hi));
      64 - CountLeadingZeros(hi)
  }

  lemma HighHalf(x: nat, hi: nat, lo: nat, z: nat)
    requires lo < 0x1_0000_0000 && x == 0x1_0000_0000 * hi + lo
    requires z <= 31 && PowerOfTwo(31 - z) <= hi < PowerOfTwo(32 - z)
    ensures PowerOfTwo(63 - z) <= x < PowerOfTwo(64 - z)
  {
    PowersOfTwo();
    PowerOfTwoAdds(32, 31 - z);
    PowerOfTwoAdds(32, 32 - z);
  }

  lemma GuessRange(bits: nat)
    requires bits <= 64
    ensures Guess(bits) <= 19 && (bits <= 63 ==> Guess(bits) <= 18)
  {
  }

  function BaseTenDigits(x: nat): nat
    requires x <= UINT64_MAX
  {
    GuessRange(BaseTwoDigits(x));
    var digits := Guess(BaseTwoDigits(x));
    digits + if x >= TEN_TO_THE[digits] then 1 else 0
  }

  lemma {:induction false} DigitsBracket(x: nat, d: nat)
    requires d > 0 && PowerOfTen(d - 1) <= x < PowerOfTen(d)
    ensures Digits(x) == d
  {
    if d > 1 {
      DigitsBracket(x / 10, d - 1);
    } else {
      assert PowerOfTen(0) == 1 && PowerOfTen(1) == 10;
      assert Digits(x / 10) == 0;
    }
  }

  lemma TenStep(g: nat)
    requires 1 <= g <= 18
    ensures TEN_TO_THE[g] == 10 * TEN_TO_THE[g - 1]
  {
  }

  lemma {:induction false} TenIs(g: nat)
    requires g <= 18
    ensures TEN_TO_THE[g] == PowerOfTen(g)
  {
    if g == 0 {
      assert TEN_TO_THE[0] == 1;
    } else {
      TenIs(g - 1);
      TenStep(g);
    }
  }

  /** One line of the table: the guess is the digit count of the numbers of that bit length, or one less. */
  predicate LineFits(bits: nat)
    requires 1 <= bits <= 63
  {
    var g := Guess(bits);
    g <= 18 && TEN_TO_THE[g] == PowerOfTen(g) && PowerOfTwo(bits) <= PowerOfTen(g + 1)
    && (g > 0 ==> PowerOfTen(g - 1) <= PowerOfTwo(bits - 1))
  }

  predicate LinesFit(first: nat, last: nat)
    requires 1 <= first && last <= 63
    decreases last - first + 1
  {
    first > last || (LineFits(first) && LinesFit(first + 1, last))
  }

  lemma Lines1() ensures LinesFit(1, 8) { PowersOfTwo(); PowersOfTen(); }
  lemma Lines2() ensures LinesFit(9, 16) { PowersOfTwo(); PowersOfTen(); }
  lemma Lines3() ensures LinesFit(17, 24) { PowersOfTwo(); PowersOfTen(); }
  lemma Lines4() ensures LinesFit(25, 32) { PowersOfTwo(); PowersOfTen(); }
  lemma Lines5() ensures LinesFit(33, 40) { PowersOfTwo(); PowersOfTen(); }
  lemma Lines6() ensures LinesFit(41, 44) { PowersOfTwo(); PowersOfTen(); }
  lemma Lines7() ensures LinesFit(45, 48) { PowersOfTwo(); PowersOfTen(); }
  lemma Lines8() ensures LinesFit(49, 52) { PowersOfTwo(); PowersOfTen(); }
  lemma Lines9() ensures LinesFit(53, 56) { PowersOfTwo(); PowersOfTen(); }
  lemma Lines10() ensures LinesFit(57, 63) { PowersOfTwo(); PowersOfTen(); }

  lemma {:induction false} LineOf(bits: nat, first: nat, last: nat)
    requires 1 <= first <= bits <= last <= 63 && LinesFit(first, last)
    ensures LineFits(bits)
    decreases bits - first
  {
    if first < bits {
      LineOf(bits, first + 1, last);
    }
  }

}

/**
 The number of decimal digits of a 64-bit number, read off the table by bit length.
 */
module DecimalDigits {
  import opened DigitTable

  lemma EveryLineFits(bits: nat)
    requires 1 <= bits <= 63
    ensures LineFits(bits)
  {
    hide *;
    if bits <= 8 { Lines1(); LineOf(bits, 1, 8); }
    else if bits <= 16 { Lines2(); LineOf(bits, 9, 16); }
    else if bits <= 24 { Lines3(); LineOf(bits, 17, 24); }
    else if bits <= 32 { Lines4(); LineOf(bits, 25, 32); }
    else if bits <= 40 { Lines5(); LineOf(bits, 33, 40); }
    else if bits <= 44 { Lines6(); LineOf(bits, 41, 44); }
    else if bits <= 48 { Lines7(); LineOf(bits, 45, 48); }
    else if bits <= 52 { Lines8(); LineOf(bits, 49, 52); }
    else if bits <= 56 { Lines9(); LineOf(bits, 53, 56); }
    else { Lines10(); LineOf(bits, 57, 63); }
  }

  lemma ShortNumberDigits(x: nat, bits: nat)
    requires 0 < x <= UINT64_MAX && bits == BaseTwoDigits(x) <= 63
    ensures BaseTenDigits(x) == Digits(x)
  {
    EveryLineFits(bits);
    var g := Guess(bits);
    assert PowerOfTwo(bits - 1) <= x < PowerOfTwo(bits);
    if x >= PowerOfTen(g) {
      DigitsBracket(x, g + 1);
    } else {
      DigitsBracket(x, g);
    }
  }

  lemma LongNumberDigits(x: nat)
    requires 0 < x <= UINT64_MAX && BaseTwoDigits(x) == 64
    ensures Digits(x) == if x < PowerOfTen(19) then 19 else 20
    ensures BaseTenDigits(x) == if x == UINT64_MAX then 20 else 19
    ensures x >= PowerOfTen(18)
  {
    PowersOfTwo();
    PowersOfTen();
    assert PowerOfTwo(63) <= x && PowerOfTwo(63) == 0x8000_0000_0000_0000;
    if x < PowerOfTen(19) {
      DigitsBracket(x, 19);
    } else {
      DigitsBracket(x, 20);
    }
    assert Guess(64) == 19 && TEN_TO_THE[19] == UINT64_MAX;
  }

  /**
   The table gives the number of decimal digits of every number below 10^19, and of no number from there
   on except the very last one.
   */
  lemma DigitsExact(x: nat)
    requires x <= UINT64_MAX
    ensures BaseTenDigits(x) == Digits(x) <==> x < 10000000000000000000 || x == UINT64_MAX
  {
    PowersOfTen();
    if x == 0 {
      assert Guess(0) == 0 && TEN_TO_THE[0] == 1;
    } else if BaseTwoDigits(x) <= 63 {
      ShortNumberDigits(x, BaseTwoDigits(x));
      PowersOfTwo();
      PowerGrows(BaseTwoDigits(x), 63);
      assert PowerOfTwo(63) == 0x8000_0000_0000_0000;
    } else {
      LongNumberDigits(x);
    }
  }

  lemma {:induction false} DigitsBounds(x: nat)
    requires x > 0
    ensures Digits(x) > 0 && PowerOfTen(Digits(x) - 1) <= x < PowerOfTen(Digits(x))
  {
    if x >= 10 {
      DigitsBounds(x / 10);
    } else {
      assert Digits(x / 10) == 0;
      assert PowerOfTen(0) == 1 && PowerOfTen(1) == 10;
    }
  }

  lemma DigitsAtMost19(x: nat)
    requires 0 < x < 10000000000000000000
    ensures 1 <= BaseTenDigits(x) <= 19
    ensures var e := TEN_TO_THE[BaseTenDigits(x) - 1]; 0 < e <= x < 10 * e && e == PowerOfTen(BaseTenDigits(x) - 1)
  {
    DigitsExact(x);
    DigitsBounds(x);
    if Digits(x) > 19 {
      PowersOfTen();
      TenGrows(19, Digits(x) - 1);
    }
    TenIs(Digits(x) - 1);
  }

  lemma {:induction false} TenGrows(m: nat, n: nat)
    requires m <= n
    ensures PowerOfTen(m) <= PowerOfTen(n)
  {
    if m < n {
      TenGrows(m, n - 1);
    }
  }

  lemma ExponentInTable(x: nat)
    requires 0 < x <= UINT64_MAX
    ensures 1 <= BaseTenDigits(x) <= 20 == |TEN_TO_THE| && TEN_TO_THE[BaseTenDigits(x) - 1] > 0
  {
    if x < 10000000000000000000 {
      DigitsAtMost19(x);
    } else {
      assert BaseTwoDigits(x) == 64 by {
        PowersOfTwo();
        if BaseTwoDigits(x) <= 63 {
          PowerGrows(BaseTwoDigits(x), 63);
        }
      }
      LongNumberDigits(x);
      TenIs(18);
      PowersOfTen();
      assert TEN_TO_THE[19] == UINT64_MAX;
    }
  }

  lemma {:induction false} PowerGrows(m: nat, n: nat)
    requires m <= n
    ensures PowerOfTwo(m) <= PowerOfTwo(n)
  {
    if m < n {
      PowerGrows(m, n - 1);
    }
  }

}

/**
 The nearest preferred interval, found by a search that starts from the previous one.
 */
module IntervalBin {
  import opened Reals
  import opened DigitTable
  import opened DecimalDigits

  const BINS: seq<real> :=
    [1.0, 4.0 / 3.0, 5.0 / 3.0, 2.0, 2.5, 3.0, 4.0, 5.0, 20.0 / 3.0, 10.0]

  function Distance(x: real, index: nat): real
    requires index < |BINS|
  {
    Abs(x - BINS[index])
  }

  ghost predicate Nearest(x: real, index: nat)
    requires index < |BINS|
  {
    forall j: nat :: j < |BINS| ==> Distance(x, index) <= Distance(x, j)
  }

  /** Neighbouring bins increase, by no more than half. */
  lemma BinsIncrease(i: nat)
    requires i + 1 < |BINS|
    ensures 0.0 < BINS[i] < BINS[i + 1] <= 1.5 * BINS[i]
  {
  }

  lemma {:induction false} BinsOrdered(i: nat, j: nat)
    requires i < j < |BINS|
    ensures BINS[i] < BINS[j]
  {
    hide BINS;
    BinsIncrease(j - 1);
    if i < j - 1 {
      BinsOrdered(i, j - 1);
    }
  }

  /** A bin that is no worse than its right neighbour is no worse than anything further right. */
  lemma NoBetterRight(x: real, i: nat, j: nat)
    requires i < j < |BINS| && Distance(x, i) <= Distance(x, i + 1)
    ensures Distance(x, i) <= Distance(x, j)
  {
    hide BINS;
    BinsIncrease(i);
    if i + 1 < j {
      BinsOrdered(i + 1, j);
    }
  }

  lemma NoBetterLeft(x: real, i: nat, j: nat)
    requires j < i < |BINS| && Distance(x, i) <= Distance(x, i - 1)
    ensures Distance(x, i) <= Distance(x, j)
  {
    hide BINS;
    BinsIncrease(i - 1);
    if j < i - 1 {
      BinsOrdered(j, i - 1);
    }
  }

  /** A bin that neither neighbour beats is a nearest bin. */
  lemma LocalIsGlobal(x: real, i: nat)
    requires i < |BINS|
    requires i > 0 ==> Distance(x, i) <= Distance(x, i - 1)
    requires i + 1 < |BINS| ==> Distance(x, i) <= Distance(x, i + 1)
    ensures Nearest(x, i)
  {
    hide BINS;
    forall j: nat | j < |BINS| ensures Distance(x, i) <= Distance(x, j) {
      if j > i {
        NoBetterRight(x, i, j);
      } else if j < i {
        NoBetterLeft(x, i, j);
      }
    }
  }

  /** Walks from the previous bin in the one direction in which the distance gets smaller. */
  method SearchBin(x: real, start: nat) returns (index: nat)
    requires start < |BINS|
    ensures index < |BINS| && Nearest(x, index)
  {
    hide BINS;
    index := start;
    var diff := Distance(x, index);
    if index > 0 && Distance(x, index - 1) < diff {
      while index > 0 && Distance(x, index - 1) < diff
        invariant index < |BINS| && diff == Distance(x, index)
        invariant index == start || Distance(x, index) <= Distance(x, index + 1)
        invariant index == start ==> index > 0 && Distance(x, index - 1) < diff
        invariant index <= start
      {
        index := index - 1;
        diff := Distance(x, index);
      }
    } else if index + 1 < |BINS| && Distance(x, index + 1) < diff {
      while index + 1 < |BINS| && Distance(x, index + 1) < diff
        invariant start <= index < |BINS| && diff == Distance(x, index)
        invariant index == start || Distance(x, index) <= Distance(x, index - 1)
        invariant index == start ==> index + 1 < |BINS| && Distance(x, index + 1) < diff
      {
        index := index + 1;
        diff := Distance(x, index);
      }
    }
    LocalIsGlobal(x, index);
  }

  /** Somewhere in the table there is a bin within a fifth of any number from one to ten. */
  lemma {:induction false} SomeBinIsClose(x: real, i: nat) returns (j: nat)
    requires i < |BINS| && BINS[0] <= x <= BINS[i]
    ensures j < |BINS| && Distance(x, j) <= x / 5.0
    decreases i
  {
    if i == 0 {
      j := 0;
    } else if x <= BINS[i - 1] {
      j := SomeBinIsClose(x, i - 1);
    } else {
      BinsIncrease(i - 1);
      j := if x <= 1.25 * BINS[i - 1] then i - 1 else i;
    }
  }

  lemma NearestIsClose(x: real, index: nat)
    requires index < |BINS| && Nearest(x, index) && 1.0 <= x <= 10.0
    ensures Distance(x, index) <= x / 5.0
  {
    var j := SomeBinIsClose(x, 9);
  }

  function Scaled(interval: nat, exponent: nat): real
    requires exponent > 0
  {
    interval as real / exponent as real
  }

  /** A bin at a decimal exponent, rounded down. */
  function BinAt(index: nat, exponent: nat): nat
    requires index < |BINS|
  {
    assert BINS[index] >= 1.0;
    assert BINS[index] * exponent as real >= 0.0;
    (BINS[index] * exponent as real).Floor
  }

  lemma ErrorBound(interval: nat, exponent: nat, index: nat, bin: nat)
    requires 0 < exponent <= interval < 10 * exponent && index < |BINS|
    requires Nearest(Scaled(interval, exponent), index) && bin == BinAt(index, exponent)
    ensures Abs(bin as real - interval as real) < interval as real / 5.0 + 1.0
  {
    hide BINS;
    var x, e, n, b := Scaled(interval, exponent), exponent as real, interval as real, BINS[index];
    ScaleBounds(n, e, x);
    NearestIsClose(x, index);
    assert bin as real <= b * e < bin as real + 1.0;
    ScaleError(n, e, x, b);
  }

  lemma ScaleBounds(n: real, e: real, x: real)
    requires 0.0 < e <= n < 10.0 * e && x == n / e
    ensures x * e == n && 1.0 <= x < 10.0
  {
    assert x * e == n;
    assert x < 1.0 ==> x * e < 1.0 * e;
    assert x >= 10.0 ==> x * e >= 10.0 * e;
  }

  lemma ScaleError(n: real, e: real, x: real, b: real)
    requires e > 0.0 && x * e == n && Abs(x - b) <= x / 5.0
    ensures Abs(b * e - n) <= n / 5.0
  {
    assert b * e - n == (b - x) * e;
    assert (b - x) * e <= (x / 5.0) * e && -((x / 5.0) * e) <= (b - x) * e;
    assert (x / 5.0) * e == n / 5.0;
  }

  /**
   The nearest bin at the interval's decimal exponent, whatever bin the search starts from; below 10^19
   the result is within a fifth of the interval, up to rounding down.
   */
  method NearestIntervalBin(interval: nat, index: nat) returns (bin: nat, index': nat)
    requires interval <= UINT64_MAX && index < |BINS|
    ensures index' < |BINS|
    ensures interval == 0 ==> bin == 0 && index' == index
    ensures interval > 0 ==>
              var d := BaseTenDigits(interval);
              1 <= d <= 20 && TEN_TO_THE[d - 1] > 0
              && Nearest(Scaled(interval, TEN_TO_THE[d - 1]), index')
              && bin == BinAt(index', TEN_TO_THE[d - 1])
    ensures 0 < interval < 10000000000000000000 ==>
              Abs(bin as real - interval as real) < interval as real / 5.0 + 1.0
  {
    hide BINS, TEN_TO_THE, BaseTenDigits, Nearest, Abs, BinAt;
    if interval == 0 {
      return 0, index;
    }
    ExponentInTable(interval);
    var digits := BaseTenDigits(interval);
    var exponent := TEN_TO_THE[digits - 1];
    var x := Scaled(interval, exponent);
    index' := SearchBin(x, index);
    bin := BinAt(index', exponent);
    if interval < 10000000000000000000 {
      DigitsAtMost19(interval);
      ErrorBound(interval, exponent, index', bin);
    }
  }

  const BIN_COUNT: nat := 10

  /**
   `target` is the interval's nearest bin: scaled down by the power of ten that leaves one digit before the
   point, the interval is nearest to bin `index`, and `target` is that bin scaled up again and rounded down.
   */
  ghost predicate IsTarget(interval: nat, target: int, index: nat)
  {
    if interval == 0 then target == 0
    else exists d: nat :: PowerOfTen(d) > 0 && IsScaledBin(interval, PowerOfTen(d), target, index)
  }

  ghost predicate IsScaledBin(interval: nat, ten: nat, target: int, index: nat)
    requires ten > 0
  {
    && index < BIN_COUNT && ten <= interval < 10 * ten
    && Nearest(interval as real / ten as real, index) && target == (BINS[index] * ten as real).Floor
  }

  /** The same for any 63-bit interval, stated without the tables. */
  method TargetInterval(interval: nat, index: nat) returns (target: nat, index': nat)
    requires interval <= 0x7FFF_FFFF_FFFF_FFFF && index < BIN_COUNT
    ensures index' < BIN_COUNT && (interval == 0 ==> target == 0 && index' == index)
    ensures IsTarget(interval, target, index')
    ensures Abs(target as real - interval as real) < interval as real / 5.0 + 1.0
  {
    target, index' := NearestIntervalBin(interval, index);
    if interval > 0 {
      TargetIs(interval, target, index');
    }
  }

  lemma TargetIs(interval: nat, target: nat, index: nat)
    requires 0 < interval <= 0x7FFF_FFFF_FFFF_FFFF && index < BIN_COUNT
    requires var d := BaseTenDigits(interval);
             1 <= d <= 20 && TEN_TO_THE[d - 1] > 0
             && Nearest(Scaled(interval, TEN_TO_THE[d - 1]), index)
             && target == BinAt(index, TEN_TO_THE[d - 1])
    ensures IsTarget(interval, target, index)
  {
    hide BINS, TEN_TO_THE, BaseTenDigits, Nearest, PowerOfTen;
    DigitsAtMost19(interval);
    var d := BaseTenDigits(interval) - 1;
    assert IsScaledBin(interval, PowerOfTen(d), target, index);
  }
}
