/**
 Rates over a sliding window: queues and running sums that are kept up to date mark by mark, and what
 they say about the whole history.
 */
module Window {

  function Sum(q: seq<int>): int
  {
    if q == [] then 0 else q[0] + Sum(q[1..])
  }

  ghost predicate NonNegative(q: seq<int>)
  {
    forall i :: 0 <= i < |q| ==> q[i] >= 0
  }

  lemma {:induction false} SumAppend(q: seq<int>, x: int)
    ensures Sum(q + [x]) == Sum(q) + x
  {
    if q != [] {
      assert (q + [x])[1..] == q[1..] + [x];
      SumAppend(q[1..], x);
    }
  }

  lemma {:induction false} SumIsNonNegative(q: seq<int>)
    requires NonNegative(q)
    ensures Sum(q) >= 0
  {
    if q != [] {
      SumIsNonNegative(q[1..]);
    }
  }

  /** The longest suffix whose sum does not exceed the window. */
  function LongestSuffix(gaps: seq<int>, window: int): (r: seq<int>)
    ensures |r| <= |gaps| && r == gaps[|gaps| - |r|..]
    decreases |gaps|
  {
    if gaps == [] || Sum(gaps) <= window then gaps else LongestSuffix(gaps[1..], window)
  }

  /** It fits the window, and no longer suffix does. */
  lemma {:induction false} LongestSuffixIsLongest(gaps: seq<int>, window: int, k: nat)
    requires window >= 0 && k <= |gaps|
    ensures Sum(LongestSuffix(gaps, window)) <= window
    ensures NonNegative(gaps) && Sum(gaps[k..]) <= window ==> |gaps[k..]| <= |LongestSuffix(gaps, window)|
    decreases |gaps|
  {
    if gaps != [] && Sum(gaps) > window {
      if k == 0 {
        assert gaps[0..] == gaps;
        LongestSuffixIsLongest(gaps[1..], window, 0);
      } else {
        LongestSuffixIsLongest(gaps[1..], window, k - 1);
        assert gaps[1..][k - 1..] == gaps[k..];
      }
    }
  }

  /** Gaps that have left the window never matter again. */
  lemma {:induction false} SuffixIsIncremental(gaps: seq<int>, x: int, window: int)
    requires NonNegative(gaps) && x >= 0
    ensures LongestSuffix(gaps + [x], window) == LongestSuffix(LongestSuffix(gaps, window) + [x], window)
    decreases |gaps|
  {
    if gaps != [] && Sum(gaps) > window {
      SumAppend(gaps, x);
      assert (gaps + [x])[1..] == gaps[1..] + [x];
      SuffixIsIncremental(gaps[1..], x, window);
    }
  }

  // ---------------------------------------------------------------- times

  ghost predicate Sorted(times: seq<int>)
  {
    forall i, j :: 0 <= i < j < |times| ==> times[i] <= times[j]
  }

  function Gaps(times: seq<int>): seq<int>
  {
    if |times| <= 1 then [] else Gaps(times[..|times| - 1]) + [times[|times| - 1] - times[|times| - 2]]
  }

  lemma {:induction false} GapsShape(times: seq<int>)
    ensures |Gaps(times)| == if times == [] then 0 else |times| - 1
    ensures Sorted(times) ==> NonNegative(Gaps(times))
  {
    if |times| > 1 {
      GapsShape(times[..|times| - 1]);
    }
  }

  lemma {:induction false} GapsUnfold(times: seq<int>)
    requires |times| >= 2
    ensures Gaps(times) == Gaps(times[..|times| - 1]) + [times[|times| - 1] - times[|times| - 2]]
  {
  }

  lemma {:induction false} NoGaps(times: seq<int>)
    requires |times| <= 1
    ensures Gaps(times) == []
  {
  }

  lemma {:induction false} GapsStep(times: seq<int>, now: int)
    ensures times == [] ==> Gaps(times + [now]) == Gaps(times)
    ensures times != [] ==> Gaps(times + [now]) == Gaps(times) + [now - times[|times| - 1]]
  {
    hide *;
    if times == [] {
      NoGaps(times);
      NoGaps(times + [now]);
    } else {
      var t := times + [now];
      GapsUnfold(t);
      assert t[..|t| - 1] == times && t[|t| - 1] == now && t[|t| - 2] == times[|times| - 1];
    }
  }

  lemma NonNegativeAppend(q: seq<int>, x: int)
    requires NonNegative(q) && x >= 0
    ensures NonNegative(q + [x])
  {
  }

  lemma SuffixIsNonNegative(gaps: seq<int>, window: int)
    requires NonNegative(gaps)
    ensures NonNegative(LongestSuffix(gaps, window))
  {
  }

  lemma SortedAppend(times: seq<int>, now: int)
    requires Sorted(times) && (times != [] ==> times[|times| - 1] <= now)
    ensures Sorted(times + [now])
  {
  }

  lemma Beginning(window: int)
    ensures LongestSuffix([], window) == [] && Sum([]) == 0 && Gaps([]) == [] && Sorted([]) && NonNegative([])
  {
  }

  lemma {:induction false} GapsTail(times: seq<int>)
    requires |times| >= 2
    ensures Gaps(times) == [times[1] - times[0]] + Gaps(times[1..])
    decreases |times|
  {
    var n := |times| - 1;
    if n == 1 {
      assert times[..1] == [times[0]] && |times[1..]| == 1;
    } else {
      GapsTail(times[..n]);
      assert times[..n][1..] == times[1..][..n - 1];
    }
  }

  /** The gaps from a mark on add up to the time since that mark. */
  lemma {:induction false} GapsTelescope(times: seq<int>)
    requires times != []
    ensures Sum(Gaps(times)) == times[|times| - 1] - times[0]
    decreases |times|
  {
    if |times| > 1 {
      GapsTail(times);
      GapsTelescope(times[1..]);
      assert ([times[1] - times[0]] + Gaps(times[1..]))[1..] == Gaps(times[1..]);
    }
  }

  /** How many of the times are at most `window` before `now`. */
  function CountWithin(times: seq<int>, now: int, window: int): nat
  {
    if times == [] then 0 else (if now - times[0] <= window then 1 else 0) + CountWithin(times[1..], now, window)
  }

  lemma {:induction false} AllWithin(times: seq<int>, now: int, window: int)
    requires forall i :: 0 <= i < |times| ==> now - times[i] <= window
    ensures CountWithin(times, now, window) == |times|
  {
    if times != [] {
      AllWithin(times[1..], now, window);
    }
  }

  /** The queue holds one gap for every earlier mark within the window of the latest. */
  lemma {:induction false} SuffixCountsMarks(times: seq<int>, window: int)
    requires times != [] && Sorted(times) && window >= 0
    ensures |LongestSuffix(Gaps(times), window)| == CountWithin(times[..|times| - 1], times[|times| - 1], window)
    decreases |times|
  {
    var last := |times| - 1;
    var now, earlier := times[last], times[..last];
    GapsShape(times);
    if last > 0 {
      GapsTelescope(times);
      if now - times[0] <= window {
        AllWithin(earlier, now, window);
      } else {
        GapsTail(times);
        assert Gaps(times)[1..] == Gaps(times[1..]);
        SuffixCountsMarks(times[1..], window);
        assert times[1..][..last - 1] == earlier[1..];
      }
    }
  }
}

/**
 The measure itself.
 */
module RateMeasure {
  import opened Window
  import opened IntervalBin

  const INT64_MAX: nat := 0x7FFF_FFFF_FFFF_FFFF

  ghost predicate SuffixOf(s: seq<int>, t: seq<int>)
  {
    |s| <= |t| && s == t[|t| - |s|..]
  }

  /** Positive times that do not decrease, of which `last` is the last, or zero if there are none. */
  ghost predicate Marks(times: seq<int>, last: int)
  {
    Sorted(times) && (forall t :: t in times ==> 0 < t) && last == if times == [] then 0 else times[|times| - 1]
  }

  lemma NoTimes()
    ensures Marks([], 0) && IsGreatest(0, [])
  {
  }

  lemma MarksStep(times: seq<int>, last: int, now: int)
    requires Marks(times, last) && 0 < now && last <= now
    ensures Marks(times + [now], now) && (last != 0 <==> times != [])
    ensures times != [] ==> last == times[|times| - 1]
  {
    assert times != [] ==> times[|times| - 1] in times;
    SortedAppend(times, now);
  }

  /** How far apart two times are. */
  predicate IsDistance(d: int, a: int, b: int)
  {
    d >= 0 && (d == a - b || d == b - a)
  }

  /** The greatest of some jitters, or zero if there are none. */
  ghost predicate IsGreatest(greatest: int, jitters: seq<int>)
  {
    (forall j :: j in jitters ==> j <= greatest) && (greatest in jitters || (greatest == 0 && jitters == []))
  }

  lemma GreatestStep(greatest: int, jitters: seq<int>, j: int)
    requires IsGreatest(greatest, jitters) && j >= 0
    ensures IsGreatest(if j > greatest then j else greatest, jitters + [j])
  {
  }

  function JitterOf(interval: int, target: int): nat
  {
    if interval >= target then interval - target else target - interval
  }

  lemma SuffixAppend(s: seq<int>, t: seq<int>, x: int)
    requires SuffixOf(s, t)
    ensures SuffixOf(s + [x], t + [x])
  {
  }

  lemma SuffixDrop(s: seq<int>, t: seq<int>)
    requires SuffixOf(s, t) && s != []
    ensures SuffixOf(s[1..], t)
  {
  }

  lemma SumStep(q: seq<int>)
    requires q != []
    ensures Sum(q) == q[0] + Sum(q[1..])
  {
  }

  /** A queue that has just grown by one is cut from the front to a given length. */
  method CutFront(queue: seq<int>, acc: int, length: nat, ghost all: seq<int>) returns (q: seq<int>, a: int)
    requires acc == Sum(queue) && length <= |queue| && SuffixOf(queue, all)
    ensures |q| == length && a == Sum(q) && SuffixOf(q, all)
  {
    hide *;
    q, a := queue, acc;
    while |q| > length
      invariant length <= |q| && a == Sum(q) && SuffixOf(q, all)
    {
      SumStep(q);
      SuffixDrop(q, all);
      a := a - q[0];
      q := q[1..];
    }
  }

  /** Drops gaps from the front until the rest fits the window. */
  method CutToWindow(queue: seq<int>, acc: int, window: nat) returns (q: seq<int>, a: int)
    requires acc == Sum(queue) && NonNegative(queue)
    ensures q == LongestSuffix(queue, window) && a == Sum(q) && 0 <= a <= window
  {
    q, a := queue, acc;
    while a > window
      invariant NonNegative(q) && a == Sum(q) && LongestSuffix(q, window) == LongestSuffix(queue, window)
      decreases |q|
    {
      a := a - q[0];
      q := q[1..];
    }
    SumIsNonNegative(q);
  }

  class RateMeasure {
    const sampleWindow: nat
    var targetInterval: int
    var currentTargetIndex: nat
    var intervals: seq<int>
    var jitters: seq<int>
    var sizes: seq<int>
    var ticks: nat
    var lastTime: int
    var intervalAcc: int
    var jitterAcc: int
    var sizeAcc: int
    var avgInterval: int
    var maxJitter: int

    /** Every gap, jitter and size that was ever queued, and the marks since the last reset. */
    ghost var gaps: seq<int>
    ghost var allJitters: seq<int>
    ghost var allSizes: seq<int>
    ghost var times: seq<int>
    /** The jitters since the greatest one was last reset. */
    ghost var recentJitters: seq<int>
    ghost var wasReset: bool

    ghost predicate Queues()
      reads this`gaps, this`intervals, this`intervalAcc, this`jitters, this`jitterAcc, this`allJitters
      reads this`sizes, this`sizeAcc, this`allSizes
    {
      && NonNegative(gaps) && intervals == LongestSuffix(gaps, sampleWindow) && intervalAcc == Sum(intervals)
      && |jitters| == |sizes| == |intervals|
      && jitterAcc == Sum(jitters) && SuffixOf(jitters, allJitters)
      && sizeAcc == Sum(sizes) && SuffixOf(sizes, allSizes)
    }

    ghost predicate Valid()
      reads this
    {
      && Queues() && sampleWindow <= INT64_MAX && currentTargetIndex < BIN_COUNT
      && Marks(times, lastTime) && (!wasReset ==> gaps == Gaps(times)) && IsGreatest(maxJitter, recentJitters)
    }

    constructor (window: nat)
      requires window <= INT64_MAX
      ensures Valid() && sampleWindow == window && times == [] && gaps == [] && !wasReset
    {
      sampleWindow := window;
      targetInterval, currentTargetIndex, ticks, lastTime, avgInterval, maxJitter := 0, 0, 0, 0, 0, 0;
      intervals, jitters, sizes, intervalAcc, jitterAcc, sizeAcc := [], [], [], 0, 0, 0;
      gaps, allJitters, allSizes, times, recentJitters, wasReset := [], [], [], [], [], false;
      new;
      Beginning(window);
      NoTimes();
    }

    /** Queues the gap since the last mark. */
    method AddInterval(interval: nat)
      requires Queues() && sampleWindow <= INT64_MAX && currentTargetIndex < BIN_COUNT
      modifies this`gaps, this`intervals, this`intervalAcc, this`avgInterval, this`targetInterval,
               this`currentTargetIndex
      ensures gaps == old(gaps) + [interval] && NonNegative(gaps) && currentTargetIndex < BIN_COUNT
      ensures intervals == LongestSuffix(gaps, sampleWindow) && intervalAcc == Sum(intervals)
      ensures |intervals| <= |old(intervals)| + 1
      ensures intervals != [] ==>
                && avgInterval == Sum(intervals) / |intervals| >= 0
                && IsTarget(avgInterval, targetInterval, currentTargetIndex)
      ensures intervals == [] ==>
                avgInterval == old(avgInterval) && targetInterval == old(targetInterval)
                && currentTargetIndex == old(currentTargetIndex)
    {
      hide Sum, LongestSuffix, NonNegative, SuffixOf, IsTarget;
      SuffixIsIncremental(gaps, interval, sampleWindow);
      SumAppend(intervals, interval);
      SuffixIsNonNegative(gaps, sampleWindow);
      NonNegativeAppend(intervals, interval);
      NonNegativeAppend(gaps, interval);
      SuffixLength(intervals + [interval], sampleWindow);
      gaps := gaps + [interval];
      intervals, intervalAcc := CutToWindow(intervals + [interval], intervalAcc + interval, sampleWindow);
      if intervals != [] {
        avgInterval := intervalAcc / |intervals|;
        AverageBound(intervalAcc, |intervals|);
        var target, index := TargetInterval(avgInterval, currentTargetIndex);
        targetInterval, currentTargetIndex := target, index;
      }
    }

    method AddJitter(interval: int)
      requires |jitters| + 1 >= |intervals| && jitterAcc == Sum(jitters) && SuffixOf(jitters, allJitters)
      requires IsGreatest(maxJitter, recentJitters)
      modifies this`jitters, this`jitterAcc, this`allJitters, this`maxJitter, this`recentJitters
      ensures |allJitters| == |old(allJitters)| + 1 && allJitters[..|old(allJitters)|] == old(allJitters)
      ensures IsDistance(allJitters[|old(allJitters)|], interval, targetInterval)
      ensures recentJitters == old(recentJitters) + [allJitters[|old(allJitters)|]]
      ensures |jitters| == |intervals| && jitterAcc == Sum(jitters) && SuffixOf(jitters, allJitters)
      ensures IsGreatest(maxJitter, recentJitters)
    {
      hide Sum, SuffixOf, IsGreatest;
      GreatestStep(maxJitter, recentJitters, JitterOf(interval, targetInterval));
      var jitter := JitterOf(interval, targetInterval);
      if jitter > maxJitter {
        maxJitter := jitter;
      }
      SumAppend(jitters, jitter);
      SuffixAppend(jitters, allJitters, jitter);
      allJitters, recentJitters := allJitters + [jitter], recentJitters + [jitter];
      jitters, jitterAcc := CutFront(jitters + [jitter], jitterAcc + jitter, |intervals|, allJitters);
    }

    method AddSize(size: nat)
      requires |sizes| + 1 >= |intervals| && sizeAcc == Sum(sizes) && SuffixOf(sizes, allSizes)
      modifies this`sizes, this`sizeAcc, this`allSizes
      ensures allSizes == old(allSizes) + [size]
      ensures |sizes| == |intervals| && sizeAcc == Sum(sizes) && SuffixOf(sizes, allSizes)
    {
      hide Sum, SuffixOf;
      SumAppend(sizes, size);
      SuffixAppend(sizes, allSizes, size);
      allSizes := allSizes + [size];
      sizes, sizeAcc := CutFront(sizes + [size], sizeAcc + size, |intervals|, allSizes);
    }

    /** Queues the interval, the jitter and the size of a mark. */
    method Measure(size: nat, interval: nat)
      requires Queues() && sampleWindow <= INT64_MAX && currentTargetIndex < BIN_COUNT
      requires IsGreatest(maxJitter, recentJitters)
      modifies this`gaps, this`intervals, this`intervalAcc, this`avgInterval, this`targetInterval,
               this`currentTargetIndex, this`jitters, this`jitterAcc, this`allJitters, this`maxJitter,
               this`recentJitters, this`sizes, this`sizeAcc, this`allSizes
      ensures Queues() && currentTargetIndex < BIN_COUNT && IsGreatest(maxJitter, recentJitters)
      ensures gaps == old(gaps) + [interval] && allSizes == old(allSizes) + [size]
      ensures intervals != [] ==>
                && avgInterval == Sum(intervals) / |intervals| >= 0
                && IsTarget(avgInterval, targetInterval, currentTargetIndex)
      ensures intervals == [] ==>
                avgInterval == old(avgInterval) && targetInterval == old(targetInterval)
                && currentTargetIndex == old(currentTargetIndex)
      ensures |allJitters| == |old(allJitters)| + 1 && allJitters[..|old(allJitters)|] == old(allJitters)
      ensures IsDistance(allJitters[|old(allJitters)|], interval, targetInterval)
      ensures recentJitters == old(recentJitters) + [allJitters[|old(allJitters)|]]
    {
      hide Sum, LongestSuffix, NonNegative, SuffixOf, IsTarget, IsGreatest, IsDistance;
      AddInterval(interval);
      AddJitter(interval);
      AddSize(size);
    }

    /** Records a mark; the first one, and the first after a reset, only sets the time. */
    method MarkSize(size: nat, now: int)
      requires Valid() && 0 < now && lastTime <= now
      modifies this
      ensures Valid() && times == old(times) + [now] && wasReset == old(wasReset) && ticks == old(ticks) + 1
      ensures gaps == old(gaps) + if old(times) == [] then [] else [now - old(lastTime)]
      ensures allSizes == old(allSizes) + if old(times) == [] then [] else [size]
      ensures old(times) == [] ==>
                avgInterval == old(avgInterval) && targetInterval == old(targetInterval)
                && allJitters == old(allJitters) && maxJitter == old(maxJitter)
      ensures old(times) != [] && intervals != [] ==>
                && avgInterval == Sum(intervals) / |intervals| >= 0
                && IsTarget(avgInterval, targetInterval, currentTargetIndex)
      ensures intervals == [] ==> avgInterval == old(avgInterval) && targetInterval == old(targetInterval)
      ensures old(times) != [] ==>
                && |allJitters| == |old(allJitters)| + 1 && allJitters[..|old(allJitters)|] == old(allJitters)
                && IsDistance(allJitters[|old(allJitters)|], now - old(lastTime), targetInterval)
                && recentJitters == old(recentJitters) + [allJitters[|old(allJitters)|]]
    {
      hide Gaps, Marks, Queues, Sum, IsTarget, IsGreatest, IsDistance;
      MarksStep(times, lastTime, now);
      ticks := ticks + 1;
      if lastTime != 0 {
        Measure(size, now - lastTime);
      }
      GapsStep(times, now);
      times := times + [now];
      lastTime := now;
    }

    /** The number of samples: without a reset, the earlier marks within the window of the latest. */
    method SampleCount() returns (n: nat)
      requires Valid()
      ensures n == |intervals|
      ensures !wasReset && times != [] ==> n == CountWithin(times[..|times| - 1], times[|times| - 1], sampleWindow)
    {
      n := |intervals|;
      if times != [] {
        SuffixCountsMarks(times, sampleWindow);
      }
    }

    /** Forgets the last mark and the averages; the queues stay. */
    method Reset()
      requires Valid()
      modifies this
      ensures Valid() && wasReset && times == [] && gaps == old(gaps) && intervals == old(intervals)
      ensures jitters == old(jitters) && sizes == old(sizes) && ticks == old(ticks)
      ensures targetInterval == 0 && avgInterval == 0 && maxJitter == 0 && currentTargetIndex == 0
    {
      hide Gaps, Queues, Marks, IsGreatest;
      NoTimes();
      ForgetAverage();
      ResetMaxJitter();
      lastTime, times, wasReset := 0, [], true;
    }

    method ForgetAverage()
      requires Valid()
      modifies this`currentTargetIndex, this`targetInterval, this`avgInterval
      ensures Valid() && targetInterval == 0 && avgInterval == 0 && currentTargetIndex == 0
    {
      hide Gaps, Marks, Queues, IsGreatest;
      currentTargetIndex, targetInterval, avgInterval := 0, 0, 0;
    }

    method ResetMaxJitter()
      requires Valid()
      modifies this`maxJitter, this`recentJitters
      ensures Valid() && maxJitter == 0 && recentJitters == []
    {
      hide Gaps, Marks, Queues;
      maxJitter, recentJitters := 0, [];
    }
  }

  lemma SuffixLength(q: seq<int>, window: int)
    ensures |LongestSuffix(q, window)| <= |q|
  {
  }

  lemma AverageBound(acc: nat, count: nat)
    requires count > 0
    ensures 0 <= acc / count <= acc
  {
    MulAtLeast(acc / count, count);
  }

  lemma {:induction false} MulAtLeast(q: nat, c: nat)
    requires c > 0
    ensures q <= q * c
  {
    if c > 1 {
      MulAtLeast(q, c - 1);
    }
  }
}
