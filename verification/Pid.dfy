/**
 The PID controller.  PidModel says what each call does to the controller's memory and what holds over every
 run of calls; Pid is the controller itself.  The clock is a parameter of each call, and an elapsed time may
 have either sign.
 */
module PidModel {

  import opened Reals
  import opened Angles
  import Sums

  datatype Kind = Linear | Angular

  datatype Settings = Settings(
    kp: real, ki: real, kd: real, minOutput: real, maxOutput: real, damping: real, limit: real, kind: Kind)

  datatype Memory = Memory(started: bool, integral: real, lastError: real, lastTime: real)

  datatype Controller = Controller(settings: Settings, memory: Memory)

  datatype Call =
    | Compute(reference: real, signal: real, now: real)
    | ComputeP(reference: real, signal: real, now: real)
    | Restart(now: real)
    | SetGains(kp: real, ki: real, kd: real)
    | SetMinOutput(output: real)
    | SetMaxOutput(output: real)
    | SetAntiWindup(damping: real, limit: real)
    | SetType(kind: Kind)

  function Clipped(value: real, limit: real): real
  {
    if value > limit then limit else if value < -limit then -limit else value
  }

  function Error(kind: Kind, reference: real, signal: real): real
  {
    if kind.Angular? then Wrapped(reference - signal) else reference - signal
  }

  /** What the proportional-only path leaves behind: the error as given, not wrapped. */
  function Sampled(m: Memory, reference: real, signal: real, now: real): Memory
  {
    m.(lastError := reference - signal, lastTime := now)
  }

  /** An error held for a time. */
  function Area(error: real, elapsed: real): real
  {
    error * elapsed
  }

  function Damped(damping: real, integral: real, added: real): real
  {
    damping * integral + added
  }

  /** The integral before clipping: the damped one, and the error held for the time elapsed. */
  function Accumulated(damping: real, integral: real, error: real, elapsed: real): real
  {
    Damped(damping, integral, Area(error, elapsed))
  }

  function Computed(c: Controller, reference: real, signal: real, now: real): Memory
  {
    var s, m := c.settings, c.memory;
    if !m.started then Sampled(m, reference, signal, now).(started := true) else
      var error := Error(s.kind, reference, signal);
      Memory(true, Clipped(Accumulated(s.damping, m.integral, error, now - m.lastTime), s.limit), error, now)
  }

  function Derivative(lastError: real, error: real, elapsed: real): real
  {
    if elapsed > 0.0 then (error - lastError) / elapsed else 0.0
  }

  function Weighted(s: Settings, error: real, integral: real, derivative: real): real
  {
    s.kp * error + s.ki * integral + s.kd * derivative
  }

  function InRange(output: real, low: real, high: real): real
  {
    var capped := if high < output then high else output;
    if capped < low then low else capped
  }

  /** What Compute returns: the gains applied to the error, its integral and its slope. */
  function Output(c: Controller, reference: real, signal: real, now: real): real
  {
    var s, m := c.settings, c.memory;
    var error := Error(s.kind, reference, signal);
    if !m.started then s.kp * error else
      InRange(Weighted(s, error, Computed(c, reference, signal, now).integral,
                       Derivative(m.lastError, error, now - m.lastTime)), s.minOutput, s.maxOutput)
  }

  function Apply(c: Controller, call: Call): Controller
  {
    match call
    case Compute(reference, signal, now) => c.(memory := Computed(c, reference, signal, now))
    case ComputeP(reference, signal, now) => c.(memory := Sampled(c.memory, reference, signal, now))
    case Restart(now) => c.(memory := Memory(false, 0.0, 0.0, now))
    case SetGains(kp, ki, kd) => c.(settings := c.settings.(kp := kp, ki := ki, kd := kd))
    case SetMinOutput(output) => c.(settings := c.settings.(minOutput := output))
    case SetMaxOutput(output) => c.(settings := c.settings.(maxOutput := output))
    case SetAntiWindup(damping, limit) => c.(settings := c.settings.(damping := damping, limit := Abs(limit)))
    case SetType(kind) => c.(settings := c.settings.(kind := kind))
  }

  function Run(c: Controller, calls: seq<Call>): Controller
  {
    if calls == [] then c else Apply(Run(c, calls[..|calls| - 1]), calls[|calls| - 1])
  }

  /** What every call keeps: a limit clip accepts, a damping in [0, 1], and no integral before the first sample. */
  predicate Valid(c: Controller)
  {
    c.settings.limit >= 0.0 && 0.0 <= c.settings.damping <= 1.0 && (!c.memory.started ==> c.memory.integral == 0.0)
  }

  /** What the controller asserts of a call's arguments. */
  predicate Accepted(call: Call)
  {
    call.SetAntiWindup? ==> 0.0 <= call.damping <= 1.0
  }

  lemma ValidStep(c: Controller, call: Call)
    requires Valid(c) && Accepted(call)
    ensures Valid(Apply(c, call))
  {
    hide Wrapped;
  }

  /** After a Compute the integral is within the limit, and from the second on so is the output in its range. */
  lemma ComputeStaysInRange(c: Controller, reference: real, signal: real, now: real)
    requires Valid(c)
    ensures Abs(Computed(c, reference, signal, now).integral) <= c.settings.limit
    ensures c.memory.started && c.settings.minOutput <= c.settings.maxOutput ==>
              c.settings.minOutput <= Output(c, reference, signal, now) <= c.settings.maxOutput
  {
    hide Wrapped, Derivative, Weighted, Accumulated, Error;
  }

  // ---------------------------------------------------------------- the law of one Compute

  /** `output` is the end of the range nearest to `raw`, or `raw` itself; when the ends cross, the lower one counts. */
  predicate Limited(raw: real, low: real, high: real, output: real)
  {
    && (low <= raw <= high ==> output == raw)
    && (raw < low || high < low ==> output == low)
    && (low <= high < raw ==> output == high)
  }

  /** The slope of the error since the last sample, which is taken to be zero when no time has passed. */
  predicate IsSlope(slope: real, lastError: real, error: real, elapsed: real)
  {
    if elapsed > 0.0 then slope * elapsed == error - lastError else slope == 0.0
  }

  lemma DerivativeIsSlope(lastError: real, error: real, elapsed: real)
    ensures IsSlope(Derivative(lastError, error, elapsed), lastError, error, elapsed)
  {
    if elapsed > 0.0 {
      QuotientTimes(error - lastError, elapsed);
    }
  }

  lemma QuotientTimes(p: real, q: real)
    requires q != 0.0
    ensures (p / q) * q == p
  {
  }

  /** The damped integral plus the error times the time it was held, limited on both sides. */
  predicate IsIntegral(damping: real, before: real, error: real, elapsed: real, limit: real, after: real)
  {
    Limited(damping * before + error * elapsed, -limit, limit, after)
  }

  /** Each gain times its own term, in the range of the output. */
  predicate IsOutput(s: Settings, error: real, integral: real, slope: real, output: real)
  {
    Limited(s.kp * error + s.ki * integral + s.kd * slope, s.minOutput, s.maxOutput, output)
  }

  lemma IntegralIs(damping: real, before: real, error: real, elapsed: real, limit: real)
    requires limit >= 0.0
    ensures IsIntegral(damping, before, error, elapsed, limit,
                       Clipped(Accumulated(damping, before, error, elapsed), limit))
  {
    var x, y := damping * before, error * elapsed;
    assert Accumulated(damping, before, error, elapsed) == x + y;
  }

  lemma OutputIs(s: Settings, error: real, integral: real, slope: real)
    ensures IsOutput(s, error, integral, slope,
                     InRange(Weighted(s, error, integral, slope), s.minOutput, s.maxOutput))
  {
    var x, y, z := s.kp * error, s.ki * integral, s.kd * slope;
    assert Weighted(s, error, integral, slope) == x + y + z;
  }

  /**
   From the second sample on: the error is the difference, wrapped for an angular controller; the integral is the
   damped one plus the error times the time, limited; and the output is each gain times its own term, limited.
   */
  lemma ComputeLaw(c: Controller, reference: real, signal: real, now: real) returns (slope: real)
    requires Valid(c) && c.memory.started
    ensures var s, m, r := c.settings, c.memory, Computed(c, reference, signal, now);
            && r.started && r.lastTime == now
            && r.lastError == (if s.kind.Angular? then Wrapped(reference - signal) else reference - signal)
            && IsSlope(slope, m.lastError, r.lastError, now - m.lastTime)
            && IsIntegral(s.damping, m.integral, r.lastError, now - m.lastTime, s.limit, r.integral)
            && IsOutput(s, r.lastError, r.integral, slope, Output(c, reference, signal, now))
  {
    hide Wrapped, Derivative, Clipped, InRange, Accumulated, Weighted, IsSlope, IsIntegral, IsOutput;
    var s, m, r := c.settings, c.memory, Computed(c, reference, signal, now);
    slope := Derivative(m.lastError, r.lastError, now - m.lastTime);
    DerivativeIsSlope(m.lastError, r.lastError, now - m.lastTime);
    IntegralIs(s.damping, m.integral, r.lastError, now - m.lastTime, s.limit);
    OutputIs(s, r.lastError, r.integral, slope);
  }

  /** The first sample is proportional only, not limited, and leaves the difference as it is. */
  lemma FirstSampleLaw(c: Controller, reference: real, signal: real, now: real)
    requires !c.memory.started
    ensures Computed(c, reference, signal, now) == Memory(true, c.memory.integral, reference - signal, now)
    ensures Output(c, reference, signal, now) == c.settings.kp * Error(c.settings.kind, reference, signal)
  {
    hide Wrapped;
  }

  // ---------------------------------------------------------------- bounds over whole runs

  /**
   The conditions a bounded run is subject to: damping never above d, and every sample after the first at
   most `time` after the one before, with an error of at most `error`.
   */
  ghost predicate Bounded(c: Controller, call: Call, d: real, error: real, time: real)
  {
    && Accepted(call)
    && (call.SetAntiWindup? ==> call.damping <= d)
    && (call.Compute? && c.memory.started ==>
          && Abs(Error(c.settings.kind, call.reference, call.signal)) <= error
          && Abs(call.now - c.memory.lastTime) <= time)
  }

  ghost predicate BoundedRun(c: Controller, calls: seq<Call>, d: real, error: real, time: real)
  {
    forall n :: 0 <= n < |calls| ==> Bounded(Run(c, calls[..n]), calls[n], d, error, time)
  }

  lemma ProductBound(x: real, y: real, a: real, b: real)
    requires Abs(x) <= a && Abs(y) <= b
    ensures Abs(x * y) <= a * b
  {
    assert Abs(x * y) == Abs(x) * Abs(y);
    assert Abs(x) * Abs(y) <= a * Abs(y);
    assert a * Abs(y) <= a * b;
  }

  /** Damped accumulation never leaves the fixed point of the bound. */
  lemma AccumulationBound(k: real, i: real, e: real, t: real, d: real, error: real, time: real, bound: real)
    requires 0.0 <= k <= d < 1.0 && Abs(e) <= error && Abs(t) <= time
    requires bound * (1.0 - d) == error * time && Abs(i) <= bound
    ensures Abs(Accumulated(k, i, e, t)) <= bound
  {
    ProductBound(k, i, d, bound);
    ProductBound(e, t, error, time);
    var x, y := k * i, e * t;
    assert Accumulated(k, i, e, t) == x + y;
    assert Abs(x) <= d * bound && Abs(y) <= error * time;
    assert bound == d * bound + error * time;
  }

  lemma ClipShrinks(value: real, limit: real)
    requires limit >= 0.0
    ensures Abs(Clipped(value, limit)) <= Abs(value)
  {
  }

  lemma IntegralStep(c: Controller, call: Call, d: real, error: real, time: real, bound: real)
    requires Valid(c) && c.settings.damping <= d < 1.0 && Bounded(c, call, d, error, time)
    requires bound * (1.0 - d) == error * time && Abs(c.memory.integral) <= bound
    ensures Abs(Apply(c, call).memory.integral) <= bound && Apply(c, call).settings.damping <= d
  {
    hide Wrapped, Error, Clipped, Accumulated;
    if call.Compute? && c.memory.started {
      var e := Error(c.settings.kind, call.reference, call.signal);
      var t := call.now - c.memory.lastTime;
      AccumulationBound(c.settings.damping, c.memory.integral, e, t, d, error, time, bound);
      ClipShrinks(Accumulated(c.settings.damping, c.memory.integral, e, t), c.settings.limit);
    }
  }

  /**
   Over every run from a controller that has accumulated nothing, whatever calls it mixes, the integral stays
   within error * time / (1 - d), and within the limit in force as well when the last call was a Compute.
   */
  lemma {:induction false} IntegralStaysBounded(
    c: Controller, calls: seq<Call>, d: real, error: real, time: real)
    requires Valid(c) && c.memory.integral == 0.0 && c.settings.damping <= d < 1.0 && error >= 0.0 && time >= 0.0
    requires BoundedRun(c, calls, d, error, time)
    ensures Valid(Run(c, calls)) && Run(c, calls).settings.damping <= d
    ensures Abs(Run(c, calls).memory.integral) <= error * time / (1.0 - d)
    ensures calls != [] && calls[|calls| - 1].Compute? ==>
              Abs(Run(c, calls).memory.integral) <= Run(c, calls).settings.limit
    decreases |calls|
  {
    hide Valid, Bounded, Computed, Sampled;
    var bound := error * time / (1.0 - d);
    BoundIsNatural(d, error, time);
    if calls != [] {
      var n := |calls| - 1;
      PrefixBounded(c, calls, d, error, time);
      IntegralStaysBounded(c, calls[..n], d, error, time);
      var before := Run(c, calls[..n]);
      assert Bounded(before, calls[n], d, error, time);
      AcceptedWhenBounded(before, calls[n], d, error, time);
      ValidStep(before, calls[n]);
      IntegralStep(before, calls[n], d, error, time, bound);
      if calls[n].Compute? {
        ComputeStaysInRange(before, calls[n].reference, calls[n].signal, calls[n].now);
      }
    }
  }

  lemma QuotientSign(p: real, q: real)
    requires p >= 0.0 && q > 0.0
    ensures p / q >= 0.0 && (p / q) * q == p
  {
    var r := p / q;
    assert r < 0.0 ==> r * q < 0.0;
  }

  lemma BoundIsNatural(d: real, error: real, time: real)
    requires d < 1.0 && error >= 0.0 && time >= 0.0
    ensures error * time / (1.0 - d) >= 0.0
    ensures (error * time / (1.0 - d)) * (1.0 - d) == error * time
  {
    var p := error * time;
    assert p >= 0.0;
    QuotientSign(p, 1.0 - d);
  }

  lemma AcceptedWhenBounded(c: Controller, call: Call, d: real, error: real, time: real)
    requires Bounded(c, call, d, error, time)
    ensures Accepted(call)
  {
  }

  lemma PrefixBounded(c: Controller, calls: seq<Call>, d: real, error: real, time: real)
    requires calls != [] && BoundedRun(c, calls, d, error, time)
    ensures BoundedRun(c, calls[..|calls| - 1], d, error, time)
  {
    hide Bounded, Run;
    var prefix := calls[..|calls| - 1];
    forall n | 0 <= n < |prefix|
      ensures Bounded(Run(c, prefix[..n]), prefix[n], d, error, time)
    {
      assert prefix[..n] == calls[..n];
    }
  }

  // ---------------------------------------------------------------- angular controllers

  ghost predicate Timely(c: Controller, call: Call, d: real, time: real)
  {
    && Accepted(call)
    && (call.SetAntiWindup? ==> call.damping <= d)
    && (call.SetType? ==> call.kind.Angular?)
    && (call.Compute? && c.memory.started ==> Abs(call.now - c.memory.lastTime) <= time)
  }

  lemma {:induction false} StaysAngular(c: Controller, calls: seq<Call>)
    requires c.settings.kind.Angular? && forall n :: 0 <= n < |calls| && calls[n].SetType? ==> calls[n].kind.Angular?
    ensures Run(c, calls).settings.kind.Angular?
    decreases |calls|
  {
    hide Computed, Sampled;
    if calls != [] {
      StaysAngular(c, calls[..|calls| - 1]);
    }
  }

  /** An angular controller needs no bound on its inputs: its errors are at most half a turn. */
  lemma AngularIntegralStaysBounded(c: Controller, calls: seq<Call>, d: real, time: real)
    requires Valid(c) && c.memory.integral == 0.0 && c.settings.damping <= d < 1.0 && time >= 0.0
    requires c.settings.kind.Angular?
    requires forall n :: 0 <= n < |calls| ==> Timely(Run(c, calls[..n]), calls[n], d, time)
    ensures Abs(Run(c, calls).memory.integral) <= PI * time / (1.0 - d)
  {
    hide Valid, Run, Wrapped;
    forall n | 0 <= n < |calls|
      ensures Bounded(Run(c, calls[..n]), calls[n], d, PI, time)
    {
      assert Timely(Run(c, calls[..n]), calls[n], d, time);
      forall i | 0 <= i < n && calls[..n][i].SetType?
        ensures calls[..n][i].kind.Angular?
      {
        assert Timely(Run(c, calls[..i]), calls[i], d, time);
      }
      StaysAngular(c, calls[..n]);
      if calls[n].Compute? {
        WrappedSpec(calls[n].reference - calls[n].signal);
      }
    }
    IntegralStaysBounded(c, calls, d, PI, time);
  }

  // ---------------------------------------------------------------- what the integral means

  /** A run of samples alone, on a controller that has had its first. */
  ghost predicate Sampling(c: Controller, calls: seq<Call>)
  {
    c.memory.started && forall k :: 0 <= k < |calls| ==> calls[k].Compute?
  }

  function TimeBefore(c: Controller, calls: seq<Call>, k: nat): real
    requires k <= |calls| && (k > 0 ==> calls[k - 1].Compute?)
  {
    if k == 0 then c.memory.lastTime else calls[k - 1].now
  }

  /** The error of sample k, held since the sample before. */
  function Contribution(c: Controller, calls: seq<Call>, k: nat): real
    requires k < |calls| && calls[k].Compute? && (k > 0 ==> calls[k - 1].Compute?)
  {
    Area(Error(c.settings.kind, calls[k].reference, calls[k].signal), calls[k].now - TimeBefore(c, calls, k))
  }

  /** The contributions to the integral after n samples, each damped once for every sample since. */
  ghost function Faded(c: Controller, calls: seq<Call>, n: nat): nat -> real
    requires Sampling(c, calls) && n <= |calls|
  {
    (k: nat) => if k < n then Sums.Pow(c.settings.damping, n - 1 - k) * Contribution(c, calls, k) else 0.0
  }

  ghost function History(c: Controller, calls: seq<Call>, n: nat): real
    requires Sampling(c, calls) && n <= |calls|
  {
    Sums.Sum(Faded(c, calls, n), n)
  }

  lemma FadedStep(c: Controller, calls: seq<Call>, n: nat, k: nat)
    requires Sampling(c, calls) && n < |calls| && k < n
    ensures Faded(c, calls, n + 1)(k) == c.settings.damping * Faded(c, calls, n)(k)
  {
    hide Contribution;
    var d, p, x := c.settings.damping, Sums.Pow(c.settings.damping, n - 1 - k), Contribution(c, calls, k);
    assert Sums.Pow(d, n - k) == d * p;
    assert (d * p) * x == d * (p * x);
  }

  lemma NoHistory(c: Controller, calls: seq<Call>)
    requires Sampling(c, calls)
    ensures History(c, calls, 0) == 0.0
  {
  }

  lemma HistoryStep(c: Controller, calls: seq<Call>, n: nat)
    requires Sampling(c, calls) && n < |calls|
    ensures History(c, calls, n + 1) == Damped(c.settings.damping, History(c, calls, n), Contribution(c, calls, n))
  {
    hide Contribution;
    var before, after := Faded(c, calls, n), Faded(c, calls, n + 1);
    forall k: nat | k < n
      ensures after(k) == c.settings.damping * before(k)
    {
      FadedStep(c, calls, n, k);
    }
    Sums.SumScale(before, after, c.settings.damping, n);
    assert after(n) == Contribution(c, calls, n);
  }

  lemma {:induction false} RunStep(c: Controller, calls: seq<Call>, n: nat)
    requires n < |calls|
    ensures Run(c, calls[..n + 1]) == Apply(Run(c, calls[..n]), calls[n])
  {
    hide Apply;
    assert calls[..n + 1][..n] == calls[..n];
  }

  /** A run of samples leaves the settings alone and remembers the time of the last one. */
  lemma {:induction false} SamplingKeeps(c: Controller, calls: seq<Call>, n: nat)
    requires Sampling(c, calls) && n <= |calls|
    ensures Run(c, calls[..n]).settings == c.settings && Run(c, calls[..n]).memory.started
    ensures Run(c, calls[..n]).memory.lastTime == TimeBefore(c, calls, n)
  {
    hide Error, Accumulated, Clipped;
    if n > 0 {
      SamplingKeeps(c, calls, n - 1);
      RunStep(c, calls, n - 1);
    }
  }

  /**
   The integral is the history of errors, each weighted by the time it was held and damped once for every
   sample since, for as long as that history stays within the limit.
   */
  lemma {:induction false} IntegralIsHistory(c: Controller, calls: seq<Call>, n: nat)
    requires Sampling(c, calls) && n <= |calls| && c.memory.integral == 0.0
    requires forall m: nat :: m <= n ==> Abs(History(c, calls, m)) <= c.settings.limit
    ensures Run(c, calls[..n]).memory.integral == History(c, calls, n)
  {
    hide Error, Accumulated, History, Contribution, Apply, Computed, Damped, Run, Clipped;
    if n == 0 {
      AtStart(c, calls);
      NoHistory(c, calls);
    } else {
      var before := Run(c, calls[..n - 1]);
      IntegralIsHistory(c, calls, n - 1);
      SamplingKeeps(c, calls, n - 1);
      RunStep(c, calls, n - 1);
      HistoryStep(c, calls, n - 1);
      AccumulatedIs(c, calls, n - 1, before);
      NotClipped(History(c, calls, n), c.settings.limit);
    }
  }

  lemma WithinLimit(c: Controller, calls: seq<Call>, n: nat)
    requires Sampling(c, calls) && n <= |calls| && Abs(c.memory.integral) <= c.settings.limit
    ensures Abs(Run(c, calls[..n]).memory.integral) <= c.settings.limit
  {
    hide Error, Accumulated, Contribution, Apply, Computed, Damped, Run;
    if n == 0 {
      AtStart(c, calls);
    } else {
      SamplingKeeps(c, calls, n - 1);
      RunStep(c, calls, n - 1);
      AccumulatedIs(c, calls, n - 1, Run(c, calls[..n - 1]));
    }
  }

  /** Leaving the limit is the only way in which the integral loses its history. */
  lemma HistoryUntilClipped(c: Controller, calls: seq<Call>, n: nat)
    requires Sampling(c, calls) && n <= |calls| && c.memory.integral == 0.0 && c.settings.limit >= 0.0
    ensures (forall m: nat :: m <= n ==> Run(c, calls[..m]).memory.integral == History(c, calls, m))
       <==> (forall m: nat :: m <= n ==> Abs(History(c, calls, m)) <= c.settings.limit)
  {
    hide Run, History;
    forall m: nat | m <= n
      ensures Abs(Run(c, calls[..m]).memory.integral) <= c.settings.limit
    {
      WithinLimit(c, calls, m);
    }
    if forall m: nat :: m <= n ==> Abs(History(c, calls, m)) <= c.settings.limit {
      forall m: nat | m <= n
        ensures Run(c, calls[..m]).memory.integral == History(c, calls, m)
      {
        IntegralIsHistory(c, calls, m);
      }
    }
  }

  lemma AccumulatedIs(c: Controller, calls: seq<Call>, n: nat, before: Controller)
    requires Sampling(c, calls) && n < |calls|
    requires before.settings == c.settings && before.memory.started && before.memory.lastTime == TimeBefore(c, calls, n)
    ensures Apply(before, calls[n]).memory.integral
         == Clipped(Damped(c.settings.damping, before.memory.integral, Contribution(c, calls, n)), c.settings.limit)
  {
    hide Error, Clipped, Area, Damped;
  }

  lemma NotClipped(value: real, limit: real)
    requires Abs(value) <= limit
    ensures Clipped(value, limit) == value
  {
  }

  lemma ClipContracts(x: real, y: real, limit: real)
    requires limit >= 0.0
    ensures Abs(Clipped(x, limit) - Clipped(y, limit)) <= Abs(x - y)
  {
  }

  /** What two controllers with the same settings have accumulated is forgotten at the rate of the damping. */
  lemma {:induction false} TheStartIsForgotten(a: Controller, b: Controller, calls: seq<Call>, n: nat)
    requires Sampling(a, calls) && Sampling(b, calls) && n <= |calls| && Valid(a)
    requires a.settings == b.settings && a.memory.lastTime == b.memory.lastTime
    ensures Abs(Run(a, calls[..n]).memory.integral - Run(b, calls[..n]).memory.integral)
         <= Sums.Pow(a.settings.damping, n) * Abs(a.memory.integral - b.memory.integral)
  {
    hide Error, Accumulated, Clipped, Contribution, Apply, Valid, Computed, Damped, Run;
    assert a.settings.damping >= 0.0 && a.settings.limit >= 0.0 by { DampingAndLimit(a); }
    var start := Abs(a.memory.integral - b.memory.integral);
    if n == 0 {
      AtStart(a, calls);
      AtStart(b, calls);
      assert Sums.Pow(a.settings.damping, 0) == 1.0;
    } else {
      var a', b' := Run(a, calls[..n - 1]), Run(b, calls[..n - 1]);
      TheStartIsForgotten(a, b, calls, n - 1);
      SamplingKeeps(a, calls, n - 1);
      SamplingKeeps(b, calls, n - 1);
      RunStep(a, calls, n - 1);
      RunStep(b, calls, n - 1);
      AccumulatedIs(a, calls, n - 1, a');
      AccumulatedIs(b, calls, n - 1, b');
      SameContribution(a, b, calls, n - 1);
      ForgetStep(a.settings, a'.memory.integral, b'.memory.integral, Contribution(a, calls, n - 1),
                 Sums.Pow(a.settings.damping, n - 1), start);
      assert Sums.Pow(a.settings.damping, n) == a.settings.damping * Sums.Pow(a.settings.damping, n - 1);
    }
  }

  lemma AtStart(c: Controller, calls: seq<Call>)
    ensures Run(c, calls[..0]) == c
  {
  }

  lemma DampingAndLimit(c: Controller)
    requires Valid(c)
    ensures c.settings.damping >= 0.0 && c.settings.limit >= 0.0
  {
  }

  lemma SameContribution(a: Controller, b: Controller, calls: seq<Call>, n: nat)
    requires Sampling(a, calls) && Sampling(b, calls) && n < |calls|
    requires a.settings == b.settings && a.memory.lastTime == b.memory.lastTime
    ensures Contribution(a, calls, n) == Contribution(b, calls, n)
  {
    hide Error;
  }

  lemma Difference(d: real, x: real, y: real, added: real)
    ensures Damped(d, x, added) - Damped(d, y, added) == d * (x - y)
  {
  }

  lemma Regroup(a: real, b: real, c: real)
    ensures a * (b * c) == (a * b) * c
  {
  }

  lemma ForgetStep(s: Settings, x: real, y: real, added: real, power: real, start: real)
    requires 0.0 <= s.damping && s.limit >= 0.0 && Abs(x - y) <= power * start
    ensures Abs(Clipped(Damped(s.damping, x, added), s.limit) - Clipped(Damped(s.damping, y, added), s.limit))
         <= (s.damping * power) * start
  {
    hide Clipped, Damped;
    var d := s.damping;
    ClipContracts(Damped(d, x, added), Damped(d, y, added), s.limit);
    Difference(d, x, y, added);
    ProductBound(d, x - y, d, power * start);
    Regroup(d, power, start);
  }
}

module Pid {

  import opened Reals
  import opened Angles
  import Sums
  import opened PidModel

  /** The largest double, which stands for "no limit": 53 one bits, the highest worth 2^1023. */
  const UNLIMITED: real := 9007199254740991.0 * Sums.Pow(2.0, 971)

  lemma {:induction false} PowerIsPositive(n: nat)
    ensures Sums.Pow(2.0, n) > 0.0
  {
    if n > 0 {
      PowerIsPositive(n - 1);
    }
  }

  /** The reduction of an angular error by turns to [-2 pi, 2 pi] and then across the discontinuity. */
  method HandleAngularDiscontinuity(error: real) returns (r: real)
    ensures r == Wrapped(error)
  {
    r := error;
    while r > 2.0 * PI
      invariant Wrapped(r) == Wrapped(error)
      decreases r
    {
      WrapStep(r);
      r := r - 2.0 * PI;
    }
    while r < -2.0 * PI
      invariant Wrapped(r) == Wrapped(error) && r <= 2.0 * PI
      decreases -r
    {
      WrapStep(r);
      r := r + 2.0 * PI;
    }
    WrapStep(r);
    if r > PI {
      r := r - 2.0 * PI;
    } else if r < -PI {
      r := r + 2.0 * PI;
    }
  }

  method Clip(value: real, limit: real) returns (r: real)
    requires limit >= 0.0
    ensures r == Clipped(value, limit)
    ensures -limit <= r <= limit && (-limit <= value <= limit ==> r == value)
  {
    r := if value < -limit then -limit else value;
    r := if limit < r then limit else r;
  }

  method Accumulate(damping: real, integral: real, error: real, elapsed: real) returns (r: real)
    ensures r == Accumulated(damping, integral, error, elapsed)
  {
    r := integral;
    r := r * damping;
    r := r + error * elapsed;
  }

  method Slope(lastError: real, error: real, elapsed: real) returns (r: real)
    ensures r == Derivative(lastError, error, elapsed)
  {
    r := 0.0;
    if elapsed > 0.0 {
      r := (error - lastError) / elapsed;
    }
  }

  method KeepInRange(output: real, low: real, high: real) returns (r: real)
    ensures r == InRange(output, low, high)
  {
    r := if high < output then high else output;
    r := if r < low then low else r;
  }

  class Pid {
    var kp: real
    var ki: real
    var kd: real
    var minOutput: real
    var maxOutput: real
    var antiwindupDamping: real
    var integralErrorLimit: real
    var kind: Kind
    var firstSampleComputed: bool
    var integralError: real
    var lastError: real
    var lastTimepoint: real

    function SettingsNow(): Settings
      reads this
    {
      Settings(kp, ki, kd, minOutput, maxOutput, antiwindupDamping, integralErrorLimit, kind)
    }

    ghost function State(): Controller
      reads this
    {
      Controller(SettingsNow(),
                 Memory(firstSampleComputed, integralError, lastError, lastTimepoint))
    }

    constructor (kp: real, ki: real, kd: real, now: real)
      ensures Valid(State())
      ensures State().settings == Settings(kp, ki, kd, -UNLIMITED, UNLIMITED, 1.0, UNLIMITED, Linear)
      ensures State().memory == Memory(false, 0.0, 0.0, now)
    {
      this.kp, this.ki, this.kd := kp, ki, kd;
      minOutput, maxOutput := -UNLIMITED, UNLIMITED;
      antiwindupDamping, integralErrorLimit, kind := 1.0, UNLIMITED, Linear;
      firstSampleComputed, integralError, lastError, lastTimepoint := false, 0.0, 0.0, now;
      new;
      PowerIsPositive(971);
    }

    method Compute(reference: real, signal: real, now: real) returns (output: real, ghost slope: real)
      requires Valid(State())
      modifies this
      ensures State() == Apply(old(State()), Call.Compute(reference, signal, now)) && Valid(State())
      ensures output == Output(old(State()), reference, signal, now)
      ensures Abs(integralError) <= integralErrorLimit
      ensures old(firstSampleComputed) && minOutput <= maxOutput ==> minOutput <= output <= maxOutput
      ensures firstSampleComputed && lastTimepoint == now
      ensures old(firstSampleComputed) ==>
                && lastError == (if kind.Angular? then Wrapped(reference - signal) else reference - signal)
                && IsIntegral(antiwindupDamping, old(integralError), lastError, now - old(lastTimepoint),
                              integralErrorLimit, integralError)
                && IsSlope(slope, old(lastError), lastError, now - old(lastTimepoint))
                && IsOutput(SettingsNow(), lastError, integralError, slope, output)
      ensures !old(firstSampleComputed) ==>
                && lastError == reference - signal && integralError == old(integralError)
                && output == kp * (if kind.Angular? then Wrapped(reference - signal) else reference - signal)
    {
      hide Wrapped, Accumulated, Weighted, Derivative, Clipped, InRange, IsSlope, IsIntegral, IsOutput;
      slope := 0.0;
      if firstSampleComputed {
        slope := ComputeLaw(State(), reference, signal, now);
      } else {
        FirstSampleLaw(State(), reference, signal, now);
      }
      ValidStep(State(), Call.Compute(reference, signal, now));
      ComputeStaysInRange(State(), reference, signal, now);
      if !firstSampleComputed {
        firstSampleComputed := true;
        output := ComputeP(reference, signal, now);
        return;
      }
      var elapsed := now - lastTimepoint;
      var error := reference - signal;
      if kind == Angular {
        error := HandleAngularDiscontinuity(error);
      }
      integralError := Accumulate(antiwindupDamping, integralError, error, elapsed);
      integralError := Clip(integralError, integralErrorLimit);
      var derivative := Slope(lastError, error, elapsed);
      lastError := error;
      lastTimepoint := now;
      output := Weighted(SettingsNow(), error, integralError, derivative);
      output := KeepInRange(output, minOutput, maxOutput);
    }

    method ComputeP(reference: real, signal: real, now: real) returns (output: real)
      modifies this
      ensures State() == Apply(old(State()), Call.ComputeP(reference, signal, now))
      ensures output == kp * Error(kind, reference, signal)
      ensures lastError == reference - signal && lastTimepoint == now
      ensures integralError == old(integralError) && firstSampleComputed == old(firstSampleComputed)
      ensures kp == old(kp) && kind == old(kind)
    {
      hide Wrapped;
      var error := reference - signal;
      lastError := error;
      lastTimepoint := now;
      if kind == Angular {
        error := HandleAngularDiscontinuity(error);
      }
      output := kp * error;
    }

    method RestartController(now: real)
      requires Valid(State())
      modifies this
      ensures State() == Apply(old(State()), Restart(now)) && Valid(State())
      ensures SettingsNow() == old(SettingsNow())
      ensures !firstSampleComputed && integralError == lastError == 0.0 && lastTimepoint == now
    {
      firstSampleComputed, integralError, lastError, lastTimepoint := false, 0.0, 0.0, now;
    }

    method SetGains(kp: real, ki: real, kd: real)
      requires Valid(State())
      modifies this`kp, this`ki, this`kd
      ensures State() == Apply(old(State()), Call.SetGains(kp, ki, kd)) && Valid(State())
      ensures this.kp == kp && this.ki == ki && this.kd == kd
    {
      this.kp, this.ki, this.kd := kp, ki, kd;
    }

    method SetRange(min: real, max: real)
      requires Valid(State())
      modifies this`minOutput, this`maxOutput
      ensures State() == Apply(Apply(old(State()), Call.SetMaxOutput(max)), Call.SetMinOutput(min)) && Valid(State())
      ensures minOutput == min && maxOutput == max
    {
      maxOutput := max;
      minOutput := min;
    }

    method SetType(kind: Kind)
      requires Valid(State())
      modifies this`kind
      ensures State() == Apply(old(State()), Call.SetType(kind)) && Valid(State()) && this.kind == kind
    {
      this.kind := kind;
    }

    method SetAntiWindup(damping: real, limit: real)
      requires Valid(State()) && 0.0 <= damping <= 1.0
      modifies this
      ensures State() == Apply(old(State()), Call.SetAntiWindup(damping, limit)) && Valid(State())
      ensures antiwindupDamping == damping && integralErrorLimit >= 0.0
      ensures integralErrorLimit == limit || integralErrorLimit == -limit
    {
      antiwindupDamping := damping;
      integralErrorLimit := Abs(limit);
    }
  }
}
