/** Per-core CPU load from tick deltas: DefaultInfoProvider.cpuLoad.

    The provider keeps a baseline tick matrix (one row of eight tick counters
    per logical core) and the time it was sampled.  A missing or stale
    baseline is replaced by a fresh sample and the thread sleeps before the
    second sample is taken; each core's load is then the share of each tick
    type in that core's tick delta.  The tick reads and the clock are inputs;
    sleeping advances the clock. */
module CpuLoad {
  import opened Wrappers

  type Millis = int

  /** A baseline older than this many milliseconds is resampled. */
  const MAX_SAMPLING_THRESHOLD: Millis := 10 * 1000
  /** The sleep between a fresh baseline and the sample compared with it. */
  const SLEEP_SAMPLE_PERIOD: Millis := 1000
  /** USER, NICE, SYSTEM, IDLE, IOWAIT, IRQ, SOFTIRQ and STEAL, at indices 0 to 7. */
  const TICK_TYPES := 8

  /** A core's load per tick type, in percent, before rounding to two decimals. */
  datatype CoreLoad = CoreLoad(user: real, nice: real, sys: real, idle: real,
                               iowait: real, irq: real, softirq: real, steal: real)

  datatype CpuLoadError =
    | TickIndexOutOfBounds   // a tick matrix has too few rows or a row too few entries
    | CoreLoadUnreadable     // a core saw no ticks at all: the HTTP 500 error

  /** The eight tick-type deltas of one core. */
  function Deltas(baseline: seq<int>, current: seq<int>): (d: seq<int>)
    requires |baseline| >= TICK_TYPES && |current| >= TICK_TYPES
    ensures |d| == TICK_TYPES
    ensures forall t :: 0 <= t < TICK_TYPES ==> d[t] == current[t] - baseline[t]
  {
    [current[0] - baseline[0], current[1] - baseline[1], current[2] - baseline[2], current[3] - baseline[3],
     current[4] - baseline[4], current[5] - baseline[5], current[6] - baseline[6], current[7] - baseline[7]]
  }

  /** All ticks a core spent in the interval. */
  function Total(d: seq<int>): int
    requires |d| == TICK_TYPES
  {
    d[0] + d[1] + d[2] + d[3] + d[4] + d[5] + d[6] + d[7]
  }

  function Share(delta: int, total: int): real
    requires total != 0
  {
    100.0 * delta as real / total as real
  }

  function Shares(l: CoreLoad): seq<real> {
    [l.user, l.nice, l.sys, l.idle, l.iowait, l.irq, l.softirq, l.steal]
  }

  function CoreLoadOf(d: seq<int>): (l: CoreLoad)
    requires |d| == TICK_TYPES && Total(d) != 0
    ensures forall t :: 0 <= t < TICK_TYPES ==> Shares(l)[t] == Share(d[t], Total(d))
  {
    var total := Total(d);
    CoreLoad(Share(d[0], total), Share(d[1], total), Share(d[2], total), Share(d[3], total),
             Share(d[4], total), Share(d[5], total), Share(d[6], total), Share(d[7], total))
  }

  /** The load of core `i`, or the error computing it raises. */
  function CoreLoadAt(baseline: seq<seq<int>>, current: seq<seq<int>>, i: nat): Result<CoreLoad, CpuLoadError> {
    if i >= |current| || |current[i]| < TICK_TYPES || i >= |baseline| || |baseline[i]| < TICK_TYPES then
      Failure(TickIndexOutOfBounds)
    else
      var d := Deltas(baseline[i], current[i]);
      if Total(d) == 0 then Failure(CoreLoadUnreadable) else Success(CoreLoadOf(d))
  }

  /** The loads of cores 0 to n-1, failing with the error of the first core
      that fails. */
  function CoreLoads(baseline: seq<seq<int>>, current: seq<seq<int>>, n: nat): (r: Result<seq<CoreLoad>, CpuLoadError>)
    ensures r.Success? <==> forall i :: 0 <= i < n ==> CoreLoadAt(baseline, current, i).Success?
    ensures r.Success? ==> |r.value| == n
    ensures r.Success? ==> forall i :: 0 <= i < n ==> r.value[i] == CoreLoadAt(baseline, current, i).value
    ensures r.Failure? ==>
      exists k :: (&& 0 <= k < n && CoreLoadAt(baseline, current, k) == Failure(r.error)
                   && forall j :: 0 <= j < k ==> CoreLoadAt(baseline, current, j).Success?)
  {
    if n == 0 then Success([])
    else
      match CoreLoads(baseline, current, n - 1)
      case Failure(e) => Failure(e)
      case Success(ls) =>
        match CoreLoadAt(baseline, current, n - 1)
        case Failure(e) => Failure(e)
        case Success(l) => Success(ls + [l])
  }

  /** If core k is the first to fail, the whole computation fails with its error. */
  lemma {:induction false} FirstFailureDecides(baseline: seq<seq<int>>, current: seq<seq<int>>, n: nat, k: nat)
    requires k < n
    requires forall j :: 0 <= j < k ==> CoreLoadAt(baseline, current, j).Success?
    requires CoreLoadAt(baseline, current, k).Failure?
    ensures CoreLoads(baseline, current, n) == Failure(CoreLoadAt(baseline, current, k).error)
  {
    var r := CoreLoads(baseline, current, n);
    assert r.Failure?;
    var k' :| 0 <= k' < n && CoreLoadAt(baseline, current, k') == Failure(r.error)
              && forall j :: 0 <= j < k' ==> CoreLoadAt(baseline, current, j).Success?;
    assert k' == k;
  }

  /** Every core succeeding makes the whole computation succeed with their loads. */
  lemma {:induction false} AllCoresDecide(baseline: seq<seq<int>>, current: seq<seq<int>>, n: nat, loads: seq<CoreLoad>)
    requires |loads| == n
    requires forall j :: 0 <= j < n ==> CoreLoadAt(baseline, current, j) == Success(loads[j])
    ensures CoreLoads(baseline, current, n) == Success(loads)
  {
    var r := CoreLoads(baseline, current, n);
    assert r.Success? by {
      forall j | 0 <= j < n ensures CoreLoadAt(baseline, current, j).Success? {
        assert CoreLoadAt(baseline, current, j) == Success(loads[j]);
      }
    }
    assert r.value == loads;
  }

  /** The unrounded shares of a core add up to 100 percent. */
  lemma {:induction false} SharesSumToHundred(d: seq<int>)
    requires |d| == TICK_TYPES && Total(d) != 0
    ensures var l := CoreLoadOf(d);
      l.user + l.nice + l.sys + l.idle + l.iowait + l.irq + l.softirq + l.steal == 100.0
  {
    var total := Total(d) as real;
    calc {
      100.0 * d[0] as real / total + 100.0 * d[1] as real / total + 100.0 * d[2] as real / total
        + 100.0 * d[3] as real / total + 100.0 * d[4] as real / total + 100.0 * d[5] as real / total
        + 100.0 * d[6] as real / total + 100.0 * d[7] as real / total;
      100.0 * (d[0] + d[1] + d[2] + d[3] + d[4] + d[5] + d[6] + d[7]) as real / total;
      100.0;
    }
  }

  /** Solver helper: one share of a non-negative delta lies in 0..100. */
  lemma ShareIsPercentage(delta: int, total: int)
    requires 0 <= delta <= total && total != 0
    ensures 0.0 <= Share(delta, total) <= 100.0
  {
    var x := Share(delta, total);
    assert x * total as real == 100.0 * delta as real;
  }

  /** With non-negative deltas (counters that did not go backwards) every
      share is a percentage. */
  lemma {:induction false} SharesArePercentages(d: seq<int>)
    requires |d| == TICK_TYPES && Total(d) != 0
    requires forall t :: 0 <= t < TICK_TYPES ==> d[t] >= 0
    ensures forall t :: 0 <= t < TICK_TYPES ==> 0.0 <= Shares(CoreLoadOf(d))[t] <= 100.0
  {
    forall t | 0 <= t < TICK_TYPES ensures 0.0 <= Shares(CoreLoadOf(d))[t] <= 100.0 {
      ShareIsPercentage(d[t], Total(d));
    }
  }

  /** `since` lies further than `max` milliseconds before `now`. */
  predicate IsOutsideMaximumDuration(since: Millis, max: Millis, now: Millis) {
    now - since > max
  }

  class DefaultInfoProvider {
    var coreTicks: seq<seq<int>>
    var coreTicksSampledAt: Millis

    constructor ()
      ensures coreTicks == [] && coreTicksSampledAt == -1
    {
      coreTicks := [];
      coreTicksSampledAt := -1;
    }

    /** No baseline is stored, or the stored one is too old. */
    predicate NeedsResample(now: Millis)
      reads this
    {
      |coreTicks| == 0 || IsOutsideMaximumDuration(coreTicksSampledAt, MAX_SAMPLING_THRESHOLD, now)
    }

    /** cpuLoad's per-core part, called at clock time `now` with
        `logicalProcessorCount` cores.  `freshTicks` is what a resample reads
        and `currentTicks` what the second read returns. */
    method CpuLoad(now: Millis, logicalProcessorCount: nat, freshTicks: seq<seq<int>>, currentTicks: seq<seq<int>>)
      returns (r: Result<seq<CoreLoad>, CpuLoadError>)
      modifies this
      ensures var resampled := old(NeedsResample(now));
        var baseline := if resampled then freshTicks else old(coreTicks);
        var sampledAt := if resampled then now + SLEEP_SAMPLE_PERIOD else now;
        && r == CoreLoads(baseline, currentTicks, logicalProcessorCount)
        && (r.Success? ==> coreTicks == currentTicks && coreTicksSampledAt == sampledAt)
        && (r.Failure? ==> coreTicks == baseline &&
                           coreTicksSampledAt == if resampled then now else old(coreTicksSampledAt))
    {
      var clock := now;
      if |coreTicks| == 0 || IsOutsideMaximumDuration(coreTicksSampledAt, MAX_SAMPLING_THRESHOLD, clock) {
        coreTicks := freshTicks;
        coreTicksSampledAt := clock;
        clock := clock + SLEEP_SAMPLE_PERIOD;   // the sleep
      }
      var n := logicalProcessorCount;
      var coreLoads := new CoreLoad[n];
      var sampledAt := clock;
      var baseline, baselineAt := coreTicks, coreTicksSampledAt;
      for i := 0 to n
        invariant coreTicks == baseline && coreTicksSampledAt == baselineAt
        invariant forall j :: 0 <= j < i ==> CoreLoadAt(baseline, currentTicks, j) == Success(coreLoads[j])
      {
        if i >= |currentTicks| || |currentTicks[i]| < TICK_TYPES || i >= |baseline| || |baseline[i]| < TICK_TYPES {
          FirstFailureDecides(baseline, currentTicks, n, i);
          return Failure(TickIndexOutOfBounds);
        }
        var cur, base := currentTicks[i], baseline[i];
        var user := cur[0] - base[0];
        var nice := cur[1] - base[1];
        var sys := cur[2] - base[2];
        var idle := cur[3] - base[3];
        var iowait := cur[4] - base[4];
        var irq := cur[5] - base[5];
        var softirq := cur[6] - base[6];
        var steal := cur[7] - base[7];
        var totalCpu := user + nice + sys + idle + iowait + irq + softirq + steal;
        ghost var d := Deltas(base, cur);
        assert d == [user, nice, sys, idle, iowait, irq, softirq, steal] && Total(d) == totalCpu;
        if totalCpu != 0 {
          coreLoads[i] := CoreLoad(Share(user, totalCpu), Share(nice, totalCpu), Share(sys, totalCpu),
                                   Share(idle, totalCpu), Share(iowait, totalCpu), Share(irq, totalCpu),
                                   Share(softirq, totalCpu), Share(steal, totalCpu));
        } else {
          FirstFailureDecides(baseline, currentTicks, n, i);
          return Failure(CoreLoadUnreadable);
        }
      }
      AllCoresDecide(baseline, currentTicks, n, coreLoads[..]);
      coreTicks := currentTicks;
      coreTicksSampledAt := sampledAt;
      r := Success(coreLoads[..]);
    }
  }
}
