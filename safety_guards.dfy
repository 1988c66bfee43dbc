/**
 * src/qc/production_safety_guards.py: the circuit breaker that guards calls into the search
 * stack, and the system monitor's bounded metrics history with its summary.
 * Clock readings are parameters; the guarded function's outcome is a parameter as well.
 */
module SafetyGuards {
  import opened Wrappers

  datatype BreakerState = Closed | Open | HalfOpen

  /** What a guarded call does: raised "Circuit breaker is OPEN" without calling, returned, or re-raised. */
  datatype Outcome = Rejected | Returned | Reraised

  /** The mutable part of a breaker: state, failure_count and last_failure_time. */
  datatype Breaker = Breaker(state: BreakerState, failureCount: int, lastFailureTime: Option<real>)

  /**
   * What the breaker keeps true between calls: the count is never negative, and a breaker that is
   * not closed has seen at least `threshold` failures and remembers when the last one happened.
   */
  predicate BreakerOk(b: Breaker, threshold: int)
  {
    b.failureCount >= 0
    && (b.state != Closed ==> b.lastFailureTime.Some? && b.failureCount >= threshold)
  }

  /** true when an open breaker's recovery timeout has passed and it will let a trial call through. */
  predicate Expired(b: Breaker, timeout: int, now: real)
    requires b.state == Open ==> b.lastFailureTime.Some?
  {
    b.state == Open && now - b.lastFailureTime.value > timeout as real
  }

  /**
   * One call through the breaker, checked at time `now`; `funcOk` says whether the guarded function
   * returned, and a failure is stamped with the clock reading `failedAt` taken after it.
   */
  function AfterCall(b: Breaker, threshold: int, timeout: int, now: real, failedAt: real, funcOk: bool)
    : (r: (Breaker, Outcome))
    requires BreakerOk(b, threshold)
    ensures BreakerOk(r.0, threshold)
    // an open breaker whose timeout has not passed rejects the call and changes nothing
    ensures b.state == Open && !Expired(b, timeout, now) <==> r.1 == Rejected
    ensures r.1 == Rejected ==> r.0 == b
    // success resets the count and always ends closed (a half-open trial recovers)
    ensures r.1 == Returned <==> r.1 != Rejected && funcOk
    ensures r.1 == Returned ==> r.0.failureCount == 0 && r.0.state == Closed && r.0.lastFailureTime == b.lastFailureTime
    // failure counts, stamps the time, opens at the threshold and re-raises
    ensures r.1 == Reraised ==>
      && r.0.failureCount == b.failureCount + 1
      && r.0.lastFailureTime == Some(failedAt)
      && (r.0.state == Open <==> b.failureCount + 1 >= threshold || b.state != Closed)
      && (r.0.state != Open ==> r.0.state == Closed)
  {
    if b.state == Open && !Expired(b, timeout, now) then
      (b, Rejected)
    else
      var trial := if b.state == Open then b.(state := HalfOpen) else b;
      if funcOk then
        (trial.(failureCount := 0, state := Closed), Returned)
      else
        var count := trial.failureCount + 1;
        (trial.(failureCount := count, lastFailureTime := Some(failedAt),
                state := if count >= threshold then Open else trial.state), Reraised)
  }

  /**
   * Whatever clock reading t the last failure was stamped with, 0.0 included, an open breaker lets
   * a trial call through once more than the recovery timeout has passed since t, and a trial that
   * returns closes it.
   */
  lemma TimeoutLetsTrialThrough(b: Breaker, threshold: int, timeout: int, t: real, now: real)
    requires BreakerOk(b, threshold) && b.state == Open && b.lastFailureTime == Some(t) && now - t > timeout as real
    ensures AfterCall(b, threshold, timeout, now, now, true).1 == Returned
    ensures AfterCall(b, threshold, timeout, now, now, true).0.state == Closed
  {
  }

  /** Between calls a breaker is never left half-open: every trial call either closes or reopens it. */
  lemma NeverHalfOpenAfterCall(b: Breaker, threshold: int, timeout: int, now: real, failedAt: real, funcOk: bool)
    requires BreakerOk(b, threshold)
    ensures AfterCall(b, threshold, timeout, now, failedAt, funcOk).0.state != HalfOpen
  {
  }

  /** A failed trial call after the timeout reopens the breaker at once, whatever the threshold. */
  lemma HalfOpenFailureReopens(b: Breaker, threshold: int, timeout: int, now: real, failedAt: real)
    requires BreakerOk(b, threshold) && Expired(b, timeout, now)
    ensures AfterCall(b, threshold, timeout, now, failedAt, false).0.state == Open
    ensures AfterCall(b, threshold, timeout, now, failedAt, false).1 == Reraised
  {
  }

  /** The calls' results, applied one after another; each call is (now, failedAt, funcOk). */
  function Run(b: Breaker, threshold: int, timeout: int, calls: seq<(real, real, bool)>): (r: Breaker)
    requires BreakerOk(b, threshold)
    ensures BreakerOk(r, threshold)
    decreases |calls|
  {
    if calls == [] then b
    else Run(AfterCall(b, threshold, timeout, calls[0].0, calls[0].1, calls[0].2).0, threshold, timeout, calls[1..])
  }

  /** true when every call's guarded function fails. */
  predicate AllFail(calls: seq<(real, real, bool)>)
  {
    forall i :: 0 <= i < |calls| ==> !calls[i].2
  }

  /**
   * A closed breaker opens once enough failing calls in a row bring its count to the threshold:
   * while closed it lets each of them through and counts it, and once open it stays open.
   */
  lemma {:induction false} FailuresOpen(b: Breaker, threshold: int, timeout: int, calls: seq<(real, real, bool)>)
    requires BreakerOk(b, threshold) && b.state == Closed
    requires AllFail(calls) && b.failureCount + |calls| >= threshold && |calls| > 0
    ensures Run(b, threshold, timeout, calls).state == Open
    decreases |calls|
  {
    var next := AfterCall(b, threshold, timeout, calls[0].0, calls[0].1, calls[0].2).0;
    assert !calls[0].2;
    if |calls| > 1 {
      assert AllFail(calls[1..]) by {
        forall i | 0 <= i < |calls[1..]| ensures !calls[1..][i].2 {
          assert calls[1..][i] == calls[i + 1];
        }
      }
      if next.state == Closed {
        FailuresOpen(next, threshold, timeout, calls[1..]);
      } else {
        StaysOpenOnFailures(next, threshold, timeout, calls[1..]);
      }
    }
  }

  /** An open breaker stays open while every call fails or is rejected. */
  lemma {:induction false} StaysOpenOnFailures(b: Breaker, threshold: int, timeout: int, calls: seq<(real, real, bool)>)
    requires BreakerOk(b, threshold) && b.state == Open && AllFail(calls)
    ensures Run(b, threshold, timeout, calls).state == Open
    decreases |calls|
  {
    if calls != [] {
      assert !calls[0].2;
      var next := AfterCall(b, threshold, timeout, calls[0].0, calls[0].1, calls[0].2).0;
      assert AllFail(calls[1..]) by {
        forall i | 0 <= i < |calls[1..]| ensures !calls[1..][i].2 {
          assert calls[1..][i] == calls[i + 1];
        }
      }
      StaysOpenOnFailures(next, threshold, timeout, calls[1..]);
    }
  }

  class CircuitBreaker {
    const failureThreshold: int
    const recoveryTimeout: int
    var state: BreakerState
    var failureCount: int
    var lastFailureTime: Option<real>

    function Snapshot(): Breaker
      reads this
    {
      Breaker(state, failureCount, lastFailureTime)
    }

    ghost predicate Valid()
      reads this
    {
      BreakerOk(Snapshot(), failureThreshold)
    }

    /** A new breaker is closed with no failures (defaults: threshold 5, timeout 60 s). */
    constructor(failureThreshold: int, recoveryTimeout: int)
      ensures Valid()
      ensures this.failureThreshold == failureThreshold && this.recoveryTimeout == recoveryTimeout
      ensures state == Closed && failureCount == 0 && lastFailureTime == None
    {
      this.failureThreshold := failureThreshold;
      this.recoveryTimeout := recoveryTimeout;
      state := Closed;
      failureCount := 0;
      lastFailureTime := None;
    }

    /** _on_success: the count is reset and a half-open breaker recovers to closed. */
    method OnSuccess()
      modifies this
      ensures failureCount == 0 && lastFailureTime == old(lastFailureTime)
      ensures state == if old(state) == HalfOpen then Closed else old(state)
    {
      failureCount := 0;
      if state == HalfOpen {
        state := Closed;
      }
    }

    /** _on_failure: the failure is counted and stamped; reaching the threshold opens the breaker. */
    method OnFailure(failedAt: real)
      modifies this
      ensures failureCount == old(failureCount) + 1 && lastFailureTime == Some(failedAt)
      ensures state == if failureCount >= failureThreshold then Open else old(state)
    {
      failureCount := failureCount + 1;
      lastFailureTime := Some(failedAt);
      if failureCount >= failureThreshold {
        state := Open;
      }
    }

    /** call: the state machine step; the breaker's new fields and the outcome are those of AfterCall. */
    method Call(now: real, failedAt: real, funcOk: bool) returns (r: Outcome)
      requires Valid()
      modifies this
      ensures Valid()
      ensures (Snapshot(), r) == AfterCall(old(Snapshot()), failureThreshold, recoveryTimeout, now, failedAt, funcOk)
    {
      if state == Open {
        if now - lastFailureTime.value > recoveryTimeout as real {
          state := HalfOpen;
        } else {
          return Rejected;
        }
      }
      if funcOk {
        OnSuccess();
        r := Returned;
      } else {
        OnFailure(failedAt);
        r := Reraised;
      }
    }
  }

  /** One sample of _collect_metrics. */
  datatype Metrics = Metrics(timestamp: string, cpuPercent: real, memoryPercent: real,
                             diskPercent: real, processMemoryMb: real)

  datatype Alert = HighCpu | HighMemory | HighDisk | HighProcessMemory

  /** The position of each check in _check_thresholds. */
  function Rank(a: Alert): nat
  {
    match a
    case HighCpu => 0
    case HighMemory => 1
    case HighDisk => 2
    case HighProcessMemory => 3
  }

  /**
   * _check_thresholds: the warnings a sample raises. Each comes at most once, in the order of the
   * checks, and exactly when its reading is over its limit.
   */
  function Alerts(m: Metrics): (r: seq<Alert>)
    ensures forall i, j :: 0 <= i < j < |r| ==> Rank(r[i]) < Rank(r[j])
    ensures HighCpu in r <==> m.cpuPercent > 80.0
    ensures HighMemory in r <==> m.memoryPercent > 85.0
    ensures HighDisk in r <==> m.diskPercent > 90.0
    ensures HighProcessMemory in r <==> m.processMemoryMb > 2048.0
  {
    (if m.cpuPercent > 80.0 then [HighCpu] else [])
    + (if m.memoryPercent > 85.0 then [HighMemory] else [])
    + (if m.diskPercent > 90.0 then [HighDisk] else [])
    + (if m.processMemoryMb > 2048.0 then [HighProcessMemory] else [])
  }

  /** Higher readings never silence a warning. */
  lemma AlertsMonotone(m1: Metrics, m2: Metrics)
    requires m1.cpuPercent <= m2.cpuPercent && m1.memoryPercent <= m2.memoryPercent
    requires m1.diskPercent <= m2.diskPercent && m1.processMemoryMb <= m2.processMemoryMb
    ensures forall a :: a in Alerts(m1) ==> a in Alerts(m2)
    ensures |Alerts(m1)| <= |Alerts(m2)|
  {
    AlertsCount(m1);
    AlertsCount(m2);
  }

  /** The number of warnings is the number of readings over their limits. */
  lemma AlertsCount(m: Metrics)
    ensures |Alerts(m)| == (if m.cpuPercent > 80.0 then 1 else 0) + (if m.memoryPercent > 85.0 then 1 else 0)
      + (if m.diskPercent > 90.0 then 1 else 0) + (if m.processMemoryMb > 2048.0 then 1 else 0)
  {
  }

  /** The metrics summary: no data, or the averages of the latest (at most 10) samples. */
  datatype Summary =
    | NoData
    | Monitoring(sampleCount: nat, cpuAvg: real, memoryAvg: real, diskAvg: real, processMemoryAvg: real)

  const SummaryWindow := 10

  function SumBy(s: seq<Metrics>, f: Metrics -> real): real
    decreases |s|
  {
    if s == [] then 0.0 else SumBy(s[..|s| - 1], f) + f(s[|s| - 1])
  }

  /** The samples a summary averages: the last ten, or all of them when there are fewer. */
  function RecentSamples(h: seq<Metrics>): (r: seq<Metrics>)
    ensures |r| == if |h| < SummaryWindow then |h| else SummaryWindow
    ensures r == h[|h| - |r|..]
  {
    if |h| > SummaryWindow then h[|h| - SummaryWindow..] else h
  }

  /** get_metrics_summary. */
  function MetricsSummary(h: seq<Metrics>): (r: Summary)
    ensures r == NoData <==> h == []
    ensures r.Monitoring? ==> 1 <= r.sampleCount <= SummaryWindow && r.sampleCount <= |h|
    ensures r.Monitoring? ==> r.sampleCount == |RecentSamples(h)|
  {
    if h == [] then NoData
    else
      var recent := RecentSamples(h);
      var n := |recent| as real;
      Monitoring(|recent|, SumBy(recent, (m: Metrics) => m.cpuPercent) / n, SumBy(recent, (m: Metrics) => m.memoryPercent) / n,
                 SumBy(recent, (m: Metrics) => m.diskPercent) / n, SumBy(recent, (m: Metrics) => m.processMemoryMb) / n)
  }

  /** A sample older than the last ten does not change the summary. */
  lemma SummaryIgnoresOldSamples(old0: Metrics, h: seq<Metrics>)
    requires |h| >= SummaryWindow
    ensures MetricsSummary([old0] + h) == MetricsSummary(h)
  {
    assert RecentSamples([old0] + h) == RecentSamples(h) by {
      assert ([old0] + h)[|h| + 1 - SummaryWindow..] == h[|h| - SummaryWindow..];
    }
  }

  class SystemMonitor {
    const maxHistory: nat
    var metricsHistory: seq<Metrics>

    ghost predicate Valid()
      reads this
    {
      |metricsHistory| <= maxHistory
    }

    /** A new monitor keeps up to 100 samples and has none yet. */
    constructor()
      ensures Valid() && maxHistory == 100 && metricsHistory == []
    {
      maxHistory := 100;
      metricsHistory := [];
    }

    /**
     * One round of _monitor_loop: the sample is appended, and when that makes the history too long
     * the oldest sample is dropped, so the history is the latest samples in arrival order.
     */
    method RecordSample(m: Metrics)
      requires Valid() && maxHistory > 0
      modifies this
      ensures Valid()
      ensures metricsHistory == if |old(metricsHistory)| < maxHistory then old(metricsHistory) + [m]
                                else old(metricsHistory)[1..] + [m]
      ensures metricsHistory[|metricsHistory| - 1] == m
    {
      metricsHistory := metricsHistory + [m];
      if |metricsHistory| > maxHistory {
        metricsHistory := metricsHistory[1..];
      }
    }

    /** get_metrics_summary over the current history. */
    method GetMetricsSummary() returns (r: Summary)
      ensures r == MetricsSummary(metricsHistory)
      ensures r == NoData <==> metricsHistory == []
    {
      r := MetricsSummary(metricsHistory);
    }
  }

  /** The history after a run of samples, each recorded as _monitor_loop does. */
  function Recorded(h: seq<Metrics>, samples: seq<Metrics>, maxHistory: nat): (r: seq<Metrics>)
    decreases |samples|
  {
    if samples == [] then h
    else
      var h' := h + [samples[0]];
      Recorded(if |h'| > maxHistory then h'[1..] else h', samples[1..], maxHistory)
  }

  /**
   * However many samples arrive, the history keeps at most maxHistory of them and they are the
   * latest ones: the tail of everything recorded, oldest dropped first.
   */
  lemma {:induction false} RecordedIsLatest(h: seq<Metrics>, samples: seq<Metrics>, maxHistory: nat)
    requires |h| <= maxHistory && maxHistory > 0
    ensures |Recorded(h, samples, maxHistory)| <= maxHistory
    ensures |Recorded(h, samples, maxHistory)| == if |h + samples| < maxHistory then |h + samples| else maxHistory
    ensures Recorded(h, samples, maxHistory) == (h + samples)[|h + samples| - |Recorded(h, samples, maxHistory)|..]
  {
    var all := h + samples;
    RecordedNewest(h, samples, maxHistory);
    if |all| <= maxHistory {
      assert Newest(all, maxHistory) == all == all[0..];
    } else {
      assert Newest(all, maxHistory) == all[|all| - maxHistory..];
    }
  }

  /** The newest n entries of a history. */
  function Newest(s: seq<Metrics>, n: nat): seq<Metrics>
  {
    if |s| <= n then s else s[|s| - n..]
  }

  lemma {:induction false} RecordedNewest(h: seq<Metrics>, samples: seq<Metrics>, maxHistory: nat)
    requires |h| <= maxHistory && maxHistory > 0
    ensures Recorded(h, samples, maxHistory) == Newest(h + samples, maxHistory)
    decreases |samples|
  {
    if samples == [] {
      assert h + samples == h;
    } else {
      var h' := h + [samples[0]];
      var next := if |h'| > maxHistory then h'[1..] else h';
      RecordedNewest(next, samples[1..], maxHistory);
      var all := h + samples;
      var tail := next + samples[1..];
      assert h' + samples[1..] == all;
      if |h'| > maxHistory {
        assert tail == all[1..];
        assert all[1..][|all| - 1 - maxHistory..] == all[|all| - maxHistory..];
      } else {
        assert tail == all;
      }
    }
  }
}
