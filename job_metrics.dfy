/**
 * monitoring/job_metrics.py: the job-metrics collector. Per operation it counts calls and errors and
 * keeps the latest 100 durations; per job type it keeps the latest 50 completions; it summarises
 * these for the dashboard together with the most recent jobs of the registry.
 */
module JobMetrics {
  import opened Wrappers
  import opened Strings
  import opened Collections
  import Jobs

  const TimingsKept := 100
  const CompletionsKept := 50

  /** A defaultdict(int) read: the stored count, 0 for a missing key. */
  function Count(m: map<string, int>, k: string): int
  {
    if k in m then m[k] else 0
  }

  /** A defaultdict(list) read of the timings. */
  function TimingsOf(m: map<string, seq<real>>, k: string): seq<real>
  {
    if k in m then m[k] else []
  }

  /** l[-n:] when the list is longer than n, else l: the latest n entries. */
  function Latest<T>(s: seq<T>, n: nat): (r: seq<T>)
    ensures |r| <= n && (|s| <= n ==> r == s)
    ensures |s| > n ==> |r| == n
    ensures forall i :: 0 <= i < |r| ==> r[i] == s[|s| - |r| + i]
  {
    if |s| > n then s[|s| - n..] else s
  }

  /**
   * Truncating after every append keeps the same list as truncating the whole history once: the
   * bounded list is always the latest n entries of everything recorded.
   */
  lemma LatestAppend<T>(s: seq<T>, x: T, n: nat)
    ensures Latest(Latest(s, n) + [x], n) == Latest(s + [x], n)
  {
    var a := Latest(Latest(s, n) + [x], n);
    var b := Latest(s + [x], n);
    assert |a| == |b|;
    forall i | 0 <= i < |a| ensures a[i] == b[i] {
      LatestAppendAt(s, x, n, i);
    }
  }

  /** One position of LatestAppend. */
  lemma LatestAppendAt<T>(s: seq<T>, x: T, n: nat, i: nat)
    requires i < |Latest(s + [x], n)| && i < |Latest(Latest(s, n) + [x], n)|
    ensures Latest(Latest(s, n) + [x], n)[i] == Latest(s + [x], n)[i]
  {
    var l := Latest(s, n);
    var a := Latest(l + [x], n);
    var b := Latest(s + [x], n);
    var ja := |l| + 1 - |a| + i;
    var jb := |s| + 1 - |b| + i;
    assert a[i] == (l + [x])[ja];
    assert b[i] == (s + [x])[jb];
    if ja < |l| {
      assert (l + [x])[ja] == l[ja] == s[|s| - |l| + ja];
      assert (s + [x])[jb] == s[jb];
    }
  }

  /** The sum of the values stored under the given keys (missing keys count 0). */
  function SumOver(keys: seq<string>, m: map<string, int>): int
  {
    if keys == [] then 0 else SumOver(keys[..|keys| - 1], m) + Count(m, keys[|keys| - 1])
  }

  /** Values under keys that are not listed do not change the sum. */
  lemma {:induction false} SumOverOutside(keys: seq<string>, m: map<string, int>, k: string, v: int)
    requires k !in keys
    ensures SumOver(keys, m[k := v]) == SumOver(keys, m)
    decreases |keys|
  {
    if keys != [] {
      SumOverOutside(keys[..|keys| - 1], m, k, v);
    }
  }

  /** Raising the value of one listed key by d raises the sum by d. */
  lemma {:induction false} SumOverBump(keys: seq<string>, m: map<string, int>, k: string, d: int)
    requires Distinct(keys) && k in keys
    ensures SumOver(keys, m[k := Count(m, k) + d]) == SumOver(keys, m) + d
    decreases |keys|
  {
    var init := keys[..|keys| - 1];
    if keys[|keys| - 1] == k {
      assert k !in init;
      SumOverOutside(init, m, k, Count(m, k) + d);
    } else {
      assert k in init;
      SumOverBump(init, m, k, d);
    }
  }

  /** A new key with value v raises the sum by v. */
  lemma SumOverNew(keys: seq<string>, m: map<string, int>, k: string, v: int)
    requires k !in keys
    ensures SumOver(keys + [k], m[k := v]) == SumOver(keys, m) + v
  {
    assert (keys + [k])[..|keys|] == keys;
    SumOverOutside(keys, m, k, v);
  }

  /** One entry of job_completion_times. */
  datatype Completion = Completion(durationMs: real, success: bool, timestamp: string)

  /** A defaultdict(list) read of the completions. */
  function CompletionsOf(m: map<string, seq<Completion>>, k: string): seq<Completion>
  {
    if k in m then m[k] else []
  }

  /** One entry of get_operation_stats. Rates and averages are exact here where Python rounds floats. */
  datatype OpStats = OpStats(totalCount: int, successCount: int, errorCount: int, successRate: real,
                             avgDurationMs: real, minDurationMs: real, maxDurationMs: real, recentCount: nat)

  /** One entry of get_job_stats. */
  datatype JobStats = JobStats(totalCompletions: nat, successful: nat, failed: nat, successRate: real,
                               avgDurationMs: real, recentCompletions: nat)

  function Sum(s: seq<real>): real
  {
    if s == [] then 0.0 else Sum(s[..|s| - 1]) + s[|s| - 1]
  }

  function MinOf(s: seq<real>): (r: real)
    requires s != []
    ensures forall i :: 0 <= i < |s| ==> r <= s[i]
  {
    if |s| == 1 then s[0]
    else
      var m := MinOf(s[1..]);
      assert forall i :: 1 <= i < |s| ==> s[i] == s[1..][i - 1];
      if s[0] < m then s[0] else m
  }

  function MaxOf(s: seq<real>): (r: real)
    requires s != []
    ensures forall i :: 0 <= i < |s| ==> s[i] <= r
  {
    if |s| == 1 then s[0]
    else
      var m := MaxOf(s[1..]);
      assert forall i :: 1 <= i < |s| ==> s[i] == s[1..][i - 1];
      if s[0] > m then s[0] else m
  }

  /** The entry of get_operation_stats for one operation with recorded timings. */
  function StatsOf(total: int, errors: int, timings: seq<real>): OpStats
    requires timings != []
  {
    var success := total - errors;
    OpStats(total, success, errors,
            if total > 0 then (success as real / total as real) * 100.0 else 0.0,
            Sum(timings) / |timings| as real, MinOf(timings), MaxOf(timings), |timings|)
  }

  function SuccessfulOf(cs: seq<Completion>): (r: seq<Completion>)
    ensures |r| <= |cs| && forall c :: c in r ==> c in cs && c.success
  {
    if cs == [] then []
    else
      var last := cs[|cs| - 1];
      SuccessfulOf(cs[..|cs| - 1]) + (if last.success then [last] else [])
  }

  function FailedOf(cs: seq<Completion>): (r: seq<Completion>)
    ensures |r| <= |cs| && forall c :: c in r ==> c in cs && !c.success
  {
    if cs == [] then []
    else
      var last := cs[|cs| - 1];
      FailedOf(cs[..|cs| - 1]) + (if last.success then [] else [last])
  }

  /** Every completion is either successful or failed. */
  lemma {:induction false} SuccessfulPlusFailed(cs: seq<Completion>)
    ensures |SuccessfulOf(cs)| + |FailedOf(cs)| == |cs|
    decreases |cs|
  {
    if cs != [] {
      SuccessfulPlusFailed(cs[..|cs| - 1]);
    }
  }

  function Durations(cs: seq<Completion>): (r: seq<real>)
    ensures |r| == |cs|
  {
    if cs == [] then [] else Durations(cs[..|cs| - 1]) + [cs[|cs| - 1].durationMs]
  }

  /** The entry of get_job_stats for one job type with completions. */
  function JobStatsFor(cs: seq<Completion>): JobStats
    requires cs != []
  {
    var ok := SuccessfulOf(cs);
    JobStats(|cs|, |ok|, |FailedOf(cs)|, (|ok| as real / |cs| as real) * 100.0,
             if ok != [] then Sum(Durations(ok)) / |ok| as real else 0.0, |cs|)
  }

  // ---------------------------------------------------------------- recent jobs

  /** The dict get_recent_jobs builds for one job; createdAt is the job's creation time. */
  datatype JobSummary = JobSummary(id: string, jobType: Jobs.JobType, status: Jobs.JobStatus, createdAt: string,
                                   startedAt: Option<string>, finishedAt: Option<string>, progress: real,
                                   counters: map<string, int>, results: map<string, string>, errorCount: nat,
                                   eventCount: nat)

  /** Newest first: every creation time is >= the next one (ISO timestamps compare as strings). */
  predicate SortedDesc(s: seq<JobSummary>)
  {
    forall i :: 0 < i < |s| ==> LexLe(s[i].createdAt, s[i - 1].createdAt)
  }

  /** Insert after every job created at the same time or later, which keeps the sort stable. */
  function InsertDesc(x: JobSummary, r: seq<JobSummary>): (q: seq<JobSummary>)
    requires SortedDesc(r)
    ensures SortedDesc(q)
    ensures multiset(q) == multiset(r) + multiset{x}
    ensures |q| == |r| + 1 && (q[0] == x || (|r| > 0 && q[0] == r[0]))
  {
    if r == [] then [x]
    else if LexLe(x.createdAt, r[0].createdAt) then
      var rest := InsertDesc(x, r[1..]);
      assert r == [r[0]] + r[1..];
      [r[0]] + rest
    else
      LexTotal(x.createdAt, r[0].createdAt);
      [x] + r
  }

  /** jobs.sort(key=created_at, reverse=True): a stable sort, newest first. */
  function SortDesc(s: seq<JobSummary>): (r: seq<JobSummary>)
    ensures SortedDesc(r)
    ensures multiset(r) == multiset(s) && |r| == |s|
  {
    if s == [] then []
    else
      assert s == s[..|s| - 1] + [s[|s| - 1]];
      InsertDesc(s[|s| - 1], SortDesc(s[..|s| - 1]))
  }

  /** The sorted list cut at limit, with Python's slice rules. */
  function RecentJobs(summaries: seq<JobSummary>, limit: int): seq<JobSummary>
  {
    Slice(SortDesc(summaries), 0, limit)
  }

  /**
   * At most limit jobs (exactly min(limit, jobs) for a limit >= 0), newest first, each of them a
   * registered job, and none older than a job left out.
   */
  lemma RecentJobsSpec(summaries: seq<JobSummary>, limit: int)
    ensures var r := RecentJobs(summaries, limit);
      (limit >= 0 ==> |r| == if limit < |summaries| then limit else |summaries|)
      && SortedDesc(r)
      && (forall x :: x in r ==> x in summaries)
      && r == SortDesc(summaries)[..|r|]
  {
    var s := SortDesc(summaries);
    var r := RecentJobs(summaries, limit);
    assert r == s[..|r|];
    forall x | x in r ensures x in summaries {
      assert x in multiset(s);
    }
  }

  function SummaryOf(job: Jobs.JobState, createdAt: string -> string): JobSummary
    reads job
  {
    JobSummary(job.id, job.jobType, job.status, createdAt(job.id), job.startedAt, job.finishedAt, job.progress,
               job.counters, job.results, |job.errors|, |job.events|)
  }

  /** The summaries of the registered jobs in the dict's order. */
  function Summaries(order: seq<string>, jobs: map<string, Jobs.JobState>, createdAt: string -> string): (r: seq<JobSummary>)
    requires forall k :: k in order ==> k in jobs
    reads jobs.Values
    ensures |r| == |order|
  {
    if order == [] then []
    else
      var k := order[|order| - 1];
      assert k in jobs;
      Summaries(order[..|order| - 1], jobs, createdAt) + [SummaryOf(jobs[k], createdAt)]
  }

  /** Running jobs among the given ones. */
  function CountRunning(s: seq<JobSummary>): (n: nat)
    ensures n <= |s|
  {
    if s == [] then 0 else CountRunning(s[..|s| - 1]) + (if s[|s| - 1].status == Jobs.Running then 1 else 0)
  }

  /** The dashboard metrics, without the registry's own statistics and the float success rate. */
  datatype Dashboard = Dashboard(timestamp: string, uptimeSeconds: int, recentJobs: seq<JobSummary>, runningJobs: nat,
                                 operationStats: map<string, OpStats>, jobStats: map<string, JobStats>,
                                 totalOperations: int, totalErrors: int)

  /** The invariant of the per-operation tables (see JobMetricsCollector.Valid). */
  ghost predicate OperationsOk(operations: seq<string>, counters: map<string, int>, timings: map<string, seq<real>>,
                               errors: map<string, int>)
  {
    Distinct(operations)
    && (forall op :: op in counters <==> op in operations)
    && timings.Keys == counters.Keys
    && errors.Keys <= counters.Keys
    && (forall op :: op in counters ==>
          0 <= Count(errors, op) <= counters[op] && 1 <= |timings[op]| <= TimingsKept && |timings[op]| <= counters[op])
  }

  /** The invariant of the per-job-type completions. */
  ghost predicate CompletionsOk(times: map<string, seq<Completion>>)
  {
    forall jt :: jt in times ==> 1 <= |times[jt]| <= CompletionsKept
  }

  /** record_operation keeps the invariant of the per-operation tables. */
  lemma RecordKeepsOk(operations: seq<string>, counters: map<string, int>, timings: map<string, seq<real>>,
                      errors: map<string, int>, op: string, d: real, success: bool)
    requires OperationsOk(operations, counters, timings, errors)
    ensures OperationsOk(if op in counters then operations else operations + [op],
                         counters[op := Count(counters, op) + 1],
                         timings[op := Latest(TimingsOf(timings, op) + [d], TimingsKept)],
                         if success then errors else errors[op := Count(errors, op) + 1])
  {
    if op !in counters {
      DistinctAppend(operations, [op]);
    }
  }

  /** record_operation raises the total of the counters by one. */
  lemma RecordTotals(operations: seq<string>, counters: map<string, int>, errors: map<string, int>, op: string, success: bool)
    requires Distinct(operations) && (forall k :: k in counters <==> k in operations) && (forall k :: k in errors ==> k in counters)
    ensures var ops := if op in counters then operations else operations + [op];
      SumOver(ops, counters[op := Count(counters, op) + 1]) == SumOver(operations, counters) + 1
      && SumOver(ops, if success then errors else errors[op := Count(errors, op) + 1])
         == SumOver(operations, errors) + (if success then 0 else 1)
  {
    if op in counters {
      SumOverBump(operations, counters, op, 1);
      if !success {
        SumOverBump(operations, errors, op, 1);
      }
    } else {
      SumOverNew(operations, counters, op, 1);
      SumOverNew(operations, errors, op, if success then 0 else 1);
      if success {
        assert op !in errors && errors[op := 0] == errors[op := Count(errors, op)];
        SumOverNew(operations, errors, op, 0);
      }
    }
  }

  class JobMetricsCollector {
    const historySize: int
    const startTime: int
    /** The keys of operation_counters (and of operation_timings) in insertion order. */
    var operations: seq<string>
    var operationCounters: map<string, int>
    var operationTimings: map<string, seq<real>>
    var errorCounts: map<string, int>
    var jobCompletionTimes: map<string, seq<Completion>>
    /**
     * The counters, timings and errors cover the same recorded operations; each counter is the
     * number of calls recorded for it and at least its error count; the bounded lists are the
     * latest 100 durations and the latest 50 completions.
     */
    ghost predicate Valid()
      reads this
    {
      OperationsOk(operations, operationCounters, operationTimings, errorCounts)
      && CompletionsOk(jobCompletionTimes)
    }

    /** The clock reading at construction is a parameter. */
    constructor(historySize: int, now: int)
      ensures Valid() && this.historySize == historySize && startTime == now
      ensures operations == [] && operationCounters == map[] && operationTimings == map[] && errorCounts == map[]
      ensures jobCompletionTimes == map[]
    {
      this.historySize := historySize;
      startTime := now;
      operations := [];
      operationCounters := map[];
      operationTimings := map[];
      errorCounts := map[];
      jobCompletionTimes := map[];
    }

    /** sum(operation_counters.values()). */
    function TotalOperations(): int
      reads this
    {
      SumOver(operations, operationCounters)
    }

    /** sum(error_counts.values()) (every key of error_counts is an operation). */
    function TotalErrors(): int
      reads this
    {
      SumOver(operations, errorCounts)
    }

    /**
     * record_operation: one more call, one more error iff it failed, the duration appended and the
     * list cut to its latest 100. RecordKeepsOk shows the new tables keep the invariant of Valid, and
     * RecordTotals that the totals grow by one call, and by one error iff it failed.
     */
    method RecordOperation(op: string, durationMs: real, success: bool)
      modifies this
      ensures operationCounters == old(operationCounters)[op := Count(old(operationCounters), op) + 1]
      ensures errorCounts == if success then old(errorCounts) else old(errorCounts)[op := Count(old(errorCounts), op) + 1]
      ensures operationTimings ==
        old(operationTimings)[op := Latest(TimingsOf(old(operationTimings), op) + [durationMs], TimingsKept)]
      ensures operations == if op in old(operationCounters) then old(operations) else old(operations) + [op]
      ensures jobCompletionTimes == old(jobCompletionTimes)
    {
      var ops := if op in operationCounters then operations else operations + [op];
      var counters := operationCounters[op := Count(operationCounters, op) + 1];
      var errors := if success then errorCounts else errorCounts[op := Count(errorCounts, op) + 1];
      var timings := operationTimings[op := Latest(TimingsOf(operationTimings, op) + [durationMs], TimingsKept)];
      operations, operationCounters, errorCounts, operationTimings := ops, counters, errors, timings;
    }

    /** record_job_completion: the completion (its timestamp a parameter) appended, the list cut to its latest 50. */
    method RecordJobCompletion(jobType: string, durationMs: real, success: bool, timestamp: string)
      requires Valid()
      modifies this
      ensures Valid()
      ensures jobCompletionTimes == old(jobCompletionTimes)[jobType :=
        Latest(CompletionsOf(old(jobCompletionTimes), jobType) + [Completion(durationMs, success, timestamp)], CompletionsKept)]
      ensures operations == old(operations) && operationCounters == old(operationCounters)
      ensures operationTimings == old(operationTimings) && errorCounts == old(errorCounts)
    {
      var entry := Completion(durationMs, success, timestamp);
      jobCompletionTimes := jobCompletionTimes[jobType := Latest(CompletionsOf(jobCompletionTimes, jobType) + [entry], CompletionsKept)];
    }

    /** get_operation_stats: one entry per operation with recorded timings. */
    function OperationStats(): map<string, OpStats>
      reads this
    {
      map op | op in operationTimings && operationTimings[op] != [] ::
        StatsOf(Count(operationCounters, op), Count(errorCounts, op), operationTimings[op])
    }

    /**
     * Every recorded operation has an entry, whose success count is its calls minus its errors and
     * never negative, whose recent count is at most 100 and at most its calls, and whose minimum
     * is at most its maximum.
     */
    lemma OperationStatsSound()
      requires Valid()
      ensures forall op :: op in OperationStats() <==> op in operationCounters
      ensures forall op :: op in OperationStats() ==>
        var s := OperationStats()[op];
        s.totalCount == operationCounters[op] && s.errorCount == Count(errorCounts, op)
        && s.successCount == s.totalCount - s.errorCount && 0 <= s.successCount
        && 1 <= s.recentCount <= TimingsKept && s.recentCount <= s.totalCount
        && s.minDurationMs <= s.maxDurationMs
    {
    }

    method GetOperationStats() returns (stats: map<string, OpStats>)
      ensures stats == OperationStats()
    {
      stats := map[];
      var todo := operationTimings.Keys;
      while todo != {}
        invariant todo <= operationTimings.Keys
        invariant forall op :: op in stats <==> op in OperationStats() && op !in todo
        invariant forall op :: op in stats ==> stats[op] == OperationStats()[op]
        decreases |todo|
      {
        var op :| op in todo;
        var timings := operationTimings[op];
        if timings != [] {
          stats := stats[op := StatsOf(Count(operationCounters, op), Count(errorCounts, op), timings)];
        }
        todo := todo - {op};
      }
    }

    /** get_job_stats: one entry per job type with completions. */
    function JobStatsAll(): map<string, JobStats>
      reads this
    {
      map jt | jt in jobCompletionTimes && jobCompletionTimes[jt] != [] :: JobStatsFor(jobCompletionTimes[jt])
    }

    /** Every job type with a completion has an entry; successful + failed = completions <= 50. */
    lemma JobStatsSound()
      requires Valid()
      ensures forall jt :: jt in JobStatsAll() <==> jt in jobCompletionTimes
      ensures forall jt :: jt in JobStatsAll() ==>
        var s := JobStatsAll()[jt];
        s.successful + s.failed == s.totalCompletions == s.recentCompletions && s.totalCompletions <= CompletionsKept
    {
      forall jt | jt in JobStatsAll()
        ensures JobStatsAll()[jt].successful + JobStatsAll()[jt].failed == JobStatsAll()[jt].totalCompletions
      {
        SuccessfulPlusFailed(jobCompletionTimes[jt]);
      }
    }

    method GetJobStats() returns (stats: map<string, JobStats>)
      ensures stats == JobStatsAll()
    {
      stats := map[];
      var todo := jobCompletionTimes.Keys;
      while todo != {}
        invariant todo <= jobCompletionTimes.Keys
        invariant forall jt :: jt in stats <==> jt in JobStatsAll() && jt !in todo
        invariant forall jt :: jt in stats ==> stats[jt] == JobStatsAll()[jt]
        decreases |todo|
      {
        var jt :| jt in todo;
        var completions := jobCompletionTimes[jt];
        if completions != [] {
          stats := stats[jt := JobStatsFor(completions)];
        }
        todo := todo - {jt};
      }
    }

    /**
     * get_recent_jobs as written: JobState has no created_at, so reading it for the first job raises
     * AttributeError and the handler returns []; with no jobs the list is empty anyway.
     */
    method GetRecentJobsAsWritten(registry: Jobs.JobRegistry, limit: int) returns (r: seq<JobSummary>)
      ensures r == []
    {
      if registry.order != [] {
        return [];
      }
      r := Slice([], 0, limit);
    }

    /**
     * get_recent_jobs with the creation time the sort evidently intends (a parameter: the time
     * each job id was created at): the registered jobs, newest first, cut at limit.
     */
    method GetRecentJobs(registry: Jobs.JobRegistry, createdAt: string -> string, limit: int) returns (r: seq<JobSummary>)
      requires registry.Valid()
      ensures r == RecentJobs(Summaries(registry.order, registry.jobs, createdAt), limit)
    {
      var jobs: seq<JobSummary> := [];
      for i := 0 to |registry.order|
        invariant jobs == Summaries(registry.order[..i], registry.jobs, createdAt)
      {
        assert registry.order[..i + 1][..i] == registry.order[..i];
        var job := registry.jobs[registry.order[i]];
        jobs := jobs + [SummaryOf(job, createdAt)];
      }
      assert registry.order[..|registry.order|] == registry.order;
      r := Slice(SortDesc(jobs), 0, limit);
    }

    /**
     * get_dashboard_metrics as written: the first thing it does is call JOBS.get_stats(), which
     * JobRegistry does not define; the AttributeError is caught and the result is {} (None here).
     */
    method GetDashboardMetricsAsWritten(registry: Jobs.JobRegistry) returns (r: Option<Dashboard>)
      ensures r == None
    {
      r := None;
    }

    /**
     * get_dashboard_metrics without the registry's statistics: the 10 newest jobs and how many of
     * them run, the operation and job statistics and the totals of calls and errors.
     */
    method GetDashboardMetrics(registry: Jobs.JobRegistry, createdAt: string -> string, timestamp: string, now: int)
      returns (d: Dashboard)
      requires registry.Valid()
      ensures d.recentJobs == RecentJobs(Summaries(registry.order, registry.jobs, createdAt), 10)
      ensures |d.recentJobs| <= 10 && d.runningJobs == CountRunning(d.recentJobs)
      ensures d.operationStats == OperationStats() && d.jobStats == JobStatsAll()
      ensures d.totalOperations == TotalOperations() && d.totalErrors == TotalErrors()
      ensures d.uptimeSeconds == now - startTime && d.timestamp == timestamp
    {
      var recent := GetRecentJobs(registry, createdAt, 10);
      assert |recent| <= 10 by {
        RecentJobsSpec(Summaries(registry.order, registry.jobs, createdAt), 10);
      }
      var opStats := GetOperationStats();
      var jobStats := GetJobStats();
      d := Dashboard(timestamp, now - startTime, recent, CountRunning(recent), opStats, jobStats,
                     TotalOperations(), TotalErrors());
    }
  }

  /** Once a job is registered, the corrected recent-jobs list is not empty where the one as written is. */
  lemma RecentJobsNotEmpty(summaries: seq<JobSummary>, limit: int)
    requires summaries != [] && limit > 0
    ensures RecentJobs(summaries, limit) != []
  {
    RecentJobsSpec(summaries, limit);
  }
}
