/**
 * api/core/jobs.py: the in-memory job registry of the API. A job starts "queued" with zeroed
 * counters; `push` appends an event to its log; the registry maps job ids to jobs.
 */
module Jobs {
  import opened Wrappers
  import opened Collections

  datatype JobType = Crawl | PreprocessEmbed | Reindex | Backup | Restore

  datatype JobStatus = Queued | Running | Succeeded | Failed

  /** One entry of a job's event log; `kind` is progress, info, warning, error or done. */
  datatype JobEvent = JobEvent(ts: string, kind: string, message: string, data: map<string, string>)

  /** The counters every new job starts with. */
  const InitialCounters: map<string, int> := map["found" := 0, "new" := 0, "skipped" := 0, "failed" := 0, "pages" := 0]

  class JobState {
    const id: string
    const jobType: JobType
    var status: JobStatus
    var startedAt: Option<string>
    var finishedAt: Option<string>
    var progress: real
    var counters: map<string, int>
    var results: map<string, string>
    var errors: seq<string>
    var events: seq<JobEvent>

    /** The dataclass defaults: queued, no timestamps, progress 0.0, zero counters, nothing logged. */
    constructor(id: string, jobType: JobType)
      ensures this.id == id && this.jobType == jobType
      ensures status == Queued && startedAt == None && finishedAt == None && progress == 0.0
      ensures counters == InitialCounters && results == map[] && errors == [] && events == []
    {
      this.id := id;
      this.jobType := jobType;
      status := Queued;
      startedAt := None;
      finishedAt := None;
      progress := 0.0;
      counters := InitialCounters;
      results := map[];
      errors := [];
      events := [];
    }

    /** push: the event (its timestamp is a parameter) is appended to the log and returned; nothing else changes. */
    method Push(ts: string, kind: string, message: string, data: map<string, string>) returns (ev: JobEvent)
      modifies this
      ensures ev == JobEvent(ts, kind, message, data)
      ensures events == old(events) + [ev]
      ensures |events| == |old(events)| + 1 && events[..|old(events)|] == old(events)
      ensures status == old(status) && startedAt == old(startedAt) && finishedAt == old(finishedAt)
      ensures progress == old(progress) && counters == old(counters) && results == old(results) && errors == old(errors)
    {
      ev := JobEvent(ts, kind, message, data);
      events := events + [ev];
    }
  }

  class JobRegistry {
    var jobs: map<string, JobState>
    /** The keys of the dict in insertion order. */
    var order: seq<string>

    /** Every job is filed under its own id, and `order` lists each key once. */
    ghost predicate Valid()
      reads this
    {
      Distinct(order)
      && (forall k :: k in jobs <==> k in order)
      && (forall k :: k in jobs ==> jobs[k].id == k)
    }

    constructor()
      ensures Valid() && jobs == map[] && order == []
    {
      jobs := map[];
      order := [];
    }

    /**
     * create: a fresh job with the given id (uuid4().hex[:12] in the source, a parameter here) is
     * filed under that id, replacing a job that had the same id; every other entry is unchanged.
     */
    method Create(jobType: JobType, jid: string) returns (st: JobState)
      requires Valid()
      modifies this
      ensures Valid()
      ensures fresh(st) && st.id == jid && st.jobType == jobType
      ensures st.status == Queued && st.progress == 0.0 && st.counters == InitialCounters
      ensures st.events == [] && st.errors == [] && st.results == map[]
      ensures jobs == old(jobs)[jid := st]
      ensures forall k :: k in old(jobs) && k != jid ==> k in jobs && jobs[k] == old(jobs)[k]
      ensures order == if jid in old(jobs) then old(order) else old(order) + [jid]
      ensures Get(jid) == Some(st)
    {
      st := new JobState(jid, jobType);
      if jid !in jobs {
        DistinctAppend(order, [jid]);
        order := order + [jid];
      }
      jobs := jobs[jid := st];
    }

    /** get: the job filed under jid, None for an unknown id. */
    function Get(jid: string): (r: Option<JobState>)
      reads this
      ensures r.Some? <==> jid in jobs
      ensures r.Some? ==> r.value == jobs[jid]
    {
      if jid in jobs then Some(jobs[jid]) else None
    }
  }
}
