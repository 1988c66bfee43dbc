/**
 * api/core/middleware.py: the per-client sliding-window rate limit, and the per-operation
 * counters that the request-logging middleware bumps for requests that were handled.
 * The clock and the downstream handler's outcome are parameters.
 */
module Middleware {
  import opened Wrappers
  import opened Strings

  /** The rate-limit window, in seconds. */
  const Window: real := 60.0

  /** The client's timestamps that are still inside the window at `now`, in their order. */
  function Recent(ts: seq<real>, now: real): (r: seq<real>)
    ensures |r| <= |ts|
    ensures forall t :: t in r <==> t in ts && now - t < Window
    ensures (forall i :: 0 <= i < |ts| ==> now - ts[i] < Window) ==> r == ts
    decreases |ts|
  {
    if ts == [] then []
    else
      var init := Recent(ts[..|ts| - 1], now);
      var last := ts[|ts| - 1];
      assert ts == ts[..|ts| - 1] + [last];
      if now - last < Window then init + [last] else init
  }

  /** The most timestamps a client ever has on record: the limit, or none for a limit below zero. */
  function Cap(limit: int): nat
  {
    if limit < 0 then 0 else limit
  }

  function History(requests: map<string, seq<real>>, client: string): seq<real>
  {
    if client in requests then requests[client] else []
  }

  /**
   * One request at `now` for a client whose record is `ts`: the old timestamps are dropped first; the
   * request is refused (429) exactly when the remaining count has reached the limit, and only an
   * admitted request is recorded.
   */
  function Admit(ts: seq<real>, now: real, limit: int): (r: (bool, seq<real>))
    ensures r.0 <==> |Recent(ts, now)| < limit
    ensures r.0 ==> r.1 == Recent(ts, now) + [now]
    ensures !r.0 ==> r.1 == Recent(ts, now)
    ensures forall t :: t in r.1 ==> now - t < Window
    ensures |ts| <= Cap(limit) ==> |r.1| <= Cap(limit)
  {
    var kept := Recent(ts, now);
    if |kept| >= limit then (false, kept) else (true, kept + [now])
  }

  /**
   * However the requests arrive, a client's record never exceeds the limit: at any moment at most
   * calls_per_minute requests of the last minute are on record, and a refused one adds nothing.
   */
  lemma {:induction false} AdmitAll(ts: seq<real>, times: seq<real>, limit: int)
    requires |ts| <= Cap(limit)
    ensures |AdmitTimes(ts, times, limit)| <= Cap(limit)
    decreases |times|
  {
    if times != [] {
      AdmitAll(Admit(ts, times[0], limit).1, times[1..], limit);
    }
  }

  /** A client's record after requests at each of `times`, admitted or refused one by one. */
  function AdmitTimes(ts: seq<real>, times: seq<real>, limit: int): seq<real>
    decreases |times|
  {
    if times == [] then ts else AdmitTimes(Admit(ts, times[0], limit).1, times[1..], limit)
  }

  class RateLimiter {
    const callsPerMinute: int
    var requests: map<string, seq<real>>

    ghost predicate Valid()
      reads this
    {
      forall c :: c in requests ==> |requests[c]| <= Cap(callsPerMinute)
    }

    /** The default limit is 60 calls per minute; nothing is on record yet. */
    constructor(callsPerMinute: int)
      ensures Valid() && this.callsPerMinute == callsPerMinute && requests == map[]
    {
      this.callsPerMinute := callsPerMinute;
      requests := map[];
    }

    /**
     * dispatch: the client's record is pruned (or created empty), then the request is refused or
     * recorded as Admit says; the other clients' records are unchanged. A client without an address
     * is the client "unknown".
     */
    method Dispatch(client: string, now: real) returns (allowed: bool)
      requires Valid()
      modifies this
      ensures Valid()
      ensures allowed == Admit(History(old(requests), client), now, callsPerMinute).0
      ensures requests == old(requests)[client := Admit(History(old(requests), client), now, callsPerMinute).1]
    {
      var kept: seq<real>;
      if client in requests {
        kept := Recent(requests[client], now);
      } else {
        kept := [];
      }
      if |kept| >= callsPerMinute {
        requests := requests[client := kept];
        allowed := false;
      } else {
        requests := requests[client := kept + [now]];
        allowed := true;
      }
    }
  }

  /** The operation a request path is counted under: the first of the four that occurs in it. */
  function OperationFor(path: string): (r: Option<string>)
    ensures r == Some("search") <==> Contains(path, "/search")
    ensures r == Some("generate") <==> !Contains(path, "/search") && Contains(path, "/generate")
    ensures r == Some("crawl") <==> !Contains(path, "/search") && !Contains(path, "/generate") && Contains(path, "/crawl")
    ensures r == Some("upload") <==>
      (!Contains(path, "/search") && !Contains(path, "/generate") && !Contains(path, "/crawl") && Contains(path, "/upload"))
    ensures r.Some? ==> r.value in Operations
  {
    if Contains(path, "/search") then Some("search")
    else if Contains(path, "/generate") then Some("generate")
    else if Contains(path, "/crawl") then Some("crawl")
    else if Contains(path, "/upload") then Some("upload")
    else None
  }

  const Operations: set<string> := {"search", "generate", "crawl", "upload"}

  /** The request-logging middleware's counters (a class attribute shared by all instances). */
  class OperationMetrics {
    var opMetrics: map<string, int>

    ghost predicate Valid()
      reads this
    {
      opMetrics.Keys == Operations
    }

    constructor()
      ensures Valid()
      ensures opMetrics == map["search" := 0, "generate" := 0, "crawl" := 0, "upload" := 0]
    {
      opMetrics := map["search" := 0, "generate" := 0, "crawl" := 0, "upload" := 0];
    }

    /** _increment_operation_counter: at most one counter, the path's operation, goes up by one. */
    method IncrementOperationCounter(path: string)
      requires Valid()
      modifies this
      ensures Valid()
      ensures OperationFor(path).Some? ==>
        opMetrics == old(opMetrics)[OperationFor(path).value := old(opMetrics)[OperationFor(path).value] + 1]
      ensures OperationFor(path).None? ==> opMetrics == old(opMetrics)
    {
      var op := OperationFor(path);
      if op.Some? {
        opMetrics := opMetrics[op.value := opMetrics[op.value] + 1];
      }
    }

    /**
     * dispatch: when the downstream handler returns, its status is passed on and the path's counter is
     * bumped; when it raises, the answer is a 500 and no counter changes.
     */
    method Dispatch(path: string, handlerOk: bool, status: int) returns (code: int)
      requires Valid()
      modifies this
      ensures Valid()
      ensures handlerOk ==> code == status
      ensures !handlerOk ==> code == 500 && opMetrics == old(opMetrics)
      ensures handlerOk && OperationFor(path).Some? ==>
        opMetrics == old(opMetrics)[OperationFor(path).value := old(opMetrics)[OperationFor(path).value] + 1]
      ensures handlerOk && OperationFor(path).None? ==> opMetrics == old(opMetrics)
    {
      if handlerOk {
        IncrementOperationCounter(path);
        code := status;
      } else {
        code := 500;
      }
    }
  }

  /** The sum of the four counters. */
  function Total(m: map<string, int>): int
    requires Operations <= m.Keys
  {
    m["search"] + m["generate"] + m["crawl"] + m["upload"]
  }

  /** A request moves the total by at most one, and by one exactly when its path names an operation. */
  lemma IncrementTotal(m: map<string, int>, path: string)
    requires m.Keys == Operations
    ensures OperationFor(path).Some? ==>
      Total(m[OperationFor(path).value := m[OperationFor(path).value] + 1]) == Total(m) + 1
  {
  }

  // ---------------------------------------------------------------- loading the module

  /** The names lines 6-16 bind at module level before the class bodies run. */
  const ModuleNames: set<string> := {"time", "uuid", "Callable", "Request", "Response", "BaseHTTPMiddleware",
    "CORSMiddleware", "JSONResponse", "get_logger", "set_run_id", "clear_context", "log_api_request",
    "get_settings", "logger"}

  /** The outcome of running a class body while the module loads. */
  datatype LoadOutcome = Loaded | NameError(name: string)

  /** A class body reads module-level names in order; the first one that is not bound raises NameError. */
  function LoadClass(bound: set<string>, names: seq<string>): (r: LoadOutcome)
    ensures r == Loaded <==> forall k :: 0 <= k < |names| ==> names[k] in bound
    ensures r.NameError? ==> r.name !in bound && r.name in names
    decreases |names|
  {
    if names == [] then Loaded
    else if names[0] !in bound then NameError(names[0])
    else LoadClass(bound, names[1..])
  }

  /** As written, RequestLoggingMiddleware's `_lock` reads `threading`, which is never imported, so loading the module fails. */
  lemma LoadAsWrittenFails()
    ensures LoadClass(ModuleNames, ["threading"]) == NameError("threading")
  {
    assert |"threading"| == 9;
  }

  /** With `import threading` added the class body runs, and the counters above are reachable. */
  lemma LoadWithImport()
    ensures LoadClass(ModuleNames + {"threading"}, ["threading"]) == Loaded
  {
  }
}
