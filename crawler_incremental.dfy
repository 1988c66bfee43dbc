/**
 * src/crawler_incremental.py: the logNo-based incremental crawl. List pages are walked from
 * page 1; only logNos above the stored last_seen are fetched; the walk stops after a run of
 * empty or no-news pages; the state file is advanced only when something newer was written.
 */
module CrawlerIncremental {
  import opened Wrappers
  import opened Strings
  import opened Collections
  import StateIo

  /** The guard of parse_lognos: an all-digit match of at least 6 characters. */
  predicate IsLognoMatch(m: string)
  {
    AllDigits(m) && |m| >= 6
  }

  /** The accepted matches as integers, in match order, duplicates kept. */
  function LognoValues(matches: seq<string>): (r: seq<int>)
    ensures forall x :: x in r <==> exists m :: m in matches && IsLognoMatch(m) && ParseDigits(m) == x
  {
    if matches == [] then []
    else
      var rest := LognoValues(matches[1..]);
      assert forall m :: m in matches <==> m == matches[0] || m in matches[1..];
      (if IsLognoMatch(matches[0]) then [ParseDigits(matches[0]) as int] else []) + rest
  }

  /**
   * parse_lognos, given every match of the three logNo patterns in the page (the regular
   * expressions themselves are not modelled): the set of accepted values, sorted.
   */
  method ParseLognos(matches: seq<string>) returns (r: seq<int>)
    ensures StrictlyIncreasing(r)
    ensures forall x :: x in r <==> exists m :: m in matches && IsLognoMatch(m) && ParseDigits(m) == x
  {
    r := [];
    for i := 0 to |matches|
      invariant StrictlyIncreasing(r)
      invariant forall x :: x in r <==> x in LognoValues(matches[..i])
    {
      assert matches[..i + 1] == matches[..i] + [matches[i]];
      LognoValuesSnoc(matches[..i], matches[i]);
      if IsLognoMatch(matches[i]) {
        r := Insert(ParseDigits(matches[i]), r);
      }
    }
    assert matches[..|matches|] == matches;
  }

  lemma LognoValuesSnoc(ms: seq<string>, m: string)
    ensures forall x :: x in LognoValues(ms + [m]) <==> x in LognoValues(ms) || (IsLognoMatch(m) && x == ParseDigits(m))
  {
    forall x
      ensures x in LognoValues(ms + [m]) <==> x in LognoValues(ms) || (IsLognoMatch(m) && x == ParseDigits(m))
    {
      if x in LognoValues(ms + [m]) {
        var w :| w in ms + [m] && IsLognoMatch(w) && ParseDigits(w) == x;
      }
      if x in LognoValues(ms) {
        var w :| w in ms && IsLognoMatch(w) && ParseDigits(w) == x;
        assert w in ms + [m];
      }
    }
  }

  /** [ln for ln in lognos if ln > last_seen] */
  function NewOf(lognos: seq<int>, lastSeen: int): (r: seq<int>)
    ensures forall x :: x in r <==> x in lognos && x > lastSeen
    ensures |r| <= |lognos|
  {
    if lognos == [] then []
    else
      var last := lognos[|lognos| - 1];
      var init := NewOf(lognos[..|lognos| - 1], lastSeen);
      assert forall x :: x in lognos <==> x in lognos[..|lognos| - 1] || x == last;
      init + (if last > lastSeen then [last] else [])
  }

  /** The logNos whose detail fetch succeeds, in order; a failed fetch is skipped. */
  function Fetched(lognos: seq<int>, fetchOk: int -> bool): (r: seq<int>)
    ensures forall x :: x in r <==> x in lognos && fetchOk(x)
  {
    if lognos == [] then []
    else
      var last := lognos[|lognos| - 1];
      var init := Fetched(lognos[..|lognos| - 1], fetchOk);
      assert forall x :: x in lognos <==> x in lognos[..|lognos| - 1] || x == last;
      init + (if fetchOk(last) then [last] else [])
  }

  /** How a list page is classified by the loop. */
  datatype PageKind = NoLognos | NoNew | HasNew

  function Kind(lognos: seq<int>, lastSeen: int): PageKind
  {
    if lognos == [] then NoLognos else if NewOf(lognos, lastSeen) == [] then NoNew else HasNew
  }

  /** no_new_pages after visiting pages 1..n: reset by a page with new logNos, else incremented. */
  function Counter(listPage: int -> seq<int>, lastSeen: int, n: nat): nat
  {
    if n == 0 then 0
    else if Kind(listPage(n), lastSeen) == HasNew then 0
    else Counter(listPage, lastSeen, n - 1) + 1
  }

  /** The two stop rules after page n: 3 for a page without logNos, 2 for a page without new ones. */
  predicate StopsAt(listPage: int -> seq<int>, lastSeen: int, n: nat)
  {
    && n > 0
    && var kind := Kind(listPage(n), lastSeen);
       || (kind == NoLognos && Counter(listPage, lastSeen, n) >= 3)
       || (kind == NoNew && Counter(listPage, lastSeen, n) >= 2)
  }

  /** The logNos written to the JSONL file while visiting pages 1..n. */
  function WrittenUpTo(listPage: int -> seq<int>, lastSeen: int, fetchOk: int -> bool, n: nat): seq<int>
  {
    if n == 0 then []
    else WrittenUpTo(listPage, lastSeen, fetchOk, n - 1) + Fetched(NewOf(listPage(n), lastSeen), fetchOk)
  }

  /** The running max_logno: starts at last_seen and is raised by each written logNo. */
  function MaxOr(m: int, s: seq<int>): (r: int)
    ensures r >= m
    ensures forall x :: x in s ==> x <= r
    ensures r == m || r in s
  {
    if s == [] then m
    else
      var init := MaxOr(m, s[..|s| - 1]);
      assert forall x :: x in s ==> x in s[..|s| - 1] || x == s[|s| - 1];
      if s[|s| - 1] > init then s[|s| - 1] else init
  }

  function Cap(maxPages: int): nat
  {
    if maxPages < 0 then 0 else maxPages
  }

  /** The detail loop of one page: each new logNo is fetched; a success is written and may raise max_logno. */
  method FetchPage(newLognos: seq<int>, fetchOk: int -> bool, lastSeen: int, written0: seq<int>, max0: int)
    returns (written: seq<int>, maxLogno: int)
    requires max0 == MaxOr(lastSeen, written0)
    ensures written == written0 + Fetched(newLognos, fetchOk)
    ensures maxLogno == MaxOr(lastSeen, written)
  {
    written, maxLogno := written0, max0;
    var i := 0;
    while i < |newLognos|
      invariant 0 <= i <= |newLognos|
      invariant written == written0 + Fetched(newLognos[..i], fetchOk)
      invariant maxLogno == MaxOr(lastSeen, written)
    {
      var logno := newLognos[i];
      assert newLognos[..i + 1][..i] == newLognos[..i];
      if fetchOk(logno) {
        var before := written;
        written := written + [logno];
        assert written[..|written| - 1] == before;
        if logno > maxLogno {
          maxLogno := logno;
        }
      }
      i := i + 1;
    }
    assert newLognos[..i] == newLognos;
  }

  /** Each of pages 1..n was listed without raising and met no stop rule. */
  predicate NoStopUpTo(listPage: int -> seq<int>, listOk: int -> bool, lastSeen: int, n: nat)
  {
    n == 0 || (NoStopUpTo(listPage, listOk, lastSeen, n - 1) && listOk(n) && !StopsAt(listPage, lastSeen, n))
  }

  lemma {:induction false} NoStopUpToAll(listPage: int -> seq<int>, listOk: int -> bool, lastSeen: int, n: nat)
    requires NoStopUpTo(listPage, listOk, lastSeen, n)
    ensures forall k :: 0 < k <= n ==> listOk(k) && !StopsAt(listPage, lastSeen, k)
  {
    if n > 0 {
      NoStopUpToAll(listPage, listOk, lastSeen, n - 1);
    }
  }

  /** One pass of the page loop of run_incremental_crawl: list page n, update no_new_pages, maybe stop, else fetch its new logNos. */
  method VisitPage(lastSeen: int, listPage: int -> seq<int>, fetchOk: int -> bool, page: nat,
                   noNewPages: nat, written: seq<int>, maxLogno: int)
    returns (stop: bool, noNewPages': nat, written': seq<int>, maxLogno': int)
    requires page > 0
    requires noNewPages == Counter(listPage, lastSeen, page - 1)
    requires written == WrittenUpTo(listPage, lastSeen, fetchOk, page - 1)
    requires maxLogno == MaxOr(lastSeen, written)
    ensures stop <==> StopsAt(listPage, lastSeen, page)
    ensures noNewPages' == Counter(listPage, lastSeen, page)
    ensures written' == WrittenUpTo(listPage, lastSeen, fetchOk, page)
    ensures maxLogno' == MaxOr(lastSeen, written')
  {
    var lognos := listPage(page);
    written', maxLogno' := written, maxLogno;
    if lognos == [] {
      noNewPages' := noNewPages + 1;
      stop := noNewPages' >= 3;
      assert WrittenUpTo(listPage, lastSeen, fetchOk, page) == written + [];
      return;
    }
    var newLognos := NewOf(lognos, lastSeen);
    stop := false;
    if newLognos == [] {
      noNewPages' := noNewPages + 1;
      if noNewPages' >= 2 {
        stop := true;
        assert WrittenUpTo(listPage, lastSeen, fetchOk, page) == written + [];
        return;
      }
    } else {
      noNewPages' := 0;
    }
    written', maxLogno' := FetchPage(newLognos, fetchOk, lastSeen, written, maxLogno);
  }

  /**
   * The loop state of run_incremental_crawl after page n: no_new_pages, the written lines and
   * max_logno are those of pages 1..n, and every page before a stop was listed and met no stop rule.
   */
  predicate WalkInv(listPage: int -> seq<int>, listOk: int -> bool, fetchOk: int -> bool, lastSeen: int,
                    n: nat, stopped: bool, noNewPages: nat, written: seq<int>, maxLogno: int)
  {
    && noNewPages == Counter(listPage, lastSeen, n)
    && (stopped ==> n > 0 && listOk(n) && StopsAt(listPage, lastSeen, n))
    && NoStopUpTo(listPage, listOk, lastSeen, if stopped then n - 1 else n)
    && written == WrittenUpTo(listPage, lastSeen, fetchOk, n)
    && maxLogno == MaxOr(lastSeen, written)
  }

  /** One turn of the page loop once page n + 1 was listed: the loop state moves to page n + 1. */
  method Advance(listPage: int -> seq<int>, listOk: int -> bool, fetchOk: int -> bool, lastSeen: int,
                 n: nat, noNewPages: nat, written: seq<int>, maxLogno: int)
    returns (stopped': bool, noNewPages': nat, written': seq<int>, maxLogno': int)
    requires listOk(n + 1)
    requires WalkInv(listPage, listOk, fetchOk, lastSeen, n, false, noNewPages, written, maxLogno)
    ensures WalkInv(listPage, listOk, fetchOk, lastSeen, n + 1, stopped', noNewPages', written', maxLogno')
  {
    stopped', noNewPages', written', maxLogno' := VisitPage(lastSeen, listPage, fetchOk, n + 1, noNewPages, written, maxLogno);
  }

  /**
   * The walk ended cleanly after page n: pages 1..n were listed, none before n met a stop rule, it
   * stopped at max_pages or by page n's stop rule, and `written` holds the lines of those pages.
   */
  predicate Completed(listPage: int -> seq<int>, listOk: int -> bool, fetchOk: int -> bool, lastSeen: int,
                      maxPages: int, n: nat, written: seq<int>)
  {
    && n <= Cap(maxPages)
    && (forall k :: 0 < k <= n ==> listOk(k))
    && (forall k :: 0 < k < n ==> !StopsAt(listPage, lastSeen, k))
    && (n == Cap(maxPages) || StopsAt(listPage, lastSeen, n))
    && written == WrittenUpTo(listPage, lastSeen, fetchOk, n)
  }

  /**
   * The listing of page n + 1 raised: pages 1..n were listed and met no stop rule, page n + 1 is
   * within max_pages, and `written` holds the lines of pages 1..n.
   */
  predicate AbortedAfter(listPage: int -> seq<int>, listOk: int -> bool, fetchOk: int -> bool, lastSeen: int,
                         maxPages: int, n: nat, written: seq<int>)
  {
    && n < Cap(maxPages) && !listOk(n + 1)
    && (forall k :: 0 < k <= n ==> listOk(k) && !StopsAt(listPage, lastSeen, k))
    && written == WrittenUpTo(listPage, lastSeen, fetchOk, n)
  }

  /**
   * The page loop of run_incremental_crawl for a given last_seen. `pages` counts the pages fully
   * processed. The loop aborts exactly when the listing of the next page raises, with the lines of
   * the earlier pages already written; otherwise it ends at max_pages or by a stop rule.
   */
  method CrawlPages(lastSeen: int, maxPages: int, listPage: int -> seq<int>, listOk: int -> bool, fetchOk: int -> bool)
    returns (aborted: bool, written: seq<int>, maxLogno: int, pages: nat)
    ensures aborted ==> AbortedAfter(listPage, listOk, fetchOk, lastSeen, maxPages, pages, written)
    ensures !aborted ==> Completed(listPage, listOk, fetchOk, lastSeen, maxPages, pages, written)
    ensures maxLogno == MaxOr(lastSeen, written)
  {
    maxLogno := lastSeen;
    var noNewPages: nat := 0;
    written := [];
    pages := 0;
    var stopped := false;
    while !stopped && pages < Cap(maxPages) && listOk(pages + 1)
      invariant pages <= Cap(maxPages)
      invariant WalkInv(listPage, listOk, fetchOk, lastSeen, pages, stopped, noNewPages, written, maxLogno)
      decreases Cap(maxPages) - pages, if stopped then 0 else 1
    {
      stopped, noNewPages, written, maxLogno := Advance(listPage, listOk, fetchOk, lastSeen, pages, noNewPages, written, maxLogno);
      pages := pages + 1;
    }
    NoStopUpToAll(listPage, listOk, lastSeen, if stopped then pages - 1 else pages);
    // fetch_list_page raised on the next page: nothing in the loop catches it
    aborted := !stopped && pages < Cap(maxPages);
  }

  datatype CrawlRun = CrawlRun(written: seq<int>, newCount: nat, maxLogno: int, pagesVisited: nat, stateAfter: StateIo.StateFile)

  /**
   * Why run_incremental_crawl raises: the state file cannot be read, or the listing of page
   * listed + 1 raised after the lines of pages 1..listed were written (the state file is then not
   * updated).
   */
  datatype CrawlFailure = StateUnreadable(error: StateIo.LoadError) | ListFetchRaised(listed: nat, written: seq<int>)

  /**
   * run_incremental_crawl. The list page parser's output for page p is listPage(p), listOk(p) tells
   * whether fetch_list_page returns for page p, and fetchOk(logno) whether fetch_post_detail
   * succeeds. A state file that load_last_seen cannot read (AttributeError) aborts the run before
   * anything is written; a raising list fetch is re-raised by the outer handler.
   */
  method RunIncrementalCrawl(stateFile: StateIo.StateFile, maxPages: int, listPage: int -> seq<int>,
                             listOk: int -> bool, fetchOk: int -> bool, now: string)
    returns (r: Result<CrawlRun, CrawlFailure>)
    ensures StateIo.LoadLastSeen(stateFile).Err? ==> r == Err(StateUnreadable(StateIo.LoadLastSeen(stateFile).error))
    ensures r.Err? && r.error.ListFetchRaised? ==>
      && StateIo.LoadLastSeen(stateFile).Ok?
      && AbortedAfter(listPage, listOk, fetchOk, StateIo.LoadLastSeen(stateFile).value, maxPages, r.error.listed, r.error.written)
    ensures r.Ok? ==>
      var lastSeen := StateIo.LoadLastSeen(stateFile).value;
      var run := r.value;
      && StateIo.LoadLastSeen(stateFile).Ok?
      && Completed(listPage, listOk, fetchOk, lastSeen, maxPages, run.pagesVisited, run.written)
      && run.newCount == |run.written|
      && run.maxLogno == MaxOr(lastSeen, run.written)
      && run.stateAfter == (if run.maxLogno > lastSeen then StateIo.SaveLastSeen(run.maxLogno, now) else stateFile)
      && StateIo.LoadLastSeen(run.stateAfter) == Ok(run.maxLogno)
      && run.maxLogno >= lastSeen
  {
    var loaded := StateIo.LoadLastSeen(stateFile);
    if loaded.Err? {
      return Err(StateUnreadable(loaded.error));
    }
    var lastSeen := loaded.value;
    var aborted, written, maxLogno, visited := CrawlPages(lastSeen, maxPages, listPage, listOk, fetchOk);
    if aborted {
      return Err(ListFetchRaised(visited, written));
    }
    var stateAfter := if maxLogno > lastSeen then StateIo.SaveLastSeen(maxLogno, now) else stateFile;
    r := Ok(CrawlRun(written, |written|, maxLogno, visited, stateAfter));
  }

  /**
   * Every written logNo is above last_seen, was fetched successfully and appeared on one of the
   * visited list pages.
   */
  lemma {:induction false} WrittenAreNew(listPage: int -> seq<int>, lastSeen: int, fetchOk: int -> bool, n: nat)
    ensures forall x :: x in WrittenUpTo(listPage, lastSeen, fetchOk, n) ==>
      x > lastSeen && fetchOk(x) && exists p :: 1 <= p <= n && x in listPage(p)
  {
    if n > 0 {
      WrittenAreNew(listPage, lastSeen, fetchOk, n - 1);
      forall x | x in WrittenUpTo(listPage, lastSeen, fetchOk, n)
        ensures x > lastSeen && fetchOk(x) && exists p :: 1 <= p <= n && x in listPage(p)
      {
        if x !in WrittenUpTo(listPage, lastSeen, fetchOk, n - 1) {
          assert x in listPage(n);
        }
      }
    }
  }

  /**
   * The next run starts from the advanced checkpoint, so none of the logNos written by this
   * run counts as new again.
   */
  lemma NextRunSkipsWritten(lastSeen: int, written: seq<int>, lognos: seq<int>)
    ensures forall x :: x in written ==> x !in NewOf(lognos, MaxOr(lastSeen, written))
  {
  }
}
