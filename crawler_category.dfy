/**
 * src/crawler.py: file-name sanitising, the page-count arithmetic of get_category_total, and
 * the filter, stop rules and per-category state update of crawl_category. Listing and post
 * fetches are inputs: the listing is the finite sequence of logNo lists of pages 1, 2, ...
 * (every later page is empty) and fetchOk tells which post fetches succeed.
 */
module CrawlerCategory {
  import opened Wrappers
  import opened Strings
  import opened Collections

  /** The character class `[\\/:*?"<>|]` of sanitize_filename. */
  predicate IsForbiddenFileChar(c: char)
  {
    c == '\\' || c == '/' || c == ':' || c == '*' || c == '?' || c == '"' || c == '<' || c == '>' || c == '|'
  }

  function ReplaceForbidden(s: string): (r: string)
    ensures |r| == |s|
  {
    seq(|s|, i requires 0 <= i < |s| => if IsForbiddenFileChar(s[i]) then '_' else s[i])
  }

  /** sanitize_filename */
  function SanitizeFilename(s: string): string
  {
    Strip(ReplaceForbidden(s))
  }

  /**
   * The sanitised name is a run of s, with leading and trailing whitespace dropped, in which
   * every forbidden character became '_' and every other character is kept; so it holds no
   * forbidden character and neither starts nor ends with whitespace.
   */
  lemma SanitizeFilenameShape(s: string)
    ensures var r := SanitizeFilename(s); var k := LeadingSpaces(ReplaceForbidden(s));
      && k + |r| <= |s|
      && (forall j :: 0 <= j < |r| ==> r[j] == (if IsForbiddenFileChar(s[k + j]) then '_' else s[k + j]))
      && (forall j :: 0 <= j < |r| ==> !IsForbiddenFileChar(r[j]))
      && (r == [] || (!IsSpace(r[0]) && !IsSpace(r[|r| - 1])))
  {
    StripShape(ReplaceForbidden(s));
  }

  function Max(a: int, b: int): int { if a >= b then a else b }
  function Min(a: int, b: int): int { if a <= b then a else b }

  /** `max(1, (total - 1) // count_per_page + 1) if total else 1` */
  function LastPage(total: int, perPage: int): (r: int)
    requires perPage > 0
    ensures r >= 1
    ensures total <= 0 ==> r == 1
  {
    if total == 0 then 1 else Max(1, (total - 1) / perPage + 1)
  }

  /** For a positive total the last page is the ceiling of total / perPage. */
  lemma LastPageIsCeiling(total: int, perPage: int)
    requires perPage > 0 && total > 0
    ensures (LastPage(total, perPage) - 1) * perPage < total <= LastPage(total, perPage) * perPage
  {
    var q := (total - 1) / perPage;
    assert q >= 0;
    assert q * perPage <= total - 1 < q * perPage + perPage;
    assert LastPage(total, perPage) == q + 1;
    assert (q + 1) * perPage == q * perPage + perPage;
  }

  /** The desktop-walk estimate: full pages before the last one, plus the last page's count. */
  function DesktopWalkTotal(maxPage: int, pageSize: int, lastCount: int): int
  {
    (maxPage - 1) * pageSize + lastCount
  }

  /**
   * The desktop-walk estimate is consistent with the page arithmetic: with a last page holding
   * between 1 and page_size posts, the page count derived from the estimate is max_page again.
   */
  lemma DesktopWalkLastPage(maxPage: int, pageSize: int, lastCount: int)
    requires maxPage >= 1 && pageSize > 0 && 1 <= lastCount <= pageSize
    ensures DesktopWalkTotal(maxPage, pageSize, lastCount) > 0
    ensures LastPage(DesktopWalkTotal(maxPage, pageSize, lastCount), pageSize) == maxPage
  {
    var q := maxPage - 1;
    assert q * pageSize >= 0;
    DivOf(q, pageSize, lastCount - 1);
    assert DesktopWalkTotal(maxPage, pageSize, lastCount) - 1 == q * pageSize + (lastCount - 1);
  }

  /** Integer division recovers the quotient of q * p + r when 0 <= r < p. */
  lemma DivOf(q: int, p: int, r: int)
    requires p > 0 && 0 <= r < p
    ensures (q * p + r) / p == q
  {
    var n := q * p + r;
    var d := n / p;
    var m := n % p;
    assert d * p + m == q * p + r;
    assert (d - q) * p == r - m;
    MulBound(d - q, p);
  }

  lemma MulBound(a: int, p: int)
    requires p > 0
    ensures a >= 1 ==> a * p >= p
    ensures a <= -1 ==> a * p <= -p
  {
    if a >= 1 {
      assert a * p == (a - 1) * p + p;
    } else if a <= -1 {
      assert a * p == (a + 1) * p - p;
    }
  }

  /** effective_max_pages: bounded by the pages left from start_page when the total is known. */
  function EffectiveMaxPages(total: int, lastPage: int, maxPages: int, startPage: int): (r: int)
    ensures total == 0 ==> r == maxPages
    ensures total != 0 ==> 0 <= r && r <= Max(0, maxPages) && r <= Max(0, lastPage - startPage + 1)
  {
    if total == 0 then maxPages else Max(0, Min(maxPages, lastPage - startPage + 1))
  }

  /** A logNo as the listing returns it: a non-empty string of digits. */
  type LognoText = s: string | AllDigits(s) witness "0"

  /** `last_log_no and int(ln) <= int(last_log_no)`: an unset or zero checkpoint filters nothing. */
  predicate AtOrBelowCheckpoint(ln: LognoText, lastLogNo: Option<int>)
  {
    lastLogNo.Some? && lastLogNo.value != 0 && ParseDigits(ln) <= lastLogNo.value
  }

  /** A logNo of the page survives the filter: above the checkpoint and not seen before. */
  predicate Admissible(ln: LognoText, lastLogNo: Option<int>, seenSession: set<string>, seenAlready: set<string>)
  {
    !AtOrBelowCheckpoint(ln, lastLogNo) && ln !in seenSession && ln !in seenAlready
  }

  /** The filtering loop of one page; seen_session grows by exactly the kept logNos. */
  method FilterPage(lognos: seq<LognoText>, lastLogNo: Option<int>, seenSession: set<string>, seenAlready: set<string>)
    returns (filtered: seq<LognoText>, seen: set<string>)
    ensures forall x :: x in filtered <==> x in lognos && Admissible(x, lastLogNo, seenSession, seenAlready)
    ensures Distinct(filtered)
    ensures seen == seenSession + (set x: string | x in filtered)
  {
    filtered := [];
    seen := seenSession;
    for i := 0 to |lognos|
      invariant forall x :: x in filtered <==> x in lognos[..i] && Admissible(x, lastLogNo, seenSession, seenAlready)
      invariant Distinct(filtered)
      invariant seen == seenSession + (set x: string | x in filtered)
    {
      var ln := lognos[i];
      assert lognos[..i + 1] == lognos[..i] + [ln];
      if AtOrBelowCheckpoint(ln, lastLogNo) {
        continue;
      }
      if ln in seen || ln in seenAlready {
        continue;
      }
      seen := seen + {ln};
      filtered := filtered + [ln];
    }
    assert lognos[..|lognos|] == lognos;
  }

  datatype PostRecord = PostRecord(postNo: LognoText, page: int)

  function PostNos(rs: seq<PostRecord>): (r: seq<LognoText>)
    ensures |r| == |rs| && forall k :: 0 <= k < |rs| ==> r[k] == rs[k].postNo
  {
    seq(|rs|, k requires 0 <= k < |rs| => rs[k].postNo)
  }

  /** The records collected from one page: each logNo in order whose fetch succeeds. */
  function FetchedRecords(lns: seq<LognoText>, fetchOk: LognoText -> bool, page: int): (r: seq<PostRecord>)
    ensures forall k :: 0 <= k < |r| ==> r[k].page == page
    ensures forall x :: x in PostNos(r) <==> x in lns && fetchOk(x)
    ensures Distinct(lns) ==> Distinct(PostNos(r))
  {
    if lns == [] then []
    else
      var init := FetchedRecords(lns[..|lns| - 1], fetchOk, page);
      var last := lns[|lns| - 1];
      assert forall x :: x in lns <==> x in lns[..|lns| - 1] || x == last;
      var r := init + (if fetchOk(last) then [PostRecord(last, page)] else []);
      assert PostNos(r) == PostNos(init) + (if fetchOk(last) then [last] else []);
      r
  }

  /** `for ln in sorted(filtered)`: fetch in string order, keeping the successes. */
  method FetchPosts(lns: seq<LognoText>, fetchOk: LognoText -> bool, page: int) returns (recs: seq<PostRecord>)
    ensures recs == FetchedRecords(lns, fetchOk, page)
  {
    recs := [];
    for i := 0 to |lns|
      invariant recs == FetchedRecords(lns[..i], fetchOk, page)
    {
      assert lns[..i + 1][..i] == lns[..i];
      if fetchOk(lns[i]) {
        recs := recs + [PostRecord(lns[i], page)];
      }
    }
    assert lns[..|lns|] == lns;
  }

  /** The per-category entry of the crawl state. */
  datatype CategoryState = CategoryState(lastLogNo: int, lastPage: int, updatedAt: string, name: string)

  datatype StopReason = PageLimit | EmptyPages | RepeatedPages | NothingNew

  /** Page p of the listing; pages outside it are empty. */
  function ListingPage(listing: seq<seq<LognoText>>, page: int): seq<LognoText>
  {
    if 1 <= page <= |listing| then listing[page - 1] else []
  }

  /** `",".join(lognos[:10])` */
  function Signature(lognos: seq<LognoText>): string
  {
    Join(lognos[..Min(10, |lognos|)], ",")
  }

  /** What the stop rules of one category's walk depend on: the listing, the first page, the checkpoint and the output file's logNos. */
  datatype Walk = Walk(listing: seq<seq<LognoText>>, startPage: int, lastLogNo: Option<int>, seenAlready: set<string>)

  /** A logNo that passes the checkpoint and is not in the output file; it is collected unless an earlier page had it. */
  predicate Fresh(w: Walk, x: LognoText)
  {
    !AtOrBelowCheckpoint(x, w.lastLogNo) && x !in w.seenAlready
  }

  /** seen_session when page n is reached without a stop: every fresh logNo of the pages before it. */
  ghost function SeenBefore(w: Walk, n: int): set<string>
    decreases n - w.startPage
  {
    if n <= w.startPage then {}
    else SeenBefore(w, n - 1) + (set x: LognoText | x in ListingPage(w.listing, n - 1) && Fresh(w, x) :: x)
  }

  /** Page n has no logNo new to the session. */
  ghost predicate NoNew(w: Walk, n: int)
  {
    forall x :: x in ListingPage(w.listing, n) && Fresh(w, x) ==> x in SeenBefore(w, n)
  }

  /** empty_streak after page n: the empty pages in a row ending at n. */
  function EmptyStreak(w: Walk, n: int): nat
    decreases n - w.startPage + 1
  {
    if n < w.startPage then 0
    else if ListingPage(w.listing, n) == [] then EmptyStreak(w, n - 1) + 1
    else 0
  }

  /** prev_sig after page n: the signature of the last non-empty page up to n. */
  function PrevSig(w: Walk, n: int): Option<string>
    decreases n - w.startPage + 1
  {
    if n < w.startPage then None
    else if ListingPage(w.listing, n) == [] then PrevSig(w, n - 1)
    else Some(Signature(ListingPage(w.listing, n)))
  }

  /** repeat_hits after page n: how many non-empty pages in a row repeated the signature before them. */
  function RepeatHits(w: Walk, n: int): nat
    decreases n - w.startPage + 1
  {
    if n < w.startPage then 0
    else if ListingPage(w.listing, n) == [] then RepeatHits(w, n - 1)
    else if PrevSig(w, n - 1) == Some(Signature(ListingPage(w.listing, n))) then RepeatHits(w, n - 1) + 1
    else 0
  }

  /** A set, non-zero checkpoint: the only case in which pages without new logNos count towards a stop. */
  predicate Checkpointed(w: Walk)
  {
    w.lastLogNo.Some? && w.lastLogNo.value != 0
  }

  /** consecutive_empty after page n: the non-empty pages in a row without a new logNo, under a checkpoint. */
  ghost function NoNewStreak(w: Walk, n: int): nat
    decreases n - w.startPage + 1
  {
    if n < w.startPage then 0
    else if ListingPage(w.listing, n) == [] then NoNewStreak(w, n - 1)
    else if NoNew(w, n) && Checkpointed(w) then NoNewStreak(w, n - 1) + 1
    else 0
  }

  /**
   * The stop rule that fires on page n, reached without an earlier stop: a third empty page in a
   * row, a third non-empty page in a row with the same first ten logNos, or a second non-empty page
   * in a row with nothing new under a checkpoint.
   */
  ghost function StopAt(w: Walk, n: int): Option<StopReason>
  {
    if ListingPage(w.listing, n) == [] then
      if EmptyStreak(w, n) >= 3 then Some(EmptyPages) else None
    else if RepeatHits(w, n) >= 2 then Some(RepeatedPages)
    else if NoNewStreak(w, n) >= 2 then Some(NothingNew)
    else None
  }

  /** A fresh logNo of a page before n is in the session set reached at n. */
  lemma {:induction false} SeenBeforeHas(w: Walk, p: int, n: int, x: LognoText)
    requires w.startPage <= p < n && x in ListingPage(w.listing, p) && Fresh(w, x)
    ensures x in SeenBefore(w, n)
    decreases n - p
  {
    if p < n - 1 {
      SeenBeforeHas(w, p, n - 1, x);
    }
  }

  /** The session set only holds fresh logNos. */
  lemma {:induction false} SeenBeforeFresh(w: Walk, n: int, x: LognoText)
    requires x in SeenBefore(w, n)
    ensures Fresh(w, x)
    decreases n - w.startPage
  {
    if n > w.startPage && x in SeenBefore(w, n - 1) {
      SeenBeforeFresh(w, n - 1, x);
    }
  }

  /** `max([int(r["post_no"]) for r in results], default=prev.get("last_log_no", 0) or 0)` */
  function NewMax(results: seq<PostRecord>, lastLogNo: Option<int>): (r: int)
    ensures results == [] ==> r == lastLogNo.GetOr(0)
    ensures forall k :: 0 <= k < |results| ==> ParseDigits(results[k].postNo) <= r
    ensures results != [] ==> exists k :: 0 <= k < |results| && r == ParseDigits(results[k].postNo)
  {
    if results == [] then lastLogNo.GetOr(0)
    else if |results| == 1 then ParseDigits(results[0].postNo)
    else
      var m := NewMax(results[1..], lastLogNo);
      assert forall k :: 1 <= k < |results| ==> results[k] == results[1..][k - 1];
      if ParseDigits(results[0].postNo) >= m then ParseDigits(results[0].postNo) else m
  }

  /** The name of the per-category output file written at the end of crawl_category. */
  function CategoryFileName(catNo: int, catName: string): string
  {
    IntToString(catNo) + "_" + SanitizeFilename(if catName != "" then catName else IntToString(catNo)) + ".json"
  }

  /** Records of a page whose logNos were new to the session keep the collected logNos distinct. */
  lemma AppendPage(results: seq<PostRecord>, recs: seq<PostRecord>, seenSession: set<string>, seen: set<string>,
                   filtered: seq<LognoText>)
    requires Distinct(PostNos(results)) && forall k :: 0 <= k < |results| ==> results[k].postNo in seenSession
    requires Distinct(PostNos(recs))
    requires forall x :: x in PostNos(recs) ==> x in filtered && x !in seenSession
    requires seen == seenSession + (set x: string | x in filtered)
    ensures Distinct(PostNos(results + recs))
    ensures forall k :: 0 <= k < |results + recs| ==> (results + recs)[k].postNo in seen
  {
    var all := results + recs;
    forall i, j | 0 <= i < j < |all|
      ensures all[i].postNo != all[j].postNo
    {
      if j >= |results| && i < |results| {
        assert all[j].postNo == PostNos(recs)[j - |results|];
      } else if i >= |results| {
        assert all[i].postNo == PostNos(recs)[i - |results|];
        assert all[j].postNo == PostNos(recs)[j - |results|];
      } else {
        assert all[i].postNo == PostNos(results)[i];
        assert all[j].postNo == PostNos(results)[j];
      }
    }
    forall k | 0 <= k < |all|
      ensures all[k].postNo in seen
    {
      if k >= |results| {
        assert all[k].postNo == PostNos(recs)[k - |results|];
      }
    }
  }

  /** sorted() on logNo strings: string order, which is numeric order only among equal lengths. */
  function SortLognos(lns: seq<LognoText>): (r: seq<LognoText>)
    ensures LexSorted(r) && multiset(r) == multiset(lns)
    ensures Distinct(lns) ==> Distinct(r)
  {
    var sorted := SortLex(lns);
    assert forall i :: 0 <= i < |sorted| ==> sorted[i] in multiset(lns);
    if Distinct(lns) then DistinctPermutation(lns, sorted); sorted else sorted
  }

  /** What crawl_category has collected before visiting `page`. */
  ghost predicate Collected(results: seq<PostRecord>, lastLogNo: Option<int>, seenAlready: set<string>, seenSession: set<string>,
                            fetchOk: LognoText -> bool, listing: seq<seq<LognoText>>, startPage: int, page: int)
  {
    && (forall k :: 0 <= k < |results| ==>
          && !AtOrBelowCheckpoint(results[k].postNo, lastLogNo)
          && results[k].postNo !in seenAlready
          && results[k].postNo in seenSession
          && fetchOk(results[k].postNo)
          && startPage <= results[k].page < page
          && results[k].postNo in ListingPage(listing, results[k].page))
    && Distinct(PostNos(results))
  }

  /** Fetching the filtered logNos of one page in sorted order and appending the successes. */
  method CollectPage(results: seq<PostRecord>, filtered: seq<LognoText>, seen: set<string>, fetchOk: LognoText -> bool,
                     page: int, ghost lastLogNo: Option<int>, ghost seenAlready: set<string>, ghost seenSession: set<string>,
                     ghost listing: seq<seq<LognoText>>, ghost startPage: int)
    returns (results': seq<PostRecord>)
    requires startPage <= page
    requires Collected(results, lastLogNo, seenAlready, seenSession, fetchOk, listing, startPage, page)
    requires forall x :: x in filtered <==> x in ListingPage(listing, page) && Admissible(x, lastLogNo, seenSession, seenAlready)
    requires Distinct(filtered)
    requires seen == seenSession + (set x: string | x in filtered)
    ensures Collected(results', lastLogNo, seenAlready, seen, fetchOk, listing, startPage, page + 1)
    ensures forall x :: x in PostNos(results) ==> x in PostNos(results')
    ensures forall x :: x in filtered && fetchOk(x) ==> x in PostNos(results')
  {
    var order := SortLognos(filtered);
    var recs := FetchPosts(order, fetchOk, page);
    assert forall x :: x in PostNos(recs) ==> x in multiset(order);
    AppendPage(results, recs, seenSession, seen, filtered);
    results' := results + recs;
    FetchedCover(filtered, order, fetchOk, page);
    PostNosAppend(results, recs);
    forall k | 0 <= k < |results'|
      ensures && !AtOrBelowCheckpoint(results'[k].postNo, lastLogNo)
              && results'[k].postNo !in seenAlready
              && fetchOk(results'[k].postNo)
              && startPage <= results'[k].page < page + 1
              && results'[k].postNo in ListingPage(listing, results'[k].page)
    {
      if k >= |results| {
        assert results'[k] == recs[k - |results|];
        assert results'[k].postNo == PostNos(recs)[k - |results|];
      }
    }
  }

  /** The checkpoint of a category: its last_log_no in the crawl state, if it has an entry. */
  function Checkpoint(categories: map<string, CategoryState>, catNo: int): Option<int>
  {
    var key := IntToString(catNo);
    if key in categories then Some(categories[key].lastLogNo) else None
  }

  /** Fetching a reordering of the filtered logNos collects every one of them whose fetch succeeds. */
  lemma FetchedCover(filtered: seq<LognoText>, order: seq<LognoText>, fetchOk: LognoText -> bool, page: int)
    requires multiset(order) == multiset(filtered)
    ensures forall x :: x in filtered && fetchOk(x) ==> x in PostNos(FetchedRecords(order, fetchOk, page))
  {
    forall x | x in filtered && fetchOk(x) ensures x in PostNos(FetchedRecords(order, fetchOk, page)) {
      assert x in multiset(order);
    }
  }

  lemma PostNosAppend(a: seq<PostRecord>, b: seq<PostRecord>)
    ensures PostNos(a + b) == PostNos(a) + PostNos(b)
  {
  }

  /**
   * crawl_category after get_category_total (total and last_page are its results): the page walk,
   * then the category's state entry, which holds the new maximum, never below the previous checkpoint.
   */
  method CrawlCategory(catNo: int, catName: string, startPage: int, maxPages: int, total: int, lastPage: int,
                       categories: map<string, CategoryState>, seenAlready: set<string>,
                       listing: seq<seq<LognoText>>, fetchOk: LognoText -> bool, now: string)
    returns (results: seq<PostRecord>, newCategories: map<string, CategoryState>, stop: StopReason, ghost endPage: int)
    ensures var w := Walk(listing, startPage, Checkpoint(categories, catNo), seenAlready);
      Walked(w, EffectiveMaxPages(total, lastPage, maxPages, startPage), fetchOk, results, stop, endPage)
    ensures var lastLogNo := Checkpoint(categories, catNo);
      && newCategories == categories[IntToString(catNo) := CategoryState(NewMax(results, lastLogNo), lastPage, now, catName)]
      && NewMax(results, lastLogNo) >= lastLogNo.GetOr(0)
  {
    var eff := EffectiveMaxPages(total, lastPage, maxPages, startPage);
    var key := IntToString(catNo);
    var lastLogNo := if key in categories then Some(categories[key].lastLogNo) else None;
    results, stop, endPage := WalkPages(Walk(listing, startPage, lastLogNo, seenAlready), eff, fetchOk);
    newCategories := categories[key := CategoryState(NewMax(results, lastLogNo), lastPage, now, catName)];
  }

  /**
   * The outcome of a category's page walk with effective_max_pages eff. It visits the pages from
   * start_page up to endPage, none of which triggers a stop rule; it ends either at the page limit,
   * when eff is non-zero, or on page endPage by the rule StopAt names. Every collected post is
   * admissible: above a set checkpoint, not in the output file, fetched, from a visited page, and
   * collected once; and every fresh logNo of a visited page whose fetch succeeds is collected.
   */
  ghost predicate Walked(w: Walk, eff: int, fetchOk: LognoText -> bool, results: seq<PostRecord>, stop: StopReason, endPage: int)
  {
    && w.startPage <= endPage
    && (forall p :: w.startPage <= p < endPage ==> StopAt(w, p).None?)
    && (stop == PageLimit ==> eff != 0 && endPage == Max(w.startPage, w.startPage + eff))
    && (stop != PageLimit ==> (eff == 0 || endPage < w.startPage + eff) && StopAt(w, endPage) == Some(stop))
    && (forall k :: 0 <= k < |results| ==>
          && !AtOrBelowCheckpoint(results[k].postNo, w.lastLogNo)
          && results[k].postNo !in w.seenAlready
          && fetchOk(results[k].postNo)
          && w.startPage <= results[k].page < endPage
          && results[k].postNo in ListingPage(w.listing, results[k].page))
    && Distinct(PostNos(results))
    && (forall p, x :: w.startPage <= p < endPage && x in ListingPage(w.listing, p) && Fresh(w, x) && fetchOk(x) ==> x in PostNos(results))
  }

  /** The while loop of crawl_category over the pages from start_page. */
  method WalkPages(w: Walk, eff: int, fetchOk: LognoText -> bool)
    returns (results: seq<PostRecord>, stop: StopReason, ghost endPage: int)
    ensures Walked(w, eff, fetchOk, results, stop, endPage)
  {
    var page := w.startPage;
    var stopAt := w.startPage + eff - 1;
    var emptyStreak := 0;
    var consecutiveEmpty := 0;
    var prevSig: Option<string> := None;
    var repeatHits := 0;
    var seenSession: set<string> := {};
    results := [];
    stop := PageLimit;
    ghost var bound := Max(|w.listing|, w.startPage - 1);
    while eff == 0 || page <= stopAt
      invariant w.startPage <= page && 0 <= emptyStreak <= 2
      invariant eff != 0 ==> page <= Max(w.startPage, w.startPage + eff)
      invariant page > bound ==> emptyStreak >= page - bound - 1
      invariant stop == PageLimit
      invariant Reached(w, fetchOk, page, results, seenSession, emptyStreak, prevSig, repeatHits, consecutiveEmpty)
      decreases bound + 3 - page
    {
      var lognos := ListingPage(w.listing, page);
      if lognos == [] {
        EmptyPageStep(w, page);
        page := page + 1;
        emptyStreak := emptyStreak + 1;
        if emptyStreak >= 3 {
          stop := EmptyPages;
          endPage := page - 1;
          break;
        }
        NoStopStep(w, page - 1);
        continue;
      }
      ListedPageStep(w, page);
      emptyStreak := 0;
      var results', seen, prevSig', repeatHits', consecutiveEmpty', stopped :=
        VisitListedPage(w, page, fetchOk, results, seenSession, prevSig, repeatHits, consecutiveEmpty);
      if stopped.Some? {
        stop := stopped.value;
        endPage := page;
        break;
      }
      NoStopStep(w, page);
      results, seenSession, prevSig, repeatHits, consecutiveEmpty := results', seen, prevSig', repeatHits', consecutiveEmpty';
      page := page + 1;
    }
    if stop == PageLimit {
      endPage := page;
    }
    NoStopBeforeAll(w, endPage);
    forall p, x | w.startPage <= p < endPage && x in ListingPage(w.listing, p) && Fresh(w, x) && fetchOk(x)
      ensures x in PostNos(results)
    {
      SeenBeforeHas(w, p, page, x);
    }
  }

  /**
   * The walk's state on reaching page n without a stop: the posts collected so far, the session set,
   * the four counters as the stop functions give them after page n - 1, and every logNo of the
   * session collected if its fetch succeeds.
   */
  ghost predicate Reached(w: Walk, fetchOk: LognoText -> bool, n: int, results: seq<PostRecord>, seenSession: set<string>,
                          emptyStreak: int, prevSig: Option<string>, repeatHits: int, consecutiveEmpty: int)
  {
    && Collected(results, w.lastLogNo, w.seenAlready, seenSession, fetchOk, w.listing, w.startPage, n)
    && seenSession == SeenBefore(w, n)
    && emptyStreak == EmptyStreak(w, n - 1) && prevSig == PrevSig(w, n - 1)
    && repeatHits == RepeatHits(w, n - 1) && consecutiveEmpty == NoNewStreak(w, n - 1)
    && NoStopBefore(w, n)
    && AllCollected(seenSession, fetchOk, results)
  }

  /** No stop rule fires on the pages from the first one up to, but not including, page n. */
  ghost predicate NoStopBefore(w: Walk, n: int)
    decreases n - w.startPage
  {
    n <= w.startPage || (NoStopBefore(w, n - 1) && StopAt(w, n - 1).None?)
  }

  lemma NoStopStep(w: Walk, n: int)
    requires w.startPage <= n && NoStopBefore(w, n) && StopAt(w, n).None?
    ensures NoStopBefore(w, n + 1)
  {
  }

  lemma {:induction false} NoStopBeforeAll(w: Walk, n: int)
    requires NoStopBefore(w, n)
    ensures forall p :: w.startPage <= p < n ==> StopAt(w, p).None?
    decreases n - w.startPage
  {
    if n > w.startPage {
      NoStopBeforeAll(w, n - 1);
    }
  }

  /** Every logNo of the session whose fetch succeeds has been collected. */
  ghost predicate AllCollected(seenSession: set<string>, fetchOk: LognoText -> bool, results: seq<PostRecord>)
  {
    forall x: LognoText :: x in seenSession && fetchOk(x) ==> x in PostNos(results)
  }

  /**
   * One non-empty page of the walk: the repeated-signature check, the filter, the nothing-new count
   * and the fetches. The rule that stops the walk here is StopAt's; a page that does not stop it
   * brings the session, the counters and the collected posts to the next page's.
   */
  method VisitListedPage(w: Walk, page: int, fetchOk: LognoText -> bool, results: seq<PostRecord>,
                         seenSession: set<string>, prevSig: Option<string>, repeatHits: nat, consecutiveEmpty: nat)
    returns (results': seq<PostRecord>, seen: set<string>, prevSig': Option<string>, repeatHits': nat,
             consecutiveEmpty': nat, stopped: Option<StopReason>)
    requires w.startPage <= page && ListingPage(w.listing, page) != []
    requires Collected(results, w.lastLogNo, w.seenAlready, seenSession, fetchOk, w.listing, w.startPage, page)
    requires seenSession == SeenBefore(w, page) && prevSig == PrevSig(w, page - 1)
    requires repeatHits == RepeatHits(w, page - 1) && consecutiveEmpty == NoNewStreak(w, page - 1)
    requires AllCollected(seenSession, fetchOk, results)
    ensures stopped == StopAt(w, page)
    ensures stopped.Some? ==> results' == results
    ensures stopped.None? ==>
      && Collected(results', w.lastLogNo, w.seenAlready, seen, fetchOk, w.listing, w.startPage, page + 1)
      && seen == SeenBefore(w, page + 1) && prevSig' == PrevSig(w, page)
      && repeatHits' == RepeatHits(w, page) && consecutiveEmpty' == NoNewStreak(w, page)
      && AllCollected(seen, fetchOk, results')
  {
    ListedPageStep(w, page);
    var lognos := ListingPage(w.listing, page);
    results' := results;
    consecutiveEmpty' := consecutiveEmpty;
    var sig := Signature(lognos);
    if prevSig == Some(sig) {
      repeatHits' := repeatHits + 1;
    } else {
      repeatHits' := 0;
    }
    prevSig' := Some(sig);
    if repeatHits' >= 2 {
      return results, seenSession, prevSig', repeatHits', consecutiveEmpty', Some(RepeatedPages);
    }
    var filtered;
    filtered, seen := FilterPage(lognos, w.lastLogNo, seenSession, w.seenAlready);
    FilteredStep(w, page, filtered, seen);
    if filtered == [] && w.lastLogNo.Some? && w.lastLogNo.value != 0 {
      consecutiveEmpty' := consecutiveEmpty + 1;
      if consecutiveEmpty' >= 2 {
        return results, seen, prevSig', repeatHits', consecutiveEmpty', Some(NothingNew);
      }
    } else {
      consecutiveEmpty' := 0;
    }
    stopped := None;
    results' := CollectPage(results, filtered, seen, fetchOk, page, w.lastLogNo, w.seenAlready, seenSession, w.listing, w.startPage);
  }

  /** An empty page adds nothing to the session and counts one more empty page in a row. */
  lemma EmptyPageStep(w: Walk, n: int)
    requires w.startPage <= n && ListingPage(w.listing, n) == []
    ensures SeenBefore(w, n + 1) == SeenBefore(w, n)
    ensures EmptyStreak(w, n) == EmptyStreak(w, n - 1) + 1 && PrevSig(w, n) == PrevSig(w, n - 1)
    ensures RepeatHits(w, n) == RepeatHits(w, n - 1) && NoNewStreak(w, n) == NoNewStreak(w, n - 1)
    ensures StopAt(w, n).None? <==> EmptyStreak(w, n) < 3
  {
  }

  /** A non-empty page resets the empty streak, becomes the previous signature and updates the other two counters. */
  lemma ListedPageStep(w: Walk, n: int)
    requires w.startPage <= n && ListingPage(w.listing, n) != []
    ensures EmptyStreak(w, n) == 0 && PrevSig(w, n) == Some(Signature(ListingPage(w.listing, n)))
    ensures RepeatHits(w, n) == if PrevSig(w, n - 1) == Some(Signature(ListingPage(w.listing, n))) then RepeatHits(w, n - 1) + 1 else 0
    ensures NoNewStreak(w, n) == if NoNew(w, n) && Checkpointed(w) then NoNewStreak(w, n - 1) + 1 else 0
    ensures StopAt(w, n) == if RepeatHits(w, n) >= 2 then Some(RepeatedPages) else if NoNewStreak(w, n) >= 2 then Some(NothingNew) else None
  {
  }

  /** The filtering of a page reached without a stop extends the session to the next page's and decides NoNew. */
  lemma FilteredStep(w: Walk, n: int, filtered: seq<LognoText>, seen: set<string>)
    requires w.startPage <= n
    requires forall x :: x in filtered <==> x in ListingPage(w.listing, n) && Admissible(x, w.lastLogNo, SeenBefore(w, n), w.seenAlready)
    requires seen == SeenBefore(w, n) + (set x: string | x in filtered)
    ensures seen == SeenBefore(w, n + 1)
    ensures filtered == [] <==> NoNew(w, n)
  {
    var page := set x: LognoText | x in ListingPage(w.listing, n) && Fresh(w, x) :: x;
    assert SeenBefore(w, n + 1) == SeenBefore(w, n) + page;
    forall x | x in seen ensures x in SeenBefore(w, n + 1) {
      if x !in SeenBefore(w, n) {
        assert x in filtered;
      }
    }
    if filtered != [] {
      assert filtered[0] in filtered;
    }
  }
}
