/**
 * src/crawler/naver_crawler.py: NaverBlogCrawler's URL builders, the categoryNo extraction of
 * fetch_categories, and the counters and checkpoint of crawl_incremental over a
 * CrawlerStorage. Network responses are inputs: the category links of the blog page, the post
 * list of each (category, page), the content fetch per URL and the final page-1 list.
 */
module NaverCrawler {
  import opened Wrappers
  import opened Strings
  import opened Collections
  import CrawlerStorage

  const Host: string := "https://blog.naver.com/"

  /** A Python value in an f-string: an int, or None printed as "None". */
  function OptionalIntText(v: Option<int>): string
  {
    match v
    case Some(n) => IntToString(n)
    case None => "None"
  }

  const CategoryKey: string := "categoryNo="

  /** `href.split('categoryNo=')[1].split('&')[0]`, given the text after the first 'categoryNo='. */
  function CategoryText(rest: string): (r: string)
    ensures '&' !in r && !Contains(r, CategoryKey)
    ensures |r| <= |rest| && r == rest[..|r|]
    decreases |rest|
  {
    if rest == [] || rest[0] == '&' || StartsWith(rest, CategoryKey) then ""
    else
      var tail := CategoryText(rest[1..]);
      assert [rest[0]] + tail == rest[..|tail| + 1] by {
        assert tail == rest[1..][..|tail|];
      }
      assert !StartsWith([rest[0]] + tail, CategoryKey) by {
        if |[rest[0]] + tail| >= |CategoryKey| {
          assert rest[..|tail| + 1][..|CategoryKey|] == rest[..|CategoryKey|];
        }
      }
      [rest[0]] + tail
  }

  /** The categoryNo of one link, or None when the link has none or int() raises ValueError. */
  function LinkCategory(href: string): Option<int>
  {
    match FindFirst(href, CategoryKey)
    case None => None
    case Some(i) => ParseInt(CategoryText(href[i + |CategoryKey|..]))
  }

  function LinkCategories(hrefs: seq<string>): (r: seq<int>)
    ensures forall c :: c in r <==> exists h :: h in hrefs && LinkCategory(h) == Some(c)
  {
    if hrefs == [] then []
    else
      var init := LinkCategories(hrefs[..|hrefs| - 1]);
      var h := hrefs[|hrefs| - 1];
      assert forall x :: x in hrefs <==> x in hrefs[..|hrefs| - 1] || x == h;
      init + (match LinkCategory(h) case Some(c) => [c] case None => [])
  }

  datatype ListedPost = ListedPost(url: string, logno: int, title: string)

  datatype PostStatus = NewPost | Duplicate | UpdatedPost

  datatype PostInfo = PostInfo(title: string, url: string, logno: int, status: PostStatus)

  datatype Stats = Stats(
    totalFound: int,
    newPosts: int,
    duplicateContent: int,
    failed: int,
    pagesProcessed: int,
    collected: seq<PostInfo>,
    categoriesProcessed: int)

  /** The per-category stats dict at the start of a category. */
  const CategoryStart: Stats := Stats(0, 0, 0, 0, 0, [], 1)

  /** The total_stats dict at the start of a run. */
  const RunStart: Stats := Stats(0, 0, 0, 0, 0, [], 0)

  /** The accumulation loop over total_stats: numbers are added, collected_posts extended. */
  function Accumulate(total: Stats, s: Stats): Stats
  {
    Stats(total.totalFound + s.totalFound, total.newPosts + s.newPosts, total.duplicateContent + s.duplicateContent,
          total.failed + s.failed, total.pagesProcessed + s.pagesProcessed, total.collected + s.collected,
          total.categoriesProcessed + s.categoriesProcessed)
  }

  /** `[p for p in posts if int(p.get('logno', 0)) > last_logno_int]` */
  function Above(posts: seq<ListedPost>, last: int): seq<ListedPost>
  {
    if posts == [] then []
    else
      var p := posts[|posts| - 1];
      Above(posts[..|posts| - 1], last) + (if p.logno > last then [p] else [])
  }

  /** The filter keeps exactly the listed posts above the checkpoint, and no more posts than listed. */
  lemma {:induction false} AboveSpec(posts: seq<ListedPost>, last: int)
    ensures forall p :: p in Above(posts, last) <==> p in posts && p.logno > last
    ensures |Above(posts, last)| <= |posts|
  {
    if posts != [] {
      var p := posts[|posts| - 1];
      AboveSpec(posts[..|posts| - 1], last);
      assert forall x :: x in posts <==> x in posts[..|posts| - 1] || x == p;
    }
  }

  function MaxLogno(posts: seq<ListedPost>): (r: int)
    requires posts != []
    ensures forall p :: p in posts ==> p.logno <= r
    ensures exists p :: p in posts && p.logno == r
  {
    if |posts| == 1 then posts[0].logno
    else
      var m := MaxLogno(posts[1..]);
      assert forall p :: p in posts <==> p == posts[0] || p in posts[1..];
      if posts[0].logno >= m then posts[0].logno else m
  }

  /**
   * What the stats of a run guarantee: every collected post was unseen before, so add_seen_post
   * reported it new and it counts in new_posts; duplicate_content stays 0; each collected URL is
   * seen; with a non-zero checkpoint each collected logNo is above it; and every processed post
   * (collected or failed) was among those found.
   */
  ghost predicate StatsOk(s: Stats, seen: map<string, CrawlerStorage.SeenPost>, last: int)
  {
    && s.duplicateContent == 0
    && s.newPosts == |s.collected|
    && 0 <= s.failed
    && |s.collected| + s.failed <= s.totalFound
    && forall i :: 0 <= i < |s.collected| ==>
         && s.collected[i].status == NewPost
         && s.collected[i].url in seen
         && (last != 0 ==> s.collected[i].logno > last)
  }

  lemma StatsOkMoreSeen(s: Stats, seen: map<string, CrawlerStorage.SeenPost>, seen': map<string, CrawlerStorage.SeenPost>, last: int)
    requires StatsOk(s, seen, last) && seen.Keys <= seen'.Keys
    ensures StatsOk(s, seen', last)
  {
  }

  lemma StatsOkAccumulate(total: Stats, s: Stats, seen: map<string, CrawlerStorage.SeenPost>, last: int)
    requires StatsOk(total, seen, last) && StatsOk(s, seen, last)
    ensures StatsOk(Accumulate(total, s), seen, last)
  {
    var a := Accumulate(total, s);
    forall i | 0 <= i < |a.collected|
      ensures a.collected[i].status == NewPost && a.collected[i].url in seen && (last != 0 ==> a.collected[i].logno > last)
    {
      if i >= |total.collected| {
        assert a.collected[i] == s.collected[i - |total.collected|];
      }
    }
  }

  /** What the per-post loop of one page leaves: the posts collected, in order, the failed fetches and the seen URLs. */
  datatype PagePass = PagePass(collected: seq<PostInfo>, failed: nat, seen: set<string>)

  /**
   * The per-post loop of one page over the seen URLs `seen`: a seen URL is skipped and not counted,
   * a fetch that returns nothing counts as failed, and any other post is stored and collected as new.
   */
  function PassPosts(posts: seq<ListedPost>, seen: set<string>, fetchContent: string -> Option<string>): PagePass
    decreases |posts|
  {
    if posts == [] then PagePass([], 0, seen)
    else PassOne(PassPosts(posts[..|posts| - 1], seen, fetchContent), posts[|posts| - 1], fetchContent)
  }

  /** One post of the per-post loop. */
  function PassOne(r: PagePass, p: ListedPost, fetchContent: string -> Option<string>): PagePass
  {
    if p.url in r.seen then r
    else if fetchContent(p.url).None? then r.(failed := r.failed + 1)
    else PagePass(r.collected + [PostInfo(p.title, p.url, p.logno, NewPost)], r.failed, r.seen + {p.url})
  }

  /** PassPosts over one more post of the page. */
  lemma PassPostsStep(posts: seq<ListedPost>, i: int, seen: set<string>, fetchContent: string -> Option<string>)
    requires 0 <= i < |posts|
    ensures PassPosts(posts[..i + 1], seen, fetchContent) == PassOne(PassPosts(posts[..i], seen, fetchContent), posts[i], fetchContent)
  {
    assert posts[..i + 1][..i] == posts[..i];
  }

  /** The posts of a page that are not in `seen` and whose fetch returns nothing, counted by position. */
  function FailedFetches(posts: seq<ListedPost>, seen: set<string>, fetchContent: string -> Option<string>): nat
    decreases |posts|
  {
    if posts == [] then 0
    else
      var p := posts[|posts| - 1];
      FailedFetches(posts[..|posts| - 1], seen, fetchContent) + (if p.url !in seen && fetchContent(p.url).None? then 1 else 0)
  }

  function Urls(infos: seq<PostInfo>): (r: seq<string>)
    ensures |r| == |infos| && forall k :: 0 <= k < |infos| ==> r[k] == infos[k].url
  {
    seq(|infos|, k requires 0 <= k < |infos| => infos[k].url)
  }

  /**
   * The page loop as the source states it: the seen URLs grow by exactly the collected ones; the
   * collected URLs are distinct and are exactly the listed URLs that were not seen and whose fetch
   * returns content; each failure is a listed post at an unseen URL whose fetch returns nothing,
   * so a URL that fails twice on a page counts twice.
   */
  lemma {:induction false} PassPostsSpec(posts: seq<ListedPost>, seen: set<string>, fetchContent: string -> Option<string>)
    ensures var r := PassPosts(posts, seen, fetchContent);
      && (forall u :: u in r.seen <==> u in seen || u in Urls(r.collected))
      && Distinct(Urls(r.collected))
      && (forall u :: u in Urls(r.collected) <==> u !in seen && fetchContent(u).Some? && exists p :: p in posts && p.url == u)
      && (forall k :: 0 <= k < |r.collected| ==> r.collected[k].status == NewPost)
      && r.failed == FailedFetches(posts, seen, fetchContent)
      && |r.collected| + r.failed <= |posts|
    decreases |posts|
  {
    if posts != [] {
      var init := posts[..|posts| - 1];
      var p := posts[|posts| - 1];
      PassPostsSpec(init, seen, fetchContent);
      var r0 := PassPosts(init, seen, fetchContent);
      assert forall x :: x in posts <==> x in init || x == p;
      if p.url !in r0.seen && fetchContent(p.url).Some? {
        var info := PostInfo(p.title, p.url, p.logno, NewPost);
        assert Urls(r0.collected + [info]) == Urls(r0.collected) + [p.url];
        assert p.url !in Urls(r0.collected);
        DistinctSnoc(Urls(r0.collected), p.url);
      }
    }
  }

  /** Appending a new element keeps a sequence distinct. */
  lemma DistinctSnoc(xs: seq<string>, x: string)
    requires Distinct(xs) && x !in xs
    ensures Distinct(xs + [x])
  {
  }

  /** The posts of a page that reach the per-post loop: with a non-zero checkpoint only those above it. */
  function Kept(posts: seq<ListedPost>, last: int): seq<ListedPost>
  {
    if last != 0 then Above(posts, last) else posts
  }

  /** The stats of one page added to the category's. */
  function AddPass(s: Stats, pass: PagePass): Stats
  {
    s.(newPosts := s.newPosts + |pass.collected|, failed := s.failed + pass.failed, collected := s.collected + pass.collected)
  }

  /** The per-post loop applied to a page's posts: those kept by the checkpoint filter, over the seen URLs. */
  function Visit(last: int, fetchContent: string -> Option<string>): (seq<ListedPost>, set<string>) -> PagePass
  {
    (posts: seq<ListedPost>, seen: set<string>) => PassPosts(Kept(posts, last), seen, fetchContent)
  }

  /** Visit applied to a page is the pass over its kept posts. */
  lemma VisitApply(last: int, fetchContent: string -> Option<string>, posts: seq<ListedPost>, seen: set<string>)
    ensures Visit(last, fetchContent)(posts, seen) == PassPosts(Kept(posts, last), seen, fetchContent)
  {
  }

  /**
   * The page loop of one category from `page` on, with `visit` the per-page pass: an empty listing
   * ends it; a listed page adds its length to total_found, becomes pages_processed, and adds the
   * outcome of its pass.
   */
  function CategoryPages(listing: (int, int) -> seq<ListedPost>, category: int, page: int, maxPages: nat,
                         visit: (seq<ListedPost>, set<string>) -> PagePass, s: Stats, seen: set<string>): (Stats, set<string>)
    decreases maxPages + 1 - page
  {
    if page > maxPages || listing(category, page) == [] then (s, seen)
    else
      var posts := listing(category, page);
      var pass := visit(posts, seen);
      CategoryPages(listing, category, page + 1, maxPages, visit,
                    AddPass(s.(totalFound := s.totalFound + |posts|, pagesProcessed := page), pass), pass.seen)
  }

  /** One listed page of a category's walk. */
  lemma CategoryPagesStep(listing: (int, int) -> seq<ListedPost>, category: int, page: int, maxPages: nat,
                          visit: (seq<ListedPost>, set<string>) -> PagePass, s: Stats, seen: set<string>)
    requires page <= maxPages && listing(category, page) != []
    ensures var posts := listing(category, page);
      var pass := visit(posts, seen);
      CategoryPages(listing, category, page, maxPages, visit, s, seen)
        == CategoryPages(listing, category, page + 1, maxPages, visit,
                         AddPass(s.(totalFound := s.totalFound + |posts|, pagesProcessed := page), pass), pass.seen)
  {
  }

  /** The listing lengths of pages 1..n of a category. */
  function Found(listing: (int, int) -> seq<ListedPost>, category: int, n: int): nat
    decreases n
  {
    if n <= 0 then 0 else Found(listing, category, n - 1) + |listing(category, n)|
  }

  /**
   * A category's walk visits pages 1..pages_processed, all listed, and stops at the page limit or
   * before the first empty page; total_found is the sum of those pages' listing lengths, and the
   * category counts once.
   */
  lemma CategoryFound(listing: (int, int) -> seq<ListedPost>, category: int, maxPages: nat,
                      visit: (seq<ListedPost>, set<string>) -> PagePass, seen: set<string>)
    ensures var s := CategoryPages(listing, category, 1, maxPages, visit, CategoryStart, seen).0;
      && 0 <= s.pagesProcessed <= maxPages
      && (forall p :: 1 <= p <= s.pagesProcessed ==> listing(category, p) != [])
      && (s.pagesProcessed == maxPages || listing(category, s.pagesProcessed + 1) == [])
      && s.totalFound == Found(listing, category, s.pagesProcessed)
      && s.categoriesProcessed == 1
  {
    CategoryFoundFrom(listing, category, 1, maxPages, visit, CategoryStart, seen);
    var s := CategoryPages(listing, category, 1, maxPages, visit, CategoryStart, seen).0;
    ListedUpToAll(listing, category, s.pagesProcessed);
  }

  /** Pages 1..n of a category are all listed. */
  predicate ListedUpTo(listing: (int, int) -> seq<ListedPost>, category: int, n: int)
    decreases n
  {
    n <= 0 || (ListedUpTo(listing, category, n - 1) && listing(category, n) != [])
  }

  lemma {:induction false} ListedUpToAll(listing: (int, int) -> seq<ListedPost>, category: int, n: int)
    requires ListedUpTo(listing, category, n)
    ensures forall p :: 1 <= p <= n ==> listing(category, p) != []
    decreases n
  {
    if n > 0 {
      ListedUpToAll(listing, category, n - 1);
    }
  }

  lemma {:induction false} CategoryFoundFrom(listing: (int, int) -> seq<ListedPost>, category: int, page: int, maxPages: nat,
                                             visit: (seq<ListedPost>, set<string>) -> PagePass, s: Stats, seen: set<string>)
    requires 1 <= page <= maxPages + 1 && s.pagesProcessed == page - 1
    requires ListedUpTo(listing, category, page - 1)
    requires s.totalFound == Found(listing, category, page - 1)
    ensures var r := CategoryPages(listing, category, page, maxPages, visit, s, seen).0;
      && page - 1 <= r.pagesProcessed <= maxPages
      && ListedUpTo(listing, category, r.pagesProcessed)
      && (r.pagesProcessed == maxPages || listing(category, r.pagesProcessed + 1) == [])
      && r.totalFound == Found(listing, category, r.pagesProcessed)
      && r.categoriesProcessed == s.categoriesProcessed
    decreases maxPages + 1 - page
  {
    if page <= maxPages && listing(category, page) != [] {
      var posts := listing(category, page);
      var pass := visit(posts, seen);
      var s' := AddPass(s.(totalFound := s.totalFound + |posts|, pagesProcessed := page), pass);
      CategoryPagesStep(listing, category, page, maxPages, visit, s, seen);
      assert s'.totalFound == Found(listing, category, page) && s'.pagesProcessed == page;
      assert s'.categoriesProcessed == s.categoriesProcessed;
      CategoryFoundFrom(listing, category, page + 1, maxPages, visit, s', pass.seen);
    } else {
      assert CategoryPages(listing, category, page, maxPages, visit, s, seen).0 == s;
    }
  }

  /** The categories of a run one after another, each category's stats accumulated into the totals. */
  function RunCategories(categories: seq<int>, listing: (int, int) -> seq<ListedPost>, maxPages: nat, last: int,
                         fetchContent: string -> Option<string>, total: Stats, seen: set<string>): (Stats, set<string>)
    decreases |categories|
  {
    if categories == [] then (total, seen)
    else
      var c := CategoryPages(listing, categories[0], 1, maxPages, Visit(last, fetchContent), CategoryStart, seen);
      // Accumulate(total, c.0), written out (RunCategoriesStep states that it is)
      var t := Stats(total.totalFound + c.0.totalFound, total.newPosts + c.0.newPosts,
                     total.duplicateContent + c.0.duplicateContent, total.failed + c.0.failed,
                     total.pagesProcessed + c.0.pagesProcessed, total.collected + c.0.collected,
                     total.categoriesProcessed + c.0.categoriesProcessed);
      RunCategories(categories[1..], listing, maxPages, last, fetchContent, t, c.1)
  }

  /** The run after the categories before i: category i, then the rest. */
  lemma RunCategoriesStep(categories: seq<int>, i: int, listing: (int, int) -> seq<ListedPost>, maxPages: nat, last: int,
                          fetchContent: string -> Option<string>, total: Stats, seen: set<string>)
    requires 0 <= i < |categories|
    ensures var c := CategoryPages(listing, categories[i], 1, maxPages, Visit(last, fetchContent), CategoryStart, seen);
      RunCategories(categories[i..], listing, maxPages, last, fetchContent, total, seen)
        == RunCategories(categories[i + 1..], listing, maxPages, last, fetchContent, Accumulate(total, c.0), c.1)
  {
    assert categories[i..][1..] == categories[i + 1..];
  }

  class Crawler {
    const blogId: string
    const categoryNo: Option<int>
    const storage: CrawlerStorage.Storage

    constructor(blogId: string, categoryNo: Option<int>, storage: CrawlerStorage.Storage)
      ensures this.blogId == blogId && this.categoryNo == categoryNo && this.storage == storage
    {
      this.blogId := blogId;
      this.categoryNo := categoryNo;
      this.storage := storage;
    }

    /** _get_blog_list_url: the passed category, else the crawler's own. */
    function BlogListUrl(page: int, category: Option<int>): (r: string)
      ensures var cat := if category.Some? then category else categoryNo;
        r == Host + "PostList.naver?blogId=" + blogId + "&" + CategoryKey + OptionalIntText(cat) + "&currentPage=" + IntToString(page)
    {
      var cat := if category.Some? then category else categoryNo;
      Host + "PostList.naver?blogId=" + blogId + "&" + CategoryKey + OptionalIntText(cat) + "&currentPage=" + IntToString(page)
    }

    /** _get_post_url: the URL ends with `logNo=<logno>`. */
    function PostUrl(logno: string): (r: string)
      ensures EndsWith(r, "&logNo=" + logno)
      ensures StartsWith(r, Host + "PostView.naver?blogId=" + blogId)
    {
      var r := Host + "PostView.naver?blogId=" + blogId + "&logNo=" + logno;
      assert r[|r| - |"&logNo=" + logno|..] == "&logNo=" + logno;
      assert r[..|Host + "PostView.naver?blogId=" + blogId|] == Host + "PostView.naver?blogId=" + blogId;
      r
    }

    /**
     * fetch_categories, given the hrefs of the page's category links (None when the request
     * fails): the distinct categoryNos in first-seen order, or [0] when there are none.
     */
    method FetchCategories(hrefs: Option<seq<string>>) returns (categories: seq<int>)
      ensures hrefs.None? ==> categories == [0]
      ensures hrefs.Some? ==> categories == (if Dedup(LinkCategories(hrefs.value)) == [] then [0] else Dedup(LinkCategories(hrefs.value)))
    {
      if hrefs.None? {
        return [0];
      }
      var links := hrefs.value;
      categories := [];
      for i := 0 to |links|
        invariant categories == Dedup(LinkCategories(links[..i]))
      {
        var c := LinkCategory(links[i]);
        LinkCategoriesStep(links, i);
        if c.Some? && c.value !in categories {
          categories := categories + [c.value];
        }
      }
      assert links[..|links|] == links;
      if categories == [] {
        categories := [0];
      }
    }

    /** The per-post loop of one page, after the logNo filter: the stats grow by the page's PassPosts. */
    method ProcessPosts(posts: seq<ListedPost>, last: int, fetchContent: string -> Option<string>, now: string, s0: Stats)
      returns (s: Stats)
      modifies storage
      requires StatsOk(s0, storage.seen, last)
      requires last != 0 ==> forall p :: p in posts ==> p.logno > last
      requires |s0.collected| + s0.failed + |posts| <= s0.totalFound
      ensures StatsOk(s, storage.seen, last)
      ensures var pass := PassPosts(posts, old(storage.seen).Keys, fetchContent);
        s == AddPass(s0, pass) && storage.seen.Keys == pass.seen
      ensures old(storage.seen).Keys <= storage.seen.Keys && storage.checkpoint == old(storage.checkpoint)
    {
      s := s0;
      ghost var seen0 := storage.seen.Keys;
      for i := 0 to |posts|
        invariant StatsOk(s, storage.seen, last)
        invariant |s.collected| + s.failed + (|posts| - i) <= s.totalFound
        invariant old(storage.seen).Keys <= storage.seen.Keys && storage.checkpoint == old(storage.checkpoint)
        invariant s == AddPass(s0, PassPosts(posts[..i], seen0, fetchContent))
        invariant storage.seen.Keys == PassPosts(posts[..i], seen0, fetchContent).seen
      {
        PassPostsStep(posts, i, seen0, fetchContent);
        s := ProcessPost(posts[i], last, fetchContent, now, s, PassPosts(posts[..i], seen0, fetchContent), s0);
      }
      assert posts[..|posts|] == posts;
    }

    /** One post of the per-post loop: a seen URL is skipped, a failed fetch counted, any other post stored and collected. */
    method ProcessPost(post: ListedPost, last: int, fetchContent: string -> Option<string>, now: string, s0: Stats,
                       ghost r: PagePass, ghost base: Stats)
      returns (s: Stats)
      modifies storage
      requires StatsOk(s0, storage.seen, last) && (last != 0 ==> post.logno > last)
      requires |s0.collected| + s0.failed < s0.totalFound
      requires s0 == AddPass(base, r) && storage.seen.Keys == r.seen
      ensures StatsOk(s, storage.seen, last)
      ensures |s.collected| + s.failed <= |s0.collected| + s0.failed + 1 && s.totalFound == s0.totalFound
      ensures s == AddPass(base, PassOne(r, post, fetchContent)) && storage.seen.Keys == PassOne(r, post, fetchContent).seen
      ensures old(storage.seen).Keys <= storage.seen.Keys && storage.checkpoint == old(storage.checkpoint)
    {
      s := s0;
      if storage.IsPostSeen(post.url) {
        return;
      }
      var content := fetchContent(post.url);
      if content.None? {
        s := s.(failed := s.failed + 1);
        return;
      }
      ghost var seenBefore := storage.seen;
      var status := storage.AddSeenPost(post.url, post.logno, content.value, Some(post.title), now);
      assert status == CrawlerStorage.New;
      StatsOkMoreSeen(s, seenBefore, storage.seen, last);
      var info := PostInfo(post.title, post.url, post.logno, NewPost);
      if status == CrawlerStorage.New {
        s := s.(newPosts := s.newPosts + 1, collected := s.collected + [info]);
      } else if status == CrawlerStorage.Unchanged {
        s := s.(duplicateContent := s.duplicateContent + 1, collected := s.collected + [info.(status := Duplicate)]);
      } else {
        s := s.(newPosts := s.newPosts + 1, collected := s.collected + [info.(status := UpdatedPost)]);
      }
    }

    /** The page loop of one category: its stats and the seen URLs are CategoryPages' from page 1. */
    method CrawlOneCategory(category: int, maxPages: int, listing: (int, int) -> seq<ListedPost>,
                            fetchContent: string -> Option<string>, now: string)
      returns (s: Stats)
      modifies storage
      ensures StatsOk(s, storage.seen, old(storage.checkpoint.lastLogno))
      ensures (s, storage.seen.Keys)
           == CategoryPages(listing, category, 1, Max0(maxPages), Visit(old(storage.checkpoint.lastLogno), fetchContent),
                            CategoryStart, old(storage.seen).Keys)
      ensures old(storage.seen).Keys <= storage.seen.Keys && storage.checkpoint == old(storage.checkpoint)
    {
      s := CategoryStart;
      var last := storage.GetLastLogno();
      ghost var walk := CategoryPages(listing, category, 1, Max0(maxPages), Visit(last, fetchContent), CategoryStart, storage.seen.Keys);
      var page := 1;
      while page <= Max0(maxPages)
        invariant 1 <= page <= Max0(maxPages) + 1
        invariant StatsOk(s, storage.seen, last)
        invariant old(storage.seen).Keys <= storage.seen.Keys && storage.checkpoint == old(storage.checkpoint)
        invariant walk == CategoryPages(listing, category, page, Max0(maxPages), Visit(last, fetchContent), s, storage.seen.Keys)
        decreases Max0(maxPages) + 1 - page
      {
        if listing(category, page) == [] {
          break;
        }
        s := CrawlPage(category, page, Max0(maxPages), listing, fetchContent, now, s);
        page := page + 1;
      }
    }

    /** One listed page of a category: the page loop moves on from `page` to the next page. */
    method CrawlPage(category: int, page: int, maxPages: nat, listing: (int, int) -> seq<ListedPost>,
                     fetchContent: string -> Option<string>, now: string, s0: Stats)
      returns (s: Stats)
      modifies storage
      requires 1 <= page <= maxPages && listing(category, page) != []
      requires StatsOk(s0, storage.seen, storage.checkpoint.lastLogno)
      ensures StatsOk(s, storage.seen, storage.checkpoint.lastLogno)
      ensures old(storage.seen).Keys <= storage.seen.Keys && storage.checkpoint == old(storage.checkpoint)
      ensures var visit := Visit(storage.checkpoint.lastLogno, fetchContent);
        CategoryPages(listing, category, page, maxPages, visit, s0, old(storage.seen).Keys)
          == CategoryPages(listing, category, page + 1, maxPages, visit, s, storage.seen.Keys)
    {
      var last := storage.GetLastLogno();
      var posts := listing(category, page);
      CategoryPagesStep(listing, category, page, maxPages, Visit(last, fetchContent), s0, storage.seen.Keys);
      VisitApply(last, fetchContent, posts, storage.seen.Keys);
      s := s0.(totalFound := s0.totalFound + |posts|, pagesProcessed := page);
      if last != 0 {
        posts := Above(posts, last);
        AboveSpec(listing(category, page), last);
        if posts == [] {
          assert AddPass(s, PassPosts(posts, storage.seen.Keys, fetchContent)) == s;
          return;
        }
      }
      assert posts == Kept(listing(category, page), last);
      s := ProcessPosts(posts, last, fetchContent, now, s);
    }

    /** The category loop of crawl_incremental: the run is RunCategories over `categories`. */
    method CrawlCategories(categories: seq<int>, maxPages: int, listing: (int, int) -> seq<ListedPost>,
                           fetchContent: string -> Option<string>, now: string)
      returns (total: Stats)
      modifies storage
      ensures StatsOk(total, storage.seen, old(storage.checkpoint.lastLogno))
      ensures (total, storage.seen.Keys)
           == RunCategories(categories, listing, Max0(maxPages), old(storage.checkpoint.lastLogno), fetchContent,
                            RunStart, old(storage.seen).Keys)
      ensures total.categoriesProcessed == |categories|
      ensures old(storage.seen).Keys <= storage.seen.Keys && storage.checkpoint == old(storage.checkpoint)
    {
      total := RunStart;
      ghost var last := storage.checkpoint.lastLogno;
      ghost var run := RunCategories(categories, listing, Max0(maxPages), last, fetchContent, RunStart, storage.seen.Keys);
      for i := 0 to |categories|
        invariant StatsOk(total, storage.seen, last)
        invariant total.categoriesProcessed == i
        invariant old(storage.seen).Keys <= storage.seen.Keys && storage.checkpoint == old(storage.checkpoint)
        invariant run == RunCategories(categories[i..], listing, Max0(maxPages), last, fetchContent, total, storage.seen.Keys)
      {
        total := CrawlNext(categories, i, maxPages, listing, fetchContent, now, total);
      }
      assert categories[|categories|..] == [];
    }

    /** One pass of the category loop: category i is crawled and its stats are added to the totals. */
    method CrawlNext(categories: seq<int>, i: int, maxPages: int, listing: (int, int) -> seq<ListedPost>,
                     fetchContent: string -> Option<string>, now: string, total: Stats)
      returns (total': Stats)
      modifies storage
      requires 0 <= i < |categories|
      requires StatsOk(total, storage.seen, storage.checkpoint.lastLogno)
      ensures StatsOk(total', storage.seen, storage.checkpoint.lastLogno)
      ensures total'.categoriesProcessed == total.categoriesProcessed + 1
      ensures old(storage.seen).Keys <= storage.seen.Keys && storage.checkpoint == old(storage.checkpoint)
      ensures RunCategories(categories[i..], listing, Max0(maxPages), storage.checkpoint.lastLogno, fetchContent, total, old(storage.seen).Keys)
           == RunCategories(categories[i + 1..], listing, Max0(maxPages), storage.checkpoint.lastLogno, fetchContent, total', storage.seen.Keys)
    {
      ghost var last := storage.checkpoint.lastLogno;
      ghost var seenBefore := storage.seen;
      RunCategoriesStep(categories, i, listing, Max0(maxPages), last, fetchContent, total, storage.seen.Keys);
      CategoryFound(listing, categories[i], Max0(maxPages), Visit(last, fetchContent), storage.seen.Keys);
      var s := CrawlOneCategory(categories[i], maxPages, listing, fetchContent, now);
      StatsOkMoreSeen(total, seenBefore, storage.seen, last);
      StatsOkAccumulate(total, s, storage.seen, last);
      total' := Accumulate(total, s);
    }

    /**
     * crawl_incremental. `fetched` is what fetch_categories returned; it is used only when the
     * crawler has no category of its own. The checkpoint is rewritten only when something was
     * found and the final page-1 list is not empty, and then it is that list's largest logNo,
     * even if that is below the previous checkpoint.
     */
    method CrawlIncremental(maxPages: int, fetched: seq<int>, listing: (int, int) -> seq<ListedPost>,
                            fetchContent: string -> Option<string>, latest: seq<ListedPost>, now: string)
      returns (total: Stats)
      modifies storage
      ensures StatsOk(total, storage.seen, old(storage.checkpoint.lastLogno))
      ensures (total, storage.seen.Keys)
           == RunCategories(if categoryNo.Some? then [categoryNo.value] else fetched, listing, Max0(maxPages),
                            old(storage.checkpoint.lastLogno), fetchContent, RunStart, old(storage.seen).Keys)
      ensures total.categoriesProcessed == (if categoryNo.Some? then 1 else |fetched|)
      ensures old(storage.seen).Keys <= storage.seen.Keys
      ensures storage.checkpoint ==
        if total.totalFound > 0 && latest != []
        then CrawlerStorage.Checkpoint(MaxLogno(latest), now, total.totalFound, total.newPosts, total.duplicateContent)
        else old(storage.checkpoint)
    {
      var categories := if categoryNo.Some? then [categoryNo.value] else fetched;
      total := CrawlCategories(categories, maxPages, listing, fetchContent, now);
      if total.totalFound > 0 && latest != [] {
        var stats := map["total" := total.totalFound, "new" := total.newPosts, "updated" := total.duplicateContent];
        CrawlerStorage.StatsDisplay(total.totalFound, total.newPosts, total.duplicateContent);
        storage.UpdateCheckpoint(MaxLogno(latest), stats, now);
      }
    }
  }

  /** One more link extends the deduplicated categories by its categoryNo when that is new. */
  lemma LinkCategoriesStep(links: seq<string>, i: nat)
    requires i < |links|
    ensures var c := LinkCategory(links[i]); var d := Dedup(LinkCategories(links[..i]));
      Dedup(LinkCategories(links[..i + 1])) == if c.Some? && c.value !in d then d + [c.value] else d
  {
    assert links[..i + 1][..i] == links[..i];
    var c := LinkCategory(links[i]);
    var l := LinkCategories(links[..i]);
    if c.Some? {
      var l' := l + [c.value];
      assert LinkCategories(links[..i + 1]) == l';
      assert l'[..|l'| - 1] == l;
    } else {
      assert LinkCategories(links[..i + 1]) == l;
    }
  }

  function Max0(n: int): nat { if n < 0 then 0 else n }
}
