/**
 * src/jobs/tasks.py: the incremental pipeline job. New posts are cleaned (clean_html), given the id
 * md5(url) and deduplicated by URL (first post wins), then upsert_docs embeds and stores them one
 * by one in the simple vector store, counting successes, failures, additions and updates.
 */
module Tasks {
  import opened Wrappers
  import opened Strings
  import opened Collections
  import opened SimpleStore

  // ---------------------------------------------------------------- clean_html

  /** The position of the first c in s. */
  function IndexOfChar(s: string, c: char): (r: Option<nat>)
    ensures r.Some? ==> r.value < |s| && s[r.value] == c && c !in s[..r.value]
    ensures r.None? ==> c !in s
  {
    if s == [] then None
    else if s[0] == c then Some(0)
    else
      match IndexOfChar(s[1..], c)
      case None => None
      case Some(k) => assert s[..k + 1] == [s[0]] + s[1..][..k]; Some(k + 1)
  }

  /** re.sub(r'<[^>]+>', '', s): each '<' with at least one character before the next '>' starts a removed tag. */
  function StripTags(s: string): (r: string)
    ensures |r| <= |s|
    decreases |s|
  {
    if s == [] then []
    else if s[0] == '<' && IndexOfChar(s[1..], '>').Some? && IndexOfChar(s[1..], '>').value > 0 then
      StripTags(s[IndexOfChar(s[1..], '>').value + 2..])
    else [s[0]] + StripTags(s[1..])
  }

  /** Every character StripTags keeps is a character of its input. */
  lemma {:induction false} StripTagsFrom(s: string)
    ensures forall i :: 0 <= i < |StripTags(s)| ==> StripTags(s)[i] in s
    decreases |s|
  {
    if s != [] {
      var k := IndexOfChar(s[1..], '>');
      if s[0] == '<' && k.Some? && k.value > 0 {
        StripTagsFrom(s[k.value + 2..]);
        assert forall c :: c in s[k.value + 2..] ==> c in s;
      } else {
        StripTagsFrom(s[1..]);
        assert forall c :: c in s[1..] ==> c in s;
      }
    }
  }

  /** No tag is left: a kept '<' is followed directly by '>' or by no '>' at all. */
  lemma {:induction false} StripTagsNoTag(s: string)
    ensures forall i :: 0 <= i < |StripTags(s)| && StripTags(s)[i] == '<' ==>
      (i + 1 < |StripTags(s)| && StripTags(s)[i + 1] == '>') || '>' !in StripTags(s)[i + 1..]
    decreases |s|
  {
    if s != [] {
      var k := IndexOfChar(s[1..], '>');
      if s[0] == '<' && k.Some? && k.value > 0 {
        StripTagsNoTag(s[k.value + 2..]);
      } else {
        var rest := StripTags(s[1..]);
        StripTagsNoTag(s[1..]);
        var r := StripTags(s);
        assert r == [s[0]] + rest;
        forall i | 0 <= i < |r| && r[i] == '<'
          ensures (i + 1 < |r| && r[i + 1] == '>') || '>' !in r[i + 1..]
        {
          if i == 0 {
            if k.None? {
              StripTagsFrom(s[1..]);
              assert r[1..] == rest;
            } else {
              assert s[1] == '>';
              assert rest[0] == '>';
            }
          } else {
            assert r[i + 1..] == rest[i..];
          }
        }
      }
    }
  }

  /** The characters the third substitution keeps: \w (Unicode, a parameter), whitespace, Hangul syllables, . , ! ? */
  predicate Allowed(c: char, isWord: char -> bool)
  {
    isWord(c) || IsSpace(c) || ('가' <= c <= '힣') || c == '.' || c == ',' || c == '!' || c == '?'
  }

  /** clean_html: tags removed, whitespace runs collapsed, other special characters dropped, then strip. */
  function CleanHtml(html: string, isWord: char -> bool): string
  {
    Strip(KeepChars(CollapseSpaces(StripTags(html)), c => Allowed(c, isWord)))
  }

  /**
   * The cleaned text has no surrounding whitespace, every whitespace character in it is a plain
   * space, every character is an allowed one, and (as \w holds for neither) no '<' or '>' is left.
   */
  lemma CleanHtmlShape(html: string, isWord: char -> bool)
    requires !isWord('<') && !isWord('>')
    ensures var r := CleanHtml(html, isWord);
      (r == [] || (!IsSpace(r[0]) && !IsSpace(r[|r| - 1])))
      && (forall i :: 0 <= i < |r| ==> Allowed(r[i], isWord) && r[i] != '<' && r[i] != '>')
      && (forall i :: 0 <= i < |r| && IsSpace(r[i]) ==> r[i] == ' ')
  {
    var a := CollapseSpaces(StripTags(html));
    var keep := c => Allowed(c, isWord);
    var b := KeepChars(a, keep);
    var r := Strip(b);
    StripShape(b);
    CollapseSpacesShape(StripTags(html));
    KeepCharsFrom(a, keep);
    var k := LeadingSpaces(b);
    forall i | 0 <= i < |r| ensures Allowed(r[i], isWord) && r[i] != '<' && r[i] != '>' && (IsSpace(r[i]) ==> r[i] == ' ') {
      assert r[i] == b[k + i];
      assert keep(b[k + i]);
      var j :| 0 <= j < |a| && a[j] == b[k + i];
    }
  }

  // ---------------------------------------------------------------- incremental_pipeline: preprocessing

  /**
   * A fetched post: html, url, title, date and category when present with a string value. A post
   * whose html is absent or not a string is skipped either way (empty text, or clean_html raises).
   */
  datatype Post = Post(html: Option<string>, url: Option<string>, title: Option<string>, date: Option<string>,
                       category: Option<string>)

  /** A processed document: id, url, cleaned text and the metadata stored with it. */
  datatype Doc = Doc(id: string, url: string, text: string, meta: Meta)

  function OrDefault(v: Option<string>, d: string): string
  {
    if v.Some? then v.value else d
  }

  const DefaultCategory := "채권추심"

  /** One iteration of the preprocessing loop: the document, or None when the post is skipped. */
  function Process(post: Post, md5: string -> string, isWord: char -> bool): (r: Option<Doc>)
    ensures r.Some? <==> CleanHtml(OrDefault(post.html, ""), isWord) != "" && post.url.Some?
    ensures r.Some? ==> (r.value.url == post.url.value && r.value.id == md5(post.url.value)
      && r.value.text == CleanHtml(post.html.value, isWord) && "source" in r.value.meta
      && r.value.meta["source"] == "incremental_crawl")
  {
    var text := CleanHtml(OrDefault(post.html, ""), isWord);
    if text == "" || post.url.None? then None
    else
      var url := post.url.value;
      Some(Doc(md5(url), url, text, map[
        "title" := OrDefault(post.title, ""),
        "url" := url,
        "date" := OrDefault(post.date, ""),
        "category" := OrDefault(post.category, DefaultCategory),
        "source" := "incremental_crawl"]))
  }

  /** processed_docs: the documents of the posts that are not skipped, in order. */
  function ProcessAll(posts: seq<Post>, md5: string -> string, isWord: char -> bool): (docs: seq<Doc>)
    ensures |docs| <= |posts|
  {
    if posts == [] then []
    else
      var d := Process(posts[|posts| - 1], md5, isWord);
      ProcessAll(posts[..|posts| - 1], md5, isWord) + (if d.Some? then [d.value] else [])
  }

  /** The preprocessing loop. */
  method ProcessPosts(posts: seq<Post>, md5: string -> string, isWord: char -> bool) returns (docs: seq<Doc>)
    ensures docs == ProcessAll(posts, md5, isWord)
  {
    docs := [];
    for i := 0 to |posts|
      invariant docs == ProcessAll(posts[..i], md5, isWord)
    {
      assert posts[..i + 1][..i] == posts[..i];
      var d := Process(posts[i], md5, isWord);
      if d.Some? {
        docs := docs + [d.value];
      }
    }
    assert posts[..|posts|] == posts;
  }

  /** Every processed document comes from a post that is not skipped. */
  lemma {:induction false} ProcessAllFrom(posts: seq<Post>, md5: string -> string, isWord: char -> bool)
    ensures forall d :: d in ProcessAll(posts, md5, isWord) ==> exists p :: p in posts && Process(p, md5, isWord) == Some(d)
    decreases |posts|
  {
    if posts != [] {
      var init := posts[..|posts| - 1];
      var last := posts[|posts| - 1];
      ProcessAllFrom(init, md5, isWord);
      assert forall p :: p in init ==> p in posts;
      assert last in posts;
    }
  }

  /** Every post that is not skipped yields a processed document. */
  lemma {:induction false} ProcessAllKeeps(posts: seq<Post>, md5: string -> string, isWord: char -> bool)
    ensures forall p :: p in posts && Process(p, md5, isWord).Some? ==>
      Process(p, md5, isWord).value in ProcessAll(posts, md5, isWord)
    decreases |posts|
  {
    if posts != [] {
      var init := posts[..|posts| - 1];
      ProcessAllKeeps(init, md5, isWord);
      assert posts == init + [posts[|posts| - 1]];
    }
  }

  // ---------------------------------------------------------------- incremental_pipeline: URL dedup

  function Urls(docs: seq<Doc>): (us: seq<string>)
    ensures |us| == |docs| && forall k :: 0 <= k < |docs| ==> us[k] == docs[k].url
  {
    seq(|docs|, k requires 0 <= k < |docs| => docs[k].url)
  }

  /** list(unique_docs.values()): the first document of each URL, in order of first appearance. */
  function Dedup(docs: seq<Doc>): (r: seq<Doc>)
    ensures |r| <= |docs|
  {
    if docs == [] then []
    else
      var init := Dedup(docs[..|docs| - 1]);
      var last := docs[|docs| - 1];
      if last.url in Urls(init) then init else init + [last]
  }

  /**
   * The dedup loop. A dict keeps its keys in insertion order and a stored value is never replaced,
   * so its values are the documents in the order they were first stored: `finalDocs` is that list.
   */
  method DedupByUrl(docs: seq<Doc>) returns (finalDocs: seq<Doc>)
    ensures finalDocs == Dedup(docs)
  {
    var unique: map<string, Doc> := map[];
    finalDocs := [];
    for i := 0 to |docs|
      invariant finalDocs == Dedup(docs[..i])
      invariant forall u :: u in unique <==> u in Urls(finalDocs)
    {
      assert docs[..i + 1][..i] == docs[..i];
      var url := docs[i].url;
      if url !in unique {
        unique := unique[url := docs[i]];
        assert Urls(finalDocs + [docs[i]]) == Urls(finalDocs) + [url];
        finalDocs := finalDocs + [docs[i]];
      }
    }
    assert docs[..|docs|] == docs;
  }

  /**
   * Dedup keeps, in increasing order of position, exactly the documents that are the first with their
   * URL: the lemma returns their positions idx.
   */
  lemma DedupPositions(docs: seq<Doc>)
    ensures |Positions(docs)| == |Dedup(docs)|
    ensures forall k :: 0 <= k < |Positions(docs)| ==>
      Positions(docs)[k] < |docs| && Dedup(docs)[k] == docs[Positions(docs)[k]]
    ensures forall k, j :: 0 <= k < |Positions(docs)| && 0 <= j < Positions(docs)[k] ==>
      docs[j].url != docs[Positions(docs)[k]].url
    ensures forall k, l :: 0 <= k < l < |Positions(docs)| ==> Positions(docs)[k] < Positions(docs)[l]
  {
    PositionsPick(docs);
    PositionsFirst(docs);
    PositionsIncreasing(docs);
  }

  /** The positions in docs of the documents Dedup keeps. */
  ghost function Positions(docs: seq<Doc>): (idx: seq<nat>)
    ensures |idx| == |Dedup(docs)|
    ensures forall k :: 0 <= k < |idx| ==> idx[k] < |docs|
    decreases |docs|
  {
    if docs == [] then []
    else
      var n := |docs| - 1;
      var i0 := Positions(docs[..n]);
      if docs[n].url in Urls(Dedup(docs[..n])) then i0 else i0 + [n]
  }

  lemma {:induction false} PositionsPick(docs: seq<Doc>)
    ensures forall k :: 0 <= k < |Positions(docs)| ==> Dedup(docs)[k] == docs[Positions(docs)[k]]
    decreases |docs|
  {
    if docs != [] {
      var n := |docs| - 1;
      var init := docs[..n];
      PositionsPick(init);
      var i0, r0 := Positions(init), Dedup(init);
      assert forall j :: 0 <= j < n ==> init[j] == docs[j];
      if docs[n].url in Urls(r0) {
        assert Positions(docs) == i0 && Dedup(docs) == r0;
      } else {
        assert Positions(docs) == i0 + [n] && Dedup(docs) == r0 + [docs[n]];
      }
    }
  }

  lemma {:induction false} PositionsFirst(docs: seq<Doc>)
    ensures forall k, j :: 0 <= k < |Positions(docs)| && 0 <= j < Positions(docs)[k] ==>
      docs[j].url != docs[Positions(docs)[k]].url
    decreases |docs|
  {
    if docs != [] {
      var n := |docs| - 1;
      var init := docs[..n];
      PositionsFirst(init);
      var i0, r0 := Positions(init), Dedup(init);
      assert forall j :: 0 <= j < n ==> init[j] == docs[j];
      if docs[n].url in Urls(r0) {
        assert Positions(docs) == i0;
      } else {
        assert Positions(docs) == i0 + [n];
        DedupCovers(init);
        forall j | 0 <= j < n ensures docs[j].url != docs[n].url {
          assert init[j].url in Urls(r0);
        }
      }
    }
  }

  lemma {:induction false} PositionsIncreasing(docs: seq<Doc>)
    ensures forall k, l :: 0 <= k < l < |Positions(docs)| ==> Positions(docs)[k] < Positions(docs)[l]
    decreases |docs|
  {
    if docs != [] {
      var n := |docs| - 1;
      var init := docs[..n];
      PositionsIncreasing(init);
      var i0 := Positions(init);
      if docs[n].url !in Urls(Dedup(init)) {
        assert Positions(docs) == i0 + [n];
      }
    }
  }

  /** Every URL of the input is the URL of a kept document. */
  lemma {:induction false} DedupCovers(docs: seq<Doc>)
    ensures forall j :: 0 <= j < |docs| ==> docs[j].url in Urls(Dedup(docs))
    decreases |docs|
  {
    if docs != [] {
      var n := |docs| - 1;
      var init := docs[..n];
      var r0 := Dedup(init);
      DedupCovers(init);
      assert forall j :: 0 <= j < n ==> init[j] == docs[j];
      if docs[n].url !in Urls(r0) {
        assert Urls(r0 + [docs[n]]) == Urls(r0) + [docs[n].url];
      }
    }
  }

  /**
   * Dedup keeps every URL of its input exactly once, each time with a document that no earlier
   * document shares its URL with, and in their order of appearance.
   */
  lemma DedupSpec(docs: seq<Doc>)
    ensures forall j :: 0 <= j < |docs| ==> docs[j].url in Urls(Dedup(docs))
    ensures forall k, l :: 0 <= k < l < |Dedup(docs)| ==> Dedup(docs)[k].url != Dedup(docs)[l].url
    ensures forall k :: 0 <= k < |Dedup(docs)| ==>
      (exists j :: 0 <= j < |docs| && Dedup(docs)[k] == docs[j] && forall i :: 0 <= i < j ==> docs[i].url != docs[j].url)
  {
    DedupPositions(docs);
    var idx := Positions(docs);
    DedupCovers(docs);
    var r := Dedup(docs);
    forall k, l | 0 <= k < l < |r| ensures r[k].url != r[l].url {
      assert idx[k] < idx[l];
    }
    forall k | 0 <= k < |r|
      ensures exists j :: 0 <= j < |docs| && r[k] == docs[j] && forall i :: 0 <= i < j ==> docs[i].url != docs[j].url
    {
      assert r[k] == docs[idx[k]];
    }
  }

  // ---------------------------------------------------------------- upsert_docs

  /** The counters of upsert_docs and the ids of the documents that failed ("errors"). */
  datatype Counts = Counts(success: nat, failed: nat, added: nat, updated: nat, errors: seq<string>)

  /** What upsert_docs has done so far: the store and the counters. */
  datatype Progress = Progress(store: Lists, counts: Counts)

  /**
   * One iteration: the embedding (None when encode_docs raises), then the existence check, the
   * upsert of one entry and the counters. This is the corrected check `doc["id"] in store.ids`.
   */
  function Step(p: Progress, doc: Doc, encode: string -> Option<seq<real>>): (q: Progress)
    requires p.store.Valid()
    ensures q.store.Valid()
  {
    var c := p.counts;
    match encode(doc.text)
    case None => Progress(p.store, c.(failed := c.failed + 1, errors := c.errors + [doc.id]))
    case Some(e) =>
      var existing := doc.id in p.store.ids;
      Progress(Put(p.store, doc.id, Entry(doc.text, e, doc.meta)),
               c.(success := c.success + 1,
                  updated := if existing then c.updated + 1 else c.updated,
                  added := if existing then c.added else c.added + 1))
  }

  /** The loop over docs. */
  function Run(p: Progress, docs: seq<Doc>, encode: string -> Option<seq<real>>): (q: Progress)
    requires p.store.Valid()
    ensures q.store.Valid()
  {
    if docs == [] then p else Step(Run(p, docs[..|docs| - 1], encode), docs[|docs| - 1], encode)
  }

  const NoCounts := Counts(0, 0, 0, 0, [])

  /** The dict upsert_docs returns, without its timings. */
  datatype UpsertResult = UpsertResult(total: nat, counts: Counts, storeError: bool)

  /**
   * upsert_docs: when the store cannot be loaded the counters stay 0 and a store error is reported;
   * otherwise every document is embedded and upserted in turn.
   */
  method UpsertDocs(store: VectorStore, docs: seq<Doc>, encode: string -> Option<seq<real>>, available: bool)
    returns (r: UpsertResult)
    requires store.Contents().Valid()
    modifies store
    ensures !available ==> r == UpsertResult(|docs|, NoCounts, true) && store.Contents() == old(store.Contents())
    ensures available ==> var q := Run(Progress(old(store.Contents()), NoCounts), docs, encode);
      r == UpsertResult(|docs|, q.counts, false) && store.Contents() == q.store
  {
    if !available {
      return UpsertResult(|docs|, NoCounts, true);
    }
    var counts := NoCounts;
    ghost var l0 := store.Contents();
    for i := 0 to |docs|
      invariant store.Contents().Valid()
      invariant Progress(store.Contents(), counts) == Run(Progress(l0, NoCounts), docs[..i], encode)
    {
      assert docs[..i + 1][..i] == docs[..i];
      var doc := docs[i];
      var e := encode(doc.text);
      if e.None? {
        counts := counts.(failed := counts.failed + 1, errors := counts.errors + [doc.id]);
      } else {
        var existing := doc.id in store.ids;
        store.Upsert([doc.id], [doc.text], [e.value], [doc.meta]);
        assert PutAll(Progress(old(store.Contents()), counts).store, Batch([doc.id], [doc.text], [e.value], [doc.meta]), 0)
          == old(store.Contents());
        counts := counts.(success := counts.success + 1,
                          updated := if existing then counts.updated + 1 else counts.updated,
                          added := if existing then counts.added else counts.added + 1);
      }
    }
    assert docs[..|docs|] == docs;
    r := UpsertResult(|docs|, counts, false);
  }

  /**
   * The counters add up: success + failed = total, added + updated = success, one error per failure;
   * and added is exactly how many ids the store gained.
   */
  lemma {:induction false} RunCounts(l: Lists, docs: seq<Doc>, encode: string -> Option<seq<real>>)
    requires l.Valid()
    ensures var c := Run(Progress(l, NoCounts), docs, encode).counts;
      c.success + c.failed == |docs| && c.added + c.updated == c.success && |c.errors| == c.failed
      && |Run(Progress(l, NoCounts), docs, encode).store.ids| == |l.ids| + c.added
    decreases |docs|
  {
    if docs != [] {
      RunCounts(l, docs[..|docs| - 1], encode);
      var p := Run(Progress(l, NoCounts), docs[..|docs| - 1], encode);
      var doc := docs[|docs| - 1];
      if encode(doc.text).Some? {
        PutShape(p.store, doc.id, Entry(doc.text, encode(doc.text).value, doc.meta));
      }
    }
  }

  /** Every document that embeds is in the store afterwards, with the last such document's entry for its id. */
  lemma {:induction false} RunStores(l: Lists, docs: seq<Doc>, encode: string -> Option<seq<real>>)
    requires l.Valid()
    ensures var s := Run(Progress(l, NoCounts), docs, encode).store;
      (forall id :: id in l.ids ==> id in s.ids)
      && (forall k :: 0 <= k < |docs| && encode(docs[k].text).Some? ==> docs[k].id in s.ids)
    decreases |docs|
  {
    if docs != [] {
      RunStores(l, docs[..|docs| - 1], encode);
      var p := Run(Progress(l, NoCounts), docs[..|docs| - 1], encode);
      var doc := docs[|docs| - 1];
      if encode(doc.text).Some? {
        PutShape(p.store, doc.id, Entry(doc.text, encode(doc.text).value, doc.meta));
      }
      assert forall k :: 0 <= k < |docs| - 1 ==> docs[..|docs| - 1][k] == docs[k];
    }
  }

  /** A document is counted as updated exactly when its id was already stored before its own upsert. */
  lemma UpdatedIffExisting(p: Progress, doc: Doc, encode: string -> Option<seq<real>>)
    requires p.store.Valid() && encode(doc.text).Some?
    ensures Step(p, doc, encode).counts.updated == p.counts.updated + 1 <==> doc.id in p.store.ids
    ensures Step(p, doc, encode).counts.added == p.counts.added + 1 <==> doc.id !in p.store.ids
    ensures doc.id in Step(p, doc, encode).store.ids
  {
    PutShape(p.store, doc.id, Entry(doc.text, encode(doc.text).value, doc.meta));
  }

  // ---------------------------------------------------------------- upsert_docs as written

  /**
   * One iteration as written: `any(d["id"] == doc["id"] for d in store.documents)` indexes a document
   * string with "id", which raises TypeError as soon as the store holds a document; the handler
   * counts the document as failed.
   */
  function StepAsWritten(p: Progress, doc: Doc, encode: string -> Option<seq<real>>): (q: Progress)
    requires p.store.Valid()
    ensures q.store.Valid()
  {
    var c := p.counts;
    if encode(doc.text).None? || |p.store.documents| > 0 then
      Progress(p.store, c.(failed := c.failed + 1, errors := c.errors + [doc.id]))
    else
      Progress(Put(p.store, doc.id, Entry(doc.text, encode(doc.text).value, doc.meta)),
               c.(success := c.success + 1, added := c.added + 1))
  }

  function RunAsWritten(p: Progress, docs: seq<Doc>, encode: string -> Option<seq<real>>): (q: Progress)
    requires p.store.Valid()
    ensures q.store.Valid()
  {
    if docs == [] then p else StepAsWritten(RunAsWritten(p, docs[..|docs| - 1], encode), docs[|docs| - 1], encode)
  }

  /**
   * As written, upsert_docs never counts an update and stores at most one document per run, and none
   * at all when the store already holds documents: every other document counts as failed.
   */
  lemma {:induction false} RunAsWrittenStoresAtMostOne(l: Lists, docs: seq<Doc>, encode: string -> Option<seq<real>>)
    requires l.Valid()
    ensures var q := RunAsWritten(Progress(l, NoCounts), docs, encode);
      q.counts.updated == 0 && q.counts.success <= 1 && q.counts.success + q.counts.failed == |docs|
      && (|l.documents| > 0 ==> q.counts.success == 0 && q.store == l)
      && (q.counts.success == 1 ==> |q.store.documents| > 0)
    decreases |docs|
  {
    if docs != [] {
      RunAsWrittenStoresAtMostOne(l, docs[..|docs| - 1], encode);
      var p := RunAsWritten(Progress(l, NoCounts), docs[..|docs| - 1], encode);
      var doc := docs[|docs| - 1];
      if p.counts.success == 0 && encode(doc.text).Some? && |p.store.documents| == 0 {
        PutShape(p.store, doc.id, Entry(doc.text, encode(doc.text).value, doc.meta));
      }
    }
  }

  /** Two documents with distinct ids on an empty store: as written the second fails, corrected both are added. */
  lemma SecondDocumentFails(a: Doc, b: Doc, encode: string -> Option<seq<real>>)
    requires encode(a.text).Some? && encode(b.text).Some? && a.id != b.id
    ensures RunAsWritten(Progress(Empty, NoCounts), [a, b], encode).counts.failed == 1
    ensures Run(Progress(Empty, NoCounts), [a, b], encode).counts.added == 2
  {
    assert [a, b][..1] == [a];
    assert [a][..0] == [];
    var p0 := Progress(Empty, NoCounts);
    var s0 := Put(Empty, a.id, Entry(a.text, encode(a.text).value, a.meta));
    PutShape(Empty, a.id, Entry(a.text, encode(a.text).value, a.meta));
    assert s0.ids == [a.id];
    assert RunAsWritten(p0, [a], encode) == StepAsWritten(p0, a, encode);
    assert StepAsWritten(p0, a, encode).store == s0 && |s0.documents| == 1;
    assert Run(p0, [a], encode) == Step(p0, a, encode);
    assert Step(p0, a, encode).store == s0 && Step(p0, a, encode).counts.added == 1;
    assert b.id !in s0.ids;
  }

  /** E5Embedder has no encode_docs: the call raises AttributeError for every document. */
  function NoEncodeDocs(text: string): Option<seq<real>>
  {
    None
  }

  /**
   * As written, the AttributeError of encode_docs comes first: every document counts as failed, with
   * its id in errors in input order, and the store is unchanged, whatever the existence check would do.
   */
  lemma {:induction false} MissingEncodeDocsFailsAll(l: Lists, docs: seq<Doc>)
    requires l.Valid()
    ensures var q := RunAsWritten(Progress(l, NoCounts), docs, NoEncodeDocs);
      && q.store == l && q.counts.success == 0 && q.counts.failed == |docs|
      && |q.counts.errors| == |docs| && forall k :: 0 <= k < |docs| ==> q.counts.errors[k] == docs[k].id
    decreases |docs|
  {
    if docs != [] {
      MissingEncodeDocsFailsAll(l, docs[..|docs| - 1]);
      assert forall k :: 0 <= k < |docs| - 1 ==> docs[..|docs| - 1][k] == docs[k];
    }
  }

  // ---------------------------------------------------------------- incremental_pipeline

  /**
   * incremental_pipeline after fetch_new_posts: nothing happens without new posts or without a
   * post that survives preprocessing; otherwise the deduplicated documents are upserted.
   */
  method IncrementalPipeline(store: VectorStore, posts: seq<Post>, md5: string -> string, isWord: char -> bool,
                             encode: string -> Option<seq<real>>, available: bool)
    returns (r: Option<UpsertResult>)
    requires store.Contents().Valid()
    modifies store
    ensures ProcessAll(posts, md5, isWord) == [] ==> r.None? && store.Contents() == old(store.Contents())
    ensures ProcessAll(posts, md5, isWord) != [] ==> r.Some? && r.value.total == |Dedup(ProcessAll(posts, md5, isWord))|
    ensures ProcessAll(posts, md5, isWord) != [] && available ==>
      store.Contents() == Run(Progress(old(store.Contents()), NoCounts), Dedup(ProcessAll(posts, md5, isWord)), encode).store
  {
    if posts == [] {
      return None;
    }
    var processed := ProcessPosts(posts, md5, isWord);
    if processed == [] {
      return None;
    }
    var finalDocs := DedupByUrl(processed);
    var result := UpsertDocs(store, finalDocs, encode, available);
    r := Some(result);
  }
}
