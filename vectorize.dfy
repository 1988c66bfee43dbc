/**
 * src/modules/vectorize_to_chroma.py: load new posts from a JSONL file, cut each into chunks with
 * split_chunks(content, 500, 100), give every chunk the id f"{logno}:{idx:03d}" and a 14-key
 * metadata record, upsert them in batches of 100 with a per-item fallback, and report counts.
 */
module Vectorize {
  import opened Wrappers
  import opened Strings
  import opened Collections
  import opened Chroma
  import opened ChunkIds
  import opened PostJson
  import opened ChromaBatches
  import UtilsText
  import J = EmbedChunked

  // ---------------------------------------------------------------- load_new_docs

  /** One line of the JSONL file, after json.loads(line.strip()). */
  datatype Line = Parsed(doc: JDoc) | Unparsable

  datatype LoadError = FileNotFound

  /** The parsed lines, in file order; a line that fails to parse is skipped. */
  function Loaded(lines: seq<Line>): (docs: seq<JDoc>)
    ensures |docs| <= |lines|
    ensures forall d :: d in docs ==> Parsed(d) in lines
  {
    if lines == [] then []
    else
      var init := Loaded(lines[..|lines| - 1]);
      var last := lines[|lines| - 1];
      assert forall l :: l in lines[..|lines| - 1] ==> l in lines;
      if last.Parsed? then init + [last.doc] else init
  }

  /** load_new_docs: FileNotFoundError for a missing file, else the loop over the lines. */
  method LoadNewDocs(fileExists: bool, lines: seq<Line>) returns (r: Result<seq<JDoc>, LoadError>)
    ensures !fileExists ==> r == Err(FileNotFound)
    ensures fileExists ==> r == Ok(Loaded(lines))
  {
    if !fileExists {
      return Err(FileNotFound);
    }
    var docs: seq<JDoc> := [];
    for n := 0 to |lines|
      invariant docs == Loaded(lines[..n])
    {
      assert lines[..n + 1][..n] == lines[..n];
      match lines[n]
      case Parsed(doc) => docs := docs + [doc];
      case Unparsable =>
    }
    assert lines[..|lines|] == lines;
    r := Ok(docs);
  }

  /** Loading keeps the order of the file: two stretches of lines load as the two results one after the other. */
  lemma {:induction false} LoadedAppend(a: seq<Line>, b: seq<Line>)
    ensures Loaded(a + b) == Loaded(a) + Loaded(b)
    decreases |b|
  {
    if b != [] {
      var b' := b[..|b| - 1];
      LoadedAppend(a, b');
      assert (a + b)[..|a + b| - 1] == a + b';
    } else {
      assert a + b == a;
    }
  }

  /** A file whose every line parses loads every line, in order. */
  lemma {:induction false} LoadedAllParsed(lines: seq<Line>)
    requires forall i :: 0 <= i < |lines| ==> lines[i].Parsed?
    ensures |Loaded(lines)| == |lines|
    ensures forall i :: 0 <= i < |lines| ==> Loaded(lines)[i] == lines[i].doc
    decreases |lines|
  {
    if lines != [] {
      var init := lines[..|lines| - 1];
      var last := lines[|lines| - 1];
      assert forall i :: 0 <= i < |init| ==> init[i] == lines[i];
      LoadedAllParsed(init);
      assert last.Parsed?;
      assert Loaded(lines) == Loaded(init) + [last.doc];
      forall i | 0 <= i < |lines| ensures Loaded(lines)[i] == lines[i].doc {
        if i < |init| {
          assert Loaded(lines)[i] == Loaded(init)[i];
        }
      }
    }
  }

  // ---------------------------------------------------------------- prepare_chunks_for_chroma

  /** A conversion of prepare_chunks_for_chroma that raises. */
  datatype PrepError = BadLogno | BadCategory | BadContent

  /** int(doc.get("logno", doc.get("post_no", 0))) */
  function DocLogno(doc: JDoc): Option<int>
  {
    PyInt(Field(doc, "logno", Field(doc, "post_no", J.Int(0))))
  }

  /** int(doc.get("category_no", 0)) */
  function DocCategory(doc: JDoc): Option<int>
  {
    PyInt(Field(doc, "category_no", J.Int(0)))
  }

  /** split_chunks(content, max_tokens=500, overlap=100), which always returns at least one chunk. */
  function DocChunks(content: string): (cs: seq<string>)
    ensures |cs| >= 1
  {
    SplitChunksOk(content);
    UtilsText.SplitChunksSpec(content, 500, 100).value
  }

  lemma SplitChunksOk(content: string)
    ensures UtilsText.SplitChunksSpec(content, 500, 100).Ok?
    ensures |UtilsText.SplitChunksSpec(content, 500, 100).value| >= 1
  {
  }

  /** The metadata of chunk i of n of a post. */
  function ChunkMeta(doc: JDoc, logno: int, category: int, i: nat, n: nat, runId: string, sourceFile: string): Meta
  {
    var catName := UtilsText.NormalizeCategoryName(category, None);
    map[
      "cat" := MStr(catName),
      "date" := ToMVal(Field(doc, "published_at", Field(doc, "posted_at", J.Str("")))),
      "title" := ToMVal(Field(doc, "title", J.Str(""))),
      "url" := ToMVal(Field(doc, "url", J.Str(""))),
      "author" := ToMVal(Field(doc, "author", J.Str(""))),
      "post_type" := MStr("blog_post"),
      "logno" := MInt(logno),
      "chunk_idx" := MInt(i),
      "run_id" := MStr(runId),
      "source_file" := MStr(sourceFile),
      "category_no" := MInt(category),
      "category_name" := MStr(catName),
      "content_hash" := ToMVal(Field(doc, "content_hash", J.Str(""))),
      "chunk_count" := MInt(n)
    ]
  }

  /** The fields the rest of the pipeline relies on. */
  lemma ChunkMetaFields(doc: JDoc, logno: int, category: int, i: nat, n: nat, runId: string, sourceFile: string)
    ensures var m := ChunkMeta(doc, logno, category, i, n, runId, sourceFile);
      && "logno" in m && m["logno"] == MInt(logno)
      && "chunk_idx" in m && m["chunk_idx"] == MInt(i)
      && "chunk_count" in m && m["chunk_count"] == MInt(n)
      && "run_id" in m && m["run_id"] == MStr(runId)
      && "source_file" in m && m["source_file"] == MStr(sourceFile)
      && "post_type" in m && m["post_type"] == MStr("blog_post")
      && "category_no" in m && m["category_no"] == MInt(category)
  {
  }

  /** The entries of one post, or the conversion that raises (logno first, then category_no, then content). */
  function DocPrepared(doc: JDoc, runId: string, sourceFile: string): Result<Prepared, PrepError>
  {
    match DocLogno(doc)
    case None => Err(BadLogno)
    case Some(logno) =>
      match DocCategory(doc)
      case None => Err(BadCategory)
      case Some(category) =>
        match Content(doc)
        case None => Err(BadContent)
        case Some(content) =>
          var cs := DocChunks(content);
          Ok(Prepared(
            seq(|cs|, i requires 0 <= i < |cs| => ChunkId(IntToString(logno), i)),
            cs,
            seq(|cs|, i requires 0 <= i < |cs| => ChunkMeta(doc, logno, category, i, |cs|, runId, sourceFile))))
  }

  /** prepare_chunks_for_chroma: the entries of every post in order, or the first conversion that raises. */
  function PrepareSpec(docs: seq<JDoc>, runId: string, sourceFile: string): (r: Result<Prepared, PrepError>)
    ensures r.Ok? ==> |r.value.ids| == |r.value.documents| == |r.value.metadatas|
  {
    if docs == [] then Ok(Prepared([], [], []))
    else
      var init := PrepareSpec(docs[..|docs| - 1], runId, sourceFile);
      if init.Err? then init
      else
        var last := DocPrepared(docs[|docs| - 1], runId, sourceFile);
        if last.Err? then Err(last.error)
        else Ok(Prepared(init.value.ids + last.value.ids, init.value.documents + last.value.documents,
                         init.value.metadatas + last.value.metadatas))
  }

  /** The nested loops of prepare_chunks_for_chroma. */
  method PrepareChunks(docs: seq<JDoc>, runId: string, sourceFile: string) returns (r: Result<Prepared, PrepError>)
    ensures r == PrepareSpec(docs, runId, sourceFile)
  {
    var ids: seq<string> := [];
    var documents: seq<string> := [];
    var metadatas: seq<Meta> := [];
    for d := 0 to |docs|
      invariant PrepareSpec(docs[..d], runId, sourceFile) == Ok(Prepared(ids, documents, metadatas))
    {
      assert docs[..d + 1][..d] == docs[..d];
      var doc := docs[d];
      var logno := DocLogno(doc);
      if logno.None? {
        ErrorStays(docs, d + 1, runId, sourceFile);
        return Err(BadLogno);
      }
      var category := DocCategory(doc);
      if category.None? {
        ErrorStays(docs, d + 1, runId, sourceFile);
        return Err(BadCategory);
      }
      var content := Content(doc);
      if content.None? {
        ErrorStays(docs, d + 1, runId, sourceFile);
        return Err(BadContent);
      }
      var chunks := DocChunks(content.value);
      var entries := Entries(doc, logno.value, category.value, chunks, runId, sourceFile);
      assert DocPrepared(doc, runId, sourceFile) == Ok(entries);
      ids, documents, metadatas := ids + entries.ids, documents + entries.documents, metadatas + entries.metadatas;
    }
    assert docs[..|docs|] == docs;
    r := Ok(Prepared(ids, documents, metadatas));
  }

  /** The inner loop over enumerate(chunks). */
  method Entries(doc: JDoc, logno: int, category: int, chunks: seq<string>, runId: string, sourceFile: string)
    returns (p: Prepared)
    ensures p.ids == seq(|chunks|, i requires 0 <= i < |chunks| => ChunkId(IntToString(logno), i))
    ensures p.documents == chunks
    ensures p.metadatas == seq(|chunks|, i requires 0 <= i < |chunks| => ChunkMeta(doc, logno, category, i, |chunks|, runId, sourceFile))
  {
    var ids: seq<string> := [];
    var metadatas: seq<Meta> := [];
    for i := 0 to |chunks|
      invariant |ids| == i && forall k :: 0 <= k < i ==> ids[k] == ChunkId(IntToString(logno), k)
      invariant |metadatas| == i
      invariant forall k :: 0 <= k < i ==> metadatas[k] == ChunkMeta(doc, logno, category, k, |chunks|, runId, sourceFile)
    {
      ids := ids + [ChunkId(IntToString(logno), i)];
      metadatas := metadatas + [ChunkMeta(doc, logno, category, i, |chunks|, runId, sourceFile)];
    }
    p := Prepared(ids, chunks, metadatas);
  }

  /** Once a post raises, prepare_chunks_for_chroma raises the same error whatever follows. */
  lemma {:induction false} ErrorStays(docs: seq<JDoc>, k: nat, runId: string, sourceFile: string)
    requires 0 < k <= |docs|
    requires PrepareSpec(docs[..k - 1], runId, sourceFile).Ok?
    requires DocPrepared(docs[k - 1], runId, sourceFile).Err?
    ensures PrepareSpec(docs, runId, sourceFile) == Err(DocPrepared(docs[k - 1], runId, sourceFile).error)
    decreases |docs|
  {
    if k < |docs| {
      assert docs[..|docs| - 1][..k - 1] == docs[..k - 1];
      ErrorStays(docs[..|docs| - 1], k, runId, sourceFile);
    } else {
      assert docs[..k - 1] == docs[..|docs| - 1];
    }
  }

  /** What each entry carries: its id is built from its logno and chunk index, run and file verbatim. */
  predicate EntryOk(id: string, m: Meta, runId: string, sourceFile: string)
  {
    && "logno" in m && m["logno"].MInt?
    && "chunk_idx" in m && m["chunk_idx"].MInt? && m["chunk_idx"].i >= 0
    && "chunk_count" in m && m["chunk_count"].MInt? && m["chunk_idx"].i < m["chunk_count"].i
    && "run_id" in m && m["run_id"] == MStr(runId)
    && "source_file" in m && m["source_file"] == MStr(sourceFile)
    && "post_type" in m && m["post_type"] == MStr("blog_post")
    && id == ChunkId(IntToString(m["logno"].i), m["chunk_idx"].i)
  }

  /** The lognos of the posts that convert. */
  function Lognos(docs: seq<JDoc>): set<int>
  {
    if docs == [] then {}
    else
      var last := DocLogno(docs[|docs| - 1]);
      Lognos(docs[..|docs| - 1]) + (if last.Some? then {last.value} else {})
  }

  lemma DocPreparedShape(doc: JDoc, runId: string, sourceFile: string)
    requires DocPrepared(doc, runId, sourceFile).Ok?
    ensures var p := DocPrepared(doc, runId, sourceFile).value;
      |p.ids| == |p.documents| == |p.metadatas| >= 1
      && (forall k :: 0 <= k < |p.ids| ==> EntryOk(p.ids[k], p.metadatas[k], runId, sourceFile))
      && (forall k :: 0 <= k < |p.ids| ==> Some(p.metadatas[k]["logno"].i) == DocLogno(doc))
      && (forall k :: 0 <= k < |p.ids| ==> p.metadatas[k]["chunk_idx"] == MInt(k) && p.metadatas[k]["chunk_count"] == MInt(|p.ids|))
  {
    var p := DocPrepared(doc, runId, sourceFile).value;
    var logno := DocLogno(doc).value;
    var category := DocCategory(doc).value;
    forall k | 0 <= k < |p.ids|
      ensures EntryOk(p.ids[k], p.metadatas[k], runId, sourceFile)
      ensures Some(p.metadatas[k]["logno"].i) == DocLogno(doc)
      ensures p.metadatas[k]["chunk_idx"] == MInt(k) && p.metadatas[k]["chunk_count"] == MInt(|p.ids|)
    {
      ChunkMetaFields(doc, logno, category, k, |p.ids|, runId, sourceFile);
      assert p.metadatas[k] == ChunkMeta(doc, logno, category, k, |p.ids|, runId, sourceFile);
      assert p.ids[k] == ChunkId(IntToString(logno), k);
    }
  }

  /**
   * prepare_chunks_for_chroma returns three equal-length lists, at least one entry per post, and
   * every entry carries its provenance and an id made of its own logno and chunk index.
   */
  lemma {:induction false} PrepareShape(docs: seq<JDoc>, runId: string, sourceFile: string)
    requires PrepareSpec(docs, runId, sourceFile).Ok?
    ensures var p := PrepareSpec(docs, runId, sourceFile).value;
      |p.ids| == |p.documents| == |p.metadatas| >= |docs|
      && (forall k :: 0 <= k < |p.ids| ==> EntryOk(p.ids[k], p.metadatas[k], runId, sourceFile))
      && (forall k :: 0 <= k < |p.ids| ==> p.metadatas[k]["logno"].i in Lognos(docs))
    decreases |docs|
  {
    if docs != [] {
      var init := docs[..|docs| - 1];
      PrepareShape(init, runId, sourceFile);
      DocPreparedShape(docs[|docs| - 1], runId, sourceFile);
      var a := PrepareSpec(init, runId, sourceFile).value;
      var b := DocPrepared(docs[|docs| - 1], runId, sourceFile).value;
      var p := PrepareSpec(docs, runId, sourceFile).value;
      assert p.ids == a.ids + b.ids && p.metadatas == a.metadatas + b.metadatas;
      forall k | 0 <= k < |p.ids|
        ensures EntryOk(p.ids[k], p.metadatas[k], runId, sourceFile) && p.metadatas[k]["logno"].i in Lognos(docs)
      {
        if k < |a.ids| {
          assert p.ids[k] == a.ids[k] && p.metadatas[k] == a.metadatas[k];
        } else {
          assert p.ids[k] == b.ids[k - |a.ids|] && p.metadatas[k] == b.metadatas[k - |a.ids|];
        }
      }
    }
  }

  /** The posts' lognos are pairwise different. */
  ghost predicate DistinctLognos(docs: seq<JDoc>)
  {
    forall i, j :: 0 <= i < j < |docs| ==> DocLogno(docs[i]) != DocLogno(docs[j])
  }

  lemma {:induction false} LognosOther(docs: seq<JDoc>, l: int)
    requires forall i :: 0 <= i < |docs| ==> DocLogno(docs[i]) != Some(l)
    ensures l !in Lognos(docs)
    decreases |docs|
  {
    if docs != [] {
      LognosOther(docs[..|docs| - 1], l);
    }
  }

  /** Posts with distinct lognos get distinct chunk ids. */
  lemma {:induction false} PrepareIdsDistinct(docs: seq<JDoc>, runId: string, sourceFile: string)
    requires PrepareSpec(docs, runId, sourceFile).Ok? && DistinctLognos(docs)
    ensures Distinct(PrepareSpec(docs, runId, sourceFile).value.ids)
    decreases |docs|
  {
    if docs != [] {
      var init := docs[..|docs| - 1];
      var last := docs[|docs| - 1];
      PrepareIdsDistinct(init, runId, sourceFile);
      PrepareShape(init, runId, sourceFile);
      DocPreparedShape(last, runId, sourceFile);
      var a := PrepareSpec(init, runId, sourceFile).value;
      var b := DocPrepared(last, runId, sourceFile).value;
      var l := DocLogno(last).value;
      LognosOther(init, l);
      forall x, y | 0 <= x < |a.ids| && 0 <= y < |b.ids| ensures a.ids[x] != b.ids[y] {
        if a.ids[x] == b.ids[y] {
          IntChunkIdInjective(a.metadatas[x]["logno"].i, a.metadatas[x]["chunk_idx"].i, l, y);
        }
      }
      forall x, y | 0 <= x < y < |b.ids| ensures b.ids[x] != b.ids[y] {
        if b.ids[x] == b.ids[y] {
          IntChunkIdInjective(l, x, l, y);
        }
      }
      DistinctAppend(a.ids, b.ids);
    }
  }

  // ---------------------------------------------------------------- verify_chroma_data

  /** get(where=..., limit=1000000) returns at most a million ids. */
  const GetLimit: nat := 1000000

  function Limited(n: nat): nat { if n <= GetLimit then n else GetLimit }

  /** The counts verify_chroma_data reports; a falsy run_id or source_file leaves its key out. */
  function VerifyReport(s: Store, runId: string, sourceFile: string): (r: map<string, int>)
    requires s.Valid()
    ensures "total_vectors" in r && r["total_vectors"] == |s.ids|
    ensures runId != "" ==> RunKey(runId) in r && r[RunKey(runId)] == Limited(|Selected(s, map["run_id" := MStr(runId)])|)
    ensures sourceFile != "" ==> "file_vectors" in r && r["file_vectors"] == Limited(|Selected(s, map["source_file" := MStr(sourceFile)])|)
    ensures "category_6_vectors" in r && r["category_6_vectors"] == Limited(|Selected(s, map["category_no" := MInt(6)])|)
    ensures |r.Keys| == 2 + (if runId != "" then 1 else 0) + (if sourceFile != "" then 1 else 0)
  {
    var rk := RunKey(runId);
    assert rk[0] == 'r';
    assert rk != "total_vectors" && rk != "file_vectors" && rk != "category_6_vectors";
    var r0 := map["total_vectors" := |s.ids|];
    var r1 := if runId != "" then r0[rk := Limited(|Selected(s, map["run_id" := MStr(runId)])|)] else r0;
    var r2 := if sourceFile != "" then r1["file_vectors" := Limited(|Selected(s, map["source_file" := MStr(sourceFile)])|)] else r1;
    r2["category_6_vectors" := Limited(|Selected(s, map["category_no" := MInt(6)])|)]
  }

  /** f"run_{run_id}_vectors" */
  function RunKey(runId: string): string
  {
    "run_" + runId + "_vectors"
  }

  /**
   * After a fresh collection takes the entries of posts with distinct lognos and no upsert is lost,
   * the run count and the file count both equal the number of chunks (below the get limit).
   */
  lemma CountsAfterFreshRun(docs: seq<JDoc>, runId: string, sourceFile: string, embed: string -> seq<real>)
    requires PrepareSpec(docs, runId, sourceFile).Ok? && DistinctLognos(docs)
    ensures var p := PrepareSpec(docs, runId, sourceFile).value;
      var s := PutAll(Empty, p.ids, Records(p, embed));
      |Selected(s, map["run_id" := MStr(runId)])| == |p.ids|
      && |Selected(s, map["source_file" := MStr(sourceFile)])| == |p.ids|
  {
    var p := PrepareSpec(docs, runId, sourceFile).value;
    PrepareShape(docs, runId, sourceFile);
    PrepareIdsDistinct(docs, runId, sourceFile);
    FreshStoreMetas(p, embed);
    var s := PutAll(Empty, p.ids, Records(p, embed));
    forall k | 0 <= k < |s.ids|
      ensures s.ids[k] in s.recs && Matches(s.recs[s.ids[k]].meta, map["run_id" := MStr(runId)])
      ensures Matches(s.recs[s.ids[k]].meta, map["source_file" := MStr(sourceFile)])
    {
      assert EntryOk(p.ids[k], p.metadatas[k], runId, sourceFile);
    }
    SelectAll(s.ids, s.recs, map["run_id" := MStr(runId)]);
    SelectAll(s.ids, s.recs, map["source_file" := MStr(sourceFile)]);
  }

  /** A fresh collection that takes distinct ids lists them in order, each with its own metadata. */
  lemma FreshStoreMetas(p: Prepared, embed: string -> seq<real>)
    requires |p.ids| == |p.documents| == |p.metadatas| && Distinct(p.ids)
    ensures var s := PutAll(Empty, p.ids, Records(p, embed));
      s.ids == p.ids && forall k :: 0 <= k < |p.ids| ==> p.ids[k] in s.recs && s.recs[p.ids[k]].meta == p.metadatas[k]
  {
    var recs := Records(p, embed);
    PutAllFresh(Empty, p.ids, recs);
    var s := PutAll(Empty, p.ids, recs);
    assert Empty.ids + p.ids == p.ids;
    forall k | 0 <= k < |p.ids| ensures p.ids[k] in s.recs && s.recs[p.ids[k]].meta == p.metadatas[k] {
      assert s.recs[p.ids[k]] == recs[k];
    }
  }
}
