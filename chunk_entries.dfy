/**
 * The chunk entries that the production RAG generator (upsert_to_chroma) and the GPU vectorizer
 * (vectorize_documents) build from posts before their batch upserts: both chunk the content with
 * chunk_text(content, 1200, 200), give chunk i the id f"{logno}:{i:03d}" and the same nine metadata
 * keys, and differ only in where the logno comes from and which conversions can raise.
 */
module ChunkEntries {
  import opened Wrappers
  import opened Strings
  import opened Collections
  import opened Chroma
  import opened ChunkIds
  import opened PostJson
  import opened ChromaBatches
  import CharChunks
  import J = EmbedChunked

  /** Which script builds the entries. */
  datatype Script = Production | Gpu

  /** What raises while preparing: the content, then doc["logno"], int(logno), int(category_no). */
  datatype PrepError = BadContent | MissingLogno | BadLogno | BadCategory

  /** chunk_text(content, max_tokens=1200, overlap=200): the step is 2200, so it never raises. */
  function Chunks(content: string): (cs: seq<string>)
    ensures |cs| >= 1
  {
    CharChunks.ChunkTextShape(content, 1200, 200);
    CharChunks.ChunkTextSpec(content, 1200, 200).value
  }

  /** The GPU vectorizer's logno: doc.get("logNo") or doc.get("logno", "unknown"). */
  function GpuLogno(doc: JDoc): (l: J.Json)
    ensures J.Truthy(Field(doc, "logNo", J.Null)) ==> l == doc["logNo"]
    ensures !J.Truthy(Field(doc, "logNo", J.Null)) && "logno" !in doc ==> l == J.Str("unknown")
  {
    var first := Field(doc, "logNo", J.Null);
    if J.Truthy(first) then first else Field(doc, "logno", J.Str("unknown"))
  }

  /** int(logno) if str(logno).isdigit() else 0 */
  function DigitsOrZero(s: string): (n: int)
    ensures n >= 0
    ensures s != "" && AllDigits(s) ==> n == ParseDigits(s) as int
    ensures s == "" || !AllDigits(s) ==> n == 0
  {
    if s != "" && AllDigits(s) then ParseDigits(s) else 0
  }

  /** The id prefix of a post, when it has one: str of the logno the script reads. */
  function Prefix(script: Script, doc: JDoc): Option<string>
  {
    match script
    case Production => if "logno" in doc then Some(J.PyStr(doc["logno"])) else None
    case Gpu => Some(J.PyStr(GpuLogno(doc)))
  }

  /** The metadata of chunk i of a post. */
  function ChunkMeta(doc: JDoc, logno: int, category: int, i: nat, runId: string, sourceFile: string): Meta
  {
    map[
      "logno" := MInt(logno),
      "chunk_idx" := MInt(i),
      "category_no" := MInt(category),
      "posted_at" := ToMVal(Field(doc, "posted_at", J.Str(""))),
      "title" := ToMVal(Field(doc, "title", J.Str(""))),
      "url" := ToMVal(Field(doc, "url", J.Str(""))),
      "run_id" := MStr(runId),
      "source_file" := MStr(sourceFile),
      "content_hash" := ToMVal(Field(doc, "content_hash", J.Str("")))
    ]
  }

  lemma ChunkMetaFields(doc: JDoc, logno: int, category: int, i: nat, runId: string, sourceFile: string)
    ensures var m := ChunkMeta(doc, logno, category, i, runId, sourceFile);
      && "logno" in m && m["logno"] == MInt(logno)
      && "chunk_idx" in m && m["chunk_idx"] == MInt(i)
      && "run_id" in m && m["run_id"] == MStr(runId)
      && "source_file" in m && m["source_file"] == MStr(sourceFile)
  {
  }

  /** What one post converts to before chunking: its content, id prefix, logno and category. */
  datatype DocValues = DocValues(content: string, prefix: string, logno: int, category: int)

  /**
   * The conversions of one post, in the order they raise. The production script reads doc["logno"]
   * and int()s it; the GPU script falls back to "unknown" and stores 0 for a logno that is not all digits.
   */
  function Convert(script: Script, doc: JDoc): (r: Result<DocValues, PrepError>)
    ensures Content(doc).None? ==> r == Err(BadContent)
    ensures r.Ok? ==> (Prefix(script, doc) == Some(r.value.prefix) && Content(doc) == Some(r.value.content)
      && Some(r.value.category) == PyInt(Field(doc, "category_no", J.Int(0))))
    ensures script.Production? ==> (r.Ok? <==> (Content(doc).Some? && "logno" in doc && PyInt(doc["logno"]).Some?
      && PyInt(Field(doc, "category_no", J.Int(0))).Some?))
    ensures script.Production? && r.Ok? ==> Some(r.value.logno) == PyInt(doc["logno"])
    ensures script.Gpu? ==> (r.Ok? <==> (Content(doc).Some? && PyInt(Field(doc, "category_no", J.Int(0))).Some?))
    ensures script.Gpu? && r.Ok? ==> r.value.logno == DigitsOrZero(J.PyStr(GpuLogno(doc)))
  {
    match Content(doc)
    case None => Err(BadContent)
    case Some(content) =>
      match script
      case Production =>
        if "logno" !in doc then Err(MissingLogno)
        else
          (match PyInt(doc["logno"])
           case None => Err(BadLogno)
           case Some(logno) =>
             match PyInt(Field(doc, "category_no", J.Int(0)))
             case None => Err(BadCategory)
             case Some(category) => Ok(DocValues(content, J.PyStr(doc["logno"]), logno, category)))
      case Gpu =>
        var prefix := J.PyStr(GpuLogno(doc));
        match PyInt(Field(doc, "category_no", J.Int(0)))
        case None => Err(BadCategory)
        case Some(category) => Ok(DocValues(content, prefix, DigitsOrZero(prefix), category))
  }

  /** The entries of one converted post. */
  function EntriesOf(doc: JDoc, v: DocValues, runId: string, sourceFile: string): (p: Prepared)
    ensures |p.ids| == |p.documents| == |p.metadatas| == |Chunks(v.content)|
    ensures p.documents == Chunks(v.content)
    ensures forall i :: 0 <= i < |p.ids| ==> (p.ids[i] == ChunkId(v.prefix, i)
      && p.metadatas[i] == ChunkMeta(doc, v.logno, v.category, i, runId, sourceFile))
  {
    var cs := Chunks(v.content);
    Prepared(
      seq(|cs|, i requires 0 <= i < |cs| => ChunkId(v.prefix, i)),
      cs,
      seq(|cs|, i requires 0 <= i < |cs| => ChunkMeta(doc, v.logno, v.category, i, runId, sourceFile)))
  }

  /** The entries of one post, or what raises. */
  function DocPrepared(script: Script, doc: JDoc, runId: string, sourceFile: string): Result<Prepared, PrepError>
  {
    var v := Convert(script, doc);
    if v.Err? then Err(v.error) else Ok(EntriesOf(doc, v.value, runId, sourceFile))
  }

  /** The loop over docs: every post's entries in order, or the first error. */
  function PrepareSpec(script: Script, docs: seq<JDoc>, runId: string, sourceFile: string): (r: Result<Prepared, PrepError>)
    ensures r.Ok? ==> |r.value.ids| == |r.value.documents| == |r.value.metadatas|
  {
    if docs == [] then Ok(Prepared([], [], []))
    else
      var init := PrepareSpec(script, docs[..|docs| - 1], runId, sourceFile);
      if init.Err? then init
      else
        var last := DocPrepared(script, docs[|docs| - 1], runId, sourceFile);
        if last.Err? then Err(last.error)
        else Ok(Prepared(init.value.ids + last.value.ids, init.value.documents + last.value.documents,
                         init.value.metadatas + last.value.metadatas))
  }

  /** Once a post raises, the preparation raises the same error whatever follows. */
  lemma {:induction false} ErrorStays(script: Script, docs: seq<JDoc>, k: nat, runId: string, sourceFile: string)
    requires 0 < k <= |docs|
    requires PrepareSpec(script, docs[..k - 1], runId, sourceFile).Ok?
    requires DocPrepared(script, docs[k - 1], runId, sourceFile).Err?
    ensures PrepareSpec(script, docs, runId, sourceFile) == Err(DocPrepared(script, docs[k - 1], runId, sourceFile).error)
    decreases |docs|
  {
    if k < |docs| {
      assert docs[..|docs| - 1][..k - 1] == docs[..k - 1];
      ErrorStays(script, docs[..|docs| - 1], k, runId, sourceFile);
    } else {
      assert docs[..k - 1] == docs[..|docs| - 1];
    }
  }

  /** The loop over docs that fills ids, texts and metas before the batches. */
  method Prepare(script: Script, docs: seq<JDoc>, runId: string, sourceFile: string) returns (r: Result<Prepared, PrepError>)
    ensures r == PrepareSpec(script, docs, runId, sourceFile)
  {
    var ids: seq<string> := [];
    var texts: seq<string> := [];
    var metas: seq<Meta> := [];
    for d := 0 to |docs|
      invariant PrepareSpec(script, docs[..d], runId, sourceFile) == Ok(Prepared(ids, texts, metas))
    {
      assert docs[..d + 1][..d] == docs[..d];
      var v := Convert(script, docs[d]);
      if v.Err? {
        ErrorStays(script, docs, d + 1, runId, sourceFile);
        return Err(v.error);
      }
      var e := DocEntries(docs[d], v.value, runId, sourceFile);
      ids, texts, metas := ids + e.ids, texts + e.documents, metas + e.metadatas;
    }
    assert docs[..|docs|] == docs;
    r := Ok(Prepared(ids, texts, metas));
  }

  /** The inner loop over enumerate(chunks) of one post that converts. */
  method DocEntries(doc: JDoc, v: DocValues, runId: string, sourceFile: string) returns (p: Prepared)
    ensures p == EntriesOf(doc, v, runId, sourceFile)
  {
    var chunks := Chunks(v.content);
    var ids: seq<string> := [];
    var metas: seq<Meta> := [];
    for i := 0 to |chunks|
      invariant EntriesUpTo(ids, metas, i, doc, v, runId, sourceFile)
    {
      EntriesStep(ids, metas, i, doc, v, runId, sourceFile);
      ids, metas := ids + [ChunkId(v.prefix, i)], metas + [ChunkMeta(doc, v.logno, v.category, i, runId, sourceFile)];
    }
    EntriesDone(ids, metas, doc, v, runId, sourceFile);
    p := Prepared(ids, chunks, metas);
  }

  /** The loop state of DocEntries after i chunks: the ids and the metadata of chunks 0 .. i - 1. */
  ghost predicate EntriesUpTo(ids: seq<string>, metas: seq<Meta>, i: nat, doc: JDoc, v: DocValues, runId: string, sourceFile: string)
  {
    && |ids| == i && (forall k :: 0 <= k < i ==> ids[k] == ChunkId(v.prefix, k))
    && |metas| == i && (forall k :: 0 <= k < i ==> metas[k] == ChunkMeta(doc, v.logno, v.category, k, runId, sourceFile))
  }

  lemma EntriesStep(ids: seq<string>, metas: seq<Meta>, i: nat, doc: JDoc, v: DocValues, runId: string, sourceFile: string)
    requires EntriesUpTo(ids, metas, i, doc, v, runId, sourceFile)
    ensures EntriesUpTo(ids + [ChunkId(v.prefix, i)], metas + [ChunkMeta(doc, v.logno, v.category, i, runId, sourceFile)],
                        i + 1, doc, v, runId, sourceFile)
  {
    SnocAt(ids, ChunkId(v.prefix, i));
    SnocAt(metas, ChunkMeta(doc, v.logno, v.category, i, runId, sourceFile));
  }

  lemma EntriesDone(ids: seq<string>, metas: seq<Meta>, doc: JDoc, v: DocValues, runId: string, sourceFile: string)
    requires EntriesUpTo(ids, metas, |Chunks(v.content)|, doc, v, runId, sourceFile)
    ensures Prepared(ids, Chunks(v.content), metas) == EntriesOf(doc, v, runId, sourceFile)
  {
    var q := EntriesOf(doc, v, runId, sourceFile);
    assert ids == q.ids;
    assert metas == q.metadatas;
  }

  lemma SnocAt<T>(s: seq<T>, x: T)
    ensures |s + [x]| == |s| + 1 && (s + [x])[|s|] == x && forall k :: 0 <= k < |s| ==> (s + [x])[k] == s[k]
  {
  }

  /**
   * Each entry of a post carries the post's prefix in its id and its converted logno, its chunk index,
   * and the run and file verbatim in its metadata; every post gives at least one entry.
   */
  lemma DocPreparedShape(script: Script, doc: JDoc, runId: string, sourceFile: string)
    requires DocPrepared(script, doc, runId, sourceFile).Ok?
    ensures var p := DocPrepared(script, doc, runId, sourceFile).value;
      var v := Convert(script, doc).value;
      |p.ids| == |p.documents| == |p.metadatas| >= 1
      && forall k :: 0 <= k < |p.ids| ==>
        && p.ids[k] == ChunkId(v.prefix, k)
        && "logno" in p.metadatas[k] && p.metadatas[k]["logno"] == MInt(v.logno)
        && "chunk_idx" in p.metadatas[k] && p.metadatas[k]["chunk_idx"] == MInt(k)
        && "run_id" in p.metadatas[k] && p.metadatas[k]["run_id"] == MStr(runId)
        && "source_file" in p.metadatas[k] && p.metadatas[k]["source_file"] == MStr(sourceFile)
  {
    var p := DocPrepared(script, doc, runId, sourceFile).value;
    var v := Convert(script, doc).value;
    forall k | 0 <= k < |p.ids|
      ensures "logno" in p.metadatas[k] && p.metadatas[k]["logno"] == MInt(v.logno)
      ensures "chunk_idx" in p.metadatas[k] && p.metadatas[k]["chunk_idx"] == MInt(k)
      ensures "run_id" in p.metadatas[k] && p.metadatas[k]["run_id"] == MStr(runId)
      ensures "source_file" in p.metadatas[k] && p.metadatas[k]["source_file"] == MStr(sourceFile)
    {
      ChunkMetaFields(doc, v.logno, v.category, k, runId, sourceFile);
      assert p.metadatas[k] == ChunkMeta(doc, v.logno, v.category, k, runId, sourceFile);
    }
  }

  /** The id prefixes of all posts are pairwise different. */
  ghost predicate DistinctPrefixes(script: Script, docs: seq<JDoc>)
  {
    forall i, j :: 0 <= i < j < |docs| && Prefix(script, docs[i]).Some? && Prefix(script, docs[j]).Some? ==>
      Prefix(script, docs[i]) != Prefix(script, docs[j])
  }

  /** The id prefixes of the posts that have one. */
  function Prefixes(script: Script, docs: seq<JDoc>): set<string>
  {
    if docs == [] then {}
    else
      var last := Prefix(script, docs[|docs| - 1]);
      Prefixes(script, docs[..|docs| - 1]) + (if last.Some? then {last.value} else {})
  }

  lemma {:induction false} PrefixesOther(script: Script, docs: seq<JDoc>, p: string)
    requires forall i :: 0 <= i < |docs| ==> Prefix(script, docs[i]) != Some(p)
    ensures p !in Prefixes(script, docs)
    decreases |docs|
  {
    if docs != [] {
      PrefixesOther(script, docs[..|docs| - 1], p);
    }
  }

  /** Every prepared id is a chunk id over the prefix of one of the posts. */
  lemma {:induction false} PrepareIdsFrom(script: Script, docs: seq<JDoc>, runId: string, sourceFile: string)
    returns (pre: seq<string>, idx: seq<nat>)
    requires PrepareSpec(script, docs, runId, sourceFile).Ok?
    ensures var ids := PrepareSpec(script, docs, runId, sourceFile).value.ids;
      |pre| == |idx| == |ids|
      && forall k :: 0 <= k < |ids| ==> ids[k] == ChunkId(pre[k], idx[k]) && pre[k] in Prefixes(script, docs)
    decreases |docs|
  {
    if docs == [] {
      return [], [];
    }
    var init := docs[..|docs| - 1];
    var last := docs[|docs| - 1];
    var p0, i0 := PrepareIdsFrom(script, init, runId, sourceFile);
    var v := Convert(script, last).value;
    var a := PrepareSpec(script, init, runId, sourceFile).value.ids;
    var b := EntriesOf(last, v, runId, sourceFile).ids;
    assert PrepareSpec(script, docs, runId, sourceFile).value.ids == a + b;
    assert Prefixes(script, docs) == Prefixes(script, init) + {v.prefix};
    pre, idx := IdsConcat(a, b, p0, i0, v.prefix, Prefixes(script, init), Prefixes(script, docs));
  }

  /** The step of PrepareIdsFrom on plain sequences: the last post's ids follow the earlier ones. */
  lemma IdsConcat(a: seq<string>, b: seq<string>, p0: seq<string>, i0: seq<nat>, pl: string, s0: set<string>, s1: set<string>)
    returns (pre: seq<string>, idx: seq<nat>)
    requires |p0| == |i0| == |a| && s0 <= s1 && pl in s1
    requires forall k :: 0 <= k < |a| ==> a[k] == ChunkId(p0[k], i0[k]) && p0[k] in s0
    requires forall j :: 0 <= j < |b| ==> b[j] == ChunkId(pl, j)
    ensures |pre| == |idx| == |a + b|
    ensures forall k :: 0 <= k < |a + b| ==> (a + b)[k] == ChunkId(pre[k], idx[k]) && pre[k] in s1
  {
    pre := p0 + seq(|b|, k => pl);
    idx := i0 + seq(|b|, k => k);
    forall k | 0 <= k < |a + b|
      ensures (a + b)[k] == ChunkId(pre[k], idx[k]) && pre[k] in s1
    {
      if k < |a| {
        assert (a + b)[k] == a[k] && pre[k] == p0[k] && idx[k] == i0[k];
      } else {
        assert (a + b)[k] == b[k - |a|] && pre[k] == pl && idx[k] == k - |a|;
      }
    }
  }

  /** Posts whose prefixes differ get pairwise different chunk ids. */
  lemma {:induction false} PrepareIdsDistinct(script: Script, docs: seq<JDoc>, runId: string, sourceFile: string)
    requires PrepareSpec(script, docs, runId, sourceFile).Ok? && DistinctPrefixes(script, docs)
    ensures Distinct(PrepareSpec(script, docs, runId, sourceFile).value.ids)
    decreases |docs|
  {
    if docs != [] {
      var init := docs[..|docs| - 1];
      var last := docs[|docs| - 1];
      assert forall i :: 0 <= i < |init| ==> init[i] == docs[i];
      assert DistinctPrefixes(script, init);
      PrepareIdsDistinct(script, init, runId, sourceFile);
      var pre, idx := PrepareIdsFrom(script, init, runId, sourceFile);
      DocPreparedShape(script, last, runId, sourceFile);
      var a := PrepareSpec(script, init, runId, sourceFile).value.ids;
      var b := DocPrepared(script, last, runId, sourceFile).value.ids;
      var pl := Convert(script, last).value.prefix;
      assert forall i :: 0 <= i < |init| ==> Prefix(script, init[i]) != Some(pl);
      PrefixesOther(script, init, pl);
      forall x, y | 0 <= x < |a| && 0 <= y < |b| ensures a[x] != b[y] {
        if a[x] == b[y] {
          ChunkIdInjective(pre[x], idx[x], pl, y);
        }
      }
      forall x, y | 0 <= x < y < |b| ensures b[x] != b[y] {
        if b[x] == b[y] {
          ChunkIdInjective(pl, x, pl, y);
        }
      }
      assert PrepareSpec(script, docs, runId, sourceFile).value.ids == a + b;
      DistinctAppend(a, b);
    }
  }

  /**
   * The whole of upsert_to_chroma and vectorize_documents after the availability check: the entries,
   * then the batch loop. The count never exceeds the number of chunks and equals it when no upsert is lost.
   */
  method PrepareAndUpsert(script: Script, col: Collection, docs: seq<JDoc>, runId: string, sourceFile: string,
                          embed: string -> seq<real>, batchOk: nat -> bool, itemOk: nat -> bool)
    returns (r: Result<nat, PrepError>)
    requires col.Contents().Valid()
    modifies col
    ensures PrepareSpec(script, docs, runId, sourceFile).Err? ==>
      r == Err(PrepareSpec(script, docs, runId, sourceFile).error) && col.Contents() == old(col.Contents())
    ensures PrepareSpec(script, docs, runId, sourceFile).Ok? ==>
      var p := PrepareSpec(script, docs, runId, sourceFile).value;
      && r.Ok? && r.value <= |p.ids|
      && col.Contents() == From(old(col.Contents()), p.ids, Records(p, embed), batchOk, itemOk, 0)
      && (Reliable(batchOk, itemOk, |p.ids|) ==>
            r.value == |p.ids| && col.Contents() == PutAll(old(col.Contents()), p.ids, Records(p, embed)))
  {
    var prepared := Prepare(script, docs, runId, sourceFile);
    if prepared.Err? {
      return Err(prepared.error);
    }
    var total := UpsertEntries(col, prepared.value, embed, batchOk, itemOk);
    r := Ok(total);
  }
}
