/**
 * src/vector/simple_index.py: SimpleVectorIndex, the in-memory fallback that keys each document
 * by the SHA-256 of its text, keeps `doc_ids` as the sorted list of keys after every change and an
 * embeddings matrix whose rows follow doc_ids. Pickle persistence and cosine search are outside
 * the model; the hash function and the embedding service are parameters.
 */
module SimpleIndex {
  import opened Wrappers
  import opened Collections
  import Hashes

  /** An input chunk: `text` is None when the chunk has no "text" key; `metadata` defaults to {}. */
  datatype Chunk = Chunk(text: Option<string>, metadata: map<string, string>)

  /** A stored document: {"text", "embedding", "metadata"}. */
  datatype Doc = Doc(text: string, embedding: seq<real>, metadata: map<string, string>)

  /** A chunk accepted for insertion, tagged with its content_hash. */
  datatype Pending = Pending(hash: string, text: string, metadata: map<string, string>)

  datatype Counts = Counts(added: nat, skipped: nat, failed: nat)

  /** chunk.get("metadata", {}).get(key, default) */
  function GetOr(md: map<string, string>, key: string, default: string): string
  {
    if key in md then md[key] else default
  }

  /** _prepare_metadata: eight copied fields with their defaults, the hash, and keywords when given. */
  function PrepareMetadata(hash: string, md: map<string, string>): (r: map<string, string>)
    ensures "content_hash" in r && r["content_hash"] == hash
    ensures "keywords" in r <==> "keywords" in md
    ensures "keywords" in md ==> r["keywords"] == md["keywords"]
  {
    var base := map[]
      ["law_topic" := GetOr(md, "law_topic", "채권추심")]
      ["source_url" := GetOr(md, "source_url", "")]
      ["logno" := GetOr(md, "logno", "")]
      ["published_at" := GetOr(md, "published_at", "")]
      ["chunk_id" := GetOr(md, "chunk_id", "")]
      ["chunk_type" := GetOr(md, "chunk_type", "semantic")]
      ["token_count" := GetOr(md, "token_count", "0")]
      ["char_count" := GetOr(md, "char_count", "0")]
      ["content_hash" := hash];
    if "keywords" in md then base["keywords" := md["keywords"]] else base
  }

  /** The chunks the first loop of upsert_chunks keeps: with a text whose hash is not yet a key. */
  function ToProcess(keys: set<string>, sha: Hashes.Sha256, chunks: seq<Chunk>): (r: seq<Pending>)
    ensures |r| <= |chunks|
  {
    if chunks == [] then []
    else
      var c := chunks[|chunks| - 1];
      ToProcess(keys, sha, chunks[..|chunks| - 1])
        + (if c.text.Some? && sha(c.text.value) !in keys then [Pending(sha(c.text.value), c.text.value, c.metadata)] else [])
  }

  /** The chunks whose hash is already a key when the call starts. */
  function SkippedCount(keys: set<string>, sha: Hashes.Sha256, chunks: seq<Chunk>): nat
  {
    if chunks == [] then 0
    else
      var c := chunks[|chunks| - 1];
      SkippedCount(keys, sha, chunks[..|chunks| - 1]) + (if c.text.Some? && sha(c.text.value) in keys then 1 else 0)
  }

  /** The chunks without a text: `chunk["text"]` raises and failed_count is bumped. */
  function FailedCount(chunks: seq<Chunk>): nat
  {
    if chunks == [] then 0
    else FailedCount(chunks[..|chunks| - 1]) + (if chunks[|chunks| - 1].text.None? then 1 else 0)
  }

  function DocFor(p: Pending, embed: string -> seq<real>): Doc
  {
    Doc(p.text, embed(p.text), PrepareMetadata(p.hash, p.metadata))
  }

  /** The second loop: each pending chunk is written under its hash, a later one overwriting. */
  function Apply(docs: map<string, Doc>, ps: seq<Pending>, embed: string -> seq<real>): map<string, Doc>
  {
    if ps == [] then docs
    else
      var p := ps[|ps| - 1];
      Apply(docs, ps[..|ps| - 1], embed)[p.hash := DocFor(p, embed)]
  }

  /** Every document is stored under the hash of its text. */
  ghost predicate KeyedByHash(docs: map<string, Doc>, sha: Hashes.Sha256)
  {
    forall k :: k in docs ==> k == sha(docs[k].text)
  }

  /** `sorted(documents.keys())`: ascending, without repeats, exactly the keys. */
  ghost predicate SortedKeys(ids: seq<string>, keys: set<string>)
  {
    LexSorted(ids) && Distinct(ids) && forall k :: k in ids <==> k in keys
  }

  /** The embeddings matrix: None without documents, else one row per id in that order. */
  function MatrixFor(ids: seq<string>, docs: map<string, Doc>): (r: Option<seq<seq<real>>>)
    requires forall i :: 0 <= i < |ids| ==> ids[i] in docs
    ensures ids == [] <==> r.None?
    ensures r.Some? ==> |r.value| == |ids| && forall i :: 0 <= i < |ids| ==> r.value[i] == docs[ids[i]].embedding
  {
    if ids == [] then None else Some(seq(|ids|, i requires 0 <= i < |ids| => docs[ids[i]].embedding))
  }

  /** Each accepted chunk carries the hash of its text, which was not a key at the start. */
  lemma {:induction false} ToProcessShape(keys: set<string>, sha: Hashes.Sha256, chunks: seq<Chunk>)
    ensures forall p :: p in ToProcess(keys, sha, chunks) ==> p.hash == sha(p.text) && p.hash !in keys
    ensures forall i :: 0 <= i < |chunks| && chunks[i].text.Some? && sha(chunks[i].text.value) !in keys ==>
      Pending(sha(chunks[i].text.value), chunks[i].text.value, chunks[i].metadata) in ToProcess(keys, sha, chunks)
    decreases |chunks|
  {
    if chunks != [] {
      var init := chunks[..|chunks| - 1];
      ToProcessShape(keys, sha, init);
      forall i | 0 <= i < |init| ensures init[i] == chunks[i] { }
    }
  }

  /** Every chunk is counted exactly once: added, skipped or failed. */
  lemma {:induction false} CountsCover(keys: set<string>, sha: Hashes.Sha256, chunks: seq<Chunk>)
    ensures |ToProcess(keys, sha, chunks)| + SkippedCount(keys, sha, chunks) + FailedCount(chunks) == |chunks|
    decreases |chunks|
  {
    if chunks != [] {
      CountsCover(keys, sha, chunks[..|chunks| - 1]);
    }
  }

  /**
   * The second loop adds exactly the pending hashes, keeps every other document (in particular
   * every document present at the start, since no pending hash was a key), and keeps the
   * documents keyed by the hash of their text.
   */
  lemma {:induction false} ApplyEffect(docs: map<string, Doc>, ps: seq<Pending>, sha: Hashes.Sha256, embed: string -> seq<real>)
    requires forall p :: p in ps ==> p.hash == sha(p.text)
    ensures forall k :: k in Apply(docs, ps, embed) <==> k in docs || exists p :: p in ps && p.hash == k
    ensures forall k :: k in docs && (forall p :: p in ps ==> p.hash != k) ==> Apply(docs, ps, embed)[k] == docs[k]
    ensures KeyedByHash(docs, sha) ==> KeyedByHash(Apply(docs, ps, embed), sha)
    decreases |ps|
  {
    if ps != [] {
      var init := ps[..|ps| - 1];
      assert forall p :: p in ps <==> p in init || p == ps[|ps| - 1];
      ApplyEffect(docs, init, sha, embed);
    }
  }

  /** upsert_chunks on the document table, as one value: the new table and the three counters. */
  function Upsert(docs: map<string, Doc>, sha: Hashes.Sha256, embed: string -> seq<real>, chunks: seq<Chunk>): (map<string, Doc>, Counts)
  {
    var ps := ToProcess(docs.Keys, sha, chunks);
    (Apply(docs, ps, embed), Counts(|ps|, SkippedCount(docs.Keys, sha, chunks), FailedCount(chunks)))
  }

  /**
   * After upsert_chunks every chunk with a text is stored under its hash; documents present at
   * the start are kept as they were; a chunk is skipped exactly when its hash was a key at the
   * start, and the counters add up to the number of chunks.
   */
  lemma UpsertEffect(docs: map<string, Doc>, sha: Hashes.Sha256, embed: string -> seq<real>, chunks: seq<Chunk>)
    requires KeyedByHash(docs, sha)
    ensures var r := Upsert(docs, sha, embed, chunks);
      && KeyedByHash(r.0, sha)
      && (forall i :: 0 <= i < |chunks| && chunks[i].text.Some? ==> sha(chunks[i].text.value) in r.0)
      && (forall k :: k in docs ==> k in r.0 && r.0[k] == docs[k])
      && (forall k :: k in r.0 ==> k in docs || exists i :: 0 <= i < |chunks| && chunks[i].text.Some? && sha(chunks[i].text.value) == k)
      && r.1.added + r.1.skipped + r.1.failed == |chunks|
  {
    var ps := ToProcess(docs.Keys, sha, chunks);
    ToProcessShape(docs.Keys, sha, chunks);
    ApplyEffect(docs, ps, sha, embed);
    CountsCover(docs.Keys, sha, chunks);
    var r := Apply(docs, ps, embed);
    forall i | 0 <= i < |chunks| && chunks[i].text.Some? ensures sha(chunks[i].text.value) in r {
      if sha(chunks[i].text.value) !in docs {
        assert Pending(sha(chunks[i].text.value), chunks[i].text.value, chunks[i].metadata) in ps;
      }
    }
    forall k | k in r && k !in docs ensures exists i :: 0 <= i < |chunks| && chunks[i].text.Some? && sha(chunks[i].text.value) == k {
      var p :| p in ps && p.hash == k;
      ToProcessFrom(docs.Keys, sha, chunks, p);
    }
  }

  /** An accepted chunk comes from some input chunk with that text and hash. */
  lemma {:induction false} ToProcessFrom(keys: set<string>, sha: Hashes.Sha256, chunks: seq<Chunk>, p: Pending)
    requires p in ToProcess(keys, sha, chunks)
    ensures exists i :: 0 <= i < |chunks| && chunks[i].text == Some(p.text) && sha(p.text) == p.hash
    decreases |chunks|
  {
    var init := chunks[..|chunks| - 1];
    if p in ToProcess(keys, sha, init) {
      ToProcessFrom(keys, sha, init, p);
      var i :| 0 <= i < |init| && init[i].text == Some(p.text) && sha(p.text) == p.hash;
      assert chunks[i] == init[i];
    } else {
      assert chunks[|chunks| - 1].text == Some(p.text);
    }
  }

  /** An empty input changes nothing and reports zeros. */
  lemma UpsertEmpty(docs: map<string, Doc>, sha: Hashes.Sha256, embed: string -> seq<real>)
    ensures Upsert(docs, sha, embed, []) == (docs, Counts(0, 0, 0))
  {
  }

  /** Nothing new is pending once every chunk's hash is a key: a second identical upsert skips all. */
  lemma {:induction false} NothingPending(keys: set<string>, sha: Hashes.Sha256, chunks: seq<Chunk>)
    requires forall i :: 0 <= i < |chunks| && chunks[i].text.Some? ==> sha(chunks[i].text.value) in keys
    ensures ToProcess(keys, sha, chunks) == []
    decreases |chunks|
  {
    if chunks != [] {
      var init := chunks[..|chunks| - 1];
      forall i | 0 <= i < |init| && init[i].text.Some? ensures sha(init[i].text.value) in keys {
        assert init[i] == chunks[i];
      }
      NothingPending(keys, sha, init);
    }
  }

  /** Upserting the same chunks again adds nothing, leaves the table as it is and skips every text. */
  lemma UpsertTwice(docs: map<string, Doc>, sha: Hashes.Sha256, embed: string -> seq<real>, chunks: seq<Chunk>)
    requires KeyedByHash(docs, sha)
    ensures var first := Upsert(docs, sha, embed, chunks);
      var second := Upsert(first.0, sha, embed, chunks);
      && second.0 == first.0
      && second.1.added == 0
      && second.1.skipped == |chunks| - FailedCount(chunks)
  {
    var first := Upsert(docs, sha, embed, chunks);
    UpsertEffect(docs, sha, embed, chunks);
    NothingPending(first.0.Keys, sha, chunks);
    CountsCover(first.0.Keys, sha, chunks);
  }

  /**
   * added counts chunks that were absent at the start, so two chunks with one text both count as
   * added while a single document is stored.
   */
  lemma RepeatCountedTwice(sha: Hashes.Sha256, embed: string -> seq<real>, t: string)
    ensures var c := Chunk(Some(t), map[]);
      var r := Upsert(map[], sha, embed, [c, c]);
      r.1 == Counts(2, 0, 0) && r.0.Keys == {sha(t)}
  {
    var c := Chunk(Some(t), map[]);
    var p := Pending(sha(t), t, map[]);
    var none: seq<Chunk> := [];
    assert [c, c][..1] == [c] && [c][..0] == none;
    assert ToProcess({}, sha, none) == [] && SkippedCount({}, sha, none) == 0 && FailedCount(none) == 0;
    assert ToProcess({}, sha, [c]) == [p];
    assert ToProcess({}, sha, [c, c]) == [p, p];
    assert [p, p][..1] == [p] && [p][..0] == [];
    assert SkippedCount({}, sha, [c]) == 0;
    assert FailedCount([c]) == 0;
    assert SkippedCount({}, sha, [c, c]) == 0;
    assert FailedCount([c, c]) == 0;
    var docs: map<string, Doc> := map[];
    assert docs.Keys == {};
    var d := DocFor(p, embed);
    var a1 := Apply(docs, [p], embed);
    assert a1 == Apply(docs, [], embed)[p.hash := d];
    assert Apply(docs, [p, p], embed) == a1[p.hash := d];
    assert forall k :: k in Apply(docs, [p, p], embed) <==> k == sha(t);
  }

  class SimpleVectorIndex {
    var documents: map<string, Doc>
    var docIds: seq<string>
    var matrix: Option<seq<seq<real>>>
    const sha: Hashes.Sha256
    const embed: string -> seq<real>

    /** The table is keyed by text hashes, doc_ids is its sorted key list and the matrix follows it. */
    ghost predicate Valid()
      reads this
    {
      KeyedByHash(documents, sha) && SortedKeys(docIds, documents.Keys) && matrix == MatrixFor(docIds, documents)
    }

    /** A new index without a saved file: no documents, doc_ids [] and no matrix. */
    constructor(sha: Hashes.Sha256, embed: string -> seq<real>)
      ensures Valid()
      ensures documents == map[] && docIds == [] && matrix == None
      ensures this.sha == sha && this.embed == embed
    {
      documents, docIds, matrix := map[], [], None;
      this.sha, this.embed := sha, embed;
    }

    /** _update_embeddings_matrix: rebuild doc_ids as the sorted keys and the matrix row by row. */
    method UpdateEmbeddingsMatrix()
      requires KeyedByHash(documents, sha)
      modifies this
      ensures documents == old(documents)
      ensures Valid()
    {
      if documents == map[] {
        matrix, docIds := None, [];
        return;
      }
      var listed := ListKeys(documents.Keys);
      var ids := SortLex(listed);
      SortLexKeys(listed, documents.Keys);
      var rows := Rows(ids, documents);
      assert ids != [] by {
        var k :| k in documents;
        assert k in ids;
      }
      assert MatrixFor(ids, documents).value == rows;
      docIds, matrix := ids, Some(rows);
    }

    /** Sorting a listing of the keys gives the sorted doc_ids. */
    static lemma SortLexKeys(listed: seq<string>, keys: set<string>)
      requires Distinct(listed) && forall k :: k in listed <==> k in keys
      ensures SortedKeys(SortLex(listed), keys)
    {
      var ids := SortLex(listed);
      DistinctPermutation(listed, ids);
      forall k ensures k in ids <==> k in keys {
        assert k in ids <==> k in multiset(ids);
        assert k in listed <==> k in multiset(listed);
      }
    }

    /** The keys of the table, in some order, each once. */
    static method ListKeys(keys: set<string>) returns (listed: seq<string>)
      ensures Distinct(listed) && forall k :: k in listed <==> k in keys
    {
      listed := [];
      var rest := keys;
      while rest != {}
        invariant Distinct(listed)
        invariant forall k :: k in listed <==> k in keys && k !in rest
        invariant rest <= keys
        decreases rest
      {
        var k :| k in rest;
        listed, rest := listed + [k], rest - {k};
      }
    }

    /** The stacked embeddings, one row per id in order. */
    static method Rows(ids: seq<string>, docs: map<string, Doc>) returns (rows: seq<seq<real>>)
      requires forall i :: 0 <= i < |ids| ==> ids[i] in docs
      ensures |rows| == |ids| && forall i :: 0 <= i < |ids| ==> rows[i] == docs[ids[i]].embedding
    {
      rows := [];
      for i := 0 to |ids|
        invariant |rows| == i
        invariant forall j :: 0 <= j < i ==> rows[j] == docs[ids[j]].embedding
      {
        rows := rows + [docs[ids[i]].embedding];
      }
    }

    /** upsert_chunks: skip known hashes, insert the rest, then rebuild doc_ids and the matrix. */
    method UpsertChunks(chunks: seq<Chunk>) returns (counts: Counts)
      requires Valid()
      modifies this
      ensures Valid()
      ensures documents == Upsert(old(documents), sha, embed, chunks).0
      ensures counts == Upsert(old(documents), sha, embed, chunks).1
    {
      if chunks == [] {
        return Counts(0, 0, 0);
      }
      var keys := documents.Keys;
      var toProcess: seq<Pending> := [];
      var skipped, failed := 0, 0;
      for i := 0 to |chunks|
        invariant toProcess == ToProcess(keys, sha, chunks[..i])
        invariant skipped == SkippedCount(keys, sha, chunks[..i])
        invariant failed == FailedCount(chunks[..i])
        invariant documents.Keys == keys
      {
        assert chunks[..i + 1][..i] == chunks[..i];
        match chunks[i].text
        case None =>
          failed := failed + 1;
        case Some(t) =>
          var h := sha(t);
          if h in documents {
            skipped := skipped + 1;
          } else {
            toProcess := toProcess + [Pending(h, t, chunks[i].metadata)];
          }
      }
      assert chunks[..|chunks|] == chunks;
      if toProcess == [] {
        return Counts(0, skipped, failed);
      }
      ghost var docs0 := documents;
      ToProcessShape(keys, sha, chunks);
      var added := 0;
      for i := 0 to |toProcess|
        invariant documents == Apply(docs0, toProcess[..i], embed)
        invariant added == i
      {
        assert toProcess[..i + 1][..i] == toProcess[..i];
        var p := toProcess[i];
        documents := documents[p.hash := Doc(p.text, embed(p.text), PrepareMetadata(p.hash, p.metadata))];
        added := added + 1;
      }
      assert toProcess[..|toProcess|] == toProcess;
      ApplyEffect(docs0, toProcess, sha, embed);
      UpdateEmbeddingsMatrix();
      counts := Counts(added, skipped, failed);
    }

    /** _matches_filter: every filter key is present in the metadata with an equal value. */
    static method MatchesFilter(metadata: map<string, string>, whereFilter: map<string, string>) returns (ok: bool)
      ensures ok <==> forall k :: k in whereFilter ==> k in metadata && metadata[k] == whereFilter[k]
    {
      var rest := whereFilter.Keys;
      while rest != {}
        invariant rest <= whereFilter.Keys
        invariant forall k :: k in whereFilter && k !in rest ==> k in metadata && metadata[k] == whereFilter[k]
        decreases rest
      {
        var k :| k in rest;
        if k !in metadata || metadata[k] != whereFilter[k] {
          return false;
        }
        rest := rest - {k};
      }
      return true;
    }

    /** delete_documents: drop the given hashes that are present and count them. */
    method DeleteDocuments(hashes: seq<string>) returns (deleted: nat)
      requires Valid()
      modifies this
      ensures Valid()
      ensures forall k :: k in documents <==> k in old(documents) && k !in hashes
      ensures forall k :: k in documents ==> documents[k] == old(documents)[k]
      ensures deleted == |old(documents).Keys| - |documents.Keys|
      ensures deleted == 0 ==> documents == old(documents) && docIds == old(docIds) && matrix == old(matrix)
    {
      var rest;
      rest, deleted := RemovePresent(documents, hashes);
      if deleted > 0 {
        documents := rest;
        UpdateEmbeddingsMatrix();
      }
    }

    /** The deletion loop on the table: a hash still present is removed and counted. */
    static method RemovePresent(docs: map<string, Doc>, hashes: seq<string>) returns (rest: map<string, Doc>, deleted: nat)
      ensures forall k :: k in rest <==> k in docs && k !in hashes
      ensures forall k :: k in rest ==> rest[k] == docs[k]
      ensures deleted == |docs.Keys| - |rest.Keys|
      ensures deleted == 0 ==> rest == docs
    {
      rest, deleted := docs, 0;
      for i := 0 to |hashes|
        invariant forall k :: k in rest <==> k in docs && k !in hashes[..i]
        invariant forall k :: k in rest ==> rest[k] == docs[k]
        invariant deleted == |docs.Keys| - |rest.Keys|
        invariant deleted == 0 ==> rest == docs
      {
        assert forall k :: k in hashes[..i + 1] <==> k in hashes[..i] || k == hashes[i];
        if hashes[i] in rest {
          assert (rest - {hashes[i]}).Keys == rest.Keys - {hashes[i]};
          rest := rest - {hashes[i]};
          deleted := deleted + 1;
        }
      }
      assert hashes[..|hashes|] == hashes;
    }

    /** clear_index: no documents, no ids, no matrix. */
    method ClearIndex() returns (ok: bool)
      modifies this
      ensures Valid() && ok
      ensures documents == map[] && docIds == [] && matrix == None
    {
      documents, matrix, docIds := map[], None, [];
      return true;
    }
  }

  /** doc_ids is the one sorted listing of the keys: any two valid states with equal keys agree on it. */
  lemma DocIdsDetermined(ids1: seq<string>, ids2: seq<string>, keys: set<string>)
    requires SortedKeys(ids1, keys) && SortedKeys(ids2, keys)
    ensures ids1 == ids2
  {
    LexSortedUnique(ids1, ids2);
  }

  /** The module-level names src/vector/embedder.py binds: its imports, logger, EmbeddingCache and embedding_cache. */
  const EmbedderNames: set<string> := {"hashlib", "sqlite3", "json", "np", "List", "Optional", "Dict", "Any",
    "Tuple", "Path", "logging", "SentenceTransformer", "time", "logger", "EmbeddingCache", "embedding_cache"}

  /** The outcome of loading src/vector/simple_index.py. */
  datatype ImportOutcome = Imported | ImportFailed(name: string)

  /** `from M import name` succeeds exactly when M binds the name at module level. */
  function ImportName(bound: set<string>, name: string): (r: ImportOutcome)
    ensures r == Imported <==> name in bound
    ensures r.ImportFailed? ==> r.name == name
  {
    if name in bound then Imported else ImportFailed(name)
  }

  /**
   * The module's imports: `from .embedder import EmbeddingService`, and on ImportError the same
   * import from `embedder`, whose ImportError is not caught.
   */
  function LoadSimpleIndex(relative: set<string>, plain: set<string>): (r: ImportOutcome)
    ensures r == Imported <==> "EmbeddingService" in relative || "EmbeddingService" in plain
    ensures r.ImportFailed? ==> r.name == "EmbeddingService"
  {
    match ImportName(relative, "EmbeddingService")
    case Imported => Imported
    case ImportFailed(_) => ImportName(plain, "EmbeddingService")
  }

  /** As written, embedder.py binds no EmbeddingService under either import path, so the module raises ImportError on load. */
  lemma LoadAsWrittenFails()
    ensures "EmbeddingService" !in EmbedderNames
    ensures LoadSimpleIndex(EmbedderNames, EmbedderNames) == ImportFailed("EmbeddingService")
  {
    assert |"EmbeddingService"| == 16;
  }

  /** With an EmbeddingService defined in embedder.py the module loads, and SimpleVectorIndex above is reachable. */
  lemma LoadWithService()
    ensures LoadSimpleIndex(EmbedderNames + {"EmbeddingService"}, EmbedderNames + {"EmbeddingService"}) == Imported
  {
  }
}
