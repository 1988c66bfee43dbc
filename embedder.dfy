/**
 * src/vector/embedder.py: EmbeddingCache, a table of embeddings keyed by the SHA-256 of the chunk
 * text, consulted before the embedding model is called. A hit raises the row's access_count;
 * a miss computes the vector and stores it with access_count 1. The SQLite file, timestamps and
 * the model object are outside the model: the table is a map, the model a function.
 */
module Embedder {
  import opened Wrappers
  import Hashes

  type Vec = seq<real>

  /** A row of embedding_cache; its key chunk_hash is the map key. */
  datatype Row = Row(text: string, embedding: Vec, model: string, accessCount: nat)

  type Table = map<string, Row>

  /** The SELECT of get_cached_embedding: a row for this hash written by this model. */
  predicate Cached(t: Table, model: string, h: string)
  {
    h in t && t[h].model == model
  }

  /** Every row is stored under the hash of its own text. */
  ghost predicate Consistent(t: Table, sha: Hashes.Sha256)
  {
    forall h :: h in t ==> h == sha(t[h].text)
  }

  /** get_cached_embedding on the table: the stored vector and access_count + 1 on a hit. */
  function Lookup(t: Table, model: string, h: string): (r: (Option<Vec>, Table))
    ensures r.0.Some? <==> Cached(t, model, h)
    ensures r.0.Some? ==> r.0.value == t[h].embedding && r.1 == t[h := t[h].(accessCount := t[h].accessCount + 1)]
    ensures r.0.None? ==> r.1 == t
  {
    if Cached(t, model, h) then (Some(t[h].embedding), t[h := t[h].(accessCount := t[h].accessCount + 1)])
    else (None, t)
  }

  /** cache_embedding: INSERT OR REPLACE keyed by the hash alone, whatever model wrote the old row. */
  function Store(t: Table, model: string, h: string, text: string, emb: Vec): Table
  {
    t[h := Row(text, emb, model, 1)]
  }

  /**
   * The key ignores the model: caching a text for one model evicts the row another model had
   * stored for it, so the other model's next lookup misses.
   */
  lemma StoreReplacesOtherModel(t: Table, sha: Hashes.Sha256, m1: string, m2: string, text: string, emb: Vec)
    requires m1 != m2
    ensures Cached(Store(t, m2, sha(text), text, emb), m2, sha(text))
    ensures !Cached(Store(t, m2, sha(text), text, emb), m1, sha(text))
    ensures Lookup(Store(t, m2, sha(text), text, emb), m1, sha(text)).0 == None
  {
  }

  /** get_or_compute: (vector, hash) and the table afterwards. */
  function GetOrComputeSpec(t: Table, model: string, sha: Hashes.Sha256, embed: string -> Vec, text: string)
    : (r: (Vec, string, Table))
    ensures r.1 == sha(text)
    ensures Cached(t, model, sha(text)) ==> r.0 == t[sha(text)].embedding
    ensures !Cached(t, model, sha(text)) ==> r.0 == embed(text) && r.2 == Store(t, model, sha(text), text, embed(text))
    ensures Cached(r.2, model, sha(text)) && r.2[sha(text)].embedding == r.0
  {
    var h := sha(text);
    var (found, t') := Lookup(t, model, h);
    if found.Some? then (found.value, h, t')
    else (embed(text), h, Store(t', model, h, text, embed(text)))
  }

  /**
   * A second get_or_compute of the same text is a hit: the same vector, no model call, and the
   * row's access_count one higher; a miss leaves access_count 1.
   */
  lemma GetOrComputeTwice(t: Table, model: string, sha: Hashes.Sha256, embed: string -> Vec, text: string)
    ensures var (e1, h1, t1) := GetOrComputeSpec(t, model, sha, embed, text);
      var (e2, h2, t2) := GetOrComputeSpec(t1, model, sha, embed, text);
      && e2 == e1 && h2 == h1
      && Cached(t1, model, h1)
      && t2 == t1[h1 := t1[h1].(accessCount := t1[h1].accessCount + 1)]
      && (!Cached(t, model, h1) ==> t1[h1].accessCount == 1)
      && (Cached(t, model, h1) ==> t1[h1].accessCount == t[h1].accessCount + 1)
  {
  }

  /** A miss of get_or_compute keeps the table consistent: the new row sits under its text's hash. */
  lemma GetOrComputeConsistent(t: Table, model: string, sha: Hashes.Sha256, embed: string -> Vec, text: string)
    requires Consistent(t, sha)
    ensures Consistent(GetOrComputeSpec(t, model, sha, embed, text).2, sha)
  {
  }

  /** An entry of cache_hits and of cache_misses. */
  datatype Hit = Hit(index: nat, embedding: Vec, hash: string)
  datatype Miss = Miss(index: nat, text: string, hash: string)

  /** What the first loop of batch_get_or_compute leaves: the two lists and the table. */
  datatype Probe = Probe(hits: seq<Hit>, misses: seq<Miss>, table: Table)

  /** The first loop: every text is looked up in turn; no miss is cached yet. */
  function ProbeAll(t: Table, model: string, sha: Hashes.Sha256, texts: seq<string>): (p: Probe)
    decreases |texts|
  {
    if texts == [] then Probe([], [], t)
    else
      var n := |texts| - 1;
      var p := ProbeAll(t, model, sha, texts[..n]);
      var h := sha(texts[n]);
      var (found, t') := Lookup(p.table, model, h);
      if found.Some? then Probe(p.hits + [Hit(n, found.value, h)], p.misses, t')
      else Probe(p.hits, p.misses + [Miss(n, texts[n], h)], t')
  }

  /** Lookups change access counts only. */
  ghost predicate SameRows(t: Table, t': Table)
  {
    && (forall h :: h in t' <==> h in t)
    && (forall h :: h in t ==> t'[h].(accessCount := 0) == t[h].(accessCount := 0))
  }

  /** Access-count changes keep every cached row cached and a consistent table consistent. */
  lemma SameRowsKeep(t: Table, t': Table, model: string, sha: Hashes.Sha256)
    requires SameRows(t, t')
    ensures forall h :: Cached(t, model, h) ==> Cached(t', model, h)
    ensures Consistent(t, sha) ==> Consistent(t', sha)
  {
    forall h | h in t ensures t'[h].text == t[h].text && t'[h].model == t[h].model {
      assert t'[h].(accessCount := 0) == t[h].(accessCount := 0);
    }
  }

  /** The hit list of the first loop: indices of texts that were cached, with the cached vectors. */
  ghost predicate HitsOk(t: Table, model: string, sha: Hashes.Sha256, texts: seq<string>, hits: seq<Hit>)
  {
    forall k :: 0 <= k < |hits| ==>
      && hits[k].index < |texts|
      && hits[k].hash == sha(texts[hits[k].index])
      && Cached(t, model, hits[k].hash)
      && hits[k].embedding == t[hits[k].hash].embedding
  }

  /** The miss list of the first loop: indices of texts that were not cached, with their texts. */
  ghost predicate MissesOk(t: Table, model: string, sha: Hashes.Sha256, texts: seq<string>, misses: seq<Miss>)
  {
    forall k :: 0 <= k < |misses| ==>
      && misses[k].index < |texts|
      && misses[k].text == texts[misses[k].index]
      && misses[k].hash == sha(misses[k].text)
      && !Cached(t, model, misses[k].hash)
  }

  /** Every index is listed as a hit when its text was cached and as a miss otherwise. */
  ghost predicate Covers(t: Table, model: string, sha: Hashes.Sha256, texts: seq<string>, p: Probe)
  {
    forall i :: 0 <= i < |texts| ==>
      if Cached(t, model, sha(texts[i])) then exists k :: 0 <= k < |p.hits| && p.hits[k].index == i
      else exists k :: 0 <= k < |p.misses| && p.misses[k].index == i
  }

  /**
   * The first loop splits the input: hits are exactly the texts cached for this model before the
   * call, misses the others, each list in input order, and the table changes in access counts only.
   */
  lemma ProbeSplits(t: Table, model: string, sha: Hashes.Sha256, texts: seq<string>)
    ensures var p := ProbeAll(t, model, sha, texts);
      && |p.hits| + |p.misses| == |texts|
      && SameRows(t, p.table)
      && HitsOk(t, model, sha, texts, p.hits)
      && MissesOk(t, model, sha, texts, p.misses)
      && Covers(t, model, sha, texts, p)
  {
    ProbeCount(t, model, sha, texts);
    ProbeRows(t, model, sha, texts);
    ProbeHits(t, model, sha, texts);
    ProbeMisses(t, model, sha, texts);
    ProbeCovers(t, model, sha, texts);
  }

  lemma {:induction false} ProbeCount(t: Table, model: string, sha: Hashes.Sha256, texts: seq<string>)
    ensures var p := ProbeAll(t, model, sha, texts);
      |p.hits| + |p.misses| == |texts|
    decreases |texts|
  {
    if texts != [] {
      ProbeCount(t, model, sha, texts[..|texts| - 1]);
    }
  }

  lemma {:induction false} ProbeRows(t: Table, model: string, sha: Hashes.Sha256, texts: seq<string>)
    ensures SameRows(t, ProbeAll(t, model, sha, texts).table)
    decreases |texts|
  {
    if texts != [] {
      ProbeRows(t, model, sha, texts[..|texts| - 1]);
    }
  }

  lemma {:induction false} ProbeHits(t: Table, model: string, sha: Hashes.Sha256, texts: seq<string>)
    ensures HitsOk(t, model, sha, texts, ProbeAll(t, model, sha, texts).hits)
    decreases |texts|
  {
    if texts != [] {
      var n := |texts| - 1;
      ProbeHits(t, model, sha, texts[..n]);
      ProbeRows(t, model, sha, texts[..n]);
      assert forall i :: 0 <= i < n ==> texts[..n][i] == texts[i];
    }
  }

  lemma {:induction false} ProbeMisses(t: Table, model: string, sha: Hashes.Sha256, texts: seq<string>)
    ensures MissesOk(t, model, sha, texts, ProbeAll(t, model, sha, texts).misses)
    decreases |texts|
  {
    if texts != [] {
      var n := |texts| - 1;
      ProbeMisses(t, model, sha, texts[..n]);
      ProbeRows(t, model, sha, texts[..n]);
      assert forall i :: 0 <= i < n ==> texts[..n][i] == texts[i];
    }
  }

  lemma {:induction false} ProbeCovers(t: Table, model: string, sha: Hashes.Sha256, texts: seq<string>)
    ensures Covers(t, model, sha, texts, ProbeAll(t, model, sha, texts))
    decreases |texts|
  {
    if texts != [] {
      var n := |texts| - 1;
      var p := ProbeAll(t, model, sha, texts[..n]);
      var q := ProbeAll(t, model, sha, texts);
      ProbeCovers(t, model, sha, texts[..n]);
      ProbeRows(t, model, sha, texts[..n]);
      forall i | 0 <= i < |texts|
        ensures if Cached(t, model, sha(texts[i])) then exists k :: 0 <= k < |q.hits| && q.hits[k].index == i
          else exists k :: 0 <= k < |q.misses| && q.misses[k].index == i
      {
        if i < n {
          assert texts[..n][i] == texts[i];
          if Cached(t, model, sha(texts[i])) {
            var k :| 0 <= k < |p.hits| && p.hits[k].index == i;
            assert q.hits[k] == p.hits[k];
          } else {
            var k :| 0 <= k < |p.misses| && p.misses[k].index == i;
            assert q.misses[k] == p.misses[k];
          }
        } else if Cached(t, model, sha(texts[i])) {
          assert q.hits[|p.hits|].index == i;
        } else {
          assert q.misses[|p.misses|].index == i;
        }
      }
    }
  }

  /** The vectors and hashes of the hit list, in its order. */
  function HitVecs(hits: seq<Hit>): (r: seq<Vec>)
    ensures |r| == |hits| && forall k :: 0 <= k < |hits| ==> r[k] == hits[k].embedding
  {
    seq(|hits|, k requires 0 <= k < |hits| => hits[k].embedding)
  }

  function HitHashes(hits: seq<Hit>): (r: seq<string>)
    ensures |r| == |hits| && forall k :: 0 <= k < |hits| ==> r[k] == hits[k].hash
  {
    seq(|hits|, k requires 0 <= k < |hits| => hits[k].hash)
  }

  function MissTexts(misses: seq<Miss>): (r: seq<string>)
    ensures |r| == |misses| && forall k :: 0 <= k < |misses| ==> r[k] == misses[k].text
  {
    seq(|misses|, k requires 0 <= k < |misses| => misses[k].text)
  }

  function MissHashes(misses: seq<Miss>): (r: seq<string>)
    ensures |r| == |misses| && forall k :: 0 <= k < |misses| ==> r[k] == misses[k].hash
  {
    seq(|misses|, k requires 0 <= k < |misses| => misses[k].hash)
  }

  /** model.encode(miss_texts): one vector per miss, the same as encoding each text alone. */
  function Encode(embed: string -> Vec, texts: seq<string>): (r: seq<Vec>)
    ensures |r| == |texts| && forall k :: 0 <= k < |texts| ==> r[k] == embed(texts[k])
  {
    seq(|texts|, k requires 0 <= k < |texts| => embed(texts[k]))
  }

  /** Python's s[j] for an int j: negative indices count from the end; others raise IndexError. */
  function PyIndex<T>(s: seq<T>, j: int): (r: Option<T>)
    ensures r.Some? <==> -|s| <= j < |s|
  {
    if 0 <= j < |s| then Some(s[j]) else if -|s| <= j < 0 then Some(s[|s| + j]) else None
  }

  datatype BatchError = IndexError | ZeroDivisionError

  /**
   * The caching loop as written, from the k-th miss on: the miss with input index i is stored
   * with the text miss_texts[i - len(cache_hits)]. The flag says whether the loop ran to the end;
   * on an IndexError it stops and the rows already written stay in the table.
   */
  function CacheAsWritten(t: Table, model: string, misses: seq<Miss>, hitCount: nat, embs: seq<Vec>, k: nat)
    : (r: (Table, bool))
    requires k <= |misses| == |embs|
    decreases |misses| - k
  {
    if k == |misses| then (t, true)
    else
      match PyIndex(MissTexts(misses), misses[k].index - hitCount)
      case None => (t, false)
      case Some(text) => CacheAsWritten(Store(t, model, misses[k].hash, text, embs[k]), model, misses, hitCount, embs, k + 1)
  }

  /** The caching loop of the corrected batch: each miss under its own text, from the k-th miss on. */
  function StoreMisses(t: Table, model: string, misses: seq<Miss>, embs: seq<Vec>, k: nat): Table
    requires k <= |misses| == |embs|
    decreases |misses| - k
  {
    if k == |misses| then t
    else StoreMisses(Store(t, model, misses[k].hash, misses[k].text, embs[k]), model, misses, embs, k + 1)
  }

  /**
   * Storing the misses keeps every cached row cached, caches every miss, and keeps the table
   * consistent when each miss carries the hash of its text.
   */
  lemma {:induction false} StoreMissesEffect(t: Table, model: string, sha: Hashes.Sha256, misses: seq<Miss>, embs: seq<Vec>, k: nat)
    requires k <= |misses| == |embs|
    ensures forall h :: Cached(t, model, h) ==> Cached(StoreMisses(t, model, misses, embs, k), model, h)
    ensures forall l :: k <= l < |misses| ==> Cached(StoreMisses(t, model, misses, embs, k), model, misses[l].hash)
    ensures Consistent(t, sha) && (forall l :: 0 <= l < |misses| ==> misses[l].hash == sha(misses[l].text))
      ==> Consistent(StoreMisses(t, model, misses, embs, k), sha)
    decreases |misses| - k
  {
    if k < |misses| {
      var t' := Store(t, model, misses[k].hash, misses[k].text, embs[k]);
      StoreMissesEffect(t', model, sha, misses, embs, k + 1);
    }
  }

  /**
   * batch_get_or_compute as written. Hit vectors are listed first and computed vectors after them;
   * the final sorted(zip(range(n), ...)) pairs the list with 0..n-1, which is already ascending,
   * so it changes nothing. A failing hit-rate division on an empty batch is ZeroDivisionError.
   */
  function BatchAsWritten(t: Table, model: string, sha: Hashes.Sha256, embed: string -> Vec, texts: seq<string>)
    : (r: (Result<(seq<Vec>, seq<string>), BatchError>, Table))
  {
    var p := ProbeAll(t, model, sha, texts);
    var embs := Encode(embed, MissTexts(p.misses));
    var (t', ok) := CacheAsWritten(p.table, model, p.misses, |p.hits|, embs, 0);
    if !ok then (Err(IndexError), t')
    else if |texts| == 0 then (Err(ZeroDivisionError), t')
    else (Ok((HitVecs(p.hits) + embs, HitHashes(p.hits) + MissHashes(p.misses))), t')
  }

  /** What the i-th result should be: the cached vector if there was one, else the model's. */
  function Expected(t: Table, model: string, sha: Hashes.Sha256, embed: string -> Vec, text: string): Vec
  {
    if Cached(t, model, sha(text)) then t[sha(text)].embedding else embed(text)
  }

  /** A hit after a miss puts the results out of input order: [miss, hit] comes back as [hit, miss]. */
  lemma BatchAsWrittenReorders(t: Table, model: string, sha: Hashes.Sha256, embed: string -> Vec, a: string, b: string)
    requires !Cached(t, model, sha(a)) && Cached(t, model, sha(b)) && sha(a) != sha(b)
    ensures var (r, _) := BatchAsWritten(t, model, sha, embed, [a, b]);
      r.Ok? && r.value.1 == [sha(b), sha(a)] && r.value.1 != [sha(a), sha(b)]
  {
    ProbeOfMiss(t, model, sha, a);
    assert [a, b][..1] == [a];
    var tb := t[sha(b) := t[sha(b)].(accessCount := t[sha(b)].accessCount + 1)];
    var p := ProbeAll(t, model, sha, [a, b]);
    assert p == Probe([Hit(1, t[sha(b)].embedding, sha(b))], [Miss(0, a, sha(a))], tb);
    var embs := Encode(embed, MissTexts(p.misses));
    var t1 := Store(tb, model, sha(a), a, embs[0]);
    assert CacheAsWritten(t1, model, p.misses, 1, embs, 1) == (t1, true);
    assert CacheAsWritten(tb, model, p.misses, 1, embs, 0) == (t1, true);
  }

  /** The first loop on a single uncached text. */
  lemma ProbeOfMiss(t: Table, model: string, sha: Hashes.Sha256, a: string)
    requires !Cached(t, model, sha(a))
    ensures ProbeAll(t, model, sha, [a]) == Probe([], [Miss(0, a, sha(a))], t)
  {
    assert [a][..0] == [];
    assert ProbeAll(t, model, sha, []) == Probe([], [], t);
  }

  /**
   * The same input order makes the caching loop store a wrong text: for [miss a, hit b, miss c]
   * the row under sha(a) gets text c, so the table no longer keys rows by their own text.
   */
  lemma BatchAsWrittenMiscaches(t: Table, model: string, sha: Hashes.Sha256, embed: string -> Vec, a: string, b: string, c: string)
    requires Consistent(t, sha)
    requires !Cached(t, model, sha(a)) && Cached(t, model, sha(b)) && !Cached(t, model, sha(c))
    requires sha(a) != sha(c)
    ensures var (_, t') := BatchAsWritten(t, model, sha, embed, [a, b, c]);
      sha(a) in t' && t'[sha(a)].text == c && !Consistent(t', sha)
  {
    assert [a, b, c][..2] == [a, b];
    assert [a, b][..1] == [a];
    ProbeOfMiss(t, model, sha, a);
    var tb := t[sha(b) := t[sha(b)].(accessCount := t[sha(b)].accessCount + 1)];
    assert ProbeAll(t, model, sha, [a, b]) == Probe([Hit(1, t[sha(b)].embedding, sha(b))], [Miss(0, a, sha(a))], tb);
    var p := ProbeAll(t, model, sha, [a, b, c]);
    assert p == Probe([Hit(1, t[sha(b)].embedding, sha(b))], [Miss(0, a, sha(a)), Miss(2, c, sha(c))], tb);
    var embs := Encode(embed, MissTexts(p.misses));
    var t1 := Store(tb, model, sha(a), c, embs[0]);
    var t2 := Store(t1, model, sha(c), c, embs[1]);
    assert CacheAsWritten(t2, model, p.misses, 1, embs, 2) == (t2, true);
    assert CacheAsWritten(t1, model, p.misses, 1, embs, 1) == (t2, true);
  }

  /** Two cached texts before a miss make the index negative beyond the miss list: IndexError. */
  lemma BatchAsWrittenIndexError(t: Table, model: string, sha: Hashes.Sha256, embed: string -> Vec, a: string, b: string, c: string)
    requires !Cached(t, model, sha(a)) && Cached(t, model, sha(b)) && Cached(t, model, sha(c))
    ensures BatchAsWritten(t, model, sha, embed, [a, b, c]).0 == Err(IndexError)
  {
    assert [a, b, c][..2] == [a, b];
    assert [a, b][..1] == [a];
    ProbeOfMiss(t, model, sha, a);
    var tb := t[sha(b) := t[sha(b)].(accessCount := t[sha(b)].accessCount + 1)];
    assert ProbeAll(t, model, sha, [a, b]) == Probe([Hit(1, t[sha(b)].embedding, sha(b))], [Miss(0, a, sha(a))], tb);
    assert Cached(tb, model, sha(c));
    var p := ProbeAll(t, model, sha, [a, b, c]);
    assert |p.hits| == 2 && p.misses == [Miss(0, a, sha(a))];
  }

  /** An empty batch ends in the hit-rate division by len(chunk_texts) == 0. */
  lemma BatchAsWrittenEmpty(t: Table, model: string, sha: Hashes.Sha256, embed: string -> Vec)
    ensures BatchAsWritten(t, model, sha, embed, []) == (Err(ZeroDivisionError), t)
  {
  }

  /** The cache object: the table is the only state that its methods change. */
  class EmbeddingCache {
    var table: Table
    const modelName: string
    const sha: Hashes.Sha256
    const embed: string -> Vec

    constructor(modelName: string, sha: Hashes.Sha256, embed: string -> Vec, table: Table)
      ensures this.table == table && this.modelName == modelName && this.sha == sha && this.embed == embed
    {
      this.table := table;
      this.modelName := modelName;
      this.sha := sha;
      this.embed := embed;
    }

    /** get_chunk_hash */
    function GetChunkHash(text: string): string
      reads this
    {
      sha(text)
    }

    method GetCachedEmbedding(h: string) returns (found: Option<Vec>)
      modifies this
      ensures (found, table) == Lookup(old(table), modelName, h)
    {
      if h in table && table[h].model == modelName {
        found := Some(table[h].embedding);
        table := table[h := table[h].(accessCount := table[h].accessCount + 1)];
      } else {
        found := None;
      }
    }

    method CacheEmbedding(h: string, text: string, emb: Vec)
      modifies this
      ensures table == Store(old(table), modelName, h, text, emb)
    {
      table := table[h := Row(text, emb, modelName, 1)];
    }

    method GetOrCompute(text: string) returns (emb: Vec, h: string)
      modifies this
      ensures (emb, h, table) == GetOrComputeSpec(old(table), modelName, sha, embed, text)
    {
      h := GetChunkHash(text);
      var cached := GetCachedEmbedding(h);
      if cached.Some? {
        return cached.value, h;
      }
      emb := embed(text);
      CacheEmbedding(h, text, emb);
    }

    /** The first loop of batch_get_or_compute. */
    method ProbeBatch(texts: seq<string>) returns (hits: seq<Hit>, misses: seq<Miss>)
      modifies this
      ensures Probe(hits, misses, table) == ProbeAll(old(table), modelName, sha, texts)
    {
      hits, misses := [], [];
      ghost var t0 := table;
      for i := 0 to |texts|
        invariant Probe(hits, misses, table) == ProbeAll(t0, modelName, sha, texts[..i])
      {
        assert texts[..i + 1][..i] == texts[..i];
        var h := GetChunkHash(texts[i]);
        var cached := GetCachedEmbedding(h);
        if cached.Some? {
          hits := hits + [Hit(i, cached.value, h)];
        } else {
          misses := misses + [Miss(i, texts[i], h)];
        }
      }
      assert texts[..|texts|] == texts;
    }

    /** The caching loop of batch_get_or_compute as the source writes it. */
    method CacheMissesAsWritten(misses: seq<Miss>, hitCount: nat, batch: seq<Vec>) returns (ok: bool)
      requires |misses| == |batch|
      modifies this
      ensures (table, ok) == CacheAsWritten(old(table), modelName, misses, hitCount, batch, 0)
    {
      var missTexts := MissTexts(misses);
      ghost var result := CacheAsWritten(table, modelName, misses, hitCount, batch, 0);
      for k := 0 to |misses|
        invariant CacheAsWritten(table, modelName, misses, hitCount, batch, k) == result
      {
        var text := PyIndex(missTexts, misses[k].index - hitCount);
        if text.None? {
          return false;
        }
        CacheEmbedding(misses[k].hash, text.value, batch[k]);
      }
      ok := true;
    }

    /** batch_get_or_compute as the source writes it. */
    method BatchGetOrComputeAsWritten(texts: seq<string>) returns (r: Result<(seq<Vec>, seq<string>), BatchError>)
      modifies this
      ensures (r, table) == BatchAsWritten(old(table), modelName, sha, embed, texts)
    {
      var hits, misses := ProbeBatch(texts);
      var embeddings := HitVecs(hits);
      var hashes := HitHashes(hits);
      var batch := Encode(embed, MissTexts(misses));
      var ok := CacheMissesAsWritten(misses, |hits|, batch);
      if !ok {
        return Err(IndexError);
      }
      if |texts| == 0 {
        return Err(ZeroDivisionError);
      }
      r := Ok((embeddings + batch, hashes + MissHashes(misses)));
    }

    /** The corrected caching loop: each miss under its own text. */
    method CacheMisses(misses: seq<Miss>, batch: seq<Vec>)
      requires |misses| == |batch|
      modifies this
      ensures table == StoreMisses(old(table), modelName, misses, batch, 0)
    {
      ghost var result := StoreMisses(table, modelName, misses, batch, 0);
      for k := 0 to |misses|
        invariant StoreMisses(table, modelName, misses, batch, k) == result
      {
        CacheEmbedding(misses[k].hash, misses[k].text, batch[k]);
      }
    }

    /**
     * batch_get_or_compute with the evident intent: results in input order, each miss cached
     * under its own text, and an empty batch answered with two empty lists.
     */
    method BatchGetOrCompute(texts: seq<string>) returns (embeddings: seq<Vec>, hashes: seq<string>)
      modifies this
      ensures |embeddings| == |texts| && |hashes| == |texts|
      ensures forall i :: 0 <= i < |texts| ==>
        hashes[i] == sha(texts[i]) && embeddings[i] == Expected(old(table), modelName, sha, embed, texts[i])
      ensures forall i :: 0 <= i < |texts| ==> Cached(table, modelName, sha(texts[i]))
      ensures forall h :: Cached(old(table), modelName, h) ==> Cached(table, modelName, h)
      ensures Consistent(old(table), sha) ==> Consistent(table, sha)
    {
      ghost var t0 := table;
      var hits, misses := ProbeBatch(texts);
      ProbeSplits(t0, modelName, sha, texts);
      ghost var tp := table;
      var batch := Encode(embed, MissTexts(misses));
      embeddings := PlaceResults(t0, modelName, sha, embed, texts, hits, misses, batch);
      hashes := seq(|texts|, i requires 0 <= i < |texts| => sha(texts[i]));
      CacheMisses(misses, batch);
      StoreMissesEffect(tp, modelName, sha, misses, batch, 0);
      SameRowsKeep(t0, tp, modelName, sha);
      AllCachedAfter(t0, table, modelName, sha, texts, Probe(hits, misses, tp));
    }
  }

  /** Once the misses are stored on top of the old rows, every text of the batch is cached. */
  lemma AllCachedAfter(t0: Table, t1: Table, model: string, sha: Hashes.Sha256, texts: seq<string>, p: Probe)
    requires MissesOk(t0, model, sha, texts, p.misses) && Covers(t0, model, sha, texts, p)
    requires forall h :: Cached(t0, model, h) ==> Cached(t1, model, h)
    requires forall l :: 0 <= l < |p.misses| ==> Cached(t1, model, p.misses[l].hash)
    ensures forall i :: 0 <= i < |texts| ==> Cached(t1, model, sha(texts[i]))
  {
    forall i | 0 <= i < |texts| ensures Cached(t1, model, sha(texts[i])) {
      if !Cached(t0, model, sha(texts[i])) {
        var k :| 0 <= k < |p.misses| && p.misses[k].index == i;
      }
    }
  }

  /** The corrected assembly: every result is written at its input index. */
  method PlaceResults(ghost t: Table, model: string, sha: Hashes.Sha256, embed: string -> Vec, texts: seq<string>,
                      hits: seq<Hit>, misses: seq<Miss>, batch: seq<Vec>) returns (embeddings: seq<Vec>)
    requires HitsOk(t, model, sha, texts, hits) && MissesOk(t, model, sha, texts, misses)
    requires Covers(t, model, sha, texts, Probe(hits, misses, t))
    requires batch == Encode(embed, MissTexts(misses))
    ensures |embeddings| == |texts|
    ensures forall i :: 0 <= i < |texts| ==> embeddings[i] == Expected(t, model, sha, embed, texts[i])
  {
    embeddings := seq(|texts|, _ => []);
    for k := 0 to |hits|
      invariant |embeddings| == |texts|
      invariant forall l :: 0 <= l < k ==> embeddings[hits[l].index] == Expected(t, model, sha, embed, texts[hits[l].index])
    {
      embeddings := embeddings[hits[k].index := hits[k].embedding];
    }
    for k := 0 to |misses|
      invariant |embeddings| == |texts|
      invariant forall l :: 0 <= l < |hits| ==> embeddings[hits[l].index] == Expected(t, model, sha, embed, texts[hits[l].index])
      invariant forall l :: 0 <= l < k ==> embeddings[misses[l].index] == Expected(t, model, sha, embed, texts[misses[l].index])
    {
      embeddings := embeddings[misses[k].index := batch[k]];
    }
    forall i | 0 <= i < |texts| ensures embeddings[i] == Expected(t, model, sha, embed, texts[i]) {
      if Cached(t, model, sha(texts[i])) {
        var k :| 0 <= k < |hits| && hits[k].index == i;
      } else {
        var k :| 0 <= k < |misses| && misses[k].index == i;
      }
    }
  }
}
