/**
 * src/modules/gpu_vectorizer.py: the embedding function's batch call and vectorize_documents, which
 * builds the same chunk entries as the production RAG generator but takes the logno from "logNo"
 * or "logno" (falling back to "unknown") and never raises on it.
 */
module GpuVectorizer {
  import opened Wrappers
  import opened Strings
  import opened Chroma
  import opened ChunkIds
  import opened PostJson
  import opened ChromaBatches
  import opened ChunkEntries
  import J = EmbedChunked

  /**
   * GPUEmbeddingFunction.__call__ (and encode, which delegates to it): no vectors for no input,
   * else one vector per text with the model's encoding as a parameter. The batch size (64 on a GPU,
   * 16 otherwise) only groups the model's work and does not change the vectors.
   */
  function EmbedCall(input: seq<string>, model: string -> seq<real>): (r: seq<seq<real>>)
    ensures |r| == |input|
  {
    if input == [] then [] else seq(|input|, k requires 0 <= k < |input| => model(input[k]))
  }

  /** The vectors do not depend on how the texts are grouped: a call on a + b is a call on a then one on b. */
  lemma EmbedCallSplit(a: seq<string>, b: seq<string>, model: string -> seq<real>)
    ensures EmbedCall(a + b, model) == EmbedCall(a, model) + EmbedCall(b, model)
  {
    var l, r := EmbedCall(a + b, model), EmbedCall(a, model) + EmbedCall(b, model);
    forall k | 0 <= k < |l| ensures l[k] == r[k] {
      if k < |a| {
        assert (a + b)[k] == a[k];
      } else {
        assert (a + b)[k] == b[k - |a|];
      }
    }
  }

  /** The collection stores, for each entry, the vector one batch call over all chunks gives it. */
  lemma RecordsEmbedLikeCall(p: Prepared, model: string -> seq<real>)
    requires |p.documents| == |p.metadatas|
    ensures |Records(p, model)| == |EmbedCall(p.documents, model)|
    ensures forall k :: 0 <= k < |p.documents| ==>
      Records(p, model)[k] == Record(EmbedCall(p.documents, model)[k], p.documents[k], p.metadatas[k])
  {
  }

  /**
   * vectorize_documents with ChromaDB available: the chunk entries of every post, then the batch
   * loop with its single-entry retries; only a content or category that does not convert raises.
   */
  method VectorizeDocuments(col: Collection, docs: seq<JDoc>, runId: string, sourceFile: string,
                            model: string -> seq<real>, batchOk: nat -> bool, itemOk: nat -> bool)
    returns (r: Result<nat, PrepError>)
    requires col.Contents().Valid()
    modifies col
    ensures PrepareSpec(Gpu, docs, runId, sourceFile).Err? ==>
      r == Err(PrepareSpec(Gpu, docs, runId, sourceFile).error) && col.Contents() == old(col.Contents())
    ensures PrepareSpec(Gpu, docs, runId, sourceFile).Ok? ==>
      var p := PrepareSpec(Gpu, docs, runId, sourceFile).value;
      && r.Ok? && r.value <= |p.ids|
      && col.Contents() == From(old(col.Contents()), p.ids, Records(p, model), batchOk, itemOk, 0)
      && (Reliable(batchOk, itemOk, |p.ids|) ==>
            r.value == |p.ids| && col.Contents() == PutAll(old(col.Contents()), p.ids, Records(p, model)))
  {
    r := PrepareAndUpsert(Gpu, col, docs, runId, sourceFile, model, batchOk, itemOk);
  }

  /** The GPU preparation raises only for the content or the category, never for the logno. */
  lemma {:induction false} GpuErrors(docs: seq<JDoc>, runId: string, sourceFile: string)
    ensures PrepareSpec(Gpu, docs, runId, sourceFile).Err? ==>
      PrepareSpec(Gpu, docs, runId, sourceFile).error in {BadContent, BadCategory}
    decreases |docs|
  {
    if docs != [] {
      GpuErrors(docs[..|docs| - 1], runId, sourceFile);
    }
  }

  /** A truthy "logNo" wins over "logno"; the stored logno is its digits' value, or 0 when it is not all digits. */
  lemma GpuLognoChoice(doc: JDoc, runId: string, sourceFile: string)
    requires Convert(Gpu, doc).Ok?
    ensures "logNo" in doc && J.Truthy(doc["logNo"]) ==> Convert(Gpu, doc).value.prefix == J.PyStr(doc["logNo"])
    ensures "logNo" in doc && doc["logNo"].Int? && doc["logNo"].n < 0 ==> Convert(Gpu, doc).value.logno == 0
    ensures "logNo" in doc && doc["logNo"].Str? && doc["logNo"].s != "" && AllDigits(doc["logNo"].s) ==>
      Convert(Gpu, doc).value.logno == ParseDigits(doc["logNo"].s) as int
  {
    if "logNo" in doc && doc["logNo"].Int? && doc["logNo"].n < 0 {
      SignChar(doc["logNo"].n);
      assert !IsDigit(J.PyStr(doc["logNo"])[0]);
    }
  }

  /**
   * Two posts with neither a truthy "logNo" nor a "logno" both get the ids "unknown:000", "unknown:001", ...:
   * the second one's upsert overwrites the first one's entries.
   */
  lemma UnknownLognosCollide(d1: JDoc, d2: JDoc, runId: string, sourceFile: string)
    requires Convert(Gpu, d1).Ok? && Convert(Gpu, d2).Ok?
    requires !J.Truthy(Field(d1, "logNo", J.Null)) && "logno" !in d1
    requires !J.Truthy(Field(d2, "logNo", J.Null)) && "logno" !in d2
    ensures DocPrepared(Gpu, d1, runId, sourceFile).value.ids[0] == DocPrepared(Gpu, d2, runId, sourceFile).value.ids[0]
      == ChunkId("unknown", 0)
  {
    DocPreparedShape(Gpu, d1, runId, sourceFile);
    DocPreparedShape(Gpu, d2, runId, sourceFile);
  }

  /** Posts whose lognos print differently get pairwise different chunk ids. */
  lemma GpuIdsDistinct(docs: seq<JDoc>, runId: string, sourceFile: string)
    requires PrepareSpec(Gpu, docs, runId, sourceFile).Ok?
    requires forall i, j :: 0 <= i < j < |docs| ==> J.PyStr(GpuLogno(docs[i])) != J.PyStr(GpuLogno(docs[j]))
    ensures Collections.Distinct(PrepareSpec(Gpu, docs, runId, sourceFile).value.ids)
  {
    PrepareIdsDistinct(Gpu, docs, runId, sourceFile);
  }
}
