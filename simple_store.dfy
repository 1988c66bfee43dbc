/**
 * simple_vector_store.py: SimpleVectorStore, an in-memory stand-in for a ChromaDB collection
 * made of four parallel lists (ids, documents, embeddings, metadatas). `upsert` overwrites the
 * entry of a known id in place and appends a new id at the end; `query` returns the best
 * n_results entries of a similarity ranking, which the model takes as a parameter.
 */
module SimpleStore {
  import opened Collections
  import opened Strings

  type Meta = map<string, string>

  /** What the store holds at one position of the three value lists. */
  datatype Entry = Entry(document: string, embedding: seq<real>, metadata: Meta)

  /** The four lists as a value. */
  datatype Lists = Lists(ids: seq<string>, documents: seq<string>, embeddings: seq<seq<real>>, metadatas: seq<Meta>)
  {
    /** The ids are distinct and the four lists line up. */
    ghost predicate Valid()
    {
      Distinct(ids) && |documents| == |ids| && |embeddings| == |ids| && |metadatas| == |ids|
    }

    function At(p: nat): Entry
      requires p < |documents| && p < |embeddings| && p < |metadatas|
    {
      Entry(documents[p], embeddings[p], metadatas[p])
    }
  }

  const Empty := Lists([], [], [], [])

  /** self.ids.index(doc_id): the first position holding id. */
  function IndexOf(ids: seq<string>, id: string): (r: nat)
    requires id in ids
    ensures r < |ids| && ids[r] == id && id !in ids[..r]
  {
    if ids[0] == id then 0
    else
      assert ids == [ids[0]] + ids[1..];
      1 + IndexOf(ids[1..], id)
  }

  /** One iteration of the upsert loop. */
  function Put(l: Lists, id: string, e: Entry): (r: Lists)
    requires l.Valid()
    ensures r.Valid()
  {
    if id in l.ids then
      var idx := IndexOf(l.ids, id);
      Lists(l.ids, l.documents[idx := e.document], l.embeddings[idx := e.embedding], l.metadatas[idx := e.metadata])
    else
      var r := Lists(l.ids + [id], l.documents + [e.document], l.embeddings + [e.embedding], l.metadatas + [e.metadata]);
      assert forall i :: 0 <= i < |l.ids| ==> l.ids[i] != id;
      r
  }

  /** The batch as the loop sees it: item k of the four argument lists. */
  datatype Batch = Batch(ids: seq<string>, documents: seq<string>, embeddings: seq<seq<real>>, metadatas: seq<Meta>)
  {
    /** The value lists are at least as long as ids, so no index raises. */
    predicate WellFormed()
    {
      |documents| >= |ids| && |embeddings| >= |ids| && |metadatas| >= |ids|
    }

    function Item(k: nat): Entry
      requires WellFormed() && k < |ids|
    {
      Entry(documents[k], embeddings[k], metadatas[k])
    }
  }

  /** The first n iterations of the upsert loop. */
  function PutAll(l: Lists, b: Batch, n: nat): (r: Lists)
    requires l.Valid() && b.WellFormed() && n <= |b.ids|
    ensures r.Valid()
  {
    if n == 0 then l else Put(PutAll(l, b, n - 1), b.ids[n - 1], b.Item(n - 1))
  }

  /** The ids of the batch prefix that are new, in order of first occurrence. */
  function Appended(known: seq<string>, ids: seq<string>): seq<string>
  {
    if ids == [] then []
    else
      var init := ids[..|ids| - 1];
      var x := ids[|ids| - 1];
      Appended(known, init) + (if x in known || x in init then [] else [x])
  }

  /** The last position below n holding id. */
  function LastIndex(ids: seq<string>, n: nat, id: string): (k: nat)
    requires n <= |ids| && id in ids[..n]
    ensures k < n && ids[k] == id && id !in ids[k + 1..n]
  {
    if ids[n - 1] == id then n - 1
    else
      assert ids[..n] == ids[..n - 1] + [ids[n - 1]];
      LastIndex(ids, n - 1, id)
  }

  /** One iteration: the id's position (old or appended) holds the new entry, every other is kept. */
  lemma PutShape(l: Lists, id: string, e: Entry)
    requires l.Valid()
    ensures Put(l, id, e).ids == if id in l.ids then l.ids else l.ids + [id]
    ensures forall p :: 0 <= p < |Put(l, id, e).ids| ==>
      if Put(l, id, e).ids[p] == id then Put(l, id, e).At(p) == e
      else p < |l.ids| && Put(l, id, e).At(p) == l.At(p)
  {
    if id in l.ids {
      var idx := IndexOf(l.ids, id);
      forall p | 0 <= p < |l.ids| && l.ids[p] == id ensures p == idx { }
    }
  }

  /**
   * The upsert keeps the old ids in place and appends the new ones in order of first occurrence;
   * each position holds the entry of the last batch item with its id, or its old entry when the
   * batch does not mention it.
   */
  lemma PutAllShape(l: Lists, b: Batch, n: nat)
    requires l.Valid() && b.WellFormed() && n <= |b.ids|
    ensures PutAll(l, b, n).ids == l.ids + Appended(l.ids, b.ids[..n])
    ensures forall p :: 0 <= p < |PutAll(l, b, n).ids| ==>
      var r := PutAll(l, b, n);
      if r.ids[p] in b.ids[..n] then r.At(p) == b.Item(LastIndex(b.ids, n, r.ids[p]))
      else p < |l.ids| && r.At(p) == l.At(p)
  {
    PutAllIds(l, b, n);
    PutAllEntries(l, b, n);
  }

  lemma {:induction false} PutAllIds(l: Lists, b: Batch, n: nat)
    requires l.Valid() && b.WellFormed() && n <= |b.ids|
    ensures PutAll(l, b, n).ids == l.ids + Appended(l.ids, b.ids[..n])
    decreases n
  {
    if n > 0 {
      var prev := PutAll(l, b, n - 1);
      PutAllIds(l, b, n - 1);
      var x := b.ids[n - 1];
      var front := b.ids[..n - 1];
      assert b.ids[..n][..n - 1] == front && b.ids[..n][n - 1] == x;
      assert Appended(l.ids, b.ids[..n]) == Appended(l.ids, front) + (if x in l.ids || x in front then [] else [x]);
      AppendedCovers(l.ids, front);
      assert x in prev.ids <==> x in l.ids || x in front;
      PutShape(prev, x, b.Item(n - 1));
    }
  }

  lemma {:induction false} PutAllEntries(l: Lists, b: Batch, n: nat)
    requires l.Valid() && b.WellFormed() && n <= |b.ids|
    ensures forall p :: 0 <= p < |PutAll(l, b, n).ids| ==>
      var r := PutAll(l, b, n);
      if r.ids[p] in b.ids[..n] then r.At(p) == b.Item(LastIndex(b.ids, n, r.ids[p]))
      else p < |l.ids| && r.At(p) == l.At(p)
    decreases n
  {
    if n > 0 {
      var prev := PutAll(l, b, n - 1);
      PutAllEntries(l, b, n - 1);
      PutAllIds(l, b, n - 1);
      var x := b.ids[n - 1];
      PutShape(prev, x, b.Item(n - 1));
      var r := PutAll(l, b, n);
      assert b.ids[..n] == b.ids[..n - 1] + [x];
      assert forall id :: id in b.ids[..n] <==> id in b.ids[..n - 1] || id == x;
      forall p | 0 <= p < |r.ids|
        ensures if r.ids[p] in b.ids[..n] then r.At(p) == b.Item(LastIndex(b.ids, n, r.ids[p]))
          else p < |l.ids| && r.At(p) == l.At(p)
      {
        if r.ids[p] != x {
          assert p < |prev.ids| && r.ids[p] == prev.ids[p];
        }
      }
    }
  }

  /** Once every batch id is stored, the batch adds no id. */
  lemma {:induction false} AppendedKnown(known: seq<string>, ids: seq<string>)
    requires forall i :: 0 <= i < |ids| ==> ids[i] in known
    ensures Appended(known, ids) == []
    decreases |ids|
  {
    if ids != [] {
      AppendedKnown(known, ids[..|ids| - 1]);
    }
  }

  /** Every id of the batch is stored after the upsert. */
  lemma {:induction false} AppendedCovers(known: seq<string>, ids: seq<string>)
    ensures forall id :: id in known + Appended(known, ids) <==> id in known || id in ids
    decreases |ids|
  {
    if ids != [] {
      var init := ids[..|ids| - 1];
      AppendedCovers(known, init);
      assert forall id :: id in ids <==> id in init || id == ids[|ids| - 1];
    }
  }

  /** A second pass of the same batch finds every id and rewrites each with the entry it already holds. */
  lemma SecondPass(l: Lists, b: Batch)
    requires l.Valid() && b.WellFormed()
    ensures var r := PutAll(l, b, |b.ids|);
      var r2 := PutAll(r, b, |b.ids|);
      r2.ids == r.ids && forall p :: 0 <= p < |r.ids| ==> r2.At(p) == r.At(p)
  {
    var n := |b.ids|;
    var r := PutAll(l, b, n);
    assert b.ids[..n] == b.ids;
    PutAllShape(l, b, n);
    PutAllShape(r, b, n);
    AppendedCovers(l.ids, b.ids);
    AppendedKnown(r.ids, b.ids);
  }

  /** Upserting the same batch twice leaves the store as one upsert does. */
  lemma UpsertIdempotent(l: Lists, b: Batch)
    requires l.Valid() && b.WellFormed()
    ensures PutAll(PutAll(l, b, |b.ids|), b, |b.ids|) == PutAll(l, b, |b.ids|)
  {
    var r := PutAll(l, b, |b.ids|);
    var r2 := PutAll(r, b, |b.ids|);
    SecondPass(l, b);
    forall p | 0 <= p < |r.ids|
      ensures r2.documents[p] == r.documents[p] && r2.embeddings[p] == r.embeddings[p] && r2.metadatas[p] == r.metadatas[p]
    {
      assert r2.At(p) == r.At(p);
    }
    assert r2.documents == r.documents;
    assert r2.embeddings == r.embeddings;
    assert r2.metadatas == r.metadatas;
  }

  /** The result of query: one inner list per query embedding (only the first is used). */
  datatype QueryResult = QueryResult(documents: seq<seq<string>>, metadatas: seq<seq<Meta>>, ids: seq<seq<string>>, embeddings: seq<seq<seq<real>>>)

  /** argsort(similarities)[::-1]: every position once, best first. */
  predicate Ranking(order: seq<nat>, n: nat)
  {
    |order| == n && Distinct(order) && forall i :: 0 <= i < |order| ==> order[i] < n
  }

  class VectorStore {
    var ids: seq<string>
    var documents: seq<string>
    var embeddings: seq<seq<real>>
    var metadatas: seq<Meta>

    function Contents(): Lists
      reads this
    {
      Lists(ids, documents, embeddings, metadatas)
    }

    constructor()
      ensures Contents() == Empty
    {
      ids, documents, embeddings, metadatas := [], [], [], [];
    }

    /** upsert: an existing id is overwritten at its index, a new one appended to all four lists. */
    method Upsert(newIds: seq<string>, docs: seq<string>, embs: seq<seq<real>>, metas: seq<Meta>)
      requires Contents().Valid()
      requires Batch(newIds, docs, embs, metas).WellFormed()
      modifies this
      ensures Contents().Valid()
      ensures Contents() == PutAll(old(Contents()), Batch(newIds, docs, embs, metas), |newIds|)
    {
      ghost var l0 := Contents();
      ghost var b := Batch(newIds, docs, embs, metas);
      for i := 0 to |newIds|
        invariant Contents() == PutAll(l0, b, i)
      {
        var docId := newIds[i];
        if docId in ids {
          var idx := IndexOf(ids, docId);
          documents := documents[idx := docs[i]];
          embeddings := embeddings[idx := embs[i]];
          metadatas := metadatas[idx := metas[i]];
        } else {
          ids := ids + [docId];
          documents := documents + [docs[i]];
          embeddings := embeddings + [embs[i]];
          metadatas := metadatas + [metas[i]];
        }
      }
    }

    /**
     * query: the empty store answers singleton-empty lists; otherwise the first n_results
     * positions of the ranking (Python slice semantics), the four lists aligned.
     */
    function Query(order: seq<nat>, nResults: int): (r: QueryResult)
      requires Contents().Valid() && Ranking(order, |documents|)
      reads this
      ensures documents == [] ==> r == QueryResult([[]], [[]], [[]], [[]])
      ensures |r.ids| == 1 && |r.documents| == 1 && |r.metadatas| == 1 && |r.embeddings| == 1
      ensures nResults >= 0 ==> |r.ids[0]| <= nResults
      ensures documents != [] ==> |r.ids[0]| == Clamp(nResults, |ids|)
      ensures |r.documents[0]| == |r.ids[0]| && |r.metadatas[0]| == |r.ids[0]| && |r.embeddings[0]| == |r.ids[0]|
      ensures forall j :: 0 <= j < |r.ids[0]| ==>
        j < |order| && r.ids[0][j] == ids[order[j]] && r.documents[0][j] == documents[order[j]]
          && r.metadatas[0][j] == metadatas[order[j]] && r.embeddings[0][j] == embeddings[order[j]]
      ensures Distinct(r.ids[0])
    {
      if documents == [] then QueryResult([[]], [[]], [[]], [[]])
      else
        var top := Slice(order, 0, nResults);
        var docs, metas, known, embs := documents, metadatas, ids, embeddings;
        assert forall j :: 0 <= j < |top| ==> top[j] == order[j];
        QueryResult(
          [seq(|top|, j requires 0 <= j < |top| => docs[top[j]])],
          [seq(|top|, j requires 0 <= j < |top| => metas[top[j]])],
          [seq(|top|, j requires 0 <= j < |top| => known[top[j]])],
          [seq(|top|, j requires 0 <= j < |top| => embs[top[j]])])
    }
  }
}
