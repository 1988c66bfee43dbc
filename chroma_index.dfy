/**
 * src/vector/chroma_index.py: ChromaIndexer.upsert_chunks, which writes chunks under their
 * chunk_hash in batches of 100 and skips every hash the collection already holds, and
 * delete_by_filter. The collection is the Chroma model; the clock is a parameter.
 */
module ChromaIndex {
  import opened Wrappers
  import opened Chroma

  /** A chunk dict: its 'text' and the other keys upsert_chunks copies into the metadata. */
  datatype Chunk = Chunk(text: string, fields: Meta)

  const BatchSize: nat := 100

  /** chunk.get(key, default) */
  function FieldOr(c: Chunk, key: string, default: MVal): MVal
  {
    if key in c.fields then c.fields[key] else default
  }

  /** The metadata dict of a new chunk as key-value pairs; `now` is datetime.now().isoformat(). */
  function MetadataPairs(c: Chunk, hash: string, now: string): seq<(string, MVal)>
  {
    [("source_url", FieldOr(c, "source_url", MStr(""))),
     ("logno", FieldOr(c, "logno", MInt(0))),
     ("content_hash", MStr(hash)),
     ("published_at", FieldOr(c, "published_at", MStr(""))),
     ("law_topic", FieldOr(c, "law_topic", MStr(""))),
     ("title", FieldOr(c, "title", MStr(""))),
     ("chunk_index", FieldOr(c, "chunk_index", MInt(0))),
     ("total_chunks", FieldOr(c, "total_chunks", MInt(1))),
     ("created_at", MStr(now))]
  }

  /** A dict literal: later pairs win. */
  function FromPairs(ps: seq<(string, MVal)>): Meta
  {
    if ps == [] then map[] else FromPairs(ps[..|ps| - 1])[ps[|ps| - 1].0 := ps[|ps| - 1].1]
  }

  function Metadata(c: Chunk, hash: string, now: string): Meta
  {
    FromPairs(MetadataPairs(c, hash, now))
  }

  /** The metadata records the chunk hash as content_hash. */
  lemma MetadataHash(c: Chunk, hash: string, now: string)
    ensures "content_hash" in Metadata(c, hash, now) && Metadata(c, hash, now)["content_hash"] == MStr(hash)
  {
    var ps := MetadataPairs(c, hash, now);
    var m3 := FromPairs(ps[..3]);
    assert ps[..3][..2] == ps[..2];
    assert m3 == FromPairs(ps[..2])["content_hash" := MStr(hash)];
    var k := 3;
    while k < |ps|
      invariant 3 <= k <= |ps|
      invariant "content_hash" in FromPairs(ps[..k]) && FromPairs(ps[..k])["content_hash"] == MStr(hash)
    {
      assert ps[..k + 1][..k] == ps[..k];
      assert ps[k].0 != "content_hash";
      k := k + 1;
    }
    assert ps[..|ps|] == ps;
  }

  /** The record upsert_chunks writes for one chunk. */
  function RecordFor(c: Chunk, emb: seq<real>, hash: string, now: string): Record
  {
    Record(emb, c.text, Metadata(c, hash, now))
  }

  /** The record upsert_chunks would write for each chunk, in input order. */
  function Written(chunks: seq<Chunk>, embs: seq<seq<real>>, hashes: seq<string>, now: string): (w: seq<Record>)
    requires |chunks| == |embs| == |hashes|
    ensures |w| == |hashes|
  {
    seq(|hashes|, k requires 0 <= k < |hashes| => RecordFor(chunks[k], embs[k], hashes[k], now))
  }

  /** The record under `id` is the one written for some chunk with that hash. */
  ghost predicate FromInput(id: string, rec: Record, hashes: seq<string>, written: seq<Record>)
    requires |written| == |hashes|
  {
    exists k :: 0 <= k < |hashes| && hashes[k] == id && rec == written[k]
  }

  /**
   * The filtering loop of one batch: the ids and records of chunks whose hash is not in
   * `existing`, in order, and the number of chunks skipped.
   */
  function Fresh(existing: set<string>, hashes: seq<string>, written: seq<Record>): (r: (seq<string>, seq<Record>, nat))
    requires |written| == |hashes|
    ensures |r.0| == |r.1| && |r.0| + r.2 == |hashes|
    decreases |hashes|
  {
    if hashes == [] then ([], [], 0)
    else
      var n := |hashes| - 1;
      var f := Fresh(existing, hashes[..n], written[..n]);
      if hashes[n] in existing then (f.0, f.1, f.2 + 1)
      else (f.0 + [hashes[n]], f.1 + [written[n]], f.2)
  }

  /**
   * The batch filter keeps exactly the chunks whose hash is not in `existing`, each with the
   * record written for it.
   */
  lemma {:induction false} FreshKeeps(existing: set<string>, hashes: seq<string>, written: seq<Record>)
    requires |written| == |hashes|
    ensures var (ids, recs, skipped) := Fresh(existing, hashes, written);
      && (forall id :: id in ids ==> id !in existing)
      && (forall k :: 0 <= k < |hashes| && hashes[k] !in existing ==> hashes[k] in ids)
      && (forall l :: 0 <= l < |ids| ==> FromInput(ids[l], recs[l], hashes, written))
    decreases |hashes|
  {
    if hashes != [] {
      var n := |hashes| - 1;
      FreshKeeps(existing, hashes[..n], written[..n]);
      var (ids, recs, skipped) := Fresh(existing, hashes[..n], written[..n]);
      FromInputSlice(hashes, written, 0, n, ids, recs);
      assert forall k :: 0 <= k < n ==> hashes[..n][k] == hashes[k];
      if hashes[n] !in existing {
        assert FromInput(hashes[n], written[n], hashes, written);
        var ids', recs' := ids + [hashes[n]], recs + [written[n]];
        assert forall l :: 0 <= l < |ids| ==> ids'[l] == ids[l] && recs'[l] == recs[l];
      }
    }
  }

  /** Filtering one more chunk of the slice [i, k). */
  lemma FreshSnoc(existing: set<string>, hashes: seq<string>, written: seq<Record>, i: nat, k: nat)
    requires |written| == |hashes| && i <= k < |hashes|
    ensures var f := Fresh(existing, hashes[i..k], written[i..k]);
      Fresh(existing, hashes[i..k + 1], written[i..k + 1])
        == if hashes[k] in existing then (f.0, f.1, f.2 + 1) else (f.0 + [hashes[k]], f.1 + [written[k]], f.2)
  {
    assert hashes[i..k + 1][..k - i] == hashes[i..k] && written[i..k + 1][..k - i] == written[i..k];
  }

  /** When every hash exists the filter keeps nothing and skips everything. */
  lemma {:induction false} FreshAllExisting(existing: set<string>, hashes: seq<string>, written: seq<Record>)
    requires |written| == |hashes|
    requires forall k :: 0 <= k < |hashes| ==> hashes[k] in existing
    ensures Fresh(existing, hashes, written) == ([], [], |hashes|)
    decreases |hashes|
  {
    if hashes != [] {
      var n := |hashes| - 1;
      assert forall k :: 0 <= k < n ==> hashes[..n][k] == hashes[k];
      FreshAllExisting(existing, hashes[..n], written[..n]);
    }
  }

  /** A record written for a chunk of a slice is written for a chunk of the whole input. */
  lemma FromInputSlice(hashes: seq<string>, written: seq<Record>, i: nat, j: nat, ids: seq<string>, recs: seq<Record>)
    requires |written| == |hashes| && i <= j <= |hashes| && |ids| == |recs|
    requires forall l :: 0 <= l < |ids| ==> FromInput(ids[l], recs[l], hashes[i..j], written[i..j])
    ensures forall l :: 0 <= l < |ids| ==> FromInput(ids[l], recs[l], hashes, written)
  {
    forall l | 0 <= l < |ids| ensures FromInput(ids[l], recs[l], hashes, written) {
      var k :| 0 <= k < j - i && hashes[i..j][k] == ids[l] && recs[l] == written[i..j][k];
      assert hashes[i + k] == ids[l] && recs[l] == written[i + k];
    }
  }

  function BatchEnd(i: nat, n: nat): (j: nat)
    requires i < n
    ensures i < j <= n && j - i <= BatchSize
  {
    if i + BatchSize < n then i + BatchSize else n
  }

  /** One batch [i, j): look up the batch hashes, then upsert the fresh chunks if there are any. */
  function BatchStep(s: Store, hashes: seq<string>, written: seq<Record>, i: nat, j: nat): (r: (Store, nat, nat))
    requires s.Valid() && |written| == |hashes| && i <= j <= |hashes|
    ensures r.0.Valid() && r.1 + r.2 == j - i
  {
    var existing := Existing(s, hashes[i..j]);
    var f := Fresh(existing, hashes[i..j], written[i..j]);
    if f.0 == [] then (s, 0, f.2) else (PutAll(s, f.0, f.1), |f.0|, f.2)
  }

  /** The outcome of the remaining batches on top of the counts so far. */
  function StepsLeft(rest: (Store, nat, nat), added: nat, skipped: nat): (Store, nat, nat)
  {
    (rest.0, added + rest.1, skipped + rest.2)
  }

  /** The batch loop from offset i: the store afterwards and the added and skipped counts. */
  function UpsertFrom(s: Store, hashes: seq<string>, written: seq<Record>, i: nat): (r: (Store, nat, nat))
    requires s.Valid() && |written| == |hashes| && i <= |hashes|
    ensures r.0.Valid() && r.1 + r.2 == |hashes| - i
    decreases |hashes| - i
  {
    if i == |hashes| then (s, 0, 0)
    else
      var j := BatchEnd(i, |hashes|);
      var b := BatchStep(s, hashes, written, i, j);
      StepsLeft(UpsertFrom(b.0, hashes, written, j), b.1, b.2)
  }

  /** The batch loop at offset i, with `added` and `skipped` so far, ends where the loop from s0 ends. */
  ghost predicate Remaining(s0: Store, s: Store, hashes: seq<string>, written: seq<Record>, i: nat, added: nat, skipped: nat)
    requires s0.Valid() && s.Valid() && |written| == |hashes| && i <= |hashes|
  {
    var rest, whole := UpsertFrom(s, hashes, written, i), UpsertFrom(s0, hashes, written, 0);
    rest.0 == whole.0 && added + rest.1 == whole.1 && skipped + rest.2 == whole.2
  }

  /** One turn of the batch loop keeps Remaining. */
  lemma RemainingStep(s0: Store, s: Store, hashes: seq<string>, written: seq<Record>, i: nat, added: nat, skipped: nat,
                      s': Store, added': nat, skipped': nat)
    requires s0.Valid() && s.Valid() && |written| == |hashes| && i < |hashes|
    requires Remaining(s0, s, hashes, written, i, added, skipped)
    requires var b := BatchStep(s, hashes, written, i, BatchEnd(i, |hashes|));
      s' == b.0 && added' == added + b.1 && skipped' == skipped + b.2
    ensures s'.Valid() && Remaining(s0, s', hashes, written, BatchEnd(i, |hashes|), added', skipped')
  {
    var j := BatchEnd(i, |hashes|);
    var b := BatchStep(s, hashes, written, i, j);
    var rest := UpsertFrom(s', hashes, written, j);
    assert UpsertFrom(s, hashes, written, i) == StepsLeft(rest, b.1, b.2);
  }

  /** When no batch is left, the counts so far are the final ones. */
  lemma RemainingDone(s0: Store, s: Store, hashes: seq<string>, written: seq<Record>, added: nat, skipped: nat)
    requires s0.Valid() && s.Valid() && |written| == |hashes|
    requires Remaining(s0, s, hashes, written, |hashes|, added, skipped)
    ensures var whole := UpsertFrom(s0, hashes, written, 0);
      whole.0 == s && whole.1 == added && whole.2 == skipped
  {
    assert UpsertFrom(s, hashes, written, |hashes|) == (s, 0, 0);
  }

  datatype UpsertError = LengthMismatch

  /** upsert_chunks: the counts (or the ValueError) and the collection afterwards. */
  function UpsertChunks(s: Store, chunks: seq<Chunk>, embs: seq<seq<real>>, hashes: seq<string>, now: string)
    : (r: (Result<(nat, nat), UpsertError>, Store))
    requires s.Valid()
    ensures chunks == [] || embs == [] || hashes == [] ==> r == (Ok((0, 0)), s)
    ensures chunks != [] && embs != [] && hashes != [] && !(|chunks| == |embs| == |hashes|) ==> r == (Err(LengthMismatch), s)
    ensures chunks != [] && embs != [] && hashes != [] && r.0.Ok? ==> r.0.value.0 + r.0.value.1 == |chunks|
    ensures r.1.Valid()
  {
    if chunks == [] || embs == [] || hashes == [] then (Ok((0, 0)), s)
    else if !(|chunks| == |embs| == |hashes|) then (Err(LengthMismatch), s)
    else
      var (s', added, skipped) := UpsertFrom(s, hashes, Written(chunks, embs, hashes, now), 0);
      (Ok((added, skipped)), s')
  }

  /** The loop's outcome is the result of upsert_chunks when the three lists are non-empty and equally long. */
  lemma UpsertChunksLoop(s: Store, chunks: seq<Chunk>, embs: seq<seq<real>>, hashes: seq<string>, now: string,
                         s': Store, r: Result<(nat, nat), UpsertError>)
    requires s.Valid() && chunks != [] && |chunks| == |embs| == |hashes|
    requires var whole := UpsertFrom(s, hashes, Written(chunks, embs, hashes, now), 0);
      r.Ok? && whole.0 == s' && whole.1 == r.value.0 && whole.2 == r.value.1
    ensures UpsertChunks(s, chunks, embs, hashes, now) == (r, s')
  {
  }

  /**
   * A batch keeps every stored record as it was, stores every hash of the batch, and any record
   * it adds is the one written for a chunk with that hash.
   */
  lemma BatchStepEffect(s: Store, hashes: seq<string>, written: seq<Record>, i: nat, j: nat)
    requires s.Valid() && |written| == |hashes| && i <= j <= |hashes|
    ensures var s' := BatchStep(s, hashes, written, i, j).0;
      && (forall id :: id in s.recs ==> id in s'.recs && s'.recs[id] == s.recs[id])
      && (forall k :: i <= k < j ==> hashes[k] in s'.recs)
      && (forall id :: id in s'.recs && id !in s.recs ==> FromInput(id, s'.recs[id], hashes, written))
  {
    var existing := Existing(s, hashes[i..j]);
    ExistingIff(s, hashes[i..j]);
    var (ids, recs, skipped) := Fresh(existing, hashes[i..j], written[i..j]);
    FreshKeeps(existing, hashes[i..j], written[i..j]);
    forall k | i <= k < j ensures hashes[k] in existing || hashes[k] in ids {
      assert hashes[i..j][k - i] == hashes[k];
    }
    if ids != [] {
      PutAllEffect(s, ids, recs);
      var s' := PutAll(s, ids, recs);
      FromInputSlice(hashes, written, i, j, ids, recs);
      forall id | id in s'.recs && id !in s.recs ensures FromInput(id, s'.recs[id], hashes, written) {
        var l :| 0 <= l < |ids| && ids[l] == id && s'.recs[id] == recs[l];
      }
    }
  }

  lemma {:induction false} UpsertFromEffect(s: Store, hashes: seq<string>, written: seq<Record>, i: nat)
    requires s.Valid() && |written| == |hashes| && i <= |hashes|
    ensures var s' := UpsertFrom(s, hashes, written, i).0;
      && (forall id :: id in s.recs ==> id in s'.recs && s'.recs[id] == s.recs[id])
      && (forall k :: i <= k < |hashes| ==> hashes[k] in s'.recs)
      && (forall id :: id in s'.recs && id !in s.recs ==> FromInput(id, s'.recs[id], hashes, written))
    decreases |hashes| - i
  {
    if i < |hashes| {
      var j := BatchEnd(i, |hashes|);
      BatchStepEffect(s, hashes, written, i, j);
      var s1 := BatchStep(s, hashes, written, i, j).0;
      UpsertFromEffect(s1, hashes, written, j);
    }
  }

  /**
   * After upsert_chunks every chunk hash is stored, no record that was there before is
   * overwritten, and every new record is the one written for a chunk with that hash: its
   * document is the chunk text and its content_hash metadata the hash.
   */
  lemma UpsertChunksEffect(s: Store, chunks: seq<Chunk>, embs: seq<seq<real>>, hashes: seq<string>, now: string)
    requires s.Valid() && |chunks| == |embs| == |hashes|
    ensures var s' := UpsertChunks(s, chunks, embs, hashes, now).1;
      && (forall id :: id in s.recs ==> id in s'.recs && s'.recs[id] == s.recs[id])
      && (forall k :: 0 <= k < |hashes| ==> hashes[k] in s'.recs)
      && (forall id :: id in s'.recs && id !in s.recs ==>
            exists k :: 0 <= k < |hashes| && hashes[k] == id && s'.recs[id] == RecordFor(chunks[k], embs[k], hashes[k], now)
              && s'.recs[id].document == chunks[k].text
              && "content_hash" in s'.recs[id].meta && s'.recs[id].meta["content_hash"] == MStr(id))
  {
    if chunks != [] {
      var written := Written(chunks, embs, hashes, now);
      UpsertFromEffect(s, hashes, written, 0);
      var s' := UpsertChunks(s, chunks, embs, hashes, now).1;
      forall id | id in s'.recs && id !in s.recs
        ensures exists k :: (0 <= k < |hashes| && hashes[k] == id && s'.recs[id] == RecordFor(chunks[k], embs[k], hashes[k], now)
              && s'.recs[id].document == chunks[k].text
              && "content_hash" in s'.recs[id].meta && s'.recs[id].meta["content_hash"] == MStr(id))
      {
        var k :| 0 <= k < |hashes| && hashes[k] == id && s'.recs[id] == written[k];
        assert written[k] == RecordFor(chunks[k], embs[k], hashes[k], now);
        MetadataHash(chunks[k], hashes[k], now);
      }
    }
  }

  /** With every hash already stored, each batch skips all of its chunks and nothing is written. */
  lemma {:induction false} UpsertFromStored(s: Store, hashes: seq<string>, written: seq<Record>, i: nat)
    requires s.Valid() && |written| == |hashes| && i <= |hashes|
    requires forall k :: 0 <= k < |hashes| ==> hashes[k] in s.recs
    ensures var r := UpsertFrom(s, hashes, written, i);
      r.0 == s && r.1 == 0 && r.2 == |hashes| - i
    decreases |hashes| - i
  {
    if i < |hashes| {
      var j := BatchEnd(i, |hashes|);
      var existing := Existing(s, hashes[i..j]);
      ExistingIff(s, hashes[i..j]);
      forall k | 0 <= k < j - i ensures hashes[i..j][k] in existing {
        assert hashes[i..j][k] == hashes[i + k];
      }
      FreshAllExisting(existing, hashes[i..j], written[i..j]);
      UpsertFromStored(s, hashes, written, j);
    }
  }

  /** Upserting the same chunks a second time adds nothing and skips all of them. */
  lemma UpsertTwiceAddsNothing(s: Store, chunks: seq<Chunk>, embs: seq<seq<real>>, hashes: seq<string>, now: string, later: string)
    requires s.Valid() && chunks != [] && |chunks| == |embs| == |hashes|
    ensures var s1 := UpsertChunks(s, chunks, embs, hashes, now).1;
      var second := UpsertChunks(s1, chunks, embs, hashes, later);
      second.0.Ok? && second.0.value.0 == 0 && second.0.value.1 == |chunks| && second.1 == s1
  {
    UpsertChunksEffect(s, chunks, embs, hashes, now);
    var s1 := UpsertChunks(s, chunks, embs, hashes, now).1;
    var w := Written(chunks, embs, hashes, later);
    UpsertFromStored(s1, hashes, w, 0);
    var r := UpsertFrom(s1, hashes, w, 0);
    assert UpsertChunks(s1, chunks, embs, hashes, later) == (Ok((r.1, r.2)), r.0);
  }

  /** delete_by_filter: the number of matching records and the collection without them. */
  function DeleteByFilter(s: Store, where: Meta): (r: (nat, Store))
    requires s.Valid()
    ensures r.0 == |Selected(s, where)|
    ensures r.1.Valid()
    ensures forall id :: id in r.1.recs <==> id in s.recs && !Matches(s.recs[id].meta, where)
    ensures forall id :: id in r.1.recs ==> r.1.recs[id] == s.recs[id]
  {
    var ids := Selected(s, where);
    if ids == [] then (0, s)
    else (|ids|, DeleteIds(s, set id | id in ids))
  }

  class ChromaIndexer {
    const collection: Collection

    constructor(collection: Collection)
      ensures this.collection == collection
    {
      this.collection := collection;
    }

    /** The filtering loop of the batch [i, j): new_ids, the records to write, and the skips. */
    static method FilterBatch(existing: set<string>, chunks: seq<Chunk>, embs: seq<seq<real>>, hashes: seq<string>, now: string,
                              i: nat, j: nat, ghost written: seq<Record>)
      returns (newIds: seq<string>, newRecs: seq<Record>, skipped: nat)
      requires |chunks| == |embs| == |hashes| && i <= j <= |hashes|
      requires written == Written(chunks, embs, hashes, now)
      ensures (newIds, newRecs, skipped) == Fresh(existing, hashes[i..j], written[i..j])
    {
      newIds, newRecs, skipped := [], [], 0;
      for k := i to j
        invariant (newIds, newRecs, skipped) == Fresh(existing, hashes[i..k], written[i..k])
      {
        newIds, newRecs, skipped := FilterOne(existing, chunks, embs, hashes, now, i, k, written, newIds, newRecs, skipped);
      }
    }

    /** One turn of the filtering loop: chunk k is kept when its hash is new, else counted as skipped. */
    static method FilterOne(existing: set<string>, chunks: seq<Chunk>, embs: seq<seq<real>>, hashes: seq<string>, now: string,
                            i: nat, k: nat, ghost written: seq<Record>, ids: seq<string>, recs: seq<Record>, skipped: nat)
      returns (ids': seq<string>, recs': seq<Record>, skipped': nat)
      requires |chunks| == |embs| == |hashes| && i <= k < |hashes|
      requires written == Written(chunks, embs, hashes, now)
      requires (ids, recs, skipped) == Fresh(existing, hashes[i..k], written[i..k])
      ensures (ids', recs', skipped') == Fresh(existing, hashes[i..k + 1], written[i..k + 1])
    {
      FreshSnoc(existing, hashes, written, i, k);
      var rec := RecordFor(chunks[k], embs[k], hashes[k], now);
      assert rec == written[k];
      if hashes[k] !in existing {
        ids', recs', skipped' := ids + [hashes[k]], recs + [rec], skipped;
      } else {
        ids', recs', skipped' := ids, recs, skipped + 1;
      }
    }

    /** One pass of the batch loop. */
    method UpsertBatch(chunks: seq<Chunk>, embs: seq<seq<real>>, hashes: seq<string>, now: string,
                       i: nat, j: nat, ghost written: seq<Record>)
      returns (added: nat, skipped: nat)
      requires |chunks| == |embs| == |hashes| && i <= j <= |hashes|
      requires written == Written(chunks, embs, hashes, now)
      requires collection.Contents().Valid()
      modifies collection
      ensures var b := BatchStep(old(collection.Contents()), hashes, written, i, j);
      collection.Contents() == b.0 && added == b.1 && skipped == b.2
    {
      var existing := collection.GetIds(hashes[i..j]);
      var newIds, newRecs;
      newIds, newRecs, skipped := FilterBatch(existing, chunks, embs, hashes, now, i, j, written);
      added := 0;
      if newIds != [] {
        collection.Upsert(newIds, newRecs);
        added := |newIds|;
      }
    }

    method UpsertChunksInto(chunks: seq<Chunk>, embs: seq<seq<real>>, hashes: seq<string>, now: string)
      returns (r: Result<(nat, nat), UpsertError>)
      requires collection.Contents().Valid()
      modifies collection
      ensures (r, collection.Contents()) == UpsertChunks(old(collection.Contents()), chunks, embs, hashes, now)
    {
      if chunks == [] || embs == [] || hashes == [] {
        return Ok((0, 0));
      }
      if |chunks| != |embs| || |chunks| != |hashes| {
        return Err(LengthMismatch);
      }
      ghost var written := Written(chunks, embs, hashes, now);
      var added, skipped := 0, 0;
      ghost var s0 := collection.Contents();
      var i := 0;
      while i < |hashes|
        invariant i <= |hashes| && collection.Contents().Valid()
        invariant Remaining(s0, collection.Contents(), hashes, written, i, added, skipped)
        decreases |hashes| - i
      {
        var j := BatchEnd(i, |hashes|);
        ghost var s, added0, skipped0 := collection.Contents(), added, skipped;
        var batchAdded, batchSkipped := UpsertBatch(chunks, embs, hashes, now, i, j, written);
        added, skipped := added + batchAdded, skipped + batchSkipped;
        RemainingStep(s0, s, hashes, written, i, added0, skipped0, collection.Contents(), added, skipped);
        i := j;
      }
      RemainingDone(s0, collection.Contents(), hashes, written, added, skipped);
      r := Ok((added, skipped));
      UpsertChunksLoop(s0, chunks, embs, hashes, now, collection.Contents(), r);
    }

    method DeleteByFilterFrom(where: Meta) returns (deleted: nat)
      requires collection.Contents().Valid()
      modifies collection
      ensures (deleted, collection.Contents()) == DeleteByFilter(old(collection.Contents()), where)
    {
      var ids := collection.GetWhere(where);
      if ids == [] {
        return 0;
      }
      collection.DeleteIdSet(set id | id in ids);
      deleted := |ids|;
    }
  }
}
