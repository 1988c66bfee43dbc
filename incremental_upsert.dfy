/**
 * The change-detecting side of src/ingest/embed_to_chroma_final.py and
 * src/ingest/embed_to_chroma_production.py: near-duplicate removal within one original document
 * (dedup_chunks) and the incremental upsert that replaces a document's chunks when its hash changed.
 */
module EmbedIncremental {
  import opened Wrappers
  import opened Strings
  import opened Collections
  import Hashes
  import Chroma
  import EmbedChunked
  import EmbedFinal

  type Json = EmbedChunked.Json
  type EChunk = EmbedFinal.EChunk

  // ---------------------------------------------------------------- simhash and bit distance

  function HexDigit(c: char): nat
  {
    if '0' <= c <= '9' then c as nat - '0' as nat
    else if 'a' <= c <= 'f' then c as nat - 'a' as nat + 10
    else if 'A' <= c <= 'F' then c as nat - 'A' as nat + 10
    else 0
  }

  /** int(s, 16) on a hex digest. */
  function HexValue(s: string): nat
  {
    if s == [] then 0 else HexValue(s[..|s| - 1]) * 16 + HexDigit(s[|s| - 1])
  }

  /** simhash: the MD5 digest of the first 800 characters with whitespace runs collapsed, as an integer. */
  function Simhash(md5: Hashes.Md5, text: string): nat
  {
    HexValue(md5(CollapseSpaces(Slice(text, 0, 800))))
  }

  /** a ^ b on non-negative integers. */
  function Xor(a: nat, b: nat): nat
    decreases a + b
  {
    if a == 0 && b == 0 then 0 else (if a % 2 != b % 2 then 1 else 0) + 2 * Xor(a / 2, b / 2)
  }

  /** bin(n).count("1") */
  function PopCount(n: nat): nat
  {
    if n == 0 then 0 else n % 2 + PopCount(n / 2)
  }

  lemma {:induction false} XorSelf(a: nat)
    ensures Xor(a, a) == 0
    decreases a
  {
    if a != 0 {
      XorSelf(a / 2);
    }
  }

  /** `1.0 - diff_bits / 128.0 > threshold` */
  predicate Similar(h: nat, g: nat, threshold: real)
  {
    1.0 - (PopCount(Xor(h, g)) as real) / 128.0 > threshold
  }

  /** A chunk is always similar to an identical hash once the threshold is below 1. */
  lemma SimilarToSelf(h: nat, threshold: real)
    requires threshold < 1.0
    ensures Similar(h, h, threshold)
  {
    XorSelf(h);
  }

  predicate AnySimilar(h: nat, hs: seq<nat>, threshold: real)
  {
    exists i :: 0 <= i < |hs| && Similar(h, hs[i], threshold)
  }

  // ---------------------------------------------------------------- dedup_chunks

  /** `chunk.get("original_id", "unknown")` */
  function DedupKey(c: EChunk): Json
  {
    if c.originalId.Missing? then EmbedChunked.Str("unknown") else c.originalId
  }

  function HashOf(md5: Hashes.Md5, c: EChunk): nat
  {
    Simhash(md5, c.text)
  }

  /** seen_hashes[key], or nothing yet. */
  function Recorded(hashes: map<Json, seq<nat>>, key: Json): seq<nat>
  {
    if key in hashes then hashes[key] else []
  }

  /** The loop state after a prefix of the chunks: seen_hashes, and the positions kept so far. */
  datatype Seen = Seen(hashes: map<Json, seq<nat>>, kept: seq<nat>)

  function DedupUpTo(cs: seq<EChunk>, md5: Hashes.Md5, threshold: real, n: nat): (r: Seen)
    requires n <= |cs|
    ensures forall k :: 0 <= k < |r.kept| ==> r.kept[k] < n
  {
    if n == 0 then Seen(map[], [])
    else
      var st := DedupUpTo(cs, md5, threshold, n - 1);
      var c := cs[n - 1];
      var h := HashOf(md5, c);
      var key := DedupKey(c);
      if key in st.hashes && AnySimilar(h, st.hashes[key], threshold) then st
      else Seen(st.hashes[key := Recorded(st.hashes, key) + [h]], st.kept + [n - 1])
  }

  /** The chunks at the given positions, in order. */
  function Pick(cs: seq<EChunk>, kept: seq<nat>): (r: seq<EChunk>)
    requires forall k :: 0 <= k < |kept| ==> kept[k] < |cs|
    ensures |r| == |kept| && forall k :: 0 <= k < |kept| ==> r[k] == cs[kept[k]]
  {
    seq(|kept|, k requires 0 <= k < |kept| => cs[kept[k]])
  }

  lemma PickSnoc(cs: seq<EChunk>, kept: seq<nat>, i: nat)
    requires forall k :: 0 <= k < |kept| ==> kept[k] < |cs|
    requires i < |cs|
    ensures Pick(cs, kept + [i]) == Pick(cs, kept) + [cs[i]]
  {
  }

  /** dedup_chunks */
  function DedupChunks(cs: seq<EChunk>, md5: Hashes.Md5, threshold: real): seq<EChunk>
  {
    Pick(cs, DedupUpTo(cs, md5, threshold, |cs|).kept)
  }

  /**
   * The reference reading of dedup_chunks: chunk i survives unless an earlier surviving chunk of
   * the same original id has a similar hash.
   */
  ghost predicate Survives(cs: seq<EChunk>, md5: Hashes.Md5, threshold: real, i: nat)
    requires i < |cs|
    decreases i
  {
    forall j :: 0 <= j < i && DedupKey(cs[j]) == DedupKey(cs[i]) && Survives(cs, md5, threshold, j) ==>
      !Similar(HashOf(md5, cs[i]), HashOf(md5, cs[j]), threshold)
  }

  /** The kept positions are increasing and below n. */
  ghost predicate Ordered(kept: seq<nat>, n: nat)
  {
    (forall j, k :: 0 <= j < k < |kept| ==> kept[j] < kept[k]) && (forall k :: 0 <= k < |kept| ==> kept[k] < n)
  }

  /** The kept positions below n are exactly the surviving ones. */
  ghost predicate Decided(cs: seq<EChunk>, md5: Hashes.Md5, threshold: real, n: nat, kept: seq<nat>)
    requires n <= |cs|
  {
    forall i :: 0 <= i < n ==> (i in kept <==> Survives(cs, md5, threshold, i))
  }

  /** seen_hashes has a key for every original id met so far. */
  ghost predicate KeysSeen(cs: seq<EChunk>, n: nat, hashes: map<Json, seq<nat>>)
    requires n <= |cs|
  {
    forall key :: key in hashes <==> exists j :: 0 <= j < n && DedupKey(cs[j]) == key
  }

  /** seen_hashes[key] holds the hashes of the kept chunks with that key. */
  ghost predicate HashesOfKept(cs: seq<EChunk>, md5: Hashes.Md5, hashes: map<Json, seq<nat>>, kept: seq<nat>)
    requires forall k :: 0 <= k < |kept| ==> kept[k] < |cs|
  {
    && (forall key, h :: key in hashes && h in hashes[key] ==>
          exists k :: 0 <= k < |kept| && DedupKey(cs[kept[k]]) == key && HashOf(md5, cs[kept[k]]) == h)
    && (forall k :: 0 <= k < |kept| ==>
          DedupKey(cs[kept[k]]) in hashes && HashOf(md5, cs[kept[k]]) in hashes[DedupKey(cs[kept[k]])])
  }

  ghost predicate DedupInv(cs: seq<EChunk>, md5: Hashes.Md5, threshold: real, n: nat, st: Seen)
    requires n <= |cs|
  {
    Ordered(st.kept, n) && Decided(cs, md5, threshold, n, st.kept) && KeysSeen(cs, n, st.hashes)
      && HashesOfKept(cs, md5, st.hashes, st.kept)
  }

  lemma {:induction false} DedupUpToInv(cs: seq<EChunk>, md5: Hashes.Md5, threshold: real, n: nat)
    requires n <= |cs|
    ensures DedupInv(cs, md5, threshold, n, DedupUpTo(cs, md5, threshold, n))
    decreases n
  {
    if n > 0 {
      DedupUpToInv(cs, md5, threshold, n - 1);
      DedupStepInv(cs, md5, threshold, n - 1, DedupUpTo(cs, md5, threshold, n - 1));
    }
  }

  lemma DedupStepInv(cs: seq<EChunk>, md5: Hashes.Md5, threshold: real, i: nat, st: Seen)
    requires i < |cs| && DedupInv(cs, md5, threshold, i, st)
    requires st == DedupUpTo(cs, md5, threshold, i)
    ensures DedupInv(cs, md5, threshold, i + 1, DedupUpTo(cs, md5, threshold, i + 1))
  {
    var c := cs[i];
    var h := HashOf(md5, c);
    var key := DedupKey(c);
    var r := DedupUpTo(cs, md5, threshold, i + 1);
    if key in st.hashes && AnySimilar(h, st.hashes[key], threshold) {
      DropOne(cs, md5, threshold, i, st);
    } else {
      assert r == Seen(st.hashes[key := Recorded(st.hashes, key) + [h]], st.kept + [i]);
      SurvivesIfNoneSimilar(cs, md5, threshold, i, st);
      KeepOne(cs, md5, threshold, i, st);
    }
  }

  /** A chunk similar to a recorded hash of its key does not survive; the state is unchanged. */
  lemma DropOne(cs: seq<EChunk>, md5: Hashes.Md5, threshold: real, i: nat, st: Seen)
    requires i < |cs| && DedupInv(cs, md5, threshold, i, st)
    requires DedupKey(cs[i]) in st.hashes && AnySimilar(HashOf(md5, cs[i]), st.hashes[DedupKey(cs[i])], threshold)
    ensures DedupInv(cs, md5, threshold, i + 1, st)
  {
    var key := DedupKey(cs[i]);
    var h := HashOf(md5, cs[i]);
    var m :| 0 <= m < |st.hashes[key]| && Similar(h, st.hashes[key][m], threshold);
    assert st.hashes[key][m] in st.hashes[key];
    var k :| 0 <= k < |st.kept| && DedupKey(cs[st.kept[k]]) == key && HashOf(md5, cs[st.kept[k]]) == st.hashes[key][m];
    var j := st.kept[k];
    assert j < i && j in st.kept;
    assert !Survives(cs, md5, threshold, i);
    assert i !in st.kept;
    DecidedExtend(cs, md5, threshold, i, st.kept);
    KeysAgain(cs, i, st.hashes);
  }

  lemma DecidedExtend(cs: seq<EChunk>, md5: Hashes.Md5, threshold: real, i: nat, kept: seq<nat>)
    requires i < |cs| && Decided(cs, md5, threshold, i, kept)
    requires i in kept <==> Survives(cs, md5, threshold, i)
    ensures Decided(cs, md5, threshold, i + 1, kept)
  {
    forall i' | 0 <= i' < i + 1 ensures i' in kept <==> Survives(cs, md5, threshold, i') {
      if i' < i {
      }
    }
  }

  lemma KeysAgain(cs: seq<EChunk>, i: nat, hashes: map<Json, seq<nat>>)
    requires i < |cs| && KeysSeen(cs, i, hashes) && DedupKey(cs[i]) in hashes
    ensures KeysSeen(cs, i + 1, hashes)
  {
    forall key | key in hashes ensures exists j :: 0 <= j < i + 1 && DedupKey(cs[j]) == key {
      var j :| 0 <= j < i && DedupKey(cs[j]) == key;
    }
  }

  /** Without a similar recorded hash, chunk i survives. */
  lemma SurvivesIfNoneSimilar(cs: seq<EChunk>, md5: Hashes.Md5, threshold: real, i: nat, st: Seen)
    requires i < |cs| && DedupInv(cs, md5, threshold, i, st)
    requires DedupKey(cs[i]) in st.hashes ==> !AnySimilar(HashOf(md5, cs[i]), st.hashes[DedupKey(cs[i])], threshold)
    ensures Survives(cs, md5, threshold, i)
  {
    var key := DedupKey(cs[i]);
    var h := HashOf(md5, cs[i]);
    forall j | 0 <= j < i && DedupKey(cs[j]) == key && Survives(cs, md5, threshold, j)
      ensures !Similar(h, HashOf(md5, cs[j]), threshold)
    {
      assert key in st.hashes;
      var k :| 0 <= k < |st.kept| && st.kept[k] == j;
      assert HashOf(md5, cs[j]) in st.hashes[key];
      var m :| 0 <= m < |st.hashes[key]| && st.hashes[key][m] == HashOf(md5, cs[j]);
    }
  }

  /** The bookkeeping of a kept chunk: its position and its hash are recorded under its key. */
  lemma KeepOne(cs: seq<EChunk>, md5: Hashes.Md5, threshold: real, i: nat, st: Seen)
    requires i < |cs| && DedupInv(cs, md5, threshold, i, st)
    requires Survives(cs, md5, threshold, i)
    ensures var key := DedupKey(cs[i]);
      DedupInv(cs, md5, threshold, i + 1,
        Seen(st.hashes[key := Recorded(st.hashes, key) + [HashOf(md5, cs[i])]], st.kept + [i]))
  {
    var key := DedupKey(cs[i]);
    var hashes := st.hashes[key := Recorded(st.hashes, key) + [HashOf(md5, cs[i])]];
    var kept := st.kept + [i];
    assert Ordered(kept, i + 1);
    assert Decided(cs, md5, threshold, i + 1, kept) by {
      assert forall j :: 0 <= j < i ==> (j in kept <==> j in st.kept);
    }
    KeysAfterKeep(cs, i, st.hashes, hashes);
    HashesAfterKeep(cs, md5, i, st.hashes, st.kept);
  }

  lemma KeysAfterKeep(cs: seq<EChunk>, i: nat, old_: map<Json, seq<nat>>, hashes: map<Json, seq<nat>>)
    requires i < |cs| && KeysSeen(cs, i, old_)
    requires hashes.Keys == old_.Keys + {DedupKey(cs[i])}
    ensures KeysSeen(cs, i + 1, hashes)
  {
    forall key' ensures key' in hashes <==> exists j :: 0 <= j < i + 1 && DedupKey(cs[j]) == key' {
      if key' == DedupKey(cs[i]) {
        assert DedupKey(cs[i]) == key';
      }
    }
  }

  lemma HashesAfterKeep(cs: seq<EChunk>, md5: Hashes.Md5, i: nat, hashes: map<Json, seq<nat>>, kept: seq<nat>)
    requires i < |cs| && forall k :: 0 <= k < |kept| ==> kept[k] < i
    requires HashesOfKept(cs, md5, hashes, kept)
    ensures var key := DedupKey(cs[i]);
      HashesOfKept(cs, md5, hashes[key := Recorded(hashes, key) + [HashOf(md5, cs[i])]], kept + [i])
  {
    var key := DedupKey(cs[i]);
    var hi := HashOf(md5, cs[i]);
    var r := hashes[key := Recorded(hashes, key) + [hi]];
    var rk := kept + [i];
    assert forall h :: h in r[key] <==> h in Recorded(hashes, key) || h == hi;
    forall key', h | key' in r && h in r[key']
      ensures exists k :: 0 <= k < |rk| && DedupKey(cs[rk[k]]) == key' && HashOf(md5, cs[rk[k]]) == h
    {
      if key' == key && h == hi {
        assert rk[|kept|] == i;
      } else {
        assert key' in hashes && h in hashes[key'];
        var k :| 0 <= k < |kept| && DedupKey(cs[kept[k]]) == key' && HashOf(md5, cs[kept[k]]) == h;
        assert rk[k] == kept[k];
      }
    }
    forall k | 0 <= k < |rk|
      ensures DedupKey(cs[rk[k]]) in r && HashOf(md5, cs[rk[k]]) in r[DedupKey(cs[rk[k]])]
    {
      if k < |kept| {
        assert rk[k] == kept[k];
      }
    }
  }

  /**
   * dedup_chunks returns a subsequence of its input (strictly increasing positions), and a chunk is
   * kept exactly when no earlier kept chunk of the same original id is similar to it. So the first
   * chunk of every original id is kept, and chunks of different ids are never compared.
   */
  lemma DedupChunksSpec(cs: seq<EChunk>, md5: Hashes.Md5, threshold: real)
    ensures var kept := DedupUpTo(cs, md5, threshold, |cs|).kept;
      && |DedupChunks(cs, md5, threshold)| == |kept|
      && (forall k :: 0 <= k < |kept| ==> DedupChunks(cs, md5, threshold)[k] == cs[kept[k]])
      && (forall j, k :: 0 <= j < k < |kept| ==> kept[j] < kept[k])
      && (forall i :: 0 <= i < |cs| ==> (i in kept <==> Survives(cs, md5, threshold, i)))
    ensures forall i :: 0 <= i < |cs| && (forall j :: 0 <= j < i ==> DedupKey(cs[j]) != DedupKey(cs[i])) ==>
      i in DedupUpTo(cs, md5, threshold, |cs|).kept
  {
    DedupUpToInv(cs, md5, threshold, |cs|);
  }

  /** The loop of dedup_chunks, with its inner scan of seen_hashes[original_id]. */
  method DedupChunksLoop(cs: seq<EChunk>, md5: Hashes.Md5, threshold: real) returns (deduplicated: seq<EChunk>)
    ensures deduplicated == DedupChunks(cs, md5, threshold)
  {
    var seen: map<Json, seq<nat>> := map[];
    ghost var kept: seq<nat> := [];
    deduplicated := [];
    for i := 0 to |cs|
      invariant DedupUpTo(cs, md5, threshold, i) == Seen(seen, kept)
      invariant deduplicated == Pick(cs, kept)
    {
      var chunk := cs[i];
      var chunkHash := Simhash(md5, chunk.text);
      var originalId := DedupKey(chunk);
      var keep := true;
      if originalId in seen {
        var isDuplicate := ScanSimilar(chunkHash, seen[originalId], threshold);
        keep := !isDuplicate;
      }
      if keep {
        PickSnoc(cs, kept, i);
        seen := seen[originalId := Recorded(seen, originalId) + [chunkHash]];
        deduplicated := deduplicated + [chunk];
        kept := kept + [i];
      }
    }
  }

  /** The inner `for existing_hash in ...: if similarity > threshold: break`. */
  method ScanSimilar(h: nat, hs: seq<nat>, threshold: real) returns (found: bool)
    ensures found == AnySimilar(h, hs, threshold)
  {
    found := false;
    var k := 0;
    while k < |hs| && !found
      invariant 0 <= k <= |hs|
      invariant found ==> AnySimilar(h, hs, threshold)
      invariant !found ==> forall m :: 0 <= m < k ==> !Similar(h, hs[m], threshold)
    {
      if Similar(h, hs[k], threshold) {
        found := true;
      }
      k := k + 1;
    }
  }

  // ---------------------------------------------------------------- incremental_upsert

  /** One element of zip(chunks, embeddings, metadatas, documents). */
  datatype Item = Item(chunk: EChunk, emb: seq<real>, meta: Chroma.Meta, doc: string)

  function Min4(a: nat, b: nat, c: nat, d: nat): nat
  {
    var ab := if a < b then a else b;
    var cd := if c < d then c else d;
    if ab < cd then ab else cd
  }

  /** zip() stops at the shortest of the four lists. */
  function Zip(chunks: seq<EChunk>, embs: seq<seq<real>>, metas: seq<Chroma.Meta>, docs: seq<string>): (r: seq<Item>)
    ensures |r| == Min4(|chunks|, |embs|, |metas|, |docs|)
    ensures forall i :: 0 <= i < |r| ==> r[i] == Item(chunks[i], embs[i], metas[i], docs[i])
  {
    seq(Min4(|chunks|, |embs|, |metas|, |docs|), i requires 0 <= i < Min4(|chunks|, |embs|, |metas|, |docs|) =>
      Item(chunks[i], embs[i], metas[i], docs[i]))
  }

  /** chunk["original_id"] */
  function KeyOf(it: Item): Json
  {
    it.chunk.originalId
  }

  function KeysOf(items: seq<Item>): (r: seq<Json>)
    ensures |r| == |items| && forall i :: 0 <= i < |items| ==> r[i] == KeyOf(items[i])
  {
    seq(|items|, i requires 0 <= i < |items| => KeyOf(items[i]))
  }

  /** The keys of chunks_by_original, in first-appearance order. */
  function GroupKeys(items: seq<Item>): seq<Json>
  {
    Dedup(KeysOf(items))
  }

  /** chunks_by_original[key]: the items with that original id, in input order. */
  function ItemsOf(items: seq<Item>, key: Json): (r: seq<Item>)
    ensures forall x :: x in r <==> x in items && KeyOf(x) == key
  {
    if items == [] then []
    else
      var last := items[|items| - 1];
      assert forall x :: x in items <==> x in items[..|items| - 1] || x == last;
      ItemsOf(items[..|items| - 1], key) + (if KeyOf(last) == key then [last] else [])
  }

  /** Every key of chunks_by_original has a non-empty group, and every item is in the group of its key. */
  lemma GroupsCover(items: seq<Item>)
    ensures Distinct(GroupKeys(items))
    ensures forall key :: key in GroupKeys(items) ==> ItemsOf(items, key) != []
    ensures forall i :: 0 <= i < |items| ==> KeyOf(items[i]) in GroupKeys(items) && items[i] in ItemsOf(items, KeyOf(items[i]))
  {
    forall key | key in GroupKeys(items) ensures ItemsOf(items, key) != [] {
      var i :| 0 <= i < |items| && KeysOf(items)[i] == key;
      assert items[i] in ItemsOf(items, key);
    }
    forall i | 0 <= i < |items| ensures KeyOf(items[i]) in GroupKeys(items) {
      assert KeysOf(items)[i] == KeyOf(items[i]);
    }
  }

  /** The where-filter value of an original id. */
  function IdValue(j: Json): Chroma.MVal
  {
    match j
    case Str(s) => Chroma.MStr(s)
    case Int(n) => Chroma.MInt(n)
    case _ => Chroma.MNull
  }

  /** where={"original_id": key} */
  function OriginalFilter(key: Json): Chroma.Meta
  {
    map["original_id" := IdValue(key)]
  }

  /** `existing["metadatas"][0].get("doc_hash") != new_doc_hash` */
  predicate HashDiffers(meta: Chroma.Meta, newHash: string)
  {
    !("doc_hash" in meta && meta["doc_hash"] == Chroma.MStr(newHash))
  }

  function IdsOf(group: seq<Item>): (r: seq<string>)
    ensures |r| == |group| && forall i :: 0 <= i < |group| ==> r[i] == group[i].chunk.id
  {
    seq(|group|, i requires 0 <= i < |group| => group[i].chunk.id)
  }

  function RecordsOf(group: seq<Item>): (r: seq<Chroma.Record>)
    ensures |r| == |group| && forall i :: 0 <= i < |group| ==> r[i] == Chroma.Record(group[i].emb, group[i].doc, group[i].meta)
  {
    seq(|group|, i requires 0 <= i < |group| => Chroma.Record(group[i].emb, group[i].doc, group[i].meta))
  }

  /** What one group does: the resulting collection, whether it counted as an update, and the ids deleted. */
  datatype Step = Step(store: Chroma.Store, changed: bool, deleted: nat)

  /** The body of `for original_id, chunk_group in chunks_by_original.items()`. */
  function GroupStep(s: Chroma.Store, key: Json, group: seq<Item>): (r: Step)
    requires s.Valid() && group != []
    ensures r.store.Valid()
  {
    var where := OriginalFilter(key);
    var existing := Chroma.Selected(s, where);
    var changed := existing != [] && HashDiffers(s.recs[existing[0]].meta, group[0].chunk.docHash);
    var s1 := if changed then Chroma.DeleteWhere(s, where) else s;
    Step(Chroma.PutAll(s1, IdsOf(group), RecordsOf(group)), changed, if changed then |existing| else 0)
  }

  /** The remaining groups, from key list `keys` on: the final collection and the two counters. */
  function UpsertFrom(s: Chroma.Store, items: seq<Item>, keys: seq<Json>): (r: (Chroma.Store, nat, nat))
    requires s.Valid()
    requires forall key :: key in keys ==> ItemsOf(items, key) != []
    ensures r.0.Valid()
    decreases |keys|
  {
    if keys == [] then (s, 0, 0)
    else
      var st := GroupStep(s, keys[0], ItemsOf(items, keys[0]));
      var rest := UpsertFrom(st.store, items, keys[1..]);
      (rest.0, rest.1 + (if st.changed then 1 else 0), rest.2 + st.deleted)
  }

  /**
   * incremental_upsert: the collection afterwards, and update_count and delete_count, the two
   * counters it logs (the function itself returns None).
   */
  function IncrementalUpsert(s: Chroma.Store, items: seq<Item>): (r: (Chroma.Store, nat, nat))
    requires s.Valid()
  {
    GroupsCover(items);
    UpsertFrom(s, items, GroupKeys(items))
  }

  /**
   * When the stored doc_hash of the group's original id equals the new one (or nothing is stored
   * for it), no record is deleted and nothing is counted. When it differs, every stored record of
   * that original id that the group does not re-upsert is gone, and the count is the number of
   * records that had that original id.
   */
  lemma GroupStepEffect(s: Chroma.Store, key: Json, group: seq<Item>)
    requires s.Valid() && group != []
    ensures var r := GroupStep(s, key, group);
      !r.changed ==> r.deleted == 0 && forall id :: id in s.recs ==> id in r.store.recs
    ensures var r := GroupStep(s, key, group);
      r.changed ==> (r.deleted == |Chroma.Selected(s, OriginalFilter(key))| &&
        forall id :: id in s.recs && Chroma.Matches(s.recs[id].meta, OriginalFilter(key)) && id !in IdsOf(group) ==>
          id !in r.store.recs)
    ensures forall id :: id in IdsOf(group) ==> id in GroupStep(s, key, group).store.recs
  {
    var where := OriginalFilter(key);
    var existing := Chroma.Selected(s, where);
    var changed := existing != [] && HashDiffers(s.recs[existing[0]].meta, group[0].chunk.docHash);
    var s1 := if changed then Chroma.DeleteWhere(s, where) else s;
    Chroma.PutAllEffect(s1, IdsOf(group), RecordsOf(group));
  }

  /** The metadata passed with each chunk names the chunk's own original id, which is a present key. */
  predicate MetaConsistent(items: seq<Item>)
  {
    forall i :: 0 <= i < |items| ==>
      !KeyOf(items[i]).Missing? && "original_id" in items[i].meta && items[i].meta["original_id"] == IdValue(KeyOf(items[i]))
  }

  lemma IdValueInjective(a: Json, b: Json)
    requires !a.Missing? && !b.Missing? && IdValue(a) == IdValue(b)
    ensures a == b
  {
  }

  /** The ids in `present` are stored, each under a record whose original_id is one of `vals`. */
  ghost predicate Tagged(s: Chroma.Store, present: set<string>, vals: set<Chroma.MVal>)
  {
    forall id :: id in present ==>
      id in s.recs && "original_id" in s.recs[id].meta && s.recs[id].meta["original_id"] in vals
  }

  /**
   * One group keeps every earlier-present id (its records name other original ids, so the delete
   * by this group's original id cannot reach them) and adds its own ids.
   */
  lemma GroupStepKeeps(s: Chroma.Store, key: Json, group: seq<Item>, present: set<string>, vals: set<Chroma.MVal>)
    requires s.Valid() && group != []
    requires forall x :: x in group ==> "original_id" in x.meta && x.meta["original_id"] == IdValue(key)
    requires IdValue(key) !in vals
    requires Tagged(s, present, vals)
    ensures Tagged(GroupStep(s, key, group).store, present + set x | x in group :: x.chunk.id, vals + {IdValue(key)})
  {
    var where := OriginalFilter(key);
    var existing := Chroma.Selected(s, where);
    var changed := existing != [] && HashDiffers(s.recs[existing[0]].meta, group[0].chunk.docHash);
    var s1 := if changed then Chroma.DeleteWhere(s, where) else s;
    if changed {
      DeleteSparesTagged(s, where, present, vals);
    }
    assert Tagged(s1, present, vals);
    GroupPutTagged(s1, key, group, present, vals);
    assert Chroma.PutAll(s1, IdsOf(group), RecordsOf(group)) == GroupStep(s, key, group).store;
  }

  /** The upsert of a group keeps the tagged ids and tags the group's own ids with its original id. */
  lemma GroupPutTagged(s1: Chroma.Store, key: Json, group: seq<Item>, present: set<string>, vals: set<Chroma.MVal>)
    requires s1.Valid() && Tagged(s1, present, vals)
    requires forall x :: x in group ==> "original_id" in x.meta && x.meta["original_id"] == IdValue(key)
    ensures Tagged(Chroma.PutAll(s1, IdsOf(group), RecordsOf(group)), present + set x | x in group :: x.chunk.id, vals + {IdValue(key)})
  {
    var ids := IdsOf(group);
    var recs := RecordsOf(group);
    var r := Chroma.PutAll(s1, ids, recs);
    Chroma.PutAllEffect(s1, ids, recs);
    GroupIds(group);
    forall id | id in present + set x | x in group :: x.chunk.id
      ensures id in r.recs && "original_id" in r.recs[id].meta && r.recs[id].meta["original_id"] in vals + {IdValue(key)}
    {
      if id in ids {
        var i :| 0 <= i < |ids| && ids[i] == id && r.recs[id] == recs[i];
        assert group[i] in group;
      }
    }
  }

  lemma GroupIds(group: seq<Item>)
    ensures forall id :: id in (set x | x in group :: x.chunk.id) ==> id in IdsOf(group)
  {
    forall id | id in (set x | x in group :: x.chunk.id) ensures id in IdsOf(group) {
      var x :| x in group && x.chunk.id == id;
      var i :| 0 <= i < |group| && group[i] == x;
      assert IdsOf(group)[i] == id;
    }
  }

  /** A delete by an original id outside `vals` spares every record tagged with one of `vals`. */
  lemma DeleteSparesTagged(s: Chroma.Store, where: Chroma.Meta, present: set<string>, vals: set<Chroma.MVal>)
    requires s.Valid() && Tagged(s, present, vals)
    requires "original_id" in where && where["original_id"] !in vals
    ensures Tagged(Chroma.DeleteWhere(s, where), present, vals)
  {
    forall id | id in present ensures id in Chroma.DeleteWhere(s, where).recs {
      assert !Chroma.Matches(s.recs[id].meta, where);
    }
  }

  /** The ids of the items whose original id is among `keys`. */
  function IdsWithKeys(items: seq<Item>, keys: seq<Json>): set<string>
  {
    set i | 0 <= i < |items| && KeyOf(items[i]) in keys :: items[i].chunk.id
  }

  lemma {:induction false} UpsertFromKeeps(s: Chroma.Store, items: seq<Item>, keys: seq<Json>,
                                           present: set<string>, vals: set<Chroma.MVal>)
    requires s.Valid() && MetaConsistent(items)
    requires forall key :: key in keys ==> ItemsOf(items, key) != []
    requires Distinct(keys) && forall key :: key in keys ==> !key.Missing? && IdValue(key) !in vals
    requires Tagged(s, present, vals)
    ensures forall id :: id in present + IdsWithKeys(items, keys) ==> id in UpsertFrom(s, items, keys).0.recs
    decreases |keys|
  {
    if keys != [] {
      var key := keys[0];
      var group := ItemsOf(items, key);
      forall x | x in group ensures "original_id" in x.meta && x.meta["original_id"] == IdValue(key) {
        var i :| 0 <= i < |items| && items[i] == x;
      }
      var gids := set x | x in group :: x.chunk.id;
      var vals' := vals + {IdValue(key)};
      GroupStepKeeps(s, key, group, present, vals);
      forall k | k in keys[1..] ensures !k.Missing? && IdValue(k) !in vals' {
        var m :| 1 <= m < |keys| && keys[m] == k;
        if IdValue(k) == IdValue(key) {
          IdValueInjective(k, key);
        }
      }
      assert Distinct(keys[1..]) by {
        assert forall a :: 0 <= a < |keys| - 1 ==> keys[1..][a] == keys[a + 1];
      }
      UpsertFromKeeps(GroupStep(s, key, group).store, items, keys[1..], present + gids, vals');
      forall id | id in IdsWithKeys(items, keys) ensures id in present + gids + IdsWithKeys(items, keys[1..]) {
        var i :| 0 <= i < |items| && KeyOf(items[i]) in keys && items[i].chunk.id == id;
        if KeyOf(items[i]) == key {
          assert items[i] in group;
        } else {
          assert KeyOf(items[i]) in keys[1..];
        }
      }
    }
  }

  /**
   * After incremental_upsert every chunk it was given is stored under its id, provided each
   * metadata names its chunk's own original id (as the callers build them).
   */
  lemma IncrementalUpsertStoresAll(s: Chroma.Store, items: seq<Item>)
    requires s.Valid() && MetaConsistent(items)
    ensures forall i :: 0 <= i < |items| ==> items[i].chunk.id in IncrementalUpsert(s, items).0.recs
  {
    GroupsCover(items);
    var keys := GroupKeys(items);
    forall key | key in keys ensures !key.Missing? {
      var i :| 0 <= i < |items| && KeysOf(items)[i] == key;
    }
    UpsertFromKeeps(s, items, keys, {}, {});
    forall i | 0 <= i < |items| ensures items[i].chunk.id in IdsWithKeys(items, keys) {
    }
  }

  /** The body of the group loop, on the collection object. */
  method UpsertGroup(c: Chroma.Collection, key: Json, group: seq<Item>) returns (changed: bool, deleted: nat)
    requires c.Contents().Valid() && group != []
    modifies c
    ensures Step(c.Contents(), changed, deleted) == GroupStep(old(c.Contents()), key, group)
  {
    changed, deleted := false, 0;
    var where := OriginalFilter(key);
    var existing := c.GetWhere(where);
    if existing != [] {
      var newDocHash := group[0].chunk.docHash;
      if HashDiffers(c.recs[existing[0]].meta, newDocHash) {
        c.DeleteMatching(where);
        deleted := |existing|;
        changed := true;
      }
    }
    c.Upsert(IdsOf(group), RecordsOf(group));
  }

  /** chunks_by_original after the first n items. */
  ghost predicate GroupedUpTo(items: seq<Item>, n: nat, keys: seq<Json>, groups: map<Json, seq<Item>>)
    requires n <= |items|
  {
    && keys == Dedup(KeysOf(items[..n]))
    && (forall k :: k in groups <==> k in keys)
    && GroupsAt(items, n, groups)
  }

  ghost predicate GroupsAt(items: seq<Item>, n: nat, groups: map<Json, seq<Item>>)
    requires n <= |items|
  {
    forall k :: k in groups ==> groups[k] == ItemsOf(items[..n], k)
  }

  /** The grouping loop: chunks_by_original, as its key order and its groups. */
  method GroupByOriginal(items: seq<Item>) returns (keys: seq<Json>, chunksByOriginal: map<Json, seq<Item>>)
    ensures keys == GroupKeys(items)
    ensures forall k :: k in chunksByOriginal <==> k in keys
    ensures forall k :: k in chunksByOriginal ==> chunksByOriginal[k] == ItemsOf(items, k)
  {
    keys := [];
    chunksByOriginal := map[];
    for i := 0 to |items|
      invariant GroupedUpTo(items, i, keys, chunksByOriginal)
    {
      keys, chunksByOriginal := GroupOne(items, i, keys, chunksByOriginal);
    }
    assert items[..|items|] == items;
  }

  /** One iteration of the grouping loop. */
  method GroupOne(items: seq<Item>, i: nat, keys: seq<Json>, chunksByOriginal: map<Json, seq<Item>>)
    returns (keys': seq<Json>, chunksByOriginal': map<Json, seq<Item>>)
    requires i < |items| && GroupedUpTo(items, i, keys, chunksByOriginal)
    ensures GroupedUpTo(items, i + 1, keys', chunksByOriginal')
  {
    var originalId := KeyOf(items[i]);
    var group: seq<Item>;
    if originalId !in chunksByOriginal {
      NoItemsOf(items[..i], originalId);
      group := [];
      keys' := keys + [originalId];
    } else {
      group := chunksByOriginal[originalId];
      keys' := keys;
    }
    chunksByOriginal' := chunksByOriginal[originalId := group + [items[i]]];
    assert group == if originalId in chunksByOriginal then chunksByOriginal[originalId] else ItemsOf(items[..i], originalId);
    GroupsStep(items, i, chunksByOriginal, chunksByOriginal');
    KeysStep(items, i);
    assert keys' == Dedup(KeysOf(items[..i + 1]));
    assert forall k :: k in chunksByOriginal' <==> k in keys';
  }

  lemma KeysStep(items: seq<Item>, i: nat)
    requires i < |items|
    ensures Dedup(KeysOf(items[..i + 1])) == (var ks := Dedup(KeysOf(items[..i]));
      if KeyOf(items[i]) in ks then ks else ks + [KeyOf(items[i])])
  {
    var ks := KeysOf(items[..i + 1]);
    assert ks[..|ks| - 1] == KeysOf(items[..i]);
  }

  lemma GroupsStep(items: seq<Item>, i: nat, groups: map<Json, seq<Item>>, groups': map<Json, seq<Item>>)
    requires i < |items| && GroupsAt(items, i, groups)
    requires var k := KeyOf(items[i]);
      groups' == groups[k := (if k in groups then groups[k] else ItemsOf(items[..i], k)) + [items[i]]]
    ensures GroupsAt(items, i + 1, groups')
  {
    var prefix := items[..i + 1];
    assert prefix[..|prefix| - 1] == items[..i];
  }

  /** incremental_upsert on a collection object; the out-parameters are the two counters it logs. */
  method IncrementalUpsertLoop(c: Chroma.Collection, chunks: seq<EChunk>, embeddings: seq<seq<real>>,
                               metadatas: seq<Chroma.Meta>, documents: seq<string>)
    returns (updateCount: nat, deleteCount: nat)
    requires c.Contents().Valid()
    modifies c
    ensures var r := IncrementalUpsert(old(c.Contents()), Zip(chunks, embeddings, metadatas, documents));
      c.Contents() == r.0 && updateCount == r.1 && deleteCount == r.2
  {
    var items := Zip(chunks, embeddings, metadatas, documents);
    var keys, chunksByOriginal := GroupByOriginal(items);
    GroupsCover(items);
    ghost var final := IncrementalUpsert(old(c.Contents()), items);
    updateCount, deleteCount := 0, 0;
    for j := 0 to |keys|
      invariant c.Contents().Valid()
      invariant var r := UpsertFrom(c.Contents(), items, keys[j..]);
        r.0 == final.0 && updateCount + r.1 == final.1 && deleteCount + r.2 == final.2
    {
      assert keys[j..][0] == keys[j] && keys[j..][1..] == keys[j + 1..];
      ghost var before := c.Contents();
      var changed, deleted := UpsertGroup(c, keys[j], chunksByOriginal[keys[j]]);
      var u := updateCount + (if changed then 1 else 0);
      UpsertFromStep(before, c.Contents(), items, keys[j..], changed, deleted, updateCount, deleteCount, u, deleteCount + deleted, final);
      updateCount, deleteCount := u, deleteCount + deleted;
    }
    assert keys[|keys|..] == [];
  }

  /** One group of the loop: the rest of the keys, from the new store, reaches the same result. */
  lemma UpsertFromStep(s: Chroma.Store, s2: Chroma.Store, items: seq<Item>, tail: seq<Json>, changed: bool, deleted: nat,
                       u: nat, d: nat, u2: nat, d2: nat, final: (Chroma.Store, nat, nat))
    requires s.Valid() && s2.Valid() && tail != []
    requires forall key :: key in tail ==> ItemsOf(items, key) != []
    requires Step(s2, changed, deleted) == GroupStep(s, tail[0], ItemsOf(items, tail[0]))
    requires u2 == u + (if changed then 1 else 0) && d2 == d + deleted
    requires var r := UpsertFrom(s, items, tail); r.0 == final.0 && u + r.1 == final.1 && d + r.2 == final.2
    ensures var r := UpsertFrom(s2, items, tail[1..]); r.0 == final.0 && u2 + r.1 == final.1 && d2 + r.2 == final.2
  {
    var st := GroupStep(s, tail[0], ItemsOf(items, tail[0]));
    assert st.store == s2 && st.changed == changed && st.deleted == deleted;
    var rest := UpsertFrom(s2, items, tail[1..]);
    var r := UpsertFrom(s, items, tail);
    assert r.0 == rest.0 && r.1 == rest.1 + (if changed then 1 else 0) && r.2 == rest.2 + deleted;
  }

  lemma NoItemsOf(items: seq<Item>, key: Json)
    requires key !in Dedup(KeysOf(items))
    ensures ItemsOf(items, key) == []
  {
    forall j | 0 <= j < |items| ensures KeyOf(items[j]) != key {
      assert KeysOf(items)[j] in KeysOf(items);
    }
    ItemsOfNone(items, key);
  }

  lemma {:induction false} ItemsOfNone(items: seq<Item>, key: Json)
    requires forall j :: 0 <= j < |items| ==> KeyOf(items[j]) != key
    ensures ItemsOf(items, key) == []
  {
    if items != [] {
      ItemsOfNone(items[..|items| - 1], key);
    }
  }
}
