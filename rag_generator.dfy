/**
 * src/modules/production_rag_generator.py: the style collection name, the knowledge upsert of
 * posts chunked by chunk_text, the merge of the category search with the spillover search (at
 * most two hits per post), and the assembly and truncation of the generation context.
 */
module RagGenerator {
  import opened Wrappers
  import opened Strings
  import opened Collections
  import opened Chroma
  import opened ChunkIds
  import opened PostJson
  import opened ChromaBatches
  import opened ChunkEntries

  // ---------------------------------------------------------------- get_style_collection

  const StylePrefix := "style_cat_"

  /** f"style_cat_{category_no}" */
  function StyleCollection(categoryNo: int): (name: string)
    ensures |name| > |StylePrefix| && name[..|StylePrefix|] == StylePrefix
  {
    ChunkIdsSign(categoryNo);
    StylePrefix + IntToString(categoryNo)
  }

  lemma ChunkIdsSign(n: int)
    ensures |IntToString(n)| > 0
  {
    SignChar(n);
  }

  /** Each category has its own style collection. */
  lemma StyleCollectionInjective(a: int, b: int)
    requires StyleCollection(a) == StyleCollection(b)
    ensures a == b
  {
    assert StyleCollection(a)[|StylePrefix|..] == IntToString(a);
    assert StyleCollection(b)[|StylePrefix|..] == IntToString(b);
    IntToStringInjective(a, b);
  }

  // ---------------------------------------------------------------- upsert_to_chroma

  /**
   * upsert_to_chroma with ChromaDB available: every post's chunk entries (a missing or non-integer
   * logno or category raises), then the batch loop with its single-entry retries.
   */
  method UpsertToChroma(col: Collection, docs: seq<JDoc>, runId: string, sourceFile: string,
                        embed: string -> seq<real>, batchOk: nat -> bool, itemOk: nat -> bool)
    returns (r: Result<nat, PrepError>)
    requires col.Contents().Valid()
    modifies col
    ensures PrepareSpec(Production, docs, runId, sourceFile).Err? ==>
      r == Err(PrepareSpec(Production, docs, runId, sourceFile).error) && col.Contents() == old(col.Contents())
    ensures PrepareSpec(Production, docs, runId, sourceFile).Ok? ==>
      var p := PrepareSpec(Production, docs, runId, sourceFile).value;
      && r.Ok? && r.value <= |p.ids|
      && col.Contents() == From(old(col.Contents()), p.ids, Records(p, embed), batchOk, itemOk, 0)
      && (Reliable(batchOk, itemOk, |p.ids|) ==>
            r.value == |p.ids| && col.Contents() == PutAll(old(col.Contents()), p.ids, Records(p, embed)))
  {
    r := PrepareAndUpsert(Production, col, docs, runId, sourceFile, embed, batchOk, itemOk);
  }

  /** A post without a "logno" key makes upsert_to_chroma raise KeyError before anything is stored. */
  lemma MissingLognoRaises(doc: JDoc, runId: string, sourceFile: string)
    requires Content(doc).Some? && "logno" !in doc
    ensures PrepareSpec(Production, [doc], runId, sourceFile) == Err(MissingLogno)
  {
    assert [doc][..0] == [];
  }

  // ---------------------------------------------------------------- _merge_results

  /** One search hit: document, metadata, distance. */
  datatype Hit = Hit(doc: string, meta: Meta, dist: real)

  /** result.get(key, [[]]): the key may be absent, or hold the one-list-per-query nesting. */
  datatype Part<T> = Absent | Lists(outer: seq<seq<T>>)

  /** result.get(key, [[]])[0]: an absent key gives [], a present but empty list raises IndexError. */
  function First<T>(p: Part<T>): (r: Option<seq<T>>)
    ensures p.Absent? ==> r == Some([])
    ensures p.Lists? ==> (r.None? <==> p.outer == [])
  {
    match p
    case Absent => Some([])
    case Lists(o) => if o == [] then None else Some(o[0])
  }

  /** A query result as a dict with documents, metadatas and (for the main search) distances. */
  datatype QueryParts = QueryParts(documents: Part<string>, metadatas: Part<Meta>, distances: Part<real>)

  datatype MergeError = IndexError

  /** The three filtered lists _merge_results returns. */
  datatype Merged = Merged(documents: seq<string>, metadatas: seq<Meta>, distances: seq<real>)

  /** zip(docs, metas, dists): as long as the shortest. */
  function Zip3(ds: seq<string>, ms: seq<Meta>, xs: seq<real>): (hs: seq<Hit>)
    ensures |hs| == if |ds| <= |ms| && |ds| <= |xs| then |ds| else if |ms| <= |xs| then |ms| else |xs|
    ensures forall k :: 0 <= k < |hs| ==> hs[k] == Hit(ds[k], ms[k], xs[k])
  {
    var n := if |ds| <= |ms| && |ds| <= |xs| then |ds| else if |ms| <= |xs| then |ms| else |xs|;
    seq(n, k requires 0 <= k < n => Hit(ds[k], ms[k], xs[k]))
  }

  function Unzip(hs: seq<Hit>): (m: Merged)
    ensures |m.documents| == |m.metadatas| == |m.distances| == |hs|
    ensures forall k :: 0 <= k < |hs| ==> hs[k] == Hit(m.documents[k], m.metadatas[k], m.distances[k])
  {
    Merged(seq(|hs|, k requires 0 <= k < |hs| => hs[k].doc), seq(|hs|, k requires 0 <= k < |hs| => hs[k].meta),
           seq(|hs|, k requires 0 <= k < |hs| => hs[k].dist))
  }

  /** meta.get("logno", 0) */
  function LognoKey(m: Meta): MVal
  {
    if "logno" in m then m["logno"] else MInt(0)
  }

  /** How many hits have logno l. */
  function CountKey(hs: seq<Hit>, l: MVal): (c: nat)
    ensures c <= |hs|
  {
    if hs == [] then 0 else CountKey(hs[..|hs| - 1], l) + (if LognoKey(hs[|hs| - 1].meta) == l then 1 else 0)
  }

  /** The hits kept: each one unless two hits of its logno were already kept. */
  function KeepCapped(hs: seq<Hit>): (r: seq<Hit>)
    ensures |r| <= |hs|
  {
    if hs == [] then []
    else
      var init := KeepCapped(hs[..|hs| - 1]);
      var last := hs[|hs| - 1];
      if CountKey(init, LognoKey(last.meta)) < 2 then init + [last] else init
  }

  function Repeat(x: real, n: nat): (r: seq<real>)
    ensures |r| == n && forall k :: 0 <= k < n ==> r[k] == x
  {
    seq(n, k => x)
  }

  /** _merge_results(main, spillover); every spillover hit gets distance 0.5. */
  function MergeSpec(main: QueryParts, spill: QueryParts): Result<Merged, MergeError>
  {
    match (First(main.documents), First(spill.documents), First(main.metadatas), First(spill.metadatas), First(main.distances))
    case (Some(md), Some(sd), Some(mm), Some(sm), Some(mx)) =>
      Ok(Unzip(KeepCapped(Zip3(md + sd, mm + sm, mx + Repeat(0.5, |sd|)))))
    case _ => Err(IndexError)
  }

  /** The loop of _merge_results with its seen_lognos counts. */
  method MergeResults(main: QueryParts, spill: QueryParts) returns (r: Result<Merged, MergeError>)
    ensures r == MergeSpec(main, spill)
  {
    var md := First(main.documents);
    var sd := First(spill.documents);
    var mm := First(main.metadatas);
    var sm := First(spill.metadatas);
    var mx := First(main.distances);
    if md.None? || sd.None? || mm.None? || sm.None? || mx.None? {
      return Err(IndexError);
    }
    var hits := Zip3(md.value + sd.value, mm.value + sm.value, mx.value + Repeat(0.5, |sd.value|));
    var kept := FilterHits(hits);
    r := Ok(Unzip(kept));
  }

  /** The counted filter over the zipped hits. */
  method FilterHits(hits: seq<Hit>) returns (kept: seq<Hit>)
    ensures kept == KeepCapped(hits)
  {
    var seen: map<MVal, nat> := map[];
    kept := [];
    for n := 0 to |hits|
      invariant FilterLoop(hits, n, kept, seen)
    {
      var logno := LognoKey(hits[n].meta);
      var count := if logno in seen then seen[logno] else 0;
      if count < 2 {
        FilterKeep(hits, n, kept, seen);
        kept := kept + [hits[n]];
        seen := seen[logno := count + 1];
      } else {
        FilterSkip(hits, n, kept, seen);
      }
    }
    assert hits[..|hits|] == hits;
  }

  /** The state of _merge_results' loop after n hits: the kept hits and the count of each logno among them. */
  ghost predicate FilterLoop(hits: seq<Hit>, n: nat, kept: seq<Hit>, seen: map<MVal, nat>)
  {
    && n <= |hits|
    && kept == KeepCapped(hits[..n])
    && (forall l :: l in seen ==> seen[l] == CountKey(kept, l))
    && (forall l :: l !in seen ==> CountKey(kept, l) == 0)
  }

  /** A hit whose logno was kept fewer than two times is kept and counted. */
  lemma FilterKeep(hits: seq<Hit>, n: nat, kept: seq<Hit>, seen: map<MVal, nat>)
    requires n < |hits| && FilterLoop(hits, n, kept, seen)
    requires var l := LognoKey(hits[n].meta); (if l in seen then seen[l] else 0) < 2
    ensures var l := LognoKey(hits[n].meta);
      FilterLoop(hits, n + 1, kept + [hits[n]], seen[l := (if l in seen then seen[l] else 0) + 1])
  {
    var l := LognoKey(hits[n].meta);
    var c := if l in seen then seen[l] else 0;
    var seen' := seen[l := c + 1];
    var kept' := kept + [hits[n]];
    assert c == CountKey(kept, l);
    KeepStep(hits, n);
    assert KeepCapped(hits[..n + 1]) == kept';
    CountSnoc(kept, hits[n]);
    forall l' | l' in seen' ensures seen'[l'] == CountKey(kept', l') {
    }
    forall l' | l' !in seen' ensures CountKey(kept', l') == 0 {
    }
  }

  /** A hit whose logno was already kept twice is dropped. */
  lemma FilterSkip(hits: seq<Hit>, n: nat, kept: seq<Hit>, seen: map<MVal, nat>)
    requires n < |hits| && FilterLoop(hits, n, kept, seen)
    requires var l := LognoKey(hits[n].meta); !((if l in seen then seen[l] else 0) < 2)
    ensures FilterLoop(hits, n + 1, kept, seen)
  {
    KeepStep(hits, n);
  }

  lemma KeepStep(hits: seq<Hit>, n: nat)
    requires n < |hits|
    ensures KeepCapped(hits[..n + 1]) == var init := KeepCapped(hits[..n]);
      if CountKey(init, LognoKey(hits[n].meta)) < 2 then init + [hits[n]] else init
  {
    assert hits[..n + 1][..n] == hits[..n];
  }

  lemma CountSnoc(hs: seq<Hit>, h: Hit)
    ensures forall l :: CountKey(hs + [h], l) == CountKey(hs, l) + (if LognoKey(h.meta) == l then 1 else 0)
  {
    assert (hs + [h])[..|hs|] == hs;
  }

  lemma CountSnocAt(hs: seq<Hit>, h: Hit, l: MVal)
    ensures CountKey(hs + [h], l) == CountKey(hs, l) + (if LognoKey(h.meta) == l then 1 else 0)
  {
    assert (hs + [h])[..|hs|] == hs;
  }

  /** No logno keeps more than two hits, and a logno with more hits keeps exactly two. */
  lemma {:induction false} KeepCappedCount(hs: seq<Hit>, l: MVal)
    ensures CountKey(KeepCapped(hs), l) == if CountKey(hs, l) <= 2 then CountKey(hs, l) else 2
    decreases |hs|
  {
    if hs != [] {
      var front := hs[..|hs| - 1];
      var last := hs[|hs| - 1];
      var init := KeepCapped(front);
      KeepCappedCount(front, l);
      assert CountKey(hs, l) == CountKey(front, l) + (if LognoKey(last.meta) == l then 1 else 0);
      if CountKey(init, LognoKey(last.meta)) < 2 {
        assert KeepCapped(hs) == init + [last];
        CountSnocAt(init, last, l);
      } else {
        assert KeepCapped(hs) == init;
        if LognoKey(last.meta) == l {
          assert CountKey(front, l) >= 2;
        }
      }
    }
  }

  /** a appears in b in the same order, possibly with other elements in between. */
  predicate Subsequence(a: seq<Hit>, b: seq<Hit>)
    decreases |b|
  {
    if a == [] then true
    else if b == [] then false
    else (a[|a| - 1] == b[|b| - 1] && Subsequence(a[..|a| - 1], b[..|b| - 1])) || Subsequence(a, b[..|b| - 1])
  }

  /** The merge keeps the order of the hits. */
  lemma {:induction false} KeepCappedOrder(hs: seq<Hit>)
    ensures Subsequence(KeepCapped(hs), hs)
    decreases |hs|
  {
    if hs != [] {
      KeepCappedOrder(hs[..|hs| - 1]);
      var init := KeepCapped(hs[..|hs| - 1]);
      var last := hs[|hs| - 1];
      if CountKey(init, LognoKey(last.meta)) < 2 {
        assert (init + [last])[..|init + [last]| - 1] == init;
      }
    }
  }

  /**
   * With well-formed results (each result's lists as long as each other), the merged hits are the
   * main hits followed by the spillover hits, each spillover hit at distance 0.5.
   */
  lemma MergedHits(md: seq<string>, mm: seq<Meta>, mx: seq<real>, sd: seq<string>, sm: seq<Meta>)
    requires |md| == |mm| == |mx| && |sd| == |sm|
    ensures Zip3(md + sd, mm + sm, mx + Repeat(0.5, |sd|)) == Zip3(md, mm, mx) + Zip3(sd, sm, Repeat(0.5, |sd|))
    ensures forall k :: 0 <= k < |sd| ==> Zip3(sd, sm, Repeat(0.5, |sd|))[k] == Hit(sd[k], sm[k], 0.5)
  {
    var a := Zip3(md + sd, mm + sm, mx + Repeat(0.5, |sd|));
    var b := Zip3(md, mm, mx) + Zip3(sd, sm, Repeat(0.5, |sd|));
    assert |a| == |b|;
    forall k | 0 <= k < |a| ensures a[k] == b[k] {
      if k >= |md| {
        assert (md + sd)[k] == sd[k - |md|] && (mm + sm)[k] == sm[k - |md|];
      }
    }
  }

  /** The default at production_rag_generator.py:231 as written: empty lists, so [0] raises. */
  const NoSpilloverAsWritten := QueryParts(Lists([]), Lists([]), Absent)

  /** Corrected default for a search without spillover: one empty list per key, so [0] finds it. */
  const NoSpillover := QueryParts(Lists([[]]), Lists([[]]), Absent)

  /**
   * retrieve_with_spillover after a successful main search, as written: the spillover search result
   * when it was needed, configured and did not raise (searched), else the default.
   */
  function RetrieveAsWritten(main: QueryParts, needSpillover: bool, categories: seq<int>, searched: Option<QueryParts>)
    : Result<Merged, MergeError>
  {
    MergeSpec(main, if needSpillover && categories != [] && searched.Some? then searched.value else NoSpilloverAsWritten)
  }

  /** As written, every retrieval that does not use a spillover search raises IndexError in the merge. */
  lemma RetrieveAsWrittenRaises(main: QueryParts, needSpillover: bool, categories: seq<int>, searched: Option<QueryParts>)
    requires !(needSpillover && categories != [] && searched.Some?)
    ensures RetrieveAsWritten(main, needSpillover, categories, searched) == Err(IndexError)
  {
  }

  /** retrieve_with_spillover with the corrected default. */
  function Retrieve(main: QueryParts, needSpillover: bool, categories: seq<int>, searched: Option<QueryParts>)
    : Result<Merged, MergeError>
  {
    MergeSpec(main, if needSpillover && categories != [] && searched.Some? then searched.value else NoSpillover)
  }

  /** With the corrected default, a retrieval without spillover is the main hits, at most two per post. */
  lemma RetrieveWithoutSpillover(md: seq<string>, mm: seq<Meta>, mx: seq<real>,
                                 needSpillover: bool, categories: seq<int>, searched: Option<QueryParts>)
    requires !(needSpillover && categories != [] && searched.Some?)
    ensures Retrieve(QueryParts(Lists([md]), Lists([mm]), Lists([mx])), needSpillover, categories, searched)
      == Ok(Unzip(KeepCapped(Zip3(md, mm, mx))))
  {
    assert md + [] == md && mm + [] == mm && mx + Repeat(0.5, 0) == mx;
  }

  /** A retrieval with spillover: the main hits, then the spillover hits at distance 0.5, at most two per post. */
  lemma RetrieveWithSpillover(md: seq<string>, mm: seq<Meta>, mx: seq<real>, sd: seq<string>, sm: seq<Meta>,
                              categories: seq<int>)
    requires |md| == |mm| == |mx| && |sd| == |sm| && categories != []
    ensures Retrieve(QueryParts(Lists([md]), Lists([mm]), Lists([mx])), true, categories,
                     Some(QueryParts(Lists([sd]), Lists([sm]), Absent)))
      == Ok(Unzip(KeepCapped(Zip3(md, mm, mx) + Zip3(sd, sm, Repeat(0.5, |sd|)))))
  {
    MergedHits(md, mm, mx, sd, sm);
  }

  // ---------------------------------------------------------------- build_context

  /** str(meta.get(key, 'N/A')), with str() of a metadata value as a parameter. */
  function ShowOr(m: Meta, key: string, show: MVal -> string): string
  {
    if key in m then show(m[key]) else "N/A"
  }

  /** The context block of one knowledge hit. */
  function KnowledgePart(doc: string, m: Meta, show: MVal -> string): string
  {
    "\n제목: " + ShowOr(m, "title", show) + "\nURL: " + ShowOr(m, "url", show) + "\n작성일: " + ShowOr(m, "posted_at", show)
      + "\n내용: " + Slice(doc, 0, 800) + "...\n---\n"
  }

  function StylePart(style: string): string
  {
    "\n스타일 참고:\n" + style + "\n---\n"
  }

  /** The parts: one per (document, metadata) pair of the merged result, then the style block if any. */
  function PartsSpec(docs: seq<string>, metas: seq<Meta>, style: string, show: MVal -> string): seq<string>
  {
    var n := if |docs| <= |metas| then |docs| else |metas|;
    seq(n, k requires 0 <= k < n => KnowledgePart(docs[k], metas[k], show)) + (if style != "" then [StylePart(style)] else [])
  }

  /** The length limit: more than 2 * max_tokens characters are cut to that many and "..." appended. */
  function Truncate(full: string, maxTokens: int): (r: string)
    ensures |full| <= maxTokens * 2 ==> r == full
    ensures maxTokens >= 0 && |full| > maxTokens * 2 ==> r == full[..maxTokens * 2] + "..."
    ensures maxTokens >= 0 ==> |r| <= maxTokens * 2 + 3
  {
    if |full| > maxTokens * 2 then Slice(full, 0, maxTokens * 2) + "..." else full
  }

  /** build_context after the two searches: the parts joined by newlines, then the length limit. */
  method BuildContext(docs: seq<string>, metas: seq<Meta>, style: string, maxTokens: int, show: MVal -> string)
    returns (context: string)
    ensures context == Truncate(Join(PartsSpec(docs, metas, style, show), "\n"), maxTokens)
    ensures maxTokens >= 0 ==> |context| <= maxTokens * 2 + 3
  {
    var parts: seq<string> := [];
    var n := if |docs| <= |metas| then |docs| else |metas|;
    for i := 0 to n
      invariant |parts| == i && forall k :: 0 <= k < i ==> parts[k] == KnowledgePart(docs[k], metas[k], show)
    {
      parts := parts + [KnowledgePart(docs[i], metas[i], show)];
    }
    if style != "" {
      parts := parts + [StylePart(style)];
    }
    assert parts == PartsSpec(docs, metas, style, show);
    var full := Join(parts, "\n");
    context := Truncate(full, maxTokens);
  }

  /** A context within the limit is returned whole; a longer one keeps its first 2 * max_tokens characters. */
  lemma TruncatePrefix(full: string, maxTokens: int)
    requires maxTokens >= 0
    ensures var r := Truncate(full, maxTokens);
      (|full| <= maxTokens * 2 ==> r == full)
      && (|full| > maxTokens * 2 ==> |r| == maxTokens * 2 + 3 && r[..maxTokens * 2] == full[..maxTokens * 2] && r[maxTokens * 2..] == "...")
  {
  }
}
