/**
 * hybrid_search of the enhanced ingestion script: vector results are paired with BM25 scores by
 * position, scored `score + 0.3 * bm25`, sorted by that score from high to low (stably, as
 * Python's list.sort is) and cut to the first top_k. The BM25 index is outside the model: its
 * scores for the query arrive as a parameter.
 */
module EmbedEnhanced {
  import opened Wrappers
  import opened Strings

  /** One vector search hit; `score` is None when the hit has no 'score' key. */
  datatype VResult = VResult(id: string, document: string, score: Option<real>)

  /** A hit with the two keys hybrid_search adds to it. */
  datatype Scored = Scored(hit: VResult, bm25: real, combined: real)

  const Bm25Weight: real := 0.3

  /** result.get('score', 0) */
  function ScoreOf(v: VResult): real
  {
    v.score.GetOr(0.0)
  }

  function Rescore(v: VResult, bm25: real): (r: Scored)
    ensures r.hit == v && r.bm25 == bm25
    ensures r.combined - r.bm25 * Bm25Weight == ScoreOf(v)
  {
    Scored(v, bm25, ScoreOf(v) + bm25 * Bm25Weight)
  }

  /** The enumerate loop: only results whose position has a BM25 score take part. */
  function Combine(results: seq<VResult>, bm25: seq<real>): (r: seq<Scored>)
    ensures |r| == if |results| < |bm25| then |results| else |bm25|
    ensures forall i :: 0 <= i < |r| ==> r[i] == Rescore(results[i], bm25[i])
  {
    var n := if |results| < |bm25| then |results| else |bm25|;
    seq(n, i requires 0 <= i < n => Rescore(results[i], bm25[i]))
  }

  predicate SortedDesc(s: seq<Scored>)
  {
    forall i, j :: 0 <= i < j < |s| ==> s[i].combined >= s[j].combined
  }

  /** Place x after every element that scores at least as much as it does. */
  function InsertDesc(x: Scored, r: seq<Scored>): (q: seq<Scored>)
    requires SortedDesc(r)
    ensures SortedDesc(q)
    ensures multiset(q) == multiset(r) + multiset{x}
    ensures |q| == |r| + 1
  {
    if r == [] then [x]
    else
      var init, last := r[..|r| - 1], r[|r| - 1];
      assert r == init + [last];
      if last.combined >= x.combined then r + [x]
      else
        var q' := InsertDesc(x, init);
        assert forall j :: 0 <= j < |init| ==> init[j] == r[j];
        AllAtLeast(x, init, q', last.combined);
        q' + [last]
  }

  /** Every element of the insertion result scores at least v when x and r all do. */
  lemma AllAtLeast(x: Scored, r: seq<Scored>, q: seq<Scored>, v: real)
    requires multiset(q) == multiset(r) + multiset{x}
    requires x.combined >= v && forall j :: 0 <= j < |r| ==> r[j].combined >= v
    ensures forall i :: 0 <= i < |q| ==> q[i].combined >= v
  {
    forall i | 0 <= i < |q| ensures q[i].combined >= v {
      assert q[i] in multiset(q);
      if q[i] != x {
        assert q[i] in multiset(r);
        assert q[i] in r;
      }
    }
  }

  /** sort(key=combined_score, reverse=True). */
  function SortDesc(s: seq<Scored>): (r: seq<Scored>)
    ensures SortedDesc(r)
    ensures multiset(r) == multiset(s)
    ensures |r| == |s|
  {
    if s == [] then []
    else
      assert s == s[..|s| - 1] + [s[|s| - 1]];
      InsertDesc(s[|s| - 1], SortDesc(s[..|s| - 1]))
  }

  /** The elements scoring exactly v, in order. */
  function WithScore(s: seq<Scored>, v: real): (r: seq<Scored>)
  {
    if s == [] then []
    else WithScore(s[..|s| - 1], v) + (if s[|s| - 1].combined == v then [s[|s| - 1]] else [])
  }

  lemma {:induction false} InsertDescStable(x: Scored, r: seq<Scored>, v: real)
    requires SortedDesc(r)
    ensures WithScore(InsertDesc(x, r), v) == WithScore(r, v) + (if x.combined == v then [x] else [])
    decreases |r|
  {
    if r != [] {
      var init, last := r[..|r| - 1], r[|r| - 1];
      if last.combined >= x.combined {
        assert (r + [x])[..|r|] == r;
      } else {
        var q' := InsertDesc(x, init);
        InsertDescStable(x, init, v);
        assert (q' + [last])[..|q'|] == q';
      }
    }
  }

  /** The sort is stable: among equal scores the input order survives. */
  lemma {:induction false} SortDescStable(s: seq<Scored>, v: real)
    ensures WithScore(SortDesc(s), v) == WithScore(s, v)
    decreases |s|
  {
    if s != [] {
      SortDescStable(s[..|s| - 1], v);
      InsertDescStable(s[|s| - 1], SortDesc(s[..|s| - 1]), v);
    }
  }

  /** hybrid_search given the BM25 scores of the query. */
  function HybridSearch(results: seq<VResult>, bm25: seq<real>, topK: int): (r: seq<Scored>)
    ensures topK >= 0 ==> |r| <= topK
    ensures |r| <= |results| && |r| <= |bm25|
    ensures SortedDesc(r)
  {
    var ranked := SortDesc(Combine(results, bm25));
    var r := Slice(ranked, 0, topK);
    assert r == ranked[..|r|];
    r
  }

  /**
   * What hybrid_search returns is a best-first prefix of the rescored results: every returned hit
   * came from a position that has a BM25 score, and no dropped hit outscores a returned one.
   */
  lemma HybridSearchTopK(results: seq<VResult>, bm25: seq<real>, topK: int)
    ensures var ranked := SortDesc(Combine(results, bm25));
      && HybridSearch(results, bm25, topK) == ranked[..|HybridSearch(results, bm25, topK)|]
      && (forall x, y :: x in HybridSearch(results, bm25, topK) && y in ranked[|HybridSearch(results, bm25, topK)|..] ==> x.combined >= y.combined)
    ensures forall x :: x in HybridSearch(results, bm25, topK) ==>
      exists i :: 0 <= i < |results| && i < |bm25| && x == Rescore(results[i], bm25[i])
    ensures topK >= 0 ==> |HybridSearch(results, bm25, topK)| == if topK < |Combine(results, bm25)| then topK else |Combine(results, bm25)|
  {
    var ranked := SortDesc(Combine(results, bm25));
    var r := HybridSearch(results, bm25, topK);
    assert r == ranked[..|r|];
    PrefixDominates(ranked, |r|);
    RankedFrom(results, bm25, r);
  }

  /** In a best-first list, no element after position n outscores one before it. */
  lemma PrefixDominates(ranked: seq<Scored>, n: int)
    requires SortedDesc(ranked) && 0 <= n <= |ranked|
    ensures forall x, y :: x in ranked[..n] && y in ranked[n..] ==> x.combined >= y.combined
  {
    forall x, y | x in ranked[..n] && y in ranked[n..] ensures x.combined >= y.combined {
      var i :| 0 <= i < n && ranked[..n][i] == x;
      var j :| 0 <= j < |ranked| - n && ranked[n..][j] == y;
      assert ranked[i] == x && ranked[n + j] == y;
    }
  }

  /** Every hit of a prefix of the ranking is a rescored vector result. */
  lemma RankedFrom(results: seq<VResult>, bm25: seq<real>, r: seq<Scored>)
    requires |r| <= |SortDesc(Combine(results, bm25))| && r == SortDesc(Combine(results, bm25))[..|r|]
    ensures forall x :: x in r ==> exists i :: 0 <= i < |results| && i < |bm25| && x == Rescore(results[i], bm25[i])
  {
    var combined := Combine(results, bm25);
    var ranked := SortDesc(combined);
    forall x | x in r ensures exists i :: 0 <= i < |results| && i < |bm25| && x == Rescore(results[i], bm25[i]) {
      assert x in ranked;
      assert x in multiset(ranked);
      assert x in combined;
      var i :| 0 <= i < |combined| && combined[i] == x;
    }
  }
}
