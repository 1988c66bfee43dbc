/**
 * The semantic chunker of the preprocessing stage: a token estimate, paragraph splitting,
 * greedy packing of paragraphs under a token budget, chunk metadata, the word overlap added
 * between neighbouring chunks, and chunk statistics.
 *
 * HTML normalisation, the two regular-expression splits and the law-keyword extractor are
 * parameters of the operations that use them.
 */
module SemanticChunking {
  import opened Wrappers
  import opened Strings

  const ParagraphSep := "\n\n"
  const LawTopic := "채권추심"

  /**
   * A character of the class [^\w\s가-힣]: neither whitespace, nor a word character, nor a
   * Hangul syllable. Symbols above ASCII such as "…" and "·" belong to it.
   */
  predicate IsSpecialChar(c: char)
  {
    !IsSpace(c) && !IsWordChar(c) && !('가' <= c <= '힣')
  }

  /** The number of special characters of t. */
  function SpecialCount(t: string): (n: nat)
    ensures n <= |t|
  {
    if t == [] then 0 else (if IsSpecialChar(t[0]) then 1 else 0) + SpecialCount(t[1..])
  }

  /** None are counted exactly when t has no special character, all exactly when it has only special ones. */
  lemma {:induction false} SpecialCountExtremes(t: string)
    ensures SpecialCount(t) == 0 <==> forall i :: 0 <= i < |t| ==> !IsSpecialChar(t[i])
    ensures SpecialCount(t) == |t| <==> forall i :: 0 <= i < |t| ==> IsSpecialChar(t[i])
    decreases |t|
  {
    if t != [] {
      SpecialCountExtremes(t[1..]);
      assert forall i :: 1 <= i < |t| ==> t[i] == t[1..][i - 1];
    }
  }

  lemma {:induction false} SpecialCountConcat(a: string, b: string)
    ensures SpecialCount(a + b) == SpecialCount(a) + SpecialCount(b)
    decreases |a|
  {
    if a != [] {
      assert (a + b)[0] == a[0];
      assert (a + b)[1..] == a[1..] + b;
      SpecialCountConcat(a[1..], b);
    } else {
      assert a + b == b;
    }
  }

  /**
   * The token estimate: characters plus half a token per special character, over 2.5
   * characters per token, truncated; that is (2 * length + specials) div 5.
   */
  function EstimateTokens(t: string): (r: nat)
    ensures t == [] ==> r == 0
    ensures 2 * |t| / 5 <= r <= 3 * |t| / 5
  {
    (2 * |t| + SpecialCount(t)) / 5
  }

  /** A text without special characters gets 0.4 tokens per character, one made only of them 0.6. */
  lemma EstimateExtremes(t: string)
    ensures (forall i :: 0 <= i < |t| ==> !IsSpecialChar(t[i])) ==> EstimateTokens(t) == 2 * |t| / 5
    ensures (forall i :: 0 <= i < |t| ==> IsSpecialChar(t[i])) ==> EstimateTokens(t) == 3 * |t| / 5
  {
    SpecialCountExtremes(t);
  }

  /** Non-ASCII symbols count: "…" and "·" are special, Hangul, letters and spaces are not. */
  lemma NonAsciiSymbolsCount()
    ensures IsSpecialChar('…') && IsSpecialChar('·') && IsSpecialChar('.')
    ensures !IsSpecialChar('가') && !IsSpecialChar('a') && !IsSpecialChar(' ')
    ensures SpecialCount("가…·") == 2 && EstimateTokens("………………") == 3
  {
    assert "가…·"[1..] == "…·";
    assert "가…·"[1..][1..] == "·";
  }

  /** Appending text never lowers the estimate. */
  lemma {:induction false} EstimateMonotone(a: string, b: string)
    ensures EstimateTokens(a) <= EstimateTokens(a + b)
  {
    SpecialCountConcat(a, b);
  }

  /** `[s.strip() for s in pieces if s.strip()]` */
  function CleanPieces(pieces: seq<string>): (r: seq<string>)
    ensures |r| <= |pieces|
    ensures forall k :: 0 <= k < |r| ==> r[k] != []
    decreases |pieces|
  {
    if pieces == [] then []
    else
      var p := Strip(pieces[0]);
      if p == [] then CleanPieces(pieces[1..]) else [p] + CleanPieces(pieces[1..])
  }

  /** The pieces kept are already stripped. */
  lemma {:induction false} CleanPiecesStripped(pieces: seq<string>)
    ensures forall k :: 0 <= k < |CleanPieces(pieces)| ==> Strip(CleanPieces(pieces)[k]) == CleanPieces(pieces)[k]
    decreases |pieces|
  {
    if pieces != [] {
      CleanPiecesStripped(pieces[1..]);
      StripIdempotent(pieces[0]);
    }
  }

  /** Piece j of pieces, stripped, is x. */
  predicate StrippedAt(pieces: seq<string>, j: int, x: string)
  {
    0 <= j < |pieces| && x == Strip(pieces[j])
  }

  /** Every piece kept is some piece, stripped. */
  lemma {:induction false} CleanPiecesSound(pieces: seq<string>, x: string)
    requires x in CleanPieces(pieces)
    ensures exists j :: StrippedAt(pieces, j, x)
    decreases |pieces|
  {
    if x != Strip(pieces[0]) {
      assert x in CleanPieces(pieces[1..]);
      CleanPiecesSound(pieces[1..], x);
      var j :| StrippedAt(pieces[1..], j, x);
      assert StrippedAt(pieces, j + 1, x);
    } else {
      assert StrippedAt(pieces, 0, x);
    }
  }

  /** Every piece that is not blank is kept, stripped. */
  lemma {:induction false} CleanPiecesComplete(pieces: seq<string>, j: nat)
    requires j < |pieces| && !IsBlank(pieces[j])
    ensures Strip(pieces[j]) in CleanPieces(pieces)
    decreases |pieces|
  {
    if j > 0 {
      assert pieces[j] == pieces[1..][j - 1];
      CleanPiecesComplete(pieces[1..], j - 1);
    } else {
      assert Strip(pieces[0]) != [] by {
        StripShape(pieces[0]);
      }
    }
  }

  /**
   * What one block between blank lines contributes: nothing when blank, its sentences when
   * its estimate exceeds 0.8 of the budget, else the block stripped.
   */
  function RefineBlock(block: string, sentences: string -> seq<string>, maxTokens: int): (r: seq<string>)
    ensures forall k :: 0 <= k < |r| ==> r[k] != [] && Strip(r[k]) == r[k]
  {
    var p := Strip(block);
    StripIdempotent(block);
    if p == [] then []
    else if 5 * EstimateTokens(p) > 4 * maxTokens then CleanPiecesStripped(sentences(p)); CleanPieces(sentences(p))
    else [p]
  }

  /** The paragraphs of the blocks, in order. */
  function Paragraphs(blocks: seq<string>, sentences: string -> seq<string>, maxTokens: int): (r: seq<string>)
    ensures forall k :: 0 <= k < |r| ==> r[k] != [] && Strip(r[k]) == r[k]
    decreases |blocks|
  {
    if blocks == [] then []
    else Paragraphs(blocks[..|blocks| - 1], sentences, maxTokens) + RefineBlock(blocks[|blocks| - 1], sentences, maxTokens)
  }

  /** Splits the paragraph blocks of the normalised text, refining over-long ones into sentences. */
  method SplitParagraphs(text: string, splitBlocks: string -> seq<string>, sentences: string -> seq<string>, maxTokens: int)
    returns (r: seq<string>)
    ensures r == Paragraphs(splitBlocks(text), sentences, maxTokens)
  {
    var blocks := splitBlocks(text);
    r := [];
    for i := 0 to |blocks|
      invariant r == Paragraphs(blocks[..i], sentences, maxTokens)
    {
      assert blocks[..i + 1][..i] == blocks[..i];
      var para := Strip(blocks[i]);
      if para == [] {
        continue;
      }
      if 5 * EstimateTokens(para) > 4 * maxTokens {
        var pieces := CleanPieces(sentences(para));
        r := r + pieces;
      } else {
        r := r + [para];
      }
    }
    assert blocks[..|blocks|] == blocks;
  }

  /** When no block is over 0.8 of the budget the sentence splitter is never used. */
  lemma {:induction false} ParagraphsShort(blocks: seq<string>, sentences: string -> seq<string>, maxTokens: int)
    requires forall j :: 0 <= j < |blocks| ==> 5 * EstimateTokens(Strip(blocks[j])) <= 4 * maxTokens
    ensures Paragraphs(blocks, sentences, maxTokens) == CleanPiecesRev(blocks)
    decreases |blocks|
  {
    if blocks != [] {
      ParagraphsShort(blocks[..|blocks| - 1], sentences, maxTokens);
    }
  }

  /** CleanPieces built from the end, the order in which the paragraph loop extends its list. */
  function CleanPiecesRev(pieces: seq<string>): seq<string>
    decreases |pieces|
  {
    if pieces == [] then []
    else
      var p := Strip(pieces[|pieces| - 1]);
      CleanPiecesRev(pieces[..|pieces| - 1]) + (if p == [] then [] else [p])
  }

  /** Building from the end and from the front gives the same list. */
  lemma {:induction false} CleanPiecesRevSame(pieces: seq<string>)
    ensures CleanPiecesRev(pieces) == CleanPieces(pieces)
    decreases |pieces|
  {
    if pieces != [] {
      var n := |pieces|;
      CleanPiecesRevSame(pieces[..n - 1]);
      if n > 1 {
        CleanPiecesSnoc(pieces[..n - 1], pieces[n - 1]);
        assert pieces[..n - 1] + [pieces[n - 1]] == pieces;
      } else {
        assert pieces[1..] == [];
      }
    }
  }

  lemma {:induction false} CleanPiecesSnoc(pieces: seq<string>, x: string)
    ensures CleanPieces(pieces + [x]) == CleanPieces(pieces) + (if Strip(x) == [] then [] else [Strip(x)])
    decreases |pieces|
  {
    if pieces == [] {
      assert ([] + [x])[1..] == [];
    } else {
      assert (pieces + [x])[1..] == pieces[1..] + [x];
      CleanPiecesSnoc(pieces[1..], x);
    }
  }

  /** A chunk as created: its text, metadata, identifier and character span, and the overlap span. */
  datatype Chunk = Chunk(text: string, metadata: map<string, string>, chunkId: string,
                         startPos: int, endPos: int, overlapStart: Option<int>, overlapEnd: Option<int>)

  /** A packed group of paragraphs and the start position the chunker records for it. */
  datatype Group = Group(paras: seq<string>, start: int)

  /**
   * Greedy packing of the remaining (stripped, non-blank) paragraphs ps, with cur the
   * paragraphs of the chunk being built and start its recorded position; n is the length of
   * the normalised text.
   */
  function PackFrom(ps: seq<string>, cur: seq<string>, start: int, n: int, maxTokens: int): seq<Group>
    decreases |ps|
  {
    if ps == [] then (if cur == [] then [] else [Group(cur, start)])
    else
      var p := ps[0];
      if EstimateTokens(Join(cur + [p], ParagraphSep)) <= maxTokens then PackFrom(ps[1..], cur + [p], start, n, maxTokens)
      else (if cur == [] then [] else [Group(cur, start)]) + PackFrom(ps[1..], [p], n - |p|, n, maxTokens)
  }

  /** The packing loop of chunk_text, which strips each paragraph again and skips blank ones. */
  function Pack(ps: seq<string>, n: int, maxTokens: int): seq<Group>
  {
    PackFrom(CleanPieces(ps), [], 0, n, maxTokens)
  }

  /** The paragraphs of the groups, in order. */
  function Flatten(gs: seq<Group>): seq<string>
    decreases |gs|
  {
    if gs == [] then [] else gs[0].paras + Flatten(gs[1..])
  }

  /** A chunk under construction ends up as the head of the first group. */
  lemma {:induction false} PackHead(ps: seq<string>, cur: seq<string>, start: int, n: int, maxTokens: int)
    requires cur != []
    ensures var gs := PackFrom(ps, cur, start, n, maxTokens);
      gs != [] && gs[0].start == start && |cur| <= |gs[0].paras| && gs[0].paras[..|cur|] == cur
    decreases |ps|
  {
    if ps != [] {
      var p := ps[0];
      if EstimateTokens(Join(cur + [p], ParagraphSep)) <= maxTokens {
        PackHead(ps[1..], cur + [p], start, n, maxTokens);
        var g := PackFrom(ps[1..], cur + [p], start, n, maxTokens)[0];
        assert g.paras[..|cur|] == g.paras[..|cur| + 1][..|cur|];
      }
    }
  }

  /** Every non-blank paragraph lands in exactly one group, in order. */
  lemma {:induction false} PackCovers(ps: seq<string>, cur: seq<string>, start: int, n: int, maxTokens: int)
    ensures Flatten(PackFrom(ps, cur, start, n, maxTokens)) == cur + ps
    decreases |ps|
  {
    if ps == [] {
      if cur != [] {
        assert Flatten([Group(cur, start)]) == cur + Flatten([]);
      }
    } else {
      var p := ps[0];
      assert ps == [p] + ps[1..];
      if EstimateTokens(Join(cur + [p], ParagraphSep)) <= maxTokens {
        PackCovers(ps[1..], cur + [p], start, n, maxTokens);
      } else {
        PackCovers(ps[1..], [p], n - |p|, n, maxTokens);
        var rest := PackFrom(ps[1..], [p], n - |p|, n, maxTokens);
        if cur != [] {
          var g := [Group(cur, start)];
          assert (g + rest)[0] == Group(cur, start);
          assert (g + rest)[1..] == rest;
          assert Flatten(g + rest) == cur + Flatten(rest);
        } else {
          assert [] + rest == rest;
        }
      }
    }
  }

  /** Every group is non-empty, and within budget unless it is a single paragraph. */
  predicate WithinBudget(gs: seq<Group>, maxTokens: int)
  {
    forall k :: 0 <= k < |gs| ==>
      gs[k].paras != [] && (|gs[k].paras| == 1 || EstimateTokens(Join(gs[k].paras, ParagraphSep)) <= maxTokens)
  }

  /** The first paragraph of each group would have pushed the previous group over budget. */
  predicate Maximal(gs: seq<Group>, maxTokens: int)
  {
    forall k :: 0 < k < |gs| ==>
      gs[k].paras != [] && EstimateTokens(Join(gs[k - 1].paras + [gs[k].paras[0]], ParagraphSep)) > maxTokens
  }

  /** Each group starts at n minus the length of its first paragraph, except a first group that keeps start. */
  predicate StartsAt(gs: seq<Group>, n: int, start: int)
  {
    forall k :: 0 <= k < |gs| ==>
      gs[k].paras != [] ==> (gs[k].start == n - |gs[k].paras[0]| || (k == 0 && gs[k].start == start))
  }

  /** Every group is non-empty, and within budget unless it is a single paragraph. */
  lemma {:induction false} PackGroups(ps: seq<string>, cur: seq<string>, start: int, n: int, maxTokens: int)
    requires |cur| <= 1 || EstimateTokens(Join(cur, ParagraphSep)) <= maxTokens
    ensures WithinBudget(PackFrom(ps, cur, start, n, maxTokens), maxTokens)
    decreases |ps|
  {
    if ps != [] {
      var p := ps[0];
      if EstimateTokens(Join(cur + [p], ParagraphSep)) <= maxTokens {
        assert PackFrom(ps, cur, start, n, maxTokens) == PackFrom(ps[1..], cur + [p], start, n, maxTokens);
        PackGroups(ps[1..], cur + [p], start, n, maxTokens);
      } else {
        assert PackFrom(ps, cur, start, n, maxTokens)
          == (if cur == [] then [] else [Group(cur, start)]) + PackFrom(ps[1..], [p], n - |p|, n, maxTokens);
        PackGroups(ps[1..], [p], n - |p|, n, maxTokens);
      }
    }
  }

  /** Greedy: the first paragraph of each group would have pushed the previous group over budget. */
  lemma {:induction false} PackMaximal(ps: seq<string>, cur: seq<string>, start: int, n: int, maxTokens: int)
    ensures Maximal(PackFrom(ps, cur, start, n, maxTokens), maxTokens)
    decreases |ps|
  {
    if ps != [] {
      var p := ps[0];
      if EstimateTokens(Join(cur + [p], ParagraphSep)) <= maxTokens {
        assert PackFrom(ps, cur, start, n, maxTokens) == PackFrom(ps[1..], cur + [p], start, n, maxTokens);
        PackMaximal(ps[1..], cur + [p], start, n, maxTokens);
      } else {
        assert PackFrom(ps, cur, start, n, maxTokens)
          == (if cur == [] then [] else [Group(cur, start)]) + PackFrom(ps[1..], [p], n - |p|, n, maxTokens);
        PackMaximal(ps[1..], [p], n - |p|, n, maxTokens);
        PackHead(ps[1..], [p], n - |p|, n, maxTokens);
        var rest := PackFrom(ps[1..], [p], n - |p|, n, maxTokens);
        assert rest[0].paras[0] == p by {
          assert rest[0].paras[..1] == [p];
        }
        MaximalPrepend(cur, start, rest, maxTokens);
      }
    }
  }

  /** Closing a group that the next group's first paragraph would have pushed over budget keeps the list maximal. */
  lemma MaximalPrepend(cur: seq<string>, start: int, rest: seq<Group>, maxTokens: int)
    requires Maximal(rest, maxTokens) && rest != [] && rest[0].paras != []
    requires cur != [] ==> EstimateTokens(Join(cur + [rest[0].paras[0]], ParagraphSep)) > maxTokens
    ensures Maximal((if cur == [] then [] else [Group(cur, start)]) + rest, maxTokens)
  {
    if cur != [] {
      var gs := [Group(cur, start)] + rest;
      forall k | 0 < k < |gs|
        ensures gs[k].paras != [] && EstimateTokens(Join(gs[k - 1].paras + [gs[k].paras[0]], ParagraphSep)) > maxTokens
      {
        assert gs[k] == rest[k - 1];
        if k > 1 {
          assert gs[k - 1] == rest[k - 2];
        }
      }
    } else {
      assert [] + rest == rest;
    }
  }

  /**
   * Start positions: every group after the first starts at n minus the length of its first
   * paragraph; the first keeps the start given, or gets that same value when its first
   * paragraph alone is over budget.
   */
  lemma {:induction false} PackStarts(ps: seq<string>, cur: seq<string>, start: int, n: int, maxTokens: int)
    ensures StartsAt(PackFrom(ps, cur, start, n, maxTokens), n, start)
    decreases |ps|
  {
    if ps != [] {
      var p := ps[0];
      if EstimateTokens(Join(cur + [p], ParagraphSep)) <= maxTokens {
        assert PackFrom(ps, cur, start, n, maxTokens) == PackFrom(ps[1..], cur + [p], start, n, maxTokens);
        PackStarts(ps[1..], cur + [p], start, n, maxTokens);
      } else {
        assert PackFrom(ps, cur, start, n, maxTokens)
          == (if cur == [] then [] else [Group(cur, start)]) + PackFrom(ps[1..], [p], n - |p|, n, maxTokens);
        PackStarts(ps[1..], [p], n - |p|, n, maxTokens);
        PackHead(ps[1..], [p], n - |p|, n, maxTokens);
        var rest := PackFrom(ps[1..], [p], n - |p|, n, maxTokens);
        assert rest[0].paras[0] == p by {
          assert rest[0].paras[..1] == [p];
        }
      }
    }
  }

  /** The metadata keys every chunk carries. */
  const ChunkKeys: set<string> := {"chunk_id", "chunk_type", "law_topic", "token_count", "char_count"}

  function SourceUrlOr(metadata: map<string, string>): string
  {
    if "source_url" in metadata then metadata["source_url"] else "unknown"
  }

  /** _create_chunk: the chunk for text, numbered id, at startPos, with the keywords found in it. */
  function CreateChunk(text: string, metadata: map<string, string>, id: nat, startPos: int, keywords: seq<string>): (c: Chunk)
    ensures c.text == text && c.startPos == startPos && c.endPos == startPos + |text|
    ensures c.overlapStart.None? && c.overlapEnd.None?
    ensures c.chunkId == SourceUrlOr(metadata) + "_" + NatToString(id)
    ensures c.metadata.Keys == metadata.Keys + ChunkKeys + (if keywords != [] then {"keywords"} else {})
    ensures c.metadata["chunk_id"] == NatToString(id) && c.metadata["chunk_type"] == "semantic"
    ensures c.metadata["law_topic"] == LawTopic
    ensures c.metadata["token_count"] == NatToString(EstimateTokens(text))
    ensures c.metadata["char_count"] == NatToString(|text|)
    ensures keywords != [] ==> c.metadata["keywords"] == Join(keywords, ",")
    ensures forall k :: k in metadata && k !in ChunkKeys && (k != "keywords" || keywords == []) ==> c.metadata[k] == metadata[k]
  {
    var base := metadata["chunk_id" := NatToString(id)]["chunk_type" := "semantic"]["law_topic" := LawTopic]
      ["token_count" := NatToString(EstimateTokens(text))]["char_count" := NatToString(|text|)];
    var meta := if keywords != [] then base["keywords" := Join(keywords, ",")] else base;
    Chunk(text, meta, SourceUrlOr(metadata) + "_" + NatToString(id), startPos, startPos + |text|, None, None)
  }

  /** The chunks made from the groups, numbered 0, 1, ... in order. */
  function Emit(gs: seq<Group>, metadata: map<string, string>, lawKeywords: string -> seq<string>): (r: seq<Chunk>)
    ensures |r| == |gs|
  {
    seq(|gs|, k requires 0 <= k < |gs| =>
      CreateChunk(Join(gs[k].paras, ParagraphSep), metadata, k, gs[k].start, lawKeywords(Join(gs[k].paras, ParagraphSep))))
  }

  lemma EmitSnoc(gs: seq<Group>, g: Group, metadata: map<string, string>, lawKeywords: string -> seq<string>)
    ensures Emit(gs + [g], metadata, lawKeywords) == Emit(gs, metadata, lawKeywords)
      + [CreateChunk(Join(g.paras, ParagraphSep), metadata, |gs|, g.start, lawKeywords(Join(g.paras, ParagraphSep)))]
  {
    var a := Emit(gs + [g], metadata, lawKeywords);
    var b := Emit(gs, metadata, lawKeywords)
      + [CreateChunk(Join(g.paras, ParagraphSep), metadata, |gs|, g.start, lawKeywords(Join(g.paras, ParagraphSep)))];
    assert forall k :: 0 <= k < |gs| ==> (gs + [g])[k] == gs[k];
    assert |a| == |b|;
    assert forall k :: 0 <= k < |a| ==> a[k] == b[k];
  }

  /** The chunk identifiers of one text's chunks are pairwise distinct. */
  lemma EmitIdsDistinct(gs: seq<Group>, metadata: map<string, string>, lawKeywords: string -> seq<string>, i: int, j: int)
    requires 0 <= i < j < |gs|
    ensures var r := Emit(gs, metadata, lawKeywords);
      r[i].chunkId != r[j].chunkId && "chunk_id" in r[i].metadata && "chunk_id" in r[j].metadata
      && r[i].metadata["chunk_id"] != r[j].metadata["chunk_id"]
  {
    var r := Emit(gs, metadata, lawKeywords);
    var u := SourceUrlOr(metadata) + "_";
    var ti := Join(gs[i].paras, ParagraphSep);
    var tj := Join(gs[j].paras, ParagraphSep);
    assert r[i] == CreateChunk(ti, metadata, i, gs[i].start, lawKeywords(ti));
    assert r[j] == CreateChunk(tj, metadata, j, gs[j].start, lawKeywords(tj));
    assert r[i].chunkId == u + NatToString(i);
    assert r[j].chunkId == u + NatToString(j);
    assert "chunk_id" in ChunkKeys;
    if NatToString(i) == NatToString(j) {
      NatToStringInjective(i, j);
    }
    assert r[i].chunkId[|u|..] == NatToString(i);
    assert r[j].chunkId[|u|..] == NatToString(j);
  }

  /** Word j of w2 equals word j of w1 counted from the end. */
  predicate MirrorAt(w1: seq<string>, w2: seq<string>, j: int)
  {
    0 <= j < |w1| && j < |w2| && w1[|w1| - 1 - j] == w2[j]
  }

  /** The words of `text1` matched against those of `text2`: the last word of text1 against the first of text2, and so on. */
  function MirrorCount(w1: seq<string>, w2: seq<string>, i: nat): (k: nat)
    requires i <= |w1| && i <= |w2|
    ensures i <= k <= |w1| && k <= |w2|
    ensures forall j :: i <= j < k ==> MirrorAt(w1, w2, j)
    ensures k == |w1| || k == |w2| || !MirrorAt(w1, w2, k)
    decreases |w1| - i
  {
    if i < |w1| && i < |w2| && w1[|w1| - 1 - i] == w2[i] then MirrorCount(w1, w2, i + 1) else i
  }

  /** The last words of w1 that mirror the first words of w2, in w1's order. */
  function MirroredSuffix(w1: seq<string>, w2: seq<string>): seq<string>
  {
    w1[|w1| - MirrorCount(w1, w2, 0)..]
  }

  /** Drops words from the front while the joined estimate is over target and more than one word is left. */
  function TrimFront(ws: seq<string>, target: int): (r: seq<string>)
    ensures |r| <= |ws| && r == ws[|ws| - |r|..]
    ensures EstimateTokens(Join(r, " ")) <= target || |r| <= 1
    decreases |ws|
  {
    if EstimateTokens(Join(ws, " ")) > target && |ws| > 1 then TrimFront(ws[1..], target) else ws
  }

  /** The joined words, trimmed from the front to the target estimate when over it. */
  function TrimmedOverlap(cp: seq<string>, target: int): string
  {
    var o := Join(cp, " ");
    if EstimateTokens(o) > target then Join(TrimFront(Words(o), target), " ") else o
  }

  /**
   * _get_overlap_text: the last words of text1 that mirror the first words of text2, joined
   * by single spaces, trimmed from the front to the target estimate.
   */
  function OverlapText(text1: string, text2: string, target: int): string
  {
    TrimmedOverlap(MirroredSuffix(Words(text1), Words(text2)), target)
  }

  /** A final segment of a list of words is a list of words. */
  lemma SuffixWords(ws: seq<string>, d: nat)
    requires d <= |ws|
    requires forall i :: 0 <= i < |ws| ==> IsWord(ws[i])
    ensures forall i :: 0 <= i < |ws[d..]| ==> IsWord(ws[d..][i])
  {
    assert forall i :: 0 <= i < |ws[d..]| ==> ws[d..][i] == ws[d + i];
  }

  /** r is the space-joined last m words of ws, within target unless at most one word is kept. */
  predicate SuffixOverlap(r: string, ws: seq<string>, target: int, m: int)
  {
    0 <= m <= |ws| && r == Join(ws[|ws| - m..], " ") && (EstimateTokens(r) <= target || m <= 1)
  }

  lemma TrimmedOverlapShape(cp: seq<string>, target: int)
    requires forall i :: 0 <= i < |cp| ==> IsWord(cp[i])
    ensures exists m :: SuffixOverlap(TrimmedOverlap(cp, target), cp, target, m)
  {
    var o := Join(cp, " ");
    if EstimateTokens(o) > target {
      assert Words(o) == cp by {
        WordsJoin(cp);
      }
      var t := TrimFront(cp, target);
      assert SuffixOverlap(TrimmedOverlap(cp, target), cp, target, |t|);
    } else {
      assert SuffixOverlap(TrimmedOverlap(cp, target), cp, target, |cp|);
    }
  }

  /** The overlap is a space-joined suffix of text1's words, within target unless one word is left. */
  lemma OverlapTextShape(text1: string, text2: string, target: int)
    ensures exists m :: SuffixOverlap(OverlapText(text1, text2, target), Words(text1), target, m)
  {
    var w1 := Words(text1);
    var d := |w1| - MirrorCount(w1, Words(text2), 0);
    var cp := MirroredSuffix(w1, Words(text2));
    WordsAreWords(text1);
    SuffixWords(w1, d);
    TrimmedOverlapShape(cp, target);
    var m :| SuffixOverlap(TrimmedOverlap(cp, target), cp, target, m);
    var r := TrimmedOverlap(cp, target);
    assert r == OverlapText(text1, text2, target);
    assert |cp| == |w1| - d;
    assert cp[|cp| - m..] == w1[|w1| - m..] by { SuffixOfSuffix(w1, d, m); }
    var tail := w1[|w1| - m..];
    assert r == Join(tail, " ");
    assert SuffixOverlap(r, w1, target, m);
  }

  /** The last m words of a final segment are the last m words of the whole list. */
  lemma SuffixOfSuffix(ws: seq<string>, d: nat, m: nat)
    requires d <= |ws| && m <= |ws| - d
    ensures ws[d..][|ws| - d - m..] == ws[|ws| - m..]
  {
  }

  /** The mirrored common words of _get_overlap_text's first loop, in text1's order. */
  method CommonWords(words1: seq<string>, words2: seq<string>) returns (common: seq<string>)
    ensures common == MirroredSuffix(words1, words2)
  {
    common := [];
    var m := if |words1| < |words2| then |words1| else |words2|;
    var i := 0;
    while i < m
      invariant 0 <= i <= m
      invariant common == words1[|words1| - i..]
      invariant MirrorCount(words1, words2, i) == MirrorCount(words1, words2, 0)
    {
      if words1[|words1| - (i + 1)] == words2[i] {
        common := [words1[|words1| - (i + 1)]] + common;
      } else {
        break;
      }
      i := i + 1;
    }
    assert MirrorCount(words1, words2, i) == i;
  }

  /** The trimming loop of _get_overlap_text. */
  method TrimWords(words0: seq<string>, targetTokens: int) returns (words: seq<string>)
    ensures words == TrimFront(words0, targetTokens)
  {
    words := words0;
    while EstimateTokens(Join(words, " ")) > targetTokens && |words| > 1
      invariant TrimFront(words, targetTokens) == TrimFront(words0, targetTokens)
      decreases |words|
    {
      words := words[1..];
    }
  }

  /** _get_overlap_text */
  method GetOverlapText(text1: string, text2: string, targetTokens: int) returns (r: string)
    ensures r == OverlapText(text1, text2, targetTokens)
  {
    var words1 := Words(text1);
    var words2 := Words(text2);
    var common := CommonWords(words1, words2);
    r := TrimJoined(common, targetTokens);
  }

  /** The second half of _get_overlap_text: join the common words and trim when over target. */
  method TrimJoined(common: seq<string>, targetTokens: int) returns (r: string)
    ensures r == TrimmedOverlap(common, targetTokens)
  {
    r := Join(common, " ");
    if EstimateTokens(r) > targetTokens {
      var words := TrimWords(Words(r), targetTokens);
      r := Join(words, " ");
    }
  }

  /** A chunk's text with an overlap appended after a newline, when the overlap is non-empty. */
  function WithOverlap(t: string, ov: string): (r: string)
    ensures StartsWith(r, t)
    ensures ov != [] ==> |r| == |t| + 1 + |ov| && r[|t|] == '\n' && r[|t| + 1..] == ov
    ensures ov == [] ==> r == t
  {
    if ov != [] then t + "\n" + ov else t
  }

  /** A chunk whose overlap span is the last |ov| characters of its text, when the overlap is non-empty. */
  function SpanFrom(c: Chunk, ov: string): (r: Chunk)
    ensures r.text == c.text && r.metadata == c.metadata && r.chunkId == c.chunkId
    ensures r.startPos == c.startPos && r.endPos == c.endPos
    ensures ov != [] ==> r.overlapStart == Some(|c.text| - |ov|) && r.overlapEnd == Some(|c.text|)
    ensures ov == [] ==> r == c
  {
    if ov != [] then c.(overlapStart := Some(|c.text| - |ov|), overlapEnd := Some(|c.text|)) else c
  }

  /** The text of chunk i after the overlap with chunk i + 1 is appended. */
  function AppendedText(cs: seq<Chunk>, target: int, i: nat): (t: string)
    requires i < |cs|
    ensures StartsWith(t, cs[i].text)
  {
    if i + 1 < |cs| then WithOverlap(cs[i].text, OverlapText(cs[i].text, cs[i + 1].text, target)) else cs[i].text
  }

  /** Chunk i with its overlap span against the updated previous chunk. */
  function SpannedAt(cs: seq<Chunk>, target: int, i: nat): Chunk
    requires i < |cs|
  {
    if i > 0 then SpanFrom(cs[i], OverlapText(AppendedText(cs, target, i - 1), cs[i].text, target)) else cs[i]
  }

  /** Chunk i after _add_overlap: the overlap span against the updated previous chunk, and the appended text. */
  function OverlappedAt(cs: seq<Chunk>, target: int, i: nat): Chunk
    requires i < |cs|
  {
    SpannedAt(cs, target, i).(text := AppendedText(cs, target, i))
  }

  /** One pass of _add_overlap's loop over chunk i, given the text of the already updated chunk i - 1. */
  function StepAt(cs: seq<Chunk>, target: int, i: nat, prevText: string): (r: Chunk)
    requires i < |cs|
    ensures StartsWith(r.text, cs[i].text)
    ensures r.metadata == cs[i].metadata && r.chunkId == cs[i].chunkId && r.startPos == cs[i].startPos && r.endPos == cs[i].endPos
  {
    var c1 := if i > 0 then SpanFrom(cs[i], OverlapText(prevText, cs[i].text, target)) else cs[i];
    if i + 1 < |cs| then c1.(text := WithOverlap(cs[i].text, OverlapText(cs[i].text, cs[i + 1].text, target))) else c1
  }

  /** The first n chunks after _add_overlap, each pass reading the updated text of the chunk before it. */
  function OverlappedUpTo(cs: seq<Chunk>, target: int, n: nat): (r: seq<Chunk>)
    requires n <= |cs|
    ensures |r| == n
    ensures forall i :: 0 <= i < n ==> KeepsFields(r[i], cs[i])
  {
    if n == 0 then []
    else
      var r := OverlappedUpTo(cs, target, n - 1);
      var c := StepAt(cs, target, n - 1, if n > 1 then r[n - 2].text else "");
      KeepsFieldsSnoc(cs, r, c);
      r + [c]
  }

  /** Chunk c keeps d's metadata, id and positions, and its text starts with d's. */
  predicate KeepsFields(c: Chunk, d: Chunk)
  {
    StartsWith(c.text, d.text) && c.metadata == d.metadata && c.chunkId == d.chunkId && c.startPos == d.startPos && c.endPos == d.endPos
  }

  /** Appending a chunk that keeps the fields of the next input chunk keeps them for the whole prefix. */
  lemma KeepsFieldsSnoc(cs: seq<Chunk>, r: seq<Chunk>, c: Chunk)
    requires |r| < |cs|
    requires forall i :: 0 <= i < |r| ==> KeepsFields(r[i], cs[i])
    requires KeepsFields(c, cs[|r|])
    ensures forall i :: 0 <= i < |r| + 1 ==> KeepsFields((r + [c])[i], cs[i])
  {
    forall i | 0 <= i < |r| + 1
      ensures KeepsFields((r + [c])[i], cs[i])
    {
      if i < |r| {
        assert (r + [c])[i] == r[i];
      } else {
        assert (r + [c])[i] == c;
      }
    }
  }

  /** _add_overlap on the whole list: lists of at most one chunk are returned as they are. */
  function Overlapped(cs: seq<Chunk>, target: int): (r: seq<Chunk>)
    ensures |r| == |cs|
    ensures |cs| <= 1 ==> r == cs
    ensures forall i :: 0 <= i < |cs| ==> StartsWith(r[i].text, cs[i].text)
    ensures forall i :: 0 <= i < |cs| ==>
      r[i].metadata == cs[i].metadata && r[i].chunkId == cs[i].chunkId && r[i].startPos == cs[i].startPos && r[i].endPos == cs[i].endPos
  {
    if |cs| <= 1 then cs else OverlappedUpTo(cs, target, |cs|)
  }

  /** The pass-by-pass result agrees with the closed form: chunk i's span is taken against chunk i - 1's appended text. */
  lemma {:induction false} OverlappedUpToAt(cs: seq<Chunk>, target: int, n: nat, i: nat)
    requires i < n <= |cs|
    ensures OverlappedUpTo(cs, target, n)[i] == OverlappedAt(cs, target, i)
    decreases n
  {
    var p := OverlappedUpTo(cs, target, n - 1);
    var prev := if n > 1 then p[n - 2].text else "";
    assert OverlappedUpTo(cs, target, n) == p + [StepAt(cs, target, n - 1, prev)];
    if i < n - 1 {
      assert p[i] == OverlappedAt(cs, target, i) by {
        OverlappedUpToAt(cs, target, n - 1, i);
      }
    } else {
      assert n > 1 ==> prev == AppendedText(cs, target, n - 2) by {
        if n > 1 {
          OverlappedUpToAt(cs, target, n - 1, n - 2);
        }
      }
      StepAtClosed(cs, target, n - 1, prev);
    }
  }

  /** A pass given the appended text of the chunk before it yields the closed form. */
  lemma StepAtClosed(cs: seq<Chunk>, target: int, i: nat, prevText: string)
    requires i < |cs|
    requires i > 0 ==> prevText == AppendedText(cs, target, i - 1)
    ensures StepAt(cs, target, i, prevText) == OverlappedAt(cs, target, i)
  {
  }

  /** _add_overlap: each chunk gets the overlap span against its (already extended) predecessor and its successor's overlap appended. */
  method AddOverlap(chunks: seq<Chunk>, overlapTokens: int) returns (r: seq<Chunk>)
    ensures r == Overlapped(chunks, overlapTokens)
  {
    if |chunks| <= 1 {
      return chunks;
    }
    r := [];
    for i := 0 to |chunks|
      invariant r == OverlappedUpTo(chunks, overlapTokens, i)
    {
      var prevText := if i > 0 then r[i - 1].text else "";
      var chunk := OverlapOne(chunks, i, prevText, overlapTokens);
      r := r + [chunk];
    }
  }

  /** One iteration of _add_overlap's loop; prevText is the text of the already updated previous chunk. */
  method OverlapOne(chunks: seq<Chunk>, i: nat, prevText: string, overlapTokens: int) returns (chunk: Chunk)
    requires i < |chunks|
    ensures chunk == StepAt(chunks, overlapTokens, i, prevText)
  {
    chunk := chunks[i];
    if i > 0 {
      chunk := SpanOne(chunk, prevText, overlapTokens);
    }
    if i < |chunks| - 1 {
      chunk := AppendOne(chunk, chunks[i + 1], overlapTokens);
    }
  }

  /** The first half of one iteration: the overlap span against the updated previous chunk's text. */
  method SpanOne(c: Chunk, prevText: string, overlapTokens: int) returns (chunk: Chunk)
    ensures chunk == SpanFrom(c, OverlapText(prevText, c.text, overlapTokens))
  {
    chunk := c;
    var ov := GetOverlapText(prevText, chunk.text, overlapTokens);
    if ov != [] {
      chunk := chunk.(overlapStart := Some(|chunk.text| - |ov|), overlapEnd := Some(|chunk.text|));
    }
  }

  /** The second half of one iteration: the overlap with the next chunk appended to the text. */
  method AppendOne(c: Chunk, next: Chunk, overlapTokens: int) returns (chunk: Chunk)
    ensures chunk == c.(text := WithOverlap(c.text, OverlapText(c.text, next.text, overlapTokens)))
  {
    chunk := c;
    var ov := GetOverlapText(chunk.text, next.text, overlapTokens);
    if ov != [] {
      chunk := chunk.(text := chunk.text + "\n" + ov);
    }
  }

  /**
   * chunk_text: blank input gives no chunks; otherwise the paragraphs of the normalised text
   * are packed greedily, made into chunks and given their overlaps.
   */
  method ChunkText(text: string, metadata: map<string, string>, maxTokens: int, overlapTokens: int,
                   normalizeHtml: string -> string, splitBlocks: string -> seq<string>,
                   sentences: string -> seq<string>, lawKeywords: string -> seq<string>)
    returns (chunks: seq<Chunk>)
    ensures IsBlank(text) ==> chunks == []
    ensures !IsBlank(text) ==>
      var n := normalizeHtml(text);
      var gs := Pack(Paragraphs(splitBlocks(n), sentences, maxTokens), |n|, maxTokens);
      chunks == Overlapped(Emit(gs, metadata, lawKeywords), overlapTokens)
  {
    if IsBlank(text) {
      return [];
    }
    var normalized := normalizeHtml(text);
    var paragraphs := SplitParagraphs(normalized, splitBlocks, sentences, maxTokens);
    var pre := PackChunks(paragraphs, |normalized|, metadata, maxTokens, lawKeywords);
    chunks := AddOverlap(pre, overlapTokens);
  }

  /** The state of chunk_text's packing loop: the groups closed so far, the current group and its start. */
  datatype PackSt = PackSt(done: seq<Group>, cur: seq<string>, start: int)

  /** One non-blank paragraph p through the packing loop. */
  function PackStep(st: PackSt, p: string, n: int, maxTokens: int): PackSt
  {
    if EstimateTokens(Join(st.cur + [p], ParagraphSep)) <= maxTokens then st.(cur := st.cur + [p])
    else PackSt(st.done + (if st.cur == [] then [] else [Group(st.cur, st.start)]), [p], n - |p|)
  }

  /** The loop state after the (already cleaned) paragraphs qs. */
  function PackPrefix(qs: seq<string>, n: int, maxTokens: int): (st: PackSt)
    decreases |qs|
  {
    if qs == [] then PackSt([], [], 0)
    else PackStep(PackPrefix(qs[..|qs| - 1], n, maxTokens), qs[|qs| - 1], n, maxTokens)
  }

  /** Closing the current group after the steps so far. */
  function PackClose(st: PackSt): seq<Group>
  {
    st.done + (if st.cur == [] then [] else [Group(st.cur, st.start)])
  }

  /** One more loop step leaves what is closed, followed by the greedy packing of the rest, unchanged. */
  lemma PackStepFrom(st: PackSt, p: string, rest: seq<string>, n: int, maxTokens: int)
    ensures var st2 := PackStep(st, p, n, maxTokens);
      st.done + PackFrom([p] + rest, st.cur, st.start, n, maxTokens) == st2.done + PackFrom(rest, st2.cur, st2.start, n, maxTokens)
  {
    assert ([p] + rest)[0] == p && ([p] + rest)[1..] == rest;
    if EstimateTokens(Join(st.cur + [p], ParagraphSep)) > maxTokens {
      var g := if st.cur == [] then [] else [Group(st.cur, st.start)];
      var tail := PackFrom(rest, [p], n - |p|, n, maxTokens);
      assert PackFrom([p] + rest, st.cur, st.start, n, maxTokens) == g + tail;
      assert st.done + (g + tail) == (st.done + g) + tail;
    }
  }

  /** What the loop has closed, followed by the greedy packing of what remains, is the packing of all of qs. */
  lemma {:induction false} PackPrefixInv(qs: seq<string>, i: nat, n: int, maxTokens: int)
    requires i <= |qs|
    ensures var st := PackPrefix(qs[..i], n, maxTokens);
      st.done + PackFrom(qs[i..], st.cur, st.start, n, maxTokens) == PackFrom(qs, [], 0, n, maxTokens)
    decreases i
  {
    if i == 0 {
      assert qs[..0] == [] && qs[0..] == qs;
    } else {
      PackPrefixInv(qs, i - 1, n, maxTokens);
      assert qs[..i][..i - 1] == qs[..i - 1] && qs[..i][i - 1] == qs[i - 1];
      assert qs[i - 1..] == [qs[i - 1]] + qs[i..];
      PackStepFrom(PackPrefix(qs[..i - 1], n, maxTokens), qs[i - 1], qs[i..], n, maxTokens);
    }
  }

  /** After the last paragraph the loop closes the current group, if any; with the paragraphs cleaned, this is Pack. */
  lemma PackPrefixAll(ps: seq<string>, n: int, maxTokens: int)
    ensures PackClose(PackPrefix(CleanPiecesRev(ps), n, maxTokens)) == Pack(ps, n, maxTokens)
  {
    var qs := CleanPiecesRev(ps);
    PackPrefixInv(qs, |qs|, n, maxTokens);
    assert qs[..|qs|] == qs && qs[|qs|..] == [];
    CleanPiecesRevSame(ps);
  }

  /** One more raw paragraph adds its stripped form to the cleaned list, unless it is blank. */
  lemma CleanPiecesRevStep(ps: seq<string>, i: nat)
    requires i < |ps|
    ensures CleanPiecesRev(ps[..i + 1]) == CleanPiecesRev(ps[..i]) + (if Strip(ps[i]) == [] then [] else [Strip(ps[i])])
  {
    assert ps[..i + 1][..i] == ps[..i] && ps[..i + 1][i] == ps[i];
  }

  lemma PackPrefixSnoc(qs: seq<string>, p: string, n: int, maxTokens: int)
    ensures PackPrefix(qs + [p], n, maxTokens) == PackStep(PackPrefix(qs, n, maxTokens), p, n, maxTokens)
  {
    assert (qs + [p])[..|qs|] == qs && (qs + [p])[|qs|] == p;
  }

  /** _create_chunk for the group being closed, appended to the chunks so far. */
  method EmitGroup(pre: seq<Chunk>, ghost done: seq<Group>, current: string, ghost cur: seq<string>, chunkStart: int,
                   chunkId: nat, metadata: map<string, string>, lawKeywords: string -> seq<string>) returns (r: seq<Chunk>)
    requires pre == Emit(done, metadata, lawKeywords) && chunkId == |done| && current == Join(cur, ParagraphSep)
    ensures r == Emit(done + [Group(cur, chunkStart)], metadata, lawKeywords)
  {
    var chunk := CreateChunk(current, metadata, chunkId, chunkStart, lawKeywords(current));
    EmitSnoc(done, Group(cur, chunkStart), metadata, lawKeywords);
    r := pre + [chunk];
  }

  /** The state of chunk_text's packing loop after the first i raw paragraphs. */
  ghost predicate PackLoop(paragraphs: seq<string>, i: nat, n: int, maxTokens: int, metadata: map<string, string>,
                           lawKeywords: string -> seq<string>, done: seq<Group>, cur: seq<string>, chunkStart: int,
                           current: string, chunkId: nat, pre: seq<Chunk>)
  {
    && i <= |paragraphs|
    && PackSt(done, cur, chunkStart) == PackPrefix(CleanPiecesRev(paragraphs[..i]), n, maxTokens)
    && (forall k :: 0 <= k < |cur| ==> cur[k] != [])
    && current == Join(cur, ParagraphSep)
    && (cur == []) == (current == [])
    && chunkId == |done|
    && pre == Emit(done, metadata, lawKeywords)
  }

  /** A blank paragraph leaves the loop state as it is. */
  lemma PackLoopSkip(paragraphs: seq<string>, i: nat, n: int, maxTokens: int, metadata: map<string, string>,
                     lawKeywords: string -> seq<string>, done: seq<Group>, cur: seq<string>, chunkStart: int,
                     current: string, chunkId: nat, pre: seq<Chunk>)
    requires PackLoop(paragraphs, i, n, maxTokens, metadata, lawKeywords, done, cur, chunkStart, current, chunkId, pre)
    requires i < |paragraphs| && Strip(paragraphs[i]) == []
    ensures PackLoop(paragraphs, i + 1, n, maxTokens, metadata, lawKeywords, done, cur, chunkStart, current, chunkId, pre)
  {
    CleanPiecesRevStep(paragraphs, i);
    assert CleanPiecesRev(paragraphs[..i]) + [] == CleanPiecesRev(paragraphs[..i]);
  }

  /** The candidate text joined from the current group and the next paragraph. */
  lemma PackTest(cur: seq<string>, current: string, para: string, test: string)
    requires current == Join(cur, ParagraphSep) && (cur == []) == (current == [])
    requires test == if current != [] then current + ParagraphSep + para else para
    ensures test == Join(cur + [para], ParagraphSep)
  {
    if cur != [] {
      JoinSnoc(cur, para, ParagraphSep);
    }
  }

  /** A paragraph that fits joins the current group. */
  lemma PackLoopGrow(paragraphs: seq<string>, i: nat, n: int, maxTokens: int, metadata: map<string, string>,
                     lawKeywords: string -> seq<string>, done: seq<Group>, cur: seq<string>, chunkStart: int,
                     current: string, chunkId: nat, pre: seq<Chunk>, para: string, test: string)
    requires PackLoop(paragraphs, i, n, maxTokens, metadata, lawKeywords, done, cur, chunkStart, current, chunkId, pre)
    requires i < |paragraphs| && para == Strip(paragraphs[i]) && para != []
    requires test == Join(cur + [para], ParagraphSep) && EstimateTokens(test) <= maxTokens
    requires test == if current != [] then current + ParagraphSep + para else para
    ensures PackLoop(paragraphs, i + 1, n, maxTokens, metadata, lawKeywords, done, cur + [para], chunkStart, test, chunkId, pre)
  {
    CleanPiecesRevStep(paragraphs, i);
    PackPrefixSnoc(CleanPiecesRev(paragraphs[..i]), para, n, maxTokens);
  }

  /** A paragraph that does not fit closes the current group, if any, and starts a new one. */
  lemma PackLoopCut(paragraphs: seq<string>, i: nat, n: int, maxTokens: int, metadata: map<string, string>,
                    lawKeywords: string -> seq<string>, done: seq<Group>, cur: seq<string>, chunkStart: int,
                    current: string, chunkId: nat, pre: seq<Chunk>, para: string, test: string, pre2: seq<Chunk>)
    requires PackLoop(paragraphs, i, n, maxTokens, metadata, lawKeywords, done, cur, chunkStart, current, chunkId, pre)
    requires i < |paragraphs| && para == Strip(paragraphs[i]) && para != []
    requires test == Join(cur + [para], ParagraphSep) && EstimateTokens(test) > maxTokens
    requires pre2 == Emit(PackClose(PackSt(done, cur, chunkStart)), metadata, lawKeywords)
    ensures PackLoop(paragraphs, i + 1, n, maxTokens, metadata, lawKeywords, PackClose(PackSt(done, cur, chunkStart)), [para],
                     n - |para|, para, |PackClose(PackSt(done, cur, chunkStart))|, pre2)
  {
    CleanPiecesRevStep(paragraphs, i);
    PackPrefixSnoc(CleanPiecesRev(paragraphs[..i]), para, n, maxTokens);
  }

  /** After the last paragraph, closing the current group gives the chunks of the whole text. */
  lemma PackLoopEnd(paragraphs: seq<string>, n: int, maxTokens: int, metadata: map<string, string>,
                    lawKeywords: string -> seq<string>, done: seq<Group>, cur: seq<string>, chunkStart: int,
                    current: string, chunkId: nat, pre: seq<Chunk>, pre2: seq<Chunk>)
    requires PackLoop(paragraphs, |paragraphs|, n, maxTokens, metadata, lawKeywords, done, cur, chunkStart, current, chunkId, pre)
    requires pre2 == Emit(PackClose(PackSt(done, cur, chunkStart)), metadata, lawKeywords)
    ensures pre2 == Emit(Pack(paragraphs, n, maxTokens), metadata, lawKeywords)
  {
    assert paragraphs[..|paragraphs|] == paragraphs;
    PackPrefixAll(paragraphs, n, maxTokens);
  }

  /** The packing loop of chunk_text: paragraphs are joined greedily while the estimate stays within budget. */
  method PackChunks(paragraphs: seq<string>, n: int, metadata: map<string, string>, maxTokens: int,
                    lawKeywords: string -> seq<string>) returns (pre: seq<Chunk>)
    ensures pre == Emit(Pack(paragraphs, n, maxTokens), metadata, lawKeywords)
  {
    pre := [];
    var current := "";
    var chunkStart := 0;
    var chunkId: nat := 0;
    ghost var cur: seq<string> := [];
    ghost var done: seq<Group> := [];
    for i := 0 to |paragraphs|
      invariant PackLoop(paragraphs, i, n, maxTokens, metadata, lawKeywords, done, cur, chunkStart, current, chunkId, pre)
    {
      var para := Strip(paragraphs[i]);
      if para == [] {
        PackLoopSkip(paragraphs, i, n, maxTokens, metadata, lawKeywords, done, cur, chunkStart, current, chunkId, pre);
        continue;
      }
      var test := if current != [] then current + ParagraphSep + para else para;
      PackTest(cur, current, para, test);
      if EstimateTokens(test) <= maxTokens {
        PackLoopGrow(paragraphs, i, n, maxTokens, metadata, lawKeywords, done, cur, chunkStart, current, chunkId, pre, para, test);
        current := test;
        cur := cur + [para];
      } else {
        var pre2 := pre;
        if current != [] {
          pre2 := EmitGroup(pre, done, current, cur, chunkStart, chunkId, metadata, lawKeywords);
        }
        PackLoopCut(paragraphs, i, n, maxTokens, metadata, lawKeywords, done, cur, chunkStart, current, chunkId, pre,
                    para, test, pre2);
        pre := pre2;
        done := PackClose(PackSt(done, cur, chunkStart));
        chunkId := if current != [] then chunkId + 1 else chunkId;
        current := para;
        cur := [para];
        chunkStart := n - |para|;
      }
    }
    var pre2 := pre;
    if current != [] {
      pre2 := EmitGroup(pre, done, current, cur, chunkStart, chunkId, metadata, lawKeywords);
    }
    PackLoopEnd(paragraphs, n, maxTokens, metadata, lawKeywords, done, cur, chunkStart, current, chunkId, pre, pre2);
    pre := pre2;
  }

  /** The statistics get_chunk_stats reports. */
  datatype ChunkStats = ChunkStats(totalChunks: nat, avgTokens: nat, avgChars: nat, totalTokens: nat, totalChars: nat)

  function TotalTokens(cs: seq<Chunk>): nat
  {
    if cs == [] then 0 else EstimateTokens(cs[0].text) + TotalTokens(cs[1..])
  }

  function TotalChars(cs: seq<Chunk>): nat
  {
    if cs == [] then 0 else |cs[0].text| + TotalChars(cs[1..])
  }

  /** The summed estimate is at most 0.6 tokens per character. */
  lemma {:induction false} TotalTokensBound(cs: seq<Chunk>)
    ensures 5 * TotalTokens(cs) <= 3 * TotalChars(cs)
    decreases |cs|
  {
    if cs != [] {
      TotalTokensBound(cs[1..]);
    }
  }

  lemma FloorDivBounds(a: nat, b: nat)
    requires b > 0
    ensures (a / b) * b <= a < (a / b + 1) * b
  {
    var q := a / b;
    assert a == q * b + a % b;
    assert (q + 1) * b == q * b + b;
  }

  /** get_chunk_stats: counts and totals, with averages by integer division, all zero for no chunks. */
  function GetChunkStats(cs: seq<Chunk>): (r: ChunkStats)
    ensures cs == [] ==> r == ChunkStats(0, 0, 0, 0, 0)
    ensures r.totalChunks == |cs| && r.totalTokens == TotalTokens(cs) && r.totalChars == TotalChars(cs)
  {
    if cs == [] then ChunkStats(0, 0, 0, 0, 0)
    else
      var t := TotalTokens(cs);
      var c := TotalChars(cs);
      ChunkStats(|cs|, t / |cs|, c / |cs|, t, c)
  }

  /** The averages are the floors of the totals over the chunk count. */
  lemma ChunkStatsAverages(cs: seq<Chunk>)
    requires cs != []
    ensures var r := GetChunkStats(cs);
      r.avgTokens * |cs| <= r.totalTokens < (r.avgTokens + 1) * |cs|
      && r.avgChars * |cs| <= r.totalChars < (r.avgChars + 1) * |cs|
  {
    var r := GetChunkStats(cs);
    FloorDivBounds(r.totalTokens, |cs|);
    FloorDivBounds(r.totalChars, |cs|);
  }
}
