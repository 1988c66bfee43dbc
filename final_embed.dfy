/**
 * src/ingest/embed_to_chroma_final.py, with the identical helpers of embed_to_chroma_production.py
 * and embed_to_chroma_enhanced.py: language detection, the e5 prefixes, the legal query rewriter,
 * Korean bigrams, sentence packing (create_semantic_chunks) and the chunk records of
 * build_document_chunks_enhanced.
 */
module EmbedFinal {
  import opened Wrappers
  import opened Strings
  import Hashes
  import UtilsText
  import EmbedChunked

  // ---------------------------------------------------------------- detect_language

  predicate IsAsciiLetter(c: char)
  {
    'a' <= c <= 'z' || 'A' <= c <= 'Z'
  }

  /** The number of characters of s satisfying p (len(re.findall(class, s)) for a one-character class). */
  function Count(s: string, p: char -> bool): (n: nat)
    ensures n <= |s|
  {
    if s == [] then 0 else Count(s[..|s| - 1], p) + (if p(s[|s| - 1]) then 1 else 0)
  }

  lemma {:induction false} CountAppend(a: string, b: string, p: char -> bool)
    ensures Count(a + b, p) == Count(a, p) + Count(b, p)
    decreases |b|
  {
    if b != [] {
      var ab := a + b;
      assert ab[..|ab| - 1] == a + b[..|b| - 1];
      assert ab[|ab| - 1] == b[|b| - 1];
      CountAppend(a, b[..|b| - 1], p);
      assert Count(ab, p) == Count(a + b[..|b| - 1], p) + (if p(b[|b| - 1]) then 1 else 0);
    } else {
      assert a + b == a;
    }
  }

  function Korean(s: string): nat { Count(s, UtilsText.IsHangulSyllable) }

  function English(s: string): nat { Count(s, IsAsciiLetter) }

  datatype Lang = Ko | En | Mixed

  /** detect_language: 'ko', 'en' or 'mixed' by comparing the syllable and Latin letter counts. */
  function DetectLanguage(text: string): (r: Lang)
    ensures r == Ko <==> Korean(text) > 2 * English(text)
    ensures r == En <==> English(text) > 2 * Korean(text)
    ensures r == Mixed <==> Korean(text) <= 2 * English(text) && English(text) <= 2 * Korean(text)
  {
    var k := Korean(text);
    var e := English(text);
    if k > e * 2 then Ko else if e > k * 2 then En else Mixed
  }

  /** Two texts detected as the same language ('ko' or 'en') give that language together. */
  lemma LanguageOfConcat(a: string, b: string)
    requires DetectLanguage(a) == DetectLanguage(b) != Mixed
    ensures DetectLanguage(a + b) == DetectLanguage(a)
  {
    CountAppend(a, b, UtilsText.IsHangulSyllable);
    CountAppend(a, b, IsAsciiLetter);
  }

  // ---------------------------------------------------------------- to_embed_text

  const QueryPrefix := "query: "
  const PassagePrefix := "passage: "

  /** to_embed_text: the e5 prefix for a query or a passage, then the stripped chunk. */
  function ToEmbedText(chunk: string, isQuery: bool): string
  {
    (if isQuery then QueryPrefix else PassagePrefix) + Strip(chunk)
  }

  /** Reads a prefixed text back: whether it is a query, and the text after the prefix. */
  function FromEmbedText(s: string): Option<(bool, string)>
  {
    if StartsWith(s, QueryPrefix) then Some((true, s[|QueryPrefix|..]))
    else if StartsWith(s, PassagePrefix) then Some((false, s[|PassagePrefix|..]))
    else None
  }

  /** The prefix identifies the kind of text, and what follows it is the stripped chunk. */
  lemma EmbedTextRoundTrip(chunk: string, isQuery: bool)
    ensures FromEmbedText(ToEmbedText(chunk, isQuery)) == Some((isQuery, Strip(chunk)))
  {
    var s := ToEmbedText(chunk, isQuery);
    if isQuery {
      assert s[..|QueryPrefix|] == QueryPrefix;
    } else {
      assert s[..|PassagePrefix|] == PassagePrefix;
      assert s[0] == 'p';
    }
  }

  // ---------------------------------------------------------------- rewrite_query

  /** LEGAL_SYNONYMS, in the dictionary's insertion order. */
  const LegalSynonyms: seq<(string, seq<string>)> := [
    ("압류", ["채권압류", "추심", "압류명령"]),
    ("지급명령", ["독촉절차", "지명채권", "지급명령신청"]),
    ("강제집행", ["집행명령", "압류집행", "경매"]),
    ("대여금", ["대출금", "차용금", "미수금"]),
    ("투자금", ["출자금", "투자손실", "손해배상"]),
    ("채권추심", ["채권회수", "미수금회수", "채권압류"]),
    ("제3채무자", ["제3채무자통지", "채권압류통지"]),
    ("소송", ["민사소송", "소송절차", "법원"]),
    ("판결", ["승소", "패소", "판결문"]),
    ("집행", ["강제집행", "집행절차", "압류집행"])
  ]

  /** The synonyms of every term occurring in q, term by term in table order. */
  function Expansion(q: string, table: seq<(string, seq<string>)>): seq<string>
  {
    if table == [] then []
    else (if Contains(q, table[0].0) then table[0].1 else []) + Expansion(q, table[1..])
  }

  predicate NoTermIn(q: string, table: seq<(string, seq<string>)>)
  {
    forall k :: 0 <= k < |table| ==> !Contains(q, table[k].0)
  }

  /** With non-empty synonym lists, the expansion is empty exactly when no term occurs. */
  lemma {:induction false} ExpansionEmpty(q: string, table: seq<(string, seq<string>)>)
    requires forall k :: 0 <= k < |table| ==> table[k].1 != []
    ensures Expansion(q, table) == [] <==> NoTermIn(q, table)
    decreases |table|
  {
    if table != [] {
      ExpansionEmpty(q, table[1..]);
      assert NoTermIn(q, table) <==> !Contains(q, table[0].0) && NoTermIn(q, table[1..]) by {
        assert forall k :: 1 <= k < |table| ==> table[k] == table[1..][k - 1];
      }
    }
  }

  /** rewrite_query */
  function RewriteQuery(q: string): string
  {
    var expanded := Expansion(q, LegalSynonyms);
    if expanded != [] then q + " " + Join(expanded, " ") else q
  }

  /**
   * The query comes back unchanged exactly when no dictionary term occurs in it; otherwise it is
   * the query, a space, and the synonyms of the occurring terms in dictionary order.
   */
  lemma RewriteQueryShape(q: string)
    ensures RewriteQuery(q) == q <==> NoTermIn(q, LegalSynonyms)
    ensures !NoTermIn(q, LegalSynonyms) ==>
      RewriteQuery(q) == q + " " + Join(Expansion(q, LegalSynonyms), " ")
    ensures StartsWith(RewriteQuery(q), q)
  {
    ExpansionEmpty(q, LegalSynonyms);
    assert (q + " " + Join(Expansion(q, LegalSynonyms), " "))[..|q|] == q;
  }

  // ---------------------------------------------------------------- ko_bigrams

  /** re.sub(r'\s+', '', s) */
  function RemoveSpaces(s: string): (r: string)
    ensures |r| <= |s|
    ensures forall i :: 0 <= i < |r| ==> !IsSpace(r[i])
  {
    if s == [] then []
    else RemoveSpaces(s[..|s| - 1]) + (if IsSpace(s[|s| - 1]) then [] else [s[|s| - 1]])
  }

  /** [s[i:i+2] for i in range(len(s) - 1)] */
  function Bigrams(s: string): (r: seq<string>)
    ensures |r| == if |s| == 0 then 0 else |s| - 1
    ensures forall i :: 0 <= i < |r| ==> r[i] == s[i..i + 2]
  {
    if |s| < 2 then [] else seq(|s| - 1, i requires 0 <= i < |s| - 1 => s[i..i + 2])
  }

  /** ko_bigrams */
  function KoBigrams(text: string): (r: seq<string>)
    ensures var s := RemoveSpaces(Lower(text)); |r| == (if |s| == 0 then 0 else |s| - 1)
  {
    Bigrams(RemoveSpaces(Lower(text)))
  }

  /** Rebuilds a string from its bigrams: every first character, then the last second character. */
  function Unbigram(r: seq<string>): string
    requires forall i :: 0 <= i < |r| ==> |r[i]| == 2
  {
    if r == [] then [] else seq(|r|, i requires 0 <= i < |r| => r[i][0]) + [r[|r| - 1][1]]
  }

  /** A string of two or more characters is determined by its bigrams. */
  lemma BigramsRoundTrip(s: string)
    requires |s| >= 2
    ensures Unbigram(Bigrams(s)) == s
  {
    var r := Bigrams(s);
    assert forall i :: 0 <= i < |r| ==> r[i][0] == s[i];
    assert r[|r| - 1][1] == s[|s| - 1];
  }

  // ---------------------------------------------------------------- create_semantic_chunks

  predicate IsMark(c: char)
  {
    c == '.' || c == '!' || c == '?'
  }

  /** The pattern [.!?]\s+ starts at i. */
  predicate BreakAt(s: string, i: int)
  {
    0 <= i && i + 1 < |s| && IsMark(s[i]) && IsSpace(s[i + 1])
  }

  /** The leftmost match of [.!?]\s+ at or after from. */
  function FirstBreak(s: string, from: nat): (r: Option<nat>)
    ensures r.Some? ==> from <= r.value && BreakAt(s, r.value)
    ensures r.Some? ==> forall j :: from <= j < r.value ==> !BreakAt(s, j)
    ensures r.None? ==> forall j :: from <= j ==> !BreakAt(s, j)
    decreases |s| - from
  {
    if from + 1 >= |s| then None
    else if BreakAt(s, from) then Some(from)
    else FirstBreak(s, from + 1)
  }

  /**
   * re.split(r'[.!?]\s+', s): the text between successive matches, each match being a mark and
   * its whole run of whitespace. There is always at least one piece, and no piece holds a match.
   */
  function SplitSentences(s: string): (r: seq<string>)
    ensures |r| >= 1
    ensures forall k, j :: 0 <= k < |r| ==> !BreakAt(r[k], j)
    decreases |s|
  {
    match FirstBreak(s, 0)
    case None => [s]
    case Some(i) =>
      var rest := s[i + 1..];
      var next := rest[LeadingSpaces(rest)..];
      assert forall j :: !BreakAt(s[..i], j) by {
        forall j | BreakAt(s[..i], j) ensures false {
          assert BreakAt(s, j);
        }
      }
      [s[..i]] + SplitSentences(next)
  }

  /** One chunk: its stripped text and the offsets the packer assigns. */
  datatype SemChunk = SemChunk(text: string, start: int, end: int)

  /** The packer's state between sentences: chunks so far, current_chunk, current_start, current_end. */
  datatype Packer = Packer(chunks: seq<SemChunk>, cur: string, start: int, end: int)

  /** `current_chunk[-overlap:] if len(current_chunk) > overlap else current_chunk`: a suffix of cur. */
  function OverlapText(cur: string, overlap: int): (ot: string)
    ensures |ot| <= |cur| && ot == cur[|cur| - |ot|..]
  {
    if |cur| > overlap then Slice(cur, -overlap, |cur|) else cur
  }

  /** One iteration of the sentence loop, on an already stripped sentence. */
  function Feed(p: Packer, s: string, chunkSize: int, overlap: int): Packer
  {
    if s == [] then p
    else if |p.cur| + |s| > chunkSize && p.cur != [] then
      var ot := OverlapText(p.cur, overlap);
      var cur := ot + " " + s;
      var start := p.end - |ot|;
      Packer(p.chunks + [SemChunk(Strip(p.cur), p.start, p.end)], cur, start, start + |cur|)
    else if p.cur != [] then
      var cur := p.cur + ". " + s;
      Packer(p.chunks, cur, p.start, p.start + |cur|)
    else
      Packer(p.chunks, s, p.end, p.end + |s|)
  }

  function FeedAll(p: Packer, ss: seq<string>, chunkSize: int, overlap: int): Packer
    decreases |ss|
  {
    if ss == [] then p else FeedAll(Feed(p, ss[0], chunkSize, overlap), ss[1..], chunkSize, overlap)
  }

  /** The final `if current_chunk:` append. */
  function Finish(p: Packer): seq<SemChunk>
  {
    if p.cur != [] then p.chunks + [SemChunk(Strip(p.cur), p.start, p.end)] else p.chunks
  }

  function StripAll(ps: seq<string>): (r: seq<string>)
    ensures |r| == |ps| && forall i :: 0 <= i < |ps| ==> r[i] == Strip(ps[i])
  {
    seq(|ps|, i requires 0 <= i < |ps| => Strip(ps[i]))
  }

  const Start := Packer([], "", 0, 0)

  /** create_semantic_chunks */
  function SemanticChunks(text: string, chunkSize: int, overlap: int): seq<SemChunk>
  {
    if |text| <= chunkSize then [SemChunk(text, 0, |text|)]
    else Finish(FeedAll(Start, StripAll(SplitSentences(text)), chunkSize, overlap))
  }

  method CreateSemanticChunks(text: string, chunkSize: int, overlap: int) returns (chunks: seq<SemChunk>)
    ensures chunks == SemanticChunks(text, chunkSize, overlap)
  {
    if |text| <= chunkSize {
      return [SemChunk(text, 0, |text|)];
    }
    var sentences := SplitSentences(text);
    ghost var ss := StripAll(sentences);
    ghost var last := FeedAll(Start, ss, chunkSize, overlap);
    chunks := [];
    var cur := "";
    var curStart := 0;
    var curEnd := 0;
    for i := 0 to |sentences|
      invariant FeedAll(Packer(chunks, cur, curStart, curEnd), ss[i..], chunkSize, overlap) == last
    {
      assert ss[i..] == [ss[i]] + ss[i + 1..];
      chunks, cur, curStart, curEnd := AddSentence(chunks, cur, curStart, curEnd, sentences[i], chunkSize, overlap);
    }
    if cur != [] {
      chunks := chunks + [SemChunk(Strip(cur), curStart, curEnd)];
    }
  }

  /** The body of the sentence loop. */
  method AddSentence(chunks: seq<SemChunk>, cur: string, curStart: int, curEnd: int, sentence: string,
                     chunkSize: int, overlap: int)
    returns (chunks': seq<SemChunk>, cur': string, curStart': int, curEnd': int)
    ensures Packer(chunks', cur', curStart', curEnd')
         == Feed(Packer(chunks, cur, curStart, curEnd), Strip(sentence), chunkSize, overlap)
  {
    chunks', cur', curStart', curEnd' := chunks, cur, curStart, curEnd;
    var s := Strip(sentence);
    if s == [] {
      return;
    }
    if |cur| + |s| > chunkSize && cur != [] {
      chunks' := chunks + [SemChunk(Strip(cur), curStart, curEnd)];
      var ot := OverlapText(cur, overlap);
      cur' := ot + " " + s;
      curStart' := curEnd - |ot|;
    } else if cur != [] {
      cur' := cur + ". " + s;
    } else {
      cur' := s;
      curStart' := curEnd;
    }
    curEnd' := curStart' + |cur'|;
  }

  /** The shape of a chunk the packer emits: non-empty text inside its own [start, end) span. */
  predicate ChunkOk(c: SemChunk)
  {
    c.text != [] && 0 <= c.start && c.start + |c.text| <= c.end
  }

  predicate PackInv(p: Packer)
  {
    && (forall k :: 0 <= k < |p.chunks| ==> ChunkOk(p.chunks[k]) && p.chunks[k].start <= p.start)
    && (forall j, k :: 0 <= j < k < |p.chunks| ==> p.chunks[j].start <= p.chunks[k].start)
    && 0 <= p.start <= p.end
    && (p.cur != [] ==> p.end == p.start + |p.cur| && !IsBlank(p.cur))
  }

  lemma StripNonBlank(s: string)
    requires !IsBlank(s)
    ensures Strip(s) != [] && |Strip(s)| <= |s|
  {
    StripShape(s);
  }

  lemma StrippedNotBlank(s: string)
    ensures Strip(s) == [] || !IsBlank(Strip(s))
  {
    StripShape(s);
  }

  lemma NotBlankAfter(x: string, s: string)
    requires !IsBlank(s)
    ensures !IsBlank(x + s)
  {
    var j :| 0 <= j < |s| && !IsSpace(s[j]);
    assert (x + s)[|x| + j] == s[j];
  }

  lemma FeedKeeps(p: Packer, s: string, chunkSize: int, overlap: int)
    requires PackInv(p)
    requires s == [] || !IsBlank(s)
    ensures PackInv(Feed(p, s, chunkSize, overlap))
  {
    if s != [] {
      if |p.cur| + |s| > chunkSize && p.cur != [] {
        FeedEmits(p, s, chunkSize, overlap);
      } else if p.cur != [] {
        NotBlankAfter(p.cur + ". ", s);
      } else {
        assert Feed(p, s, chunkSize, overlap) == Packer(p.chunks, s, p.end, p.end + |s|);
      }
    }
  }

  /** The branch that closes the current chunk keeps the invariant. */
  lemma FeedEmits(p: Packer, s: string, chunkSize: int, overlap: int)
    requires PackInv(p) && !IsBlank(s)
    requires |p.cur| + |s| > chunkSize && p.cur != []
    ensures PackInv(Feed(p, s, chunkSize, overlap))
  {
    var ot := OverlapText(p.cur, overlap);
    var c := SemChunk(Strip(p.cur), p.start, p.end);
    StripNonBlank(p.cur);
    NotBlankAfter(ot + " ", s);
    var q := Packer(p.chunks + [c], ot + " " + s, p.end - |ot|, p.end - |ot| + |ot + " " + s|);
    assert Feed(p, s, chunkSize, overlap) == q;
    assert ChunkOk(c) && p.start <= q.start;
    forall k | 0 <= k < |q.chunks|
      ensures ChunkOk(q.chunks[k]) && q.chunks[k].start <= q.start
    {
      if k < |p.chunks| {
        assert q.chunks[k] == p.chunks[k];
      }
    }
    forall j, k | 0 <= j < k < |q.chunks|
      ensures q.chunks[j].start <= q.chunks[k].start
    {
      assert q.chunks[j] == p.chunks[j];
      if k < |p.chunks| {
        assert q.chunks[k] == p.chunks[k];
      }
    }
  }

  lemma {:induction false} FeedAllKeeps(p: Packer, ss: seq<string>, chunkSize: int, overlap: int)
    requires PackInv(p)
    requires forall k :: 0 <= k < |ss| ==> ss[k] == [] || !IsBlank(ss[k])
    ensures PackInv(FeedAll(p, ss, chunkSize, overlap))
    decreases |ss|
  {
    if ss != [] {
      FeedKeeps(p, ss[0], chunkSize, overlap);
      assert forall k :: 0 <= k < |ss| - 1 ==> ss[1..][k] == ss[k + 1];
      FeedAllKeeps(Feed(p, ss[0], chunkSize, overlap), ss[1..], chunkSize, overlap);
    }
  }

  /**
   * A text that fits comes back as one chunk spanning [0, len). A longer text gives chunks that all
   * have non-empty text lying within their own [start, end) span, with starts that never decrease.
   */
  lemma SemanticChunksShape(text: string, chunkSize: int, overlap: int)
    ensures |text| <= chunkSize ==> SemanticChunks(text, chunkSize, overlap) == [SemChunk(text, 0, |text|)]
    ensures var r := SemanticChunks(text, chunkSize, overlap);
      |text| > chunkSize ==>
        (forall k :: 0 <= k < |r| ==> ChunkOk(r[k])) &&
        (forall j, k :: 0 <= j < k < |r| ==> r[j].start <= r[k].start)
  {
    if |text| > chunkSize {
      var ss := StripAll(SplitSentences(text));
      forall k | 0 <= k < |ss| ensures ss[k] == [] || !IsBlank(ss[k]) {
        StrippedNotBlank(SplitSentences(text)[k]);
      }
      FeedAllKeeps(Start, ss, chunkSize, overlap);
      var p := FeedAll(Start, ss, chunkSize, overlap);
      if p.cur != [] {
        StripNonBlank(p.cur);
      }
    }
  }

  // ---------------------------------------------------------------- build_document_chunks_enhanced

  type Json = EmbedChunked.Json

  /** The keys of a post record that the chunk builder reads. */
  datatype Post = Post(id: Json, logno: Json, url: Json, title: Json, content: Json, category: Json, date: Json)

  /** One chunk record. `piiCount` is present in the final variant only. */
  datatype EChunk = EChunk(
    id: string,
    text: string,
    embedText: string,
    title: string,
    url: Json,
    category: Json,
    date: Json,
    chunkIndex: nat,
    totalChunks: nat,
    originalId: Json,
    docHash: string,
    lang: Lang,
    startPos: int,
    endPos: int,
    piiCount: Option<nat>)

  /** `doc.get("id") or doc.get("logno") or doc.get("url", "unknown")` */
  function OriginalId(d: Post): Json
  {
    var id := EmbedChunked.Get(d.id);
    var logno := EmbedChunked.Get(d.logno);
    if EmbedChunked.Truthy(id) then id
    else if EmbedChunked.Truthy(logno) then logno
    else if d.url.Missing? then EmbedChunked.Str("unknown")
    else d.url
  }

  /** The f-string value of `doc.get("url", "")`. */
  function UrlText(url: Json): string
  {
    if url.Missing? then "" else EmbedChunked.PyStr(url)
  }

  /** generate_doc_hash */
  function DocHash(url: Json, clean: string, sha: Hashes.Sha256): string
  {
    sha(UrlText(url) + "|" + clean)
  }

  /** The text the id of chunk i is the digest of. */
  function ChunkIdInput(docHash: string, i: nat): string
  {
    docHash + "-" + NatToString(i)
  }

  /**
   * `(title + "\n\n" + content).strip()` over the stripped title and content; None when either is
   * a truthy non-string, whose strip() raises AttributeError.
   */
  function FullText(d: Post): (r: Option<string>)
    ensures r.None? <==> EmbedChunked.StripRaises(d.title) || EmbedChunked.StripRaises(d.content)
  {
    match (EmbedChunked.StripOr(d.title), EmbedChunked.StripOr(d.content))
    case (Some(title), Some(content)) => Some(Strip(title + "\n\n" + content))
    case _ => None
  }

  /** The chunk records of a post whose stripped title is `title` and whose cleaned text is `clean`. */
  function ChunkRecords(d: Post, title: string, clean: string, pii: Option<nat>, chunkSize: int, sha: Hashes.Sha256): seq<EChunk>
  {
    if clean == [] then []
    else
      var h := DocHash(d.url, clean, sha);
      var cs := SemanticChunks(clean, chunkSize, 50);
      seq(|cs|, i requires 0 <= i < |cs| =>
        EChunk(sha(ChunkIdInput(h, i)), cs[i].text, ToEmbedText(cs[i].text, false),
          title, EmbedChunked.Get(d.url), EmbedChunked.Get(d.category),
          EmbedChunked.Get(d.date), i, |cs|, OriginalId(d), h, DetectLanguage(clean),
          cs[i].start, cs[i].end, pii))
  }

  /**
   * build_document_chunks_enhanced of embed_to_chroma_final.py: None where the title or content
   * raises; otherwise the records of the cleaned text, the cleaner also counting masked PII.
   */
  function BuildFinal(d: Post, chunkSize: int, sha: Hashes.Sha256, cleanAdvanced: string -> (string, nat)): (r: Option<seq<EChunk>>)
    ensures r.None? <==> EmbedChunked.StripRaises(d.title) || EmbedChunked.StripRaises(d.content)
    ensures r.Some? ==>
      var (clean, pii) := cleanAdvanced(FullText(d).value);
      r.value == ChunkRecords(d, EmbedChunked.StripOr(d.title).value, clean, Some(pii), chunkSize, sha)
  {
    match FullText(d)
    case None => None
    case Some(full) =>
      var (clean, pii) := cleanAdvanced(full);
      Some(ChunkRecords(d, EmbedChunked.StripOr(d.title).value, clean, Some(pii), chunkSize, sha))
  }

  /** build_document_chunks_enhanced of the production and enhanced variants. */
  function BuildEnhanced(d: Post, chunkSize: int, sha: Hashes.Sha256, cleanAdvanced: string -> string): (r: Option<seq<EChunk>>)
    ensures r.None? <==> EmbedChunked.StripRaises(d.title) || EmbedChunked.StripRaises(d.content)
    ensures r.Some? ==>
      r.value == ChunkRecords(d, EmbedChunked.StripOr(d.title).value, cleanAdvanced(FullText(d).value), None, chunkSize, sha)
  {
    match FullText(d)
    case None => None
    case Some(full) => Some(ChunkRecords(d, EmbedChunked.StripOr(d.title).value, cleanAdvanced(full), None, chunkSize, sha))
  }

  /**
   * An empty cleaned text gives no chunks. Otherwise chunk i has id sha(doc_hash + "-" + i),
   * index i, the total count, the passage text of its chunk, the stripped title, and the post's
   * original id and hash.
   */
  lemma ChunkRecordsShape(d: Post, title: string, clean: string, pii: Option<nat>, chunkSize: int, sha: Hashes.Sha256)
    ensures clean == [] ==> ChunkRecords(d, title, clean, pii, chunkSize, sha) == []
    ensures var r := ChunkRecords(d, title, clean, pii, chunkSize, sha);
      clean != [] ==>
        |r| == |SemanticChunks(clean, chunkSize, 50)| &&
        forall i :: 0 <= i < |r| ==>
          && r[i].id == sha(ChunkIdInput(DocHash(d.url, clean, sha), i))
          && r[i].chunkIndex == i && r[i].totalChunks == |r|
          && r[i].text == SemanticChunks(clean, chunkSize, 50)[i].text
          && r[i].embedText == PassagePrefix + Strip(r[i].text)
          && r[i].title == title
          && r[i].originalId == OriginalId(d) && r[i].docHash == DocHash(d.url, clean, sha)
  {
  }

  /** Distinct chunk indices hash distinct inputs, so chunk ids collide only through the digest. */
  lemma ChunkIdInputsDistinct(docHash: string, i: nat, j: nat)
    requires i != j
    ensures ChunkIdInput(docHash, i) != ChunkIdInput(docHash, j)
  {
    if ChunkIdInput(docHash, i) == ChunkIdInput(docHash, j) {
      var p := docHash + "-";
      assert ChunkIdInput(docHash, i)[|p|..] == NatToString(i);
      assert ChunkIdInput(docHash, j)[|p|..] == NatToString(j);
      NatToStringInjective(i, j);
    }
  }

  /** The original id is never an absent key: a missing id, logno and url give "unknown". */
  lemma OriginalIdPresent(d: Post)
    ensures !OriginalId(d).Missing?
    ensures !EmbedChunked.Truthy(d.id) && !EmbedChunked.Truthy(d.logno) && d.url.Missing? ==>
      OriginalId(d) == EmbedChunked.Str("unknown")
  {
  }
}
