/**
 * src/ingest/embed_to_chroma_chunked.py: the sanitiser in front of the tokenizer, the
 * sentence-boundary windower create_chunks, the per-document chunk records, create_batches
 * and the split-and-retry fallback of safe_encode.
 */
module EmbedChunked {
  import opened Wrappers
  import opened Strings
  import opened Collections
  import UtilsText

  // ---------------------------------------------------------------- hard_sanitize

  /** s.replace(a, b) for one-character a and b. */
  function ReplaceChar(s: string, a: char, b: char): (r: string)
    ensures |r| == |s|
    ensures forall i :: 0 <= i < |s| ==> r[i] == if s[i] == a then b else s[i]
  {
    seq(|s|, i requires 0 <= i < |s| => if s[i] == a then b else s[i])
  }

  /** hard_sanitize: NUL and zero-width space become ' ', whitespace runs collapse, strip, cut to max_chars. */
  function HardSanitize(s: string, maxChars: int): string
  {
    Slice(Strip(CollapseSpaces(ReplaceChar(ReplaceChar(s, '\0', ' '), '\U{200B}', ' '))), 0, maxChars)
  }

  /**
   * The sanitised text is a prefix of the stripped, collapsed text; it is at most max_chars long,
   * holds neither NUL nor a zero-width space and does not start with whitespace.
   */
  lemma HardSanitizeShape(s: string, maxChars: int)
    ensures var c := CollapseSpaces(ReplaceChar(ReplaceChar(s, '\0', ' '), '\U{200B}', ' '));
      StartsWith(Strip(c), HardSanitize(s, maxChars))
    ensures maxChars >= 0 ==> |HardSanitize(s, maxChars)| <= maxChars
    ensures '\0' !in HardSanitize(s, maxChars) && '\U{200B}' !in HardSanitize(s, maxChars)
    ensures HardSanitize(s, maxChars) == [] || !IsSpace(HardSanitize(s, maxChars)[0])
  {
    var u := ReplaceChar(ReplaceChar(s, '\0', ' '), '\U{200B}', ' ');
    assert '\0' !in u && '\U{200B}' !in u;
    var c := CollapseSpaces(u);
    CollapseSpacesFrom(u);
    assert '\0' !in c && '\U{200B}' !in c;
    var t := Strip(c);
    StripKeeps(c);
    PrefixOf(t, maxChars);
  }

  /** strip() keeps only characters of its input and leaves no whitespace in front. */
  lemma StripKeeps(c: string)
    ensures forall i :: 0 <= i < |Strip(c)| ==> Strip(c)[i] in c
    ensures Strip(c) == [] || !IsSpace(Strip(c)[0])
  {
    StripShape(c);
    var k := LeadingSpaces(c);
    assert forall i :: 0 <= i < |Strip(c)| ==> Strip(c)[i] == c[k + i];
  }

  /** t[:n] is a prefix of t of at most n characters. */
  lemma PrefixOf(t: string, n: int)
    ensures StartsWith(t, Slice(t, 0, n)) && (n >= 0 ==> |Slice(t, 0, n)| <= n)
    ensures forall i :: 0 <= i < |Slice(t, 0, n)| ==> Slice(t, 0, n)[i] == t[i]
  {
  }

  // ---------------------------------------------------------------- create_chunks

  /** The highest index i in [lo, hi) with text[i] == c, or -1. */
  function LastIn(text: string, c: char, lo: nat, hi: nat): (r: int)
    requires hi <= |text|
    ensures r == -1 || (lo <= r < hi && text[r] == c)
    decreases hi
  {
    if hi <= lo then -1 else if text[hi - 1] == c then hi - 1 else LastIn(text, c, lo, hi - 1)
  }

  /** No c lies after the index LastIn finds, and none at all when it finds none. */
  lemma {:induction false} LastInIsLast(text: string, c: char, lo: nat, hi: nat, i: nat)
    requires hi <= |text| && lo <= i < hi && text[i] == c
    ensures lo <= LastIn(text, c, lo, hi) && i <= LastIn(text, c, lo, hi)
    decreases hi
  {
    if text[hi - 1] != c {
      LastInIsLast(text, c, lo, hi - 1, i);
    }
  }

  /** text.rfind(c, start, end), with start and end read as slice bounds. */
  function RFind(text: string, c: char, start: int, end: int): int
  {
    LastIn(text, c, Clamp(start, |text|), Clamp(end, |text|))
  }

  function Max(a: int, b: int): int { if a >= b then a else b }

  /**
   * The end of the window that starts at start: start + chunk_size, moved back to just after the
   * last '.', '?' or '!' inside the window when that lies beyond start + chunk_size // 2 and the
   * window does not reach the end of the text.
   */
  function CutEnd(text: string, chunkSize: int, start: nat): (r: int)
    ensures r == start + chunkSize || start + chunkSize / 2 + 2 <= r
    ensures start + chunkSize >= 0 ==> r <= start + chunkSize
  {
    var end := start + chunkSize;
    if end < |text| then
      var lastSentence := Max(Max(RFind(text, '.', start, end), RFind(text, '?', start, end)), RFind(text, '!', start, end));
      if lastSentence > start + chunkSize / 2 then lastSentence + 1 else end
    else end
  }

  /** The condition under which every window moves the start forward: overlap < min(chunk_size, chunk_size // 2 + 2). */
  predicate Advances(chunkSize: int, overlap: int)
  {
    overlap < chunkSize && overlap < chunkSize / 2 + 2
  }

  /** A window of the text: the slice bounds [start, end) of one chunk before stripping. */
  type Window = (nat, int)

  /**
   * The windows create_chunks visits from start on: each ends at CutEnd, and the next one starts
   * overlap before that end, until the start passes the end of the text.
   */
  function Windows(text: string, chunkSize: int, overlap: int, start: nat): seq<Window>
    requires Advances(chunkSize, overlap)
    decreases |text| - start
  {
    if start >= |text| then []
    else
      var end := CutEnd(text, chunkSize, start);
      [(start, end)] + Windows(text, chunkSize, overlap, end - overlap)
  }

  /** The stripped text of a window. */
  function Piece(text: string, w: Window): string
  {
    Strip(Slice(text, w.0, w.1))
  }

  /** The stripped text of every window, in order. */
  function Pieces(text: string, ws: seq<Window>): (r: seq<string>)
    ensures |r| == |ws|
  {
    seq(|ws|, k requires 0 <= k < |ws| => Piece(text, ws[k]))
  }

  /** The pieces that are not empty, in order. */
  function Kept(ps: seq<string>): seq<string>
  {
    if |ps| == 0 then []
    else Kept(ps[..|ps| - 1]) + (if |ps[|ps| - 1]| > 0 then [ps[|ps| - 1]] else [])
  }

  /** create_chunks: the text itself when it fits, else its non-blank stripped windows. */
  function CreateChunksSpec(text: string, chunkSize: int, overlap: int): seq<string>
    requires Advances(chunkSize, overlap)
  {
    if |text| <= chunkSize then [text] else Kept(Pieces(text, Windows(text, chunkSize, overlap, 0)))
  }

  /** create_chunks: the text itself when it fits, else the non-blank stripped windows in order. */
  method CreateChunks(text: string, chunkSize: int, overlap: int) returns (chunks: seq<string>)
    requires Advances(chunkSize, overlap)
    ensures chunks == CreateChunksSpec(text, chunkSize, overlap)
    ensures |text| <= chunkSize ==> chunks == [text]
  {
    if |text| <= chunkSize {
      return [text];
    }
    chunks := KeptWindows(text, chunkSize, overlap);
  }

  /** The while loop of create_chunks: walk the windows, keep the non-blank stripped ones. */
  method KeptWindows(text: string, chunkSize: int, overlap: int) returns (chunks: seq<string>)
    requires Advances(chunkSize, overlap)
    ensures chunks == Kept(Pieces(text, Windows(text, chunkSize, overlap, 0)))
  {
    var cut := (s: nat) => CutEnd(text, chunkSize, s);
    var piece := (w: Window) => Piece(text, w);
    CutAdvances(text, chunkSize, overlap, cut);
    chunks := KeepWalk(|text|, overlap, cut, piece);
    WindowsIsWalk(text, chunkSize, overlap, cut, 0);
    PiecesIsMap(text, piece, Windows(text, chunkSize, overlap, 0));
  }

  /** Every window of the walk moves the start forward. */
  lemma CutAdvances(text: string, chunkSize: int, overlap: int, cut: nat -> int)
    requires Advances(chunkSize, overlap)
    requires forall s: nat :: cut(s) == CutEnd(text, chunkSize, s)
    ensures forall s: nat :: s < |text| ==> s < cut(s) - overlap
  {
  }

  /**
   * The loop of create_chunks over any cut rule and any piece rule: each window
   * [start, cut(start)) gives piece((start, end)), kept when non-empty, and the next window starts
   * overlap before its end.
   */
  method KeepWalk(n: nat, overlap: int, cut: nat -> int, piece: Window -> string) returns (chunks: seq<string>)
    requires forall s: nat :: s < n ==> s < cut(s) - overlap
    ensures chunks == Kept(MapPieces(piece, Walk(n, overlap, cut, 0)))
  {
    chunks := [];
    var start: nat := 0;
    while start < n
      invariant WalkFrom(n, overlap, cut, piece, start, chunks) == WalkFrom(n, overlap, cut, piece, 0, [])
      decreases n - start
    {
      var end := cut(start);
      var chunk := piece((start, end));
      chunks := chunks + (if |chunk| > 0 then [chunk] else []);
      start := end - overlap;
    }
    WalkFromIs(n, overlap, cut, piece, 0, []);
    assert [] + Kept(MapPieces(piece, Walk(n, overlap, cut, 0))) == Kept(MapPieces(piece, Walk(n, overlap, cut, 0)));
  }

  /** The windows of the walk from start on under the cut rule. */
  function Walk(n: nat, overlap: int, cut: nat -> int, start: nat): seq<Window>
    requires forall s: nat :: s < n ==> s < cut(s) - overlap
    decreases n - start
  {
    if start >= n then [] else [(start, cut(start))] + Walk(n, overlap, cut, cut(start) - overlap)
  }

  /** The piece of every window, in order. */
  function MapPieces(piece: Window -> string, ws: seq<Window>): (r: seq<string>)
    ensures |r| == |ws|
  {
    seq(|ws|, k requires 0 <= k < |ws| => piece(ws[k]))
  }

  /** What the walk's loop ends with once it has reached start holding acc: the form its loop keeps. */
  function WalkFrom(n: nat, overlap: int, cut: nat -> int, piece: Window -> string, start: nat, acc: seq<string>): seq<string>
    requires forall s: nat :: s < n ==> s < cut(s) - overlap
    decreases n - start
  {
    if start >= n then acc
    else
      var p := piece((start, cut(start)));
      WalkFrom(n, overlap, cut, piece, cut(start) - overlap, acc + (if |p| > 0 then [p] else []))
  }

  /** The loop's accumulated form is the kept pieces of the windows from start on, after acc. */
  lemma {:induction false} WalkFromIs(n: nat, overlap: int, cut: nat -> int, piece: Window -> string, start: nat, acc: seq<string>)
    requires forall s: nat :: s < n ==> s < cut(s) - overlap
    ensures WalkFrom(n, overlap, cut, piece, start, acc) == acc + Kept(MapPieces(piece, Walk(n, overlap, cut, start)))
    decreases n - start
  {
    if start < n {
      var end := cut(start);
      var p := piece((start, end));
      var k := if |p| > 0 then [p] else [];
      var rest := Walk(n, overlap, cut, end - overlap);
      assert Walk(n, overlap, cut, start) == [(start, end)] + rest;
      assert WalkFrom(n, overlap, cut, piece, start, acc) == WalkFrom(n, overlap, cut, piece, end - overlap, acc + k);
      WalkFromIs(n, overlap, cut, piece, end - overlap, acc + k);
      WalkKeptStep(piece, (start, end), rest);
      AppendAssoc(acc, k, Kept(MapPieces(piece, rest)));
    } else {
      assert acc + [] == acc;
    }
  }

  /** Keeping the pieces of one more window in front. */
  lemma WalkKeptStep(piece: Window -> string, w: Window, ws: seq<Window>)
    ensures Kept(MapPieces(piece, [w] + ws)) == (if |piece(w)| > 0 then [piece(w)] else []) + Kept(MapPieces(piece, ws))
  {
    assert MapPieces(piece, [w] + ws) == [piece(w)] + MapPieces(piece, ws);
    KeptCons(piece(w), MapPieces(piece, ws));
  }

  /** create_chunks' windows are the walk under CutEnd. */
  lemma {:induction false} WindowsIsWalk(text: string, chunkSize: int, overlap: int, cut: nat -> int, start: nat)
    requires Advances(chunkSize, overlap)
    requires forall s: nat :: cut(s) == CutEnd(text, chunkSize, s)
    requires forall s: nat :: s < |text| ==> s < cut(s) - overlap
    ensures Windows(text, chunkSize, overlap, start) == Walk(|text|, overlap, cut, start)
    decreases |text| - start
  {
    if start < |text| {
      WindowsIsWalk(text, chunkSize, overlap, cut, CutEnd(text, chunkSize, start) - overlap);
    }
  }

  /** The stripped windows are the pieces under Piece. */
  lemma PiecesIsMap(text: string, piece: Window -> string, ws: seq<Window>)
    requires forall w :: piece(w) == Piece(text, w)
    ensures Pieces(text, ws) == MapPieces(piece, ws)
  {
  }

  lemma KeptCons(p: string, ps: seq<string>)
    ensures Kept([p] + ps) == (if |p| > 0 then [p] else []) + Kept(ps)
  {
    KeptAppend([p], ps);
    KeptSnoc([], p);
    assert [] + [p] == [p];
  }

  lemma KeptSnoc(ps: seq<string>, p: string)
    ensures Kept(ps + [p]) == Kept(ps) + (if |p| > 0 then [p] else [])
  {
    assert (ps + [p])[..|ps|] == ps;
  }

  /** Keeping the non-empty pieces of two runs is keeping those of each run. */
  lemma {:induction false} KeptAppend(a: seq<string>, b: seq<string>)
    ensures Kept(a + b) == Kept(a) + Kept(b)
    decreases |b|
  {
    if b == [] {
      assert a + b == a;
    } else {
      var b' := b[..|b| - 1];
      var x := b[|b| - 1];
      assert a + b == (a + b') + [x];
      KeptSnoc(a + b', x);
      KeptAppend(a, b');
      assert b == b' + [x];
      KeptSnoc(b', x);
    }
  }

  /**
   * The windows are consecutive: each starts inside the text and ends at CutEnd of its start, the
   * first starts at start, and each next one starts overlap before the previous one's end.
   */
  lemma {:induction false} WindowsShape(text: string, chunkSize: int, overlap: int, start: nat)
    requires Advances(chunkSize, overlap)
    ensures var ws := Windows(text, chunkSize, overlap, start);
      (ws == [] <==> start >= |text|) &&
      (ws != [] ==> ws[0].0 == start) &&
      (forall k :: 0 <= k < |ws| ==> start <= ws[k].0 < |text| && ws[k].1 == CutEnd(text, chunkSize, ws[k].0)) &&
      (forall k :: 0 <= k < |ws| - 1 ==> ws[k + 1].0 == ws[k].1 - overlap)
    decreases |text| - start
  {
    if start < |text| {
      var end := CutEnd(text, chunkSize, start);
      var ws := Windows(text, chunkSize, overlap, start);
      var rest := Windows(text, chunkSize, overlap, end - overlap);
      WindowsShape(text, chunkSize, overlap, end - overlap);
      assert ws == [(start, end)] + rest;
      assert forall k :: 1 <= k < |ws| ==> ws[k] == rest[k - 1];
    }
  }

  /** One window of the create_chunks loop: its end, cut at the last sentence mark when that is far enough in. */
  method WindowEnd(text: string, chunkSize: int, start: nat) returns (end: int)
    ensures end == CutEnd(text, chunkSize, start)
  {
    end := start + chunkSize;
    if end < |text| {
      var lastPeriod := RFind(text, '.', start, end);
      var lastQuestion := RFind(text, '?', start, end);
      var lastExclamation := RFind(text, '!', start, end);
      var lastSentence := Max(Max(lastPeriod, lastQuestion), lastExclamation);
      if lastSentence > start + chunkSize / 2 {
        end := lastSentence + 1;
      }
    }
  }

  /** What every chunk create_chunks emits satisfies: non-empty, no whitespace at either end, an infix of the text, at most chunk_size long. */
  ghost predicate GoodChunk(text: string, chunkSize: int, c: string)
  {
    c != [] && !IsSpace(c[0]) && !IsSpace(c[|c| - 1]) && (chunkSize >= 0 ==> |c| <= chunkSize) && exists p :: OccursAt(text, c, p)
  }

  /** A piece of a slice of text occurs in text. */
  lemma InfixOfSlice(text: string, x: nat, y: nat, k: nat, c: string)
    requires x <= y <= |text| && k + |c| <= y - x
    requires c == text[x..y][k..k + |c|]
    ensures OccursAt(text, c, x + k)
  {
    assert forall i :: 0 <= i < |c| ==> c[i] == text[x + k + i];
    assert c == text[x + k..x + k + |c|];
  }

  /** strip() of a slice of text is an infix of text no longer than the slice, with no whitespace at either end. */
  lemma StripOfInfix(text: string, x: nat, y: nat)
    requires x <= y <= |text|
    ensures exists p :: OccursAt(text, Strip(text[x..y]), p)
    ensures |Strip(text[x..y])| <= y - x
    ensures Strip(text[x..y]) == [] || (!IsSpace(Strip(text[x..y])[0]) && !IsSpace(Strip(text[x..y])[|Strip(text[x..y])| - 1]))
  {
    var w := text[x..y];
    StripShape(w);
    InfixOfSlice(text, x, y, LeadingSpaces(w), Strip(w));
  }

  /** A non-blank window that starts inside the text and ends at CutEnd gives a good chunk. */
  lemma WindowGood(text: string, chunkSize: int, w: Window)
    requires w.0 < |text| && w.1 == CutEnd(text, chunkSize, w.0)
    requires Piece(text, w) != []
    ensures GoodChunk(text, chunkSize, Piece(text, w))
  {
    var y := Clamp(w.1, |text|);
    assert Clamp(w.0, |text|) == w.0;
    assert w.0 < y && Slice(text, w.0, w.1) == text[w.0..y];
    StripOfInfix(text, w.0, y);
    if chunkSize >= 0 {
      assert y <= w.1;
    }
  }

  ghost predicate AllGood(text: string, chunkSize: int, cs: seq<string>)
  {
    forall i :: 0 <= i < |cs| ==> GoodChunk(text, chunkSize, cs[i])
  }

  /** When every non-empty piece is good, every kept piece is. */
  lemma {:induction false} KeptGood(text: string, chunkSize: int, ps: seq<string>)
    requires forall k :: 0 <= k < |ps| && ps[k] != [] ==> GoodChunk(text, chunkSize, ps[k])
    ensures AllGood(text, chunkSize, Kept(ps))
    decreases |ps|
  {
    if ps != [] {
      var p := ps[|ps| - 1];
      var front := Kept(ps[..|ps| - 1]);
      KeptGood(text, chunkSize, ps[..|ps| - 1]);
      if p != [] {
        assert Kept(ps) == front + [p];
        forall i | 0 <= i < |front| + 1 ensures GoodChunk(text, chunkSize, (front + [p])[i]) {
          if i < |front| {
            assert (front + [p])[i] == front[i];
          }
        }
      } else {
        assert Kept(ps) == front;
      }
    }
  }

  /** The chunks of a text longer than chunk_size are non-empty, stripped infixes of at most chunk_size characters. */
  lemma CreateChunksGood(text: string, chunkSize: int, overlap: int)
    requires Advances(chunkSize, overlap)
    requires |text| > chunkSize
    ensures AllGood(text, chunkSize, CreateChunksSpec(text, chunkSize, overlap))
  {
    var ws := Windows(text, chunkSize, overlap, 0);
    var ps := Pieces(text, ws);
    WindowsShape(text, chunkSize, overlap, 0);
    forall k | 0 <= k < |ps| && ps[k] != [] ensures GoodChunk(text, chunkSize, ps[k]) {
      WindowGood(text, chunkSize, ws[k]);
    }
    KeptGood(text, chunkSize, ps);
  }

  /** A text that starts with a non-space character yields at least one chunk. */
  lemma CreateChunksNonEmpty(text: string, chunkSize: int, overlap: int)
    requires Advances(chunkSize, overlap) && chunkSize >= 1
    requires text != [] && !IsSpace(text[0])
    ensures |CreateChunksSpec(text, chunkSize, overlap)| >= 1
  {
    if |text| > chunkSize {
      var ws := Windows(text, chunkSize, overlap, 0);
      WindowsShape(text, chunkSize, overlap, 0);
      var ps := Pieces(text, ws);
      assert ps[0] != [] by {
        var s := Slice(text, 0, ws[0].1);
        assert s == text[0..Clamp(ws[0].1, |text|)] && s[0] == text[0];
        StripShape(s);
        assert !IsBlank(s);
      }
      KeptFirstNonEmpty(ps);
    }
  }

  /** A non-empty first piece is kept. */
  lemma KeptFirstNonEmpty(ps: seq<string>)
    requires |ps| >= 1 && ps[0] != []
    ensures |Kept(ps)| >= 1
  {
    assert ps == [ps[0]] + ps[1..];
    KeptAppend([ps[0]], ps[1..]);
    KeptSnoc([], ps[0]);
    assert [] + [ps[0]] == [ps[0]];
  }

  /**
   * The termination condition is also necessary: whenever overlap >= min(chunk_size, chunk_size // 2 + 2)
   * some text longer than chunk_size makes the first window end no later than overlap, so the
   * loop does not move forward from 0.
   */
  lemma NoAdvanceWithoutBound(chunkSize: int, overlap: int)
    requires chunkSize >= 1 && !Advances(chunkSize, overlap)
    ensures exists text: string :: |text| > chunkSize && CutEnd(text, chunkSize, 0) - overlap <= 0
  {
    if overlap >= chunkSize {
      var text := seq(chunkSize + 1, _ => 'a');
      assert RFind(text, '.', 0, chunkSize) == -1;
      assert RFind(text, '?', 0, chunkSize) == -1;
      assert RFind(text, '!', 0, chunkSize) == -1;
      assert CutEnd(text, chunkSize, 0) == chunkSize;
    } else {
      var p := chunkSize / 2 + 1;
      var text := seq(chunkSize + 1, i => if i == p then '.' else 'a');
      assert text[p] == '.';
      LastInIsLast(text, '.', 0, chunkSize, p);
      assert RFind(text, '.', 0, chunkSize) == p;
      assert RFind(text, '?', 0, chunkSize) == -1;
      assert RFind(text, '!', 0, chunkSize) == -1;
      assert CutEnd(text, chunkSize, 0) == p + 1;
    }
  }

  // ---------------------------------------------------------------- build_document_chunks

  /** A JSON value as read by json.loads, as far as these fields go; Missing is an absent key. */
  datatype Json = Missing | Null | Str(s: string) | Int(n: int)

  /** Python truthiness of a JSON value. */
  predicate Truthy(j: Json)
  {
    match j
    case Str(s) => s != []
    case Int(n) => n != 0
    case _ => false
  }

  /** doc.get(key): None for an absent key. */
  function Get(j: Json): Json
  {
    if j.Missing? then Null else j
  }

  /** str(value) */
  function PyStr(j: Json): string
  {
    match j
    case Str(s) => s
    case Int(n) => IntToString(n)
    case _ => "None"
  }

  /** A truthy value that is not a string has no strip(): `(v or "").strip()` raises AttributeError. */
  predicate StripRaises(j: Json)
  {
    Truthy(j) && !j.Str?
  }

  /** `(doc.get(key) or "").strip()` for a text field; None where it raises AttributeError. */
  function StripOr(j: Json): (r: Option<string>)
    ensures r.None? <==> StripRaises(j)
    ensures j.Str? ==> r == Some(Strip(j.s))
    ensures !j.Str? && !Truthy(j) ==> r == Some("")
  {
    if j.Str? then Some(Strip(j.s)) else if Truthy(j) then None else Some("")
  }

  datatype Doc = Doc(id: Json, logno: Json, url: Json, title: Json, contentText: Json, category: Json, date: Json)

  datatype ChunkDoc = ChunkDoc(
    id: string, text: string, title: string, url: Json, category: Json, date: Json,
    chunkIndex: nat, totalChunks: nat, originalId: Json)

  /** The characters this file's clean_text keeps: \w, whitespace, Hangul and .,!?;:() */
  predicate KeptHere(c: char)
  {
    IsWordChar(c) || IsSpace(c) || c in ".,!?;:()"
  }

  /** clean_text of this file: collapse whitespace runs, drop other characters, then strip. */
  function CleanText(text: string): string
  {
    Strip(KeepChars(CollapseSpaces(text), KeptHere))
  }

  /** The cleaned "title\n\ncontent" text that is chunked; None when the title or the content raises. */
  function FullText(doc: Doc): (r: Option<string>)
    ensures r.None? <==> StripRaises(doc.title) || StripRaises(doc.contentText)
  {
    match (StripOr(doc.title), StripOr(doc.contentText))
    case (Some(title), Some(content)) => Some(CleanText(Strip(title + "\n\n" + content)))
    case _ => None
  }

  /** doc.get("id") or doc.get("logno") or doc.get("url", "unknown") */
  function OriginalId(doc: Doc): Json
  {
    if Truthy(doc.id) then doc.id
    else if Truthy(doc.logno) then doc.logno
    else if doc.url.Missing? then Str("unknown")
    else doc.url
  }

  /** re.sub(r'[^\w\-_]', '_', s) */
  function SafeId(s: string): (r: string)
    ensures |r| == |s|
    ensures forall i :: 0 <= i < |r| ==> IsWordChar(r[i]) || r[i] == '-'
  {
    seq(|s|, i requires 0 <= i < |s| => if IsWordChar(s[i]) || s[i] == '-' then s[i] else '_')
  }

  function ChunkId(doc: Doc, i: nat): string
  {
    SafeId(PyStr(OriginalId(doc))) + "_chunk_" + NatToString(i)
  }

  /** The record of the i-th of total chunks of doc. */
  function ChunkRecord(doc: Doc, title: string, text: string, i: nat, total: nat): ChunkDoc
  {
    ChunkDoc(ChunkId(doc, i), text, title, Get(doc.url), Get(doc.category), Get(doc.date),
      i, total, OriginalId(doc))
  }

  /** The record loop of build_document_chunks: one record per chunk, numbered from 0. */
  method ChunkRecords(doc: Doc, title: string, chunks: seq<string>) returns (r: seq<ChunkDoc>)
    ensures |r| == |chunks|
    ensures forall i :: 0 <= i < |r| ==> r[i] == ChunkRecord(doc, title, chunks[i], i, |chunks|)
  {
    r := [];
    for i := 0 to |chunks|
      invariant |r| == i
      invariant forall k :: 0 <= k < i ==> r[k] == ChunkRecord(doc, title, chunks[k], k, |chunks|)
    {
      r := r + [ChunkRecord(doc, title, chunks[i], i, |chunks|)];
    }
  }

  /**
   * build_document_chunks with its default window. A truthy title or content_text that is not a
   * string raises AttributeError (None). Otherwise there are no records for a document whose cleaned
   * text is empty, and one record per window of create_chunks, in order, numbered from 0.
   */
  method BuildDocumentChunks(doc: Doc, chunkSize: int) returns (r: Option<seq<ChunkDoc>>)
    requires Advances(chunkSize, 50)
    ensures r.None? <==> StripRaises(doc.title) || StripRaises(doc.contentText)
    ensures FullText(doc) == Some([]) ==> r == Some([])
    ensures FullText(doc).Some? && FullText(doc).value != [] ==>
      var cs := CreateChunksSpec(FullText(doc).value, chunkSize, 50);
      r.Some? && |r.value| == |cs| && forall i :: 0 <= i < |cs| ==>
        && r.value[i].id == ChunkId(doc, i) && r.value[i].text == cs[i]
        && r.value[i].chunkIndex == i && r.value[i].totalChunks == |cs|
        && r.value[i].title == StripOr(doc.title).value && r.value[i].originalId == OriginalId(doc)
        && r.value[i].url == Get(doc.url) && r.value[i].category == Get(doc.category) && r.value[i].date == Get(doc.date)
  {
    var title := StripOr(doc.title);
    var content := StripOr(doc.contentText);
    if title.None? || content.None? {
      return None;
    }
    var fullText := CleanText(Strip(title.value + "\n\n" + content.value));
    if fullText == [] {
      return Some([]);
    }
    var chunks := CreateChunks(fullText, chunkSize, 50);
    var records := ChunkRecords(doc, title.value, chunks);
    r := Some(records);
  }

  /** The chunk ids of one document are pairwise distinct. */
  lemma ChunkIdsDistinct(doc: Doc, i: nat, j: nat)
    requires i != j
    ensures ChunkId(doc, i) != ChunkId(doc, j)
  {
    var u := SafeId(PyStr(OriginalId(doc))) + "_chunk_";
    if NatToString(i) == NatToString(j) { NatToStringInjective(i, j); }
    assert ChunkId(doc, i)[|u|..] == NatToString(i);
    assert ChunkId(doc, j)[|u|..] == NatToString(j);
  }

  /** A document with a non-empty cleaned text gets at least one chunk (the cleaned text is stripped). */
  lemma BuildDocumentChunksNonEmpty(doc: Doc, chunkSize: int)
    requires Advances(chunkSize, 50)
    requires FullText(doc).Some? && FullText(doc).value != []
    ensures |CreateChunksSpec(FullText(doc).value, chunkSize, 50)| >= 1
  {
    var joined := Strip(StripOr(doc.title).value + "\n\n" + StripOr(doc.contentText).value);
    StripShape(KeepChars(CollapseSpaces(joined), KeptHere));
    CreateChunksNonEmpty(FullText(doc).value, chunkSize, 50);
  }

  // ---------------------------------------------------------------- create_batches

  /** The effective batch length: `len(buf) >= size` is met after every append once size <= 1. */
  function BatchSize(size: int): (k: nat)
    ensures k >= 1
  {
    if size < 1 then 1 else size
  }

  /** The batches create_batches yields. */
  function Batches<T>(xs: seq<T>, size: int): (r: seq<seq<T>>)
    decreases |xs|
  {
    var k := BatchSize(size);
    if |xs| == 0 then [] else if |xs| <= k then [xs] else [xs[..k]] + Batches(xs[k..], size)
  }

  /** bs concatenates to xs, every batch has 1..k items, and every batch but the last exactly k. */
  predicate WellBatched<T(==)>(bs: seq<seq<T>>, xs: seq<T>, k: nat)
  {
    Concat(bs) == xs
    && (forall i :: 0 <= i < |bs| ==> 1 <= |bs[i]| <= k)
    && (forall i :: 0 <= i < |bs| - 1 ==> |bs[i]| == k)
  }

  /** The batches concatenate back to the input; all but the last are full and none is empty. */
  lemma {:induction false} BatchesWellBatched<T>(xs: seq<T>, size: int)
    ensures WellBatched(Batches(xs, size), xs, BatchSize(size))
    decreases |xs|
  {
    var k := BatchSize(size);
    if |xs| == 0 {
    } else if |xs| <= k {
      ConcatCons(xs, []);
      assert xs + [] == xs;
    } else {
      BatchesWellBatched(xs[k..], size);
      ConcatCons(xs[..k], Batches(xs[k..], size));
      assert xs[..k] + xs[k..] == xs;
    }
  }

  /** These three conditions determine the batches: any sequence meeting them is Batches(xs, size). */
  lemma {:induction false} BatchesUnique<T>(bs: seq<seq<T>>, xs: seq<T>, size: int)
    requires WellBatched(bs, xs, BatchSize(size))
    ensures bs == Batches(xs, size)
    decreases |xs|
  {
    var k := BatchSize(size);
    if bs == [] {
    } else {
      ConcatCons(bs[0], bs[1..]);
      assert [bs[0]] + bs[1..] == bs;
      if |bs| == 1 {
        assert Concat(bs[1..]) == [];
        assert bs[0] + [] == bs[0];
      } else {
        assert |bs[1..][0]| >= 1;
        ConcatCons(bs[1..][0], bs[2..]);
        assert [bs[1..][0]] + bs[2..] == bs[1..];
        assert |xs| > k;
        assert xs[..k] == bs[0] && xs[k..] == Concat(bs[1..]);
        assert forall i :: 0 <= i < |bs[1..]| - 1 ==> |bs[1..][i]| == k by {
          forall i | 0 <= i < |bs[1..]| - 1 ensures |bs[1..][i]| == k {
            assert bs[1..][i] == bs[i + 1];
          }
        }
        BatchesUnique(bs[1..], xs[k..], size);
      }
    }
  }

  /** create_batches(it, size) */
  method CreateBatches<T(==)>(xs: seq<T>, size: int) returns (bs: seq<seq<T>>)
    ensures WellBatched(bs, xs, BatchSize(size))
    ensures bs == Batches(xs, size)
  {
    var k := BatchSize(size);
    bs := [];
    var buf: seq<T> := [];
    for i := 0 to |xs|
      invariant Concat(bs) + buf == xs[..i]
      invariant forall j :: 0 <= j < |bs| ==> |bs[j]| == k
      invariant |buf| < k
    {
      assert xs[..i + 1] == xs[..i] + [xs[i]];
      buf := buf + [xs[i]];
      if |buf| >= size {
        bs := bs + [buf];
        buf := [];
      }
    }
    assert xs[..|xs|] == xs;
    if buf != [] {
      bs := bs + [buf];
    } else {
      assert Concat(bs) + [] == Concat(bs);
    }
    BatchesUnique(bs, xs, size);
  }

  // ---------------------------------------------------------------- safe_encode

  type Vec = seq<real>

  /**
   * The embedding model: its answer to the attempt-th call on these texts, None when that call raises.
   * A model is free to fail transiently, so the answer may depend on the attempt.
   */
  type Encoder = (seq<string>, nat) -> Option<seq<Vec>>

  /** np.zeros(dim) */
  function Zeros(dim: nat): Vec
  {
    seq(dim, _ => 0.0)
  }

  /** The per-sample clean-up before the retries: zero-width space and NUL become ' ', cut to 4000 characters. */
  function SampleText(s: string): string
  {
    var t := ReplaceChar(ReplaceChar(s, '\U{200B}', ' '), '\0', ' ');
    if |t| > 4000 then t[..4000] else t
  }

  /** The first of attempts k..n-1 on [s] that returns a row, if any; an empty answer raises IndexError. */
  function FirstTry(enc: Encoder, s: string, k: nat, n: nat): Option<Vec>
    decreases n - k
  {
    if k >= n then None
    else match enc([s], k)
      case Some(rows) => if |rows| >= 1 then Some(rows[0]) else FirstTry(enc, s, k + 1, n)
      case None => FirstTry(enc, s, k + 1, n)
  }

  function Tries(maxRetries: int): nat
  {
    if maxRetries + 1 < 0 then 0 else maxRetries + 1
  }

  /** The vector safe_encode's fallback produces for one sample: the first successful try, else zeros. */
  function SampleVec(enc: Encoder, s: string, maxRetries: int, dim: nat): Vec
  {
    match FirstTry(enc, SampleText(s), 0, Tries(maxRetries))
    case Some(v) => v
    case None => Zeros(dim)
  }

  /** One fallback vector per sample, in the order of the samples. */
  function SampleVecs(enc: Encoder, ts: seq<string>, maxRetries: int, dim: nat): (r: seq<Vec>)
    ensures |r| == |ts|
  {
    if ts == [] then [] else SampleVecs(enc, ts[..|ts| - 1], maxRetries, dim) + [SampleVec(enc, ts[|ts| - 1], maxRetries, dim)]
  }

  lemma {:induction false} SampleVecsAt(enc: Encoder, ts: seq<string>, maxRetries: int, dim: nat, i: nat)
    requires i < |ts|
    ensures SampleVecs(enc, ts, maxRetries, dim)[i] == SampleVec(enc, ts[i], maxRetries, dim)
    decreases |ts|
  {
    if i < |ts| - 1 {
      SampleVecsAt(enc, ts[..|ts| - 1], maxRetries, dim, i);
    }
  }

  lemma {:induction false} SampleVecsAppend(enc: Encoder, a: seq<string>, b: seq<string>, maxRetries: int, dim: nat)
    ensures SampleVecs(enc, a + b, maxRetries, dim) == SampleVecs(enc, a, maxRetries, dim) + SampleVecs(enc, b, maxRetries, dim)
    decreases |b|
  {
    if b == [] {
      assert a + b == a;
    } else {
      var init := b[..|b| - 1];
      assert (a + b)[..|a + b| - 1] == a + init;
      SampleVecsAppend(enc, a, init, maxRetries, dim);
    }
  }

  /** The retry loop on one sample. */
  method RetrySample(enc: Encoder, s: string, maxRetries: int, dim: nat) returns (v: Vec)
    ensures v == SampleVec(enc, s, maxRetries, dim)
  {
    var t := ReplaceChar(ReplaceChar(s, '\U{200B}', ' '), '\0', ' ');
    if |t| > 4000 {
      t := t[..4000];
    }
    var n := Tries(maxRetries);
    var k := 0;
    while k < n
      invariant 0 <= k <= n
      invariant FirstTry(enc, t, k, n) == FirstTry(enc, t, 0, n)
      decreases n - k
    {
      var answer := enc([t], k);
      if answer.Some? && |answer.value| >= 1 {
        return answer.value[0];
      }
      k := k + 1;
    }
    return Zeros(dim);
  }

  /** The texts after hard_sanitize with its default limit. */
  function Sanitized(texts: seq<string>): (r: seq<string>)
    ensures |r| == |texts|
  {
    seq(|texts|, i requires 0 <= i < |texts| => HardSanitize(texts[i], 4000))
  }

  predicate NoEmpty(pending: seq<seq<string>>)
  {
    forall k :: 0 <= k < |pending| ==> pending[k] != []
  }

  lemma {:induction false} ConcatLength(pending: seq<seq<string>>)
    requires NoEmpty(pending)
    ensures |Concat(pending)| >= |pending|
    decreases |pending|
  {
    if pending != [] {
      ConcatLength(pending[..|pending| - 1]);
    }
  }

  /** The concatenation of a stack read from the top down. */
  function TopDown(pending: seq<seq<string>>): seq<string>
  {
    if pending == [] then [] else pending[|pending| - 1] + TopDown(pending[..|pending| - 1])
  }

  lemma {:induction false} TopDownLength(pending: seq<seq<string>>)
    requires NoEmpty(pending)
    ensures |TopDown(pending)| >= |pending|
    decreases |pending|
  {
    if pending != [] {
      TopDownLength(pending[..|pending| - 1]);
    }
  }

  /** Appending one sample appends its vector. */
  lemma SampleVecSnoc(enc: Encoder, done: seq<string>, t: string, maxRetries: int, dim: nat)
    ensures SampleVecs(enc, done + [t], maxRetries, dim) == SampleVecs(enc, done, maxRetries, dim) + [SampleVec(enc, t, maxRetries, dim)]
  {
    assert (done + [t])[..|done|] == done;
  }

  /** Popping a single sample off the stack of the as-written loop. */
  lemma PopOneAsWritten(pending: seq<seq<string>>, done: seq<string>, ts: seq<string>)
    requires pending != [] && NoEmpty(pending) && |pending[|pending| - 1]| == 1
    requires Concat(pending) + Reverse(done) == ts
    ensures var below := pending[..|pending| - 1]; var s := pending[|pending| - 1][0];
      NoEmpty(below) && Concat(below) + Reverse(done + [s]) == ts
      && 2 * |Concat(below)| - |below| < 2 * |Concat(pending)| - |pending|
  {
    var below := pending[..|pending| - 1];
    var s := pending[|pending| - 1][0];
    NoEmptyInit(pending);
    assert pending == below + [[s]] by {
      assert pending[|pending| - 1] == [s];
      assert pending == below + [pending[|pending| - 1]];
    }
    assert Concat(pending) == Concat(below) + [s] by {
      ConcatSnocOne(below, s);
    }
    assert Concat(below) + Reverse(done + [s]) == ts by {
      ReverseAppendOne(done, s);
      AppendAssoc(Concat(below), [s], Reverse(done));
    }
  }

  lemma AppendAssoc<T>(a: seq<T>, b: seq<T>, c: seq<T>)
    ensures a + (b + c) == (a + b) + c
  {
  }

  /** A one-element block at the end adds its element last. */
  lemma ConcatSnocOne<T>(bs: seq<seq<T>>, x: T)
    ensures Concat(bs + [[x]]) == Concat(bs) + [x]
  {
    assert (bs + [[x]])[..|bs|] == bs;
  }

  /** Popping the top piece keeps the rest of the stack free of empty pieces. */
  lemma NoEmptyInit(pending: seq<seq<string>>)
    requires pending != [] && NoEmpty(pending)
    ensures NoEmpty(pending[..|pending| - 1])
  {
    assert forall k :: 0 <= k < |pending| - 1 ==> pending[..|pending| - 1][k] == pending[k];
  }

  /** Reversing after one more element puts it first. */
  lemma ReverseAppendOne<T>(s: seq<T>, x: T)
    ensures Reverse(s + [x]) == [x] + Reverse(s)
  {
    assert (s + [x])[..|s|] == s;
  }

  /** Splitting the top piece of the as-written stack: left half pushed first, right half last. */
  lemma SplitAsWritten(pending: seq<seq<string>>)
    requires pending != [] && NoEmpty(pending) && |pending[|pending| - 1]| >= 2
    ensures var below := pending[..|pending| - 1]; var cur := pending[|pending| - 1]; var mid := |cur| / 2;
      var next := below + [cur[..mid], cur[mid..]];
      NoEmpty(next) && Concat(next) == Concat(pending)
      && 0 <= 2 * |Concat(next)| - |next| < 2 * |Concat(pending)| - |pending|
  {
    var below := pending[..|pending| - 1];
    var cur := pending[|pending| - 1];
    var mid := |cur| / 2;
    var next := below + [cur[..mid], cur[mid..]];
    assert Concat(pending) == Concat(below) + cur;
    assert next[..|next| - 1] == below + [cur[..mid]];
    assert (below + [cur[..mid]])[..|below|] == below;
    assert Concat(next) == Concat(below) + cur[..mid] + cur[mid..];
    assert cur[..mid] + cur[mid..] == cur;
    ConcatLength(next);
  }

  /**
   * The fallback loop of safe_encode as written: a stack of pieces, each split in halves with the
   * right half pushed last, so popped first, down to single samples.
   */
  method FallbackAsWritten(enc: Encoder, ts: seq<string>, maxRetries: int, dim: nat) returns (out: seq<Vec>)
    requires ts != []
    ensures out == SampleVecs(enc, Reverse(ts), maxRetries, dim)
  {
    var pending := [ts];
    out := [];
    ghost var done: seq<string> := [];
    assert Concat(pending) == ts by { assert pending[..0] == []; }
    while pending != []
      invariant NoEmpty(pending)
      invariant Concat(pending) + Reverse(done) == ts
      invariant out == SampleVecs(enc, done, maxRetries, dim)
      decreases 2 * |Concat(pending)| - |pending|
    {
      ConcatLength(pending);
      var cur := pending[|pending| - 1];
      if |cur| == 1 {
        var v := RetrySample(enc, cur[0], maxRetries, dim);
        PopOneAsWritten(pending, done, ts);
        SampleVecSnoc(enc, done, cur[0], maxRetries, dim);
        pending := pending[..|pending| - 1];
        done := done + [cur[0]];
        out := out + [v];
      } else {
        var mid := |cur| / 2;
        SplitAsWritten(pending);
        pending := pending[..|pending| - 1] + [cur[..mid], cur[mid..]];
      }
    }
    assert Reverse(done) == ts;
    ReverseReverse(done);
  }

  lemma {:induction false} ReverseSnoc<T>(s: seq<T>, x: T)
    ensures Reverse([x] + s) == Reverse(s) + [x]
    decreases |s|
  {
    if s != [] {
      assert ([x] + s)[..|s|] == [x] + s[..|s| - 1];
      ReverseSnoc(s[..|s| - 1], x);
    }
  }

  /** Reversing twice gives the sequence back. */
  lemma {:induction false} ReverseReverse<T>(s: seq<T>)
    ensures Reverse(Reverse(s)) == s
    decreases |s|
  {
    if s != [] {
      var init := s[..|s| - 1];
      ReverseReverse(init);
      ReverseSnoc(Reverse(init), s[|s| - 1]);
      assert init + [s[|s| - 1]] == s;
    }
  }

  /**
   * safe_encode as written: one call on the whole sanitised batch; when it raises, the fallback
   * encodes the samples one by one, last sample first.
   */
  method SafeEncodeAsWritten(enc: Encoder, texts: seq<string>, maxRetries: int, dim: nat) returns (out: seq<Vec>)
    requires texts != [] || enc([], 0).Some?
    ensures enc(Sanitized(texts), 0).Some? ==> out == enc(Sanitized(texts), 0).value
    ensures enc(Sanitized(texts), 0).None? ==> out == SampleVecs(enc, Reverse(Sanitized(texts)), maxRetries, dim)
  {
    var ts := Sanitized(texts);
    var first := enc(ts, 0);
    if first.Some? {
      return first.value;
    }
    out := FallbackAsWritten(enc, ts, maxRetries, dim);
  }

  /** Two samples whose batch call raised come back from the as-written fallback in reverse order. */
  lemma FallbackAsWrittenReverses()
    ensures var enc: Encoder := (xs: seq<string>, k: nat) =>
        if |xs| == 1 then Some([[if xs[0] == "a" then 1.0 else 2.0]]) else None;
      SampleVecs(enc, Reverse(["a", "b"]), 2, 1) == [[2.0], [1.0]]
      && SampleVecs(enc, ["a", "b"], 2, 1) == [[1.0], [2.0]]
  {
    var enc: Encoder := (xs: seq<string>, k: nat) =>
      if |xs| == 1 then Some([[if xs[0] == "a" then 1.0 else 2.0]]) else None;
    assert Reverse(["a", "b"]) == ["b", "a"];
    assert SampleText("a") == "a" && SampleText("b") == "b";
    assert SampleVec(enc, "a", 2, 1) == [1.0];
    assert SampleVec(enc, "b", 2, 1) == [2.0];
    SampleVecSnoc(enc, ["a"], "b", 2, 1);
    SampleVecSnoc(enc, ["b"], "a", 2, 1);
  }

  /** Popping a single sample off the stack of the corrected loop. */
  lemma PopOne(pending: seq<seq<string>>, done: seq<string>, ts: seq<string>)
    requires pending != [] && NoEmpty(pending) && |pending[|pending| - 1]| == 1
    requires done + TopDown(pending) == ts
    ensures var below := pending[..|pending| - 1]; var s := pending[|pending| - 1][0];
      NoEmpty(below) && (done + [s]) + TopDown(below) == ts
      && 2 * |TopDown(below)| - |below| < 2 * |TopDown(pending)| - |pending|
  {
    var below := pending[..|pending| - 1];
    var cur := pending[|pending| - 1];
    assert TopDown(pending) == cur + TopDown(below);
    assert cur == [cur[0]];
  }

  /** Splitting the top piece of the corrected stack: right half pushed first, left half last. */
  lemma Split(pending: seq<seq<string>>)
    requires pending != [] && NoEmpty(pending) && |pending[|pending| - 1]| >= 2
    ensures var below := pending[..|pending| - 1]; var cur := pending[|pending| - 1]; var mid := |cur| / 2;
      var next := below + [cur[mid..], cur[..mid]];
      NoEmpty(next) && TopDown(next) == TopDown(pending)
      && 0 <= 2 * |TopDown(next)| - |next| < 2 * |TopDown(pending)| - |pending|
  {
    var below := pending[..|pending| - 1];
    var cur := pending[|pending| - 1];
    var mid := |cur| / 2;
    var next := below + [cur[mid..], cur[..mid]];
    assert TopDown(pending) == cur + TopDown(below);
    assert next[..|next| - 1] == below + [cur[mid..]];
    assert (below + [cur[mid..]])[..|below|] == below;
    assert TopDown(next) == cur[..mid] + (cur[mid..] + TopDown(below));
    assert cur[..mid] + cur[mid..] == cur;
    TopDownLength(next);
  }

  /** The fallback loop with the left half pushed last, so the samples are encoded left to right. */
  method Fallback(enc: Encoder, ts: seq<string>, maxRetries: int, dim: nat) returns (out: seq<Vec>)
    requires ts != []
    ensures out == SampleVecs(enc, ts, maxRetries, dim)
  {
    var pending := [ts];
    out := [];
    ghost var done: seq<string> := [];
    assert TopDown(pending) == ts by { assert pending[..0] == []; }
    while pending != []
      invariant NoEmpty(pending)
      invariant done + TopDown(pending) == ts
      invariant out == SampleVecs(enc, done, maxRetries, dim)
      decreases 2 * |TopDown(pending)| - |pending|
    {
      TopDownLength(pending);
      var cur := pending[|pending| - 1];
      if |cur| == 1 {
        var v := RetrySample(enc, cur[0], maxRetries, dim);
        PopOne(pending, done, ts);
        SampleVecSnoc(enc, done, cur[0], maxRetries, dim);
        pending := pending[..|pending| - 1];
        done := done + [cur[0]];
        out := out + [v];
      } else {
        var mid := |cur| / 2;
        Split(pending);
        pending := pending[..|pending| - 1] + [cur[mid..], cur[..mid]];
      }
    }
    assert done + [] == done;
  }

  /**
   * safe_encode with the evidently intended order: one call on the whole sanitised batch, and when it
   * raises one vector per sample, in the order of the texts.
   */
  method SafeEncode(enc: Encoder, texts: seq<string>, maxRetries: int, dim: nat) returns (out: seq<Vec>)
    requires texts != [] || enc([], 0).Some?
    ensures enc(Sanitized(texts), 0).Some? ==> out == enc(Sanitized(texts), 0).value
    ensures enc(Sanitized(texts), 0).None? ==> out == SampleVecs(enc, Sanitized(texts), maxRetries, dim)
    ensures enc(Sanitized(texts), 0).None? ==> |out| == |texts|
  {
    var ts := Sanitized(texts);
    var first := enc(ts, 0);
    if first.Some? {
      return first.value;
    }
    out := Fallback(enc, ts, maxRetries, dim);
  }
}
