/**
 * src/utils/utils_text.py: text cleaning, the fixed-window chunker, the content hash,
 * category names and title extraction.
 */
module UtilsText {
  import opened Wrappers
  import opened Strings
  import Hashes

  /** The Hangul syllables 가-힣. */
  predicate IsHangulSyllable(c: char)
  {
    '\U{AC00}' <= c <= '\U{D7A3}'
  }

  /** The characters clean_text keeps: word characters, whitespace, Hangul and .,!?;:()[]{}"'- */
  predicate KeptByClean(c: char)
  {
    IsWordChar(c) || IsSpace(c) || c in ".,!?;:()[]{}\"'-"
  }

  /** clean_text: strip, collapse whitespace runs to one space, drop every other character. */
  function CleanText(text: string): (r: string)
    ensures |r| <= |text|
  {
    if text == "" then "" else KeepChars(CollapseSpaces(Strip(text)), KeptByClean)
  }

  /** clean_text keeps only the allowed characters and leaves no whitespace other than ' '. */
  lemma CleanTextChars(text: string)
    ensures forall i :: 0 <= i < |CleanText(text)| ==> KeptByClean(CleanText(text)[i])
    ensures forall i :: 0 <= i < |CleanText(text)| && IsSpace(CleanText(text)[i]) ==> CleanText(text)[i] == ' '
  {
    if text != "" {
      var c := CollapseSpaces(Strip(text));
      CollapseSpacesShape(Strip(text));
      KeepCharsFrom(c, KeptByClean);
    }
  }

  // ---------------------------------------------------------------- split_chunks

  /** range(0, len, step) with step == 0 raises ValueError. */
  datatype ChunkError = ZeroStep

  /** text[i:i+max] for 0 <= i <= len(text), with Python's treatment of a negative or too large end. */
  function Window(t: string, i: nat, max: int): (w: string)
    requires i <= |t|
    ensures 0 <= max ==> w == t[i .. Min(|t|, i + max)]
  {
    var b := i + max;
    var e := if b >= |t| then |t| else if b >= 0 then (if b <= i then i else b)
             else if b + |t| <= i then i else b + |t|;
    t[i..e]
  }

  /**
   * The windows text[i:i+max], text[i+step:i+step+max], ... that the loop of split_chunks
   * visits, stopping after the first window that reaches the end of the text.
   */
  function Windows(t: string, max: int, step: int, i: nat): seq<string>
    requires step > 0
    decreases |t| - i
  {
    if i >= |t| then []
    else if i + max >= |t| then [Window(t, i, max)]
    else [Window(t, i, max)] + Windows(t, max, step, i + step)
  }

  /** A window survives the `if chunk.strip()` test unless it is whitespace-only. */
  function KeepOne(c: string): seq<string>
  {
    if IsBlank(c) then [] else [c]
  }

  /** The windows that are not whitespace-only, in order. */
  function DropBlank(ws: seq<string>): (r: seq<string>)
    ensures forall k :: 0 <= k < |r| ==> !IsBlank(r[k]) && r[k] in ws
    ensures |r| <= |ws|
  {
    if ws == [] then [] else KeepOne(ws[0]) + DropBlank(ws[1..])
  }

  /** What split_chunks(text, max_tokens, overlap) returns. */
  function SplitChunksSpec(text: string, maxTokens: int, overlap: int): Result<seq<string>, ChunkError>
  {
    if text == "" then Ok([""]) else ChunkCleaned(CleanText(text), maxTokens, overlap)
  }

  /** split_chunks after the text has been cleaned. */
  function ChunkCleaned(t: string, maxTokens: int, overlap: int): Result<seq<string>, ChunkError>
  {
    if |t| <= maxTokens then Ok([t])
    else
      var step := maxTokens - overlap;
      if step == 0 then Err(ZeroStep)
      else
        var kept := if step < 0 then [] else DropBlank(Windows(t, maxTokens, step, 0));
        Ok(if kept == [] then [t] else kept)
  }

  /**
   * The windows the loop visits, for any window function win over a text of length n: the one at
   * i, then those from i + step on unless the one at i reaches the end.
   */
  function WinSeq(n: nat, max: int, step: int, win: nat -> string, i: nat): seq<string>
    requires step > 0
    decreases n - i
  {
    if i >= n then []
    else if i + max >= n then [win(i)]
    else [win(i)] + WinSeq(n, max, step, win, i + step)
  }

  /** The chunks kept so far (acc) followed by those the loop keeps from position i on. */
  function KeepFrom(n: nat, max: int, step: int, win: nat -> string, i: nat, acc: seq<string>): seq<string>
    requires step > 0
    decreases n - i
  {
    if i >= n then acc
    else
      var acc' := acc + KeepOne(win(i));
      if i + max >= n then acc' else KeepFrom(n, max, step, win, i + step, acc')
  }

  lemma {:induction false} KeepFromIs(n: nat, max: int, step: int, win: nat -> string, i: nat, acc: seq<string>)
    requires step > 0
    ensures KeepFrom(n, max, step, win, i, acc) == acc + DropBlank(WinSeq(n, max, step, win, i))
    decreases n - i
  {
    if i < n {
      var head := win(i);
      var acc' := acc + KeepOne(head);
      if i + max < n {
        var rest := WinSeq(n, max, step, win, i + step);
        DropBlankCons(head, rest);
        KeepFromIs(n, max, step, win, i + step, acc');
      } else {
        DropBlankCons(head, []);
        assert [head] + [] == [head];
      }
    }
  }

  /** With the windows of t as the window function, the visited windows are those of split_chunks. */
  lemma {:induction false} WindowsIsWinSeq(t: string, max: int, step: int, win: nat -> string, i: nat)
    requires step > 0
    requires forall j: nat :: j <= |t| ==> win(j) == Window(t, j, max)
    ensures Windows(t, max, step, i) == WinSeq(|t|, max, step, win, i)
    decreases |t| - i
  {
    if i < |t| && i + max < |t| {
      WindowsIsWinSeq(t, max, step, win, i + step);
    }
  }

  /** The loop of split_chunks over the cleaned text: visit the windows in order, keep the non-blank ones. */
  method KeepWindows(t: string, maxTokens: int, step: int) returns (chunks: seq<string>)
    requires step > 0
    ensures chunks == DropBlank(Windows(t, maxTokens, step, 0))
  {
    var win := (j: nat) => if j <= |t| then Window(t, j, maxTokens) else "";
    chunks := KeepLoop(|t|, maxTokens, step, win);
    WindowsIsWinSeq(t, maxTokens, step, win, 0);
  }

  /** The loop itself, over any window function. */
  method KeepLoop(n: nat, max: int, step: int, win: nat -> string) returns (chunks: seq<string>)
    requires step > 0
    ensures chunks == DropBlank(WinSeq(n, max, step, win, 0))
  {
    chunks := [];
    var i: nat := 0;
    while i < n
      invariant KeepFrom(n, max, step, win, i, chunks) == KeepFrom(n, max, step, win, 0, [])
      decreases n - i
    {
      var chunk := win(i);
      chunks := chunks + KeepOne(chunk);
      if i + max >= n {
        break;
      }
      i := i + step;
    }
    KeepFromIs(n, max, step, win, 0, []);
    assert [] + DropBlank(WinSeq(n, max, step, win, 0)) == DropBlank(WinSeq(n, max, step, win, 0));
  }

  /** split_chunks: the window loop, with the early break once a window reaches the end. */
  method SplitChunks(text: string, maxTokens: int, overlap: int) returns (r: Result<seq<string>, ChunkError>)
    ensures r == SplitChunksSpec(text, maxTokens, overlap)
  {
    if text == "" {
      return Ok([""]);
    }
    var t := CleanText(text);
    assert SplitChunksSpec(text, maxTokens, overlap) == ChunkCleaned(t, maxTokens, overlap);
    if |t| <= maxTokens {
      return Ok([t]);
    }
    var step := maxTokens - overlap;
    if step == 0 {
      return Err(ZeroStep);
    }
    var chunks: seq<string> := [];
    if step > 0 {
      chunks := KeepWindows(t, maxTokens, step);
    }
    r := Ok(if chunks == [] then [t] else chunks);
  }

  function Min(a: int, b: int): int { if a <= b then a else b }

  /** Position j lies in window k of the windows that start at i. */
  predicate InWindow(n: nat, max: int, step: int, i: nat, k: nat, j: nat)
  {
    i + k * step <= j < Min(n, i + k * step + max)
  }

  /** Some window starting from i contains position j. */
  predicate Covered(t: string, max: int, step: int, i: nat, j: nat)
    requires step > 0
  {
    exists k :: 0 <= k < |Windows(t, max, step, i)| && InWindow(|t|, max, step, i, k, j)
  }

  /** One unfolding of Windows for a window that does not reach the end. */
  lemma WindowsUnfold(t: string, max: int, step: int, i: nat)
    requires 0 < step <= max
    requires i + max < |t|
    ensures Windows(t, max, step, i) == [t[i .. i + max]] + Windows(t, max, step, i + step)
  {
  }

  /** Window k starting from i is t[i+k*step .. min(len, i+k*step+max)]. */
  lemma {:induction false} WindowAt(t: string, max: int, step: int, i: nat, k: nat)
    requires 0 < step <= max
    requires k < |Windows(t, max, step, i)|
    ensures i + k * step < |t|
    ensures Windows(t, max, step, i)[k] == t[i + k * step .. Min(|t|, i + k * step + max)]
    decreases k
  {
    if k == 0 {
      assert Windows(t, max, step, i)[0] == Window(t, i, max);
    } else {
      WindowsUnfold(t, max, step, i);
      WindowAt(t, max, step, i + step, k - 1);
      var s := (i + step) + (k - 1) * step;
      assert s == i + k * step;
      assert Windows(t, max, step, i)[k] == Windows(t, max, step, i + step)[k - 1];
      assert Windows(t, max, step, i)[k] == t[s .. Min(|t|, s + max)];
    }
  }

  /** Every window but the last is full: it ends before the end of t. */
  lemma {:induction false} WindowFull(t: string, max: int, step: int, i: nat, k: nat)
    requires 0 < step <= max
    requires k + 1 < |Windows(t, max, step, i)|
    ensures i + k * step + max < |t|
    decreases k
  {
    if i + max >= |t| {
    } else if k > 0 {
      WindowsUnfold(t, max, step, i);
      WindowFull(t, max, step, i + step, k - 1);
      assert (i + step) + (k - 1) * step == i + k * step;
    }
  }

  /** From a position inside t there is at least one window, and the last one reaches the end. */
  lemma {:induction false} WindowsLast(t: string, max: int, step: int, i: nat)
    requires 0 < step <= max
    requires i < |t|
    ensures |Windows(t, max, step, i)| >= 1
    ensures i + (|Windows(t, max, step, i)| - 1) * step + max >= |t|
    decreases |t| - i
  {
    if i + max < |t| {
      WindowsUnfold(t, max, step, i);
      WindowsLast(t, max, step, i + step);
      var n := |Windows(t, max, step, i + step)|;
      assert (i + step) + (n - 1) * step == i + n * step;
    }
  }

  /** Every position of t at or after i lies in some window starting from i. */
  lemma {:induction false} WindowsCover(t: string, max: int, step: int, i: nat, j: nat)
    requires 0 < step <= max
    requires i <= j < |t|
    ensures Covered(t, max, step, i, j)
    decreases |t| - i
  {
    if j < i + max || i + max >= |t| {
      assert InWindow(|t|, max, step, i, 0, j);
    } else {
      WindowsUnfold(t, max, step, i);
      WindowsCover(t, max, step, i + step, j);
      var k :| 0 <= k < |Windows(t, max, step, i + step)| && InWindow(|t|, max, step, i + step, k, j);
      assert (i + step) + k * step == i + (k + 1) * step;
      assert InWindow(|t|, max, step, i, k + 1, j);
    }
  }

  lemma DropBlankCons(c: string, rest: seq<string>)
    ensures DropBlank([c] + rest) == KeepOne(c) + DropBlank(rest)
  {
    assert ([c] + rest)[1..] == rest;
  }

  /** Every window from position i on is whitespace-only. */
  ghost predicate BlankFrom(t: string, max: int, step: int, i: nat)
    requires 0 < step
  {
    DropBlank(Windows(t, max, step, i)) == []
  }

  /** When every window starting from i is whitespace-only, so is t[i..]: each position lies in a window. */
  lemma AllWindowsBlank(t: string, max: int, step: int, i: nat)
    requires 0 < step <= max
    requires i <= |t|
    requires BlankFrom(t, max, step, i)
    ensures forall p :: i <= p < |t| ==> IsSpace(t[p])
  {
    var w := Windows(t, max, step, i);
    DropBlankEmpty(w);
    forall p | i <= p < |t| ensures IsSpace(t[p]) {
      WindowsCover(t, max, step, i, p);
      var k :| 0 <= k < |w| && InWindow(|t|, max, step, i, k, p);
      WindowAt(t, max, step, i, k);
      var start := i + k * step;
      assert t[p] == w[k][p - start];
    }
  }

  /** Nothing is kept only when every window is whitespace-only. */
  lemma {:induction false} DropBlankEmpty(ws: seq<string>)
    requires DropBlank(ws) == []
    ensures forall k :: 0 <= k < |ws| ==> IsBlank(ws[k])
  {
    if ws != [] {
      assert KeepOne(ws[0]) == [] && DropBlank(ws[1..]) == [];
      DropBlankEmpty(ws[1..]);
      assert forall k :: 1 <= k < |ws| ==> ws[k] == ws[1..][k - 1];
    }
  }

  /**
   * The window contract of split_chunks for 0 <= overlap < max_tokens on a text whose cleaned
   * form t is longer than max_tokens: window k is t[k*step .. min(len, k*step+max)] with
   * step = max_tokens - overlap, no window is longer than max_tokens, every window but the last
   * is full, so consecutive windows overlap by exactly `overlap` characters, and the last one
   * reaches the end of t.
   */
  lemma SplitChunksWindows(text: string, maxTokens: int, overlap: int)
    requires 0 <= overlap < maxTokens
    requires |CleanText(text)| > maxTokens
    ensures var t := CleanText(text);
      var step := maxTokens - overlap;
      var w := Windows(t, maxTokens, step, 0);
      && |w| >= 1
      && (forall k :: 0 <= k < |w| ==> 0 <= k * step < |t| && w[k] == t[k * step .. Min(|t|, k * step + maxTokens)])
      && (forall k :: 0 <= k < |w| ==> |w[k]| <= maxTokens)
      && (forall k :: 0 <= k < |w| - 1 ==> k * step + maxTokens < |t|)
      && (forall k :: 0 <= k < |w| - 1 ==> (k * step + maxTokens) - (k + 1) * step == overlap)
      && (|w| - 1) * step + maxTokens >= |t|
  {
    WindowsShape(CleanText(text), maxTokens, overlap);
  }

  /** The window facts of split_chunks on the cleaned text t. */
  lemma WindowsShape(t: string, maxTokens: int, overlap: int)
    requires 0 <= overlap < maxTokens
    requires |t| > maxTokens
    ensures var step := maxTokens - overlap;
      var w := Windows(t, maxTokens, step, 0);
      && |w| >= 1
      && (forall k :: 0 <= k < |w| ==> 0 <= k * step < |t| && w[k] == t[k * step .. Min(|t|, k * step + maxTokens)])
      && (forall k :: 0 <= k < |w| ==> |w[k]| <= maxTokens)
      && (forall k :: 0 <= k < |w| - 1 ==> k * step + maxTokens < |t|)
      && (forall k :: 0 <= k < |w| - 1 ==> (k * step + maxTokens) - (k + 1) * step == overlap)
      && (|w| - 1) * step + maxTokens >= |t|
  {
    var step := maxTokens - overlap;
    WindowsLast(t, maxTokens, step, 0);
    assert 0 + (|Windows(t, maxTokens, step, 0)| - 1) * step == (|Windows(t, maxTokens, step, 0)| - 1) * step;
    WindowsEach(t, maxTokens, step);
    WindowsInner(t, maxTokens, step);
    forall k | 0 <= k < |Windows(t, maxTokens, step, 0)| - 1
      ensures (k * step + maxTokens) - (k + 1) * step == overlap
    {
      StepArith(k, step);
    }
  }

  lemma StepArith(k: int, step: int)
    ensures (k + 1) * step == k * step + step
  {
  }

  /** Window k starts at k * step and is the slice of t there, at most max long. */
  lemma WindowsEach(t: string, max: int, step: int)
    requires 0 < step <= max
    ensures var w := Windows(t, max, step, 0);
      forall k :: 0 <= k < |w| ==> 0 <= k * step < |t| && w[k] == t[k * step .. Min(|t|, k * step + max)] && |w[k]| <= max
  {
    var w := Windows(t, max, step, 0);
    forall k | 0 <= k < |w|
      ensures 0 <= k * step < |t| && w[k] == t[k * step .. Min(|t|, k * step + max)] && |w[k]| <= max
    {
      WindowAt(t, max, step, 0, k);
      assert 0 + k * step == k * step;
    }
  }

  /** Every window but the last ends before the end of t. */
  lemma WindowsInner(t: string, max: int, step: int)
    requires 0 < step <= max
    ensures var w := Windows(t, max, step, 0);
      forall k :: 0 <= k < |w| - 1 ==> k * step + max < |t|
  {
    var w := Windows(t, max, step, 0);
    forall k | 0 <= k < |w| - 1
      ensures k * step + max < |t|
    {
      WindowFull(t, max, step, 0, k);
      assert 0 + k * step == k * step;
    }
  }

  /** Position j of t lies in some window of split_chunks(max_tokens, overlap). */
  predicate ChunkCovers(t: string, maxTokens: int, overlap: int, j: nat)
    requires overlap < maxTokens
  {
    Covered(t, maxTokens, maxTokens - overlap, 0, j)
  }

  /** Every position of the cleaned text lies in some window. */
  lemma SplitChunksCover(text: string, maxTokens: int, overlap: int)
    requires 0 <= overlap < maxTokens
    requires |CleanText(text)| > maxTokens
    ensures forall j :: 0 <= j < |CleanText(text)| ==> ChunkCovers(CleanText(text), maxTokens, overlap, j)
  {
    var t := CleanText(text);
    forall j | 0 <= j < |t|
      ensures ChunkCovers(t, maxTokens, overlap, j)
    {
      WindowsCover(t, maxTokens, maxTokens - overlap, 0, j);
    }
  }

  /**
   * split_chunks returns the non-blank windows in order, each no longer than max_tokens; it falls
   * back to [cleaned text] only when every window, and hence the whole cleaned text, is whitespace.
   */
  lemma SplitChunksResult(text: string, maxTokens: int, overlap: int)
    requires 0 <= overlap < maxTokens
    requires |CleanText(text)| > maxTokens
    ensures var t := CleanText(text);
      var kept := DropBlank(Windows(t, maxTokens, maxTokens - overlap, 0));
      && (forall k :: 0 <= k < |kept| ==> |kept[k]| <= maxTokens && !IsBlank(kept[k]))
      && ((SplitChunksSpec(text, maxTokens, overlap) == Ok(kept) && kept != [])
          || (SplitChunksSpec(text, maxTokens, overlap) == Ok([t]) && IsBlank(t)))
  {
    var t := CleanText(text);
    assert SplitChunksSpec(text, maxTokens, overlap) == ChunkCleaned(t, maxTokens, overlap);
    CleanedResult(t, maxTokens, overlap);
  }

  /** The result of split_chunks on the cleaned text t. */
  lemma CleanedResult(t: string, maxTokens: int, overlap: int)
    requires 0 <= overlap < maxTokens < |t|
    ensures var kept := DropBlank(Windows(t, maxTokens, maxTokens - overlap, 0));
      && (forall k :: 0 <= k < |kept| ==> |kept[k]| <= maxTokens && !IsBlank(kept[k]))
      && ((ChunkCleaned(t, maxTokens, overlap) == Ok(kept) && kept != [])
          || (ChunkCleaned(t, maxTokens, overlap) == Ok([t]) && IsBlank(t)))
  {
    var step := maxTokens - overlap;
    var kept := DropBlank(Windows(t, maxTokens, step, 0));
    KeptWindowsBound(t, maxTokens, step);
    assert ChunkCleaned(t, maxTokens, overlap) == Ok(if kept == [] then [t] else kept);
    if kept == [] {
      assert BlankFrom(t, maxTokens, step, 0);
      AllWindowsBlank(t, maxTokens, step, 0);
      assert forall p :: 0 <= p < |t| ==> IsSpace(t[p]);
    }
  }

  /** Every kept window is at most max long. */
  lemma KeptWindowsBound(t: string, max: int, step: int)
    requires 0 < step <= max
    ensures var kept := DropBlank(Windows(t, max, step, 0));
      forall k :: 0 <= k < |kept| ==> |kept[k]| <= max
  {
    var w := Windows(t, max, step, 0);
    var kept := DropBlank(w);
    forall k | 0 <= k < |kept| ensures |kept[k]| <= max {
      var m :| 0 <= m < |w| && w[m] == kept[k];
      WindowAt(t, max, step, 0, m);
    }
  }

  // ---------------------------------------------------------------- calculate_content_hash

  /** calculate_content_hash: "" for empty content, the SHA-256 hexdigest otherwise. */
  function ContentHash(sha: Hashes.Sha256, content: string): (r: string)
    ensures r == "" <==> content == ""
    ensures content != "" ==> |r| == 64
  {
    if content == "" then "" else sha(content)
  }

  /** Equal contents hash equally; differing hashes mean differing contents. */
  lemma ContentHashDetermined(sha: Hashes.Sha256, a: string, b: string)
    ensures ContentHash(sha, a) != ContentHash(sha, b) ==> a != b
    ensures a == b ==> ContentHash(sha, a) == ContentHash(sha, b)
  {
  }

  // ---------------------------------------------------------------- normalize_category_name

  /** The fixed category table of normalize_category_name. */
  function KnownCategory(n: int): Option<string>
  {
    match n
    case 6 => Some("채권추심")
    case 21 => Some("생활과법률")
    case 22 => Some("법무법인 혜안")
    case 23 => Some("오시는길/소개")
    case 24 => Some("소식/보도/칼럼")
    case 35 => Some("공사/물품/용역")
    case 36 => Some("투자금/동업")
    case 37 => Some("대여금/미수금")
    case 38 => Some("강제집행/신용조사")
    case _ => None
  }

  const UnknownPrefix: string := "카테고리_"

  /** normalize_category_name(category_no, category_name). */
  function NormalizeCategoryName(categoryNo: int, categoryName: Option<string>): (r: string)
    ensures r != ""
    ensures categoryName.Some? && categoryName.value != "" ==> r == categoryName.value
    ensures (categoryName.None? || categoryName.value == "") && KnownCategory(categoryNo).Some? ==>
              r == KnownCategory(categoryNo).value
    ensures (categoryName.None? || categoryName.value == "") && KnownCategory(categoryNo).None? ==>
              r == UnknownPrefix + IntToString(categoryNo)
  {
    if categoryName.Some? && categoryName.value != "" then categoryName.value
    else match KnownCategory(categoryNo)
      case Some(name) => name
      case None => UnknownPrefix + IntToString(categoryNo)
  }

  /** Without a given name, distinct unlisted category numbers get distinct default names. */
  lemma DefaultNamesDistinct(a: nat, b: nat)
    requires KnownCategory(a).None? && KnownCategory(b).None? && a != b
    ensures NormalizeCategoryName(a, None) != NormalizeCategoryName(b, None)
  {
    var p := UnknownPrefix;
    assert NormalizeCategoryName(a, None) == p + NatToString(a);
    assert NormalizeCategoryName(b, None) == p + NatToString(b);
    if p + NatToString(a) == p + NatToString(b) {
      assert NatToString(a) == (p + NatToString(a))[|p|..];
      assert NatToString(b) == (p + NatToString(b))[|p|..];
      NatToStringInjective(a, b);
    }
  }

  // ---------------------------------------------------------------- extract_title_from_content

  const NoTitle: string := "제목 없음"

  /** The index of the first line whose stripped form is longer than 10 characters. */
  function FirstLongLine(lines: seq<string>): (r: Option<nat>)
    ensures r.Some? ==> r.value < |lines| && |Strip(lines[r.value])| > 10
    ensures r.Some? ==> forall j :: 0 <= j < r.value ==> |Strip(lines[j])| <= 10
    ensures r.None? ==> forall j :: 0 <= j < |lines| ==> |Strip(lines[j])| <= 10
  {
    if lines == [] then None
    else if |Strip(lines[0])| > 10 then Some(0)
    else match FirstLongLine(lines[1..])
      case Some(i) => Some(i + 1)
      case None => None
  }

  /** What extract_title_from_content(content, max_length) returns. */
  function ExtractTitle(content: string, maxLength: int): string
  {
    if content == "" then NoTitle
    else
      var lines := Split(content, '\n');
      match FirstLongLine(lines)
      case Some(i) => Slice(Strip(lines[i]), 0, maxLength)
      case None => if |content| > maxLength then Slice(content, 0, maxLength) + "..." else content
  }

  /** extract_title_from_content: scan the lines for the first long stripped one. */
  method ExtractTitleFromContent(content: string, maxLength: int) returns (title: string)
    ensures title == ExtractTitle(content, maxLength)
  {
    if content == "" {
      return NoTitle;
    }
    var lines := Split(content, '\n');
    var i := 0;
    while i < |lines|
      invariant 0 <= i <= |lines|
      invariant forall j :: 0 <= j < i ==> |Strip(lines[j])| <= 10
    {
      var line := Strip(lines[i]);
      if |line| > 10 {
        assert FirstLongLine(lines) == Some(i) by { FirstLongLineIs(lines, i); }
        return Slice(line, 0, maxLength);
      }
      i := i + 1;
    }
    assert FirstLongLine(lines).None?;
    if |content| > maxLength {
      title := Slice(content, 0, maxLength) + "...";
    } else {
      title := content;
    }
  }

  /** The first long line is unique: any long line preceded only by short ones is it. */
  lemma FirstLongLineIs(lines: seq<string>, i: nat)
    requires i < |lines| && |Strip(lines[i])| > 10
    requires forall j :: 0 <= j < i ==> |Strip(lines[j])| <= 10
    ensures FirstLongLine(lines) == Some(i)
  {
  }

  /**
   * The title contract: "제목 없음" for empty content; otherwise the first stripped line longer
   * than 10 characters cut to max_length (never longer than max_length when that is not negative),
   * or, with no such line, the content itself or its max_length prefix followed by "...".
   */
  lemma ExtractTitleShape(content: string, maxLength: int)
    ensures content == "" ==> ExtractTitle(content, maxLength) == NoTitle
    ensures content != "" && maxLength >= 0 ==>
      var lines := Split(content, '\n');
      match FirstLongLine(lines)
      case Some(i) =>
        && |ExtractTitle(content, maxLength)| <= maxLength
        && ExtractTitle(content, maxLength) == Strip(lines[i])[..Min(maxLength, |Strip(lines[i])|)]
      case None =>
        if |content| > maxLength
        then ExtractTitle(content, maxLength) == content[..maxLength] + "..."
        else ExtractTitle(content, maxLength) == content
  {
  }
}
