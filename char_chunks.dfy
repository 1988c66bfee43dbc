/**
 * The character-count chunking that the production RAG generator and the GPU vectorizer share
 * (`chunk_text`): windows of 2 * max_tokens characters that start every
 * 2 * max_tokens - overlap characters, stripped, blank ones dropped, and [""] when nothing is
 * left. Unlike split_chunks this loop has no early exit: it visits every start below the length.
 */
module CharChunks {
  import opened Wrappers
  import opened Strings
  import opened UtilsText

  /** text[i:i+max] for every i in range(start, len(text), step). */
  function AllWindows(t: string, max: int, step: int, i: nat): (ws: seq<string>)
    requires step > 0
    decreases |t| - i
  {
    if i >= |t| then [] else [Window(t, i, max)] + AllWindows(t, max, step, i + step)
  }

  /** The stripped windows that are not whitespace-only, in order. */
  function StripKept(ws: seq<string>): (r: seq<string>)
    ensures |r| <= |ws|
  {
    if ws == [] then []
    else
      var rest := StripKept(ws[1..]);
      if IsBlank(ws[0]) then rest else [Strip(ws[0])] + rest
  }

  /** Every kept chunk is non-empty and already stripped. */
  lemma {:induction false} StripKeptStripped(ws: seq<string>)
    ensures forall k :: 0 <= k < |StripKept(ws)| ==> StripKept(ws)[k] != "" && Strip(StripKept(ws)[k]) == StripKept(ws)[k]
    decreases |ws|
  {
    if ws != [] {
      StripKeptStripped(ws[1..]);
      if !IsBlank(ws[0]) {
        StripShape(ws[0]);
        StripIdempotent(ws[0]);
      }
    }
  }

  /** What chunk_text(text, max_tokens, overlap) returns; range() with a zero step raises. */
  function ChunkTextSpec(text: string, maxTokens: int, overlap: int): Result<seq<string>, ChunkError>
  {
    if text == "" then Ok([""])
    else
      var maxChars := maxTokens * 2;
      var step := maxChars - overlap;
      if step == 0 then Err(ZeroStep)
      else
        var kept := if step < 0 then [] else StripKept(AllWindows(text, maxChars, step, 0));
        Ok(if kept == [] then [""] else kept)
  }

  /** The for loop over range(0, len(text), step). */
  method ChunkText(text: string, maxTokens: int, overlap: int) returns (r: Result<seq<string>, ChunkError>)
    ensures r == ChunkTextSpec(text, maxTokens, overlap)
  {
    if text == "" {
      return Ok([""]);
    }
    var maxChars := maxTokens * 2;
    var step := maxChars - overlap;
    if step == 0 {
      return Err(ZeroStep);
    }
    var chunks: seq<string> := [];
    if step > 0 {
      chunks := KeepAll(text, maxChars, step);
    }
    r := Ok(if chunks == [] then [""] else chunks);
  }

  /** The for loop of chunk_text over the starts i, i + step, ..., below the length. */
  method KeepAll(text: string, maxChars: int, step: int) returns (chunks: seq<string>)
    requires step > 0
    ensures chunks == StripKept(AllWindows(text, maxChars, step, 0))
  {
    chunks := [];
    var i: nat := 0;
    while i < |text|
      invariant KeepAllFrom(text, maxChars, step, i, chunks) == KeepAllFrom(text, maxChars, step, 0, [])
      decreases |text| - i
    {
      var chunk := Window(text, i, maxChars);
      chunks := chunks + KeptOne(chunk);
      i := i + step;
    }
    KeepAllFromIs(text, maxChars, step, 0, []);
  }

  /** The stripped window, if it is kept. */
  function KeptOne(w: string): seq<string>
  {
    if IsBlank(w) then [] else [Strip(w)]
  }

  /** The chunks kept so far (acc) followed by those the loop keeps from start i on. */
  function KeepAllFrom(t: string, max: int, step: int, i: nat, acc: seq<string>): seq<string>
    requires step > 0
    decreases |t| - i
  {
    if i >= |t| then acc else KeepAllFrom(t, max, step, i + step, acc + KeptOne(Window(t, i, max)))
  }

  lemma StripKeptCons(x: string, ws: seq<string>)
    ensures StripKept([x] + ws) == KeptOne(x) + StripKept(ws)
  {
    assert ([x] + ws)[1..] == ws;
  }

  lemma {:induction false} KeepAllFromIs(t: string, max: int, step: int, i: nat, acc: seq<string>)
    requires step > 0
    ensures KeepAllFrom(t, max, step, i, acc) == acc + StripKept(AllWindows(t, max, step, i))
    decreases |t| - i
  {
    if i < |t| {
      var x := Window(t, i, max);
      var ws := AllWindows(t, max, step, i + step);
      assert AllWindows(t, max, step, i) == [x] + ws;
      StripKeptCons(x, ws);
      KeepAllFromIs(t, max, step, i + step, acc + KeptOne(x));
      AppendAssoc(acc, KeptOne(x), StripKept(ws));
    } else {
      assert AllWindows(t, max, step, i) == [];
    }
  }

  lemma AppendAssoc(a: seq<string>, b: seq<string>, c: seq<string>)
    ensures (a + b) + c == a + (b + c)
  {
  }

  /** Window k of the loop starts at start + k * step, and every start below the length is visited. */
  lemma {:induction false} AllWindowsAt(t: string, max: int, step: int, i: nat, k: nat)
    requires step > 0
    ensures k < |AllWindows(t, max, step, i)| <==> i + k * step < |t|
    ensures k < |AllWindows(t, max, step, i)| ==> AllWindows(t, max, step, i)[k] == Window(t, i + k * step, max)
    decreases k
  {
    if i < |t| && k > 0 {
      AllWindowsAt(t, max, step, i + step, k - 1);
      assert i + step + (k - 1) * step == i + k * step;
    }
  }

  /** Every character of the text lies in some window when the windows overlap or touch. */
  lemma WindowCovers(t: string, max: int, step: int, j: nat)
    requires 0 < step <= max && j < |t|
    ensures (var k := j / step;
      k < |AllWindows(t, max, step, 0)| && k * step <= j < Min(|t|, k * step + max)
      && AllWindows(t, max, step, 0)[k] == t[k * step .. Min(|t|, k * step + max)])
  {
    var k := j / step;
    DivBounds(j, step);
    AllWindowsAt(t, max, step, 0, k);
    assert 0 + k * step == k * step;
  }

  /** The start of the window that holds position j is at most j, and j lies less than a step beyond it. */
  lemma DivBounds(j: nat, step: int)
    requires step > 0
    ensures j / step * step <= j < j / step * step + step
  {
    var m := j % step;
    assert j == j / step * step + m && 0 <= m < step;
  }

  /** Each chunk is at most 2 * max_tokens characters long. */
  lemma {:induction false} StripKeptBound(ws: seq<string>, max: nat)
    requires forall k :: 0 <= k < |ws| ==> |ws[k]| <= max
    ensures forall k :: 0 <= k < |StripKept(ws)| ==> |StripKept(ws)[k]| <= max
    decreases |ws|
  {
    if ws != [] {
      StripKeptBound(ws[1..], max);
      StripShape(ws[0]);
    }
  }

  lemma {:induction false} AllWindowsBound(t: string, max: nat, step: int, i: nat)
    requires step > 0
    ensures forall k :: 0 <= k < |AllWindows(t, max, step, i)| ==> |AllWindows(t, max, step, i)[k]| <= max
    decreases |t| - i
  {
    if i < |t| {
      AllWindowsBound(t, max, step, i + step);
    }
  }

  /**
   * chunk_text always returns at least one chunk; the chunks are stripped and either the single
   * empty chunk or non-empty ones of at most 2 * max_tokens characters; the only error is a zero step.
   */
  lemma ChunkTextShape(text: string, maxTokens: int, overlap: int)
    ensures ChunkTextSpec(text, maxTokens, overlap).Err? <==> text != "" && maxTokens * 2 == overlap
    ensures ChunkTextSpec(text, maxTokens, overlap).Ok? ==>
      var cs := ChunkTextSpec(text, maxTokens, overlap).value;
      |cs| >= 1 && (cs == [""] || forall k :: 0 <= k < |cs| ==> cs[k] != "" && Strip(cs[k]) == cs[k])
    ensures ChunkTextSpec(text, maxTokens, overlap).Ok? && maxTokens >= 0 ==>
      var cs := ChunkTextSpec(text, maxTokens, overlap).value;
      forall k :: 0 <= k < |cs| ==> |cs[k]| <= maxTokens * 2
  {
    var step := maxTokens * 2 - overlap;
    if text != "" && step > 0 {
      StripKeptStripped(AllWindows(text, maxTokens * 2, step, 0));
    }
    if text != "" && step > 0 && maxTokens >= 0 {
      AllWindowsBound(text, maxTokens * 2, step, 0);
      StripKeptBound(AllWindows(text, maxTokens * 2, step, 0), maxTokens * 2);
    }
  }

  /** A text of whitespace only yields the single empty chunk. */
  lemma {:induction false} BlankText(text: string, maxTokens: int, overlap: int)
    requires text != "" && maxTokens * 2 - overlap > 0 && IsBlank(text)
    ensures ChunkTextSpec(text, maxTokens, overlap) == Ok([""])
  {
    var step := maxTokens * 2 - overlap;
    BlankWindows(text, maxTokens * 2, step, 0);
  }

  lemma {:induction false} BlankWindows(t: string, max: int, step: int, i: nat)
    requires step > 0 && IsBlank(t)
    ensures StripKept(AllWindows(t, max, step, i)) == []
    decreases |t| - i
  {
    if i < |t| {
      BlankWindows(t, max, step, i + step);
      BlankWindow(t, i, max);
      assert AllWindows(t, max, step, i) == [Window(t, i, max)] + AllWindows(t, max, step, i + step);
      StripKeptCons(Window(t, i, max), AllWindows(t, max, step, i + step));
    }
  }

  /** Every window of a whitespace-only text is whitespace-only. */
  lemma BlankWindow(t: string, i: nat, max: int)
    requires i <= |t| && IsBlank(t)
    ensures IsBlank(Window(t, i, max))
  {
    var w := Window(t, i, max);
    assert forall p :: 0 <= p < |w| ==> w[p] in t;
  }
}
