/**
 * LSC_Core_Files/src/generator/textutils.py: the text helpers of the post generator: phone-number
 * and amount formatting, keyword extraction, forbidden-word replacement, sentence normalisation and
 * text cleaning.
 */
module TextUtils {
  import opened Wrappers
  import opened Strings
  import opened Collections

  /** re.sub(r'\D', '', s): the ASCII digits of s, in order. */
  function Digits(s: string): string
  {
    KeepChars(s, IsDigit)
  }

  /** format_phone_number: ten digits are grouped 3-3-4, eleven 3-4-4; any other count leaves the input as it is. */
  function FormatPhoneNumber(phone: string): (r: string)
    ensures |Digits(phone)| == 10 ==> |r| == 12 && r[3] == '-' && r[7] == '-'
    ensures |Digits(phone)| == 11 ==> |r| == 13 && r[3] == '-' && r[8] == '-'
    ensures |Digits(phone)| != 10 && |Digits(phone)| != 11 ==> r == phone
  {
    var d := Digits(phone);
    if |d| == 10 then d[..3] + "-" + d[3..6] + "-" + d[6..]
    else if |d| == 11 then d[..3] + "-" + d[3..7] + "-" + d[7..]
    else phone
  }

  /** Digits of a concatenation. */
  lemma DigitsAppend(a: string, b: string)
    ensures Digits(a + b) == Digits(a) + Digits(b)
  {
    KeepCharsAppend(a, b, IsDigit);
  }

  /** A string of digits is its own digits; a dash has none. */
  lemma DigitsOfDigits(d: string)
    requires forall k :: 0 <= k < |d| ==> IsDigit(d[k])
    ensures Digits(d) == d
  {
    KeepCharsAll(d, IsDigit);
  }

  /** Three runs of digits joined by dashes have those digits. */
  lemma DigitsDashed(x: string, y: string, z: string)
    requires Digits(x) == x && Digits(y) == y && Digits(z) == z
    ensures Digits(x + "-" + y + "-" + z) == x + y + z
  {
    assert Digits("-") == "" by { KeepCharsAll("-", IsDigit); }
    assert Digits(x + "-") == x by { DigitsAppend(x, "-"); }
    assert Digits(x + "-" + y) == x + y by { DigitsAppend(x + "-", y); }
    assert Digits(x + "-" + y + "-") == x + y by { DigitsAppend(x + "-" + y, "-"); }
    DigitsAppend(x + "-" + y + "-", z);
  }

  /** The digits of a number split into three groups with '-' between them are the number's digits. */
  lemma DashedDigits(d: string, i: nat, j: nat)
    requires i <= j <= |d| && forall k :: 0 <= k < |d| ==> IsDigit(d[k])
    ensures Digits(d[..i] + "-" + d[i..j] + "-" + d[j..]) == d
  {
    DigitsOfDigits(d[..i]);
    DigitsOfDigits(d[i..j]);
    DigitsOfDigits(d[j..]);
    DigitsDashed(d[..i], d[i..j], d[j..]);
    assert d[..i] + d[i..j] + d[j..] == d;
  }

  /** Formatting keeps the phone number's digits, so formatting a formatted number changes nothing. */
  lemma FormatPhoneKeepsDigits(phone: string)
    ensures Digits(FormatPhoneNumber(phone)) == Digits(phone)
    ensures FormatPhoneNumber(FormatPhoneNumber(phone)) == FormatPhoneNumber(phone)
  {
    var d := Digits(phone);
    if |d| == 10 {
      DashedDigits(d, 3, 6);
    } else if |d| == 11 {
      DashedDigits(d, 3, 7);
    }
  }

  const FormatAmountUnit := 10000

  /**
   * format_amount: the amount's digits read as a number; from 10000 on it is shown in units of 만원
   * (ten thousand won, rounded down), below in 원; without digits the input comes back as it is.
   */
  function FormatAmount(amount: string): (r: string)
    ensures Digits(amount) == "" ==> r == amount
    ensures Digits(amount) != "" ==> EndsWith(r, "원")
  {
    var d := Digits(amount);
    if d == "" then amount
    else
      var n := ParseDigits(d);
      if n >= FormatAmountUnit then NatToString(n / FormatAmountUnit) + "만원" else NatToString(n) + "원"
  }

  /** The digits of a formatted amount read back as the amount, in 만원 from 10000 on and in 원 below. */
  lemma FormatAmountReadsBack(amount: string)
    requires Digits(amount) != ""
    ensures var n := ParseDigits(Digits(amount));
            ParseDigits(Digits(FormatAmount(amount))) == (if n >= FormatAmountUnit then n / FormatAmountUnit else n)
  {
    var n := ParseDigits(Digits(amount));
    var m := if n >= FormatAmountUnit then n / FormatAmountUnit else n;
    var u := if n >= FormatAmountUnit then "만원" else "원";
    var s := NatToString(m);
    assert FormatAmount(amount) == s + u;
    assert Digits(u) == "" by { KeepCharsAll(u, IsDigit); }
    assert Digits(s) == s by { KeepCharsAll(s, IsDigit); }
    DigitsAppend(s, u);
    assert s + u[..0] == s;
    ParseNatToString(m);
  }

  /** Amounts from 10000 on are the ones shown in 만원. */
  lemma FormatAmountUnitShown(amount: string)
    requires Digits(amount) != ""
    ensures ParseDigits(Digits(amount)) >= FormatAmountUnit <==> EndsWith(FormatAmount(amount), "만원")
  {
    var n := ParseDigits(Digits(amount));
    var r := FormatAmount(amount);
    if n < FormatAmountUnit {
      var s := NatToString(n);
      assert r == s + "원";
      assert r[|r| - 2] == s[|s| - 1];
      assert IsDigit(s[|s| - 1]);
    }
  }

  /** The replacement table of filter_forbidden_words. */
  const Replacements: map<string, string> := map[
    "무료상담" := "전문상담", "즉시연락" := "빠른연락", "24시간" := "상시", "100%" := "확실한",
    "확실한" := "신뢰할 수 있는", "최고의" := "우수한", "전문가" := "전문가", "특별할인" := "특별혜택",
    "지금바로" := "바로", "한정특가" := "특별가격", "무료견적" := "견적상담", "또한" := "그리고",
    "더불어" := "함께", "그리고" := "그리고", "그러나" := "하지만", "하지만" := "하지만", "그런데" := "그런데"]

  /** The default forbidden list, which the function sets up but never reaches (see DefaultListUnused). */
  const DefaultForbidden: seq<string> := ["무료상담", "즉시연락", "24시간", "100%", "확실한", "최고의",
    "전문가", "특별할인", "지금바로", "한정특가", "무료견적", "또한", "더불어", "그리고", "그러나", "하지만", "그런데"]

  /** replacements.get(word, "***") */
  function Replacement(word: string): (r: string)
    ensures word in Replacements ==> r == Replacements[word]
    ensures word !in Replacements ==> r == "***"
  {
    if word in Replacements then Replacements[word] else "***"
  }

  /** One pass of the loop: a word that occurs is replaced everywhere (str.replace) by its replacement. */
  function ReplaceWord(text: string, word: string): string
  {
    if Contains(text, word) then ReplaceAll(text, word, Replacement(word)) else text
  }

  /** The text after the loop has handled words[0], ..., words[|words| - 1] in turn. */
  function ReplaceWords(text: string, words: seq<string>): string
    decreases |words|
  {
    if words == [] then text else ReplaceWord(ReplaceWords(text, words[..|words| - 1]), words[|words| - 1])
  }

  /** filter_forbidden_words as written: an empty text, None or an empty list leave the text unchanged. */
  function FilterForbidden(text: string, forbidden: Option<seq<string>>): (r: string)
    ensures text == "" || forbidden.None? || forbidden.value == [] ==> r == text
  {
    if text == "" || forbidden.None? || forbidden.value == [] then text else ReplaceWords(text, forbidden.value)
  }

  /** filter_forbidden_words: the loop over the given words. */
  method FilterForbiddenWords(text: string, forbidden: Option<seq<string>>) returns (r: string)
    ensures r == FilterForbidden(text, forbidden)
  {
    if text == "" || forbidden.None? || forbidden.value == [] {
      return text;
    }
    var words := forbidden.value;
    r := text;
    for i := 0 to |words|
      invariant r == ReplaceWords(text, words[..i])
    {
      assert words[..i + 1][..i] == words[..i];
      if Contains(r, words[i]) {
        r := ReplaceAll(r, words[i], Replacement(words[i]));
      }
    }
    assert words[..|words|] == words;
  }

  /** A word replaced by itself leaves every text as it is. */
  lemma {:induction false} ReplaceSelf(s: string, w: string)
    requires |w| > 0
    ensures ReplaceAll(s, w, w) == s
    decreases |s|
  {
    if |s| > 0 {
      if StartsWith(s, w) {
        ReplaceSelf(s[|w|..], w);
        assert s == s[..|w|] + s[|w|..];
      } else {
        ReplaceSelf(s[1..], w);
        assert s == [s[0]] + s[1..];
      }
    }
  }

  /** Words the table maps to themselves, and words that do not occur, change nothing. */
  lemma {:induction false} UnchangedWords(text: string, words: seq<string>)
    requires forall k :: 0 <= k < |words| ==> |words[k]| > 0
    requires forall k :: 0 <= k < |words| ==>
      (words[k] in Replacements && Replacements[words[k]] == words[k]) || !Contains(text, words[k])
    ensures ReplaceWords(text, words) == text
    decreases |words|
  {
    if words != [] {
      var init := words[..|words| - 1];
      UnchangedWords(text, init);
      var w := words[|words| - 1];
      if Contains(text, w) {
        ReplaceSelf(text, w);
      }
    }
  }

  /** A word that does not occur in the text and has no entry in the table is skipped. */
  lemma AbsentWordSkipped(text: string, word: string)
    requires !Contains(text, word)
    ensures ReplaceWord(text, word) == text
  {
  }

  /**
   * As written, the default list is dead code: without a list (None, the default argument) the text
   * always comes back as it is, even when it holds default forbidden words.
   */
  lemma DefaultListUnused()
    ensures FilterForbidden("무료상담", None) == "무료상담"
    ensures Contains("무료상담", DefaultForbidden[0])
  {
    assert StartsWith("무료상담", "무료상담");
  }

  /** What the guard evidently means: None selects the default list, an empty list still filters nothing. */
  function FilterForbiddenIntended(text: string, forbidden: Option<seq<string>>): (r: string)
    ensures text == "" || forbidden == Some([]) ==> r == text
    ensures text != "" && forbidden.None? ==> r == ReplaceWords(text, DefaultForbidden)
  {
    if text == "" then text
    else if forbidden.None? then ReplaceWords(text, DefaultForbidden)
    else if forbidden.value == [] then text
    else ReplaceWords(text, forbidden.value)
  }

  /** With an explicit list the corrected filter agrees with the written one. */
  lemma IntendedAgreesWithList(text: string, words: seq<string>)
    ensures FilterForbiddenIntended(text, Some(words)) == FilterForbidden(text, Some(words))
  {
  }

  /** Corrected, a text with a default forbidden word is filtered by the default list. */
  lemma DefaultListUsed()
    ensures FilterForbiddenIntended("무료상담", None) == "전문상담"
  {
    assert ReplaceWords("무료상담", DefaultForbidden[..1]) == "전문상담" by {
      assert DefaultForbidden[..1][..0] == [];
      assert StartsWith("무료상담", "무료상담");
      assert ReplaceAll("무료상담"[4..], "무료상담", "전문상담") == "";
    }
    assert ReplaceWords("전문상담", DefaultForbidden[1..]) == "전문상담" by {
      forall k | 0 <= k < |DefaultForbidden[1..]|
        ensures !Contains("전문상담", DefaultForbidden[1..][k])
      {
        NotContained(k + 1);
      }
      UnchangedWords("전문상담", DefaultForbidden[1..]);
    }
    ReplaceWordsAppend("무료상담", DefaultForbidden[..1], DefaultForbidden[1..]);
    assert DefaultForbidden[..1] + DefaultForbidden[1..] == DefaultForbidden;
  }

  /** Running the loop over a + b is running it over a and then over b. */
  lemma {:induction false} ReplaceWordsAppend(text: string, a: seq<string>, b: seq<string>)
    ensures ReplaceWords(text, a + b) == ReplaceWords(ReplaceWords(text, a), b)
    decreases |b|
  {
    if b == [] {
      assert a + b == a;
    } else {
      assert (a + b)[..|a + b| - 1] == a + b[..|b| - 1];
      ReplaceWordsAppend(text, a, b[..|b| - 1]);
    }
  }

  /** Every character of a word that occurs in s is a character of s. */
  lemma ContainedChar(s: string, w: string, j: nat)
    requires Contains(s, w) && j < |w|
    ensures w[j] in s
  {
    ContainsIff(s, w);
    var i :| OccursAt(s, w, i);
    assert s[i + j] == s[i..i + |w|][j];
  }

  /** None of the default words after the first occurs in "전문상담": each has a character it lacks. */
  lemma NotContained(k: nat)
    requires 1 <= k < |DefaultForbidden|
    ensures !Contains("전문상담", DefaultForbidden[k])
  {
    var w := DefaultForbidden[k];
    var j := if k == 6 then 2 else 0;
    assert j < |w| && w[j] !in "전문상담";
    if Contains("전문상담", w) {
      ContainedChar("전문상담", w, j);
    }
  }

  predicate IsTerminator(c: char)
  {
    c == '.' || c == '!' || c == '?'
  }

  /** re.split(r'[.!?]\s*', text) up to the whitespace after each terminator, which strip() removes anyway. */
  function Pieces(s: string): (r: seq<string>)
    ensures |r| >= 1
    decreases |s|
  {
    if s == "" then [""]
    else
      var rest := Pieces(s[1..]);
      if IsTerminator(s[0]) then [""] + rest else [[s[0]] + rest[0]] + rest[1..]
  }

  /** No piece holds a terminator. */
  lemma {:induction false} PiecesHaveNoTerminator(s: string)
    ensures forall k, i :: 0 <= k < |Pieces(s)| && 0 <= i < |Pieces(s)[k]| ==> !IsTerminator(Pieces(s)[k][i])
    decreases |s|
  {
    if s != "" {
      PiecesHaveNoTerminator(s[1..]);
    }
  }

  /** sentence[0].upper() + sentence[1:] when the first character is a lower-case (ASCII) letter. */
  function Capitalize(s: string): (r: string)
    ensures |r| == |s| && forall i :: 0 < i < |s| ==> r[i] == s[i]
    ensures |s| > 0 ==> !('a' <= r[0] <= 'z')
  {
    if |s| > 0 && 'a' <= s[0] <= 'z' then [(s[0] as int - 32) as char] + s[1..] else s
  }

  /** One sentence normalised: stripped, skipped when empty, ended with '.' unless it already ends in a terminator, capitalised. */
  function NormalizeSentence(piece: string): Option<string>
  {
    var t := Strip(piece);
    if t == "" then None
    else
      var u := if t[|t| - 1] == '.' || t[|t| - 1] == '!' || t[|t| - 1] == '?' then t else t + ".";
      Some(Capitalize(u))
  }

  /** The normalised sentences of the pieces, in order. */
  function NormalizedAll(pieces: seq<string>): seq<string>
    decreases |pieces|
  {
    if pieces == [] then []
    else
      var s := NormalizeSentence(pieces[|pieces| - 1]);
      NormalizedAll(pieces[..|pieces| - 1]) + (if s.Some? then [s.value] else [])
  }

  /** normalize_sentences: an empty text comes back as it is; otherwise the normalised sentences joined by spaces. */
  method NormalizeSentences(text: string) returns (r: string)
    ensures text == "" ==> r == text
    ensures text != "" ==> r == Join(NormalizedAll(Pieces(text)), " ")
  {
    if text == "" {
      return text;
    }
    var sentences := Pieces(text);
    var normalized: seq<string> := [];
    for i := 0 to |sentences|
      invariant normalized == NormalizedAll(sentences[..i])
    {
      var sentence := NormalizeOne(sentences[i]);
      NormalizedStep(sentences, i, normalized);
      if sentence.Some? {
        normalized := normalized + [sentence.value];
      }
    }
    assert sentences[..|sentences|] == sentences;
    r := Join(normalized, " ");
  }

  /** The body of normalize_sentences' loop for one piece; None where the piece is skipped. */
  method NormalizeOne(piece: string) returns (r: Option<string>)
    ensures r == NormalizeSentence(piece)
  {
    var sentence := Strip(piece);
    if sentence == "" {
      return None;
    }
    if !(sentence[|sentence| - 1] == '.' || sentence[|sentence| - 1] == '!' || sentence[|sentence| - 1] == '?') {
      sentence := sentence + ".";
    }
    if 'a' <= sentence[0] <= 'z' {
      sentence := [(sentence[0] as int - 32) as char] + sentence[1..];
    }
    r := Some(sentence);
  }

  /** One more piece adds its normalised sentence, if any. */
  lemma NormalizedStep(ps: seq<string>, i: nat, acc: seq<string>)
    requires i < |ps| && acc == NormalizedAll(ps[..i])
    ensures NormalizedAll(ps[..i + 1])
      == acc + (if NormalizeSentence(ps[i]).Some? then [NormalizeSentence(ps[i]).value] else [])
  {
    assert ps[..i + 1][..i] == ps[..i];
  }

  /**
   * A piece without terminators normalises to a sentence that ends with '.', has no other terminator,
   * starts with neither whitespace nor a lower-case letter, and keeps the stripped piece's text.
   */
  lemma NormalizedSentenceShape(piece: string)
    requires forall i :: 0 <= i < |piece| ==> !IsTerminator(piece[i])
    ensures NormalizeSentence(piece).None? <==> IsBlank(piece)
    ensures NormalizeSentence(piece).Some? ==>
      var s := NormalizeSentence(piece).value;
      && |s| == |Strip(piece)| + 1 && s[|s| - 1] == '.'
      && (forall i :: 0 <= i < |s| - 1 ==> !IsTerminator(s[i]))
      && (forall i :: 0 < i < |s| - 1 ==> s[i] == Strip(piece)[i])
      && !IsSpace(s[0]) && !('a' <= s[0] <= 'z')
  {
    StripShape(piece);
    var t := Strip(piece);
    var k := LeadingSpaces(piece);
    if t != "" {
      assert forall i :: 0 <= i < |t| ==> t[i] == piece[k + i];
      assert !IsTerminator(t[|t| - 1]);
      var u := t + ".";
      var s := Capitalize(u);
      assert s[0] == u[0] || 'a' <= u[0] <= 'z';
    }
  }

  /** A sentence as normalize_sentences emits it: at least one character before the final '.', and no other terminator. */
  ghost predicate DotSentence(s: string)
  {
    |s| >= 2 && s[|s| - 1] == '.' && forall i :: 0 <= i < |s| - 1 ==> !IsTerminator(s[i])
  }

  /** Every sentence normalize_sentences emits ends with '.' and holds no other terminator. */
  lemma {:induction false} EverySentenceEndsWithDot(pieces: seq<string>)
    requires forall k, i :: 0 <= k < |pieces| && 0 <= i < |pieces[k]| ==> !IsTerminator(pieces[k][i])
    ensures forall k :: 0 <= k < |NormalizedAll(pieces)| ==> DotSentence(NormalizedAll(pieces)[k])
    decreases |pieces|
  {
    if pieces != [] {
      var init := pieces[..|pieces| - 1];
      var last := pieces[|pieces| - 1];
      assert forall k :: 0 <= k < |init| ==> init[k] == pieces[k];
      EverySentenceEndsWithDot(init);
      var front := NormalizedAll(init);
      var ns := NormalizeSentence(last);
      assert NormalizedAll(pieces) == front + (if ns.Some? then [ns.value] else []);
      if ns.Some? {
        LastSentenceDot(last);
        forall k | 0 <= k < |front| + 1 ensures DotSentence((front + [ns.value])[k]) {
          if k < |front| {
            assert (front + [ns.value])[k] == front[k];
          }
        }
      }
    }
  }

  lemma LastSentenceDot(piece: string)
    requires forall i :: 0 <= i < |piece| ==> !IsTerminator(piece[i])
    ensures NormalizeSentence(piece).Some? ==> DotSentence(NormalizeSentence(piece).value)
  {
    NormalizedSentenceShape(piece);
    StripShape(piece);
  }

  /** The sentences of a text all end with '.': the terminators only ever separate the pieces. */
  lemma TextSentencesEndWithDot(text: string)
    ensures forall k :: 0 <= k < |NormalizedAll(Pieces(text))| ==> DotSentence(NormalizedAll(Pieces(text))[k])
  {
    PiecesHaveNoTerminator(text);
    EverySentenceEndsWithDot(Pieces(text));
  }

  /**
   * re.sub(r'<[^>]+>', '', s): a '<' followed by at least one character other than '>' and then a '>'
   * is dropped with everything up to that first '>'; a '<' without such a tag is kept.
   */
  function RemoveTags(s: string): (r: string)
    ensures |r| <= |s|
    decreases |s|
  {
    if s == "" then ""
    else
      var close := FindFirst(s[1..], ">");
      if s[0] == '<' && close.Some? && close.value >= 1 then RemoveTags(s[close.value + 2..])
      else [s[0]] + RemoveTags(s[1..])
  }

  /** A text without '<' has no tag to remove. */
  lemma {:induction false} RemoveTagsPlain(s: string)
    requires forall i :: 0 <= i < |s| ==> s[i] != '<'
    ensures RemoveTags(s) == s
    decreases |s|
  {
    if s != "" {
      RemoveTagsPlain(s[1..]);
    }
  }

  /** Removing tags only deletes characters. */
  lemma {:induction false} RemoveTagsFrom(s: string)
    ensures forall i :: 0 <= i < |RemoveTags(s)| ==> RemoveTags(s)[i] in s
    decreases |s|
  {
    if s != "" {
      var close := FindFirst(s[1..], ">");
      if s[0] == '<' && close.Some? && close.value >= 1 {
        RemoveTagsFrom(s[close.value + 2..]);
        assert forall c :: c in s[close.value + 2..] ==> c in s;
      } else {
        RemoveTagsFrom(s[1..]);
        assert forall c :: c in s[1..] ==> c in s;
      }
    }
  }

  /** The characters `[^\w\s가-힣.,!?]` leaves in place. */
  predicate CleanChar(c: char)
  {
    IsWordChar(c) || IsSpace(c) || c == '.' || c == ',' || c == '!' || c == '?'
  }

  /** clean_text: tags removed, other characters dropped, whitespace runs collapsed to one space, ends stripped. */
  function CleanText(text: string): string
  {
    if text == "" then "" else Strip(CollapseSpaces(KeepChars(RemoveTags(text), CleanChar)))
  }

  /** A clean text holds only word characters, `.,!?` and single spaces, none of them at either end. */
  predicate IsClean(t: string)
  {
    && (forall i :: 0 <= i < |t| ==> CleanChar(t[i]) && t[i] != '<' && t[i] != '>')
    && (forall i :: 0 <= i < |t| && IsSpace(t[i]) ==> t[i] == ' ')
    && (forall i :: 0 <= i < |t| - 1 ==> !(IsSpace(t[i]) && IsSpace(t[i + 1])))
    && (t == "" || (!IsSpace(t[0]) && !IsSpace(t[|t| - 1])))
  }

  /** clean_text always returns a clean text. */
  lemma CleanTextIsClean(text: string)
    ensures IsClean(CleanText(text))
  {
    if text != "" {
      var k := KeepChars(RemoveTags(text), CleanChar);
      var c := CollapseSpaces(k);
      CollapseSpacesShape(k);
      CollapseSpacesFrom(k);
      assert forall i :: 0 <= i < |c| ==> CleanChar(c[i]);
      StrippedIsClean(c);
    }
  }

  /** Stripping a text of clean characters whose whitespace is single spaces leaves a clean text. */
  lemma StrippedIsClean(c: string)
    requires forall i :: 0 <= i < |c| ==> CleanChar(c[i])
    requires forall i :: 0 <= i < |c| && IsSpace(c[i]) ==> c[i] == ' '
    requires forall i :: 0 <= i < |c| - 1 ==> !(IsSpace(c[i]) && IsSpace(c[i + 1]))
    ensures IsClean(Strip(c))
  {
    StripShape(c);
    var r := Strip(c);
    var j := LeadingSpaces(c);
    assert forall i :: 0 <= i < |r| ==> r[i] == c[j + i];
  }

  /** Collapsing whitespace changes nothing in a text whose whitespace is single spaces. */
  lemma {:induction false} CollapseSingleSpaces(s: string)
    requires forall i :: 0 <= i < |s| && IsSpace(s[i]) ==> s[i] == ' '
    requires forall i :: 0 <= i < |s| - 1 ==> !(IsSpace(s[i]) && IsSpace(s[i + 1]))
    ensures CollapseSpaces(s) == s
    decreases |s|
  {
    if |s| > 0 {
      assert forall i :: 0 <= i < |s[1..]| ==> s[1..][i] == s[i + 1];
      if IsSpace(s[0]) {
        assert LeadingSpaces(s) == 1 by {
          assert |s| == 1 || !IsSpace(s[1]);
          assert LeadingSpaces(s) == 1 + LeadingSpaces(s[1..]);
        }
      }
      CollapseSingleSpaces(s[1..]);
    }
  }

  /** Cleaning a clean text changes nothing: clean_text is idempotent. */
  lemma CleanTextIdempotent(text: string)
    ensures CleanText(CleanText(text)) == CleanText(text)
  {
    var t := CleanText(text);
    CleanTextIsClean(text);
    if t != "" {
      RemoveTagsPlain(t);
      KeepCharsAll(t, CleanChar);
      CollapseSingleSpaces(t);
      if text != "" {
        StripIdempotent(CollapseSpaces(KeepChars(RemoveTags(text), CleanChar)));
      }
    }
  }

  /** A precomposed Hangul syllable, `[가-힣]`. */
  predicate IsSyllable(c: char)
  {
    '가' <= c <= '힣'
  }

  /** The number of Hangul syllables s starts with. */
  function SyllableRun(s: string): (n: nat)
    ensures n <= |s|
    ensures forall i :: 0 <= i < n ==> IsSyllable(s[i])
    ensures n == |s| || !IsSyllable(s[n])
  {
    if |s| > 0 && IsSyllable(s[0]) then 1 + SyllableRun(s[1..]) else 0
  }

  /** At least two characters, all Hangul syllables. */
  predicate IsHangulWord(w: string)
  {
    |w| >= 2 && forall i :: 0 <= i < |w| ==> IsSyllable(w[i])
  }

  /** re.findall(r'[가-힣]{2,}', text): every maximal run of Hangul syllables of length two or more, in order. */
  function HangulWords(s: string): seq<string>
    decreases |s|
  {
    if s == "" then []
    else if IsSyllable(s[0]) then
      var n := SyllableRun(s);
      (if n >= 2 then [s[..n]] else []) + HangulWords(s[n..])
    else HangulWords(s[1..])
  }

  /** Everything findall returns is a Hangul word. */
  lemma {:induction false} HangulWordsAreWords(s: string)
    ensures forall k :: 0 <= k < |HangulWords(s)| ==> IsHangulWord(HangulWords(s)[k])
    decreases |s|
  {
    if s != "" {
      if IsSyllable(s[0]) {
        HangulWordsAreWords(s[SyllableRun(s)..]);
      } else {
        HangulWordsAreWords(s[1..]);
      }
    }
  }

  /** A Hangul word followed by a separator is found, and the search goes on after it. */
  lemma HangulWordsOfWordThen(w: string, rest: string)
    requires IsHangulWord(w)
    requires rest == "" || !IsSyllable(rest[0])
    ensures HangulWords(w + rest) == [w] + HangulWords(rest)
  {
    var s := w + rest;
    assert SyllableRun(s) == |w| by {
      SyllableRunPrefix(w, rest);
    }
    assert s[..|w|] == w && s[|w|..] == rest;
  }

  /** The syllable run of a word of syllables followed by a non-syllable is the word. */
  lemma {:induction false} SyllableRunPrefix(w: string, rest: string)
    requires forall i :: 0 <= i < |w| ==> IsSyllable(w[i])
    requires rest == "" || !IsSyllable(rest[0])
    ensures SyllableRun(w + rest) == |w|
    decreases |w|
  {
    if w != "" {
      assert (w + rest)[1..] == w[1..] + rest;
      SyllableRunPrefix(w[1..], rest);
    } else {
      assert w + rest == rest;
    }
  }

  /** Hangul words joined by spaces are found again, one by one: findall inverts the join. */
  lemma {:induction false} HangulWordsJoin(ws: seq<string>)
    requires forall k :: 0 <= k < |ws| ==> IsHangulWord(ws[k])
    ensures HangulWords(Join(ws, " ")) == ws
    decreases |ws|
  {
    if |ws| == 1 {
      HangulWordsOfWordThen(ws[0], "");
      assert ws[0] + "" == ws[0];
    } else if |ws| > 1 {
      HangulWordsJoin(ws[1..]);
      var tail := Join(ws[1..], " ");
      HangulWordsOfWordThen(ws[0], " " + tail);
      assert ws[0] + " " + tail == ws[0] + (" " + tail);
      assert HangulWords(" " + tail) == HangulWords(tail) by {
        assert (" " + tail)[1..] == tail;
      }
    }
  }

  /** extract_keywords' stopwords. */
  const Stopwords: set<string> := {
    "은", "는", "이", "가", "을", "를", "에", "의", "와", "과", "도", "만", "부터", "까지",
    "에서", "에게", "한테", "께", "로", "으로",
    "그", "저", "그것", "이것", "저것", "그런", "이런", "저런", "그렇게", "이렇게", "저렇게"
  }

  /** A word extract_keywords counts: not a stopword and at least two characters long. */
  predicate Counted(w: string)
  {
    w !in Stopwords && |w| >= 2
  }

  /** The words that are counted, in order (with repeats). */
  function CountedWords(words: seq<string>): seq<string>
    decreases |words|
  {
    if words == [] then [] else CountedWords(words[..|words| - 1]) + (if Counted(words[|words| - 1]) then [words[|words| - 1]] else [])
  }

  /** The counted words are words of the text that count. */
  lemma {:induction false} CountedWordsFrom(words: seq<string>)
    ensures forall k :: 0 <= k < |CountedWords(words)| ==> Counted(CountedWords(words)[k]) && CountedWords(words)[k] in words
    decreases |words|
  {
    if words != [] {
      var init := words[..|words| - 1];
      assert words == init + [words[|words| - 1]];
      CountedWordsFrom(init);
    }
  }

  /** A word that counts is counted as often as it occurs. */
  lemma {:induction false} CountedWordCount(words: seq<string>, w: string)
    requires Counted(w)
    ensures multiset(CountedWords(words))[w] == multiset(words)[w]
    decreases |words|
  {
    if words != [] {
      var init := words[..|words| - 1];
      assert words == init + [words[|words| - 1]];
      CountedWordCount(init, w);
    }
  }

  /** word_freq: how often each counted word occurs, built one word at a time. */
  function Frequencies(counted: seq<string>): map<string, nat>
    decreases |counted|
  {
    if counted == [] then map[]
    else
      var f := Frequencies(counted[..|counted| - 1]);
      var w := counted[|counted| - 1];
      f[w := Freq(f, w) + 1]
  }

  /** A word's count, zero for a word never seen (dict.get(word, 0)). */
  function Freq(f: map<string, nat>, w: string): nat
  {
    if w in f then f[w] else 0
  }

  /** word_freq holds a word exactly when it was seen, with the number of times it was seen. */
  lemma {:induction false} FrequenciesCount(counted: seq<string>, w: string)
    ensures w in Frequencies(counted) <==> w in counted
    ensures Freq(Frequencies(counted), w) == multiset(counted)[w]
    decreases |counted|
  {
    if counted != [] {
      var init := counted[..|counted| - 1];
      var last := counted[|counted| - 1];
      assert counted == init + [last];
      FrequenciesCount(init, w);
      assert multiset(counted) == multiset(init) + multiset{last};
    }
  }

  /** One more occurrence raises that word's count by one and leaves every other count alone. */
  lemma FrequenciesSnoc(counted: seq<string>, w: string)
    ensures Frequencies(counted + [w]) == Frequencies(counted)[w := Freq(Frequencies(counted), w) + 1]
  {
    assert (counted + [w])[..|counted|] == counted;
  }

  /** Insert w before the first word whose count is not larger: a stable descending insertion. */
  function InsertDesc(w: string, r: seq<string>, f: map<string, nat>): (q: seq<string>)
    ensures multiset(q) == multiset(r) + multiset{w}
    decreases |r|
  {
    if r == [] || Freq(f, w) >= Freq(f, r[0]) then [w] + r
    else
      assert r == [r[0]] + r[1..];
      [r[0]] + InsertDesc(w, r[1..], f)
  }

  /** sorted(items, key=count, reverse=True): Python's sort is stable, so equal counts keep their order. */
  function SortDesc(s: seq<string>, f: map<string, nat>): (r: seq<string>)
    ensures multiset(r) == multiset(s)
    decreases |s|
  {
    if s == [] then []
    else
      assert s == [s[0]] + s[1..];
      InsertDesc(s[0], SortDesc(s[1..], f), f)
  }

  /** Counts never increase along the sequence. */
  predicate NonIncreasing(r: seq<string>, f: map<string, nat>)
  {
    forall i, j :: 0 <= i < j < |r| ==> Freq(f, r[i]) >= Freq(f, r[j])
  }

  lemma {:induction false} InsertDescSorted(w: string, r: seq<string>, f: map<string, nat>)
    requires NonIncreasing(r, f)
    ensures NonIncreasing(InsertDesc(w, r, f), f)
    decreases |r|
  {
    if !(r == [] || Freq(f, w) >= Freq(f, r[0])) {
      InsertDescSorted(w, r[1..], f);
      var q := InsertDesc(w, r[1..], f);
      assert multiset(q) == multiset(r[1..]) + multiset{w};
      forall x | x in q ensures Freq(f, r[0]) >= Freq(f, x) {
        assert x in multiset(q);
        if x != w {
          assert x in r[1..];
        }
      }
    }
  }

  /** The sorted words are ordered by count, largest first. */
  lemma {:induction false} SortDescSorted(s: seq<string>, f: map<string, nat>)
    ensures NonIncreasing(SortDesc(s, f), f)
    decreases |s|
  {
    if s != [] {
      SortDescSorted(s[1..], f);
      InsertDescSorted(s[0], SortDesc(s[1..], f), f);
    }
  }

  /** The words of s with count v, in order. */
  function WithCount(s: seq<string>, f: map<string, nat>, v: nat): seq<string>
    decreases |s|
  {
    if s == [] then [] else (if Freq(f, s[0]) == v then [s[0]] else []) + WithCount(s[1..], f, v)
  }

  lemma {:induction false} InsertDescStable(w: string, r: seq<string>, f: map<string, nat>, v: nat)
    ensures WithCount(InsertDesc(w, r, f), f, v) == (if Freq(f, w) == v then [w] else []) + WithCount(r, f, v)
    decreases |r|
  {
    if r == [] || Freq(f, w) >= Freq(f, r[0]) {
      assert ([w] + r)[1..] == r;
    } else {
      InsertDescStable(w, r[1..], f, v);
      assert ([r[0]] + InsertDesc(w, r[1..], f))[1..] == InsertDesc(w, r[1..], f);
    }
  }

  /** Sorting is stable: the words of each count come out in the order they went in. */
  lemma {:induction false} SortDescStable(s: seq<string>, f: map<string, nat>, v: nat)
    ensures WithCount(SortDesc(s, f), f, v) == WithCount(s, f, v)
    decreases |s|
  {
    if s != [] {
      SortDescStable(s[1..], f, v);
      InsertDescStable(s[0], SortDesc(s[1..], f), f, v);
    }
  }

  /** extract_keywords: the counted words, most frequent first (ties in first-seen order), cut to max_keywords. */
  function Keywords(text: string, maxKeywords: int): seq<string>
  {
    var counted := CountedWords(HangulWords(text));
    Slice(SortDesc(Dedup(counted), Frequencies(counted)), 0, maxKeywords)
  }

  /** extract_keywords: findall, then the counting loop over the words, then the sort and the slice. */
  method ExtractKeywords(text: string, maxKeywords: int) returns (r: seq<string>)
    ensures r == Keywords(text, maxKeywords)
  {
    var words := HangulWords(text);
    var wordFreq: map<string, nat> := map[];
    var order: seq<string> := [];
    for i := 0 to |words|
      invariant wordFreq == Frequencies(CountedWords(words[..i]))
      invariant order == Dedup(CountedWords(words[..i]))
    {
      var word := words[i];
      CountedStep(words, i);
      ghost var before := CountedWords(words[..i]);
      if word !in Stopwords && |word| >= 2 {
        CountStep(before, word, wordFreq, order);
        if word !in wordFreq {
          order := order + [word];
        }
        wordFreq := wordFreq[word := (if word in wordFreq then wordFreq[word] else 0) + 1];
        assert CountedWords(words[..i + 1]) == before + [word];
      } else {
        assert CountedWords(words[..i + 1]) == before + [];
        assert before + [] == before;
      }
    }
    assert words[..|words|] == words;
    var sortedWords := SortDesc(order, wordFreq);
    r := Slice(sortedWords, 0, maxKeywords);
  }

  /** One more word extends the counted words by that word exactly when it is counted. */
  lemma CountedStep(words: seq<string>, i: nat)
    requires i < |words|
    ensures CountedWords(words[..i + 1]) == CountedWords(words[..i]) + (if Counted(words[i]) then [words[i]] else [])
  {
    assert words[..i + 1][..i] == words[..i];
  }

  /** One more counted word: its count goes up by one, and it joins the key order when it is new. */
  lemma CountStep(before: seq<string>, word: string, freq: map<string, nat>, order: seq<string>)
    requires freq == Frequencies(before) && order == Dedup(before)
    ensures Frequencies(before + [word]) == freq[word := Freq(freq, word) + 1]
    ensures Dedup(before + [word]) == if word in freq then order else order + [word]
  {
    FrequenciesSnoc(before, word);
    FrequenciesCount(before, word);
    assert (before + [word])[..|before|] == before;
  }

  /** The keywords are a prefix of the sorted word order, which holds each counted word once. */
  lemma KeywordsPrefix(text: string, maxKeywords: int)
    ensures var counted := CountedWords(HangulWords(text));
      var sorted := SortDesc(Dedup(counted), Frequencies(counted));
      && Keywords(text, maxKeywords) == sorted[..Clamp(maxKeywords, |sorted|)]
      && (0 <= maxKeywords ==> Clamp(maxKeywords, |sorted|) <= maxKeywords)
      && Distinct(sorted)
      && (forall x :: x in sorted <==> x in counted)
      && NonIncreasing(sorted, Frequencies(counted))
  {
    var counted := CountedWords(HangulWords(text));
    var f := Frequencies(counted);
    var order := Dedup(counted);
    var sorted := SortDesc(order, f);
    SortDescSorted(order, f);
    DistinctPermutation(order, sorted);
    forall x ensures x in sorted <==> x in order {
      assert x in sorted <==> x in multiset(sorted);
      assert x in order <==> x in multiset(order);
    }
  }

  /**
   * What extract_keywords returns: distinct Hangul words of the text, none a stopword, at most
   * max_keywords of them.
   */
  lemma KeywordsMeaning(text: string, maxKeywords: int)
    ensures var r := Keywords(text, maxKeywords);
      && Distinct(r)
      && (0 <= maxKeywords ==> |r| <= maxKeywords)
      && (forall k :: 0 <= k < |r| ==> IsHangulWord(r[k]) && r[k] !in Stopwords && r[k] in HangulWords(text))
  {
    var words := HangulWords(text);
    var counted := CountedWords(words);
    var sorted := SortDesc(Dedup(counted), Frequencies(counted));
    var r := Keywords(text, maxKeywords);
    KeywordsPrefix(text, maxKeywords);
    forall k | 0 <= k < |r| ensures IsHangulWord(r[k]) && r[k] !in Stopwords && r[k] in words {
      assert r[k] == sorted[k];
      CountedMember(words, r[k]);
      HangulMember(text, r[k]);
    }
  }

  /** A counted word counts and is a word of the text. */
  lemma CountedMember(words: seq<string>, x: string)
    requires x in CountedWords(words)
    ensures Counted(x) && x in words
  {
    CountedWordsFrom(words);
    var i :| 0 <= i < |CountedWords(words)| && CountedWords(words)[i] == x;
  }

  /** Whatever findall returns is a Hangul word. */
  lemma HangulMember(text: string, x: string)
    requires x in HangulWords(text)
    ensures IsHangulWord(x)
  {
    HangulWordsAreWords(text);
    var i :| 0 <= i < |HangulWords(text)| && HangulWords(text)[i] == x;
  }

  /** The keywords come most frequent first. */
  lemma KeywordsByFrequency(text: string, maxKeywords: int)
    ensures var r := Keywords(text, maxKeywords);
      var words := HangulWords(text);
      forall i, j :: 0 <= i < j < |r| ==> multiset(words)[r[i]] >= multiset(words)[r[j]]
  {
    var words := HangulWords(text);
    var counted := CountedWords(words);
    var f := Frequencies(counted);
    var sorted := SortDesc(Dedup(counted), f);
    var r := Keywords(text, maxKeywords);
    KeywordsPrefix(text, maxKeywords);
    CountedWordsFrom(words);
    forall i, j | 0 <= i < j < |r| ensures multiset(words)[r[i]] >= multiset(words)[r[j]] {
      assert r[i] == sorted[i] && r[j] == sorted[j];
      KeywordCount(words, r[i]);
      KeywordCount(words, r[j]);
    }
  }

  /** A counted word's count in word_freq is its number of occurrences in the text. */
  lemma KeywordCount(words: seq<string>, w: string)
    requires w in CountedWords(words)
    ensures Freq(Frequencies(CountedWords(words)), w) == multiset(words)[w]
  {
    CountedWordsFrom(words);
    FrequenciesCount(CountedWords(words), w);
    CountedWordCount(words, w);
  }

  /** No word of the text left out of the keywords is more frequent than one that was kept. */
  lemma KeywordsAreTheMostFrequent(text: string, maxKeywords: int)
    requires 0 <= maxKeywords
    ensures var r := Keywords(text, maxKeywords);
      var words := HangulWords(text);
      forall w, k :: w in words && w !in Stopwords && w !in r && 0 <= k < |r| ==>
        multiset(words)[w] <= multiset(words)[r[k]]
  {
    var words := HangulWords(text);
    var r := Keywords(text, maxKeywords);
    forall w, k | w in words && w !in Stopwords && w !in r && 0 <= k < |r|
      ensures multiset(words)[w] <= multiset(words)[r[k]]
    {
      KeptOutranks(text, maxKeywords, w, k);
    }
  }

  /** A word left out of the keywords occurs at most as often as keyword k. */
  lemma KeptOutranks(text: string, maxKeywords: int, w: string, k: nat)
    requires 0 <= maxKeywords
    requires w in HangulWords(text) && w !in Stopwords && w !in Keywords(text, maxKeywords)
    requires k < |Keywords(text, maxKeywords)|
    ensures multiset(HangulWords(text))[w] <= multiset(HangulWords(text))[Keywords(text, maxKeywords)[k]]
  {
    var words := HangulWords(text);
    var counted := CountedWords(words);
    var f := Frequencies(counted);
    var sorted := SortDesc(Dedup(counted), f);
    var r := Keywords(text, maxKeywords);
    var n := Clamp(maxKeywords, |sorted|);
    KeywordsPrefix(text, maxKeywords);
    HangulMember(text, w);
    CountedWordCount(words, w);
    assert w in counted by {
      assert w in multiset(counted);
    }
    var p := LeftOut(sorted, n, w);
    assert r[k] == sorted[k];
    KeywordCount(words, w);
    KeywordCount(words, r[k]);
  }

  /** A word of the sorted order that is not in its first n places sits at a place n or later. */
  lemma LeftOut(sorted: seq<string>, n: nat, w: string) returns (p: nat)
    requires n <= |sorted| && w in sorted && w !in sorted[..n]
    ensures n <= p < |sorted| && sorted[p] == w
  {
    p :| 0 <= p < |sorted| && sorted[p] == w;
  }

  /** Ties keep their first-seen order: among keywords of equal count, the one met first comes first. */
  lemma KeywordsStable(text: string, v: nat)
    ensures var counted := CountedWords(HangulWords(text));
      WithCount(SortDesc(Dedup(counted), Frequencies(counted)), Frequencies(counted), v)
        == WithCount(Dedup(counted), Frequencies(counted), v)
  {
    var counted := CountedWords(HangulWords(text));
    SortDescStable(Dedup(counted), Frequencies(counted), v);
  }
}
