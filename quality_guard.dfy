/**
 * src/llm/quality_guard.py: the rule-based quality checks of a generated post, the improvement
 * suggestions for failed checks, and the regenerate-until-it-passes loop. The LLM's output for
 * each attempt is a parameter; the refinement prompt it is given is outside this model.
 */
module QualityGuard {
  import opened Wrappers
  import opened Strings

  /** PromptConfig's fields the guard reads; the defaults are 1600-1900 chars, 3 subheadings, both sections required. */
  datatype PromptConfig = PromptConfig(minChars: int, maxChars: int, minSubheadings: int,
                                       requireChecklist: bool, requireDisclaimer: bool)

  const DefaultConfig := PromptConfig(1600, 1900, 3, true, true)

  const Pass := "통과"
  const Fail := "실패"

  datatype Check = Length | Subheadings | Checklist | Disclaimer | Structure | Tone

  /** The checks in the order they run and report. */
  const AllChecks: seq<Check> := [Length, Subheadings, Checklist, Disclaimer, Structure, Tone]

  /** The key of a check in `scores` and `reasons`. */
  function Name(c: Check): string
  {
    match c
    case Length => "length"
    case Subheadings => "subheadings"
    case Checklist => "checklist"
    case Disclaimer => "disclaimer"
    case Structure => "structure"
    case Tone => "tone"
  }

  /** The check a reason names, if any. */
  function CheckNamed(n: string): (r: Option<Check>)
    ensures r.Some? ==> Name(r.value) == n
    ensures forall c :: Name(c) == n ==> r == Some(c)
  {
    if n == "length" then Some(Length)
    else if n == "subheadings" then Some(Subheadings)
    else if n == "checklist" then Some(Checklist)
    else if n == "disclaimer" then Some(Disclaimer)
    else if n == "structure" then Some(Structure)
    else if n == "tone" then Some(Tone)
    else None
  }

  /** Multi-line `^`: position i starts a line. */
  predicate LineStart(s: string, i: int)
  {
    i == 0 || (0 < i <= |s| && s[i - 1] == '\n')
  }

  /** The text at position i starts with w. */
  predicate At(s: string, i: nat, w: string)
  {
    i + |w| <= |s| && s[i..i + |w|] == w
  }

  /** The length of the run of whitespace starting at i. */
  function SpaceRun(s: string, i: nat): (n: nat)
    ensures i + n <= |s| || (i > |s| && n == 0)
    ensures forall k :: i <= k < i + n ==> IsSpace(s[k])
    ensures i + n < |s| ==> !IsSpace(s[i + n])
    decreases |s| - i
  {
    if i < |s| && IsSpace(s[i]) then 1 + SpaceRun(s, i + 1) else 0
  }

  /** `^##\s+` matches at i. */
  predicate SubheadingAt(s: string, i: nat)
  {
    LineStart(s, i) && At(s, i, "##") && i + 2 < |s| && IsSpace(s[i + 2])
  }

  /**
   * The number of `^##\s+` matches that findall reports from position i on. A match's whitespace run
   * never reaches another line's "##", so the matches are exactly the positions where one starts.
   */
  function SubheadingsFrom(s: string, i: nat): (n: nat)
    requires i <= |s|
    decreases |s| - i
  {
    if i == |s| then 0 else (if SubheadingAt(s, i) then 1 else 0) + SubheadingsFrom(s, i + 1)
  }

  /** Each position holds at most one match, and none are reported exactly when none starts from i on. */
  lemma {:induction false} SubheadingsBounds(s: string, i: nat)
    requires i <= |s|
    ensures SubheadingsFrom(s, i) <= |s| - i
    ensures SubheadingsFrom(s, i) == 0 <==> forall k :: i <= k < |s| ==> !SubheadingAt(s, k)
    decreases |s| - i
  {
    if i < |s| {
      SubheadingsBounds(s, i + 1);
    }
  }

  /** `^##\s+<word>`: a level-two heading whose first word is w (w starts with a non-space). */
  predicate HeadingAt(s: string, i: nat, w: string)
  {
    LineStart(s, i) && At(s, i, "##") && SpaceRun(s, i + 2) >= 1 && At(s, i + 2 + SpaceRun(s, i + 2), w)
  }

  /** `^#\s+`: a title line. */
  predicate TitleAt(s: string, i: nat)
  {
    LineStart(s, i) && At(s, i, "#") && SpaceRun(s, i + 1) >= 1
  }

  /** `^##\s+들어가는\s+글`: the introduction heading. */
  predicate IntroAt(s: string, i: nat)
  {
    HeadingAt(s, i, "들어가는")
    && var j := i + 2 + SpaceRun(s, i + 2) + |"들어가는"|;
    SpaceRun(s, j) >= 1 && At(s, j + SpaceRun(s, j), "글")
  }

  /** The three parts _check_structure looks for. */
  datatype Part = Title | Intro | Closing

  /** The part's pattern matches at i: `^#\s+`, `^##\s+들어가는\s+글`, `^##\s+마무리`. */
  predicate PartAt(s: string, i: nat, p: Part)
  {
    match p
    case Title => TitleAt(s, i)
    case Intro => IntroAt(s, i)
    case Closing => HeadingAt(s, i, "마무리")
  }

  /** re.search from position i on: the part's pattern matches somewhere at i or later. */
  predicate FoundFrom(s: string, i: nat, p: Part)
    decreases |s| - i
  {
    i <= |s| && (PartAt(s, i, p) || FoundFrom(s, i + 1, p))
  }

  /** The scan finds a part exactly when its pattern matches at some position from i on. */
  lemma {:induction false} FoundFromIff(s: string, i: nat, p: Part)
    ensures FoundFrom(s, i, p) <==> exists k :: i <= k <= |s| && PartAt(s, k, p)
    decreases |s| - i
  {
    if i <= |s| {
      FoundFromIff(s, i + 1, p);
      if exists k :: i <= k <= |s| && PartAt(s, k, p) {
        var k :| i <= k <= |s| && PartAt(s, k, p);
        assert k == i || (i + 1 <= k <= |s| && PartAt(s, k, p));
      }
    }
  }

  const ChecklistKeywords: seq<string> := ["체크리스트", "checklist", "□", "☐", "•", "✓", "체크"]
  const DisclaimerKeywords: seq<string> := ["디스클레이머", "disclaimer", "법적 고지", "법적 고지사항", "법적 자문", "전문가 상담", "개별 사안"]
  const ToneKeywords: seq<string> := ["법무법인 혜안", "전문 변호사", "채권자", "채권 회수", "실용적", "구체적", "효과적", "전문적"]
  const InappropriateKeywords: seq<string> := ["확실히", "절대적으로", "100%", "완벽하게", "무조건"]

  /** Whether the check passes (the `_check_*` methods return "통과" exactly then). */
  predicate Passes(cfg: PromptConfig, content: string, c: Check)
  {
    match c
    case Length => cfg.minChars <= |content| <= cfg.maxChars
    case Subheadings => SubheadingsFrom(content, 0) >= cfg.minSubheadings
    case Checklist => !cfg.requireChecklist || ContainsAny(content, ChecklistKeywords)
    case Disclaimer => !cfg.requireDisclaimer || ContainsAny(content, DisclaimerKeywords)
    case Structure => FoundFrom(content, 0, Title) && FoundFrom(content, 0, Intro) && FoundFrom(content, 0, Closing)
    case Tone => ContainsAny(content, ToneKeywords) && !ContainsAny(content, InappropriateKeywords)
  }

  /** _check_subheadings counts the `^##\s+` matches; content with none fails whenever any are required. */
  lemma SubheadingCheck(cfg: PromptConfig, content: string)
    ensures cfg.minSubheadings > 0 && (forall k :: 0 <= k < |content| ==> !SubheadingAt(content, k)) ==>
      !Passes(cfg, content, Subheadings)
    ensures cfg.minSubheadings > |content| ==> !Passes(cfg, content, Subheadings)
  {
    SubheadingsBounds(content, 0);
  }

  /**
   * _check_checklist and _check_disclaimer: a section that is not required passes outright; a required
   * one passes exactly when one of its keywords occurs.
   */
  lemma SectionChecks(cfg: PromptConfig, content: string)
    ensures !cfg.requireChecklist ==> Passes(cfg, content, Checklist)
    ensures cfg.requireChecklist ==>
      (Passes(cfg, content, Checklist) <==> exists k :: k in ChecklistKeywords && Contains(content, k))
    ensures !cfg.requireDisclaimer ==> Passes(cfg, content, Disclaimer)
    ensures cfg.requireDisclaimer ==>
      (Passes(cfg, content, Disclaimer) <==> exists k :: k in DisclaimerKeywords && Contains(content, k))
  {
    ContainsAnyIff(content, ChecklistKeywords);
    ContainsAnyIff(content, DisclaimerKeywords);
  }

  /** _check_tone passes exactly when an approved keyword occurs and no inappropriate one does. */
  lemma ToneCheck(cfg: PromptConfig, content: string)
    ensures Passes(cfg, content, Tone) <==>
      ((exists k :: k in ToneKeywords && Contains(content, k))
       && !exists k :: k in InappropriateKeywords && Contains(content, k))
  {
    ContainsAnyIff(content, ToneKeywords);
    ContainsAnyIff(content, InappropriateKeywords);
  }

  /** _check_structure passes exactly when the title, the introduction and the closing each match somewhere. */
  lemma StructureCheck(cfg: PromptConfig, content: string)
    ensures Passes(cfg, content, Structure) <==>
      && (exists k :: 0 <= k <= |content| && PartAt(content, k, Title))
      && (exists k :: 0 <= k <= |content| && PartAt(content, k, Intro))
      && (exists k :: 0 <= k <= |content| && PartAt(content, k, Closing))
  {
    FoundFromIff(content, 0, Title);
    FoundFromIff(content, 0, Intro);
    FoundFromIff(content, 0, Closing);
  }

  /** The score a check records. */
  function Score(cfg: PromptConfig, content: string, c: Check): (r: string)
    ensures r == Pass || r == Fail
    ensures r == Fail <==> !Passes(cfg, content, c)
  {
    if Passes(cfg, content, c) then Pass else Fail
  }

  /** The names of the failing checks among `cs`, in their order. */
  function Failed(cfg: PromptConfig, content: string, cs: seq<Check>): (r: seq<string>)
    ensures |r| <= |cs|
    ensures forall i :: 0 <= i < |r| ==> CheckNamed(r[i]).Some?
    decreases |cs|
  {
    if cs == [] then []
    else
      var init := Failed(cfg, content, cs[..|cs| - 1]);
      var c := cs[|cs| - 1];
      if Passes(cfg, content, c) then init else init + [Name(c)]
  }

  /** A check among `cs` is reported exactly when it fails. */
  lemma {:induction false} FailedIff(cfg: PromptConfig, content: string, cs: seq<Check>, c: Check)
    requires c in cs
    ensures Name(c) in Failed(cfg, content, cs) <==> !Passes(cfg, content, c)
    decreases |cs|
  {
    var init := cs[..|cs| - 1];
    var last := cs[|cs| - 1];
    assert cs == init + [last];
    if c == last {
      if c in init {
        FailedIff(cfg, content, init, c);
      } else {
        FailedAbsent(cfg, content, init, c);
      }
    } else {
      FailedIff(cfg, content, init, c);
    }
  }

  /** A check not among `cs` is never reported for them. */
  lemma {:induction false} FailedAbsent(cfg: PromptConfig, content: string, cs: seq<Check>, c: Check)
    requires c !in cs
    ensures Name(c) !in Failed(cfg, content, cs)
    decreases |cs|
  {
    if cs != [] {
      var init := cs[..|cs| - 1];
      assert cs == init + [cs[|cs| - 1]];
      FailedAbsent(cfg, content, init, c);
    }
  }

  datatype QualityResult = QualityResult(passed: bool, reasons: seq<string>, scores: map<string, string>, retries: int)

  /** Running one more check appends its name exactly when it fails. */
  lemma FailedSnoc(cfg: PromptConfig, content: string, cs: seq<Check>, c: Check)
    ensures Failed(cfg, content, cs + [c]) == Failed(cfg, content, cs) + Reported(Score(cfg, content, c), Name(c))
  {
    assert (cs + [c])[..|cs|] == cs;
  }

  /**
   * The verdict over all six checks: a check is among the reasons exactly when it fails, and there are
   * no reasons exactly when every check passes.
   */
  lemma Verdict(cfg: PromptConfig, content: string)
    ensures forall c :: Name(c) in Failed(cfg, content, AllChecks) <==> !Passes(cfg, content, c)
    ensures Failed(cfg, content, AllChecks) == [] <==> forall c :: Passes(cfg, content, c)
  {
    var r := Failed(cfg, content, AllChecks);
    forall c
      ensures Name(c) in r <==> !Passes(cfg, content, c)
    {
      assert AllChecks[Position(c)] == c;
      FailedIff(cfg, content, AllChecks, c);
    }
    if r != [] {
      var c := CheckNamed(r[0]).value;
      assert Name(c) in r;
    }
  }

  /** Where a check stands in AllChecks. */
  function Position(c: Check): (i: nat)
    ensures i < |AllChecks| && AllChecks[i] == c
  {
    match c
    case Length => 0
    case Subheadings => 1
    case Checklist => 2
    case Disclaimer => 3
    case Structure => 4
    case Tone => 5
  }

  /** The six checks' failures over AllChecks, one check after the other. */
  lemma FailedAll(cfg: PromptConfig, content: string)
    ensures Failed(cfg, content, AllChecks) ==
      [] + Reported(Score(cfg, content, Length), "length") + Reported(Score(cfg, content, Subheadings), "subheadings")
      + Reported(Score(cfg, content, Checklist), "checklist") + Reported(Score(cfg, content, Disclaimer), "disclaimer")
      + Reported(Score(cfg, content, Structure), "structure") + Reported(Score(cfg, content, Tone), "tone")
  {
    FailedSnoc(cfg, content, [], Length);
    assert [] + [Length] == [Length];
    FailedSnoc(cfg, content, [Length], Subheadings);
    assert [Length] + [Subheadings] == [Length, Subheadings];
    FailedSnoc(cfg, content, [Length, Subheadings], Checklist);
    assert [Length, Subheadings] + [Checklist] == [Length, Subheadings, Checklist];
    FailedSnoc(cfg, content, [Length, Subheadings, Checklist], Disclaimer);
    assert [Length, Subheadings, Checklist] + [Disclaimer] == [Length, Subheadings, Checklist, Disclaimer];
    FailedSnoc(cfg, content, [Length, Subheadings, Checklist, Disclaimer], Structure);
    assert [Length, Subheadings, Checklist, Disclaimer] + [Structure] == [Length, Subheadings, Checklist, Disclaimer, Structure];
    FailedSnoc(cfg, content, [Length, Subheadings, Checklist, Disclaimer, Structure], Tone);
    assert [Length, Subheadings, Checklist, Disclaimer, Structure] + [Tone] == [Length, Subheadings, Checklist, Disclaimer, Structure, Tone];
  }

  /** Six scores recorded one after the other, each under its check's name, are found under those names. */
  lemma ScoresNamed(score: Check -> string, scores: map<string, string>)
    requires scores == map[]["length" := score(Length)]["subheadings" := score(Subheadings)]
      ["checklist" := score(Checklist)]["disclaimer" := score(Disclaimer)]
      ["structure" := score(Structure)]["tone" := score(Tone)]
    ensures scores.Keys == {"length", "subheadings", "checklist", "disclaimer", "structure", "tone"}
    ensures forall c :: Name(c) in scores && scores[Name(c)] == score(c)
  {
    forall c
      ensures Name(c) in scores && scores[Name(c)] == score(c)
    {
      match c
      case Length =>
      case Subheadings =>
      case Checklist =>
      case Disclaimer =>
      case Structure =>
      case Tone =>
    }
  }

  /** The reason a check's score adds: its name when it failed. */
  function Reported(score: string, name: string): seq<string>
  {
    if score == Fail then [name] else []
  }

  /**
   * check_content_quality: every check records its score under its name, a failing one appends its
   * name to the reasons in the fixed order, and the content passes exactly when nothing failed
   * (Verdict says what the reasons then are).
   */
  method CheckContentQuality(cfg: PromptConfig, content: string) returns (r: QualityResult)
    ensures r.scores.Keys == {"length", "subheadings", "checklist", "disclaimer", "structure", "tone"}
    ensures forall c :: r.scores[Name(c)] == Score(cfg, content, c)
    ensures r.reasons == Failed(cfg, content, AllChecks)
    ensures r.passed <==> r.reasons == []
    ensures r.passed <==> forall c :: Passes(cfg, content, c)
    ensures r.retries == 0
  {
    var reasons: seq<string> := [];
    var scores: map<string, string> := map[];
    var lengthScore := Score(cfg, content, Length);
    scores := scores["length" := lengthScore];
    reasons := reasons + Reported(lengthScore, "length");
    var subheadingScore := Score(cfg, content, Subheadings);
    scores := scores["subheadings" := subheadingScore];
    reasons := reasons + Reported(subheadingScore, "subheadings");
    var checklistScore := Score(cfg, content, Checklist);
    scores := scores["checklist" := checklistScore];
    reasons := reasons + Reported(checklistScore, "checklist");
    var disclaimerScore := Score(cfg, content, Disclaimer);
    scores := scores["disclaimer" := disclaimerScore];
    reasons := reasons + Reported(disclaimerScore, "disclaimer");
    var structureScore := Score(cfg, content, Structure);
    scores := scores["structure" := structureScore];
    reasons := reasons + Reported(structureScore, "structure");
    var toneScore := Score(cfg, content, Tone);
    scores := scores["tone" := toneScore];
    reasons := reasons + Reported(toneScore, "tone");
    FailedAll(cfg, content);
    ScoresNamed(c => Score(cfg, content, c), scores);
    Verdict(cfg, content);
    r := QualityResult(|reasons| == 0, reasons, scores, 0);
  }

  /** f"{n:,}" for a natural number: digits grouped by three with commas. */
  function Grouped(n: nat): string
    decreases n
  {
    if n < 1000 then NatToString(n) else Grouped(n / 1000) + "," + Pad3(n % 1000)
  }

  /** f"{n:,}" for an integer. */
  function GroupedInt(n: int): string
  {
    if n < 0 then "-" + Grouped(-n) else Grouped(n)
  }

  /** The suggestion for one reason, none for a reason that is not one of the six. */
  function Suggestion(cfg: PromptConfig, reason: string): (r: Option<string>)
    ensures r.Some? <==> CheckNamed(reason).Some?
  {
    if reason == "length" then
      Some("글 길이를 " + GroupedInt(cfg.minChars) + "자 이상 " + GroupedInt(cfg.maxChars) + "자 이하로 조정해주세요.")
    else if reason == "subheadings" then Some("## 소제목을 " + IntToString(cfg.minSubheadings) + "개 이상 추가해주세요.")
    else if reason == "checklist" then Some("실무 체크리스트 섹션을 추가해주세요.")
    else if reason == "disclaimer" then Some("법적 디스클레이머 섹션을 추가해주세요.")
    else if reason == "structure" then Some("제목, 들어가는 글, 마무리 섹션을 모두 포함해주세요.")
    else if reason == "tone" then Some("법무법인 혜안의 전문적이면서 따뜻한 톤을 유지해주세요.")
    else None
  }

  /** The suggestions for the reasons, in order, skipping unknown reasons. */
  function Suggestions(cfg: PromptConfig, reasons: seq<string>): (r: seq<string>)
    ensures |r| <= |reasons|
    decreases |reasons|
  {
    if reasons == [] then []
    else
      var s := Suggestion(cfg, reasons[|reasons| - 1]);
      Suggestions(cfg, reasons[..|reasons| - 1]) + (if s.Some? then [s.value] else [])
  }

  /** Reasons that all name a check get exactly one suggestion each. */
  lemma {:induction false} OneSuggestionEach(cfg: PromptConfig, reasons: seq<string>)
    requires forall i :: 0 <= i < |reasons| ==> CheckNamed(reasons[i]).Some?
    ensures |Suggestions(cfg, reasons)| == |reasons|
    ensures forall i :: 0 <= i < |reasons| ==> Suggestions(cfg, reasons)[i] == Suggestion(cfg, reasons[i]).value
    decreases |reasons|
  {
    if reasons != [] {
      var init := reasons[..|reasons| - 1];
      assert forall i :: 0 <= i < |init| ==> init[i] == reasons[i];
      OneSuggestionEach(cfg, init);
    }
  }

  /** The reasons check_content_quality reports always name a check, so each gets its suggestion. */
  lemma FailedReasonsAreKnown(cfg: PromptConfig, content: string)
    ensures |Suggestions(cfg, Failed(cfg, content, AllChecks))| == |Failed(cfg, content, AllChecks)|
  {
    OneSuggestionEach(cfg, Failed(cfg, content, AllChecks));
  }

  /** get_improvement_suggestions */
  method GetImprovementSuggestions(cfg: PromptConfig, reasons: seq<string>) returns (suggestions: seq<string>)
    ensures suggestions == Suggestions(cfg, reasons)
  {
    suggestions := [];
    for i := 0 to |reasons|
      invariant suggestions == Suggestions(cfg, reasons[..i])
    {
      assert reasons[..i + 1][..i] == reasons[..i];
      var s := Suggestion(cfg, reasons[i]);
      if s.Some? {
        suggestions := suggestions + [s.value];
      }
    }
    assert reasons[..|reasons|] == reasons;
  }

  /**
   * generate_with_quality_guard's loop: attempt k produces `attempts(k)` (None when generation raised).
   * The first passing attempt is returned with its index as `retries`; after max_retries failed
   * retries the last content is returned as it is, or the last exception is raised. With a negative
   * max_retries nothing is attempted and the "생성 실패" result comes back.
   */
  method GenerateWithQualityGuard(cfg: PromptConfig, maxRetries: int, attempts: nat -> Option<string>)
    returns (r: Result<(string, QualityResult), string>)
    ensures maxRetries < 0 ==> r == Ok(("", QualityResult(false, ["생성 실패"], map[], 0)))
    ensures r.Err? ==> maxRetries >= 0 && attempts(maxRetries).None?
    ensures r.Ok? && maxRetries >= 0 ==>
      && 0 <= r.value.1.retries <= maxRetries
      && attempts(r.value.1.retries) == Some(r.value.0)
      && (r.value.1.passed <==> forall c :: Passes(cfg, r.value.0, c))
      && (!r.value.1.passed ==> r.value.1.retries == maxRetries)
    ensures r.Ok? && maxRetries >= 0 ==> forall k :: 0 <= k < r.value.1.retries ==>
      attempts(k).None? || exists c :: !Passes(cfg, attempts(k).value, c)
    ensures r.Err? ==> forall k :: 0 <= k <= maxRetries ==>
      attempts(k).None? || exists c :: !Passes(cfg, attempts(k).value, c)
  {
    var retries: nat := 0;
    while retries <= maxRetries
      invariant maxRetries >= 0 ==> retries <= maxRetries
      invariant forall k :: 0 <= k < retries ==>
        attempts(k).None? || exists c :: !Passes(cfg, attempts(k).value, c)
      decreases maxRetries - retries
    {
      var out := attempts(retries);
      if out.None? {
        if retries < maxRetries {
          retries := retries + 1;
          continue;
        }
        return Err("generation failed");
      }
      var q := CheckContentQuality(cfg, out.value);
      q := q.(retries := retries);
      if q.passed {
        return Ok((out.value, q));
      }
      if retries < maxRetries {
        retries := retries + 1;
      } else {
        return Ok((out.value, q));
      }
    }
    return Ok(("", QualityResult(false, ["생성 실패"], map[], 0)));
  }
}
