/**
 * api/core/config.py: the settings read from the environment, their validation and the CORS origins.
 * The environment is a parameter (a map from variable name to value).
 */
module Config {
  import opened Wrappers
  import opened Strings
  import opened Collections

  /** The settings validate_settings, get_cors_origins and the request handlers read. */
  datatype Settings = Settings(
    debug: bool, port: int, reload: bool, corsOrigins: seq<string>,
    naverBlogId: string, naverCategoryNo: int, crawlDelayMin: int, crawlDelayMax: int, maxPagesPerCrawl: int,
    topkFirst: int, topkFinal: int,
    llmProvider: string, geminiApiKey: Option<string>,
    genMinChars: int, genMaxChars: int, genMinSubheadings: int,
    genRequireChecklist: bool, genRequireDisclaimer: bool, genMaxRetry: int,
    uploadEnabled: bool, uploadRateLimitSec: int,
    accessTokenExpireMinutes: int, maxWorkers: int, requestTimeout: int)

  /** The declared defaults of Settings. */
  function Defaults(): Settings
  {
    Settings(false, 8000, false, ["http://localhost:3000", "http://127.0.0.1:3000"],
             "tjwlswlsdl", 6, 600, 1400, 5,
             20, 6,
             "ollama", None,
             1600, 1900, 3,
             true, true, 2,
             false, 15,
             30, 4, 30)
  }

  /** os.getenv(name, default) */
  function Getenv(env: map<string, string>, name: string, default: string): string
  {
    if name in env then env[name] else default
  }

  /** A boolean flag: true exactly when the value, lower-cased, is "true". */
  predicate Flag(v: string)
  {
    Lower(v) == "true"
  }

  /** Only a spelling of "true" turns a flag on. */
  lemma FlagMeaning(v: string)
    ensures Flag(v) <==> |v| == 4 && LowerChar(v[0]) == 't' && LowerChar(v[1]) == 'r' && LowerChar(v[2]) == 'u' && LowerChar(v[3]) == 'e'
    ensures Flag("true") && Flag("TRUE") && Flag("True") && !Flag("false") && !Flag("1") && !Flag("yes") && !Flag("")
  {
    if |v| == 4 {
      assert Lower(v) == [LowerChar(v[0]), LowerChar(v[1]), LowerChar(v[2]), LowerChar(v[3])];
    }
    assert Lower("TRUE") == "true";
    assert Lower("True") == "true";
    assert Lower("1") != "true";
  }

  /**
   * The variables from_env converts with int(), in the order it reads them, each with the number its
   * default string spells.
   */
  const IntVars: seq<(string, nat)> := [
    ("PORT", 8000), ("NAVER_CATEGORY_NO", 6), ("CRAWL_DELAY_MS_MIN", 600), ("CRAWL_DELAY_MS_MAX", 1400),
    ("MAX_PAGES_PER_CRAWL", 5), ("TOPK_FIRST", 20), ("TOPK_FINAL", 6), ("GEN_MIN_CHARS", 1600),
    ("GEN_MAX_CHARS", 1900), ("GEN_MIN_SUBHEADINGS", 3), ("GEN_MAX_RETRY", 2), ("UPLOAD_RATE_LIMIT_SEC", 15),
    ("ACCESS_TOKEN_EXPIRE_MINUTES", 30), ("MAX_WORKERS", 4), ("REQUEST_TIMEOUT", 30)]

  /** int(os.getenv(name, default)), None for a ValueError; the default is the decimal string of the number. */
  function IntVar(env: map<string, string>, v: (string, nat)): Option<int>
  {
    ParseInt(Getenv(env, v.0, NatToString(v.1)))
  }

  /** What int() makes of each of vars, in order. */
  function Parsed(env: map<string, string>, vars: seq<(string, nat)>): (p: seq<Option<int>>)
    ensures |p| == |vars| && forall i :: 0 <= i < |vars| ==> p[i] == IntVar(env, vars[i])
  {
    seq(|vars|, i requires 0 <= i < |vars| => IntVar(env, vars[i]))
  }

  /** The place of the first failed conversion, |p| when every one succeeded. */
  function FirstNone(p: seq<Option<int>>): (k: nat)
    ensures k <= |p| && (forall j :: 0 <= j < k ==> p[j].Some?) && (k < |p| ==> p[k].None?)
    decreases |p|
  {
    if p == [] then 0 else if p[0].None? then 0 else 1 + FirstNone(p[1..])
  }

  /** The numbers of conversions that all succeeded. */
  function Values(p: seq<Option<int>>): (v: seq<int>)
    requires forall j :: 0 <= j < |p| ==> p[j].Some?
    ensures |v| == |p| && forall j :: 0 <= j < |p| ==> v[j] == p[j].value
  {
    seq(|p|, j requires 0 <= j < |p| => p[j].value)
  }

  /** The settings from the environment's raw strings and the numbers read from the integer variables. */
  function Assemble(env: map<string, string>, n: seq<int>): Settings
    requires |n| == |IntVars|
  {
    Settings(
      Flag(Getenv(env, "DEBUG", "false")), n[0], Flag(Getenv(env, "RELOAD", "false")),
      Split(Getenv(env, "CORS_ORIGINS", "http://localhost:3000,http://127.0.0.1:3000"), ','),
      Getenv(env, "NAVER_BLOG_ID", "tjwlswlsdl"), n[1], n[2], n[3], n[4],
      n[5], n[6],
      Getenv(env, "LLM_PROVIDER", "ollama"), if "GEMINI_API_KEY" in env then Some(env["GEMINI_API_KEY"]) else None,
      n[7], n[8], n[9],
      Flag(Getenv(env, "GEN_REQUIRE_CHECKLIST", "true")), Flag(Getenv(env, "GEN_REQUIRE_DISCLAIMER", "true")), n[10],
      Flag(Getenv(env, "UPLOAD_ENABLED", "false")), n[11],
      n[12], n[13], n[14])
  }

  /**
   * from_env: every setting from its variable or its default; the flags through Flag, CORS_ORIGINS split
   * at commas, GEMINI_API_KEY absent when unset. The first integer variable that int() rejects raises.
   */
  function FromEnv(env: map<string, string>): Result<Settings, string>
  {
    var p := Parsed(env, IntVars);
    var k := FirstNone(p);
    if k < |p| then Err(IntVars[k].0) else Ok(Assemble(env, Values(p)))
  }

  /** from_env fails exactly when some integer variable does not convert, and it names the first such variable. */
  lemma FromEnvFails(env: map<string, string>)
    ensures FromEnv(env).Err? <==> exists i :: 0 <= i < |IntVars| && IntVar(env, IntVars[i]).None?
    ensures FromEnv(env).Err? ==>
      exists i :: (0 <= i < |IntVars| && IntVars[i].0 == FromEnv(env).error
                   && IntVar(env, IntVars[i]).None? && forall j :: 0 <= j < i ==> IntVar(env, IntVars[j]).Some?)
  {
    var p := Parsed(env, IntVars);
    var k := FirstNone(p);
    if k < |p| {
      assert IntVar(env, IntVars[k]).None?;
    }
  }

  /** The flags from_env reads are on exactly when their variable, or its default, spells "true". */
  lemma FromEnvFlags(env: map<string, string>)
    requires FromEnv(env).Ok?
    ensures var s := FromEnv(env).value;
      && (s.debug <==> Flag(Getenv(env, "DEBUG", "false")))
      && (s.reload <==> Flag(Getenv(env, "RELOAD", "false")))
      && (s.genRequireChecklist <==> Flag(Getenv(env, "GEN_REQUIRE_CHECKLIST", "true")))
      && (s.genRequireDisclaimer <==> Flag(Getenv(env, "GEN_REQUIRE_DISCLAIMER", "true")))
      && (s.uploadEnabled <==> Flag(Getenv(env, "UPLOAD_ENABLED", "false")))
  {
  }

  /** The numbers from_env stores are int() of their variables, e.g. the crawl delays. */
  lemma FromEnvNumbers(env: map<string, string>)
    requires FromEnv(env).Ok?
    ensures var s := FromEnv(env).value;
      && Some(s.port) == IntVar(env, ("PORT", 8000))
      && Some(s.crawlDelayMin) == IntVar(env, ("CRAWL_DELAY_MS_MIN", 600))
      && Some(s.crawlDelayMax) == IntVar(env, ("CRAWL_DELAY_MS_MAX", 1400))
  {
    assert IntVars[0] == ("PORT", 8000) && IntVars[2] == ("CRAWL_DELAY_MS_MIN", 600);
    assert IntVars[3] == ("CRAWL_DELAY_MS_MAX", 1400);
  }

  /** One complaint of validate_settings. */
  datatype SettingError =
    | MissingBlogId | NegativeCategory | DelayOrder | NoPages | GeminiKeyMissing
    | UnknownProvider | CharsOrder | NoSubheadings | NegativeRetry | UploadRate

  /** The rule each complaint reports broken. */
  predicate Violated(s: Settings, e: SettingError)
  {
    match e
    case MissingBlogId => s.naverBlogId == ""
    case NegativeCategory => s.naverCategoryNo < 0
    case DelayOrder => s.crawlDelayMin >= s.crawlDelayMax
    case NoPages => s.maxPagesPerCrawl <= 0
    case GeminiKeyMissing => s.llmProvider == "gemini" && (s.geminiApiKey.None? || s.geminiApiKey.value == "")
    case UnknownProvider => s.llmProvider != "gemini" && s.llmProvider != "ollama"
    case CharsOrder => s.genMinChars >= s.genMaxChars
    case NoSubheadings => s.genMinSubheadings <= 0
    case NegativeRetry => s.genMaxRetry < 0
    case UploadRate => s.uploadEnabled && s.uploadRateLimitSec <= 0
  }

  /** The place of each complaint in the order validate_settings checks them. */
  function Rank(e: SettingError): nat
  {
    match e
    case MissingBlogId => 0
    case NegativeCategory => 1
    case DelayOrder => 2
    case NoPages => 3
    case GeminiKeyMissing => 4
    case UnknownProvider => 5
    case CharsOrder => 6
    case NoSubheadings => 7
    case NegativeRetry => 8
    case UploadRate => 9
  }

  /** The number of rules validate_settings checks. */
  const RuleCount := 10

  /** The rule validate_settings checks at place i. */
  function RuleAt(i: nat): (e: SettingError)
    requires i < RuleCount
    ensures Rank(e) == i
  {
    match i
    case 0 => MissingBlogId
    case 1 => NegativeCategory
    case 2 => DelayOrder
    case 3 => NoPages
    case 4 => GeminiKeyMissing
    case 5 => UnknownProvider
    case 6 => CharsOrder
    case 7 => NoSubheadings
    case 8 => NegativeRetry
    case _ => UploadRate
  }

  /** Every complaint is the rule at its rank. */
  lemma RankIsPlace(e: SettingError)
    ensures Rank(e) < RuleCount && RuleAt(Rank(e)) == e
  {
  }

  /** The complaints about the first k rules, in checking order. */
  function Broken(s: Settings, k: nat): seq<SettingError>
    requires k <= RuleCount
  {
    if k == 0 then []
    else if Violated(s, RuleAt(k - 1)) then Broken(s, k - 1) + [RuleAt(k - 1)]
    else Broken(s, k - 1)
  }

  /** A complaint is listed exactly when its rule is broken, and complaints come in checking order. */
  predicate Reports(s: Settings, errors: seq<SettingError>)
  {
    && (forall e :: e in errors <==> Violated(s, e))
    && (forall i, j :: 0 <= i < j < |errors| ==> Rank(errors[i]) < Rank(errors[j]))
  }

  /**
   * validate_settings: the ten checks, one after another in the order RuleAt lists them, each appending
   * its complaint when its rule is broken; the result lists exactly the broken rules, in checking order.
   */
  method ValidateSettings(s: Settings) returns (errors: seq<SettingError>)
    ensures errors == Broken(s, RuleCount)
    ensures Reports(s, errors)
  {
    errors := [];
    for k := 0 to RuleCount
      invariant errors == Broken(s, k)
    {
      if Violated(s, RuleAt(k)) {
        errors := errors + [RuleAt(k)];
      }
    }
    BrokenReports(s);
  }

  /** The complaints about the first k rules are those of the broken rules ranked below k, in rank order. */
  lemma {:induction false} BrokenPrefix(s: Settings, k: nat)
    requires k <= RuleCount
    ensures forall e :: e in Broken(s, k) <==> Violated(s, e) && Rank(e) < k
    ensures forall i :: 0 <= i < |Broken(s, k)| ==> Rank(Broken(s, k)[i]) < k
    ensures forall i, j :: 0 <= i < j < |Broken(s, k)| ==> Rank(Broken(s, k)[i]) < Rank(Broken(s, k)[j])
  {
    if k > 0 {
      BrokenPrefix(s, k - 1);
      forall e ensures e in Broken(s, k) <==> Violated(s, e) && Rank(e) < k {
        RankIsPlace(e);
      }
    }
  }

  /** validate_settings lists exactly the broken rules, in checking order. */
  lemma BrokenReports(s: Settings)
    ensures Reports(s, Broken(s, RuleCount))
  {
    BrokenPrefix(s, RuleCount);
    forall e ensures Rank(e) < RuleCount {
      RankIsPlace(e);
    }
  }

  /** Only one sequence lists a given set of complaints in rank order: Reports pins validate_settings down. */
  lemma {:induction false} ReportsUnique(s: Settings, a: seq<SettingError>, b: seq<SettingError>)
    requires Reports(s, a) && Reports(s, b)
    ensures a == b
    decreases |a|
  {
    SortedUnique(a, b);
  }

  lemma {:induction false} SortedUnique(a: seq<SettingError>, b: seq<SettingError>)
    requires forall e :: e in a <==> e in b
    requires forall i, j :: 0 <= i < j < |a| ==> Rank(a[i]) < Rank(a[j])
    requires forall i, j :: 0 <= i < j < |b| ==> Rank(b[i]) < Rank(b[j])
    ensures a == b
    decreases |a| + |b|
  {
    if a != [] {
      assert a[0] in a;
    }
    if b != [] {
      assert b[0] in b;
    }
    if a != [] && b != [] {
      assert a[0] == b[0] by {
        RankIsPlace(a[0]);
        RankIsPlace(b[0]);
      }
      forall e ensures e in a[1..] <==> e in b[1..] {
        assert e in a <==> e == a[0] || e in a[1..];
        assert e in b <==> e == b[0] || e in b[1..];
      }
      SortedUnique(a[1..], b[1..]);
      assert a == [a[0]] + a[1..] && b == [b[0]] + b[1..];
    }
  }

  /** No rule holds against the declared defaults. */
  lemma DefaultBreaksNothing(e: SettingError)
    ensures !Violated(Defaults(), e)
  {
  }

  /** The declared defaults break none of the first k rules. */
  lemma {:induction false} DefaultsPrefix(k: nat)
    requires k <= RuleCount
    ensures Broken(Defaults(), k) == []
  {
    if k > 0 {
      DefaultsPrefix(k - 1);
      DefaultBreaksNothing(RuleAt(k - 1));
    }
  }

  /** The declared defaults break no rule: validate_settings returns no complaint for them. */
  lemma DefaultsAreValid()
    ensures Broken(Defaults(), RuleCount) == []
  {
    DefaultsPrefix(RuleCount);
  }

  /** An unset integer variable reads as its default number. */
  lemma UnsetIntVar(env: map<string, string>, v: (string, nat))
    requires v.0 !in env
    ensures IntVar(env, v) == Some(v.1)
  {
    ParseNatToString(v.1);
  }

  /** With no environment every integer variable reads as its default number. */
  lemma DefaultInts()
    ensures var p := Parsed(map[], IntVars);
      FirstNone(p) == |p| && Values(p) == seq(|IntVars|, i requires 0 <= i < |IntVars| => IntVars[i].1 as int)
  {
    var p := Parsed(map[], IntVars);
    forall i | 0 <= i < |IntVars| ensures p[i] == Some(IntVars[i].1) {
      UnsetIntVar(map[], IntVars[i]);
    }
  }

  /** The default numbers, in the order from_env reads them. */
  lemma DefaultNumbers()
    ensures seq(|IntVars|, i requires 0 <= i < |IntVars| => IntVars[i].1 as int)
      == [8000, 6, 600, 1400, 5, 20, 6, 1600, 1900, 3, 2, 15, 30, 4, 30]
  {
  }

  /** The flags' defaults: "false" is off and "true" is on. */
  lemma DefaultFlags()
    ensures !Flag("false") && Flag("true")
  {
    assert Lower("false") == "false";
    assert Lower("true") == "true";
  }

  /** The default CORS origins hold no comma, and the default CORS_ORIGINS is the two joined by one. */
  lemma DefaultOriginsText()
    ensures ',' !in "http://localhost:3000" && ',' !in "http://127.0.0.1:3000"
    ensures "http://localhost:3000" + [','] + "http://127.0.0.1:3000" == "http://localhost:3000,http://127.0.0.1:3000"
  {
  }

  /** The default CORS_ORIGINS splits into the two default origins. */
  lemma DefaultOrigins()
    ensures Split("http://localhost:3000,http://127.0.0.1:3000", ',') == ["http://localhost:3000", "http://127.0.0.1:3000"]
  {
    DefaultOriginsText();
    SplitNoSeparator("http://127.0.0.1:3000", ',');
    SplitJoined("http://localhost:3000", "http://127.0.0.1:3000", ',');
  }

  /** With no environment at all, from_env gives the declared defaults. */
  lemma EmptyEnvironmentGivesDefaults()
    ensures FromEnv(map[]) == Ok(Defaults())
  {
    DefaultInts();
    DefaultNumbers();
    DefaultFlags();
    DefaultOrigins();
  }

  /** A string without the separator splits into itself. */
  lemma {:induction false} SplitNoSeparator(s: string, d: char)
    requires d !in s
    ensures Split(s, d) == [s]
    decreases |s|
  {
    if |s| > 0 {
      assert d !in s[1..] by {
        assert forall c :: c in s[1..] ==> c in s;
      }
      SplitNoSeparator(s[1..], d);
      assert [s[0]] + s[1..] == s;
    }
  }

  /** Splitting a + d + b, where a has no d, gives a and then the pieces of b. */
  lemma {:induction false} SplitJoined(a: string, b: string, d: char)
    requires d !in a
    ensures Split(a + [d] + b, d) == [a] + Split(b, d)
    decreases |a|
  {
    if |a| == 0 {
      assert a + [d] + b == [d] + b;
      assert ([d] + b)[1..] == b;
    } else {
      assert d !in a[1..] by {
        assert forall c :: c in a[1..] ==> c in a;
      }
      SplitJoined(a[1..], b, d);
      assert (a + [d] + b)[1..] == a[1..] + [d] + b;
      assert [a[0]] + a[1..] == a;
    }
  }

  /** What cors_origins holds: the environment's comma-separated string, or a list. */
  datatype CorsValue = CorsString(s: string) | CorsList(origins: seq<string>)

  /** get_cors_origins: a string is split at commas with every part stripped; a list is returned as it is. */
  function GetCorsOrigins(c: CorsValue): (r: seq<string>)
    ensures c.CorsList? ==> r == c.origins
    ensures c.CorsString? ==> |r| == |Split(c.s, ',')| && forall k :: 0 <= k < |r| ==> r[k] == Strip(Split(c.s, ',')[k])
  {
    match c
    case CorsList(origins) => origins
    case CorsString(s) => var parts := Split(s, ','); seq(|parts|, k requires 0 <= k < |parts| => Strip(parts[k]))
  }

  /** Origins without commas or surrounding whitespace, joined with commas, come back as they were. */
  lemma {:induction false} CorsRoundTrip(origins: seq<string>)
    requires origins != []
    requires forall k :: 0 <= k < |origins| ==> ',' !in origins[k] && Strip(origins[k]) == origins[k]
    ensures GetCorsOrigins(CorsString(Join(origins, ","))) == origins
  {
    SplitJoin(origins, ',');
  }

  /** Splitting a join of pieces without the separator gives the pieces back. */
  lemma {:induction false} SplitJoin(parts: seq<string>, d: char)
    requires parts != []
    requires forall k :: 0 <= k < |parts| ==> d !in parts[k]
    ensures Split(Join(parts, [d]), d) == parts
    decreases |parts|
  {
    if |parts| == 1 {
      SplitNoSeparator(parts[0], d);
    } else {
      SplitJoin(parts[1..], d);
      SplitJoined(parts[0], Join(parts[1..], [d]), d);
      assert parts == [parts[0]] + parts[1..];
    }
  }
}
