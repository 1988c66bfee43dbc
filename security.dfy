/**
 * LSC_Core_Files/src/config/security_utils.py: PII masking and detection over the matches a regex
 * engine reports, and the access controller's per-IP rate limit and block list.
 * The regular expressions themselves are not interpreted: `find(pattern, text)` stands for the
 * engine and returns the non-overlapping, left-to-right spans `pattern.sub` and `findall` see.
 */
module Security {
  import opened Middleware

  /** A match of one pattern: the characters text[start..end]. */
  datatype Span = Span(start: nat, end: nat)

  /** The spans a regex engine reports: non-empty, inside the text, and in order without overlap. */
  predicate SpansOk(spans: seq<Span>, n: nat)
  {
    && (forall i :: 0 <= i < |spans| ==> spans[i].start < spans[i].end <= n)
    && (forall i, j :: 0 <= i < j < |spans| ==> spans[i].end <= spans[j].start)
  }

  /** The PII types and their patterns, in the order they are applied. */
  const PiiPatterns: seq<(string, seq<string>)> := [
    ("phone", ["01[016789]-?\\d{3,4}-?\\d{4}", "0\\d{1,2}-?\\d{3,4}-?\\d{4}", "\\d{2,3}-?\\d{3,4}-?\\d{4}"]),
    ("ssn", ["\\d{6}-?\\d{7}", "\\d{6}-?[1-4]\\d{6}"]),
    ("account", ["\\d{3,4}-\\d{2,3}-\\d{6,7}", "\\d{10,20}"]),
    ("email", ["[a-zA-Z0-9._%+-]+@[a-zA-Z0-9.-]+\\.[a-zA-Z]{2,}"]),
    ("credit_card", ["\\d{4}-?\\d{4}-?\\d{4}-?\\d{4}"]),
    ("business_number", ["\\d{3}-\\d{2}-\\d{5}"]),
    ("corporate_number", ["\\d{6}-\\d{7}"])
  ]

  /** s repeated n times (Python's s * n). */
  function Repeat(s: string, n: nat): (r: string)
    ensures |r| == |s| * n
    ensures |s| == 1 ==> forall i :: 0 <= i < |r| ==> r[i] == s[0]
  {
    if n == 0 then "" else Repeat(s, n - 1) + s
  }

  /** replace_func: a short match becomes all mask, a longer one keeps its first two and last two characters. */
  function MaskMatch(m: string, mask: string): (r: string)
    ensures |m| <= 4 ==> r == Repeat(mask, |m|)
    ensures |m| > 4 ==> |r| >= 4
    ensures |m| > 4 ==> r[..2] == m[..2] && r[|r| - 2..] == m[|m| - 2..] && r[2..|r| - 2] == Repeat(mask, |m| - 4)
    ensures |mask| == 1 ==> |r| == |m|
  {
    if |m| <= 4 then Repeat(mask, |m|)
    else m[..2] + Repeat(mask, |m| - 4) + m[|m| - 2..]
  }

  /** pattern.sub(replace_func, text): every span is replaced by its mask, the rest is kept. */
  function Substitute(text: string, spans: seq<Span>, mask: string): (r: string)
    requires SpansOk(spans, |text|)
    ensures spans == [] ==> r == text
    decreases |spans|
  {
    if spans == [] then text
    else
      var last := spans[|spans| - 1];
      Substitute(text[..last.start], spans[..|spans| - 1], mask)
        + MaskMatch(text[last.start..last.end], mask) + text[last.end..]
  }

  /** With a one-character mask the masked text is as long as the original. */
  lemma {:induction false} SubstituteKeepsLength(text: string, spans: seq<Span>, mask: string)
    requires SpansOk(spans, |text|) && |mask| == 1
    ensures |Substitute(text, spans, mask)| == |text|
    decreases |spans|
  {
    if spans != [] {
      var last := spans[|spans| - 1];
      SubstituteKeepsLength(text[..last.start], spans[..|spans| - 1], mask);
    }
  }

  /** Taking a prefix of a concatenation that lies within its first part. */
  lemma PrefixOfConcat<T>(a: seq<T>, b: seq<T>, n: nat)
    requires n <= |a|
    ensures (a + b)[..n] == a[..n]
  {
  }

  /** The spans before the last one are spans of the text up to where the last one starts. */
  lemma SpansInit(spans: seq<Span>, n: nat)
    requires SpansOk(spans, n) && spans != []
    ensures SpansOk(spans[..|spans| - 1], spans[|spans| - 1].start)
  {
  }

  /** The text before the first match is left as it was. */
  lemma {:induction false} SubstituteKeepsPrefix(text: string, spans: seq<Span>, mask: string)
    requires SpansOk(spans, |text|) && spans != []
    ensures |Substitute(text, spans, mask)| >= spans[0].start
    ensures Substitute(text, spans, mask)[..spans[0].start] == text[..spans[0].start]
    decreases |spans|
  {
    var last := spans[|spans| - 1];
    var init := spans[..|spans| - 1];
    var n := spans[0].start;
    SpansInit(spans, |text|);
    var prefix := text[..last.start];
    var head := Substitute(prefix, init, mask);
    var tail := MaskMatch(text[last.start..last.end], mask) + text[last.end..];
    assert Substitute(text, spans, mask) == head + tail;
    assert |head| >= n && head[..n] == text[..n] by {
      if |spans| > 1 {
        SubstituteKeepsPrefix(prefix, init, mask);
        assert init[0] == spans[0];
        PrefixOfPrefix(text, last.start, n);
      } else {
        assert head == prefix;
      }
    }
    PrefixOfConcat(head, tail, n);
  }

  lemma PrefixOfPrefix<T>(s: seq<T>, m: nat, n: nat)
    requires n <= m <= |s|
    ensures s[..m][..n] == s[..n]
  {
  }

  /** The regex engine: the spans a pattern matches in a text. */
  ghost predicate EngineOk(find: (string, string) -> seq<Span>)
  {
    forall p, t :: SpansOk(find(p, t), |t|)
  }

  /** The patterns of one type, applied in turn: the text they leave and how many matches they masked. */
  function MaskType(text: string, patterns: seq<string>, find: (string, string) -> seq<Span>, mask: string)
    : (r: (string, nat))
    requires EngineOk(find)
    decreases |patterns|
  {
    if patterns == [] then (text, 0)
    else
      var prev := MaskType(text, patterns[..|patterns| - 1], find, mask);
      var p := patterns[|patterns| - 1];
      (Substitute(prev.0, find(p, prev.0), mask), prev.1 + |find(p, prev.0)|)
  }

  /** mask_pii's result for the given types: the text after every type, and the counts of the types that matched. */
  function MaskSpec(text: string, types: seq<(string, seq<string>)>, find: (string, string) -> seq<Span>, mask: string)
    : (r: (string, map<string, nat>))
    requires EngineOk(find)
    decreases |types|
  {
    if types == [] then (text, map[])
    else
      var prev := MaskSpec(text, types[..|types| - 1], find, mask);
      var t := types[|types| - 1];
      var step := MaskType(prev.0, t.1, find, mask);
      (step.0, if step.1 > 0 then prev.1[t.0 := step.1] else prev.1)
  }

  /** With a one-character mask, masking one type keeps the text's length. */
  lemma {:induction false} MaskTypeKeepsLength(text: string, patterns: seq<string>, find: (string, string) -> seq<Span>, mask: string)
    requires EngineOk(find) && |mask| == 1
    ensures |MaskType(text, patterns, find, mask).0| == |text|
    decreases |patterns|
  {
    if patterns != [] {
      var prev := MaskType(text, patterns[..|patterns| - 1], find, mask);
      MaskTypeKeepsLength(text, patterns[..|patterns| - 1], find, mask);
      SubstituteKeepsLength(prev.0, find(patterns[|patterns| - 1], prev.0), mask);
    }
  }

  /**
   * mask_counts names only types that matched at least once, each with a positive count, and a
   * one-character mask keeps the text's length.
   */
  lemma {:induction false} MaskSpecShape(text: string, types: seq<(string, seq<string>)>, find: (string, string) -> seq<Span>, mask: string)
    requires EngineOk(find)
    ensures forall k :: k in MaskSpec(text, types, find, mask).1 ==> MaskSpec(text, types, find, mask).1[k] > 0
    ensures forall k :: k in MaskSpec(text, types, find, mask).1 ==> exists i :: 0 <= i < |types| && types[i].0 == k
    ensures |mask| == 1 ==> |MaskSpec(text, types, find, mask).0| == |text|
    decreases |types|
  {
    if types != [] {
      var init := types[..|types| - 1];
      var prev := MaskSpec(text, init, find, mask);
      MaskSpecShape(text, init, find, mask);
      if |mask| == 1 {
        MaskTypeKeepsLength(prev.0, types[|types| - 1].1, find, mask);
      }
      forall k | k in MaskSpec(text, types, find, mask).1
        ensures exists i :: 0 <= i < |types| && types[i].0 == k
      {
        if k in prev.1 {
          var i :| 0 <= i < |init| && init[i].0 == k;
          assert types[i].0 == k;
        } else {
          assert types[|types| - 1].0 == k;
        }
      }
    }
  }

  /** mask_pii's loops over a pattern table: each type's patterns in turn, counting every replaced match of the type. */
  method MaskTypes(text: string, types: seq<(string, seq<string>)>, find: (string, string) -> seq<Span>, mask: string)
    returns (masked: string, maskCounts: map<string, nat>)
    requires EngineOk(find)
    ensures masked == MaskSpec(text, types, find, mask).0
    ensures maskCounts == MaskSpec(text, types, find, mask).1
  {
    masked := text;
    maskCounts := map[];
    for i := 0 to |types|
      invariant masked == MaskSpec(text, types[..i], find, mask).0
      invariant maskCounts == MaskSpec(text, types[..i], find, mask).1
    {
      assert types[..i + 1][..i] == types[..i];
      var patterns := types[i].1;
      var start := masked;
      var count := 0;
      for j := 0 to |patterns|
        invariant masked == MaskType(start, patterns[..j], find, mask).0
        invariant count == MaskType(start, patterns[..j], find, mask).1
      {
        assert patterns[..j + 1][..j] == patterns[..j];
        var spans := find(patterns[j], masked);
        count := count + |spans|;
        masked := Substitute(masked, spans, mask);
      }
      assert patterns[..|patterns|] == patterns;
      ghost var spec := MaskSpec(text, types[..i + 1], find, mask);
      ghost var step := MaskType(start, patterns, find, mask);
      assert spec.1 == if step.1 > 0 then maskCounts[types[i].0 := step.1] else maskCounts;
      if count > 0 {
        maskCounts := maskCounts[types[i].0 := count];
      }
    }
    assert types[..|types|] == types;
  }

  /** mask_pii with the detector's patterns. */
  method MaskPii(text: string, find: (string, string) -> seq<Span>, mask: string)
    returns (masked: string, maskCounts: map<string, nat>)
    requires EngineOk(find)
    ensures masked == MaskSpec(text, PiiPatterns, find, mask).0
    ensures maskCounts == MaskSpec(text, PiiPatterns, find, mask).1
  {
    masked, maskCounts := MaskTypes(text, PiiPatterns, find, mask);
  }

  /** The strings a list of spans picks out of the text. */
  function Matched(text: string, spans: seq<Span>): (r: set<string>)
    requires SpansOk(spans, |text|)
    ensures spans == [] ==> r == {}
    ensures spans != [] ==> text[spans[0].start..spans[0].end] in r
  {
    set s | s in spans :: text[s.start..s.end]
  }

  /** The matched strings of one type's patterns in the text, duplicates removed. */
  function Found(text: string, patterns: seq<string>, find: (string, string) -> seq<Span>): (r: set<string>)
    requires EngineOk(find)
    ensures r == {} <==> forall j :: 0 <= j < |patterns| ==> find(patterns[j], text) == []
    decreases |patterns|
  {
    if patterns == [] then {}
    else
      var p := patterns[|patterns| - 1];
      Found(text, patterns[..|patterns| - 1], find) + Matched(text, find(p, text))
  }

  /**
   * detect_pii over a pattern table: a type is reported, with its distinct matches, exactly when
   * one of its patterns matches; nothing is reported exactly when no pattern matches at all.
   */
  function DetectFrom(text: string, types: seq<(string, seq<string>)>, find: (string, string) -> seq<Span>)
    : (r: map<string, set<string>>)
    requires EngineOk(find)
    ensures forall k :: k in r ==> r[k] != {}
    ensures forall i :: 0 <= i < |types| && Found(text, types[i].1, find) != {} ==> types[i].0 in r
    ensures r == map[] <==>
      forall i, j :: 0 <= i < |types| && 0 <= j < |types[i].1| ==> find(types[i].1[j], text) == []
    decreases |types|
  {
    if types == [] then map[]
    else
      var prev := DetectFrom(text, types[..|types| - 1], find);
      var t := types[|types| - 1];
      var found := Found(text, t.1, find);
      if found != {} then prev[t.0 := found] else prev
  }

  /** detect_pii with the detector's patterns. */
  function DetectPii(text: string, find: (string, string) -> seq<Span>): (r: map<string, set<string>>)
    requires EngineOk(find)
  {
    DetectFrom(text, PiiPatterns, find)
  }

  /** is_safe_for_logging */
  predicate IsSafeForLogging(text: string, find: (string, string) -> seq<Span>)
    requires EngineOk(find)
  {
    |DetectPii(text, find)| == 0
  }

  /** A text is safe for logging exactly when no pattern of any type matches it. */
  lemma SafeIffNoMatch(text: string, find: (string, string) -> seq<Span>)
    requires EngineOk(find)
    ensures IsSafeForLogging(text, find) <==>
      forall i, j :: 0 <= i < |PiiPatterns| && 0 <= j < |PiiPatterns[i].1| ==> find(PiiPatterns[i].1[j], text) == []
  {
    var r := DetectPii(text, find);
    assert |r| == 0 <==> r == map[];
  }

  /** The access controller: per-IP request times (100 per minute) and the block list. */
  class AccessController {
    const maxRequestsPerMinute: int
    const maxRequestsPerHour: int
    var rateLimits: map<string, seq<real>>
    var blockedIps: set<string>

    constructor()
      ensures maxRequestsPerMinute == 100 && maxRequestsPerHour == 1000
      ensures rateLimits == map[] && blockedIps == {}
    {
      maxRequestsPerMinute := 100;
      maxRequestsPerHour := 1000;
      rateLimits := map[];
      blockedIps := {};
    }

    /**
     * check_rate_limit: the IP's times older than a minute are dropped; it is refused without being
     * recorded when 100 remain, otherwise recorded and allowed. The block list is untouched.
     */
    method CheckRateLimit(clientIp: string, now: real) returns (ok: bool)
      modifies this
      ensures ok == Admit(History(old(rateLimits), clientIp), now, maxRequestsPerMinute).0
      ensures rateLimits == old(rateLimits)[clientIp := Admit(History(old(rateLimits), clientIp), now, maxRequestsPerMinute).1]
      ensures blockedIps == old(blockedIps)
    {
      if clientIp !in rateLimits {
        rateLimits := rateLimits[clientIp := []];
      }
      var kept := Recent(rateLimits[clientIp], now);
      rateLimits := rateLimits[clientIp := kept];
      if |kept| >= maxRequestsPerMinute {
        return false;
      }
      rateLimits := rateLimits[clientIp := kept + [now]];
      ok := true;
    }

    /** is_ip_blocked */
    predicate IsIpBlocked(clientIp: string)
      reads this
    {
      clientIp in blockedIps
    }

    /** block_ip: the IP joins the block list (the reason is only logged). */
    method BlockIp(clientIp: string)
      modifies this
      ensures blockedIps == old(blockedIps) + {clientIp} && rateLimits == old(rateLimits)
      ensures IsIpBlocked(clientIp)
    {
      blockedIps := blockedIps + {clientIp};
    }

    /** unblock_ip: the IP leaves the block list; unblocking an IP that is not blocked changes nothing. */
    method UnblockIp(clientIp: string)
      modifies this
      ensures blockedIps == old(blockedIps) - {clientIp} && rateLimits == old(rateLimits)
      ensures !IsIpBlocked(clientIp)
      ensures clientIp !in old(blockedIps) ==> blockedIps == old(blockedIps)
    {
      blockedIps := blockedIps - {clientIp};
    }
  }

  /** Unblocking undoes blocking for an IP that was not blocked before. */
  lemma BlockThenUnblock(blocked: set<string>, ip: string)
    requires ip !in blocked
    ensures (blocked + {ip}) - {ip} == blocked
  {
  }
}
