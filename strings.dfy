/**
 * Python string operations the pipeline relies on, written out on seq<char>:
 * whitespace, strip, `in`, join, split, str.split(), decimal formatting and
 * str.replace.
 */
module Strings {
  import opened Wrappers

  /** The characters for which Python's str.isspace() holds; `\s` of `re` on str patterns matches the same set. */
  predicate IsSpace(c: char)
  {
    c == ' ' || ('\t' <= c <= '\r') || ('\U{1c}' <= c <= '\U{1f}') || c == '\U{85}' || c == '\U{a0}'
    || c == '\U{1680}' || ('\U{2000}' <= c <= '\U{200a}') || c == '\U{2028}' || c == '\U{2029}'
    || c == '\U{202f}' || c == '\U{205f}' || c == '\U{3000}'
  }

  /** `\w` on str patterns, approximated: ASCII letters, digits and `_`, and Hangul syllables and jamo. */
  predicate IsWordChar(c: char)
  {
    ('a' <= c <= 'z') || ('A' <= c <= 'Z') || ('0' <= c <= '9') || c == '_'
    || ('가' <= c <= '힣') || ('\U{1100}' <= c <= '\U{11ff}') || ('\U{3131}' <= c <= '\U{318e}')
  }

  /** `not s.strip()`: the string is empty or made of whitespace only. */
  predicate IsBlank(s: string)
  {
    forall i :: 0 <= i < |s| ==> IsSpace(s[i])
  }

  /** The number of leading whitespace characters of s. */
  function LeadingSpaces(s: string): (n: nat)
    ensures n <= |s|
  {
    if |s| > 0 && IsSpace(s[0]) then 1 + LeadingSpaces(s[1..]) else 0
  }

  /** The leading run is whitespace and ends at a non-whitespace character or at the end. */
  lemma {:induction false} LeadingSpacesShape(s: string)
    ensures forall i :: 0 <= i < LeadingSpaces(s) ==> IsSpace(s[i])
    ensures LeadingSpaces(s) == |s| || !IsSpace(s[LeadingSpaces(s)])
    decreases |s|
  {
    if |s| > 0 && IsSpace(s[0]) {
      LeadingSpacesShape(s[1..]);
      assert forall i :: 0 < i < LeadingSpaces(s) ==> s[i] == s[1..][i - 1];
    }
  }

  /** The number of trailing whitespace characters of s. */
  function TrailingSpaces(s: string): (n: nat)
    ensures n <= |s|
  {
    if |s| > 0 && IsSpace(s[|s| - 1]) then 1 + TrailingSpaces(s[..|s| - 1]) else 0
  }

  /** The trailing run is whitespace and starts after a non-whitespace character or at the start. */
  lemma {:induction false} TrailingSpacesShape(s: string)
    ensures forall i :: |s| - TrailingSpaces(s) <= i < |s| ==> IsSpace(s[i])
    ensures TrailingSpaces(s) == |s| || !IsSpace(s[|s| - 1 - TrailingSpaces(s)])
    decreases |s|
  {
    if |s| > 0 && IsSpace(s[|s| - 1]) {
      TrailingSpacesShape(s[..|s| - 1]);
      assert forall i :: |s| - TrailingSpaces(s) <= i < |s| - 1 ==> s[i] == s[..|s| - 1][i];
    }
  }

  /** str.lstrip() */
  function LStrip(s: string): string
  {
    s[LeadingSpaces(s)..]
  }

  /** str.rstrip() */
  function RStrip(s: string): string
  {
    s[..|s| - TrailingSpaces(s)]
  }

  /** str.strip() */
  function Strip(s: string): string
  {
    RStrip(LStrip(s))
  }

  /** strip() removes whitespace from both ends and nothing else: the result is an infix of s
      that is empty or starts and ends with a non-whitespace character. */
  lemma StripShape(s: string)
    ensures var k := LeadingSpaces(s); k + |Strip(s)| <= |s| && Strip(s) == s[k..k + |Strip(s)|]
    ensures Strip(s) == [] || (!IsSpace(Strip(s)[0]) && !IsSpace(Strip(s)[|Strip(s)| - 1]))
    ensures Strip(s) == [] <==> IsBlank(s)
  {
    StripInfix(s);
    StripEnds(s);
    StripBlank(s);
  }

  lemma StripInfix(s: string)
    ensures var k := LeadingSpaces(s); k + |Strip(s)| <= |s| && Strip(s) == s[k..k + |Strip(s)|]
  {
    var k := LeadingSpaces(s);
    var l := s[k..];
    var m := TrailingSpaces(l);
    assert Strip(s) == l[..|l| - m];
    assert l[..|l| - m] == s[k..k + (|l| - m)];
  }

  lemma StripEnds(s: string)
    ensures Strip(s) == [] || (!IsSpace(Strip(s)[0]) && !IsSpace(Strip(s)[|Strip(s)| - 1]))
  {
    var k := LeadingSpaces(s);
    var l := s[k..];
    var m := TrailingSpaces(l);
    LeadingSpacesShape(s);
    TrailingSpacesShape(l);
    var r := l[..|l| - m];
    assert Strip(s) == r;
    if r != [] {
      assert r[0] == l[0] == s[k];
      assert r[|r| - 1] == l[|l| - 1 - m];
    }
  }

  lemma StripBlank(s: string)
    ensures Strip(s) == [] <==> IsBlank(s)
  {
    var k := LeadingSpaces(s);
    var l := s[k..];
    var m := TrailingSpaces(l);
    LeadingSpacesShape(s);
    TrailingSpacesShape(l);
    assert Strip(s) == l[..|l| - m];
    if Strip(s) != [] {
      assert !IsSpace(s[k]);
    } else {
      assert k == |s|;
    }
  }

  /** s.startswith(p) */
  predicate StartsWith(s: string, p: string)
  {
    |p| <= |s| && s[..|p|] == p
  }

  /** s.endswith(p) */
  predicate EndsWith(s: string, p: string)
  {
    |p| <= |s| && s[|s| - |p|..] == p
  }

  /** Python's `sub in s`. */
  predicate Contains(s: string, sub: string)
    decreases |s|
  {
    StartsWith(s, sub) || (|s| > 0 && Contains(s[1..], sub))
  }

  /** sub occurs in s at position i. */
  predicate OccursAt(s: string, sub: string, i: int)
  {
    0 <= i <= |s| - |sub| && s[i..i + |sub|] == sub
  }

  /** `sub in s` holds exactly when sub occurs at some position of s. */
  lemma {:induction false} ContainsIff(s: string, sub: string)
    ensures Contains(s, sub) <==> exists i :: OccursAt(s, sub, i)
    decreases |s|
  {
    if StartsWith(s, sub) {
      assert OccursAt(s, sub, 0);
    } else if |s| > 0 {
      ContainsIff(s[1..], sub);
      if Contains(s[1..], sub) {
        var i :| OccursAt(s[1..], sub, i);
        assert s[i + 1..i + 1 + |sub|] == s[1..][i..i + |sub|];
        assert OccursAt(s, sub, i + 1);
      }
      if exists i :: OccursAt(s, sub, i) {
        var i :| OccursAt(s, sub, i);
        assert i != 0;
        assert s[1..][i - 1..i - 1 + |sub|] == s[i..i + |sub|];
        assert OccursAt(s[1..], sub, i - 1);
      }
    }
  }

  /** `any(k in s for k in keywords)`, trying the keywords in order. */
  predicate ContainsAny(s: string, keywords: seq<string>)
    decreases |keywords|
  {
    keywords != [] && (Contains(s, keywords[0]) || ContainsAny(s, keywords[1..]))
  }

  /** Some keyword occurs in s exactly when ContainsAny says so. */
  lemma {:induction false} ContainsAnyIff(s: string, keywords: seq<string>)
    ensures ContainsAny(s, keywords) <==> exists k :: k in keywords && Contains(s, k)
    decreases |keywords|
  {
    if keywords != [] {
      ContainsAnyIff(s, keywords[1..]);
      assert forall k :: k in keywords <==> k == keywords[0] || k in keywords[1..];
      if Contains(s, keywords[0]) {
        assert keywords[0] in keywords;
      }
    }
  }

  /** sep.join(parts) */
  function Join(parts: seq<string>, sep: string): string
  {
    if |parts| == 0 then ""
    else if |parts| == 1 then parts[0]
    else parts[0] + sep + Join(parts[1..], sep)
  }

  /** Appending one more part to a non-empty join adds the separator and the part. */
  lemma {:induction false} JoinSnoc(parts: seq<string>, x: string, sep: string)
    requires parts != []
    ensures Join(parts + [x], sep) == Join(parts, sep) + sep + x
    decreases |parts|
  {
    if |parts| > 1 {
      assert (parts + [x])[1..] == parts[1..] + [x];
      JoinSnoc(parts[1..], x, sep);
    }
  }

  /** s.split(d) for a one-character separator: always at least one piece, none containing d. */
  function Split(s: string, d: char): (r: seq<string>)
    ensures |r| >= 1
    ensures forall k :: 0 <= k < |r| ==> d !in r[k]
    decreases |s|
  {
    if |s| == 0 then [""]
    else
      var rest := Split(s[1..], d);
      if s[0] == d then [""] + rest
      else [[s[0]] + rest[0]] + rest[1..]
  }

  /** Joining the pieces of s.split(d) with d gives s back. */
  lemma {:induction false} JoinSplit(s: string, d: char)
    ensures Join(Split(s, d), [d]) == s
    decreases |s|
  {
    if |s| > 0 {
      JoinSplit(s[1..], d);
      var rest := Split(s[1..], d);
      if s[0] != d && |rest| > 1 {
        assert Split(s, d)[1..] == rest[1..];
      }
    }
  }

  /** The length of the longest prefix of s without whitespace. */
  function WordLength(s: string): (n: nat)
    ensures n <= |s|
    ensures forall i :: 0 <= i < n ==> !IsSpace(s[i])
    ensures n == |s| || IsSpace(s[n])
  {
    if |s| == 0 || IsSpace(s[0]) then 0 else 1 + WordLength(s[1..])
  }

  /** A non-empty run of non-whitespace characters. */
  predicate IsWord(w: string)
  {
    |w| > 0 && forall i :: 0 <= i < |w| ==> !IsSpace(w[i])
  }

  /** s.split() with no argument: the maximal runs of non-whitespace characters. */
  function Words(s: string): seq<string>
    decreases |s|
  {
    var t := LStrip(s);
    if t == [] then []
    else
      var n := WordLength(t);
      [t[..n]] + Words(t[n..])
  }

  /** Every piece of s.split() is a non-empty run without whitespace. */
  lemma {:induction false} WordsAreWords(s: string)
    ensures forall k :: 0 <= k < |Words(s)| ==> IsWord(Words(s)[k])
    decreases |s|
  {
    var t := LStrip(s);
    if t != [] {
      var n := WordLength(t);
      WordsAreWords(t[n..]);
      LeadingSpacesShape(s);
      assert IsWord(t[..n]);
    }
  }

  /** A leading space does not change str.split(). */
  lemma WordsAfterSpace(x: string)
    ensures Words(" " + x) == Words(x)
  {
    assert LeadingSpaces(" " + x) == 1 + LeadingSpaces(x) by {
      assert (" " + x)[1..] == x;
    }
    assert LStrip(" " + x) == LStrip(x);
  }

  /** A word followed by nothing or by whitespace is the first piece of str.split(). */
  lemma WordsOfWordThen(w: string, rest: string)
    requires IsWord(w)
    requires rest == [] || IsSpace(rest[0])
    ensures Words(w + rest) == [w] + Words(rest)
  {
    var s := w + rest;
    assert s[0] == w[0];
    assert LeadingSpaces(s) == 0;
    assert LStrip(s) == s;
    assert WordLength(s) == |w| by {
      assert forall i :: 0 <= i < |w| ==> s[i] == w[i];
      assert |w| == |s| || s[|w|] == rest[0];
    }
    assert s[..|w|] == w;
    assert s[|w|..] == rest;
  }

  /** Splitting a space-joined list of words gives the words back. */
  lemma {:induction false} WordsJoin(ws: seq<string>)
    requires forall k :: 0 <= k < |ws| ==> IsWord(ws[k])
    ensures Words(Join(ws, " ")) == ws
    decreases |ws|
  {
    if |ws| == 1 {
      WordsOfWordThen(ws[0], "");
      assert ws[0] + "" == ws[0];
    } else if |ws| > 1 {
      var rest := ws[1..];
      var j := Join(rest, " ");
      assert Join(ws, " ") == ws[0] + (" " + j);
      WordsJoin(rest);
      WordThenSpaced(ws[0], j);
      assert [ws[0]] + rest == ws;
    }
  }

  /** A word, a space and more text split into the word and the words of the text. */
  lemma WordThenSpaced(w: string, j: string)
    requires IsWord(w)
    ensures Words(w + (" " + j)) == [w] + Words(j)
  {
    WordsOfWordThen(w, " " + j);
    WordsAfterSpace(j);
  }

  /** strip() of a stripped string changes nothing. */
  lemma StripIdempotent(s: string)
    ensures Strip(Strip(s)) == Strip(s)
  {
    StripShape(s);
    var t := Strip(s);
    if t != [] {
      assert LeadingSpaces(t) == 0;
      assert LStrip(t) == t;
      assert TrailingSpaces(t) == 0;
    }
  }

  /** ASCII lower-casing of one character. */
  function LowerChar(c: char): char
  {
    if 'A' <= c <= 'Z' then (c as int + 32) as char else c
  }

  /** str.lower(), on ASCII letters. */
  function Lower(s: string): (r: string)
    ensures |r| == |s| && forall i :: 0 <= i < |s| ==> r[i] == LowerChar(s[i])
  {
    seq(|s|, i requires 0 <= i < |s| => LowerChar(s[i]))
  }

  predicate IsDigit(c: char)
  {
    '0' <= c <= '9'
  }

  /** str.isdigit() on ASCII digits: non-empty and all digits. */
  predicate AllDigits(s: string)
  {
    |s| > 0 && forall i :: 0 <= i < |s| ==> IsDigit(s[i])
  }

  function DigitChar(d: nat): char
    requires d < 10
  {
    ('0' as int + d) as char
  }

  /** f"{n}" for a natural number. */
  function NatToString(n: nat): (s: string)
    ensures AllDigits(s)
    ensures |s| == 1 || s[0] != '0'
    decreases n
  {
    if n < 10 then [DigitChar(n)] else NatToString(n / 10) + [DigitChar(n % 10)]
  }

  /** f"{n}" for an integer. */
  function IntToString(n: int): string
  {
    if n < 0 then "-" + NatToString(-n) else NatToString(n)
  }

  /** int(s) for a string of ASCII digits. */
  function ParseDigits(s: string): nat
    requires forall i :: 0 <= i < |s| ==> IsDigit(s[i])
    decreases |s|
  {
    if |s| == 0 then 0
    else
      assert IsDigit(s[|s| - 1]);
      10 * ParseDigits(s[..|s| - 1]) + (s[|s| - 1] as int - '0' as int)
  }

  /** Formatting a number and reading it back gives the number. */
  lemma {:induction false} ParseNatToString(n: nat)
    ensures ParseDigits(NatToString(n)) == n
    decreases n
  {
    if n >= 10 {
      ParseNatToString(n / 10);
      var s := NatToString(n);
      assert s[..|s| - 1] == NatToString(n / 10);
    }
  }

  /** Formatting is injective: distinct numbers print differently. */
  lemma NatToStringInjective(a: nat, b: nat)
    requires NatToString(a) == NatToString(b)
    ensures a == b
  {
    ParseNatToString(a);
    ParseNatToString(b);
  }

  /** f"{n:03d}": at least three digits, zero-padded on the left. */
  function Pad3(n: nat): (s: string)
    ensures |s| >= 3 && AllDigits(s)
    ensures ParseDigits(s) == n
  {
    var d := NatToString(n);
    ParseNatToString(n);
    var p := if |d| >= 3 then "" else seq(3 - |d|, _ => '0');
    LeadingZeros(p, d);
    p + d
  }

  lemma {:induction false} LeadingZeros(p: string, d: string)
    requires forall i :: 0 <= i < |p| ==> p[i] == '0'
    requires forall i :: 0 <= i < |d| ==> IsDigit(d[i])
    ensures forall i :: 0 <= i < |p + d| ==> IsDigit((p + d)[i])
    ensures ParseDigits(p + d) == ParseDigits(d)
    decreases |d|
  {
    if |d| == 0 {
      assert p + d == p;
      ZerosParse(p);
    } else {
      LeadingZeros(p, d[..|d| - 1]);
      assert (p + d)[..|p + d| - 1] == p + d[..|d| - 1];
    }
  }

  lemma {:induction false} ZerosParse(p: string)
    requires forall i :: 0 <= i < |p| ==> p[i] == '0'
    ensures ParseDigits(p) == 0
    decreases |p|
  {
    if |p| > 0 { ZerosParse(p[..|p| - 1]); }
  }

  /** s.replace(old, new): every non-overlapping occurrence, scanned left to right. */
  function ReplaceAll(s: string, pat: string, rep: string): string
    decreases |s|
  {
    if |pat| == 0 then rep + Interleave(s, rep)
    else if |s| == 0 then ""
    else if StartsWith(s, pat) then rep + ReplaceAll(s[|pat|..], pat, rep)
    else [s[0]] + ReplaceAll(s[1..], pat, rep)
  }

  /** "abc".replace("", x) == x + "a" + x + "b" + x + "c" + x */
  function Interleave(s: string, x: string): string
  {
    if |s| == 0 then "" else [s[0]] + x + Interleave(s[1..], x)
  }

  /** Replacing a non-empty string that does not occur changes nothing. */
  lemma {:induction false} ReplaceAbsent(s: string, pat: string, rep: string)
    requires |pat| > 0 && !Contains(s, pat)
    ensures ReplaceAll(s, pat, rep) == s
    decreases |s|
  {
    if |s| > 0 {
      ReplaceAbsent(s[1..], pat, rep);
    }
  }

  /** Python's normalisation of a slice bound against a sequence of length n. */
  function Clamp(i: int, n: nat): (r: nat)
    ensures r <= n
  {
    if i < 0 then (if i + n < 0 then 0 else i + n) else if i > n then n else i
  }

  /** s[a:b] with Python's rules for negative and out-of-range bounds. */
  function Slice<T>(s: seq<T>, a: int, b: int): (r: seq<T>)
    ensures |r| <= |s|
    ensures 0 <= a <= b <= |s| ==> r == s[a..b]
    ensures 0 <= a <= |s| < b ==> r == s[a..]
  {
    var x := Clamp(a, |s|);
    var y := Clamp(b, |s|);
    if y <= x then [] else s[x..y]
  }

  /** re.sub(r'\s+', ' ', s): every maximal run of whitespace becomes one space. */
  function CollapseSpaces(s: string): (r: string)
    ensures |r| <= |s|
    decreases |s|
  {
    if |s| == 0 then ""
    else if IsSpace(s[0]) then " " + CollapseSpaces(s[LeadingSpaces(s)..])
    else [s[0]] + CollapseSpaces(s[1..])
  }

  /** After collapsing, no two whitespace characters are adjacent and the only whitespace left is ' '. */
  lemma {:induction false} CollapseSpacesShape(s: string)
    ensures forall i :: 0 <= i < |CollapseSpaces(s)| && IsSpace(CollapseSpaces(s)[i]) ==> CollapseSpaces(s)[i] == ' '
    ensures forall i :: 0 <= i < |CollapseSpaces(s)| - 1 ==> !(IsSpace(CollapseSpaces(s)[i]) && IsSpace(CollapseSpaces(s)[i + 1]))
    ensures |s| > 0 ==> |CollapseSpaces(s)| > 0 && (IsSpace(CollapseSpaces(s)[0]) <==> IsSpace(s[0]))
    decreases |s|
  {
    if |s| > 0 {
      var rest := if IsSpace(s[0]) then s[LeadingSpaces(s)..] else s[1..];
      CollapseSpacesShape(rest);
      LeadingSpacesShape(s);
      if IsSpace(s[0]) && |rest| > 0 {
        assert !IsSpace(rest[0]);
      }
    }
  }

  /** Collapsing whitespace introduces no character other than ' '. */
  lemma {:induction false} CollapseSpacesFrom(s: string)
    ensures forall i :: 0 <= i < |CollapseSpaces(s)| ==> CollapseSpaces(s)[i] == ' ' || CollapseSpaces(s)[i] in s
    decreases |s|
  {
    if |s| > 0 {
      var rest := if IsSpace(s[0]) then s[LeadingSpaces(s)..] else s[1..];
      CollapseSpacesFrom(rest);
      var r := CollapseSpaces(s);
      forall i | 0 <= i < |r| ensures r[i] == ' ' || r[i] in s {
        if i > 0 {
          assert r[i] == CollapseSpaces(rest)[i - 1];
          assert forall c :: c in rest ==> c in s;
        }
      }
    }
  }

  /** The characters of s for which keep holds, in order (a character-class re.sub with ''). */
  function KeepChars(s: string, keep: char -> bool): (r: string)
    ensures |r| <= |s|
    ensures forall i :: 0 <= i < |r| ==> keep(r[i])
  {
    if |s| == 0 then "" else (if keep(s[0]) then [s[0]] else "") + KeepChars(s[1..], keep)
  }

  /** Every character KeepChars returns is a character of its input. */
  lemma {:induction false} KeepCharsFrom(s: string, keep: char -> bool)
    ensures forall i :: 0 <= i < |KeepChars(s, keep)| ==> KeepChars(s, keep)[i] in s
  {
    if |s| > 0 {
      KeepCharsFrom(s[1..], keep);
      var r := KeepChars(s, keep);
      var rest := KeepChars(s[1..], keep);
      forall i | 0 <= i < |r| ensures r[i] in s {
        if keep(s[0]) && i == 0 {
        } else {
          var j := if keep(s[0]) then i - 1 else i;
          assert r[i] == rest[j];
          assert rest[j] in s[1..];
        }
      }
    }
  }

  /** Filtering a concatenation filters each part. */
  lemma {:induction false} KeepCharsAppend(a: string, b: string, keep: char -> bool)
    ensures KeepChars(a + b, keep) == KeepChars(a, keep) + KeepChars(b, keep)
    decreases |a|
  {
    if |a| > 0 {
      assert (a + b)[1..] == a[1..] + b;
      KeepCharsAppend(a[1..], b, keep);
    } else {
      assert a + b == b;
    }
  }

  /** A string made only of kept characters is left as it is; one with none of them vanishes. */
  lemma {:induction false} KeepCharsAll(s: string, keep: char -> bool)
    ensures (forall i :: 0 <= i < |s| ==> keep(s[i])) ==> KeepChars(s, keep) == s
    ensures (forall i :: 0 <= i < |s| ==> !keep(s[i])) ==> KeepChars(s, keep) == ""
    decreases |s|
  {
    if |s| > 0 {
      KeepCharsAll(s[1..], keep);
      assert forall i :: 0 <= i < |s[1..]| ==> s[1..][i] == s[i + 1];
    }
  }

  /** The position of the first occurrence of sub in s: `s.find(sub)`, None for -1. */
  function FindFirst(s: string, sub: string): (r: Option<nat>)
    ensures r.Some? ==> OccursAt(s, sub, r.value)
    ensures r.None? <==> !Contains(s, sub)
    decreases |s|
  {
    if StartsWith(s, sub) then Some(0)
    else if |s| == 0 then None
    else match FindFirst(s[1..], sub)
      case None => None
      case Some(i) =>
        assert s[i + 1..i + 1 + |sub|] == s[1..][i..i + |sub|];
        Some(i + 1)
  }

  /**
   * int(s) on the forms it accepts here: optional surrounding whitespace, an optional sign and
   * ASCII digits; anything else is a ValueError (None).
   */
  function ParseInt(s: string): (r: Option<int>)
    ensures AllDigits(s) ==> r == Some(ParseDigits(s) as int)
  {
    var t := Strip(s);
    if AllDigits(s) then
      assert LeadingSpaces(s) == 0 && TrailingSpaces(s) == 0 by {
        assert !IsSpace(s[0]) && !IsSpace(s[|s| - 1]);
      }
      Some(ParseDigits(s) as int)
    else if AllDigits(t) then Some(ParseDigits(t) as int)
    else if |t| > 1 && t[0] == '-' && AllDigits(t[1..]) then Some(0 - (ParseDigits(t[1..]) as int))
    else if |t| > 1 && t[0] == '+' && AllDigits(t[1..]) then Some(ParseDigits(t[1..]) as int)
    else None
  }
}
