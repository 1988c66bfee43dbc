/**
 * src/qc/plag.py: the 8-gram overlap score of a generated text against its source contexts. Texts
 * are tokenised by turning every character that is neither a word character nor whitespace into a
 * space and splitting at whitespace; the score is the share of the generated text's distinct 8-grams
 * that also occur in the concatenated context tokens, rounded to four places.
 */
module Plag {
  import opened Strings
  import opened Collections

  /** The n tokens starting at i: tuple(tokens[i:i+n]). */
  function Window(tokens: seq<string>, i: nat, n: nat): (w: seq<string>)
    requires i + n <= |tokens|
    ensures |w| == n
  {
    tokens[i..i + n]
  }

  /** All contiguous windows of n tokens (a set of tuples in the source). */
  function NGrams(tokens: seq<string>, n: nat): (r: set<seq<string>>)
    ensures |tokens| < n <==> r == {}
    ensures forall g :: g in r ==> |g| == n
  {
    var r := set i: nat | i + n <= |tokens| :: Window(tokens, i, n);
    assert |tokens| >= n ==> Window(tokens, 0, n) in r;
    r
  }

  /** Every window of the token list is one of its n-grams. */
  lemma WindowIsNGram(tokens: seq<string>, n: nat, i: nat)
    requires i + n <= |tokens|
    ensures Window(tokens, i, n) in NGrams(tokens, n)
  {
  }

  /**
   * The n-grams of either part are n-grams of their concatenation, and so is a window that starts in
   * the first part and ends in the second.
   */
  lemma {:induction false} NGramsAppend(a: seq<string>, b: seq<string>, n: nat)
    ensures NGrams(a, n) <= NGrams(a + b, n)
    ensures NGrams(b, n) <= NGrams(a + b, n)
    ensures forall i: nat :: i < |a| && |a| < i + n <= |a| + |b| ==> Window(a + b, i, n) in NGrams(a + b, n)
  {
    forall g | g in NGrams(a, n)
      ensures g in NGrams(a + b, n)
    {
      var i := NGramIndex(a, n, g);
      assert Window(a + b, i, n) == g;
    }
    forall g | g in NGrams(b, n)
      ensures g in NGrams(a + b, n)
    {
      var i := NGramIndex(b, n, g);
      assert Window(a + b, |a| + i, n) == g;
    }
  }

  /** Where an n-gram starts. */
  lemma NGramIndex(tokens: seq<string>, n: nat, g: seq<string>) returns (i: nat)
    requires g in NGrams(tokens, n)
    ensures i + n <= |tokens| && Window(tokens, i, n) == g
  {
    i :| i + n <= |tokens| && Window(tokens, i, n) == g;
  }

  /** re.sub(r"[^\w가-힣\s]", " ", text): everything that is neither a word character nor whitespace becomes a space. */
  function Clean(text: string): (r: string)
    ensures |r| == |text|
  {
    seq(|text|, i requires 0 <= i < |text| => if IsWordChar(text[i]) || IsSpace(text[i]) then text[i] else ' ')
  }

  /** Cleaning keeps exactly the word characters and the whitespace, and leaves nothing else. */
  lemma CleanShape(text: string)
    ensures forall i :: 0 <= i < |text| ==> (Clean(text)[i] == text[i] <==> IsWordChar(text[i]) || IsSpace(text[i]))
    ensures forall i :: 0 <= i < |text| ==> IsWordChar(Clean(text)[i]) || IsSpace(Clean(text)[i])
  {
  }

  /** tokenize_ko: the non-empty pieces of the cleaned text between runs of whitespace. */
  function Tokenize(text: string): seq<string>
  {
    Words(Clean(text))
  }

  /** A token: a non-empty run of word characters. */
  predicate IsToken(t: string)
  {
    |t| > 0 && forall i :: 0 <= i < |t| ==> IsWordChar(t[i])
  }

  /** tokenize_ko never yields an empty token, and every token is made of word characters only. */
  lemma TokensAreWords(text: string)
    ensures forall k :: 0 <= k < |Tokenize(text)| ==> IsToken(Tokenize(text)[k])
  {
    CleanShape(text);
    WordsOfCleanAreTokens(Clean(text));
  }

  /** Splitting a text made of word characters and whitespace gives tokens only. */
  lemma {:induction false} WordsOfCleanAreTokens(s: string)
    requires forall i :: 0 <= i < |s| ==> IsWordChar(s[i]) || IsSpace(s[i])
    ensures forall k :: 0 <= k < |Words(s)| ==> IsToken(Words(s)[k])
    decreases |s|
  {
    var t := LStrip(s);
    if t != [] {
      var lead := LeadingSpaces(s);
      LeadingSpacesShape(s);
      assert forall i :: 0 <= i < |t| ==> t[i] == s[lead + i];
      var n := WordLength(t);
      WordsOfCleanAreTokens(t[n..]);
      assert IsToken(t[..n]);
    }
  }

  /** Joining tokens with spaces keeps only word characters and spaces. */
  lemma {:induction false} JoinedKept(ts: seq<string>)
    requires forall k :: 0 <= k < |ts| ==> IsToken(ts[k])
    ensures forall i :: 0 <= i < |Join(ts, " ")| ==> IsWordChar(Join(ts, " ")[i]) || IsSpace(Join(ts, " ")[i])
    decreases |ts|
  {
    if |ts| > 1 {
      JoinedKept(ts[1..]);
      var j := Join(ts[1..], " ");
      var s := ts[0] + " " + j;
      assert Join(ts, " ") == s;
      forall i | 0 <= i < |s|
        ensures IsWordChar(s[i]) || IsSpace(s[i])
      {
        if i < |ts[0]| {
          assert s[i] == ts[0][i];
        } else if i > |ts[0]| {
          assert s[i] == j[i - |ts[0]| - 1];
        }
      }
    }
  }

  /** Tokenising tokens joined with spaces gives the same tokens back. */
  lemma TokenizeJoin(ts: seq<string>)
    requires forall k :: 0 <= k < |ts| ==> IsToken(ts[k])
    ensures Tokenize(Join(ts, " ")) == ts
  {
    var s := Join(ts, " ");
    JoinedKept(ts);
    assert Clean(s) == s;
    forall k | 0 <= k < |ts|
      ensures IsWord(ts[k])
    {
      assert forall i :: 0 <= i < |ts[k]| ==> !IsSpace(ts[k][i]);
    }
    WordsJoin(ts);
  }

  /** The context tokens: every context tokenised, each context's tokens after the previous one's. */
  function ContextTokens(contexts: seq<string>): seq<string>
  {
    ConcatMap(Tokenize, contexts)
  }

  /** f applied to every element, the results concatenated in order. */
  function ConcatMap(f: string -> seq<string>, xs: seq<string>): seq<string>
    decreases |xs|
  {
    if xs == [] then [] else ConcatMap(f, xs[..|xs| - 1]) + f(xs[|xs| - 1])
  }

  /** More inputs only add results after the ones already there. */
  lemma {:induction false} ConcatMapAppend(f: string -> seq<string>, a: seq<string>, b: seq<string>)
    ensures ConcatMap(f, a + b) == ConcatMap(f, a) + ConcatMap(f, b)
    decreases |b|
  {
    if b == [] {
      assert a + b == a;
    } else {
      var init := b[..|b| - 1];
      assert (a + b)[..|a + b| - 1] == a + init;
      ConcatMapAppend(f, a, init);
    }
  }

  /**
   * round(a / b, 4) for 0 <= a and 0 < b, as a count of ten-thousandths: the nearest count. Python
   * rounds the double nearest to a / b, so at an exact tie (a * 10000 / b halfway between two counts)
   * the side that double falls on decides, and tieUp(a, b) says which it is: 3 / 20000 lies just
   * below as a double and rounds down (tieUp false), while 1 / 32 is exact and goes to the even count.
   */
  function Round4(a: nat, b: nat, tieUp: (nat, nat) -> bool): (k: nat)
    requires b > 0
  {
    var q := a * 10000 / b;
    var rem := a * 10000 % b;
    if 2 * rem > b || (2 * rem == b && tieUp(a, b)) then q + 1 else q
  }

  /** Away from a tie the result is the nearest count, whatever tieUp says. */
  lemma Round4NoTie(a: nat, b: nat, up1: (nat, nat) -> bool, up2: (nat, nat) -> bool)
    requires b > 0 && 2 * (a * 10000 % b) != b
    ensures Round4(a, b, up1) == Round4(a, b, up2)
    ensures 2 * (a * 10000 - Round4(a, b, up1) * b) < b && 2 * (Round4(a, b, up1) * b - a * 10000) < b
  {
    var q := a * 10000 / b;
    var rem := a * 10000 % b;
    assert a * 10000 == q * b + rem && 0 <= rem < b;
    if 2 * rem > b {
      MulSucc(q, b);
    }
  }

  /** The rounded count is within half a unit of a / b, and a share of at most one rounds to at most one. */
  lemma Round4Bounds(a: nat, b: nat, tieUp: (nat, nat) -> bool)
    requires b > 0
    ensures 2 * (a * 10000 - Round4(a, b, tieUp) * b) <= b && 2 * (Round4(a, b, tieUp) * b - a * 10000) <= b
    ensures a <= b ==> Round4(a, b, tieUp) <= 10000
  {
    var q := a * 10000 / b;
    var rem := a * 10000 % b;
    var k := Round4(a, b, tieUp);
    assert a * 10000 == q * b + rem && 0 <= rem < b;
    if k == q + 1 {
      assert k * b == q * b + b;
    }
    if a <= b && k > 10000 {
      assert a * 10000 <= b * 10000;
      MulMono(10001, k, b);
    }
  }

  /** Multiplying by a natural number keeps the order. */
  lemma MulMono(x: int, y: int, b: nat)
    requires x <= y
    ensures x * b <= y * b
  {
    assert y * b == x * b + (y - x) * b;
  }

  /** A larger numerator never rounds lower. */
  lemma Round4Monotone(a1: nat, a2: nat, b: nat, tieUp: (nat, nat) -> bool)
    requires b > 0 && a1 <= a2
    ensures Round4(a1, b, tieUp) <= Round4(a2, b, tieUp)
  {
    if a1 < a2 {
      var k1 := Round4(a1, b, tieUp);
      var k2 := Round4(a2, b, tieUp);
      Round4Bounds(a1, b, tieUp);
      Round4Bounds(a2, b, tieUp);
      MulMono(a1 + 1, a2, 10000);
      if k1 > k2 {
        MulMono(k2 + 1, k1, b);
      }
      MulSucc(k2, b);
      MulSucc(a1, 10000);
      NoInversion(a1 * 10000, a2 * 10000, k1 * b, k2 * b, (k2 + 1) * b, b, k1, k2);
    }
  }

  /** One more factor adds b. */
  lemma MulSucc(k: int, b: int)
    ensures (k + 1) * b == k * b + b
  {
  }

  /**
   * The linear core of Round4Monotone: two counts within half a unit of x1 < x2 cannot be inverted,
   * where y1 = k1 * b, y2 = k2 * b and z = (k2 + 1) * b.
   */
  lemma NoInversion(x1: int, x2: int, y1: int, y2: int, z: int, b: int, k1: int, k2: int)
    requires b > 0 && x1 < x2 && z == y2 + b
    requires 2 * (y1 - x1) <= b && 2 * (x2 - y2) <= b
    requires k1 > k2 ==> z <= y1
    ensures k1 <= k2
  {
  }

  /**
   * plag_8gram in ten-thousandths: zero when the generated text or the contexts have no 8-gram, otherwise
   * the rounded share of the generated 8-grams that occur among the context 8-grams.
   */
  function Score(generated: string, contexts: seq<string>, tieUp: (nat, nat) -> bool): (k: nat)
    ensures k <= 10000
    ensures NGrams(Tokenize(generated), 8) == {} || NGrams(ContextTokens(contexts), 8) == {} ==> k == 0
  {
    var g8 := NGrams(Tokenize(generated), 8);
    var c8 := NGrams(ContextTokens(contexts), 8);
    if g8 == {} || c8 == {} then 0
    else
      assert g8 * c8 <= g8;
      SubsetCard(g8 * c8, g8);
      Round4Bounds(|g8 * c8|, |g8|, tieUp);
      Round4(|g8 * c8|, |g8|, tieUp)
  }

  /** A subset is no larger. */
  lemma SubsetCard<T>(a: set<T>, b: set<T>)
    requires a <= b
    ensures |a| <= |b|
  {
    assert b == a + (b - a);
  }

  /** The score as the float plag_8gram returns: the count of ten-thousandths, scaled. */
  function Plag8gram(generated: string, contexts: seq<string>, tieUp: (nat, nat) -> bool): (r: real)
    ensures 0.0 <= r <= 1.0
    ensures r == Score(generated, contexts, tieUp) as real / 10000.0
  {
    Score(generated, contexts, tieUp) as real / 10000.0
  }

  /** With 8-grams on both sides, the score rounds |g8 ∩ c8| / |g8| to four places. */
  lemma ScoreIsShare(generated: string, contexts: seq<string>, tieUp: (nat, nat) -> bool)
    requires NGrams(Tokenize(generated), 8) != {} && NGrams(ContextTokens(contexts), 8) != {}
    ensures var g8 := NGrams(Tokenize(generated), 8);
            var k := Score(generated, contexts, tieUp);
            var a := |g8 * NGrams(ContextTokens(contexts), 8)|;
            2 * (a * 10000 - k * |g8|) <= |g8| && 2 * (k * |g8| - a * 10000) <= |g8|
  {
    var g8 := NGrams(Tokenize(generated), 8);
    Round4Bounds(|g8 * NGrams(ContextTokens(contexts), 8)|, |g8|, tieUp);
  }

  /** Adding contexts never lowers the score: the context 8-grams only grow. */
  lemma MoreContextsNeverLower(generated: string, contexts: seq<string>, more: seq<string>, tieUp: (nat, nat) -> bool)
    ensures Score(generated, contexts, tieUp) <= Score(generated, contexts + more, tieUp)
  {
    var g8 := NGrams(Tokenize(generated), 8);
    var c8 := NGrams(ContextTokens(contexts), 8);
    var d8 := NGrams(ContextTokens(contexts + more), 8);
    ConcatMapAppend(Tokenize, contexts, more);
    NGramsAppend(ContextTokens(contexts), ContextTokens(more), 8);
    assert c8 <= d8;
    if g8 != {} && c8 != {} {
      assert g8 * c8 <= g8 * d8;
      SubsetCard(g8 * c8, g8 * d8);
      Round4Monotone(|g8 * c8|, |g8 * d8|, |g8|, tieUp);
    }
  }

  /**
   * plag_8gram: the context tokens are gathered context by context, then the two 8-gram sets are
   * compared.
   */
  method Plag8gramOf(generated: string, contexts: seq<string>, tieUp: (nat, nat) -> bool) returns (r: real)
    ensures r == Plag8gram(generated, contexts, tieUp)
  {
    var gt := Tokenize(generated);
    var g8 := NGrams(gt, 8);
    if g8 == {} {
      return 0.0;
    }
    var ctxTokens: seq<string> := [];
    for i := 0 to |contexts|
      invariant ctxTokens == ContextTokens(contexts[..i])
    {
      assert contexts[..i + 1][..i] == contexts[..i];
      ctxTokens := ctxTokens + Tokenize(contexts[i]);
    }
    assert contexts[..|contexts|] == contexts;
    var c8 := NGrams(ctxTokens, 8);
    if c8 == {} {
      return 0.0;
    }
    var inter := g8 * c8;
    r := Round4(|inter|, |g8|, tieUp) as real / 10000.0;
  }
}
