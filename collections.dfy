/** Sequence helpers shared by the stores and indexes. */
module Collections {
  /** No element occurs twice. */
  predicate Distinct<T(==)>(s: seq<T>)
  {
    forall i, j :: 0 <= i < j < |s| ==> s[i] != s[j]
  }

  /** Two duplicate-free sequences with no common element concatenate to a duplicate-free one. */
  lemma DistinctAppend<T>(a: seq<T>, b: seq<T>)
    requires Distinct(a) && Distinct(b)
    requires forall x, y :: 0 <= x < |a| && 0 <= y < |b| ==> a[x] != b[y]
    ensures Distinct(a + b)
  {
  }

  /** A duplicate-free sequence has as many distinct elements as positions. */
  lemma {:induction false} DistinctCard<T>(s: seq<T>)
    requires Distinct(s)
    ensures |set x | x in s| == |s|
    decreases |s|
  {
    if s != [] {
      var init := s[..|s| - 1];
      DistinctCard(init);
      assert (set x | x in s) == (set x | x in init) + {s[|s| - 1]};
      assert s[|s| - 1] !in (set x | x in init);
    }
  }

  /** Strictly increasing, hence distinct. */
  predicate StrictlyIncreasing(s: seq<int>)
  {
    forall i, j :: 0 <= i < j < |s| ==> s[i] < s[j]
  }

  /** Insert x into an ascending sequence, unless it is already there. */
  function Insert(x: int, r: seq<int>): (q: seq<int>)
    requires StrictlyIncreasing(r)
    ensures StrictlyIncreasing(q)
    ensures forall y :: y in q <==> y == x || y in r
  {
    if r == [] then [x]
    else if x < r[0] then [x] + r
    else if x == r[0] then r
    else
      var rest := Insert(x, r[1..]);
      InsertAbove(x, r, rest);
      [r[0]] + rest
  }

  /** The head of an ascending sequence lies below everything inserting a larger x into its tail gives. */
  lemma InsertAbove(x: int, r: seq<int>, rest: seq<int>)
    requires StrictlyIncreasing(r) && r != [] && r[0] < x
    requires StrictlyIncreasing(rest)
    requires forall y :: y in rest <==> y == x || y in r[1..]
    ensures StrictlyIncreasing([r[0]] + rest)
  {
    forall k | 0 <= k < |rest|
      ensures r[0] < rest[k]
    {
      assert rest[k] in rest;
      if rest[k] != x {
        var j :| 0 <= j < |r[1..]| && r[1..][j] == rest[k];
        assert r[j + 1] == rest[k];
      }
    }
    var q := [r[0]] + rest;
    forall i, j | 0 <= i < j < |q|
      ensures q[i] < q[j]
    {
      assert q[j] == rest[j - 1];
      if i > 0 {
        assert q[i] == rest[i - 1];
      }
    }
  }

  /** The distinct values of s in ascending order (what ORDER BY on a key column returns). */
  function Ascending(s: seq<int>): (r: seq<int>)
    ensures StrictlyIncreasing(r)
    ensures forall y :: y in r <==> y in s
  {
    if s == [] then [] else Insert(s[|s| - 1], Ascending(s[..|s| - 1]))
  }

  /** Python's `<=` on str: lexicographic by code point, a prefix first. */
  predicate LexLe(a: string, b: string)
    decreases |a|
  {
    |a| == 0 || (|b| > 0 && (a[0] < b[0] || (a[0] == b[0] && LexLe(a[1..], b[1..]))))
  }

  lemma {:induction false} LexTotal(a: string, b: string)
    ensures LexLe(a, b) || LexLe(b, a)
    decreases |a|
  {
    if |a| > 0 && |b| > 0 && a[0] == b[0] {
      LexTotal(a[1..], b[1..]);
    }
  }

  lemma {:induction false} LexRefl(a: string)
    ensures LexLe(a, a)
    decreases |a|
  {
    if |a| > 0 {
      LexRefl(a[1..]);
    }
  }

  lemma {:induction false} LexAntisym(a: string, b: string)
    requires LexLe(a, b) && LexLe(b, a)
    ensures a == b
    decreases |a|
  {
    if |a| > 0 {
      LexAntisym(a[1..], b[1..]);
      assert a == [a[0]] + a[1..] && b == [b[0]] + b[1..];
    }
  }

  lemma {:induction false} LexTrans(a: string, b: string, c: string)
    requires LexLe(a, b) && LexLe(b, c)
    ensures LexLe(a, c)
    decreases |a|
  {
    if |a| > 0 && a[0] == b[0] && b[0] == c[0] {
      LexTrans(a[1..], b[1..], c[1..]);
    }
  }

  /** Each element is <= the next one. */
  predicate LexSorted(s: seq<string>)
  {
    forall i :: 0 < i < |s| ==> LexLe(s[i - 1], s[i])
  }

  function InsertLex(x: string, r: seq<string>): (q: seq<string>)
    requires LexSorted(r)
    ensures LexSorted(q)
    ensures multiset(q) == multiset(r) + multiset{x}
    ensures |q| == |r| + 1 && (q[0] == x || (|r| > 0 && q[0] == r[0]))
  {
    if r == [] then [x]
    else if LexLe(x, r[0]) then [x] + r
    else
      LexTotal(x, r[0]);
      var rest := InsertLex(x, r[1..]);
      assert r == [r[0]] + r[1..];
      [r[0]] + rest
  }

  /** sorted() on a list of str. */
  function SortLex(s: seq<string>): (r: seq<string>)
    ensures LexSorted(r)
    ensures multiset(r) == multiset(s)
  {
    if s == [] then []
    else
      assert s == s[..|s| - 1] + [s[|s| - 1]];
      InsertLex(s[|s| - 1], SortLex(s[..|s| - 1]))
  }

  /** The first element of a sorted sequence is <= every element. */
  lemma {:induction false} LexSortedFirst(s: seq<string>)
    requires LexSorted(s) && |s| > 0
    ensures forall j :: 0 <= j < |s| ==> LexLe(s[0], s[j])
    decreases |s|
  {
    LexRefl(s[0]);
    if |s| > 1 {
      var t := s[1..];
      assert LexSorted(t) by {
        forall i | 0 < i < |t| ensures LexLe(t[i - 1], t[i]) {
          assert t[i - 1] == s[i] && t[i] == s[i + 1];
        }
      }
      LexSortedFirst(t);
      forall j | 1 <= j < |s| ensures LexLe(s[0], s[j]) {
        assert LexLe(s[0], s[1]) && LexLe(t[0], t[j - 1]);
        LexTrans(s[0], s[1], s[j]);
      }
    }
  }

  /**
   * A sorted listing without repeats is determined by its elements: there is one `sorted()` of
   * a set of keys.
   */
  lemma {:induction false} LexSortedUnique(a: seq<string>, b: seq<string>)
    requires LexSorted(a) && LexSorted(b) && Distinct(a) && Distinct(b)
    requires forall x :: x in a <==> x in b
    ensures a == b
    decreases |a|
  {
    if a == [] {
      assert forall i :: 0 <= i < |b| ==> b[i] in a;
    } else {
      assert a[0] in a;
      assert b != [];
      LexSortedFirst(a);
      LexSortedFirst(b);
      assert LexLe(a[0], b[0]) by {
        assert b[0] in b;
      }
      assert LexLe(b[0], a[0]) by {
        assert a[0] in b;
      }
      LexAntisym(a[0], b[0]);
      var a', b' := a[1..], b[1..];
      assert LexSorted(a') by {
        forall i | 0 < i < |a'| ensures LexLe(a'[i - 1], a'[i]) {
          assert a'[i - 1] == a[i] && a'[i] == a[i + 1];
        }
      }
      assert LexSorted(b') by {
        forall i | 0 < i < |b'| ensures LexLe(b'[i - 1], b'[i]) {
          assert b'[i - 1] == b[i] && b'[i] == b[i + 1];
        }
      }
      assert a[0] !in a' by {
        forall k | 0 <= k < |a'| ensures a'[k] != a[0] {
          assert a'[k] == a[k + 1];
        }
      }
      assert b[0] !in b' by {
        forall k | 0 <= k < |b'| ensures b'[k] != b[0] {
          assert b'[k] == b[k + 1];
        }
      }
      assert a == [a[0]] + a' && b == [b[0]] + b';
      forall x ensures x in a' <==> x in b' {
        assert x in a <==> x == a[0] || x in a';
        assert x in b <==> x == b[0] || x in b';
      }
      LexSortedUnique(a', b');
      assert a == [a[0]] + a' && b == [b[0]] + b';
    }
  }

  /** In a sequence without repeats every value occurs at most once. */
  lemma {:induction false} DistinctCount<T>(a: seq<T>)
    requires Distinct(a)
    ensures forall x :: multiset(a)[x] <= 1
  {
    if a != [] {
      assert a == [a[0]] + a[1..];
      DistinctCount(a[1..]);
    }
  }

  /** Two positions holding the same value make it occur at least twice, or the positions coincide. */
  lemma TwiceCounted<T>(b: seq<T>, i: int, j: int)
    requires 0 <= i < j < |b|
    ensures b[i] == b[j] ==> multiset(b)[b[i]] >= 2
  {
    assert b == b[..j] + [b[j]] + b[j + 1..];
    assert b[i] in multiset(b[..j]);
  }

  /** A permutation of a sequence without repeats has no repeats. */
  lemma DistinctPermutation<T>(a: seq<T>, b: seq<T>)
    requires multiset(a) == multiset(b) && Distinct(a)
    ensures Distinct(b)
  {
    DistinctCount(a);
    forall i, j | 0 <= i < j < |b|
      ensures b[i] != b[j]
    {
      TwiceCounted(b, i, j);
    }
  }

  /** The values of s in first-seen order, later repeats dropped. */
  function Dedup<T(==,!new)>(s: seq<T>): (r: seq<T>)
    ensures Distinct(r)
    ensures forall x :: x in r <==> x in s
    ensures |r| <= |s|
  {
    if s == [] then []
    else
      var init := Dedup(s[..|s| - 1]);
      var last := s[|s| - 1];
      assert forall x :: x in s <==> x in s[..|s| - 1] || x == last;
      if last in init then init else init + [last]
  }
  /** The concatenation of a sequence of sequences, in order. */
  function Concat<T>(bs: seq<seq<T>>): (r: seq<T>)
  {
    if bs == [] then [] else Concat(bs[..|bs| - 1]) + bs[|bs| - 1]
  }

  /** Concatenation splits at the first block. */
  lemma {:induction false} ConcatCons<T>(b: seq<T>, bs: seq<seq<T>>)
    ensures Concat([b] + bs) == b + Concat(bs)
    decreases |bs|
  {
    if bs != [] {
      var init := bs[..|bs| - 1];
      assert ([b] + bs)[..|bs|] == [b] + init;
      ConcatCons(b, init);
    }
  }

  /** Concatenation distributes over appending blocks. */
  lemma {:induction false} ConcatAppend<T>(a: seq<seq<T>>, b: seq<seq<T>>)
    ensures Concat(a + b) == Concat(a) + Concat(b)
    decreases |b|
  {
    if b == [] {
      assert a + b == a;
    } else {
      var init := b[..|b| - 1];
      assert (a + b)[..|a + b| - 1] == a + init;
      ConcatAppend(a, init);
    }
  }

  /** s in reverse order (s[::-1]). */
  function Reverse<T>(s: seq<T>): (r: seq<T>)
    ensures |r| == |s|
  {
    if s == [] then [] else [s[|s| - 1]] + Reverse(s[..|s| - 1])
  }
}
