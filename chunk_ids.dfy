/**
 * The chunk id f"{logno}:{i:03d}" that the vectorize, production RAG and GPU vectorizer scripts
 * give the i-th chunk of a post, and why such ids do not collide.
 */
module ChunkIds {
  import opened Strings

  /** f"{prefix}:{i:03d}" */
  function ChunkId(prefix: string, i: nat): (id: string)
    ensures |id| >= |prefix| + 4 && id[..|prefix|] == prefix && id[|prefix|] == ':'
  {
    prefix + ":" + Pad3(i)
  }

  /** The id has no colon after the one that ends the prefix: the index part is all digits. */
  lemma LastColon(p: string, i: nat)
    ensures forall k :: |p| < k < |ChunkId(p, i)| ==> ChunkId(p, i)[k] != ':'
  {
    var id := ChunkId(p, i);
    assert forall k :: |p| < k < |id| ==> id[k] == Pad3(i)[k - |p| - 1];
  }

  /** Two chunk ids are equal only for the same prefix and the same index. */
  lemma ChunkIdInjective(p: string, i: nat, q: string, j: nat)
    requires ChunkId(p, i) == ChunkId(q, j)
    ensures p == q && i == j
  {
    var id := ChunkId(p, i);
    LastColon(p, i);
    LastColon(q, j);
    assert |p| == |q|;
    assert p == id[..|p|] == q;
    assert Pad3(i) == id[|p| + 1..] == Pad3(j);
  }

  /** str(n) starts with a minus sign exactly for negative n. */
  lemma SignChar(n: int)
    ensures |IntToString(n)| > 0 && (IntToString(n)[0] == '-' <==> n < 0)
  {
    if n >= 0 {
      assert IsDigit(NatToString(n)[0]);
    }
  }

  /** str(n) is injective on ints. */
  lemma IntToStringInjective(a: int, b: int)
    requires IntToString(a) == IntToString(b)
    ensures a == b
  {
    SignChar(a);
    SignChar(b);
    if a < 0 {
      var s := IntToString(a);
      assert NatToString(-a) == s[1..] == NatToString(-b);
      NatToStringInjective(-a, -b);
    } else {
      NatToStringInjective(a, b);
    }
  }

  /** The ids of posts with distinct integer lognos never collide. */
  lemma IntChunkIdInjective(a: int, i: nat, b: int, j: nat)
    requires ChunkId(IntToString(a), i) == ChunkId(IntToString(b), j)
    ensures a == b && i == j
  {
    ChunkIdInjective(IntToString(a), i, IntToString(b), j);
    IntToStringInjective(a, b);
  }
}
