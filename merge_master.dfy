/**
 * src/modules/merge_to_master.py: merging a crawl snapshot (JSONL) into the master `posts`
 * table keyed by logno, and exporting the newly inserted rows for indexing.
 */
module MergeToMaster {
  import opened Wrappers
  import opened Collections
  import UtilsText
  import Hashes

  /** A JSON value given to int(): a number, something int() rejects (ValueError), or null (TypeError). */
  datatype IntField = IntVal(n: int) | NotAnInt | NullValue

  /** The keys of one snapshot record that the merge reads; None is an absent key. */
  datatype Snapshot = Snapshot(
    postNo: Option<IntField>,
    logno: Option<IntField>,
    url: Option<string>,
    title: Option<string>,
    categoryNo: Option<IntField>,
    publishedAt: Option<string>,
    postedAt: Option<string>,
    contentText: Option<string>,
    content: Option<string>,
    crawledAt: Option<string>)

  /** One line after json.loads: not JSON, JSON but not an object, or an object. */
  datatype Line = Malformed | NotAnObject | Object(data: Snapshot)

  /** A row of the posts table (logno is its key). */
  datatype Post = Post(
    url: string,
    title: string,
    categoryNo: int,
    postedAt: string,
    content: string,
    contentHash: string,
    crawledAt: string)

  /** What one line amounts to: skipped (a caught exception), an uncaught exception, or a row to upsert. */
  datatype Outcome = Skip | Abort | Row(logno: int, post: Post)

  datatype MergeError = FileNotFound | Aborted

  /** The transaction of one upsert_jsonl call: the table so far, the new lognos, the counters. */
  datatype Merge = Merge(posts: map<int, Post>, inserted: seq<int>, newCount: nat, updatedCount: nat)

  const ExportDir: string := "src/data/master/exports"

  /** The record a line stands for, in the order the source evaluates and can fail. */
  function LineOutcome(line: Line, sha: Hashes.Sha256): Outcome
  {
    match line
    case Malformed => Skip
    case NotAnObject => Abort
    case Object(d) =>
      match d.postNo.GetOr(d.logno.GetOr(IntVal(0)))
      case NotAnInt => Skip
      case NullValue => Abort
      case IntVal(l) =>
        var text := d.contentText.GetOr(d.content.GetOr(""));
        var h := UtilsText.ContentHash(sha, text);
        match d.categoryNo.GetOr(IntVal(0))
        case NotAnInt => Skip
        case NullValue => Abort
        case IntVal(c) =>
          Row(l, Post(d.url.GetOr(""), d.title.GetOr(""), c, d.publishedAt.GetOr(d.postedAt.GetOr("")),
                      text, h, d.crawledAt.GetOr("")))
  }

  /** INSERT ... ON CONFLICT(logno) DO UPDATE: content and hash change only with the hash. */
  function Upsert(posts: map<int, Post>, l: int, p: Post): map<int, Post>
  {
    if l in posts && posts[l].contentHash == p.contentHash
    then posts[l := p.(content := posts[l].content, contentHash := posts[l].contentHash)]
    else posts[l := p]
  }

  /** One line of the loop; None when the line raises an exception the loop does not catch. */
  function Step(m: Merge, line: Line, sha: Hashes.Sha256): Option<Merge>
  {
    match LineOutcome(line, sha)
    case Skip => Some(m)
    case Abort => None
    case Row(l, p) =>
      var isNew := l !in m.posts;
      var changed := l in m.posts && m.posts[l].contentHash != p.contentHash;
      Some(Merge(Upsert(m.posts, l, p),
                 if isNew then m.inserted + [l] else m.inserted,
                 if isNew then m.newCount + 1 else m.newCount,
                 if changed then m.updatedCount + 1 else m.updatedCount))
  }

  /** The remaining lines applied to the transaction m, or None if one of them aborts the call. */
  function MergeFrom(m: Merge, lines: seq<Line>, sha: Hashes.Sha256): Option<Merge>
    decreases |lines|
  {
    if lines == [] then Some(m)
    else match Step(m, lines[0], sha)
      case None => None
      case Some(m') => MergeFrom(m', lines[1..], sha)
  }

  function Start(posts: map<int, Post>): Merge
  {
    Merge(posts, [], 0, 0)
  }

  /** The line reaches the upsert with logno x. */
  predicate IsRowOf(line: Line, x: int, sha: Hashes.Sha256)
  {
    LineOutcome(line, sha).Row? && LineOutcome(line, sha).logno == x
  }

  /** The lognos of the lines that reach the upsert. */
  function RowKeys(lines: seq<Line>, sha: Hashes.Sha256): set<int>
  {
    set i | 0 <= i < |lines| && LineOutcome(lines[i], sha).Row? :: LineOutcome(lines[i], sha).logno
  }

  /** The SELECT ... WHERE logno IN (...) ORDER BY logno rows of export_new_posts. */
  datatype ExportRow = ExportRow(logno: int, post: Post)

  function Lognos(rows: seq<ExportRow>): (r: seq<int>)
    ensures |r| == |rows| && forall k :: 0 <= k < |rows| ==> r[k] == rows[k].logno
  {
    seq(|rows|, k requires 0 <= k < |rows| => rows[k].logno)
  }

  /** The rows of the given ascending keys that exist in the table. */
  function RowsOf(keys: seq<int>, posts: map<int, Post>): (rows: seq<ExportRow>)
    requires StrictlyIncreasing(keys)
    ensures forall k :: 0 <= k < |rows| ==> rows[k].logno in posts && rows[k].post == posts[rows[k].logno]
    ensures forall x :: x in Lognos(rows) <==> x in keys && x in posts
    ensures StrictlyIncreasing(Lognos(rows))
  {
    if keys == [] then []
    else
      var rest := RowsOf(keys[1..], posts);
      assert forall x :: x in keys[1..] ==> keys[0] < x;
      assert forall x :: x in keys <==> x == keys[0] || x in keys[1..];
      if keys[0] in posts then
        ConsRows(keys[0], posts[keys[0]], rest);
        [ExportRow(keys[0], posts[keys[0]])] + rest
      else rest
  }

  /** A row before rows of larger lognos keeps the lognos ascending. */
  lemma ConsRows(x: int, post: Post, rest: seq<ExportRow>)
    requires StrictlyIncreasing(Lognos(rest)) && forall y :: y in Lognos(rest) ==> x < y
    ensures Lognos([ExportRow(x, post)] + rest) == [x] + Lognos(rest)
    ensures StrictlyIncreasing(Lognos([ExportRow(x, post)] + rest))
  {
    var l := Lognos([ExportRow(x, post)] + rest);
    assert l == [x] + Lognos(rest);
    forall i, j | 0 <= i < j < |l| ensures l[i] < l[j] {
      if i == 0 {
        assert l[j] in Lognos(rest);
      }
    }
  }

  /** The master posts table. */
  class MasterDb {
    var posts: map<int, Post>
    const sha: Hashes.Sha256

    /** init_database: an empty posts table. */
    constructor(sha: Hashes.Sha256)
      ensures posts == map[] && this.sha == sha
    {
      posts := map[];
      this.sha := sha;
    }

    /**
     * upsert_jsonl: a missing file fails before any write; otherwise the lines are merged in
     * one transaction that is committed at the end, and the lognos inserted are returned. An
     * exception the loop does not catch leaves the transaction uncommitted.
     */
    method UpsertJsonl(fileExists: bool, lines: seq<Line>) returns (r: Result<seq<int>, MergeError>)
      modifies this
      ensures !fileExists ==> r == Err(FileNotFound) && posts == old(posts)
      ensures fileExists && MergeFrom(Start(old(posts)), lines, sha).None? ==>
                r == Err(Aborted) && posts == old(posts)
      ensures fileExists && MergeFrom(Start(old(posts)), lines, sha).Some? ==>
                r == Ok(MergeFrom(Start(old(posts)), lines, sha).value.inserted) &&
                posts == MergeFrom(Start(old(posts)), lines, sha).value.posts
    {
      if !fileExists {
        return Err(FileNotFound);
      }
      var cur := Start(posts);
      var i := 0;
      while i < |lines|
        invariant 0 <= i <= |lines|
        invariant posts == old(posts)
        invariant MergeFrom(cur, lines[i..], sha) == MergeFrom(Start(old(posts)), lines, sha)
      {
        assert lines[i..][1..] == lines[i + 1..];
        match LineOutcome(lines[i], sha) {
          case Skip =>
          case Abort =>
            return Err(Aborted);
          case Row(l, p) =>
            var existing := if l in cur.posts then Some(cur.posts[l].contentHash) else None;
            var merged := Upsert(cur.posts, l, p);
            if existing.None? {
              cur := Merge(merged, cur.inserted + [l], cur.newCount + 1, cur.updatedCount);
            } else if existing.value != p.contentHash {
              cur := Merge(merged, cur.inserted, cur.newCount, cur.updatedCount + 1);
            } else {
              cur := Merge(merged, cur.inserted, cur.newCount, cur.updatedCount);
            }
        }
        i := i + 1;
      }
      posts := cur.posts;
      r := Ok(cur.inserted);
    }

    /**
     * export_new_posts: "" without a query for an empty list; otherwise the export path and the
     * rows of the given lognos that exist, in ascending logno order.
     */
    function ExportNewPosts(inserted: seq<int>, runId: string): (r: (string, seq<ExportRow>))
      reads this
      ensures inserted == [] <==> r.0 == ""
      ensures inserted == [] ==> r.1 == []
      ensures inserted != [] ==> r.0 == ExportDir + "/new_for_index_" + runId + ".jsonl"
      ensures forall k :: 0 <= k < |r.1| ==> r.1[k].logno in posts && r.1[k].post == posts[r.1[k].logno]
      ensures forall x :: x in Lognos(r.1) <==> x in inserted && x in posts
      ensures StrictlyIncreasing(Lognos(r.1))
    {
      if inserted == [] then ("", [])
      else (ExportDir + "/new_for_index_" + runId + ".jsonl", RowsOf(Ascending(inserted), posts))
    }
  }

  /** What the inserted list means relative to the table p0 the call started from. */
  ghost predicate InsertedSoFar(p0: map<int, Post>, m: Merge)
  {
    && Distinct(m.inserted)
    && (forall x :: x in m.inserted ==> x !in p0)
    && (forall x :: x in m.posts <==> x in p0 || x in m.inserted)
    && m.newCount == |m.inserted|
  }

  lemma {:induction false} MergeKeepsInserted(p0: map<int, Post>, m: Merge, lines: seq<Line>, sha: Hashes.Sha256)
    requires InsertedSoFar(p0, m)
    ensures MergeFrom(m, lines, sha).Some? ==> InsertedSoFar(p0, MergeFrom(m, lines, sha).value)
    decreases |lines|
  {
    if lines != [] {
      match Step(m, lines[0], sha)
      case None =>
      case Some(m') =>
        assert InsertedSoFar(p0, m');
        MergeKeepsInserted(p0, m', lines[1..], sha);
    }
  }

  /**
   * The returned lognos are exactly the keys the call added: none was in the table before, none
   * is returned twice, the table afterwards holds the old keys plus these, and new_count is
   * their number.
   */
  lemma MergeReturnsNewKeys(p0: map<int, Post>, lines: seq<Line>, sha: Hashes.Sha256)
    ensures MergeFrom(Start(p0), lines, sha).Some? ==>
      var m := MergeFrom(Start(p0), lines, sha).value;
      && Distinct(m.inserted)
      && (forall x :: x in m.inserted ==> x !in p0)
      && (forall x :: x in m.posts <==> x in p0 || x in m.inserted)
      && m.newCount == |m.inserted|
  {
    MergeKeepsInserted(p0, Start(p0), lines, sha);
  }

  /** The keys after merging are the keys before plus the lognos of the lines that reached the upsert. */
  lemma {:induction false} MergeKeys(m: Merge, lines: seq<Line>, sha: Hashes.Sha256)
    ensures MergeFrom(m, lines, sha).Some? ==>
      forall x :: x in MergeFrom(m, lines, sha).value.posts <==> x in m.posts || x in RowKeys(lines, sha)
    decreases |lines|
  {
    if lines != [] {
      match Step(m, lines[0], sha)
      case None =>
      case Some(m') =>
        MergeKeys(m', lines[1..], sha);
        if MergeFrom(m, lines, sha).Some? {
          var rest := lines[1..];
          forall x ensures x in RowKeys(lines, sha) <==> x in RowKeys(rest, sha) || IsRowOf(lines[0], x, sha) {
            if x in RowKeys(rest, sha) {
              var i :| 0 <= i < |rest| && IsRowOf(rest[i], x, sha);
              assert lines[i + 1] == rest[i];
            }
            if x in RowKeys(lines, sha) {
              var i :| 0 <= i < |lines| && IsRowOf(lines[i], x, sha);
              if i > 0 {
                assert rest[i - 1] == lines[i];
              }
            }
            if IsRowOf(lines[0], x, sha) {
              assert x in RowKeys(lines, sha);
            }
          }
        }
    }
  }

  /** When every row's logno is already in the table, a merge inserts nothing. */
  lemma {:induction false} MergeOfKnownRows(m: Merge, lines: seq<Line>, sha: Hashes.Sha256)
    requires m.inserted == [] && m.newCount == 0
    requires forall x :: x in RowKeys(lines, sha) ==> x in m.posts
    ensures MergeFrom(m, lines, sha).Some? ==> MergeFrom(m, lines, sha).value.inserted == []
    ensures MergeFrom(m, lines, sha).Some? ==> MergeFrom(m, lines, sha).value.newCount == 0
    decreases |lines|
  {
    if lines != [] {
      match Step(m, lines[0], sha)
      case None =>
      case Some(m') =>
        var rest := lines[1..];
        forall x | x in RowKeys(rest, sha) ensures x in m'.posts {
          var i :| 0 <= i < |rest| && IsRowOf(rest[i], x, sha);
          assert lines[i + 1] == rest[i];
          assert x in RowKeys(lines, sha);
        }
        if LineOutcome(lines[0], sha).Row? {
          var l := LineOutcome(lines[0], sha).logno;
          assert l in RowKeys(lines, sha);
        }
        MergeOfKnownRows(m', rest, sha);
    }
  }

  /** Whether a line aborts the call does not depend on the table. */
  lemma {:induction false} AbortIndependent(m: Merge, n: Merge, lines: seq<Line>, sha: Hashes.Sha256)
    ensures MergeFrom(m, lines, sha).Some? <==> MergeFrom(n, lines, sha).Some?
    decreases |lines|
  {
    if lines != [] {
      match LineOutcome(lines[0], sha)
      case Abort =>
      case Skip =>
        AbortIndependent(m, n, lines[1..], sha);
      case Row(_, _) =>
        AbortIndependent(Step(m, lines[0], sha).value, Step(n, lines[0], sha).value, lines[1..], sha);
    }
  }

  /** Merging the same file a second time succeeds again and returns no lognos. */
  lemma MergeIdempotent(p0: map<int, Post>, lines: seq<Line>, sha: Hashes.Sha256)
    requires MergeFrom(Start(p0), lines, sha).Some?
    ensures var p1 := MergeFrom(Start(p0), lines, sha).value.posts;
      && MergeFrom(Start(p1), lines, sha).Some?
      && MergeFrom(Start(p1), lines, sha).value.inserted == []
  {
    var p1 := MergeFrom(Start(p0), lines, sha).value.posts;
    MergeKeys(Start(p0), lines, sha);
    AbortIndependent(Start(p0), Start(p1), lines, sha);
    MergeOfKnownRows(Start(p1), lines, sha);
  }

  /**
   * The classification of one record against the table: an absent logno is inserted and
   * returned; a present one with another hash has content and hash replaced and counts as
   * updated; a present one with the same hash keeps content and hash while url, title,
   * category_no, posted_at and crawled_at are overwritten. No other row changes.
   */
  lemma RecordClassified(m: Merge, line: Line, sha: Hashes.Sha256)
    requires LineOutcome(line, sha).Row?
    ensures var l := LineOutcome(line, sha).logno;
      var p := LineOutcome(line, sha).post;
      var m' := Step(m, line, sha).value;
      && m'.posts.Keys == m.posts.Keys + {l}
      && (forall x :: x in m.posts && x != l ==> m'.posts[x] == m.posts[x])
      && m'.posts[l].url == p.url && m'.posts[l].title == p.title && m'.posts[l].categoryNo == p.categoryNo
      && m'.posts[l].postedAt == p.postedAt && m'.posts[l].crawledAt == p.crawledAt
      && (l !in m.posts ==> m'.posts[l] == p && m'.inserted == m.inserted + [l] && m'.updatedCount == m.updatedCount)
      && (l in m.posts && m.posts[l].contentHash != p.contentHash ==>
            m'.posts[l] == p && m'.inserted == m.inserted && m'.updatedCount == m.updatedCount + 1)
      && (l in m.posts && m.posts[l].contentHash == p.contentHash ==>
            m'.posts[l].content == m.posts[l].content && m'.posts[l].contentHash == m.posts[l].contentHash &&
            m'.inserted == m.inserted && m'.updatedCount == m.updatedCount)
  {
  }

  /**
   * Lines that fail JSON parsing, or whose logno or category_no int() rejects, are skipped and
   * the later lines still merge; a record without post_no or logno merges under logno 0.
   */
  lemma SkippedLines(m: Merge, line: Line, rest: seq<Line>, sha: Hashes.Sha256)
    ensures LineOutcome(line, sha) == Skip ==> MergeFrom(m, [line] + rest, sha) == MergeFrom(m, rest, sha)
    ensures line == Malformed ==> LineOutcome(line, sha) == Skip
    ensures line.Object? && line.data.postNo.None? && line.data.logno.None? && LineOutcome(line, sha).Row? ==>
              LineOutcome(line, sha).logno == 0
  {
    assert ([line] + rest)[1..] == rest;
  }
}
