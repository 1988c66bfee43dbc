/**
 * src/crawler/storage.py: CrawlerStorage, the seen-post table (unique by URL) and the single
 * checkpoint row that the incremental crawler reads and advances.
 */
module CrawlerStorage {
  import opened Wrappers
  import Hashes

  /** A row of seen_posts; the URL is its unique key. */
  datatype SeenPost = SeenPost(
    logno: int,
    contentHash: string,
    title: Option<string>,
    firstSeenAt: string,
    lastSeenAt: string,
    isUpdated: bool)

  /** The checkpoint row with id 1. */
  datatype Checkpoint = Checkpoint(lastLogno: int, lastUpdated: string, totalPosts: int, newPosts: int, updatedPosts: int)

  datatype AddStatus = New | Updated | Unchanged

  /** stats.get(key, 0) */
  function StatOr0(stats: map<string, int>, key: string): int
  {
    if key in stats then stats[key] else 0
  }

  /** The stats dict that crawl_incremental passes: each key reads back its own count. */
  lemma StatsDisplay(total: int, newCount: int, updated: int)
    ensures var stats := map["total" := total, "new" := newCount, "updated" := updated];
      StatOr0(stats, "total") == total && StatOr0(stats, "new") == newCount && StatOr0(stats, "updated") == updated
  {
    assert |"total"| == 5 && |"new"| == 3 && |"updated"| == 7;
  }

  /** is_content_updated: an unknown URL counts as updated; a known one iff its stored hash differs. */
  predicate ContentUpdated(seen: map<string, SeenPost>, url: string, hash: string)
  {
    url !in seen || seen[url].contentHash != hash
  }

  /** add_seen_post on the table: classify the post and apply the matching INSERT or UPDATE. */
  function AddSeen(seen: map<string, SeenPost>, url: string, logno: int, hash: string, title: Option<string>, now: string)
    : (map<string, SeenPost>, AddStatus)
  {
    if url in seen then
      var row := seen[url];
      if row.contentHash != hash
      then (seen[url := row.(contentHash := hash, title := title, lastSeenAt := now, isUpdated := true)], Updated)
      else (seen[url := row.(lastSeenAt := now)], Unchanged)
    else (seen[url := SeenPost(logno, hash, title, now, now, false)], New)
  }

  class Storage {
    var seen: map<string, SeenPost>
    var checkpoint: Checkpoint
    const sha: Hashes.Sha256

    /** _init_db on a new database: no seen posts and the default checkpoint with last_logno 0. */
    constructor(sha: Hashes.Sha256, now: string)
      ensures seen == map[] && this.sha == sha
      ensures checkpoint == Checkpoint(0, now, 0, 0, 0)
      ensures GetLastLogno() == 0
    {
      seen := map[];
      checkpoint := Checkpoint(0, now, 0, 0, 0);
      this.sha := sha;
    }

    /** get_last_logno */
    function GetLastLogno(): int
      reads this
    {
      checkpoint.lastLogno
    }

    /** update_checkpoint: overwrite the checkpoint, with no comparison against the stored logno. */
    method UpdateCheckpoint(lastLogno: int, stats: map<string, int>, now: string)
      modifies this
      ensures checkpoint == Checkpoint(lastLogno, now, StatOr0(stats, "total"), StatOr0(stats, "new"), StatOr0(stats, "updated"))
      ensures GetLastLogno() == lastLogno
      ensures seen == old(seen)
    {
      checkpoint := Checkpoint(lastLogno, now, StatOr0(stats, "total"), StatOr0(stats, "new"), StatOr0(stats, "updated"));
    }

    /** is_post_seen */
    predicate IsPostSeen(url: string)
      reads this
    {
      url in seen
    }

    /** is_content_updated */
    predicate IsContentUpdated(url: string, content: string)
      reads this
    {
      ContentUpdated(seen, url, sha(content))
    }

    /** add_seen_post: afterwards the URL is seen with this content's hash. */
    method AddSeenPost(url: string, logno: int, content: string, title: Option<string>, now: string) returns (status: AddStatus)
      modifies this
      ensures (seen, status) == AddSeen(old(seen), url, logno, sha(content), title, now)
      ensures checkpoint == old(checkpoint)
      ensures IsPostSeen(url) && !IsContentUpdated(url, content)
    {
      var hash := sha(content);
      if url in seen {
        var row := seen[url];
        if row.contentHash != hash {
          seen := seen[url := row.(contentHash := hash, title := title, lastSeenAt := now, isUpdated := true)];
          status := Updated;
        } else {
          seen := seen[url := row.(lastSeenAt := now)];
          status := Unchanged;
        }
      } else {
        seen := seen[url := SeenPost(logno, hash, title, now, now, false)];
        status := New;
      }
    }
  }

  /**
   * The classification of add_seen_post: "new" exactly for an unseen URL, "updated" exactly for
   * a seen URL with another hash (hash and title replaced, is_updated set), "unchanged"
   * otherwise (only last_seen_at touched). The stored logno of a seen URL never changes,
   * other URLs are untouched, and the URL is then seen with the new hash.
   */
  lemma AddSeenClassifies(seen: map<string, SeenPost>, url: string, logno: int, hash: string, title: Option<string>, now: string)
    ensures var (s, st) := AddSeen(seen, url, logno, hash, title, now);
      && (st == New <==> url !in seen)
      && (st == Updated <==> url in seen && seen[url].contentHash != hash)
      && (st == Unchanged <==> url in seen && seen[url].contentHash == hash)
      && s.Keys == seen.Keys + {url}
      && (forall u :: u in seen && u != url ==> s[u] == seen[u])
      && (url in seen ==> s[url].logno == seen[url].logno && s[url].firstSeenAt == seen[url].firstSeenAt)
      && (st == New ==> s[url] == SeenPost(logno, hash, title, now, now, false))
      && (st == Updated ==> s[url].title == title && s[url].isUpdated)
      && (st == Unchanged ==> s[url] == seen[url].(lastSeenAt := now))
      && !ContentUpdated(s, url, hash)
  {
  }

  /** Adding the same URL with the same content a second time reports "unchanged". */
  lemma AddSeenTwiceUnchanged(seen: map<string, SeenPost>, url: string, logno: int, logno2: int, hash: string,
                              title: Option<string>, title2: Option<string>, now: string, now2: string)
    ensures AddSeen(AddSeen(seen, url, logno, hash, title, now).0, url, logno2, hash, title2, now2).1 == Unchanged
  {
  }

  /** An unknown URL always counts as updated content. */
  lemma UnknownIsUpdated(seen: map<string, SeenPost>, url: string, hash: string)
    requires url !in seen
    ensures ContentUpdated(seen, url, hash)
  {
  }
}
