/**
 * The upsert loop shared by the vectorize, production RAG and GPU vectorizer scripts: the ids are
 * sent in batches of 100; when a batch upsert raises, each of its items is retried on its own,
 * and the returned count is the number of items some upsert accepted. Whether a Chroma call
 * raises is outside the model: `batchOk(i)` says whether the batch starting at i succeeds and
 * `itemOk(k)` whether the single upsert of item k does. A failed call leaves the collection as
 * it was.
 */
module ChromaBatches {
  import opened Chroma

  const BatchSize: nat := 100

  /** The end of the batch that starts at i: min(i + 100, n). */
  function BatchEnd(i: nat, n: nat): (j: nat)
    requires i < n
    ensures i < j <= n && j - i <= BatchSize
  {
    if i + BatchSize < n then i + BatchSize else n
  }

  /** The single-item retries of items i..k-1. */
  function Items(s: Store, ids: seq<string>, recs: seq<Record>, itemOk: nat -> bool, i: nat, k: nat): (r: Store)
    requires s.Valid() && |ids| == |recs| && i <= k <= |ids|
    ensures r.Valid()
    decreases k - i
  {
    if k == i then s
    else
      var p := Items(s, ids, recs, itemOk, i, k - 1);
      if itemOk(k - 1) then PutAll(p, [ids[k - 1]], [recs[k - 1]]) else p
  }

  /** How many of the retries of items i..k-1 succeed. */
  function ItemCount(itemOk: nat -> bool, i: nat, k: nat): (c: nat)
    requires i <= k
    ensures c <= k - i
    decreases k - i
  {
    if k == i then 0 else ItemCount(itemOk, i, k - 1) + (if itemOk(k - 1) then 1 else 0)
  }

  /** One batch: its upsert, or the retries of its items when it raises. */
  function Batch(s: Store, ids: seq<string>, recs: seq<Record>, batchOk: nat -> bool, itemOk: nat -> bool, i: nat): (r: Store)
    requires s.Valid() && |ids| == |recs| && i < |ids|
    ensures r.Valid()
  {
    var j := BatchEnd(i, |ids|);
    if batchOk(i) then PutAll(s, ids[i..j], recs[i..j]) else Items(s, ids, recs, itemOk, i, j)
  }

  /** What one batch adds to total_upserted. */
  function BatchCount(batchOk: nat -> bool, itemOk: nat -> bool, i: nat, n: nat): nat
    requires i < n
  {
    var j := BatchEnd(i, n);
    if batchOk(i) then j - i else ItemCount(itemOk, i, j)
  }

  /** The collection after the batches from position i on. */
  function From(s: Store, ids: seq<string>, recs: seq<Record>, batchOk: nat -> bool, itemOk: nat -> bool, i: nat): (r: Store)
    requires s.Valid() && |ids| == |recs| && i <= |ids|
    ensures r.Valid()
    decreases |ids| - i
  {
    if i == |ids| then s
    else From(Batch(s, ids, recs, batchOk, itemOk, i), ids, recs, batchOk, itemOk, BatchEnd(i, |ids|))
  }

  /** What the batches from position i on add to total_upserted. */
  function CountFrom(batchOk: nat -> bool, itemOk: nat -> bool, i: nat, n: nat): nat
    requires i <= n
    decreases n - i
  {
    if i == n then 0 else BatchCount(batchOk, itemOk, i, n) + CountFrom(batchOk, itemOk, BatchEnd(i, n), n)
  }

  /** The count never exceeds the number of items. */
  lemma {:induction false} CountBound(batchOk: nat -> bool, itemOk: nat -> bool, i: nat, n: nat)
    requires i <= n
    ensures CountFrom(batchOk, itemOk, i, n) <= n - i
    decreases n - i
  {
    if i < n {
      CountBound(batchOk, itemOk, BatchEnd(i, n), n);
    }
  }

  /** Item k is accepted by its batch (which starts at the multiple of 100 below it) or by its retry. */
  ghost predicate Reliable(batchOk: nat -> bool, itemOk: nat -> bool, n: nat)
  {
    forall k :: 0 <= k < n ==> batchOk(k - k % BatchSize) || itemOk(k)
  }

  lemma {:induction false} ItemsAllOk(s: Store, ids: seq<string>, recs: seq<Record>, itemOk: nat -> bool, i: nat, k: nat)
    requires s.Valid() && |ids| == |recs| && i <= k <= |ids|
    requires forall m :: i <= m < k ==> itemOk(m)
    ensures Items(s, ids, recs, itemOk, i, k) == PutAll(s, ids[i..k], recs[i..k])
    ensures ItemCount(itemOk, i, k) == k - i
    decreases k - i
  {
    ItemCountAllOk(itemOk, i, k);
    if k > i {
      ItemsAllOk(s, ids, recs, itemOk, i, k - 1);
      var front, ifront := ids[i..k - 1], recs[i..k - 1];
      var p := Items(s, ids, recs, itemOk, i, k - 1);
      assert p == PutAll(s, front, ifront);
      assert Items(s, ids, recs, itemOk, i, k) == PutAll(p, [ids[k - 1]], [recs[k - 1]]);
      SliceSnoc(ids, i, k);
      SliceSnoc(recs, i, k);
      PutAllConcat(s, front, ifront, [ids[k - 1]], [recs[k - 1]]);
    }
  }

  lemma {:induction false} ItemCountAllOk(itemOk: nat -> bool, i: nat, k: nat)
    requires i <= k
    requires forall m :: i <= m < k ==> itemOk(m)
    ensures ItemCount(itemOk, i, k) == k - i
    decreases k - i
  {
    if k > i {
      ItemCountAllOk(itemOk, i, k - 1);
    }
  }

  /** Where no item is lost, the batches together act as one upsert of everything and count every item. */
  lemma {:induction false} ReliableFrom(s: Store, ids: seq<string>, recs: seq<Record>, batchOk: nat -> bool, itemOk: nat -> bool, i: nat)
    requires s.Valid() && |ids| == |recs| && i <= |ids| && i % BatchSize == 0
    requires Reliable(batchOk, itemOk, |ids|)
    ensures From(s, ids, recs, batchOk, itemOk, i) == PutAll(s, ids[i..], recs[i..])
    ensures CountFrom(batchOk, itemOk, i, |ids|) == |ids| - i
    decreases |ids| - i
  {
    if i < |ids| {
      var j := BatchEnd(i, |ids|);
      BatchReliable(s, ids, recs, batchOk, itemOk, i);
      var b := Batch(s, ids, recs, batchOk, itemOk, i);
      if j < |ids| {
        ReliableFrom(b, ids, recs, batchOk, itemOk, j);
      }
      SliceSplit(ids, i, j);
      SliceSplit(recs, i, j);
      PutAllConcat(s, ids[i..j], recs[i..j], ids[j..], recs[j..]);
    }
  }

  /** A batch on the boundary of 100 whose items are not lost upserts all of them. */
  lemma BatchReliable(s: Store, ids: seq<string>, recs: seq<Record>, batchOk: nat -> bool, itemOk: nat -> bool, i: nat)
    requires s.Valid() && |ids| == |recs| && i < |ids| && i % BatchSize == 0
    requires Reliable(batchOk, itemOk, |ids|)
    ensures Batch(s, ids, recs, batchOk, itemOk, i) == PutAll(s, ids[i..BatchEnd(i, |ids|)], recs[i..BatchEnd(i, |ids|)])
    ensures BatchCount(batchOk, itemOk, i, |ids|) == BatchEnd(i, |ids|) - i
    ensures BatchEnd(i, |ids|) % BatchSize == 0 || BatchEnd(i, |ids|) == |ids|
  {
    var j := BatchEnd(i, |ids|);
    if !batchOk(i) {
      forall m | i <= m < j ensures itemOk(m) {
        assert m - m % BatchSize == i;
      }
      ItemsAllOk(s, ids, recs, itemOk, i, j);
    }
  }

  lemma SliceSnoc<T>(x: seq<T>, i: nat, k: nat)
    requires i < k <= |x|
    ensures x[i..k] == x[i..k - 1] + [x[k - 1]]
  {
  }

  lemma SliceSplit<T>(x: seq<T>, i: nat, j: nat)
    requires i <= j <= |x|
    ensures x[i..] == x[i..j] + x[j..]
  {
  }

  /** Whatever fails, the loop stores only ids of the batch and leaves every other record alone. */
  lemma {:induction false} FromFrame(s: Store, ids: seq<string>, recs: seq<Record>, batchOk: nat -> bool, itemOk: nat -> bool, i: nat)
    requires s.Valid() && |ids| == |recs| && i <= |ids|
    ensures forall id :: id in From(s, ids, recs, batchOk, itemOk, i).recs ==> id in s.recs || id in ids
    ensures forall id :: id in s.recs ==> id in From(s, ids, recs, batchOk, itemOk, i).recs
    ensures forall id :: id in s.recs && id !in ids ==> From(s, ids, recs, batchOk, itemOk, i).recs[id] == s.recs[id]
    decreases |ids| - i
  {
    if i < |ids| {
      var j := BatchEnd(i, |ids|);
      BatchFrame(s, ids, recs, batchOk, itemOk, i);
      FromFrame(Batch(s, ids, recs, batchOk, itemOk, i), ids, recs, batchOk, itemOk, j);
    }
  }

  lemma BatchFrame(s: Store, ids: seq<string>, recs: seq<Record>, batchOk: nat -> bool, itemOk: nat -> bool, i: nat)
    requires s.Valid() && |ids| == |recs| && i < |ids|
    ensures forall id :: id in Batch(s, ids, recs, batchOk, itemOk, i).recs ==> id in s.recs || id in ids
    ensures forall id :: id in s.recs ==> id in Batch(s, ids, recs, batchOk, itemOk, i).recs
    ensures forall id :: id in s.recs && id !in ids ==> Batch(s, ids, recs, batchOk, itemOk, i).recs[id] == s.recs[id]
  {
    var j := BatchEnd(i, |ids|);
    if batchOk(i) {
      PutAllFrame(s, ids[i..j], recs[i..j]);
      assert forall id :: id in ids[i..j] ==> id in ids;
    } else {
      ItemsFrame(s, ids, recs, itemOk, i, j);
    }
  }

  lemma {:induction false} ItemsFrame(s: Store, ids: seq<string>, recs: seq<Record>, itemOk: nat -> bool, i: nat, k: nat)
    requires s.Valid() && |ids| == |recs| && i <= k <= |ids|
    ensures forall id :: id in Items(s, ids, recs, itemOk, i, k).recs ==> id in s.recs || id in ids
    ensures forall id :: id in s.recs ==> id in Items(s, ids, recs, itemOk, i, k).recs
    ensures forall id :: id in s.recs && id !in ids ==> Items(s, ids, recs, itemOk, i, k).recs[id] == s.recs[id]
    decreases k - i
  {
    if k > i {
      ItemsFrame(s, ids, recs, itemOk, i, k - 1);
      var p := Items(s, ids, recs, itemOk, i, k - 1);
      assert PutAll(p, [ids[k - 1]], [recs[k - 1]]) == Put(p, ids[k - 1], recs[k - 1]);
    }
  }

  /** The loop, with its fallback. */
  method UpsertInBatches(col: Collection, ids: seq<string>, recs: seq<Record>, batchOk: nat -> bool, itemOk: nat -> bool)
    returns (total: nat)
    requires col.Contents().Valid() && |ids| == |recs|
    modifies col
    ensures col.Contents() == From(old(col.Contents()), ids, recs, batchOk, itemOk, 0)
    ensures total == CountFrom(batchOk, itemOk, 0, |ids|)
  {
    ghost var s0 := col.Contents();
    total := 0;
    var i := 0;
    while i < |ids|
      invariant i <= |ids| && col.Contents().Valid()
      invariant From(col.Contents(), ids, recs, batchOk, itemOk, i) == From(s0, ids, recs, batchOk, itemOk, 0)
      invariant total + CountFrom(batchOk, itemOk, i, |ids|) == CountFrom(batchOk, itemOk, 0, |ids|)
      decreases |ids| - i
    {
      var j := BatchEnd(i, |ids|);
      ghost var sb := col.Contents();
      var added;
      if batchOk(i) {
        col.Upsert(ids[i..j], recs[i..j]);
        added := j - i;
      } else {
        added := RetryItems(col, ids, recs, itemOk, i, j);
      }
      assert col.Contents() == Batch(sb, ids, recs, batchOk, itemOk, i);
      assert added == BatchCount(batchOk, itemOk, i, |ids|);
      total := total + added;
      i := j;
    }
  }

  /** The fallback after a failed batch: items i..j-1 upserted one at a time, counting those accepted. */
  method RetryItems(col: Collection, ids: seq<string>, recs: seq<Record>, itemOk: nat -> bool, i: nat, j: nat)
    returns (added: nat)
    requires col.Contents().Valid() && |ids| == |recs| && i <= j <= |ids|
    modifies col
    ensures col.Contents() == Items(old(col.Contents()), ids, recs, itemOk, i, j)
    ensures added == ItemCount(itemOk, i, j)
  {
    ghost var sb := col.Contents();
    added := 0;
    for k := i to j
      invariant col.Contents() == Items(sb, ids, recs, itemOk, i, k)
      invariant added == ItemCount(itemOk, i, k)
    {
      if itemOk(k) {
        col.Upsert([ids[k]], [recs[k]]);
        added := added + 1;
      }
    }
  }

  /** The three parallel lists (ids, documents, metadatas) a script prepares for upsert. */
  datatype Prepared = Prepared(ids: seq<string>, documents: seq<string>, metadatas: seq<Meta>)

  /** The records the collection stores for the prepared entries, embedded by its embedding function. */
  function Records(p: Prepared, embed: string -> seq<real>): (recs: seq<Record>)
    requires |p.documents| == |p.metadatas|
    ensures |recs| == |p.documents|
  {
    seq(|p.documents|, k requires 0 <= k < |p.documents| => Record(embed(p.documents[k]), p.documents[k], p.metadatas[k]))
  }

  /**
   * The prepared entries sent through the batch loop. The count never exceeds the number of
   * entries, and when no item is lost it is exactly that number and the collection holds every entry.
   */
  method UpsertEntries(col: Collection, p: Prepared, embed: string -> seq<real>, batchOk: nat -> bool, itemOk: nat -> bool)
    returns (total: nat)
    requires col.Contents().Valid()
    requires |p.ids| == |p.documents| == |p.metadatas|
    modifies col
    ensures col.Contents() == From(old(col.Contents()), p.ids, Records(p, embed), batchOk, itemOk, 0)
    ensures total == CountFrom(batchOk, itemOk, 0, |p.ids|) && total <= |p.ids|
    ensures Reliable(batchOk, itemOk, |p.ids|) ==>
      total == |p.ids| && col.Contents() == PutAll(old(col.Contents()), p.ids, Records(p, embed))
  {
    ghost var s0 := col.Contents();
    var recs := Records(p, embed);
    total := UpsertInBatches(col, p.ids, recs, batchOk, itemOk);
    CountBound(batchOk, itemOk, 0, |p.ids|);
    if Reliable(batchOk, itemOk, |p.ids|) {
      ReliableFrom(s0, p.ids, recs, batchOk, itemOk, 0);
      assert p.ids[0..] == p.ids && recs[0..] == recs;
    }
  }
}
