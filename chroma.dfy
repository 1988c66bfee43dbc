/**
 * The part of a ChromaDB collection that the indexing code relies on: records keyed by id, listed
 * in insertion order, each with an embedding, a document and flat metadata; `get`, `upsert`,
 * `add` and `delete` by id or by an equality filter. Persistence and vector search are not modelled.
 */
module Chroma {
  import opened Collections

  /** A flat metadata value. */
  datatype MVal = MStr(s: string) | MInt(i: int) | MReal(x: real) | MBool(b: bool) | MNull

  type Meta = map<string, MVal>

  /** One stored record. */
  datatype Record = Record(embedding: seq<real>, document: string, meta: Meta)

  /** An equality filter `where={k: v, ...}`: every key is present with that value. */
  predicate Matches(meta: Meta, where: Meta)
  {
    forall k :: k in where ==> k in meta && meta[k] == where[k]
  }

  /** The collection as a value: ids in insertion order and the record stored under each. */
  datatype Store = Store(ids: seq<string>, recs: map<string, Record>)
  {
    /** The id list and the record table describe the same, duplicate-free set of records. */
    ghost predicate Valid()
    {
      Distinct(ids) && forall id :: id in recs <==> id in ids
    }
  }

  const Empty := Store([], map[])

  /** Upsert of one record: overwritten in place when the id exists, appended otherwise. */
  function Put(s: Store, id: string, rec: Record): (r: Store)
    requires s.Valid()
    ensures r.Valid()
    ensures r.recs == s.recs[id := rec]
    ensures id in s.recs ==> r.ids == s.ids
    ensures id !in s.recs ==> r.ids == s.ids + [id]
  {
    if id in s.recs then Store(s.ids, s.recs[id := rec])
    else
      var r := Store(s.ids + [id], s.recs[id := rec]);
      assert forall i :: 0 <= i < |s.ids| ==> s.ids[i] in s.recs;
      r
  }

  /** `upsert(ids=..., ...)` of a batch, record by record; `add` behaves the same on new ids. */
  function PutAll(s: Store, ids: seq<string>, recs: seq<Record>): (r: Store)
    requires s.Valid() && |ids| == |recs|
    ensures r.Valid()
    decreases |ids|
  {
    if ids == [] then s
    else PutAll(Put(s, ids[0], recs[0]), ids[1..], recs[1..])
  }

  /** The ids `get(where=...)` returns, in insertion order. */
  function Selected(s: Store, where: Meta): (r: seq<string>)
    requires s.Valid()
  {
    SelectIn(s.ids, s.recs, where)
  }

  function SelectIn(ids: seq<string>, recs: map<string, Record>, where: Meta): (r: seq<string>)
    requires forall i :: 0 <= i < |ids| ==> ids[i] in recs
    ensures forall id :: id in r <==> id in ids && Matches(recs[id].meta, where)
    ensures |r| <= |ids|
  {
    if ids == [] then []
    else
      var init := SelectIn(ids[..|ids| - 1], recs, where);
      var last := ids[|ids| - 1];
      assert forall id :: id in ids <==> id in ids[..|ids| - 1] || id == last;
      if Matches(recs[last].meta, where) then init + [last] else init
  }

  /** The ids of `ids` that the collection holds (`get(ids=...)["ids"]` as a set). */
  function Existing(s: Store, ids: seq<string>): (r: set<string>)
  {
    if ids == [] then {}
    else Existing(s, ids[..|ids| - 1]) + (if ids[|ids| - 1] in s.recs then {ids[|ids| - 1]} else {})
  }

  /** `get(ids=...)` returns exactly the requested ids that are stored. */
  lemma {:induction false} ExistingIff(s: Store, ids: seq<string>)
    ensures forall id :: id in Existing(s, ids) <==> id in ids && id in s.recs
    decreases |ids|
  {
    if ids != [] {
      ExistingIff(s, ids[..|ids| - 1]);
      assert forall id :: id in ids <==> id in ids[..|ids| - 1] || id == ids[|ids| - 1];
    }
  }

  /** The records left after `delete(where=...)`. */
  function DeleteWhere(s: Store, where: Meta): (r: Store)
    requires s.Valid()
    ensures r.Valid()
    ensures forall id :: id in r.recs <==> id in s.recs && !Matches(s.recs[id].meta, where)
    ensures forall id :: id in r.recs ==> r.recs[id] == s.recs[id]
  {
    Store(Unmatched(s.ids, s.recs, where), map id | id in s.recs && !Matches(s.recs[id].meta, where) :: s.recs[id])
  }

  function Unmatched(ids: seq<string>, recs: map<string, Record>, where: Meta): (r: seq<string>)
    requires forall i :: 0 <= i < |ids| ==> ids[i] in recs
    requires Distinct(ids)
    ensures Distinct(r)
    ensures forall id :: id in r <==> id in ids && !Matches(recs[id].meta, where)
  {
    if ids == [] then []
    else
      var init := Unmatched(ids[..|ids| - 1], recs, where);
      var last := ids[|ids| - 1];
      assert forall id :: id in ids <==> id in ids[..|ids| - 1] || id == last;
      assert last !in ids[..|ids| - 1];
      if Matches(recs[last].meta, where) then init else init + [last]
  }

  /** The records left after `delete(ids=...)`. */
  function DeleteIds(s: Store, del: set<string>): (r: Store)
    requires s.Valid()
    ensures r.Valid()
    ensures forall id :: id in r.recs <==> id in s.recs && id !in del
    ensures forall id :: id in r.recs ==> r.recs[id] == s.recs[id]
  {
    Store(Without(s.ids, del), map id | id in s.recs && id !in del :: s.recs[id])
  }

  function Without(ids: seq<string>, del: set<string>): (r: seq<string>)
    requires Distinct(ids)
    ensures Distinct(r)
    ensures forall id :: id in r <==> id in ids && id !in del
  {
    if ids == [] then []
    else
      var init := Without(ids[..|ids| - 1], del);
      var last := ids[|ids| - 1];
      assert forall id :: id in ids <==> id in ids[..|ids| - 1] || id == last;
      assert last !in ids[..|ids| - 1];
      if last in del then init else init + [last]
  }

  /**
   * After a batch upsert every id of the batch is stored and holds the record of its last
   * occurrence in the batch; every other record is untouched.
   */
  lemma PutAllEffect(s: Store, ids: seq<string>, recs: seq<Record>)
    requires s.Valid() && |ids| == |recs|
    ensures forall id :: id in PutAll(s, ids, recs).recs <==> id in s.recs || id in ids
    ensures forall id :: id in s.recs && id !in ids ==> PutAll(s, ids, recs).recs[id] == s.recs[id]
    ensures forall i :: 0 <= i < |ids| && ids[i] !in ids[i + 1..] ==> PutAll(s, ids, recs).recs[ids[i]] == recs[i]
    ensures forall id :: id in ids ==> exists i :: 0 <= i < |ids| && ids[i] == id && PutAll(s, ids, recs).recs[id] == recs[i]
  {
    PutAllDomain(s, ids, recs);
    PutAllUntouched(s, ids, recs);
    PutAllLast(s, ids, recs);
    PutAllSome(s, ids, recs);
  }

  lemma {:induction false} PutAllDomain(s: Store, ids: seq<string>, recs: seq<Record>)
    requires s.Valid() && |ids| == |recs|
    ensures forall id :: id in PutAll(s, ids, recs).recs <==> id in s.recs || id in ids
    decreases |ids|
  {
    if ids != [] {
      PutAllDomain(Put(s, ids[0], recs[0]), ids[1..], recs[1..]);
      forall id ensures id in ids <==> id == ids[0] || id in ids[1..] {
        assert ids == [ids[0]] + ids[1..];
      }
    }
  }

  lemma {:induction false} PutAllUntouched(s: Store, ids: seq<string>, recs: seq<Record>)
    requires s.Valid() && |ids| == |recs|
    ensures forall id :: id in s.recs && id !in ids ==> id in PutAll(s, ids, recs).recs && PutAll(s, ids, recs).recs[id] == s.recs[id]
    decreases |ids|
  {
    if ids != [] {
      var s1 := Put(s, ids[0], recs[0]);
      PutAllUntouched(s1, ids[1..], recs[1..]);
      PutAllDomain(s, ids, recs);
      forall id | id in s.recs && id !in ids ensures PutAll(s, ids, recs).recs[id] == s.recs[id] {
        assert id != ids[0] && id !in ids[1..];
      }
    }
  }

  lemma {:induction false} PutAllLast(s: Store, ids: seq<string>, recs: seq<Record>)
    requires s.Valid() && |ids| == |recs|
    ensures forall i :: 0 <= i < |ids| && ids[i] !in ids[i + 1..] ==> ids[i] in PutAll(s, ids, recs).recs && PutAll(s, ids, recs).recs[ids[i]] == recs[i]
    decreases |ids|
  {
    if ids != [] {
      var s1 := Put(s, ids[0], recs[0]);
      PutAllLast(s1, ids[1..], recs[1..]);
      PutAllDomain(s, ids, recs);
      forall i | 0 <= i < |ids| && ids[i] !in ids[i + 1..]
        ensures PutAll(s, ids, recs).recs[ids[i]] == recs[i]
      {
        if i > 0 {
          assert ids[1..][i - 1] == ids[i];
          assert ids[1..][i - 1 + 1..] == ids[i + 1..];
        } else {
          PutAllUntouched(s1, ids[1..], recs[1..]);
          assert ids[0] in s1.recs;
        }
      }
    }
  }

  lemma {:induction false} PutAllSome(s: Store, ids: seq<string>, recs: seq<Record>)
    requires s.Valid() && |ids| == |recs|
    ensures forall id :: id in ids ==> id in PutAll(s, ids, recs).recs && exists i :: 0 <= i < |ids| && ids[i] == id && PutAll(s, ids, recs).recs[id] == recs[i]
    decreases |ids|
  {
    if ids != [] {
      var s1 := Put(s, ids[0], recs[0]);
      PutAllSome(s1, ids[1..], recs[1..]);
      PutAllDomain(s, ids, recs);
      forall id | id in ids
        ensures exists i :: 0 <= i < |ids| && ids[i] == id && PutAll(s, ids, recs).recs[id] == recs[i]
      {
        if id in ids[1..] {
          var i :| 0 <= i < |ids| - 1 && ids[1..][i] == id && PutAll(s1, ids[1..], recs[1..]).recs[id] == recs[1..][i];
          assert ids[i + 1] == id && recs[i + 1] == recs[1..][i];
        } else {
          PutAllUntouched(s1, ids[1..], recs[1..]);
          assert ids[0] == id && id in s1.recs;
        }
      }
    }
  }

  /** Upserting two batches one after the other is upserting their concatenation. */
  lemma {:induction false} PutAllConcat(s: Store, a: seq<string>, ra: seq<Record>, b: seq<string>, rb: seq<Record>)
    requires s.Valid() && |a| == |ra| && |b| == |rb|
    ensures PutAll(PutAll(s, a, ra), b, rb) == PutAll(s, a + b, ra + rb)
    decreases |a|
  {
    if a == [] {
      assert a + b == b && ra + rb == rb;
    } else {
      var s1 := Put(s, a[0], ra[0]);
      PutAllConcat(s1, a[1..], ra[1..], b, rb);
      ConsTail(a, b);
      ConsTail(ra, rb);
    }
  }

  lemma ConsTail<T>(a: seq<T>, b: seq<T>)
    requires a != []
    ensures (a + b)[0] == a[0] && (a + b)[1..] == a[1..] + b
  {
  }

  /** A batch upsert stores only ids of the batch and leaves every other record alone. */
  lemma {:induction false} PutAllFrame(s: Store, a: seq<string>, ra: seq<Record>)
    requires s.Valid() && |a| == |ra|
    ensures forall id :: id in PutAll(s, a, ra).recs ==> id in s.recs || id in a
    ensures forall id :: id in s.recs ==> id in PutAll(s, a, ra).recs
    ensures forall id :: id in s.recs && id !in a ==> PutAll(s, a, ra).recs[id] == s.recs[id]
    decreases |a|
  {
    if a != [] {
      PutAllFrame(Put(s, a[0], ra[0]), a[1..], ra[1..]);
      assert forall id :: id in a <==> id == a[0] || id in a[1..];
    }
  }

  /** A batch of new, distinct ids is appended in order, each id holding its own record. */
  lemma PutAllFresh(s: Store, ids: seq<string>, recs: seq<Record>)
    requires s.Valid() && |ids| == |recs| && Distinct(ids)
    requires forall k :: 0 <= k < |ids| ==> ids[k] !in s.recs
    ensures PutAll(s, ids, recs).ids == s.ids + ids
    ensures forall k :: 0 <= k < |ids| ==> ids[k] in PutAll(s, ids, recs).recs && PutAll(s, ids, recs).recs[ids[k]] == recs[k]
  {
    PutAllFreshIds(s, ids, recs);
    PutAllEffect(s, ids, recs);
    assert forall k :: 0 <= k < |ids| ==> ids[k] !in ids[k + 1..];
  }

  lemma {:induction false} PutAllFreshIds(s: Store, ids: seq<string>, recs: seq<Record>)
    requires s.Valid() && |ids| == |recs| && Distinct(ids)
    requires forall k :: 0 <= k < |ids| ==> ids[k] !in s.recs
    ensures PutAll(s, ids, recs).ids == s.ids + ids
    decreases |ids|
  {
    if ids != [] {
      var s1 := Put(s, ids[0], recs[0]);
      var rest := ids[1..];
      assert Distinct(rest);
      assert forall k :: 0 <= k < |rest| ==> rest[k] !in s1.recs by {
        assert forall k :: 0 <= k < |rest| ==> rest[k] == ids[k + 1];
      }
      PutAllFreshIds(s1, rest, recs[1..]);
      SnocCons(s.ids, ids);
    }
  }

  lemma SnocCons<T>(a: seq<T>, b: seq<T>)
    requires b != []
    ensures a + b == (a + [b[0]]) + b[1..]
  {
  }

  /** When every stored record matches the filter, `get(where=...)` lists them all. */
  lemma {:induction false} SelectAll(ids: seq<string>, recs: map<string, Record>, where: Meta)
    requires forall i :: 0 <= i < |ids| ==> ids[i] in recs && Matches(recs[ids[i]].meta, where)
    ensures SelectIn(ids, recs, where) == ids
    decreases |ids|
  {
    if ids != [] {
      SelectAll(ids[..|ids| - 1], recs, where);
    }
  }

  /** A collection object: the two fields the upsert and delete calls change. */
  class Collection {
    var ids: seq<string>
    var recs: map<string, Record>

    function Contents(): Store
      reads this
    {
      Store(ids, recs)
    }

    constructor ()
      ensures Contents() == Empty
    {
      ids := [];
      recs := map[];
    }

    /** `get(where=...)`: the matching ids in insertion order. */
    method GetWhere(where: Meta) returns (found: seq<string>)
      requires Contents().Valid()
      ensures found == Selected(Contents(), where)
    {
      found := Selected(Contents(), where);
    }

    /** `get(ids=...)["ids"]`: the requested ids the collection holds. */
    method GetIds(wanted: seq<string>) returns (found: set<string>)
      ensures found == Existing(Contents(), wanted)
    {
      found := Existing(Contents(), wanted);
    }

    method Upsert(newIds: seq<string>, newRecs: seq<Record>)
      requires Contents().Valid() && |newIds| == |newRecs|
      modifies this
      ensures Contents() == PutAll(old(Contents()), newIds, newRecs)
    {
      var s := PutAll(Contents(), newIds, newRecs);
      ids, recs := s.ids, s.recs;
    }

    method DeleteMatching(where: Meta)
      requires Contents().Valid()
      modifies this
      ensures Contents() == DeleteWhere(old(Contents()), where)
    {
      var s := DeleteWhere(Contents(), where);
      ids, recs := s.ids, s.recs;
    }

    method DeleteIdSet(del: set<string>)
      requires Contents().Valid()
      modifies this
      ensures Contents() == DeleteIds(old(Contents()), del)
    {
      var s := DeleteIds(Contents(), del);
      ids, recs := s.ids, s.recs;
    }
  }
}
