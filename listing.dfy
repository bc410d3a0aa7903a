/** The `.sort({ createdAt: -1 })` of the listing queries, stated as a property
    of the result rather than computed by a sorting routine. A listing is a
    sequence of record ids; `stamp` maps each id to its record's `createdAt`. */
module Listing {
  import opened Common

  /** `ids` holds distinct ids of `stamp`, newest (largest createdAt) first. */
  ghost predicate NewestFirst(ids: seq<Id>, stamp: map<Id, nat>)
  {
    && (forall i :: 0 <= i < |ids| ==> ids[i] in stamp)
    && (forall i, j :: 0 <= i < j < |ids| ==> ids[i] != ids[j] && stamp[ids[j]] <= stamp[ids[i]])
  }

  /** `ids` lists exactly the set `s`, each id once, newest first. */
  ghost predicate Lists(ids: seq<Id>, s: set<Id>, stamp: map<Id, nat>)
  {
    NewestFirst(ids, stamp) && (forall x :: x in ids <==> x in s)
  }

  /** Every non-empty finite set of stamped ids has a newest member. */
  lemma {:induction false} NewestMember(s: set<Id>, stamp: map<Id, nat>) returns (x: Id)
    requires s != {} && s <= stamp.Keys
    ensures x in s && forall y :: y in s ==> stamp[y] <= stamp[x]
    decreases |s|
  {
    var y :| y in s;
    if s == {y} {
      x := y;
    } else {
      var z := NewestMember(s - {y}, stamp);
      x := if stamp[y] <= stamp[z] then z else y;
    }
  }

  /** Every finite set of stamped ids can be listed newest first. */
  lemma {:induction false} ListingExists(s: set<Id>, stamp: map<Id, nat>)
    requires s <= stamp.Keys
    ensures exists ids :: Lists(ids, s, stamp)
    decreases |s|
  {
    if s == {} {
      assert Lists([], s, stamp);
    } else {
      var x := NewestMember(s, stamp);
      ListingExists(s - {x}, stamp);
      var rest :| Lists(rest, s - {x}, stamp);
      var ids := [x] + rest;
      forall i, j | 0 <= i < j < |ids|
        ensures ids[i] != ids[j] && stamp[ids[j]] <= stamp[ids[i]]
      {
        if i == 0 {
          assert ids[j] == rest[j - 1] && ids[j] in s - {x};
        } else {
          assert ids[i] == rest[i - 1] && ids[j] == rest[j - 1];
        }
      }
      assert forall y :: y in ids <==> y == x || y in rest;
      assert Lists(ids, s, stamp);
    }
  }

  /** Each record's `createdAt`, the key the listings sort on. */
  function StampsOf<R>(records: map<Id, R>, createdAt: R -> nat): (stamp: map<Id, nat>)
    ensures stamp.Keys == records.Keys
    ensures forall id :: id in records ==> stamp[id] == createdAt(records[id])
  {
    map id | id in records :: createdAt(records[id])
  }

  /** A newest-first arrangement of `s`, as the database returns it. Records
      with equal stamps may come in either order. */
  ghost function NewestFirstListing(s: set<Id>, stamp: map<Id, nat>): (ids: seq<Id>)
    requires s <= stamp.Keys
    ensures NewestFirst(ids, stamp)
    ensures forall x :: x in ids <==> x in s
    ensures |ids| == |s|
  {
    ListingExists(s, stamp);
    var ids :| Lists(ids, s, stamp);
    DistinctCardinality(ids, s);
    ids
  }

  /** A duplicate-free listing of a set is as long as the set is large. */
  lemma {:induction false} DistinctCardinality(ids: seq<Id>, s: set<Id>)
    requires forall i, j :: 0 <= i < j < |ids| ==> ids[i] != ids[j]
    requires forall x :: x in ids <==> x in s
    ensures |ids| == |s|
    decreases |ids|
  {
    if ids != [] {
      var rest := ids[1..];
      forall x ensures x in rest <==> x in s - {ids[0]} {
        if x in rest {
          var k :| 0 <= k < |rest| && rest[k] == x;
          assert ids[k + 1] == x;
        }
        if x in s - {ids[0]} {
          var k :| 0 <= k < |ids| && ids[k] == x;
          assert k != 0 && rest[k - 1] == x;
        }
      }
      forall i, j | 0 <= i < j < |rest| ensures rest[i] != rest[j] {
        assert rest[i] == ids[i + 1] && rest[j] == ids[j + 1];
      }
      DistinctCardinality(rest, s - {ids[0]});
    }
  }
}
