/** The `/search` endpoint: a case-insensitive substring filter over the
    catalog, keeping catalog order. */
module TrackSearch {
  import opened Wrappers
  import opened Text
  import opened CatalogStore

  /** `track.get(field, "")`: a present field reads as its value, a missing
      field as the empty string. */
  function Field(f: Option<string>): (r: string)
    ensures f == Some(r) || (f == None && r == "")
  {
    f.GetOr("")
  }

  /** The comprehension's condition, for an already lower-cased query `ql`:
      `ql` occurs in the lower-cased title, artist or album. */
  predicate Matches(t: Track, ql: string)
    ensures Matches(t, ql) <==>
      || Contains(ql, Lower(Field(t.title)))
      || Contains(ql, Lower(Field(t.artist)))
      || Contains(ql, Lower(Field(t.album)))
  {
    || In(ql, Lower(Field(t.title)))
    || In(ql, Lower(Field(t.artist)))
    || In(ql, Lower(Field(t.album)))
  }

  /** What a match means for the query `q` as the caller typed it: its lower-case
      form occurs in the lower-cased title, artist or album. */
  ghost predicate IsHit(t: Track, q: string)
  {
    || Contains(Lower(q), Lower(Field(t.title)))
    || Contains(Lower(q), Lower(Field(t.artist)))
    || Contains(Lower(q), Lower(Field(t.album)))
  }

  /** The list comprehension over `db[i..]`: the matching tracks, in order.
      It is never longer than the part of the catalog it scans;
      FilterFromSelects says exactly which tracks it keeps. */
  function FilterFrom(db: seq<Track>, ql: string, i: nat): (r: seq<Track>)
    ensures |r| <= if i <= |db| then |db| - i else 0
    decreases |db| - i
  {
    if i >= |db| then []
    else (if Matches(db[i], ql) then [db[i]] else []) + FilterFrom(db, ql, i + 1)
  }

  /** `search(q)`: lower-case the query once, then keep every matching track.
      The result is no longer than the catalog, and every track in it is a
      catalog track that hits `q` (soundness). */
  function Search(db: seq<Track>, q: string): (r: seq<Track>)
    ensures |r| <= |db|
    ensures forall t :: t in r ==> t in db && IsHit(t, q)
  {
    FilterFromSelects(db, Lower(q), 0);
    FilterFrom(db, Lower(q), 0)
  }

  /** The positions in `db[i..]` that the filter keeps, in increasing order. */
  ghost function KeptFrom(db: seq<Track>, ql: string, i: nat): seq<nat>
    decreases |db| - i
  {
    if i >= |db| then []
    else (if Matches(db[i], ql) then [i] else []) + KeptFrom(db, ql, i + 1)
  }

  /** Every kept position lies in `[i, |db|)`. */
  lemma {:induction false} KeptFromInRange(db: seq<Track>, ql: string, i: nat)
    ensures forall k :: 0 <= k < |KeptFrom(db, ql, i)| ==> i <= KeptFrom(db, ql, i)[k] < |db|
    decreases |db| - i
  {
    if i < |db| {
      KeptFromInRange(db, ql, i + 1);
    }
  }

  /** The kept positions increase strictly, so none is kept twice. */
  lemma {:induction false} KeptFromIncreasing(db: seq<Track>, ql: string, i: nat)
    ensures forall k, l :: 0 <= k < l < |KeptFrom(db, ql, i)| ==> KeptFrom(db, ql, i)[k] < KeptFrom(db, ql, i)[l]
    decreases |db| - i
  {
    if i < |db| {
      KeptFromIncreasing(db, ql, i + 1);
      KeptFromInRange(db, ql, i + 1);
    }
  }

  /** A position is kept exactly when its track meets the condition. */
  lemma {:induction false} KeptFromExact(db: seq<Track>, ql: string, i: nat)
    ensures forall j :: j in KeptFrom(db, ql, i) <==> i <= j < |db| && Matches(db[j], ql)
    decreases |db| - i
  {
    if i < |db| {
      KeptFromExact(db, ql, i + 1);
    }
  }

  /** The filter's output is `db` read at the kept positions. */
  lemma {:induction false} FilterFromAtKept(db: seq<Track>, ql: string, i: nat)
    ensures |FilterFrom(db, ql, i)| == |KeptFrom(db, ql, i)|
    ensures forall k :: 0 <= k < |KeptFrom(db, ql, i)| ==>
      KeptFrom(db, ql, i)[k] < |db| && FilterFrom(db, ql, i)[k] == db[KeptFrom(db, ql, i)[k]]
    decreases |db| - i
  {
    KeptFromInRange(db, ql, i);
    if i < |db| {
      FilterFromAtKept(db, ql, i + 1);
      var rest, kept := FilterFrom(db, ql, i + 1), KeptFrom(db, ql, i + 1);
      if Matches(db[i], ql) {
        assert FilterFrom(db, ql, i) == [db[i]] + rest;
        assert KeptFrom(db, ql, i) == [i] + kept;
      } else {
        assert FilterFrom(db, ql, i) == rest;
        assert KeptFrom(db, ql, i) == kept;
      }
    }
  }

  /** The filter's output is `db` read at the kept positions; those positions
      increase strictly and are exactly the matching positions from `i` on. */
  lemma FilterFromSelects(db: seq<Track>, ql: string, i: nat)
    ensures |FilterFrom(db, ql, i)| == |KeptFrom(db, ql, i)|
    ensures forall k :: 0 <= k < |KeptFrom(db, ql, i)| ==>
      i <= KeptFrom(db, ql, i)[k] < |db| && FilterFrom(db, ql, i)[k] == db[KeptFrom(db, ql, i)[k]]
    ensures forall k, l :: 0 <= k < l < |KeptFrom(db, ql, i)| ==> KeptFrom(db, ql, i)[k] < KeptFrom(db, ql, i)[l]
    ensures forall j :: j in KeptFrom(db, ql, i) <==> i <= j < |db| && Matches(db[j], ql)
  {
    KeptFromInRange(db, ql, i);
    KeptFromIncreasing(db, ql, i);
    KeptFromExact(db, ql, i);
    FilterFromAtKept(db, ql, i);
  }

  /** Search returns a subsequence of the catalog: the tracks at strictly
      increasing positions, each position at most once, and those positions
      are exactly the positions of the tracks that hit the query. */
  lemma SearchIsOrderedSelection(db: seq<Track>, q: string)
    ensures |Search(db, q)| == |KeptFrom(db, Lower(q), 0)|
    ensures forall k :: 0 <= k < |Search(db, q)| ==>
      KeptFrom(db, Lower(q), 0)[k] < |db| && Search(db, q)[k] == db[KeptFrom(db, Lower(q), 0)[k]]
    ensures forall k, l :: 0 <= k < l < |Search(db, q)| ==> KeptFrom(db, Lower(q), 0)[k] < KeptFrom(db, Lower(q), 0)[l]
    ensures forall j :: j in KeptFrom(db, Lower(q), 0) <==> 0 <= j < |db| && IsHit(db[j], q)
  {
    FilterFromSelects(db, Lower(q), 0);
  }

  /** Completeness: every catalog track that hits the query is returned. */
  lemma SearchComplete(db: seq<Track>, q: string)
    ensures forall j :: 0 <= j < |db| && IsHit(db[j], q) ==> db[j] in Search(db, q)
  {
    SearchIsOrderedSelection(db, q);
    var kept := KeptFrom(db, Lower(q), 0);
    forall j | 0 <= j < |db| && IsHit(db[j], q)
      ensures db[j] in Search(db, q)
    {
      assert j in kept;
      var k :| 0 <= k < |kept| && kept[k] == j;
      assert Search(db, q)[k] == db[j];
    }
  }

  /** The query's case does not matter: searching for `q` or for its
      lower-case form gives the same list, and so does any query with the
      same lower-case form. */
  lemma SearchIgnoresCase(db: seq<Track>, q: string, q': string)
    ensures Search(db, Lower(q)) == Search(db, q)
    ensures Lower(q) == Lower(q') ==> Search(db, q) == Search(db, q')
  {
    LowerIdempotent(q);
  }

  /** The filter keeps everything from `i` on when the query is empty. */
  lemma {:induction false} FilterFromEmptyQuery(db: seq<Track>, i: nat)
    requires i <= |db|
    ensures FilterFrom(db, "", i) == db[i..]
    decreases |db| - i
  {
    if i < |db| {
      EmptyIsInEverything(Lower(Field(db[i].title)));
      FilterFromEmptyQuery(db, i + 1);
      assert db[i..] == [db[i]] + db[i + 1..];
    }
  }

  /** The empty query returns the whole catalog unchanged, since "" occurs in
      every string, the "" read for a missing field included. */
  lemma SearchEmptyQuery(db: seq<Track>)
    ensures Search(db, "") == db
  {
    assert Lower("") == "";
    FilterFromEmptyQuery(db, 0);
  }
}
