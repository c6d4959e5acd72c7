/** The entries of a stream and the ways of reading them. */
module StreamEntries {
  import opened Bytes
  import opened StreamIds

  datatype Entry = Entry(id: StreamId, fields: seq<(bytes, bytes)>)

  ghost predicate Rises(ids: seq<StreamId>, i: int, j: int) {
    0 <= i < j < |ids| ==> Before(ids[i], ids[j])
  }

  ghost predicate Ascending(ids: seq<StreamId>) {
    forall i, j {:trigger Rises(ids, i, j)} :: Rises(ids, i, j)
  }

  lemma SliceAscends(ids: seq<StreamId>, lo: nat, hi: nat)
    requires Ascending(ids) && lo <= hi <= |ids|
    ensures Ascending(ids[lo..hi])
  {
    forall i, j ensures Rises(ids[lo..hi], i, j) { assert Rises(ids, lo + i, lo + j); }
  }

  function Ids(entries: seq<Entry>): (r: seq<StreamId>)
    ensures |r| == |entries| && forall i | 0 <= i < |r| :: r[i] == entries[i].id
  {
    seq(|entries|, i requires 0 <= i < |entries| => entries[i].id)
  }

  /** At most count of them; a count that is not positive sets no limit. */
  function Limit<T>(xs: seq<T>, count: int): seq<T> {
    if 0 < count < |xs| then xs[..count] else xs
  }

  /** Everything from the first entry above the cursor on. */
  function Undelivered(entries: seq<Entry>, cursor: Bound): seq<Entry> {
    if entries == [] then []
    else if Compare(entries[0].id, cursor) > 0 then entries
    else Undelivered(entries[1..], cursor)
  }

  lemma {:induction false} UndeliveredFrom(entries: seq<Entry>, cursor: Bound, k: nat)
    requires k <= |entries|
    requires forall j | 0 <= j < k :: Compare(entries[j].id, cursor) <= 0
    requires k < |entries| ==> Compare(entries[k].id, cursor) > 0
    ensures Undelivered(entries, cursor) == entries[k..]
  {
    if k > 0 {
      UndeliveredFrom(entries[1..], cursor, k - 1);
      assert entries[1..][k - 1..] == entries[k..];
    } else {
      assert entries[0..] == entries;
    }
  }

  /** The entries above the cursor. */
  function Above(entries: seq<Entry>, cursor: Bound): seq<Entry> {
    if entries == [] then []
    else (if Compare(entries[0].id, cursor) > 0 then [entries[0]] else []) + Above(entries[1..], cursor)
  }

  lemma {:induction false} AllAbove(entries: seq<Entry>, cursor: Bound)
    ensures |Above(entries, cursor)| <= |entries|
    ensures Above(entries, cursor) == entries <==> forall i | 0 <= i < |entries| :: Compare(entries[i].id, cursor) > 0
  {
    if entries != [] {
      var rest := entries[1..];
      AllAbove(rest, cursor);
      assert entries == [entries[0]] + rest;
      assert forall i | 0 <= i < |rest| :: rest[i] == entries[i + 1];
      if Compare(entries[0].id, cursor) > 0 {
        assert Above(entries, cursor)[1..] == Above(rest, cursor);
      } else {
        assert [] + Above(rest, cursor) == Above(rest, cursor);
      }
    }
  }

  /** What is undelivered is what lies above the cursor, exactly when nothing behind its first entry is at or
   below it. */
  lemma {:induction false} UndeliveredIsAboveIff(entries: seq<Entry>, cursor: Bound)
    ensures var left := Undelivered(entries, cursor);
      left == Above(entries, cursor) <==> forall i | 0 <= i < |left| :: Compare(left[i].id, cursor) > 0
  {
    if entries != [] {
      if Compare(entries[0].id, cursor) > 0 {
        AllAbove(entries, cursor);
      } else {
        UndeliveredIsAboveIff(entries[1..], cursor);
        assert [] + Above(entries[1..], cursor) == Above(entries[1..], cursor);
      }
    }
  }

  lemma {:induction false} UndeliveredIsRest(entries: seq<Entry>, cursor: Bound) returns (k: nat)
    ensures k <= |entries| && Undelivered(entries, cursor) == entries[k..]
    ensures k < |entries| ==> Compare(entries[k].id, cursor) > 0
  {
    k := 0;
    if entries != [] && Compare(entries[0].id, cursor) <= 0 {
      k := UndeliveredIsRest(entries[1..], cursor);
      assert entries[1..][k..] == entries[k + 1..];
      k := k + 1;
    } else {
      assert entries[0..] == entries;
    }
  }

  /** Against a bound that separates, the undelivered entries are simply those above it. */
  lemma UndeliveredIsAbove(entries: seq<Entry>, cursor: Bound)
    requires Ascending(Ids(entries)) && Separates(cursor)
    ensures Undelivered(entries, cursor) == Above(entries, cursor)
  {
    var k := UndeliveredIsRest(entries, cursor);
    forall i | k <= i < |entries| ensures Compare(entries[i].id, cursor) > 0 {
      if k < i { assert Rises(Ids(entries), k, i); }
    }
    UndeliveredIsAboveIff(entries, cursor);
  }

  // ---------------------------------------------------------------------------
  // Ascending sequences are determined by their elements.
  // ---------------------------------------------------------------------------

  lemma {:induction false} AscendingIsUnique(a: seq<StreamId>, b: seq<StreamId>)
    requires Ascending(a) && Ascending(b) && forall x :: x in a <==> x in b
    ensures a == b
  {
    if |a| > 0 { assert a[0] in b; }
    if |b| > 0 { assert b[0] in a; }
    if |a| > 0 {
      FirstIsLeast(a, b[0]);
      FirstIsLeast(b, a[0]);
      SliceAscends(a, 1, |a|);
      SliceAscends(b, 1, |b|);
      assert a[1..|a|] == a[1..] && b[1..|b|] == b[1..];
      forall x ensures x in a[1..] <==> x in b[1..] {
        TailElements(a, x);
        TailElements(b, x);
      }
      AscendingIsUnique(a[1..], b[1..]);
      assert a == [a[0]] + a[1..] && b == [b[0]] + b[1..];
    }
  }

  lemma FirstIsLeast(a: seq<StreamId>, x: StreamId)
    requires Ascending(a) && x in a
    ensures x == a[0] || Before(a[0], x)
  {
    var i :| 0 <= i < |a| && a[i] == x;
    assert Rises(a, 0, i);
  }

  lemma TailElements(a: seq<StreamId>, x: StreamId)
    requires Ascending(a) && a != []
    ensures x in a[1..] <==> x in a && x != a[0]
    ensures x in a[1..] ==> Before(a[0], x)
  {
    assert a == [a[0]] + a[1..];
    if x in a[1..] {
      var i :| 0 <= i < |a[1..]| && a[1..][i] == x;
      assert Rises(a, 0, i + 1);
    }
  }

  lemma {:induction false} AppendAscends(a: seq<StreamId>, b: seq<StreamId>)
    requires Ascending(a) && Ascending(b) && (a != [] && b != [] ==> Before(a[|a| - 1], b[0]))
    ensures Ascending(a + b)
  {
    forall i, j ensures Rises(a + b, i, j) {
      assert Rises(a, i, j) && Rises(b, i - |a|, j - |a|);
      assert Rises(a, i, |a| - 1) && Rises(b, 0, j - |a|);
    }
  }

  /** x put in its place. */
  function Insert(a: seq<StreamId>, x: StreamId): seq<StreamId> {
    if a == [] || Before(x, a[0]) then [x] + a else [a[0]] + Insert(a[1..], x)
  }

  lemma {:induction false} InsertAscends(a: seq<StreamId>, x: StreamId)
    requires Ascending(a) && x !in a
    ensures Ascending(Insert(a, x)) && forall y :: y in Insert(a, x) <==> y in a || y == x
  {
    if a == [] || Before(x, a[0]) {
      AppendAscends([x], a);
    } else {
      SliceAscends(a, 1, |a|);
      assert a[1..|a|] == a[1..];
      InsertAscends(a[1..], x);
      var rest := Insert(a[1..], x);
      if rest[0] != x { TailElements(a, rest[0]); }
      AppendAscends([a[0]], rest);
      assert a == [a[0]] + a[1..];
    }
  }

  /** `sort.Slice` of IDs taken from a map in any order. */
  method SortIds(ids: set<StreamId>) returns (r: seq<StreamId>)
    ensures Ascending(r) && forall x :: x in r <==> x in ids
  {
    r := [];
    var rest := ids;
    while rest != {}
      invariant rest <= ids && Ascending(r) && forall x :: x in r <==> x in ids && x !in rest
      decreases |rest|
    {
      var x :| x in rest;
      InsertAscends(r, x);
      r := Insert(r, x);
      rest := rest - {x};
    }
  }

  // ---------------------------------------------------------------------------
  // Looking IDs up in order is filtering the stream.
  // ---------------------------------------------------------------------------

  /** The entries with these IDs, in stream order. */
  function Those(entries: seq<Entry>, ids: set<StreamId>): (r: seq<Entry>) {
    if entries == [] then []
    else (if entries[0].id in ids then [entries[0]] else []) + Those(entries[1..], ids)
  }

  /** The entries that the IDs name, in the order of the IDs; IDs that name none are passed over. */
  function Lookups(ids: seq<StreamId>, index: map<StreamId, Entry>): (r: seq<Entry>)
    ensures forall e | e in r :: exists id :: id in ids && id in index && index[id] == e
  {
    if ids == [] then []
    else Lookups(ids[..|ids| - 1], index) + (if ids[|ids| - 1] in index then [index[ids[|ids| - 1]]] else [])
  }

  ghost predicate Indexes(index: map<StreamId, Entry>, entries: seq<Entry>) {
    && (forall e | e in entries :: e.id in index && index[e.id] == e)
    && forall id | id in index :: index[id].id == id && index[id] in entries
  }

  lemma DistinctIds(entries: seq<Entry>, i: nat, j: nat)
    requires Ascending(Ids(entries)) && i < j < |entries|
    ensures entries[i].id != entries[j].id
  {
    assert Rises(Ids(entries), i, j);
  }

  lemma IdsIdentify(entries: seq<Entry>, d: Entry, e: Entry)
    requires Ascending(Ids(entries)) && d in entries && e in entries && d.id == e.id
    ensures d == e
  {
    var i :| 0 <= i < |entries| && entries[i] == d;
    var j :| 0 <= j < |entries| && entries[j] == e;
    assert Rises(Ids(entries), i, j) && Rises(Ids(entries), j, i);
  }

  method IndexEntries(entries: seq<Entry>) returns (index: map<StreamId, Entry>)
    requires Ascending(Ids(entries))
    ensures Indexes(index, entries)
  {
    index := map[];
    for i := 0 to |entries|
      invariant Indexes(index, entries[..i])
    {
      forall j | 0 <= j < i ensures entries[j].id != entries[i].id { DistinctIds(entries, j, i); }
      assert entries[..i + 1] == entries[..i] + [entries[i]];
      index := index[entries[i].id := entries[i]];
    }
    assert entries[..|entries|] == entries;
  }

  lemma TailAscends(entries: seq<Entry>)
    requires Ascending(Ids(entries)) && entries != []
    ensures Ascending(Ids(entries[1..]))
  {
    SliceAscends(Ids(entries), 1, |entries|);
    assert Ids(entries[1..]) == Ids(entries)[1..|entries|];
  }

  lemma {:induction false} ThoseMembers(entries: seq<Entry>, ids: set<StreamId>, e: Entry)
    ensures e in Those(entries, ids) <==> e in entries && e.id in ids
  {
    if entries != [] {
      ThoseMembers(entries[1..], ids, e);
      assert e in entries <==> e == entries[0] || e in entries[1..];
    }
  }

  lemma {:induction false} ThoseAscend(entries: seq<Entry>, ids: set<StreamId>)
    requires Ascending(Ids(entries))
    ensures Ascending(Ids(Those(entries, ids)))
  {
    if entries != [] {
      TailAscends(entries);
      ThoseAscend(entries[1..], ids);
      var rest := Those(entries[1..], ids);
      if entries[0].id in ids {
        if rest != [] { FirstOfThose(entries, ids); }
        AppendAscends([entries[0].id], Ids(rest));
        assert Ids([entries[0]] + rest) == [entries[0].id] + Ids(rest);
      } else {
        assert [] + rest == rest;
      }
    }
  }

  lemma FirstOfThose(entries: seq<Entry>, ids: set<StreamId>)
    requires Ascending(Ids(entries)) && entries != [] && Those(entries[1..], ids) != []
    ensures Before(entries[0].id, Those(entries[1..], ids)[0].id)
  {
    var e := Those(entries[1..], ids)[0];
    assert e in Those(entries[1..], ids);
    ThoseMembers(entries[1..], ids, e);
    var j :| 0 <= j < |entries[1..]| && entries[1..][j] == e;
    assert Rises(Ids(entries), 0, j + 1);
  }

  lemma {:induction false} LookupsMembers(ids: seq<StreamId>, index: map<StreamId, Entry>, entries: seq<Entry>,
                                          e: Entry)
    requires Indexes(index, entries)
    ensures e in Lookups(ids, index) <==> e in entries && e.id in ids
  {
    if ids != [] {
      var front, last := ids[..|ids| - 1], ids[|ids| - 1];
      LookupsMembers(front, index, entries, e);
      assert ids == front + [last];
    }
  }

  lemma {:induction false} LookupsAscend(ids: seq<StreamId>, index: map<StreamId, Entry>, entries: seq<Entry>)
    requires Ascending(ids) && Indexes(index, entries)
    ensures Ascending(Ids(Lookups(ids, index)))
  {
    if ids != [] {
      var front, last := ids[..|ids| - 1], ids[|ids| - 1];
      SliceAscends(ids, 0, |ids| - 1);
      assert ids[0..|ids| - 1] == front;
      LookupsAscend(front, index, entries);
      var found := Lookups(front, index);
      if last in index {
        if found != [] { LookupBeforeLast(ids, index, entries, found[|found| - 1]); }
        assert Ids(found + [index[last]]) == Ids(found) + [last];
        AppendAscends(Ids(found), [last]);
      } else {
        assert found + [] == found;
      }
    }
  }

  lemma LookupBeforeLast(ids: seq<StreamId>, index: map<StreamId, Entry>, entries: seq<Entry>, e: Entry)
    requires Ascending(ids) && ids != [] && Indexes(index, entries) && e in Lookups(ids[..|ids| - 1], index)
    ensures Before(e.id, ids[|ids| - 1])
  {
    var front := ids[..|ids| - 1];
    LookupsMembers(front, index, entries, e);
    var j :| 0 <= j < |front| && front[j] == e.id;
    assert Rises(ids, j, |ids| - 1);
  }

  lemma LookupsAreThose(ids: seq<StreamId>, wanted: set<StreamId>, index: map<StreamId, Entry>, entries: seq<Entry>)
    requires Ascending(ids) && (forall id :: id in ids <==> id in wanted) && Indexes(index, entries)
    requires Ascending(Ids(entries))
    ensures Lookups(ids, index) == Those(entries, wanted)
  {
    var a, b := Lookups(ids, index), Those(entries, wanted);
    LookupsAscend(ids, index, entries);
    ThoseAscend(entries, wanted);
    forall e ensures (e in a <==> e in b) && (e in a ==> e in entries) {
      LookupsMembers(ids, index, entries, e);
      ThoseMembers(entries, wanted, e);
    }
    SameElements(a, b, entries);
  }

  /** Two ascending selections of the same entries are equal. */
  lemma SameElements(a: seq<Entry>, b: seq<Entry>, entries: seq<Entry>)
    requires Ascending(Ids(entries)) && Ascending(Ids(a)) && Ascending(Ids(b))
    requires (forall e :: e in a <==> e in b) && forall e | e in a :: e in entries
    ensures a == b
  {
    forall x ensures x in Ids(a) <==> x in Ids(b) {
      if x in Ids(a) {
        var i :| 0 <= i < |a| && Ids(a)[i] == x;
        assert a[i] in b;
        var j :| 0 <= j < |b| && b[j] == a[i];
        assert Ids(b)[j] == x;
      }
      if x in Ids(b) {
        var i :| 0 <= i < |b| && Ids(b)[i] == x;
        assert b[i] in a;
        var j :| 0 <= j < |a| && a[j] == b[i];
        assert Ids(a)[j] == x;
      }
    }
    AscendingIsUnique(Ids(a), Ids(b));
    forall i | 0 <= i < |a| ensures a[i] == b[i] {
      assert a[i] in a && b[i] in b && Ids(a)[i] == Ids(b)[i];
      IdsIdentify(entries, a[i], b[i]);
    }
  }
}

