/** Streams: adding, ranges, removal, and the consumer groups on top. */
module Streams {
  import opened Bytes
  import opened Decimal
  import opened StreamIds
  import opened StreamEntries
  import opened ConsumerGroups

  // ---------------------------------------------------------------------------
  // The ID of the next entry.
  // ---------------------------------------------------------------------------

  const NEW: bytes := [62]

  datatype NextResult = Next(id: StreamId) | BadFormat | TooSmall

  function Increment(n: uint64): uint64 { if n == TWO_64 - 1 then 0 else n + 1 }

  /** Which of the three forms of ID an XADD has. */
  datatype Requested = Auto | AutoSeq(millis: uint64) | Explicit(id: StreamId) | Malformed

  function Request(text: bytes): Requested {
    if text == [STAR] then Auto
    else if |text| >= 2 && text[|text| - 2..] == [MINUS, STAR] then
      match ParseUint(text[..|text| - 2])
      case None => Malformed
      case Some(m) => AutoSeq(m)
    else
      match ParseStreamID(text)
      case None => Malformed
      case Some(id) => Explicit(id)
  }

  /** The three forms, as a client writes them. */
  lemma RequestForms(id: StreamId)
    ensures Request([STAR]) == Auto && Request(Print(id.millis) + [MINUS, STAR]) == AutoSeq(id.millis)
    ensures Request(Text(id)) == Explicit(id)
  {
    var m, t := Print(id.millis), Print(id.millis) + [MINUS, STAR];
    assert t[|t| - 2..] == [MINUS, STAR] && t[..|t| - 2] == m && t[0] == m[0] && IsDigit(m[0]);
    ParsePrint(id.millis);
    ParseText(id);
    var n := Print(id.seqNo);
    assert Text(id)[|Text(id)| - 1] == n[|n| - 1] && IsDigit(n[|n| - 1]);
    assert Text(id)[0] == m[0];
  }

  function NextId(r: Requested, last: StreamId, empty: bool, now: uint64): NextResult {
    match r
    case Malformed => BadFormat
    case Auto => Next(if now > last.millis then StreamId(now, 0) else StreamId(last.millis, Increment(last.seqNo)))
    case AutoSeq(m) =>
      if m < last.millis then TooSmall
      else Next(if m == last.millis then StreamId(m, Increment(last.seqNo)) else StreamId(m, 0))
    case Explicit(id) => if !empty && !Before(last, id) then TooSmall else Next(id)
  }

  /** The sequence number wraps around. */
  predicate Overflows(r: Requested, last: StreamId, now: uint64) {
    last.seqNo == TWO_64 - 1 && ((r.Auto? && now <= last.millis) || (r.AutoSeq? && r.millis == last.millis))
  }

  /** An explicit ID on an empty stream is not compared with the last one. */
  predicate Restarts(r: Requested, last: StreamId, empty: bool) {
    r.Explicit? && empty && !Before(last, r.id)
  }

  /** The last ID rises with every entry added, except in these two cases. */
  lemma LastIdRises(r: Requested, last: StreamId, empty: bool, now: uint64)
    requires NextId(r, last, empty, now).Next?
    ensures Before(last, NextId(r, last, empty, now).id) <==> !Overflows(r, last, now) && !Restarts(r, last, empty)
  {
  }

  /**
   An automatic ID is the least one that is after the last, at the requested millisecond or, for "*", not before the
   clock: sequence number 0 of a new millisecond, and one more in the last one's.
   */
  lemma NextIsLeast(r: Requested, last: StreamId, empty: bool, now: uint64, other: StreamId)
    requires r.Auto? || r.AutoSeq?
    requires NextId(r, last, empty, now).Next? && !Overflows(r, last, now)
    ensures var id := NextId(r, last, empty, now).id;
      && Before(last, id) && (r.Auto? ==> id.millis >= now) && (r.AutoSeq? ==> id.millis == r.millis)
      && (Before(last, other) && (r.Auto? ==> other.millis >= now) && (r.AutoSeq? ==> other.millis == r.millis) ==>
            !Before(other, id))
  {
  }

  /** What is refused: a text that is no ID, and an ID that is not after the last. */
  lemma RefusedIff(r: Requested, last: StreamId, empty: bool, now: uint64)
    ensures NextId(r, last, empty, now).BadFormat? <==> r.Malformed?
    ensures NextId(r, last, empty, now).TooSmall? <==>
      (r.AutoSeq? && r.millis < last.millis) || (r.Explicit? && !empty && !Before(last, r.id))
    ensures r.Explicit? && NextId(r, last, empty, now).Next? ==> NextId(r, last, empty, now).id == r.id
  {
  }

  /** The entries are in order and none is after the last ID. */
  ghost predicate Ordered(entries: seq<Entry>, last: StreamId) {
    Ascending(Ids(entries)) && (entries != [] ==> !Before(last, entries[|entries| - 1].id))
  }

  /** An added entry keeps the order unless the sequence number wraps around below an entry of the same millisecond. */
  lemma AddKeepsOrdered(entries: seq<Entry>, r: Requested, last: StreamId, now: uint64, e: Entry)
    requires Ordered(entries, last) && NextId(r, last, entries == [], now) == Next(e.id)
    ensures Ordered(entries + [e], e.id)
      <==> !(Overflows(r, last, now) && entries != [] && entries[|entries| - 1].id.millis == last.millis)
  {
    assert Ids(entries + [e]) == Ids(entries) + [e.id];
    if entries == [] || Before(entries[|entries| - 1].id, e.id) {
      AppendAscends(Ids(entries), [e.id]);
    } else {
      assert !Rises(Ids(entries + [e]), |entries| - 1, |entries|);
    }
  }

  /** In the last sequence number of a millisecond the next entry goes before the last. */
  lemma SequenceOverflows()
    ensures var last, next := StreamId(5, TWO_64 - 1), StreamId(5, 0);
      && NextId(Auto, last, false, 5) == Next(next)
      && Ordered([Entry(last, [])], last) && !Ordered([Entry(last, []), Entry(next, [])], next)
  {
    var last, next := StreamId(5, TWO_64 - 1), StreamId(5, 0);
    var entries := [Entry(last, [])];
    assert Ids(entries) == [last];
    assert entries + [Entry(next, [])] == [Entry(last, []), Entry(next, [])];
    AddKeepsOrdered(entries, Auto, last, 5, Entry(next, []));
  }

  /** On a stream that was emptied, any ID is accepted. */
  lemma StreamRestarts()
    ensures NextId(Explicit(StreamId(1, 0)), StreamId(5, 0), true, 9) == Next(StreamId(1, 0))
    ensures !Before(StreamId(5, 0), StreamId(1, 0))
  {
    LastIdRises(Explicit(StreamId(1, 0)), StreamId(5, 0), true, 9);
  }

  // ---------------------------------------------------------------------------
  // Ranges.
  // ---------------------------------------------------------------------------

  predicate Within(id: StreamId, lo: Bound, hi: Bound) { Compare(id, lo) >= 0 && Compare(id, hi) <= 0 }

  /** Those of the first n entries that are between the bounds. */
  function Between(entries: seq<Entry>, n: nat, lo: Bound, hi: Bound): seq<Entry>
    requires n <= |entries|
  {
    if n == 0 then []
    else if Within(entries[n - 1].id, lo, hi) then Between(entries, n - 1, lo, hi) + [entries[n - 1]]
    else Between(entries, n - 1, lo, hi)
  }

  /** The first entry from i on that is past the lower bound and beyond the upper, where a forward range gives up. */
  function Stop(entries: seq<Entry>, i: nat, lo: Bound, hi: Bound): (r: nat)
    requires i <= |entries|
    ensures i <= r <= |entries|
    decreases |entries| - i
  {
    if i == |entries| || (Compare(entries[i].id, lo) >= 0 && Compare(entries[i].id, hi) > 0) then i
    else Stop(entries, i + 1, lo, hi)
  }

  /** The range from the back of the first n entries, which gives up at the first that is before the lower bound. */
  function DownTo(entries: seq<Entry>, n: nat, lo: Bound, hi: Bound): seq<Entry>
    requires n <= |entries|
  {
    if n == 0 then []
    else if Compare(entries[n - 1].id, hi) > 0 then DownTo(entries, n - 1, lo, hi)
    else if Compare(entries[n - 1].id, lo) < 0 then []
    else [entries[n - 1]] + DownTo(entries, n - 1, lo, hi)
  }

  function Reversed(s: seq<Entry>): seq<Entry> { if s == [] then [] else Reversed(s[1..]) + [s[0]] }

  lemma {:induction false} ReversedLast(s: seq<Entry>, x: Entry)
    ensures Reversed(s + [x]) == [x] + Reversed(s)
  {
    if s == [] {
      assert s + [x] == [x] && ([x])[1..] == [];
    } else {
      assert (s + [x])[1..] == s[1..] + [x];
      ReversedLast(s[1..], x);
      Associates([x], Reversed(s[1..]), [s[0]]);
    }
  }

  /** Entries that are not between the bounds do not show; any other does. */
  lemma {:induction false} BetweenSame(entries: seq<Entry>, m: nat, n: nat, lo: Bound, hi: Bound)
    requires m <= n <= |entries|
    ensures |Between(entries, m, lo, hi)| <= |Between(entries, n, lo, hi)|
    ensures Between(entries, m, lo, hi) == Between(entries, n, lo, hi)
       <==> forall i | m <= i < n :: !Within(entries[i].id, lo, hi)
    ensures |Between(entries, m, lo, hi)| == |Between(entries, n, lo, hi)| ==>
      Between(entries, m, lo, hi) == Between(entries, n, lo, hi)
  {
    if m < n { BetweenSame(entries, m, n - 1, lo, hi); }
  }

  lemma {:induction false} StopsBeyond(entries: seq<Entry>, i: nat, lo: Bound, hi: Bound)
    requires i <= |entries|
    ensures var r := Stop(entries, i, lo, hi); r < |entries| ==> Compare(entries[r].id, hi) > 0
    decreases |entries| - i
  {
    if Stop(entries, i, lo, hi) != i { StopsBeyond(entries, i + 1, lo, hi); }
  }

  /** Giving up early loses nothing exactly when nothing behind the place where it stops is between the bounds. */
  lemma RangeIsBetweenIff(entries: seq<Entry>, lo: Bound, hi: Bound)
    ensures Between(entries, Stop(entries, 0, lo, hi), lo, hi) == Between(entries, |entries|, lo, hi)
       <==> forall i | Stop(entries, 0, lo, hi) <= i < |entries| :: !Within(entries[i].id, lo, hi)
  {
    BetweenSame(entries, Stop(entries, 0, lo, hi), |entries|, lo, hi);
  }

  /** With an upper bound that separates, it never loses anything. */
  lemma RangeIsBetween(entries: seq<Entry>, lo: Bound, hi: Bound)
    requires Ascending(Ids(entries)) && Separates(hi)
    ensures Between(entries, Stop(entries, 0, lo, hi), lo, hi) == Between(entries, |entries|, lo, hi)
  {
    var stop := Stop(entries, 0, lo, hi);
    StopsBeyond(entries, 0, lo, hi);
    forall i | stop <= i < |entries| ensures Compare(entries[i].id, hi) > 0 {
      if stop < i { assert Rises(Ids(entries), stop, i); }
    }
    RangeIsBetweenIff(entries, lo, hi);
  }

  /** A stream with these two entries. */
  function Pair(a: StreamId, b: StreamId): seq<Entry> { [Entry(a, []), Entry(b, [])] }

  /** The upper bounds with which a forward range never loses anything are exactly those that separate. */
  lemma RangeIsSafeIff(hi: Bound)
    ensures (forall entries: seq<Entry>, lo: Bound | Ascending(Ids(entries)) ::
               Between(entries, Stop(entries, 0, lo, hi), lo, hi) == Between(entries, |entries|, lo, hi))
       <==> Separates(hi)
  {
    if Separates(hi) {
      forall entries: seq<Entry>, lo: Bound | Ascending(Ids(entries))
        ensures Between(entries, Stop(entries, 0, lo, hi), lo, hi) == Between(entries, |entries|, lo, hi)
      {
        RangeIsBetween(entries, lo, hi);
      }
    } else {
      var a: StreamId, b: StreamId :| Compare(a, hi) <= 0 && Compare(b, hi) > 0 && !Before(a, b);
      var entries := Pair(b, a);
      assert Ids(entries) == [b, a] && a != b && Ascending(Ids(entries));
      assert Stop(entries, 0, Lowest, hi) == 0 && Within(entries[1].id, Lowest, hi);
      RangeIsBetweenIff(entries, Lowest, hi);
    }
  }

  /** How many entries a backward range has not looked at when it gives up. */
  function StopDown(entries: seq<Entry>, n: nat, lo: Bound, hi: Bound): (r: nat)
    requires n <= |entries|
    ensures r <= n
  {
    if n == 0 || (Compare(entries[n - 1].id, hi) <= 0 && Compare(entries[n - 1].id, lo) < 0) then n
    else StopDown(entries, n - 1, lo, hi)
  }

  lemma OneMoreDown(rest: seq<Entry>, e: Entry, down: seq<Entry>, back: seq<Entry>)
    requires Reversed(rest) == down + back
    ensures Reversed(rest + [e]) == [e] + down + back
  {
    ReversedLast(rest, e);
    Associates([e], down, back);
  }

  /** Until it gives up, a backward range takes what is between the bounds. */
  lemma {:induction false} DownToStop(entries: seq<Entry>, n: nat, lo: Bound, hi: Bound)
    requires n <= |entries|
    ensures var stop := StopDown(entries, n, lo, hi);
      Reversed(Between(entries, n, lo, hi)) == DownTo(entries, n, lo, hi) + Reversed(Between(entries, stop, lo, hi))
  {
    var stop := StopDown(entries, n, lo, hi);
    if stop < n {
      var e, rest := entries[n - 1], Between(entries, n - 1, lo, hi);
      DownToStop(entries, n - 1, lo, hi);
      if Within(e.id, lo, hi) {
        OneMoreDown(rest, e, DownTo(entries, n - 1, lo, hi), Reversed(Between(entries, stop, lo, hi)));
      }
    } else {
      assert [] + Reversed(Between(entries, n, lo, hi)) == Reversed(Between(entries, n, lo, hi));
    }
  }

  lemma {:induction false} ReversedSize(s: seq<Entry>)
    ensures |Reversed(s)| == |s|
  {
    if s != [] { ReversedSize(s[1..]); }
  }

  /** The backward range is the forward one reversed exactly when nothing before its stop is between the bounds. */
  lemma RevRangeIsReversedIff(entries: seq<Entry>, n: nat, lo: Bound, hi: Bound)
    requires n <= |entries|
    ensures DownTo(entries, n, lo, hi) == Reversed(Between(entries, n, lo, hi))
       <==> forall i | 0 <= i < StopDown(entries, n, lo, hi) :: !Within(entries[i].id, lo, hi)
  {
    var stop := StopDown(entries, n, lo, hi);
    var left := Between(entries, stop, lo, hi);
    DownToStop(entries, n, lo, hi);
    BetweenSame(entries, 0, stop, lo, hi);
    ReversedSize(left);
    assert left == [] ==> DownTo(entries, n, lo, hi) + Reversed(left) == DownTo(entries, n, lo, hi);
  }

  lemma {:induction false} StopsBefore(entries: seq<Entry>, n: nat, lo: Bound, hi: Bound)
    requires n <= |entries|
    ensures var r := StopDown(entries, n, lo, hi); r > 0 ==> Compare(entries[r - 1].id, lo) < 0
  {
    if StopDown(entries, n, lo, hi) != n { StopsBefore(entries, n - 1, lo, hi); }
  }

  /** With a lower bound that separates, it always is. */
  lemma RevRangeIsReversed(entries: seq<Entry>, n: nat, lo: Bound, hi: Bound)
    requires Ascending(Ids(entries)) && Separates(lo) && n <= |entries|
    ensures DownTo(entries, n, lo, hi) == Reversed(Between(entries, n, lo, hi))
  {
    var stop := StopDown(entries, n, lo, hi);
    StopsBefore(entries, n, lo, hi);
    forall i | 0 <= i < stop ensures Compare(entries[i].id, lo) < 0 {
      if i < stop - 1 {
        assert Rises(Ids(entries), i, stop - 1);
        if Compare(entries[i].id, lo) >= 0 { CompareAcross(entries[stop - 1].id, lo, entries[i].id); }
      }
    }
    RevRangeIsReversedIff(entries, n, lo, hi);
  }

  /** The lower bounds with which a backward range never loses anything are exactly those that separate. */
  lemma RevRangeIsSafeIff(lo: Bound)
    ensures (forall entries: seq<Entry>, hi: Bound | Ascending(Ids(entries)) ::
               DownTo(entries, |entries|, lo, hi) == Reversed(Between(entries, |entries|, lo, hi)))
       <==> Separates(lo)
  {
    if Separates(lo) {
      forall entries: seq<Entry>, hi: Bound | Ascending(Ids(entries))
        ensures DownTo(entries, |entries|, lo, hi) == Reversed(Between(entries, |entries|, lo, hi))
      {
        RevRangeIsReversed(entries, |entries|, lo, hi);
      }
    } else {
      var a: StreamId, b: StreamId :| Compare(a, lo) <= 0 && Compare(b, lo) > 0 && !Before(a, b);
      if !lo.Odd? { IdSeparates(lo); }
      var entries := Pair(b, a);
      assert Ids(entries) == [b, a] && a != b && Ascending(Ids(entries));
      assert StopDown(entries, 2, lo, Highest) == 2 && Within(entries[0].id, lo, Highest);
      RevRangeIsReversedIff(entries, 2, lo, Highest);
    }
  }

  /** Which entries those are, independently of any order of visiting. */
  lemma {:induction false} BetweenMembers(entries: seq<Entry>, n: nat, lo: Bound, hi: Bound, e: Entry)
    requires n <= |entries|
    ensures e in Between(entries, n, lo, hi) <==> e in entries[..n] && Within(e.id, lo, hi)
  {
    if n > 0 {
      BetweenMembers(entries, n - 1, lo, hi, e);
      assert entries[..n] == entries[..n - 1] + [entries[n - 1]];
    }
  }

  // ---------------------------------------------------------------------------
  // Removal.
  // ---------------------------------------------------------------------------

  /** The ID that a text is the printed form of. */
  function Exactly(text: bytes): Option<StreamId> {
    match ParseStreamID(text)
    case None => None
    case Some(id) => if Text(id) == text then Some(id) else None
  }

  /** Looking an ID up by text finds it only under its printed form. */
  lemma ExactlyIsText(text: bytes, id: StreamId)
    ensures Exactly(text) == Some(id) <==> text == Text(id)
  {
    ParseText(id);
  }

  /** The IDs that the texts name. */
  function NamedBy(texts: seq<bytes>): seq<StreamId> {
    if texts == [] then []
    else
      match Exactly(texts[0])
      case None => NamedBy(texts[1..])
      case Some(id) => [id] + NamedBy(texts[1..])
  }

  lemma {:induction false} NamedByText(texts: seq<bytes>, id: StreamId)
    ensures id in NamedBy(texts) <==> Text(id) in texts
  {
    if texts != [] {
      ExactlyIsText(texts[0], id);
      NamedByText(texts[1..], id);
      assert Text(id) in texts <==> Text(id) == texts[0] || Text(id) in texts[1..];
    }
  }

  /** The entries that are left. */
  function Without(entries: seq<Entry>, ids: set<StreamId>): (r: seq<Entry>)
    ensures |r| <= |entries|
  {
    if entries == [] then []
    else (if entries[0].id in ids then [] else [entries[0]]) + Without(entries[1..], ids)
  }

  lemma {:induction false} WithoutMembers(entries: seq<Entry>, ids: set<StreamId>, e: Entry)
    ensures e in Without(entries, ids) <==> e in entries && e.id !in ids
  {
    if entries != [] {
      WithoutMembers(entries[1..], ids, e);
      assert e in entries <==> e == entries[0] || e in entries[1..];
    }
  }

  lemma {:induction false} WithoutAscends(entries: seq<Entry>, ids: set<StreamId>)
    requires Ascending(Ids(entries))
    ensures Ascending(Ids(Without(entries, ids)))
  {
    if entries != [] {
      TailAscends(entries);
      WithoutAscends(entries[1..], ids);
      var rest := Without(entries[1..], ids);
      if entries[0].id !in ids {
        if rest != [] { FirstLeft(entries, ids); }
        AppendAscends([entries[0].id], Ids(rest));
        assert Ids([entries[0]] + rest) == [entries[0].id] + Ids(rest);
      } else {
        assert [] + rest == rest;
      }
    }
  }

  lemma FirstLeft(entries: seq<Entry>, ids: set<StreamId>)
    requires Ascending(Ids(entries)) && entries != [] && Without(entries[1..], ids) != []
    ensures Before(entries[0].id, Without(entries[1..], ids)[0].id)
  {
    var e := Without(entries[1..], ids)[0];
    assert e in Without(entries[1..], ids);
    WithoutMembers(entries[1..], ids, e);
    var j :| 0 <= j < |entries[1..]| && entries[1..][j] == e;
    assert Rises(Ids(entries), 0, j + 1);
  }

  lemma {:induction false} WithoutLast(entries: seq<Entry>, e: Entry, ids: set<StreamId>)
    ensures Without(entries + [e], ids) == Without(entries, ids) + (if e.id in ids then [] else [e])
  {
    if entries == [] {
      assert entries + [e] == [e] && ([e])[1..] == [];
    } else {
      assert (entries + [e])[1..] == entries[1..] + [e];
      WithoutLast(entries[1..], e, ids);
      var first, last := if entries[0].id in ids then [] else [entries[0]], if e.id in ids then [] else [e];
      Associates(first, Without(entries[1..], ids), last);
    }
  }

  /** No entry of an ordered stream is after its last ID. */
  lemma NoneAfterLast(entries: seq<Entry>, last: StreamId, e: Entry)
    requires Ordered(entries, last) && e in entries
    ensures !Before(last, e.id)
  {
    var i :| 0 <= i < |entries| && entries[i] == e;
    assert Rises(Ids(entries), i, |entries| - 1);
  }

  lemma LogNotAfter(entries: seq<Entry>, last: StreamId, log: seq<StreamId>, results: seq<Entry>)
    requires Ordered(entries, last) && (log != [] ==> !Before(last, log[|log| - 1]))
    requires forall e | e in results :: e in entries
    ensures var l := log + Ids(results); l != [] ==> !Before(last, l[|l| - 1])
  {
    if results != [] { NoneAfterLast(entries, last, results[|results| - 1]); }
  }

  lemma FewerOrdered(entries: seq<Entry>, fewer: seq<Entry>, last: StreamId)
    requires Ordered(entries, last) && Ascending(Ids(fewer)) && forall e | e in fewer :: e in entries
    ensures Ordered(fewer, last)
  {
    if fewer != [] { NoneAfterLast(entries, last, fewer[|fewer| - 1]); }
  }

  /** Removing entries cannot make a delivery incomplete. */
  lemma FewerComplete(entries: seq<Entry>, fewer: seq<Entry>, start: Bound, log: seq<StreamId>, cursor: Bound)
    requires Complete(entries, start, log, cursor) && forall e | e in fewer :: e in entries
    ensures Complete(fewer, start, log, cursor)
  {
    forall i | 0 <= i < |fewer| && Compare(fewer[i].id, start) > 0 && Compare(fewer[i].id, cursor) <= 0
      ensures fewer[i].id in log
    {
      assert fewer[i] in fewer;
      var j :| 0 <= j < |entries| && entries[j] == fewer[i];
      assert entries[j].id in log;
    }
  }

  /** The ID is not before the last one delivered. */
  predicate NotBehind(id: StreamId, log: seq<StreamId>) { log != [] ==> !Before(id, log[|log| - 1]) }

  /** The ID lies in what a group has gone through since its cursor was set, but was not delivered. */
  predicate Passed(id: StreamId, start: Bound, log: seq<StreamId>) {
    log != [] && Compare(id, start) > 0 && !Before(log[|log| - 1], id) && id !in log
  }

  /** A new entry leaves a group's deliveries in order exactly when the group has not passed its ID. */
  lemma InOrderWithIff(entries: seq<Entry>, e: Entry, start: Bound, log: seq<StreamId>, cursor: Bound)
    requires InOrder(entries, start, log, cursor)
    ensures InOrder(entries + [e], start, log, cursor) <==> !Passed(e.id, start, log)
  {
    var more := entries + [e];
    assert more[|entries|] == e;
    if log != [] && !Passed(e.id, start, log) {
      forall i | 0 <= i < |more| && Compare(more[i].id, start) > 0 && Compare(more[i].id, cursor) <= 0
        ensures more[i].id in log
      {
        if i < |entries| { assert more[i] == entries[i]; }
      }
    }
  }

  /** From the last ID on there is nothing to deliver. */
  lemma EndDeliversNothing(entries: seq<Entry>, last: StreamId)
    requires Ordered(entries, last)
    ensures Undelivered(entries, At(last)) == []
  {
    var k := UndeliveredIsRest(entries, At(last));
    if k < |entries| { NoneAfterLast(entries, last, entries[k]); }
  }

  lemma TextIsId(id: StreamId)
    ensures Text(id) != [36] && BoundOf(Text(id)) == At(id)
  {
    BoundOfText(id);
    assert Text(id)[0] == Print(id.millis)[0] && IsDigit(Print(id.millis)[0]);
  }

  // ---------------------------------------------------------------------------
  // The stream.
  // ---------------------------------------------------------------------------

  class Stream {
    var entries: seq<Entry>
    var lastID: StreamId
    var groups: map<bytes, ConsumerGroup>

    /** The entries are in order, no two names share a group, and every group is consistent. */
    ghost predicate Valid()
      reads this, groups.Values
    {
      && Ordered(entries, lastID)
      && (forall a, b | a in groups && b in groups && a != b :: groups[a] != groups[b])
      && forall a | a in groups :: groups[a].Valid()
    }

    /** What a group has delivered since its cursor was set is ascending and complete. */
    ghost predicate InOrderFor(g: ConsumerGroup)
      reads this, g
    {
      InOrder(entries, g.start, g.log, g.lastDeliveredID)
    }

    /** It is also not after the last ID. */
    ghost predicate Delivers(g: ConsumerGroup)
      reads this, g
    {
      && InOrderFor(g)
      && (g.log != [] ==> !Before(lastID, g.log[|g.log| - 1]))
    }

    ghost predicate AllDeliver()
      reads this, groups.Values
    {
      forall a | a in groups :: Delivers(groups[a])
    }

    constructor ()
      ensures Valid() && AllDeliver() && entries == [] && groups == map[]
    {
      entries, lastID, groups := [], StreamId(0, 0), map[];
    }

    method Add(text: bytes, fields: seq<(bytes, bytes)>, now: uint64) returns (r: NextResult)
      requires Valid()
      modifies this
      ensures r == NextId(Request(text), old(lastID), old(entries) == [], now) && groups == old(groups)
      ensures if r.Next? then lastID == r.id && entries == old(entries) + [Entry(r.id, fields)]
              else lastID == old(lastID) && entries == old(entries)
      ensures Valid() <==> !(r.Next? && Overflows(Request(text), old(lastID), now) && old(entries) != []
                             && old(entries)[|old(entries)| - 1].id.millis == old(lastID.millis))
      ensures forall a | a in groups && old(InOrderFor(groups[a])) ::
        InOrderFor(groups[a]) <==> (r.Next? ==> !Passed(r.id, groups[a].start, groups[a].log))
      ensures old(AllDeliver()) ==>
        (AllDeliver() <==> (r.Next? ==> forall a | a in groups :: NotBehind(r.id, groups[a].log)))
    {
      r := NextId(Request(text), lastID, entries == [], now);
      if r.Next? {
        var e := Entry(r.id, fields);
        AddKeepsOrdered(entries, Request(text), lastID, now, e);
        lastID := r.id;
        entries := entries + [e];
        forall a | a in groups && old(InOrderFor(groups[a]))
          ensures InOrderFor(groups[a]) <==> !Passed(r.id, groups[a].start, groups[a].log)
        {
          InOrderWithIff(old(entries), e, groups[a].start, groups[a].log, groups[a].lastDeliveredID);
        }
        forall a | a in groups && old(AllDeliver()) && NotBehind(r.id, groups[a].log) ensures Delivers(groups[a]) {
          assert old(Delivers(groups[a])) && !Passed(r.id, groups[a].start, groups[a].log);
        }
      }
    }

    /** Entries between two IDs; an empty text is no bound. */
    method Range(start: bytes, end: bytes, count: int) returns (results: seq<Entry>)
      ensures var lo, hi := LowerBound(start), UpperBound(end);
        results == Limit(Between(entries, Stop(entries, 0, lo, hi), lo, hi), count)
    {
      var lo, hi := LowerBound(start), UpperBound(end);
      results := [];
      var i := 0;
      while i < |entries| && !(count > 0 && |results| >= count)
        && !(Compare(entries[i].id, lo) >= 0 && Compare(entries[i].id, hi) > 0)
        invariant 0 <= i <= |entries| && results == Between(entries, i, lo, hi) && (count > 0 ==> |results| <= count)
        invariant Stop(entries, 0, lo, hi) == Stop(entries, i, lo, hi)
      {
        if Compare(entries[i].id, lo) >= 0 { results := results + [entries[i]]; }
        i := i + 1;
      }
      BetweenPrefix(entries, i, Stop(entries, 0, lo, hi), lo, hi);
    }

    method RevRange(end: bytes, start: bytes, count: int) returns (results: seq<Entry>)
      ensures results == Limit(DownTo(entries, |entries|, LowerBound(start), UpperBound(end)), count)
    {
      var lo, hi := LowerBound(start), UpperBound(end);
      results := [];
      var i := |entries|;
      while i > 0 && !(count > 0 && |results| >= count)
        && !(Compare(entries[i - 1].id, hi) <= 0 && Compare(entries[i - 1].id, lo) < 0)
        invariant 0 <= i <= |entries| && DownTo(entries, |entries|, lo, hi) == results + DownTo(entries, i, lo, hi)
        invariant count > 0 ==> |results| <= count
      {
        i := i - 1;
        if Compare(entries[i].id, hi) <= 0 {
          Associates(results, [entries[i]], DownTo(entries, i, lo, hi));
          results := results + [entries[i]];
        }
      }
    }

    method Delete(texts: seq<bytes>) returns (removed: nat)
      requires Valid()
      modifies this
      ensures entries == Without(old(entries), ConsumerGroups.Named(NamedBy(texts)))
      ensures removed + |entries| == |old(entries)|
      ensures lastID == old(lastID) && groups == old(groups) && Valid() && (old(AllDeliver()) ==> AllDeliver())
    {
      var ids := ConsumerGroups.Named(NamedBy(texts));
      var left;
      left, removed := Remove(entries, ids);
      forall e | e in left ensures e in entries { WithoutMembers(entries, ids, e); }
      WithoutAscends(entries, ids);
      Shrink(left);
    }

    /** Replaces the entries by fewer of them. */
    method Shrink(fewer: seq<Entry>)
      requires Valid() && Ascending(Ids(fewer)) && forall e | e in fewer :: e in entries
      modifies this
      ensures entries == fewer && lastID == old(lastID) && groups == old(groups)
      ensures Valid() && (old(AllDeliver()) ==> AllDeliver())
    {
      FewerOrdered(entries, fewer, lastID);
      entries := fewer;
      forall a | a in groups && old(AllDeliver()) ensures Delivers(groups[a]) {
        assert old(Delivers(groups[a]));
        if groups[a].log != [] {
          FewerComplete(old(entries), fewer, groups[a].start, groups[a].log, groups[a].lastDeliveredID);
        }
      }
    }

    /** The text "$" stands for the last ID, or for 0-0 while the stream is empty. */
    function CursorOf(text: bytes): Bound
      reads this
    {
      if text == [36] then (if entries != [] then At(lastID) else At(StreamId(0, 0))) else BoundOf(text)
    }

    method CreateGroup(name: bytes, start: bytes) returns (ok: bool)
      requires Valid()
      modifies this
      ensures ok == (name !in old(groups)) && entries == old(entries) && lastID == old(lastID)
      ensures !ok ==> groups == old(groups)
      ensures ok ==> name in groups && fresh(groups[name]) && groups == old(groups)[name := groups[name]]
      ensures ok ==> groups[name].lastDeliveredID == old(CursorOf(start))
      ensures ok ==> groups[name].pel == map[] && groups[name].consumers == map[] && groups[name].Agrees()
      ensures ok && start == [36] ==> Undelivered(entries, groups[name].lastDeliveredID) == []
      ensures ok && start == [36] && entries == [] ==> groups[name].lastDeliveredID == At(StreamId(0, 0))
      ensures forall id: StreamId | ok && start == Text(id) :: groups[name].lastDeliveredID == At(id)
      ensures Valid() && (old(AllDeliver()) ==> AllDeliver())
    {
      ok := name !in groups;
      if ok {
        EndDeliversNothing(entries, lastID);
        forall id: StreamId | start == Text(id) ensures CursorOf(start) == At(id) { TextIsId(id); }
        var g := new ConsumerGroup(CursorOf(start));
        assert Delivers(g);
        groups := groups[name := g];
        forall a | a in groups && old(AllDeliver()) ensures Delivers(groups[a]) {
          assert a != name ==> old(Delivers(groups[a]));
        }
      }
    }

    method DestroyGroup(name: bytes) returns (ok: bool)
      requires Valid()
      modifies this
      ensures ok == (name in old(groups)) && groups == old(groups) - {name} && entries == old(entries)
      ensures lastID == old(lastID)
      ensures Valid() && (old(AllDeliver()) ==> AllDeliver())
    {
      ok := name in groups;
      groups := groups - {name};
      forall a | a in groups && old(AllDeliver()) ensures Delivers(groups[a]) { assert old(Delivers(groups[a])); }
    }

    /** Moving a cursor touches no pending list; NextReadAgreesIff says which reads are safe from there. */
    method SetGroupID(name: bytes, text: bytes) returns (ok: bool)
      requires Valid()
      modifies groups.Values
      ensures ok == (name in groups)
      ensures ok ==> groups[name].lastDeliveredID == CursorOf(text)
      ensures ok ==> groups[name].pel == old(groups[name].pel) && groups[name].consumers == old(groups[name].consumers)
      ensures forall a | a in groups && a != name :: unchanged(groups[a])
      ensures Valid() && (old(AllDeliver()) ==> AllDeliver())
    {
      ok := name in groups;
      if ok {
        groups[name].SetID(CursorOf(text));
        assert Delivers(groups[name]);
        forall a | a in groups && old(AllDeliver()) ensures Delivers(groups[a]) {
          assert a != name ==> old(Delivers(groups[a]));
        }
      }
    }

    method DeleteConsumer(name: bytes, consumer: bytes) returns (dropped: nat)
      requires Valid()
      modifies groups.Values
      ensures name !in groups ==> dropped == 0
      ensures name in groups ==> dropped == |Mine(old(groups[name].consumers), consumer)|
      ensures name in groups ==> groups[name].consumers == old(groups[name].consumers) - {consumer}
      ensures name in groups ==>
        groups[name].pel == old(groups[name].pel) - Mine(old(groups[name].consumers), consumer)
      ensures name in groups && old(groups[name].Agrees()) ==>
        && groups[name].Agrees() && groups[name].pel == Others(old(groups[name].pel), consumer)
        && dropped + |groups[name].pel| == old(|groups[name].pel|)
      ensures forall a | a in groups && a != name :: unchanged(groups[a])
      ensures Valid() && (old(AllDeliver()) ==> AllDeliver())
    {
      if name !in groups { return 0; }
      dropped := groups[name].DeleteConsumer(consumer);
      forall a | a in groups && old(AllDeliver()) ensures Delivers(groups[a]) { assert old(Delivers(groups[a])); }
    }

    method Ack(name: bytes, texts: seq<bytes>) returns (acked: nat)
      requires Valid()
      modifies groups.Values
      ensures name !in groups ==> acked == 0
      ensures name in groups ==> acked + |groups[name].pel| == old(|groups[name].pel|)
      ensures name in groups ==> groups[name].pel == old(groups[name].pel) - ConsumerGroups.Named(NamedBy(texts))
      ensures name in groups && old(groups[name].Agrees()) ==> groups[name].Agrees()
      ensures forall a | a in groups && a != name :: unchanged(groups[a])
      ensures Valid() && (old(AllDeliver()) ==> AllDeliver())
    {
      if name !in groups { return 0; }
      acked := groups[name].Ack(NamedBy(texts));
      forall a | a in groups && old(AllDeliver()) ensures Delivers(groups[a]) { assert old(Delivers(groups[a])); }
    }

    /** A group reads; what it has delivered stays in order. */
    method ReadOne(g: ConsumerGroup, consumer: bytes, from: Option<Bound>, count: int, noAck: bool, now: int)
      returns (results: seq<Entry>)
      requires Ordered(entries, lastID) && g.Valid()
      modifies g, if consumer in g.consumers then g.consumers[consumer].pel.Values else {}
      ensures g.Valid() && (old(Delivers(g)) ==> Delivers(g))
      ensures old(g.Agrees()) ==>
        (g.Agrees() <==> from.Some? || noAck || Exclusive(old(g.pel), Ids(results), consumer))
      ensures from.None? ==> results == Limit(Undelivered(entries, old(g.lastDeliveredID)), count)
      ensures from.None? ==>
        g.log == old(g.log) + Ids(results) && Noted(noAck, old(g.pel), g.pel, Ids(results), consumer, now)
      ensures from.Some? ==>
        results == Limit(Those(entries, AtOrAfter(Mine(old(g.consumers), consumer), from.value)), count)
      ensures from.Some? ==> g.pel == old(g.pel) && g.log == old(g.log)
    {
      results := g.Read(entries, consumer, from, count, noAck, now);
      if old(Delivers(g)) && from.None? { LogNotAfter(entries, lastID, old(g.log), results); }
    }

    /** A read with ">" takes undelivered messages; any other ID re-reads the consumer's own pending ones from there. */
    method ReadGroup(name: bytes, consumer: bytes, text: bytes, count: int, noAck: bool, now: int)
      returns (r: Option<seq<Entry>>)
      requires Valid()
      modifies groups.Values
      modifies if name in groups && consumer in groups[name].consumers
               then groups[name].consumers[consumer].pel.Values else {}
      ensures r.Some? <==> name in groups
      ensures r.Some? && text == NEW ==>
        r.value == Limit(Undelivered(entries, old(groups[name].lastDeliveredID)), count)
      ensures r.Some? && text == NEW ==> groups[name].log == old(groups[name].log) + Ids(r.value)
      ensures r.Some? && text == NEW ==>
        Noted(noAck, old(groups[name].pel), groups[name].pel, Ids(r.value), consumer, now)
      ensures r.Some? && text != NEW ==>
        r.value == Limit(Those(entries, AtOrAfter(Mine(old(groups[name].consumers), consumer), BoundOf(text))), count)
      ensures r.Some? && text != NEW ==>
        groups[name].pel == old(groups[name].pel) && groups[name].log == old(groups[name].log)
      ensures r.Some? && old(groups[name].Agrees()) ==>
        (groups[name].Agrees() <==> text != NEW || noAck || Exclusive(old(groups[name].pel), Ids(r.value), consumer))
      ensures forall a | a in groups && a != name :: unchanged(groups[a])
      ensures Valid() && (old(AllDeliver()) ==> AllDeliver())
    {
      if name !in groups { return None; }
      var g := groups[name];
      var results := ReadOne(g, consumer, if text == NEW then None else Some(BoundOf(text)), count, noAck, now);
      r := Some(results);
      forall a | a in groups && old(AllDeliver()) ensures Delivers(groups[a]) { assert old(Delivers(groups[a])); }
    }

    method Trim(maxlen: int) returns (evicted: nat)
      requires Valid()
      modifies this
      ensures evicted == (if 0 <= maxlen < |old(entries)| then |old(entries)| - maxlen else 0)
      ensures entries == old(entries)[evicted..] && lastID == old(lastID) && groups == old(groups)
      ensures Valid() && (old(AllDeliver()) ==> AllDeliver())
    {
      if |entries| <= maxlen || maxlen < 0 { return 0; }
      evicted := |entries| - maxlen;
      SliceAscends(Ids(entries), evicted, |entries|);
      assert Ids(entries[evicted..]) == Ids(entries)[evicted..|entries|];
      Shrink(entries[evicted..]);
    }
  }

  method Remove(entries: seq<Entry>, ids: set<StreamId>) returns (left: seq<Entry>, removed: nat)
    ensures left == Without(entries, ids) && removed + |left| == |entries|
  {
    left, removed := [], 0;
    for i := 0 to |entries|
      invariant left == Without(entries[..i], ids) && removed + |left| == i
    {
      assert entries[..i + 1] == entries[..i] + [entries[i]];
      WithoutLast(entries[..i], entries[i], ids);
      if entries[i].id in ids { removed := removed + 1; } else { left := left + [entries[i]]; }
    }
    assert entries[..|entries|] == entries;
  }

  /** Without bounds, or with "-" and "+", everything is between; with two IDs, what is neither below nor above. */
  lemma BoundsMean(id: StreamId, a: StreamId, b: StreamId)
    ensures Within(id, LowerBound([]), UpperBound([])) && Within(id, LowerBound(LOWEST), UpperBound(HIGHEST))
    ensures Within(id, LowerBound(Text(a)), UpperBound(Text(b))) <==> !Before(id, a) && !Before(b, id)
  {
    BoundOfText(a);
    BoundOfText(b);
    assert IsDigit(Text(a)[0]) && IsDigit(Text(b)[0]) by {
      assert Text(a)[0] == Print(a.millis)[0] && Text(b)[0] == Print(b.millis)[0];
    }
  }

  function LowerBound(text: bytes): Bound { if text == [] then Lowest else BoundOf(text) }

  function UpperBound(text: bytes): Bound { if text == [] then Highest else BoundOf(text) }

  lemma {:induction false} BetweenPrefix(entries: seq<Entry>, i: nat, n: nat, lo: Bound, hi: Bound)
    requires i <= n <= |entries|
    ensures Between(entries, i, lo, hi) <= Between(entries, n, lo, hi)
  {
    if i < n { BetweenPrefix(entries, i, n - 1, lo, hi); }
  }
}

