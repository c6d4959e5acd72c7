/** What a client session is, seen from outside: the history of watching and writing decides it. */
module Sessions {
  import opened Bytes

  type Conn = bytes
  type Key = bytes

  /** Commands that touch the session, and all others with their arguments. */
  datatype Command = Multi | Exec | Discard | Watch(keys: seq<Key>) | Unwatch | Data(name: string, args: seq<Key>)

  datatype Session = Session(inMulti: bool, queue: seq<Command>, watched: set<Key>, aborted: bool)

  const FRESH := Session(false, [], {}, false)

  type Table = map<Conn, Session>

  function Of(t: Table, c: Conn): Session { if c in t then t[c] else FRESH }

  // ---------------------------------------------------------------------------
  // History.
  // ---------------------------------------------------------------------------

  /** A client watched keys, gave up watching, or some client's write reported keys. */
  datatype Event = Watched(conn: Conn, keys: set<Key>) | Unwatched(conn: Conn) | Wrote(keys: set<Key>)

  function WatchSet(log: seq<Event>, c: Conn): set<Key> {
    if log == [] then {}
    else
      var before := WatchSet(log[..|log| - 1], c);
      match log[|log| - 1]
      case Watched(d, keys) => if d == c then before + keys else before
      case Unwatched(d) => if d == c then {} else before
      case Wrote(_) => before
  }

  predicate Dirty(log: seq<Event>, c: Conn) {
    log != [] &&
    var front := log[..|log| - 1];
    match log[|log| - 1]
    case Watched(_, _) => Dirty(front, c)
    case Unwatched(d) => d != c && Dirty(front, c)
    case Wrote(keys) => Dirty(front, c) || WatchSet(front, c) * keys != {}
  }

  /** The client watched the key at i and has not given up watching since. */
  ghost predicate WatchesSince(log: seq<Event>, c: Conn, k: Key, i: int) {
    && 0 <= i < |log| && log[i].Watched? && log[i].conn == c && k in log[i].keys
    && forall j | i < j < |log| :: log[j] != Unwatched(c)
  }

  /** The client watched a key, a later write reported it, and the client did not give up watching since. */
  ghost predicate Interfered(log: seq<Event>, c: Conn) {
    exists i, j, k :: WatchesSince(log, c, k, i) && i < j < |log| && log[j].Wrote? && k in log[j].keys
  }

  lemma {:induction false} WatchSetMeaning(log: seq<Event>, c: Conn, k: Key)
    ensures k in WatchSet(log, c) <==> exists i :: WatchesSince(log, c, k, i)
  {
    if log != [] {
      WatchSetMeaning(log[..|log| - 1], c, k);
      if k in WatchSet(log, c) { WatchSetWatches(log, log[..|log| - 1], c, k); }
      if i :| WatchesSince(log, c, k, i) { WatchesInSet(log, log[..|log| - 1], c, k, i); }
    }
  }

  lemma WatchSetWatches(log: seq<Event>, front: seq<Event>, c: Conn, k: Key)
    requires log != [] && front == log[..|log| - 1] && k in WatchSet(log, c)
    requires k in WatchSet(front, c) ==> exists i :: WatchesSince(front, c, k, i)
    ensures exists i :: WatchesSince(log, c, k, i)
  {
    if k in WatchSet(front, c) {
      var i :| WatchesSince(front, c, k, i);
      assert WatchesSince(log, c, k, i);
    } else {
      assert WatchesSince(log, c, k, |front|);
    }
  }

  lemma WatchesInSet(log: seq<Event>, front: seq<Event>, c: Conn, k: Key, i: int)
    requires log != [] && front == log[..|log| - 1] && WatchesSince(log, c, k, i)
    requires (exists j :: WatchesSince(front, c, k, j)) ==> k in WatchSet(front, c)
    ensures k in WatchSet(log, c)
  {
    if i < |front| { assert WatchesSince(front, c, k, i); }
  }

  /** The two readings of the history agree. */
  lemma {:induction false} DirtyMeaning(log: seq<Event>, c: Conn)
    ensures Dirty(log, c) <==> Interfered(log, c)
  {
    if log != [] {
      DirtyMeaning(log[..|log| - 1], c);
      if Dirty(log, c) { DirtyIsInterfered(log, c); }
      if Interfered(log, c) { InterferedIsDirty(log, c); }
    }
  }

  lemma DirtyIsInterfered(log: seq<Event>, c: Conn)
    requires Dirty(log, c) && (Dirty(log[..|log| - 1], c) ==> Interfered(log[..|log| - 1], c))
    ensures Interfered(log, c)
  {
    var n := |log| - 1;
    var front, e := log[..n], log[n];
    if Dirty(front, c) {
      var i, j, k :| WatchesSince(front, c, k, i) && i < j < |front| && front[j].Wrote? && k in front[j].keys;
      assert WatchesSince(log, c, k, i) && log[j].Wrote? && k in log[j].keys;
    } else {
      var k :| k in WatchSet(front, c) * e.keys;
      WatchSetMeaning(front, c, k);
      var i :| WatchesSince(front, c, k, i);
      assert WatchesSince(log, c, k, i) && log[n].Wrote? && k in log[n].keys;
    }
  }

  lemma InterferedIsDirty(log: seq<Event>, c: Conn)
    requires Interfered(log, c) && log != [] && (Interfered(log[..|log| - 1], c) ==> Dirty(log[..|log| - 1], c))
    ensures Dirty(log, c)
  {
    var n := |log| - 1;
    var front, e := log[..n], log[n];
    var i, j, k :| WatchesSince(log, c, k, i) && i < j < |log| && log[j].Wrote? && k in log[j].keys;
    assert WatchesSince(front, c, k, i);
    if j == n {
      WatchSetMeaning(front, c, k);
      assert k in WatchSet(front, c) * e.keys;
    } else {
      assert front[j].Wrote? && k in front[j].keys;
    }
  }

  // ---------------------------------------------------------------------------
  // The table follows the history.
  // ---------------------------------------------------------------------------

  ghost predicate FollowsFor(t: Table, log: seq<Event>, c: Conn) {
    Of(t, c).watched == WatchSet(log, c) && Of(t, c).aborted == Dirty(log, c)
  }

  ghost predicate Follows(t: Table, log: seq<Event>) {
    forall c: Conn {:trigger FollowsFor(t, log, c)} :: FollowsFor(t, log, c)
  }

  /** The clients that watch anything. */
  function Watchers(t: Table): set<Conn> { set c | c in t && t[c].watched != {} }

  /** An aborted transaction still has its watches. */
  lemma {:induction false} DirtyWatches(log: seq<Event>, c: Conn)
    ensures Dirty(log, c) ==> WatchSet(log, c) != {}
  {
    if log != [] { DirtyWatches(log[..|log| - 1], c); }
  }

  lemma AbortedWatches(t: Table, log: seq<Event>, c: Conn)
    requires Follows(t, log) && Of(t, c).aborted
    ensures Of(t, c).watched != {}
  {
    assert FollowsFor(t, log, c);
    DirtyWatches(log, c);
  }

  /** Every session that watches one of the keys is aborted. */
  function Touch(t: Table, keys: set<Key>): Table { map c | c in t :: Touched(t[c], keys) }

  function Touched(s: Session, keys: set<Key>): Session {
    if s.watched * keys != {} then s.(aborted := true) else s
  }

  /** A write while nobody watches. */
  lemma UnwatchedWriteFollows(t: Table, log: seq<Event>, keys: set<Key>)
    requires Follows(t, log) && Watchers(t) == {}
    ensures Follows(t, log + [Wrote(keys)])
  {
    TouchFollows(t, log, keys);
    TouchNobody(t, keys);
  }

  lemma LastEvent(log: seq<Event>, e: Event)
    ensures (log + [e])[..|log + [e]| - 1] == log && (log + [e])[|log + [e]| - 1] == e
  {
  }

  lemma TouchFollows(t: Table, log: seq<Event>, keys: set<Key>)
    requires Follows(t, log)
    ensures Follows(Touch(t, keys), log + [Wrote(keys)])
  {
    LastEvent(log, Wrote(keys));
    forall c: Conn ensures FollowsFor(Touch(t, keys), log + [Wrote(keys)], c) { assert FollowsFor(t, log, c); }
  }

  /** While nobody watches, a write needs no touching: the counter is a sound guard. */
  lemma TouchNobody(t: Table, keys: set<Key>)
    requires Watchers(t) == {}
    ensures Touch(t, keys) == t
  {
    forall c | c in t ensures t[c].watched == {} { assert c !in Watchers(t); }
  }

  lemma {:induction false} TouchTwice(t: Table, a: set<Key>, b: set<Key>)
    ensures Touch(Touch(t, a), b) == Touch(t, a + b)
  {
    forall c | c in t ensures Touch(Touch(t, a), b)[c] == Touch(t, a + b)[c] {
      assert t[c].watched * (a + b) == (t[c].watched * a) + (t[c].watched * b);
    }
  }

  lemma TouchKeepsWatchers(t: Table, keys: set<Key>)
    ensures Watchers(Touch(t, keys)) == Watchers(t)
  {
  }

  lemma WatchFollows(t: Table, log: seq<Event>, c: Conn, keys: set<Key>)
    requires Follows(t, log)
    ensures Follows(t[c := Of(t, c).(watched := Of(t, c).watched + keys)], log + [Watched(c, keys)])
  {
    var t', log' := t[c := Of(t, c).(watched := Of(t, c).watched + keys)], log + [Watched(c, keys)];
    LastEvent(log, Watched(c, keys));
    forall d: Conn ensures FollowsFor(t', log', d) { assert FollowsFor(t, log, d); }
  }

  /** EXEC, DISCARD, UNWATCH and closing the connection forget the watches. */
  lemma ForgetFollows(t: Table, log: seq<Event>, c: Conn, s: Session)
    requires Follows(t, log) && s.watched == {} && !s.aborted
    ensures Follows(t[c := s], log + [Unwatched(c)]) && Follows(t - {c}, log + [Unwatched(c)])
  {
    var with, without, log' := t[c := s], t - {c}, log + [Unwatched(c)];
    LastEvent(log, Unwatched(c));
    forall d: Conn ensures FollowsFor(with, log', d) { assert FollowsFor(t, log, d); }
    forall d: Conn ensures FollowsFor(without, log', d) { assert FollowsFor(t, log, d); }
  }

  /** Nothing else in a session matters to the history. */
  lemma SameFollows(t: Table, log: seq<Event>, c: Conn, s: Session)
    requires Follows(t, log) && s.watched == Of(t, c).watched && s.aborted == Of(t, c).aborted
    ensures Follows(t[c := s], log)
  {
    var t' := t[c := s];
    forall d: Conn ensures FollowsFor(t', log, d) { assert FollowsFor(t, log, d); }
  }

  /** How the counter must move when one session changes. */
  lemma WatchersChange(t: Table, c: Conn, s: Session)
    ensures |Watchers(t[c := s])|
      == |Watchers(t)| - (if Of(t, c).watched != {} then 1 else 0) + (if s.watched != {} then 1 else 0)
    ensures |Watchers(t - {c})| == |Watchers(t)| - (if Of(t, c).watched != {} then 1 else 0)
  {
    WatchersLeft(t, c);
    if s.watched != {} {
      assert Watchers(t[c := s]) == Watchers(t - {c}) + {c};
    } else {
      assert Watchers(t[c := s]) == Watchers(t - {c});
    }
  }

  lemma WatchersLeft(t: Table, c: Conn)
    ensures Watchers(t - {c}) == Watchers(t) - {c}
    ensures |Watchers(t - {c})| == |Watchers(t)| - (if Of(t, c).watched != {} then 1 else 0)
  {
    assert Watchers(t - {c}) == Watchers(t) - {c};
    assert c in Watchers(t) <==> Of(t, c).watched != {};
  }
}

