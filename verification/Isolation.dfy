/** What a transaction that is not aborted can rely on: when its watched keys are as they were. */
module Isolation {
  import opened Bytes
  import opened Sessions
  import opened StreamEntries
  import opened StreamIds
  import opened Transactions

  /** What a keyspace holds under a key. */
  type Look<!S, !V> = (S, Key) -> V

  /** On this keyspace the command changes the key without reporting it. */
  predicate Conceals<S, R, V(==)>(run: Runner<S, R>, look: Look<S, V>, s: S, cmd: Command, k: Key)
    requires cmd.Data?
  {
    var (after, _, wrote) := run(s, cmd.name, cmd.args);
    look(after, k) != look(s, k) && !(wrote && k in CommandKeys(cmd.name, cmd.args))
  }

  /** The command reports every key it changes. */
  ghost predicate Reports<S(!new), R, V>(run: Runner<S, R>, look: Look<S, V>, cmd: Command)
    requires cmd.Data?
  {
    forall s: S, k: Key :: !Conceals(run, look, s, cmd, k)
  }

  ghost predicate AllReport<S(!new), R, V>(run: Runner<S, R>, look: Look<S, V>, cmds: seq<Command>) {
    forall q | q in cmds && q.Data? :: Reports(run, look, q)
  }

  /** The commands that an action makes run: the one sent, or those of the queue that EXEC runs. */
  function Ran<S>(w: World<S>, a: Action): seq<Command> {
    match a
    case Closes(_) => []
    case Sends(c, cmd) =>
      var s := Of(w.table, c);
      if !s.inMulti then [cmd] else if cmd.Exec? && !s.aborted then s.queue else []
  }

  /** Between the two histories the client did not give up watching. */
  ghost predicate Held(before: seq<Event>, after: seq<Event>, c: Conn) {
    before <= after && forall j | |before| <= j < |after| :: after[j] != Unwatched(c)
  }

  lemma HeldParts(a: seq<Event>, b: seq<Event>, d: seq<Event>, c: Conn)
    requires a <= b <= d && Held(a, d, c)
    ensures Held(a, b, c) && Held(b, d, c)
  {
  }

  /** The client watches the key, and its transaction is aborted or the key is as it was. */
  ghost predicate Kept<S, V>(look: Look<S, V>, w: World<S>, c: Conn, k: Key, v: V) {
    k in Of(w.table, c).watched && (Of(w.table, c).aborted || look(w.store, k) == v)
  }

  // ---------------------------------------------------------------------------
  // Histories only grow.
  // ---------------------------------------------------------------------------

  lemma {:induction false} StepsGrow<S, R>(run: Runner<S, R>, w: World<S>, d: Conn, queue: seq<Command>)
    ensures w.log <= Steps(run, w, d, queue).0.log
    decreases |queue|
  {
    if queue != [] { StepsGrow(run, w, d, queue[..|queue| - 1]); }
  }

  lemma ServedGrows<S, R>(run: Runner<S, R>, w: World<S>, d: Conn, cmd: Command)
    ensures w.log <= Served(run, w, d, cmd).0.log
  {
    var s := Of(w.table, d);
    var v := w.(table := w.table[d := s]);
    StepsGrow(run, Forget(v, d, s.(inMulti := false, queue := [])), d, s.queue);
  }

  lemma {:induction false} RunGrows<S, R>(run: Runner<S, R>, w: World<S>, actions: seq<Action>)
    ensures w.log <= After(run, w, actions).log
    decreases |actions|
  {
    if actions != [] {
      var front := actions[..|actions| - 1];
      RunGrows(run, w, front);
      var a := actions[|actions| - 1];
      if a.Sends? { ServedGrows(run, After(run, w, front), a.conn, a.cmd); }
    }
  }

  // ---------------------------------------------------------------------------
  // Reported changes are noticed.
  // ---------------------------------------------------------------------------

  lemma TouchMarks(t: Table, keys: set<Key>, c: Conn, k: Key)
    requires k in Of(t, c).watched
    ensures k in Of(Touch(t, keys), c).watched && (Of(t, c).aborted || k in keys ==> Of(Touch(t, keys), c).aborted)
  {
    if k in keys { assert k in Of(t, c).watched * keys; }
  }

  lemma StepKeeps<S(!new), R, V>(run: Runner<S, R>, look: Look<S, V>, w: World<S>, d: Conn, cmd: Command, c: Conn,
                                 k: Key, v: V)
    requires Kept(look, w, c, k, v) && AllReport(run, look, [cmd]) && Held(w.log, Step(run, w, d, cmd).0.log, c)
    ensures Kept(look, Step(run, w, d, cmd).0, c, k, v)
  {
    var w' := Step(run, w, d, cmd).0;
    if cmd.Data? {
      assert cmd in [cmd];
      assert !Conceals(run, look, w.store, cmd, k);
      TouchMarks(w.table, KeySet(CommandKeys(cmd.name, cmd.args)), c, k);
    } else if cmd.Unwatch? {
      assert w'.log[|w.log|] == Unwatched(d);
    }
  }

  lemma {:induction false} StepsKeep<S(!new), R, V>(run: Runner<S, R>, look: Look<S, V>, w: World<S>, d: Conn,
                                                    queue: seq<Command>,
                                                    c: Conn, k: Key, v: V)
    requires Kept(look, w, c, k, v) && AllReport(run, look, queue) && Held(w.log, Steps(run, w, d, queue).0.log, c)
    ensures Kept(look, Steps(run, w, d, queue).0, c, k, v)
    decreases |queue|
  {
    if queue != [] {
      var front, last := queue[..|queue| - 1], queue[|queue| - 1];
      var w' := Steps(run, w, d, front).0;
      StepsGrow(run, w, d, front);
      HeldParts(w.log, w'.log, Steps(run, w, d, queue).0.log, c);
      StepsKeep(run, look, w, d, front, c, k, v);
      StepKeeps(run, look, w', d, last, c, k, v);
    }
  }

  lemma ServedKeeps<S(!new), R, V>(run: Runner<S, R>, look: Look<S, V>, w: World<S>, d: Conn, cmd: Command, c: Conn,
                                   k: Key, v: V)
    requires Kept(look, w, c, k, v) && AllReport(run, look, Ran(w, Sends(d, cmd)))
    requires Held(w.log, Served(run, w, d, cmd).0.log, c)
    ensures Kept(look, Served(run, w, d, cmd).0, c, k, v)
  {
    var s := Of(w.table, d);
    var u := w.(table := w.table[d := s]);
    if !s.inMulti {
      StepKeeps(run, look, u, d, cmd, c, k, v);
    } else if cmd.Exec? || cmd.Discard? {
      var idle := Forget(u, d, s.(inMulti := false, queue := []));
      StepsGrow(run, idle, d, s.queue);
      HeldParts(w.log, idle.log, Served(run, w, d, cmd).0.log, c);
      assert idle.log[|w.log|] == Unwatched(d);
      if cmd.Exec? && !s.aborted { StepsKeep(run, look, idle, d, s.queue, c, k, v); }
    }
  }

  /** All the commands that a run makes run report what they change. */
  ghost predicate RunReports<S(!new), R, V>(run: Runner<S, R>, look: Look<S, V>, w: World<S>, actions: seq<Action>) {
    forall n | 0 <= n < |actions| :: ReportsAt(run, look, w, actions, n)
  }

  ghost predicate ReportsAt<S(!new), R, V>(run: Runner<S, R>, look: Look<S, V>, w: World<S>, actions: seq<Action>,
                                           n: nat)
    requires n < |actions|
  {
    AllReport(run, look, Ran(After(run, w, actions[..n]), actions[n]))
  }

  lemma {:induction false} RunKeeps<S(!new), R, V>(run: Runner<S, R>, look: Look<S, V>, w: World<S>,
                                                   actions: seq<Action>,
                                                   c: Conn, k: Key, v: V)
    requires Kept(look, w, c, k, v) && RunReports(run, look, w, actions) && Held(w.log, After(run, w, actions).log, c)
    ensures Kept(look, After(run, w, actions), c, k, v)
    decreases |actions|
  {
    if actions != [] {
      var n := |actions| - 1;
      var front, a := actions[..n], actions[n];
      var w' := After(run, w, front);
      forall i | 0 <= i < n ensures ReportsAt(run, look, w, front, i) {
        assert ReportsAt(run, look, w, actions, i) && front[..i] == actions[..i];
      }
      RunGrows(run, w, front);
      if a.Sends? { ServedGrows(run, w', a.conn, a.cmd); }
      HeldParts(w.log, w'.log, After(run, w, actions).log, c);
      RunKeeps(run, look, w, front, c, k, v);
      assert ReportsAt(run, look, w, actions, n);
      if a.Sends? {
        ServedKeeps(run, look, w', a.conn, a.cmd, c, k, v);
      } else {
        assert After(run, w, actions).log[|w'.log|] == Unwatched(a.conn);
      }
    }
  }

  // ---------------------------------------------------------------------------
  // What EXEC guarantees.
  // ---------------------------------------------------------------------------

  /** If EXEC is not null after these actions, the key is as it was before them. */
  ghost predicate Undisturbed<S, R, V>(run: Runner<S, R>, look: Look<S, V>, w: World<S>, actions: seq<Action>, c: Conn,
                                       k: Key) {
    var w' := After(run, w, actions);
    k in Of(w.table, c).watched && Held(w.log, w'.log, c) && Of(w'.table, c).inMulti
      && Served(run, w', c, Exec).1 != Null ==>
      look(w'.store, k) == look(w.store, k)
  }

  /** When the commands that ran in between reported what they changed, a transaction runs on its watched
   keys as they were. */
  lemma ReportedIsUndisturbed<S(!new), R, V>(run: Runner<S, R>, look: Look<S, V>, w: World<S>, actions: seq<Action>,
                                             c: Conn, k: Key)
    requires RunReports(run, look, w, actions)
    ensures Undisturbed(run, look, w, actions, c, k)
  {
    var w' := After(run, w, actions);
    if k in Of(w.table, c).watched && Held(w.log, w'.log, c) {
      RunKeeps(run, look, w, actions, c, k, look(w.store, k));
    }
  }

  /** WATCH by one client, then MULTI, then a command of another. */
  function Between(c: Conn, d: Conn, cmd: Command): seq<Action> { [Sends(c, Multi), Sends(d, cmd)] }

  function Watching<S>(s: S, c: Conn, k: Key): World<S> {
    World(map[c := FRESH.(watched := {k})], s, [Watched(c, {k})])
  }

  lemma WatchingIsReached<S, R>(run: Runner<S, R>, s: S, c: Conn, k: Key)
    ensures After(run, World(map[], s, []), [Sends(c, Watch([k]))]) == Watching(s, c, k)
  {
    var start := World(map[], s, []);
    var watch: seq<Action> := [Sends(c, Watch([k]))];
    assert watch[..0] == [] && After(run, start, watch[..0]) == start;
    assert KeySet([k]) == {k} && {} + {k} == {k};
    assert map[c := FRESH][c := FRESH.(watched := {k})] == map[c := FRESH.(watched := {k})];
  }

  /** A change that is not reported is missed: EXEC runs, though the watched key is another. */
  lemma ConcealedIsMissed<S(!new), R, V>(run: Runner<S, R>, look: Look<S, V>, s: S, cmd: Command, c: Conn, d: Conn,
                                         k: Key)
    requires cmd.Data? && Conceals(run, look, s, cmd, k) && c != d
    ensures var w' := After(run, Watching(s, c, k), Between(c, d, cmd));
      Served(run, w', c, Exec).1 == Results([]) && look(w'.store, k) != look(s, k)
    ensures !Undisturbed(run, look, Watching(s, c, k), Between(c, d, cmd), c, k)
  {
    var w, actions := Watching(s, c, k), Between(c, d, cmd);
    var first := actions[..1];
    assert first == [Sends(c, Multi)] && first[..0] == [] && After(run, w, first[..0]) == w;
    var w1 := After(run, w, first);
    assert w1 == Served(run, w, c, Multi).0;
    assert Of(w1.table, c) == Session(true, [], {k}, false) && w1.store == s && w1.log == w.log;
    var w' := After(run, w, actions);
    assert w' == Served(run, w1, d, cmd).0;
    var keys := KeySet(CommandKeys(cmd.name, cmd.args));
    if run(s, cmd.name, cmd.args).2 { assert {k} * keys == {}; }
    assert Of(w'.table, c) == Session(true, [], {k}, false);
  }

  /**
   Over all runs from an empty table, a transaction that is not null finds its watched keys as
   they were, if and only if every command reports the keys it changes.
   */
  lemma UndisturbedIff<S(!new), R, V>(run: Runner<S, R>, look: Look<S, V>)
    ensures (forall s: S, before: seq<Action>, after: seq<Action>, c: Conn, k: Key ::
               Undisturbed(run, look, After(run, World(map[], s, []), before), after, c, k))
       <==> forall name: string, args: seq<Key> :: Reports(run, look, Data(name, args))
  {
    if forall name: string, args: seq<Key> :: Reports(run, look, Data(name, args)) {
      forall s: S, before: seq<Action>, after: seq<Action>, c: Conn, k: Key
        ensures Undisturbed(run, look, After(run, World(map[], s, []), before), after, c, k)
      {
        var w := After(run, World(map[], s, []), before);
        forall n | 0 <= n < |after| ensures ReportsAt(run, look, w, after, n) {
          forall q | q in Ran(After(run, w, after[..n]), after[n]) && q.Data? ensures Reports(run, look, q) {
            assert Reports(run, look, Data(q.name, q.args));
          }
        }
        ReportedIsUndisturbed(run, look, w, after, c, k);
      }
    } else {
      var name: string, args: seq<Key> :| !Reports(run, look, Data(name, args));
      var s, k :| Conceals(run, look, s, Data(name, args), k);
      WatchingIsReached(run, s, [1], k);
      ConcealedIsMissed(run, look, s, Data(name, args), [1], [2], k);
    }
  }

  // ---------------------------------------------------------------------------
  // The commands that do not report.
  // ---------------------------------------------------------------------------

  /** A stream with the cursors of its groups, or a sorted set with its scores. */
  datatype Value =
    | StreamOf(entries: seq<Entry>, lastID: StreamId, groups: map<Key, bytes>)
    | Scores(scores: map<Key, real>)

  type Keys = map<Key, Value>

  const CREATE: Key := [67, 82, 69, 65, 84, 69]
  const GROUP: Key := [71, 82, 79, 85, 80]
  const STREAMS: Key := [83, 84, 82, 69, 65, 77, 83]
  const NEW: Key := [62]

  /** Where a new group begins: "$" is the last ID, or 0-0 while the stream is empty. */
  function Begin(s: Value, id: Key): bytes
    requires s.StreamOf?
  {
    if id == [36] then (if s.entries != [] then Text(s.lastID) else Text(StreamId(0, 0))) else id
  }

  lemma BeginMeans(s: Value, id: StreamId)
    requires s.StreamOf?
    ensures Begin(s, Text(id)) == Text(id)
    ensures Begin(s, [36]) == Text(if s.entries == [] then StreamId(0, 0) else s.lastID)
  {
    BoundOfText(id);
    assert Text(id)[|Text(id)| - 1] != 36 || |Text(id)| > 1;
    TextIsLong(id);
  }

  lemma TextIsLong(id: StreamId)
    ensures |Text(id)| > 1
  {
  }

  /** The cursor after a read: for ">" that of the last entry it delivers, if there is one. */
  function Moved(entries: seq<Entry>, cursor: bytes, id: Key): bytes {
    var r := Undelivered(entries, BoundOf(cursor));
    if id != NEW || r == [] then cursor else Text(r[|r| - 1].id)
  }

  /** The pairs of a ZADD up to the first score that is not a number. */
  function Added(number: Key -> Option<real>, scores: map<Key, real>, pairs: seq<Key>): (map<Key, real>, bool)
    requires |pairs| % 2 == 0
    decreases |pairs|
  {
    if pairs == [] then (scores, true)
    else
      match number(pairs[0])
      case None => (scores, false)
      case Some(score) => Added(number, scores[pairs[1] := score], pairs[2..])
  }

  /** XGROUP CREATE, XREADGROUP of one stream, ZADD and flushing. */
  function RunSome(number: Key -> Option<real>, store: Keys, name: string, args: seq<Key>): (Keys, bool, bool) {
    if name == "FLUSHDB" || name == "FLUSHALL" then (map[], true, true)
    else if name == "XGROUP" && |args| == 4 && args[0] == CREATE && args[1] in store then
      var (k, g, s) := (args[1], args[2], store[args[1]]);
      if s.Scores? || g in s.groups then (store, false, false)
      else (store[k := s.(groups := s.groups[g := Begin(s, args[3])])], true, true)
    else if name == "XREADGROUP" && |args| == 6 && args[0] == GROUP && args[3] == STREAMS && args[4] in store then
      var (g, k, s) := (args[1], args[4], store[args[4]]);
      if s.Scores? || g !in s.groups then (store, false, false)
      else (store[k := s.(groups := s.groups[g := Moved(s.entries, s.groups[g], args[5])])], true, false)
    else if name == "ZADD" && |args| >= 3 && |args| % 2 == 1 then
      var s := if args[0] in store then store[args[0]] else Scores(map[]);
      if !s.Scores? then (store, false, false)
      else
        var (scores, ok) := Added(number, s.scores, args[1..]);
        (store[args[0] := Scores(scores)], ok, ok)
    else (store, false, false)
  }

  function Running(number: Key -> Option<real>): Runner<Keys, bool> {
    (store, name, args) => RunSome(number, store, name, args)
  }

  function HeldAt(store: Keys, k: Key): Option<Value> { if k in store then Some(store[k]) else None }

  /** Flushing reports no key. */
  lemma FlushIsMissed(number: Key -> Option<real>, store: Keys, k: Key, args: seq<Key>, c: Conn, d: Conn)
    requires k in store && c != d
    ensures ConcealedBy(number, store, Data("FLUSHDB", args), k, c, d)
    ensures ConcealedBy(number, store, Data("FLUSHALL", args), k, c, d)
  {
    Missed(number, store, Data("FLUSHDB", args), k, c, d);
    Missed(number, store, Data("FLUSHALL", args), k, c, d);
  }

  /** XGROUP reports its sub-command in place of the stream. */
  lemma GroupChangeIsMissed(number: Key -> Option<real>, store: Keys, k: Key, g: Key, id: Key, c: Conn, d: Conn)
    requires k in store && store[k].StreamOf? && g !in store[k].groups && k != CREATE && c != d
    ensures ConcealedBy(number, store, Data("XGROUP", [CREATE, k, g, id]), k, c, d)
  {
    var args := [CREATE, k, g, id];
    FirstOnly("XGROUP", args);
    var (after, _, _) := RunSome(number, store, "XGROUP", args);
    assert g in after[k].groups;
    Missed(number, store, Data("XGROUP", args), k, c, d);
  }

  /** XREADGROUP counts as no write, but moves the group's cursor exactly for ">" with something to deliver. */
  lemma GroupReadIsMissedIff(number: Key -> Option<real>, store: Keys, k: Key, g: Key, consumer: Key, id: Key)
    requires k in store && store[k].StreamOf? && g in store[k].groups && Ascending(Ids(store[k].entries))
    ensures Conceals(Running(number), HeldAt, store, Data("XREADGROUP", [GROUP, g, consumer, STREAMS, k, id]), k)
       <==> id == NEW && Undelivered(store[k].entries, BoundOf(store[k].groups[g])) != []
  {
    ReadRuns(number, store, k, g, consumer, id);
    var s := store[k];
    CursorMoves(s.entries, s.groups[g]);
    GroupMoves(s, g, Moved(s.entries, s.groups[g], id));
  }

  lemma ReadRuns(number: Key -> Option<real>, store: Keys, k: Key, g: Key, consumer: Key, id: Key)
    requires k in store && store[k].StreamOf? && g in store[k].groups
    ensures var s := store[k];
      RunSome(number, store, "XREADGROUP", [GROUP, g, consumer, STREAMS, k, id]) ==
      (store[k := s.(groups := s.groups[g := Moved(s.entries, s.groups[g], id)])], true, false)
  {
  }

  lemma GroupMoves(s: Value, g: Key, cursor: bytes)
    requires s.StreamOf? && g in s.groups
    ensures s.(groups := s.groups[g := cursor]) != s <==> cursor != s.groups[g]
  {
    assert s.groups[g := s.groups[g]] == s.groups && s.groups[g := cursor][g] == cursor;
  }

  lemma CursorMoves(entries: seq<Entry>, cursor: bytes)
    requires Ascending(Ids(entries))
    ensures var r := Undelivered(entries, BoundOf(cursor)); r != [] ==> Text(r[|r| - 1].id) != cursor
  {
    var r := Undelivered(entries, BoundOf(cursor));
    NotAtLast(entries, BoundOf(cursor));
    if r != [] { BoundOfText(r[|r| - 1].id); }
  }

  lemma NotAtLast(entries: seq<Entry>, cursor: Bound)
    requires Ascending(Ids(entries))
    ensures var r := Undelivered(entries, cursor); r != [] ==> cursor != At(r[|r| - 1].id)
  {
    var k := UndeliveredIsRest(entries, cursor);
    if k < |entries| {
      LastIsNotBefore(Ids(entries), k);
      assert entries[k..][|entries| - 1 - k] == entries[|entries| - 1];
    }
  }

  lemma LastIsNotBefore(ids: seq<StreamId>, k: nat)
    requires Ascending(ids) && k < |ids|
    ensures !Before(ids[|ids| - 1], ids[k])
  {
    if k < |ids| - 1 { assert Rises(ids, k, |ids| - 1); }
  }

  lemma GroupReadIsMissed(number: Key -> Option<real>, store: Keys, k: Key, g: Key, consumer: Key, c: Conn, d: Conn)
    requires k in store && store[k].StreamOf? && g in store[k].groups && Ascending(Ids(store[k].entries)) && c != d
    requires Undelivered(store[k].entries, BoundOf(store[k].groups[g])) != []
    ensures ConcealedBy(number, store, Data("XREADGROUP", [GROUP, g, consumer, STREAMS, k, NEW]), k, c, d)
  {
    GroupReadIsMissedIff(number, store, k, g, consumer, NEW);
    Missed(number, store, Data("XREADGROUP", [GROUP, g, consumer, STREAMS, k, NEW]), k, c, d);
  }

  /** ZADD counts as no write exactly when it meets a score that is not a number, whatever it has stored by then. */
  lemma AddIsMissedIff(number: Key -> Option<real>, store: Keys, args: seq<Key>, k: Key)
    requires |args| >= 3 && |args| % 2 == 1
    ensures Conceals(Running(number), HeldAt, store, Data("ZADD", args), k) <==>
      && k == args[0] && (k in store ==> store[k].Scores?)
      && var (scores, ok) := Added(number, if k in store then store[k].scores else map[], args[1..]);
        !ok && (k in store ==> scores != store[k].scores)
  {
    var (after, _, wrote) := RunSome(number, store, "ZADD", args);
    assert CommandKeys("ZADD", args) == [args[0]];
  }

  /** ZADD k 1 a x b stores a, and fails. */
  lemma PartialAddIsMissed(number: Key -> Option<real>, store: Keys, k: Key, scores: map<Key, real>, c: Conn, d: Conn)
    requires k in store && store[k] == Scores(scores) && [97] !in scores && c != d
    requires number([49]) == Some(1.0) && number([120]) == None
    ensures ConcealedBy(number, store, Data("ZADD", [k, [49], [97], [120], [98]]), k, c, d)
  {
    var args := [k, [49], [97], [120], [98]];
    assert args[1..] == [[49], [97], [120], [98]] && args[1..][2..] == [[120], [98]];
    AddIsMissedIff(number, store, args, k);
    Missed(number, store, Data("ZADD", args), k, c, d);
  }

  lemma FirstOnly(name: string, args: seq<Key>)
    requires name == "XGROUP" && args != []
    ensures CommandKeys(name, args) == [args[0]]
  {
  }

  /** After WATCH k and MULTI by one client and the command by another, EXEC is not null, though the key has changed. */
  ghost predicate ConcealedBy(number: Key -> Option<real>, store: Keys, cmd: Command, k: Key, c: Conn, d: Conn) {
    var run := Running(number);
    var w := After(run, World(map[], store, []), [Sends(c, Watch([k]))]);
    var w' := After(run, w, Between(c, d, cmd));
    Served(run, w', c, Exec).1 == Results([]) && HeldAt(w'.store, k) != HeldAt(store, k)
  }

  lemma Missed(number: Key -> Option<real>, store: Keys, cmd: Command, k: Key, c: Conn, d: Conn)
    requires cmd.Data? && Conceals(Running(number), HeldAt, store, cmd, k) && c != d
    ensures ConcealedBy(number, store, cmd, k, c, d)
  {
    WatchingIsReached(Running(number), store, c, k);
    ConcealedIsMissed(Running(number), HeldAt, store, cmd, c, d, k);
  }
}
