/** WATCH, MULTI and EXEC, with the counter of watching clients that lets writes skip the session table. */
module Transactions {
  import opened Bytes
  import opened Decimal
  import opened Sessions

  /** A client session, shared by reference between the table and the connection. */
  class ClientSession {
    var inMulti: bool
    var txQueue: seq<Command>
    var watchedKeys: set<Key>
    var txAborted: bool

    constructor ()
      ensures View() == FRESH
    {
      inMulti, txQueue, watchedKeys, txAborted := false, [], {}, false;
    }

    function View(): Session
      reads this
    {
      Session(inMulti, txQueue, watchedKeys, txAborted)
    }
  }

  datatype Reply<R> = Done | Queued | Null | Error | Value(value: R) | Results(replies: seq<Reply<R>>)

  /** The keys that a command reports. */
  function CommandKeys(name: string, args: seq<Key>): seq<Key> {
    if args == [] || name in KEYLESS then []
    else if name == "EVAL" || name == "EVALSHA" then
      (if |args| < 2 then []
       else
         match ParseInt(args[1])
         case None => []
         case Some(n) => if n <= 0 || |args| < 2 + n then [] else args[2..2 + n])
    else if name == "MGET" || name == "DEL" || name == "EXISTS" then args
    else if name == "MSET" then EveryOther(args)
    else [args[0]]
  }

  function EveryOther(args: seq<Key>): seq<Key> {
    if args == [] then [] else [args[0]] + (if |args| == 1 then [] else EveryOther(args[2..]))
  }

  /** EVAL reports as many arguments behind its second as that one says, if there are so many. */
  lemma EvalKeys(script: Key, n: nat, keys: seq<Key>, more: seq<Key>)
    requires 0 < n == |keys| && n < TWO_63
    ensures var args := [script, PrintInt(n)] + keys + more;
      CommandKeys("EVAL", args) == keys && CommandKeys("EVALSHA", args) == keys
    ensures CommandKeys("EVAL", [script, PrintInt(n)] + keys[..n - 1]) == []
  {
    ParsePrintInt(n);
    var args := [script, PrintInt(n)] + keys + more;
    assert args[1] == PrintInt(n) && args[2..2 + n] == keys;
    assert ([script, PrintInt(n)] + keys[..n - 1])[1] == PrintInt(n);
  }

  /** MSET reports the arguments at even places. */
  lemma {:induction false} EveryOtherMeans(args: seq<Key>)
    ensures |EveryOther(args)| == (|args| + 1) / 2
    ensures forall i | 0 <= i < |EveryOther(args)| :: EveryOther(args)[i] == args[2 * i]
  {
    if |args| > 1 {
      EveryOtherMeans(args[2..]);
      assert forall i | 1 <= i < |EveryOther(args)| :: EveryOther(args)[i] == EveryOther(args[2..])[i - 1];
    }
  }

  const KEYLESS: set<string> := {
    "AUTH", "PING", "ECHO", "QUIT", "COMMAND", "CLIENT", "SELECT", "INFO", "DBSIZE",
    "TIME", "SLOWLOG", "MULTI", "EXEC", "DISCARD", "WATCH", "UNWATCH", "BGREWRITEAOF", "ACL",
    "FLUSHDB", "FLUSHALL", "CONFIG", "SHUTDOWN", "PUBSUB", "SUBSCRIBE", "UNSUBSCRIBE", "PSUBSCRIBE", "PUNSUBSCRIBE",
    "SAVE", "BGSAVE", "LASTSAVE", "CLUSTER", "REPLICAOF", "SLAVEOF", "REPLCONF", "ROLE", "SCRIPT", "WASM"}

  function KeySet(keys: seq<Key>): set<Key> { set k | k in keys }

  // ---------------------------------------------------------------------------
  // What the commands do.
  // ---------------------------------------------------------------------------

  /** The session table, the keyspace, and the history of watching and writing. */
  datatype World<S> = World(table: Table, store: S, log: seq<Event>)

  type Runner<!S, !R> = (S, string, seq<Key>) -> (S, R, bool)

  function Forget<S>(w: World<S>, c: Conn, s: Session): World<S> {
    w.(table := w.table[c := s.(watched := {}, aborted := false)], log := w.log + [Unwatched(c)])
  }

  /** A command outside MULTI, or one taken from the queue. */
  function Step<S, R>(run: Runner<S, R>, w: World<S>, c: Conn, cmd: Command): (World<S>, Reply<R>) {
    var s := Of(w.table, c);
    match cmd
    case Multi => (w.(table := w.table[c := s.(inMulti := true, queue := [])]), Done)
    case Exec => (w, Error)
    case Discard => (w, Error)
    case Unwatch => (Forget(w, c, s), Done)
    case Watch(keys) =>
      if s.inMulti || keys == [] then (w, Error)
      else
        var watched := s.(watched := s.watched + KeySet(keys));
        (w.(table := w.table[c := watched], log := w.log + [Watched(c, KeySet(keys))]), Done)
    case Data(name, args) =>
      var (store, r, wrote) := run(w.store, name, args);
      var keys := KeySet(CommandKeys(name, args));
      (if wrote then World(Touch(w.table, keys), store, w.log + [Wrote(keys)]) else w.(store := store), Value(r))
  }

  function Steps<S, R>(run: Runner<S, R>, w: World<S>, c: Conn, queue: seq<Command>): (World<S>, seq<Reply<R>>) {
    if queue == [] then (w, [])
    else
      var (w', replies) := Steps(run, w, c, queue[..|queue| - 1]);
      var (w'', reply) := Step(run, w', c, queue[|queue| - 1]);
      (w'', replies + [reply])
  }

  /** EXEC: forget the watches, then run the queue unless a watched key was reported. */
  function Executed<S, R>(run: Runner<S, R>, w: World<S>, c: Conn, s: Session): (World<S>, Reply<R>) {
    var w' := Forget(w, c, s.(inMulti := false, queue := []));
    if s.aborted then (w', Null)
    else
      var (w'', replies) := Steps(run, w', c, s.queue);
      (w'', Results(replies))
  }

  /** A command inside MULTI. */
  function Buffered<S, R>(run: Runner<S, R>, w: World<S>, c: Conn, s: Session, cmd: Command): (World<S>, Reply<R>) {
    match cmd
    case Exec => Executed(run, w, c, s)
    case Discard => (Forget(w, c, s.(inMulti := false, queue := [])), Done)
    case Multi => (w, Error)
    case _ => (w.(table := w.table[c := s.(queue := s.queue + [cmd])]), Queued)
  }

  /** A command from a client. */
  function Served<S, R>(run: Runner<S, R>, w: World<S>, c: Conn, cmd: Command): (World<S>, Reply<R>) {
    var s := Of(w.table, c);
    var w := w.(table := w.table[c := s]);
    if s.inMulti then Buffered(run, w, c, s, cmd) else Step(run, w, c, cmd)
  }

  // ---------------------------------------------------------------------------
  // The table follows the history through every run.
  // ---------------------------------------------------------------------------

  ghost predicate Sound<S>(w: World<S>) { Follows(w.table, w.log) }

  lemma StepSound<S, R>(run: Runner<S, R>, w: World<S>, c: Conn, cmd: Command)
    requires Sound(w)
    ensures Sound(Step(run, w, c, cmd).0)
  {
    var s := Of(w.table, c);
    match cmd
    case Multi => SameFollows(w.table, w.log, c, s.(inMulti := true, queue := []));
    case Exec =>
    case Discard =>
    case Unwatch => ForgetFollows(w.table, w.log, c, s.(watched := {}, aborted := false));
    case Watch(keys) => WatchFollows(w.table, w.log, c, KeySet(keys));
    case Data(name, args) => TouchFollows(w.table, w.log, KeySet(CommandKeys(name, args)));
  }

  lemma {:induction false} StepsSound<S, R>(run: Runner<S, R>, w: World<S>, c: Conn, queue: seq<Command>)
    requires Sound(w)
    ensures Sound(Steps(run, w, c, queue).0)
    decreases |queue|
  {
    if queue != [] {
      var front := queue[..|queue| - 1];
      StepsSound(run, w, c, front);
      StepSound(run, Steps(run, w, c, front).0, c, queue[|queue| - 1]);
    }
  }

  lemma ServedSound<S, R>(run: Runner<S, R>, w: World<S>, c: Conn, cmd: Command)
    requires Sound(w)
    ensures Sound(Served(run, w, c, cmd).0)
  {
    var s := Of(w.table, c);
    SameFollows(w.table, w.log, c, s);
    var v := w.(table := w.table[c := s]);
    if !s.inMulti {
      StepSound(run, v, c, cmd);
    } else if cmd.Exec? || cmd.Discard? {
      var idle := s.(inMulti := false, queue := []);
      ForgetFollows(v.table, v.log, c, idle.(watched := {}, aborted := false));
      StepsSound(run, Forget(v, c, idle), c, s.queue);
    } else {
      SameFollows(v.table, v.log, c, s.(queue := s.queue + [cmd]));
    }
  }

  /** Anything a client can do. */
  datatype Action = Sends(conn: Conn, cmd: Command) | Closes(conn: Conn)

  function After<S, R>(run: Runner<S, R>, w: World<S>, actions: seq<Action>): World<S> {
    if actions == [] then w
    else
      var w' := After(run, w, actions[..|actions| - 1]);
      match actions[|actions| - 1]
      case Sends(c, cmd) => Served(run, w', c, cmd).0
      case Closes(c) => w'.(table := w'.table - {c}, log := w'.log + [Unwatched(c)])
  }

  lemma {:induction false} RunSound<S, R>(run: Runner<S, R>, w: World<S>, actions: seq<Action>)
    requires Sound(w)
    ensures Sound(After(run, w, actions))
    decreases |actions|
  {
    if actions != [] {
      var front := actions[..|actions| - 1];
      RunSound(run, w, front);
      var w' := After(run, w, front);
      match actions[|actions| - 1]
      case Sends(c, cmd) => ServedSound(run, w', c, cmd);
      case Closes(c) => ForgetFollows(w'.table, w'.log, c, FRESH);
    }
  }

  /** The keyspace commands of a queue, one after the other. */
  function RunAll<S, R>(run: Runner<S, R>, store: S, queue: seq<Command>): (S, seq<Reply<R>>)
    requires forall q | q in queue :: q.Data?
  {
    if queue == [] then (store, [])
    else
      var (store', r, _) := run(store, queue[0].name, queue[0].args);
      var (store'', replies) := RunAll(run, store', queue[1..]);
      (store'', [Value(r)] + replies)
  }

  lemma {:induction false} RunAllLast<S, R>(run: Runner<S, R>, store: S, queue: seq<Command>, last: Command)
    requires (forall q | q in queue :: q.Data?) && last.Data?
    ensures var (s1, replies) := RunAll(run, store, queue);
      var (s2, r, _) := run(s1, last.name, last.args);
      RunAll(run, store, queue + [last]) == (s2, replies + [Value(r)])
    decreases |queue|
  {
    if queue == [] {
      assert queue + [last] == [last] && ([last])[1..] == [];
      var v: seq<Reply<R>> := [Value(run(store, last.name, last.args).1)];
      assert v + [] == [] + v;
    } else {
      assert (queue + [last])[1..] == queue[1..] + [last];
      var (store', r0, _) := run(store, queue[0].name, queue[0].args);
      RunAllLast(run, store', queue[1..], last);
      var (s1, replies) := RunAll(run, store', queue[1..]);
      Associates([Value(r0)], replies, [Value(run(s1, last.name, last.args).1)]);
    }
  }

  /** The keyspace commands among the queued ones, which may also watch and give up watching. */
  function DataOf(queue: seq<Command>): (r: seq<Command>)
    ensures forall q | q in r :: q.Data?
  {
    if queue == [] then []
    else
      var last := queue[|queue| - 1];
      DataOf(queue[..|queue| - 1]) + (if last.Data? then [last] else [])
  }

  /** Their replies. */
  function DataReplies<R>(queue: seq<Command>, replies: seq<Reply<R>>): seq<Reply<R>>
    requires |replies| == |queue|
  {
    if queue == [] then []
    else
      var n := |queue| - 1;
      DataReplies(queue[..n], replies[..n]) + (if queue[n].Data? then [replies[n]] else [])
  }

  /** Whatever is queued, the keyspace commands run in order on the keyspace, and the others leave it alone. */
  lemma {:induction false} StepsRunAll<S, R>(run: Runner<S, R>, w: World<S>, c: Conn, queue: seq<Command>)
    ensures var (w', replies) := Steps(run, w, c, queue);
      |replies| == |queue| && RunAll(run, w.store, DataOf(queue)) == (w'.store, DataReplies(queue, replies))
    decreases |queue|
  {
    if queue != [] {
      var n := |queue| - 1;
      var front, last := queue[..n], queue[n];
      StepsRunAll(run, w, c, front);
      var (w1, replies) := Steps(run, w, c, front);
      var (w2, reply) := Step(run, w1, c, last);
      assert (replies + [reply])[..n] == replies;
      if last.Data? {
        RunAllLast(run, w.store, DataOf(front), last);
      } else {
        assert DataOf(front) + [] == DataOf(front) && DataReplies(front, replies) + [] == DataReplies(front, replies);
      }
    }
  }

  /**
   In every run from an empty table, EXEC answers null and runs nothing exactly when a write
   reported a key that the client was watching at that moment and is still watching; otherwise
   the queued commands run in order on the keyspace as it is.
   */
  lemma ExecIsNullIffInterfered<S, R>(run: Runner<S, R>, store: S, actions: seq<Action>, c: Conn)
    requires Of(After(run, World(map[], store, []), actions).table, c).inMulti
    ensures var w := After(run, World(map[], store, []), actions);
      var queue := w.table[c].queue;
      var (w', reply) := Served(run, w, c, Exec);
      && (reply == Null <==> Interfered(w.log, c))
      && (reply == Null ==> w'.store == w.store)
      && (reply != Null ==>
            && reply.Results? && |reply.replies| == |queue|
            && RunAll(run, w.store, DataOf(queue)) == (w'.store, DataReplies(queue, reply.replies)))
  {
    var start := World(map[], store, []);
    forall d: Conn ensures FollowsFor(start.table, start.log, d) { }
    RunSound(run, start, actions);
    var w := After(run, start, actions);
    assert FollowsFor(w.table, w.log, c);
    DirtyMeaning(w.log, c);
    var s := w.table[c];
    assert w.table[c := s] == w.table;
    StepsRunAll(run, Forget(w, c, s.(inMulti := false, queue := [])), c, s.queue);
  }

  // ---------------------------------------------------------------------------
  // The queue is what the client sent.
  // ---------------------------------------------------------------------------

  /** Nothing that others do reaches a client's queue. */
  ghost predicate SameQueue(t: Table, u: Table, c: Conn) {
    Of(t, c).inMulti == Of(u, c).inMulti && Of(t, c).queue == Of(u, c).queue
  }

  lemma {:induction false} StepsOfOthers<S, R>(run: Runner<S, R>, w: World<S>, d: Conn, queue: seq<Command>, c: Conn)
    requires c != d
    ensures SameQueue(w.table, Steps(run, w, d, queue).0.table, c)
    decreases |queue|
  {
    if queue != [] { StepsOfOthers(run, w, d, queue[..|queue| - 1], c); }
  }

  lemma OthersServed<S, R>(run: Runner<S, R>, w: World<S>, d: Conn, cmd: Command, c: Conn)
    requires c != d
    ensures SameQueue(w.table, Served(run, w, d, cmd).0.table, c)
  {
    var s := Of(w.table, d);
    var v := w.(table := w.table[d := s]);
    StepsOfOthers(run, Forget(v, d, s.(inMulti := false, queue := [])), d, s.queue, c);
  }

  /** The client neither ends the transaction nor goes away. */
  predicate Continues(a: Action, c: Conn) {
    a.conn == c ==> a.Sends? && !a.cmd.Exec? && !a.cmd.Discard?
  }

  /** What the client sent for the queue. */
  function SentBy(actions: seq<Action>, c: Conn): seq<Command> {
    if actions == [] then []
    else
      var a := actions[|actions| - 1];
      SentBy(actions[..|actions| - 1], c) + (if a.Sends? && a.conn == c && !a.cmd.Multi? then [a.cmd] else [])
  }

  /** After MULTI, the queue is exactly what the client has sent since, in order, whatever others did meanwhile. */
  lemma {:induction false} QueueIsWhatWasSent<S, R>(run: Runner<S, R>, w: World<S>, actions: seq<Action>, c: Conn)
    requires Of(w.table, c).inMulti && Of(w.table, c).queue == [] && forall a | a in actions :: Continues(a, c)
    ensures var t := After(run, w, actions).table; Of(t, c).inMulti && Of(t, c).queue == SentBy(actions, c)
    decreases |actions|
  {
    if actions != [] {
      var front, a := actions[..|actions| - 1], actions[|actions| - 1];
      QueueIsWhatWasSent(run, w, front, c);
      assert a in actions;
      if a.conn != c && a.Sends? { OthersServed(run, After(run, w, front), a.conn, a.cmd, c); }
    }
  }

  ghost predicate Apart(sessions: map<Conn, ClientSession>, c: Conn, d: Conn) {
    c in sessions && d in sessions && c != d ==> sessions[c] != sessions[d]
  }

  /** The table is what the session objects hold. */
  ghost predicate Shows(sessions: map<Conn, ClientSession>, table: Table, c: Conn)
    reads sessions.Values
  {
    c in sessions && c in table ==> sessions[c].View() == table[c]
  }

  class Engine<S, R> {
    /** What a data command does to the keyspace, what it answers, and whether it wrote. */
    const run: (S, string, seq<Key>) -> (S, R, bool)
    var clientSessions: map<Conn, ClientSession>
    var watchedCount: int
    var keyspace: S
    ghost var table: Table
    ghost var log: seq<Event>

    /** No two clients share a session object, and the table mirrors the objects. */
    ghost predicate Mirrored()
      reads this`clientSessions, this`table, clientSessions.Values
    {
      && (forall c, d {:trigger Apart(clientSessions, c, d)} :: Apart(clientSessions, c, d))
      && table.Keys == clientSessions.Keys
      && forall c {:trigger Shows(clientSessions, table, c)} :: Shows(clientSessions, table, c)
    }

    /** The counter is the number of watching clients, and the table is what the history says. */
    ghost predicate Valid()
      reads this, clientSessions.Values
    {
      Mirrored() && watchedCount == |Watchers(table)| && Follows(table, log)
    }

    ghost function Abs(): World<S>
      reads this
    {
      World(table, keyspace, log)
    }

    constructor (run: (S, string, seq<Key>) -> (S, R, bool), keyspace: S)
      ensures Valid() && this.run == run && Abs() == World(map[], keyspace, []) && clientSessions == map[]
    {
      this.run, this.keyspace, clientSessions, watchedCount, table, log := run, keyspace, map[], 0, map[], [];
      new;
      assert Watchers(table) == {};
      forall c: Conn ensures FollowsFor(table, log, c) { }
    }

    /** A session is created on first use. */
    method GetClientSession(conn: Conn) returns (s: ClientSession)
      requires Valid()
      modifies this
      ensures Valid() && conn in clientSessions && s == clientSessions[conn]
      ensures (s in old(clientSessions).Values || fresh(s))
      ensures clientSessions.Values <= old(clientSessions).Values + {s}
      ensures Abs() == old(Abs()).(table := old(table)[conn := Of(old(table), conn)]) && s.View() == table[conn]
    {
      assert Shows(clientSessions, table, conn);
      if conn in clientSessions {
        assert table[conn := table[conn]] == table;
        return clientSessions[conn];
      }
      s := new ClientSession();
      WatchersChange(table, conn, FRESH);
      SameFollows(table, log, conn, FRESH);
      ghost var sessions, t := clientSessions[conn := s], table[conn := FRESH];
      forall c, d ensures Apart(sessions, c, d) { assert Apart(clientSessions, c, d); }
      forall c ensures Shows(sessions, t, c) { assert Shows(clientSessions, table, c); }
      clientSessions, table := clientSessions[conn := s], t;
    }

    method ClearClientSession(conn: Conn)
      requires Valid()
      modifies this
      ensures Valid() && clientSessions == old(clientSessions) - {conn} && keyspace == old(keyspace)
      ensures table == old(table) - {conn} && log == old(log) + [Unwatched(conn)]
    {
      WatchersChange(table, conn, FRESH);
      ForgetFollows(table, log, conn, FRESH);
      assert Shows(clientSessions, table, conn);
      if conn in clientSessions && clientSessions[conn].watchedKeys != {} { watchedCount := watchedCount - 1; }
      clientSessions, table, log := clientSessions - {conn}, table - {conn}, log + [Unwatched(conn)];
      forall c, d ensures Apart(clientSessions, c, d) { assert old(Apart(clientSessions, c, d)); }
      forall c ensures Shows(clientSessions, table, c) { assert old(Shows(clientSessions, table, c)); }
    }

    /** Only this session was changed, to what the table now says. */
    twostate lemma OneChanged(conn: Conn)
      requires old(Mirrored()) && clientSessions == old(clientSessions) && conn in clientSessions
      requires forall c | c in clientSessions && clientSessions[c] != clientSessions[conn] ::
        clientSessions[c].View() == old(clientSessions[c].View())
      requires table == old(table)[conn := clientSessions[conn].View()]
      ensures Mirrored()
    {
      forall c ensures Shows(clientSessions, table, c) {
        assert Apart(clientSessions, c, conn) && old(Shows(clientSessions, table, c));
      }
    }

    /** Replaces what a session watches. */
    method SetWatch(conn: Conn, keys: set<Key>, aborted: bool)
      requires Mirrored() && conn in clientSessions
      modifies this`table, clientSessions[conn]
      ensures Mirrored() && table == old(table)[conn := old(table)[conn].(watched := keys, aborted := aborted)]
    {
      assert Shows(clientSessions, table, conn);
      clientSessions[conn].watchedKeys, clientSessions[conn].txAborted := keys, aborted;
      table := table[conn := table[conn].(watched := keys, aborted := aborted)];
      OneChanged(conn);
    }

    /** Replaces what a session remembers of MULTI. */
    method SetBuffer(conn: Conn, inMulti: bool, queue: seq<Command>)
      requires Valid() && conn in clientSessions
      modifies this`table, clientSessions[conn]
      ensures Valid() && table == old(table)[conn := old(table)[conn].(inMulti := inMulti, queue := queue)]
    {
      assert Shows(clientSessions, table, conn);
      clientSessions[conn].inMulti, clientSessions[conn].txQueue := inMulti, queue;
      WatchersChange(table, conn, clientSessions[conn].View());
      SameFollows(table, log, conn, clientSessions[conn].View());
      table := table[conn := clientSessions[conn].View()];
      OneChanged(conn);
    }

    /** The end of watching, at EXEC, DISCARD and UNWATCH. */
    method StopWatching(conn: Conn)
      requires Valid() && conn in clientSessions
      modifies this`table, this`watchedCount, this`log, clientSessions[conn]
      ensures Valid() && Abs() == Forget(old(Abs()), conn, old(table)[conn])
    {
      assert Shows(clientSessions, table, conn);
      WatchersChange(table, conn, table[conn].(watched := {}, aborted := false));
      ForgetFollows(table, log, conn, table[conn].(watched := {}, aborted := false));
      if clientSessions[conn].watchedKeys != {} { watchedCount := watchedCount - 1; }
      SetWatch(conn, {}, false);
      log := log + [Unwatched(conn)];
    }

    method StartWatching(conn: Conn, keys: seq<Key>)
      requires Valid() && conn in clientSessions && keys != []
      modifies this`table, this`watchedCount, this`log, clientSessions[conn]
      ensures Valid()
      ensures table == old(table)[conn := old(table)[conn].(watched := old(table)[conn].watched + KeySet(keys))]
      ensures log == old(log) + [Watched(conn, KeySet(keys))]
    {
      assert Shows(clientSessions, table, conn);
      assert keys[0] in table[conn].watched + KeySet(keys);
      WatchersChange(table, conn, table[conn].(watched := table[conn].watched + KeySet(keys)));
      WatchFollows(table, log, conn, KeySet(keys));
      if clientSessions[conn].watchedKeys == {} { watchedCount := watchedCount + 1; }
      SetWatch(conn, clientSessions[conn].watchedKeys + KeySet(keys), clientSessions[conn].txAborted);
      log := log + [Watched(conn, KeySet(keys))];
    }

    /** Marks one session if it watches the key. */
    method TouchOne(conn: Conn, key: Key)
      requires Mirrored() && conn in clientSessions
      modifies this`table, clientSessions[conn]
      ensures Mirrored()
      ensures table == old(table)[conn := Touched(old(table)[conn], {key})]
    {
      assert Shows(clientSessions, table, conn);
      TouchedByOne(table[conn], key);
      if key in clientSessions[conn].watchedKeys {
        SetWatch(conn, clientSessions[conn].watchedKeys, true);
      } else {
        assert table == table[conn := table[conn]];
      }
    }

    /** Marks every session that watches the key. */
    method TouchWatchedKey(key: Key)
      requires Mirrored() && watchedCount == |Watchers(table)|
      modifies this`table, clientSessions.Values
      ensures Mirrored() && table == Touch(old(table), {key})
    {
      if watchedCount <= 0 {
        TouchNobody(table, {key});
        return;
      }
      TouchEverySession(key);
    }

    method TouchEverySession(key: Key)
      requires Mirrored()
      modifies this`table, clientSessions.Values
      ensures Mirrored() && table == Touch(old(table), {key})
    {
      ghost var before := table;
      var rest := clientSessions.Keys;
      while rest != {}
        invariant rest <= clientSessions.Keys && Mirrored() && TouchedBut(before, table, key, rest)
        decreases rest
      {
        var c :| c in rest;
        TouchOneMore(before, table, key, rest, c);
        TouchOne(c, key);
        rest := rest - {c};
      }
      TouchedAll(before, table, key);
    }

    method TouchAll(keys: seq<Key>)
      requires Mirrored() && watchedCount == |Watchers(table)|
      modifies this`table, clientSessions.Values
      ensures Mirrored() && table == Touch(old(table), KeySet(keys))
    {
      TouchNothing(table);
      for i := 0 to |keys|
        invariant Mirrored() && table == Touch(old(table), KeySet(keys[..i]))
      {
        TouchKeepsWatchers(old(table), KeySet(keys[..i]));
        TouchTwice(old(table), KeySet(keys[..i]), {keys[i]});
        assert KeySet(keys[..i + 1]) == KeySet(keys[..i]) + {keys[i]} by {
          assert keys[..i + 1] == keys[..i] + [keys[i]];
        }
        TouchWatchedKey(keys[i]);
      }
      assert keys[..|keys|] == keys;
    }

    /** After a write, the keys are reported, unless nobody watches. */
    method Report(name: string, args: seq<Key>)
      requires Valid()
      modifies this`table, this`log, clientSessions.Values
      ensures Valid()
      ensures var keys := KeySet(CommandKeys(name, args));
        table == Touch(old(table), keys) && log == old(log) + [Wrote(keys)]
    {
      ghost var all := KeySet(CommandKeys(name, args));
      TouchFollows(table, log, all);
      TouchKeepsWatchers(table, all);
      if watchedCount > 0 {
        TouchAll(CommandKeys(name, args));
      } else {
        TouchNobody(table, all);
      }
      log := log + [Wrote(all)];
    }

    /** One command outside MULTI or from the queue, and the reporting of its keys. */
    method Dispatch(conn: Conn, cmd: Command) returns (reply: Reply<R>)
      requires Valid() && conn in clientSessions
      modifies this`table, this`watchedCount, this`log, this`keyspace, clientSessions.Values
      ensures Valid() && (Abs(), reply) == Step(run, old(Abs()), conn, cmd)
    {
      match cmd
      case Multi =>
        SetBuffer(conn, true, []);
        reply := Done;
      case Exec => reply := Error;
      case Discard => reply := Error;
      case Unwatch =>
        StopWatching(conn);
        reply := Done;
      case Watch(keys) =>
        assert Shows(clientSessions, table, conn);
        if clientSessions[conn].inMulti || keys == [] { return Error; }
        StartWatching(conn, keys);
        reply := Done;
      case Data(name, args) =>
        var (store, r, wrote) := run(keyspace, name, args);
        keyspace := store;
        if wrote { Report(name, args); }
        reply := Value(r);
    }

    method RunQueue(conn: Conn, queue: seq<Command>) returns (replies: seq<Reply<R>>)
      requires Valid() && conn in clientSessions
      modifies this`table, this`watchedCount, this`log, this`keyspace, clientSessions.Values
      ensures Valid() && (Abs(), replies) == Steps(run, old(Abs()), conn, queue)
    {
      replies := [];
      for i := 0 to |queue|
        invariant Valid() && (Abs(), replies) == Steps(run, old(Abs()), conn, queue[..i])
      {
        assert queue[..i + 1][..i] == queue[..i];
        var reply := Dispatch(conn, queue[i]);
        replies := replies + [reply];
      }
      assert queue[..|queue|] == queue;
    }

    /** Leaves MULTI and stops watching. */
    method Reset(conn: Conn)
      requires Valid() && conn in clientSessions
      modifies this`table, this`watchedCount, this`log, clientSessions[conn]
      ensures Valid() && Abs() == Forget(old(Abs()), conn, old(table)[conn].(inMulti := false, queue := []))
    {
      ghost var t := table;
      SetBuffer(conn, false, []);
      StopWatching(conn);
      PutTwice(t, conn, t[conn].(inMulti := false, queue := []), table[conn]);
    }

    method ExecuteTransaction(conn: Conn) returns (reply: Reply<R>)
      requires Valid() && conn in clientSessions
      modifies this`table, this`watchedCount, this`log, this`keyspace, clientSessions.Values
      ensures Valid() && (Abs(), reply) == Executed(run, old(Abs()), conn, old(table)[conn])
    {
      assert Shows(clientSessions, table, conn);
      var queue, aborted := clientSessions[conn].txQueue, clientSessions[conn].txAborted;
      Reset(conn);
      if aborted { return Null; }
      var replies := RunQueue(conn, queue);
      reply := Results(replies);
    }

    method ExecuteInMulti(conn: Conn, cmd: Command) returns (reply: Reply<R>)
      requires Valid() && conn in clientSessions && clientSessions[conn].inMulti
      modifies this`table, this`watchedCount, this`log, this`keyspace, clientSessions.Values
      ensures Valid() && (Abs(), reply) == Buffered(run, old(Abs()), conn, old(table)[conn], cmd)
    {
      assert Shows(clientSessions, table, conn);
      match cmd
      case Exec => reply := ExecuteTransaction(conn);
      case Discard =>
        Reset(conn);
        reply := Done;
      case Multi => reply := Error;
      case _ =>
        SetBuffer(conn, true, clientSessions[conn].txQueue + [cmd]);
        reply := Queued;
    }

    /** A command from a client. */
    method Execute(conn: Conn, cmd: Command) returns (reply: Reply<R>)
      requires Valid()
      modifies this, clientSessions.Values
      ensures Valid() && (Abs(), reply) == Served(run, old(Abs()), conn, cmd)
    {
      var s := GetClientSession(conn);
      if s.inMulti {
        reply := ExecuteInMulti(conn, cmd);
      } else {
        reply := Dispatch(conn, cmd);
      }
    }

    /**
     The reactor's short cut for simple writes, with its own way of writing: while nobody watches it
     skips the sessions, and nobody can tell, as long as it answers like the full path and that one writes.
     */
    method FastWrite(conn: Conn, name: string, args: seq<Key>, fast: Shortcut<S, R>) returns (reply: Option<R>)
      requires Valid() && AnswersLike(fast, run, keyspace, name, args)
      modifies this`keyspace, this`log
      ensures Valid()
      ensures reply.None? ==> Abs() == old(Abs())
      ensures reply.Some? ==> fast(old(keyspace), name, args) == Some((keyspace, reply.value))
      ensures reply.Some? ==> LikeServed(Abs(), reply.value, Served(run, old(Abs()), conn, Data(name, args)))
      ensures reply.None? <==>
        Of(table, conn).inMulti || Watchers(table) != {} || fast(old(keyspace), name, args).None?
    {
      assert Shows(clientSessions, table, conn);
      if (conn in clientSessions && clientSessions[conn].inMulti) || watchedCount != 0 { return None; }
      var done := fast(keyspace, name, args);
      if done.None? { return None; }
      FastLikeServed(run, Abs(), conn, name, args, done.value.0);
      UnwatchedWriteFollows(table, log, KeySet(CommandKeys(name, args)));
      keyspace := done.value.0;
      log := log + [Wrote(KeySet(CommandKeys(name, args)))];
      reply := Some(done.value.1);
    }
  }

  /** The key has been touched for all clients but the rest. */
  ghost predicate TouchedBut(before: Table, now: Table, key: Key, rest: set<Conn>) {
    && now.Keys == before.Keys
    && forall c | c in before :: now[c] == if c in rest then before[c] else Touched(before[c], {key})
  }

  lemma TouchOneMore(before: Table, now: Table, key: Key, rest: set<Conn>, c: Conn)
    requires TouchedBut(before, now, key, rest) && c in rest && c in before
    ensures TouchedBut(before, now[c := Touched(now[c], {key})], key, rest - {c})
  {
  }

  lemma TouchedAll(before: Table, now: Table, key: Key)
    requires TouchedBut(before, now, key, {})
    ensures now == Touch(before, {key})
  {
  }

  lemma TouchedByOne(s: Session, key: Key)
    ensures Touched(s, {key}) == if key in s.watched then s.(aborted := true) else s
  {
    if key in s.watched {
      assert key in s.watched * {key};
    } else {
      assert s.watched * {key} == {};
    }
  }

  lemma PutTwice(t: Table, c: Conn, a: Session, b: Session)
    ensures t[c := a][c := b] == t[c := b]
  {
  }

  /** A way of doing a command without the sessions, where there is one. */
  type Shortcut<!S, !R> = (S, string, seq<Key>) -> Option<(S, R)>

  /** Where there is a short cut, it gives the full path's answer, and the full path writes. */
  ghost predicate AnswersLike<S, R>(fast: Shortcut<S, R>, run: Runner<S, R>, store: S, name: string, args: seq<Key>) {
    fast(store, name, args).Some? ==>
      run(store, name, args).2 && run(store, name, args).1 == fast(store, name, args).value.1
  }

  /** The same answer and history, and the same session for everybody; the keyspace is left aside. */
  ghost predicate LikeServed<S, R>(w: World<S>, r: R, served: (World<S>, Reply<R>)) {
    && served.1 == Value(r) && w.log == served.0.log
    && forall c: Conn :: Of(w.table, c) == Of(served.0.table, c)
  }

  /** While nobody watches, a write that skips the sessions does to them and to the history what the full path does. */
  lemma FastLikeServed<S, R>(run: Runner<S, R>, w: World<S>, conn: Conn, name: string, args: seq<Key>, store: S)
    requires Watchers(w.table) == {} && !Of(w.table, conn).inMulti && run(w.store, name, args).2
    ensures var log := w.log + [Wrote(KeySet(CommandKeys(name, args)))];
      LikeServed(World(w.table, store, log), run(w.store, name, args).1, Served(run, w, conn, Data(name, args)))
  {
    var t := w.table[conn := Of(w.table, conn)];
    forall c | c in t ensures t[c].watched == {} {
      if c in w.table { assert c !in Watchers(w.table); }
    }
    assert Watchers(t) == {};
    TouchNobody(t, KeySet(CommandKeys(name, args)));
  }

  lemma TouchNothing(t: Table)
    ensures Touch(t, {}) == t && KeySet([]) == {}
  {
    forall c | c in t ensures t[c].watched * {} == {} { }
  }
}

