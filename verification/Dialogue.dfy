/** What clients see of MULTI, WATCH, EXEC and DISCARD, in terms of what they and others sent. */
module Dialogue {
  import opened Bytes
  import opened Sessions
  import opened Transactions

  // ---------------------------------------------------------------------------
  // Over whole runs: which transaction is open, and what is in it.
  // ---------------------------------------------------------------------------

  /** The client sent MULTI at this point, and has neither ended a transaction nor gone away since. */
  predicate Began(actions: seq<Action>, c: Conn, m: nat) {
    && m < |actions| && actions[m] == Sends(c, Multi)
    && forall j | m < j < |actions| :: Continues(actions[j], c)
  }

  /** The first such point is where the open transaction began; a MULTI inside it is refused. */
  predicate Opens(actions: seq<Action>, c: Conn, m: nat) {
    Began(actions, c, m) && forall i | 0 <= i < m :: !Began(actions, c, i)
  }

  lemma BeganLast(actions: seq<Action>, a: Action, c: Conn, m: nat)
    ensures Began(actions + [a], c, m) <==>
      if m == |actions| then a == Sends(c, Multi) else Began(actions, c, m) && Continues(a, c)
  {
    var more := actions + [a];
    if m < |actions| {
      assert more[m] == actions[m] && more[|actions|] == a;
      if Began(actions, c, m) && Continues(a, c) {
        forall j | m < j < |more| ensures Continues(more[j], c) {
          if j < |actions| { assert more[j] == actions[j]; }
        }
      }
      if Began(more, c, m) {
        forall j | m < j < |actions| ensures Continues(actions[j], c) { assert more[j] == actions[j]; }
      }
    }
  }

  /** The transaction that the actions leave open for the client, with what was sent in it. */
  ghost predicate HasOpen(actions: seq<Action>, c: Conn, s: Session) {
    if s.inMulti then exists m :: Opens(actions, c, m) && s.queue == SentBy(actions[m + 1..], c)
    else s.queue == [] && forall m :: !Began(actions, c, m)
  }

  /** One more action that does not end the client's transaction. */
  lemma StaysOpen(actions: seq<Action>, a: Action, c: Conn, m: nat)
    requires Opens(actions, c, m) && Continues(a, c)
    ensures Opens(actions + [a], c, m)
    ensures SentBy((actions + [a])[m + 1..], c) == SentBy(actions[m + 1..], c) +
      if a.conn == c && !a.cmd.Multi? then [a.cmd] else []
  {
    BeganLast(actions, a, c, m);
    forall i | 0 <= i < m ensures !Began(actions + [a], c, i) { BeganLast(actions, a, c, i); }
    var tail := actions[m + 1..];
    assert (actions + [a])[m + 1..] == tail + [a] && (tail + [a])[..|tail|] == tail;
  }

  lemma NoneOpen(actions: seq<Action>, a: Action, c: Conn)
    requires a != Sends(c, Multi) && (!Continues(a, c) || forall m :: !Began(actions, c, m))
    ensures forall m :: !Began(actions + [a], c, m)
  {
    forall m: nat ensures !Began(actions + [a], c, m) { BeganLast(actions, a, c, m); }
  }

  lemma FirstOpen(actions: seq<Action>, c: Conn)
    requires forall m :: !Began(actions, c, m)
    ensures Opens(actions + [Sends(c, Multi)], c, |actions|)
  {
    var a := Sends(c, Multi);
    BeganLast(actions, a, c, |actions|);
    forall i | 0 <= i < |actions| ensures !Began(actions + [a], c, i) { BeganLast(actions, a, c, i); }
  }

  /**
   In every run from an empty table, a client is in MULTI exactly when it sent MULTI and since then neither EXEC nor
   DISCARD and did not go away; its queue is what it sent since the first such MULTI, and empty otherwise.
   */
  lemma {:induction false} TransactionIsWhatWasSent<S, R>(run: Runner<S, R>, store: S, actions: seq<Action>, c: Conn)
    ensures HasOpen(actions, c, Of(After(run, World(map[], store, []), actions).table, c))
    decreases |actions|
  {
    if actions != [] {
      var front, a := actions[..|actions| - 1], actions[|actions| - 1];
      assert actions == front + [a];
      TransactionIsWhatWasSent(run, store, front, c);
      OpenStep(run, After(run, World(map[], store, []), front), front, a, c);
    }
  }

  function Acted<S, R>(run: Runner<S, R>, w: World<S>, a: Action): World<S> {
    match a
    case Sends(c, cmd) => Served(run, w, c, cmd).0
    case Closes(c) => w.(table := w.table - {c}, log := w.log + [Unwatched(c)])
  }

  /** Nothing that was sent for the queue begins a transaction. */
  lemma {:induction false} SentByPlain(actions: seq<Action>, c: Conn)
    ensures forall q | q in SentBy(actions, c) :: !q.Multi?
    decreases |actions|
  {
    if actions != [] { SentByPlain(actions[..|actions| - 1], c); }
  }

  lemma {:induction false} StepsKeepQueue<S, R>(run: Runner<S, R>, w: World<S>, c: Conn, queue: seq<Command>)
    requires forall q | q in queue :: !q.Multi?
    ensures SameQueue(w.table, Steps(run, w, c, queue).0.table, c)
    decreases |queue|
  {
    if queue != [] {
      StepsKeepQueue(run, w, c, queue[..|queue| - 1]);
      assert queue[|queue| - 1] in queue;
    }
  }

  lemma OpenStep<S, R>(run: Runner<S, R>, w: World<S>, front: seq<Action>, a: Action, c: Conn)
    requires HasOpen(front, c, Of(w.table, c))
    ensures HasOpen(front + [a], c, Of(Acted(run, w, a).table, c))
  {
    var s, s' := Of(w.table, c), Of(Acted(run, w, a).table, c);
    if s.inMulti {
      var m :| Opens(front, c, m) && s.queue == SentBy(front[m + 1..], c);
      SentByPlain(front[m + 1..], c);
    }
    SessionStep(run, w, a, c);
    if s'.inMulti {
      if s.inMulti {
        var m :| Opens(front, c, m) && s.queue == SentBy(front[m + 1..], c);
        StaysOpen(front, a, c, m);
        assert Opens(front + [a], c, m) && s'.queue == SentBy((front + [a])[m + 1..], c);
      } else {
        FirstOpen(front, c);
        assert (front + [a])[|front| + 1..] == [];
        assert Opens(front + [a], c, |front|) && s'.queue == SentBy((front + [a])[|front| + 1..], c);
      }
    } else {
      NoneOpen(front, a, c);
    }
  }

  /** One action, as it concerns the client's transaction. */
  lemma SessionStep<S, R>(run: Runner<S, R>, w: World<S>, a: Action, c: Conn)
    requires !Of(w.table, c).inMulti ==> Of(w.table, c).queue == []
    requires forall q | q in Of(w.table, c).queue :: !q.Multi?
    ensures var s, s' := Of(w.table, c), Of(Acted(run, w, a).table, c);
      && s'.inMulti == (if s.inMulti then Continues(a, c) else a == Sends(c, Multi))
      && s'.queue == if !s'.inMulti then [] else if s.inMulti && a.conn == c && !a.cmd.Multi? then s.queue + [a.cmd]
                     else s.queue
  {
    if a.Sends? && a.conn != c {
      OthersServed(run, w, a.conn, a.cmd, c);
    } else if a == Sends(c, Exec) && Of(w.table, c).inMulti {
      var s := Of(w.table, c);
      var v := w.(table := w.table[c := s]);
      StepsKeepQueue(run, Forget(v, c, s.(inMulti := false, queue := [])), c, s.queue);
    }
  }

  /** EXEC, DISCARD and leaving end a transaction for good: what is open later depends only on what came later. */
  lemma NothingCarriesOver<S, R>(run: Runner<S, R>, store: S, before: seq<Action>, end: Action, after: seq<Action>,
                                 c: Conn)
    requires end.conn == c && !Continues(end, c)
    ensures HasOpen(after, c, Of(After(run, World(map[], store, []), before + [end] + after).table, c))
  {
    var actions, n := before + [end] + after, |before| + 1;
    var s := Of(After(run, World(map[], store, []), actions).table, c);
    TransactionIsWhatWasSent(run, store, actions, c);
    assert actions[n..] == after && actions[|before|] == end;
    forall m: nat ensures Began(actions, c, m) <==> m >= n && Began(after, c, m - n) {
      if m >= n { BeganBehind(before + [end], after, c, m); }
      if m < n { EndedBefore(actions, c, |before|, m); }
    }
    if s.inMulti {
      var m: nat :| Opens(actions, c, m) && s.queue == SentBy(actions[m + 1..], c);
      assert Began(actions, c, m);
      assert Opens(after, c, m - n) by {
        forall i | 0 <= i < m - n ensures !Began(after, c, i) { assert !Began(actions, c, i + n); }
      }
      assert actions[m + 1..] == after[m - n + 1..];
    } else {
      forall m: nat ensures !Began(after, c, m) { assert !Began(actions, c, m + n); }
    }
  }

  lemma EndedBefore(actions: seq<Action>, c: Conn, n: nat, m: nat)
    requires m <= n < |actions| && actions[n].conn == c && !Continues(actions[n], c)
    ensures !Began(actions, c, m)
  {
  }

  lemma BeganBehind(front: seq<Action>, after: seq<Action>, c: Conn, m: nat)
    requires m >= |front|
    ensures Began(front + after, c, m) <==> Began(after, c, m - |front|)
  {
    var all, n := front + after, |front|;
    assert forall j | 0 <= j < |after| :: all[n + j] == after[j];
    if Began(after, c, m - n) {
      forall j | m < j < |all| ensures Continues(all[j], c) { assert all[j] == after[j - n]; }
    }
  }

  // ---------------------------------------------------------------------------
  // One command, as its sender sees it.
  // ---------------------------------------------------------------------------

  /** DISCARD leaves MULTI, drops the queue and the watches, and touches nothing else. */
  lemma DiscardEnds<S, R>(run: Runner<S, R>, w: World<S>, c: Conn)
    requires Of(w.table, c).inMulti
    ensures var (w', r) := Served(run, w, c, Discard);
      Of(w'.table, c) == FRESH && w'.store == w.store && r == Done
  {
  }

  /** EXEC leaves MULTI and drops the queue; when it answers null the watches are gone too, and nothing has run. */
  lemma ExecEnds<S, R>(run: Runner<S, R>, w: World<S>, c: Conn)
    requires Of(w.table, c).inMulti && forall q | q in Of(w.table, c).queue :: !q.Multi?
    ensures var (w', r) := Served(run, w, c, Exec);
      && !Of(w'.table, c).inMulti && Of(w'.table, c).queue == []
      && (r == Null <==> Of(w.table, c).aborted)
      && (r == Null ==> Of(w'.table, c) == FRESH && w'.store == w.store)
      && (r != Null ==> Of(w'.table, c).watched == WatchedBy(Of(w.table, c).queue))
  {
    var s := Of(w.table, c);
    var v := Forget(w.(table := w.table[c := s]), c, s.(inMulti := false, queue := []));
    StepsKeepQueue(run, v, c, s.queue);
    StepsWatch(run, v, c, s.queue);
  }

  /** What the queued commands leave watched: the keys of every WATCH behind the last UNWATCH. */
  function WatchedBy(queue: seq<Command>): set<Key> {
    if queue == [] then {}
    else
      var front, last := WatchedBy(queue[..|queue| - 1]), queue[|queue| - 1];
      if last.Watch? then front + KeySet(last.keys) else if last.Unwatch? then {} else front
  }

  lemma {:induction false} WatchedByMeans(queue: seq<Command>, k: Key)
    ensures k in WatchedBy(queue) <==> exists i :: WatchedAt(queue, k, i)
    decreases |queue|
  {
    if queue != [] {
      var n := |queue| - 1;
      var front := queue[..n];
      WatchedByMeans(front, k);
      if i :| WatchedAt(front, k, i) { assert !queue[n].Unwatch? ==> WatchedAt(queue, k, i); }
      if i :| WatchedAt(queue, k, i) { assert i < n ==> WatchedAt(front, k, i); }
      if queue[n].Watch? && k in queue[n].keys { assert WatchedAt(queue, k, n); }
    }
  }

  predicate WatchedAt(queue: seq<Command>, k: Key, i: int) {
    && 0 <= i < |queue| && queue[i].Watch? && k in queue[i].keys
    && forall j | i < j < |queue| :: !queue[j].Unwatch?
  }

  lemma {:induction false} StepsWatch<S, R>(run: Runner<S, R>, w: World<S>, c: Conn, queue: seq<Command>)
    requires (forall q | q in queue :: !q.Multi?) && !Of(w.table, c).inMulti && Of(w.table, c).watched == {}
    ensures Of(Steps(run, w, c, queue).0.table, c).watched == WatchedBy(queue)
    decreases |queue|
  {
    if queue != [] {
      var front := queue[..|queue| - 1];
      StepsWatch(run, w, c, front);
      StepsKeepQueue(run, w, c, front);
    }
  }

  /** Everything else sent inside MULTI is answered QUEUED and does nothing yet; another MULTI is refused. */
  lemma QueuedInMulti<S, R>(run: Runner<S, R>, w: World<S>, c: Conn, cmd: Command)
    requires Of(w.table, c).inMulti && !cmd.Exec? && !cmd.Discard?
    ensures var (w', r) := Served(run, w, c, cmd);
      && w'.store == w.store && w'.log == w.log && r == (if cmd.Multi? then Error else Queued)
      && Of(w'.table, c) == Of(w.table, c).(queue := Of(w'.table, c).queue)
      && Of(w'.table, c).queue == if cmd.Multi? then Of(w.table, c).queue else Of(w.table, c).queue + [cmd]
  {
  }

  /** Outside MULTI: what MULTI, WATCH and UNWATCH begin and end, and what is refused; none of them touches a key. */
  lemma OutsideMulti<S, R>(run: Runner<S, R>, w: World<S>, c: Conn, cmd: Command)
    requires !Of(w.table, c).inMulti && !cmd.Data?
    ensures var (s, (w', r)) := (Of(w.table, c), Served(run, w, c, cmd));
      var s' := Of(w'.table, c);
      && w'.store == w.store && r == (if cmd.Exec? || cmd.Discard? || cmd == Watch([]) then Error else Done)
      && s'.inMulti == cmd.Multi? && s'.queue == (if cmd.Multi? then [] else s.queue)
      && (forall k :: k in s'.watched <==> (k in s.watched && !cmd.Unwatch?) || (cmd.Watch? && k in cmd.keys))
      && s'.aborted == (s.aborted && !cmd.Unwatch?)
  {
  }

  // ---------------------------------------------------------------------------
  // What others see of it.
  // ---------------------------------------------------------------------------

  /** Some keyspace command of the queue writes and reports one of the keys. */
  ghost predicate Hits<S, R>(run: Runner<S, R>, store: S, queue: seq<Command>, keys: set<Key>) {
    exists n :: HitsAt(run, store, queue, keys, n)
  }

  ghost predicate HitsAt<S, R>(run: Runner<S, R>, store: S, queue: seq<Command>, keys: set<Key>, n: int) {
    && 0 <= n < |queue| && queue[n].Data?
    && run(RunAll(run, store, DataOf(queue[..n])).0, queue[n].name, queue[n].args).2
    && exists k :: k in keys && k in CommandKeys(queue[n].name, queue[n].args)
  }

  /** The session as others leave it: aborted when they report a key it watches, and otherwise as it was. */
  ghost predicate Seen(s: Session, hit: bool, s': Session) { s' == s.(aborted := s.aborted || hit) }

  lemma StepSeen<S, R>(run: Runner<S, R>, w: World<S>, c: Conn, cmd: Command, d: Conn)
    requires c != d || cmd.Data?
    ensures Seen(Of(w.table, d), Hits(run, w.store, [cmd], Of(w.table, d).watched), Of(Step(run, w, c, cmd).0.table, d))
  {
    var s := Of(w.table, d);
    assert [cmd][..0] == [] && RunAll(run, w.store, DataOf([cmd][..0])).0 == w.store;
    if cmd.Data? {
      var keys := CommandKeys(cmd.name, cmd.args);
      var wrote := run(w.store, cmd.name, cmd.args).2;
      if k :| k in s.watched && k in keys {
        assert k in s.watched * KeySet(keys);
        assert wrote ==> HitsAt(run, w.store, [cmd], s.watched, 0);
      }
      if s.watched * KeySet(keys) != {} {
        var k :| k in s.watched * KeySet(keys);
        assert k in s.watched && k in keys;
      }
      assert Hits(run, w.store, [cmd], s.watched) <==> wrote && s.watched * KeySet(keys) != {};
    }
  }

  /** A keyspace command outside MULTI runs at once, and can abort the watches of its own client too. */
  lemma DataOutsideMulti<S, R>(run: Runner<S, R>, w: World<S>, c: Conn, name: string, args: seq<Key>)
    requires !Of(w.table, c).inMulti
    ensures var ((w', r), (store, value, _)) := (Served(run, w, c, Data(name, args)), run(w.store, name, args));
      && w'.store == store && r == Value(value)
      && Seen(Of(w.table, c), Hits(run, w.store, [Data(name, args)], Of(w.table, c).watched), Of(w'.table, c))
  {
    StepSeen(run, w.(table := w.table[c := Of(w.table, c)]), c, Data(name, args), c);
  }

  lemma HitsLast<S, R>(run: Runner<S, R>, store: S, front: seq<Command>, last: Command, keys: set<Key>)
    ensures Hits(run, store, front + [last], keys) <==>
      Hits(run, store, front, keys) || Hits(run, RunAll(run, store, DataOf(front)).0, [last], keys)
  {
    var all, n := front + [last], |front|;
    var store' := RunAll(run, store, DataOf(front)).0;
    assert all[..n] == front && all[n] == last && [last][..0] == [];
    assert HitsAt(run, store, all, keys, n) <==> HitsAt(run, store', [last], keys, 0);
    forall i | 0 <= i < n ensures HitsAt(run, store, all, keys, i) <==> HitsAt(run, store, front, keys, i) {
      assert all[i] == front[i] && all[..i] == front[..i];
    }
  }

  lemma {:induction false} StepsSeen<S, R>(run: Runner<S, R>, w: World<S>, c: Conn, queue: seq<Command>, d: Conn)
    requires c != d
    ensures Seen(Of(w.table, d), Hits(run, w.store, queue, Of(w.table, d).watched),
                 Of(Steps(run, w, c, queue).0.table, d))
    decreases |queue|
  {
    if queue != [] {
      var front, last := queue[..|queue| - 1], queue[|queue| - 1];
      assert queue == front + [last];
      StepsSeen(run, w, c, front, d);
      StepsRunAll(run, w, c, front);
      StepSeen(run, Steps(run, w, c, front).0, c, last, d);
      HitsLast(run, w.store, front, last, Of(w.table, d).watched);
    }
  }

  /** What a command runs at once: itself outside MULTI, the queue when it is an EXEC that is not null. */
  function RunsNow(s: Session, cmd: Command): seq<Command> {
    if !s.inMulti then [cmd] else if cmd.Exec? && !s.aborted then s.queue else []
  }

  /** A command aborts another client's transaction exactly when it runs a write that reports a key watched there. */
  lemma OthersSee<S, R>(run: Runner<S, R>, w: World<S>, c: Conn, cmd: Command, d: Conn)
    requires c != d
    ensures Seen(Of(w.table, d), Hits(run, w.store, RunsNow(Of(w.table, c), cmd), Of(w.table, d).watched),
                 Of(Served(run, w, c, cmd).0.table, d))
  {
    var s := Of(w.table, c);
    var v := w.(table := w.table[c := s]);
    if !s.inMulti {
      StepSeen(run, v, c, cmd, d);
    } else if cmd.Exec? && !s.aborted {
      StepsSeen(run, Forget(v, c, s.(inMulti := false, queue := [])), c, s.queue, d);
    }
  }
}
