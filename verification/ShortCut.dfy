/** The reactor's short cut for SET, DEL, INCR and DECR against the engine's own handlers, on the keyspace. */
module ShortCut {
  import opened Bytes
  import opened Keyspaces
  import T = Transactions
  import Sessions

  /** The keyspace as a value: what is stored, and the counter. */
  datatype Store = Store(flat: Flat, count: int)

  datatype Answer = Okay | Number(n: int) | Refused

  ghost function StoreOf(ks: Keyspace): Store
    reads ks
  {
    Store(ks.flat, ks.keyCount)
  }

  function DeltaOf(name: string): int { if name == "INCR" then 1 else -1 }

  /** Whether the command has one of the forms that have a short cut. */
  predicate IsSet(name: string, args: seq<Key>) { name == "SET" && |args| == 2 }
  predicate IsDel(name: string, args: seq<Key>) { name == "DEL" && |args| == 1 }
  predicate IsCount(name: string, args: seq<Key>) { (name == "INCR" || name == "DECR") && |args| == 1 }

  /** The engine's handlers: what they leave behind, what they answer, and whether they wrote. */
  function Full(now: int, s: Store, name: string, args: seq<Key>): (Store, Answer, bool) {
    if IsSet(name, args) then
      (Store(s.flat[args[0] := Fresh(args[1], now)], s.count + if args[0] in s.flat then 0 else 1), Okay, true)
    else if IsDel(name, args) then
      var n := if args[0] in s.flat then 1 else 0;
      (Store(s.flat - {args[0]}, s.count - n), Number(n), true)
    else if IsCount(name, args) then
      var (f, r) := Bumped(s.flat, args[0], DeltaOf(name), now);
      if r.Done? then (Store(f, s.count + |f| - |s.flat|), Number(r.n), true) else (s, Refused, false)
    else (s, Refused, false)
  }

  /** The reactor: SET writes a string over anything, and an INCR that fails is left to the engine. */
  function Fast(now: int, s: Store, name: string, args: seq<Key>): Option<(Store, Answer)> {
    if IsSet(name, args) then
      var known := args[0] in s.flat && s.flat[args[0]].kind == StringKind;
      Some((Store(s.flat[args[0] := Fresh(args[1], now)], s.count + if known then 0 else 1), Okay))
    else if IsDel(name, args) then
      var n := if args[0] in s.flat then 1 else 0;
      Some((Store(s.flat - {args[0]}, s.count - n), Number(if n > 0 then 1 else 0)))
    else if IsCount(name, args) then
      var (f, r) := Bumped(s.flat, args[0], DeltaOf(name), now);
      if r.Done? then Some((Store(f, s.count + |f| - |s.flat|), Number(r.n))) else None
    else None
  }

  /** SET, DEL, INCR and DECR have such forms, and INCR counts up where DECR counts down. */
  lemma FormsAre(k: Key, v: Key)
    ensures IsSet("SET", [k, v]) && IsDel("DEL", [k]) && IsCount("INCR", [k]) && IsCount("DECR", [k])
    ensures DeltaOf("INCR") == 1 && DeltaOf("DECR") == -1
  {
  }

  lemma OneKey(f: Flat, k: Key)
    ensures KeySet([k]) == {k} && |f.Keys * {k}| == if k in f then 1 else 0
    ensures |f - {k}| == |f| - if k in f then 1 else 0
  {
    assert f.Keys * {k} == if k in f then {k} else {};
    assert (f - {k}).Keys == f.Keys - {k};
  }

  method DeleteKey(ks: Keyspace, key: Key) returns (n: nat)
    requires ks.Mirrored()
    modifies ks, ks.shards
    ensures ks.Mirrored() && n == if key in old(ks.flat) then 1 else 0
    ensures StoreOf(ks) == Store(old(ks.flat) - {key}, old(ks.keyCount) - n)
  {
    OneKey(ks.flat, key);
    n := ks.Delete([key]);
  }

  method CountKey(ks: Keyspace, key: Key, delta: int, now: int) returns (r: IncrResult)
    requires ks.Mirrored() && -1 <= delta <= 1
    modifies ks, ks.shards
    ensures ks.Mirrored()
    ensures var (f, result) := Bumped(old(ks.flat), key, delta, now);
      r == result && StoreOf(ks) == Store(f, old(ks.keyCount) + |f| - |old(ks.flat)|)
  {
    r := ks.IncrBy(key, delta, now);
  }

  method SetKey(ks: Keyspace, key: Key, val: bytes, now: int)
    requires ks.Mirrored()
    modifies ks, ks.shards
    ensures ks.Mirrored()
    ensures var known := key in old(ks.flat);
      StoreOf(ks) == Store(old(ks.flat)[key := Fresh(val, now)], old(ks.keyCount) + if known then 0 else 1)
  {
    CountPut(ks.flat, key, Fresh(val, now));
    ks.Set(key, Entry(StringKind, Text(val), 0, 0, 0), now);
  }

  method SetTextKey(ks: Keyspace, key: Key, val: bytes, now: int)
    requires ks.Mirrored()
    modifies ks, ks.shards
    ensures ks.Mirrored()
    ensures var known := key in old(ks.flat) && old(ks.flat)[key].kind == StringKind;
      StoreOf(ks) == Store(old(ks.flat)[key := Fresh(val, now)], old(ks.keyCount) + if known then 0 else 1)
  {
    CountPut(ks.flat, key, Fresh(val, now));
    ks.SetString(key, val, now);
  }

  /** What the engine calls. */
  method RunFull(ks: Keyspace, name: string, args: seq<Key>, now: int) returns (a: Answer, wrote: bool)
    requires ks.Mirrored()
    modifies ks, ks.shards
    ensures ks.Mirrored()
    ensures var (s, answer, written) := Full(now, old(StoreOf(ks)), name, args);
      StoreOf(ks) == s && a == answer && wrote == written
  {
    if IsSet(name, args) {
      SetKey(ks, args[0], args[1], now);
      return Okay, true;
    } else if IsDel(name, args) {
      var n := DeleteKey(ks, args[0]);
      return Number(n), true;
    } else if IsCount(name, args) {
      var r := CountKey(ks, args[0], DeltaOf(name), now);
      if r.Done? { return Number(r.n), true; }
    }
    return Refused, false;
  }

  /** What the reactor calls. */
  method RunFast(ks: Keyspace, name: string, args: seq<Key>, now: int) returns (a: Option<Answer>)
    requires ks.Mirrored()
    modifies ks, ks.shards
    ensures ks.Mirrored()
    ensures match Fast(now, old(StoreOf(ks)), name, args)
      case None => a == None && StoreOf(ks) == old(StoreOf(ks))
      case Some((s, answer)) => a == Some(answer) && StoreOf(ks) == s
  {
    if IsSet(name, args) {
      SetTextKey(ks, args[0], args[1], now);
      return Some(Okay);
    } else if IsDel(name, args) {
      var n := DeleteKey(ks, args[0]);
      return Some(Number(if n > 0 then 1 else 0));
    } else if IsCount(name, args) {
      var r := CountKey(ks, args[0], DeltaOf(name), now);
      if r.Done? { return Some(Number(r.n)); }
    }
    return None;
  }

  // ---------------------------------------------------------------------------
  // The two compared.
  // ---------------------------------------------------------------------------

  /** A SET that replaces a stored value of another type. */
  predicate Overwrites(s: Store, name: string, args: seq<Key>) {
    IsSet(name, args) && args[0] in s.flat && s.flat[args[0]].kind != StringKind
  }

  /** Where there is a short cut it stores and answers the same, and counts the same unless another type is
   overwritten. */
  lemma FastIsFull(now: int, s: Store, name: string, args: seq<Key>)
    requires Fast(now, s, name, args).Some?
    ensures var ((f, a), (g, b, wrote)) := (Fast(now, s, name, args).value, Full(now, s, name, args));
      && f.flat == g.flat && a == b && wrote
      && (f == g <==> !Overwrites(s, name, args))
      && f.count == g.count + if Overwrites(s, name, args) then 1 else 0
  {
  }

  /** In a whole run, the sessions skipped and the writes done by the short cut: all that differs is that counter. */
  lemma ShortCutIsUnseen(now: int, w: T.World<Store>, conn: Sessions.Conn, name: string, args: seq<Key>)
    requires Sessions.Watchers(w.table) == {} && !Sessions.Of(w.table, conn).inMulti
    requires Fast(now, w.store, name, args).Some?
    ensures var run := (s, n, a) => Full(now, s, n, a);
      var (s, answer) := Fast(now, w.store, name, args).value;
      var served := T.Served(run, w, conn, Sessions.Data(name, args));
      var log := w.log + [Sessions.Wrote(T.KeySet(T.CommandKeys(name, args)))];
      && T.LikeServed(T.World(w.table, s, log), answer, served)
      && s.flat == served.0.store.flat
      && (s == served.0.store <==> !Overwrites(w.store, name, args))
  {
    var run: T.Runner<Store, Answer> := (s, n, a) => Full(now, s, n, a);
    var (s, answer) := Fast(now, w.store, name, args).value;
    FastIsFull(now, w.store, name, args);
    T.FastLikeServed(run, w, conn, name, args, s);
  }

  // ---------------------------------------------------------------------------
  // The counter over a whole run.
  // ---------------------------------------------------------------------------

  /** A command, the time it runs at, and whether the reactor tries its short cut or hands it to the engine. */
  datatype Timed = Timed(name: string, args: seq<Key>, now: int, short: bool)

  /** The short cut serves the command. */
  predicate Served(s: Store, c: Timed) { c.short && Fast(c.now, s, c.name, c.args).Some? }

  function RunAll(s: Store, cmds: seq<Timed>): Store {
    if cmds == [] then s
    else
      var (s', c) := (RunAll(s, cmds[..|cmds| - 1]), cmds[|cmds| - 1]);
      if Served(s', c) then Fast(c.now, s', c.name, c.args).value.0 else Full(c.now, s', c.name, c.args).0
  }

  /** How often the short cut replaced a value of another type by a string. */
  function Overwritten(s: Store, cmds: seq<Timed>): nat {
    if cmds == [] then 0
    else
      var (s', c) := (RunAll(s, cmds[..|cmds| - 1]), cmds[|cmds| - 1]);
      Overwritten(s, cmds[..|cmds| - 1]) + if Served(s', c) && Overwrites(s', c.name, c.args) then 1 else 0
  }

  lemma FullCounts(now: int, s: Store, name: string, args: seq<Key>)
    ensures var s' := Full(now, s, name, args).0; s'.count - |s'.flat| == s.count - |s.flat|
  {
    if IsSet(name, args) { CountPut(s.flat, args[0], Fresh(args[1], now)); }
    if IsDel(name, args) { OneKey(s.flat, args[0]); }
  }

  /** The counter is ahead of the keys by exactly the number of such commands, whichever way each was served. */
  lemma {:induction false} CounterDrifts(s: Store, cmds: seq<Timed>)
    ensures var s' := RunAll(s, cmds); s'.count - |s'.flat| == s.count - |s.flat| + Overwritten(s, cmds)
  {
    if cmds != [] {
      var front, c := cmds[..|cmds| - 1], cmds[|cmds| - 1];
      CounterDrifts(s, front);
      var s' := RunAll(s, front);
      FullCounts(c.now, s', c.name, c.args);
      if Served(s', c) { FastIsFull(c.now, s', c.name, c.args); }
    }
  }
}

