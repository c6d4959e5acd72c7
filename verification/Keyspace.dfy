/** 256 maps, chosen by a hash, that together behave like one map with expiry. */
module Keyspaces {
  import opened Bytes
  import opened Bits
  import opened Decimal
  import P = CommandParser
  import Sets

  type Key = bytes

  // ---------------------------------------------------------------------------
  // The hash.
  // ---------------------------------------------------------------------------

  const OFFSET: nat := 14695981039346656037
  const PRIME: nat := 1099511628211
  const SHARDS: nat := 256

  /** One byte of FNV-1a: exclusive or, then multiplication modulo 2^64. */
  function Mix(hash: nat, b: byte): nat {
    ValueOf(Xor(BitsOf(hash, 64), BitsOf(b as nat, 64))) * PRIME % TWO_64
  }

  /** FNV-1a of the first n bytes, byte by byte. */
  function Hash(mix: (nat, byte) -> nat, start: nat, s: bytes, n: nat): nat
    requires n <= |s|
  {
    if n == 0 then start else mix(Hash(mix, start, s, n - 1), s[n - 1])
  }

  /** Four bytes at a time, and then the rest, is the same. */
  method Fnv1a(mix: (nat, byte) -> nat, offset: nat, s: bytes) returns (hash: nat)
    ensures hash == Hash(mix, offset, s, |s|)
  {
    hash := offset;
    var n, i := |s|, 0;
    while i + 4 <= n
      invariant 0 <= i <= n && hash == Hash(mix, offset, s, i)
    {
      hash := mix(hash, s[i]);
      assert hash == Hash(mix, offset, s, i + 1);
      hash := mix(hash, s[i + 1]);
      assert hash == Hash(mix, offset, s, i + 2);
      hash := mix(hash, s[i + 2]);
      assert hash == Hash(mix, offset, s, i + 3);
      hash := mix(hash, s[i + 3]);
      i := i + 4;
    }
    while i < n
      invariant 0 <= i <= n && hash == Hash(mix, offset, s, i)
    {
      hash := mix(hash, s[i]);
      i := i + 1;
    }
  }

  /** The shard of a key: the low eight bits. */
  function Home(k: Key): (i: nat)
    ensures i < SHARDS
  {
    Hash(Mix, OFFSET, k, |k|) % SHARDS
  }

  // ---------------------------------------------------------------------------
  // Entries and what can be seen of them.
  // ---------------------------------------------------------------------------

  datatype Kind = StringKind | HashKind | ListKind | SetKind | ZSetKind | VectorKind | StreamKind

  /** A string, or a structure held by reference. */
  datatype Content = Text(s: bytes) | Structure(id: nat)

  datatype Entry = Entry(kind: Kind, value: Content, expiresAt: int, updatedAt: int, lastAccessedAt: int)

  predicate Expired(e: Entry, now: int) { 0 < e.expiresAt <= now }

  type Flat = map<Key, Entry>

  /** The entries that have not expired. */
  function Seen(f: Flat, now: int): Flat { map k | k in f && !Expired(f[k], now) :: f[k] }

  /** What can be seen: entries without a deadline, or with one that is still to come. */
  lemma SeenMeans(f: Flat, now: int, k: Key)
    ensures k in Seen(f, now) <==> k in f && (f[k].expiresAt <= 0 || now < f[k].expiresAt)
    ensures k in Seen(f, now) ==> Seen(f, now)[k] == f[k]
  {
  }

  /** Dropping what has expired changes nothing that can be seen, now or later. */
  lemma DropExpired(f: Flat, dead: set<Key>, now: int, later: int)
    requires now <= later && forall k | k in dead && k in f :: Expired(f[k], now)
    ensures Seen(f - dead, later) == Seen(f, later)
  {
  }

  lemma SeenPut(f: Flat, k: Key, e: Entry, now: int)
    ensures Seen(f[k := e], now) == if Expired(e, now) then Seen(f, now) - {k} else Seen(f, now)[k := e]
  {
  }

  // ---------------------------------------------------------------------------
  // The shards.
  // ---------------------------------------------------------------------------

  class Shard {
    var entries: Flat

    constructor ()
      ensures entries == map[]
    {
      entries := map[];
    }
  }

  /** The part of the map that belongs to shard i. */
  function Part(home: Key -> nat, f: Flat, i: nat): Flat { map k | k in f && home(k) == i :: f[k] }

  lemma PartPut(home: Key -> nat, f: Flat, k: Key, e: Entry, i: nat)
    ensures Part(home, f[k := e], i) == if home(k) == i then Part(home, f, i)[k := e] else Part(home, f, i)
  {
  }

  lemma PartDrop(home: Key -> nat, f: Flat, k: Key, i: nat)
    ensures Part(home, f - {k}, i) == if home(k) == i then Part(home, f, i) - {k} else Part(home, f, i)
  {
  }

  ghost predicate Apart(shards: seq<Shard>, i: int, j: int) {
    0 <= i < |shards| && 0 <= j < |shards| && i != j ==> shards[i] != shards[j]
  }

  ghost predicate Shows(home: Key -> nat, shards: seq<Shard>, f: Flat, i: int)
    reads shards
  {
    0 <= i < |shards| ==> shards[i].entries == Part(home, f, i)
  }

  datatype IncrResult = Done(n: int) | WrongType | NotAnInteger

  class Keyspace {
    ghost const home: Key -> nat
    const shards: seq<Shard>
    var keyCount: int
    ghost var flat: Flat

    /** The shards hold the parts of one map. */
    ghost predicate Mirrored()
      reads this, shards
    {
      && |shards| == SHARDS
      && (forall k: Key {:trigger home(k)} :: home(k) < SHARDS)
      && (forall k: Key {:trigger Home(k)} :: home(k) == Home(k))
      && (forall i, j {:trigger Apart(shards, i, j)} :: Apart(shards, i, j))
      && (forall i {:trigger Shows(home, shards, flat, i)} :: Shows(home, shards, flat, i))
    }

    /** By how much the counter is too high. */
    ghost function Drift(): int
      reads this
    {
      keyCount - |flat|
    }

    /** And the counter counts its keys. */
    ghost predicate Valid()
      reads this, shards
    {
      Mirrored() && Drift() == 0
    }

    /** The shard of a key, by the unrolled hash. */
    method GetShard(key: Key) returns (i: nat)
      requires Mirrored()
      ensures i == home(key) && i < SHARDS
    {
      var hash := Fnv1a(Mix, OFFSET, key);
      i := hash % SHARDS;
      assert i == Home(key);
    }

    /** What is stored under a key. */
    method Find(key: Key) returns (e: Option<Entry>)
      requires Mirrored()
      ensures e == if key in flat then Some(flat[key]) else None
    {
      var i := GetShard(key);
      assert Shows(home, shards, flat, i);
      e := if key in shards[i].entries then Some(shards[i].entries[key]) else None;
    }

    method Put(key: Key, e: Entry)
      requires Mirrored()
      modifies this`flat, shards
      ensures Mirrored() && flat == old(flat)[key := e]
    {
      var i := GetShard(key);
      shards[i].entries := shards[i].entries[key := e];
      flat := flat[key := e];
      forall j ensures Shows(home, shards, flat, j) {
        assert old(Shows(home, shards, flat, j)) && old(Shows(home, shards, flat, i)) && Apart(shards, i, j);
        if 0 <= j < SHARDS { PartPut(home, old(flat), key, e, j); }
      }
    }

    method Remove(key: Key)
      requires Mirrored()
      modifies this`flat, shards
      ensures Mirrored() && flat == old(flat) - {key}
    {
      var i := GetShard(key);
      shards[i].entries := shards[i].entries - {key};
      flat := flat - {key};
      forall j ensures Shows(home, shards, flat, j) {
        assert old(Shows(home, shards, flat, j)) && old(Shows(home, shards, flat, i)) && Apart(shards, i, j);
        if 0 <= j < SHARDS { PartDrop(home, old(flat), key, j); }
      }
    }

    /** The live entry of a key; one that has expired is dropped on access. */
    method Get(key: Key, now: int) returns (e: Option<Entry>)
      requires Mirrored()
      modifies this, shards
      ensures Mirrored() && Drift() == old(Drift()) && flat == Purged(old(flat), key, now)
      ensures SameView(old(flat), flat, now)
      ensures e == if key in Seen(old(flat), now) then Some(old(flat)[key]) else None
    {
      PurgedView(flat, key, now);
      e := Find(key);
      if e.Some? && Expired(e.value, now) {
        Remove(key);
        keyCount := keyCount - 1;
        e := None;
      }
    }

    method Set(key: Key, entry: Entry, now: int)
      requires Mirrored()
      modifies this, shards
      ensures Mirrored() && Drift() == old(Drift())
      ensures flat == old(flat)[key := entry.(updatedAt := now, lastAccessedAt := now)]
    {
      var e := Find(key);
      if e.None? { keyCount := keyCount + 1; }
      CountPut(flat, key, entry.(updatedAt := now, lastAccessedAt := now));
      Put(key, entry.(updatedAt := now, lastAccessedAt := now));
    }

    /** A string is updated in place; over anything else the counter goes wrong. */
    method SetString(key: Key, val: bytes, now: int)
      requires Mirrored()
      modifies this, shards
      ensures Mirrored() && flat == old(flat)[key := Fresh(val, now)]
      ensures Drift() == old(Drift()) + if key in old(flat) && old(flat)[key].kind != StringKind then 1 else 0
    {
      var e := Find(key);
      CountPut(flat, key, Fresh(val, now));
      if e.None? || e.value.kind != StringKind { keyCount := keyCount + 1; }
      Put(key, Fresh(val, now));
    }

    method SetNX(key: Key, entry: Entry, now: int) returns (ok: bool)
      requires Mirrored()
      modifies this, shards
      ensures Mirrored() && Drift() == old(Drift()) && ok == (key !in Seen(old(flat), now))
      ensures flat == if ok then old(flat)[key := entry.(updatedAt := now, lastAccessedAt := now)] else old(flat)
    {
      PurgedView(flat, key, now);
      PutPurged(flat, key, entry.(updatedAt := now, lastAccessedAt := now), now);
      var e := Get(key, now);
      if e.Some? { return false; }
      Store(key, entry.(updatedAt := now, lastAccessedAt := now), true);
      return true;
    }

    /** Writes a key and counts it if it is new. */
    method Store(key: Key, e: Entry, isNew: bool)
      requires Mirrored() && isNew == (key !in flat)
      modifies this, shards
      ensures Mirrored() && Drift() == old(Drift()) && flat == old(flat)[key := e]
    {
      CountPut(flat, key, e);
      Put(key, e);
      if isNew { keyCount := keyCount + 1; }
    }

    /** Stores an entry that can be seen. */
    method StoreSeen(key: Key, e: Entry, isNew: bool, now: int)
      requires Mirrored() && isNew == (key !in flat) && !Expired(e, now)
      modifies this, shards
      ensures Mirrored() && Drift() == old(Drift()) && Seen(flat, now) == Seen(old(flat), now)[key := e]
    {
      SeenPut(flat, key, e, now);
      Store(key, e, isNew);
    }

    /** A number in text, in wrapping 64-bit arithmetic; a key that has expired counts as none. */
    method IncrBy(key: Key, delta: int, now: int) returns (r: IncrResult)
      requires Mirrored() && -TWO_63 <= delta < TWO_63
      modifies this, shards
      ensures Mirrored() && Drift() == old(Drift()) && (flat, r) == Bumped(old(flat), key, delta, now)
      ensures (Seen(flat, now), r) == Incremented(Seen(old(flat), now), key, delta, now)
    {
      PurgedView(flat, key, now);
      BumpedIsSeen(flat, key, delta, now);
      ghost var f := flat;
      var e := Get(key, now);
      if e.None? {
        PutPurged(f, key, Fresh(PrintInt(delta), now), now);
        Store(key, Fresh(PrintInt(delta), now), true);
        return Done(delta);
      }
      if e.value.kind != StringKind { return WrongType; }
      if !e.value.value.Text? { return NotAnInteger; }
      var current := ParseInt(e.value.value.s);
      if current.None? { return NotAnInteger; }
      var n := P.Wrap64(current.value + delta);
      Store(key, Rewritten(e.value, PrintInt(n), now), false);
      return Done(n);
    }

    method Append(key: Key, val: bytes, now: int) returns (r: IncrResult)
      requires Mirrored()
      modifies this, shards
      ensures Mirrored() && Drift() == old(Drift())
      ensures (Seen(flat, now), r) == Appended(Seen(old(flat), now), key, val, now)
      ensures r.Done? ==> key in Seen(flat, now) && TextOf(flat, key) == TextOf(Seen(old(flat), now), key) + val
      ensures r.Done? ==> r.n == |TextOf(flat, key)|
    {
      PurgedView(flat, key, now);
      var e := Get(key, now);
      if e.None? {
        StoreSeen(key, Fresh(val, now), true, now);
        return Done(|val|);
      }
      if e.value.kind != StringKind || !e.value.value.Text? { return WrongType; }
      StoreSeen(key, Rewritten(e.value, e.value.value.s + val, now), false, now);
      return Done(|e.value.value.s + val|);
    }

    method GetOrCreate(key: Key, kind: Kind, content: Content, now: int) returns (e: Entry, created: bool)
      requires Mirrored()
      modifies this, shards
      ensures Mirrored() && Drift() == old(Drift()) && created == (key !in Seen(old(flat), now))
      ensures e == if created then Entry(kind, content, 0, now, now) else old(flat)[key].(lastAccessedAt := now)
      ensures Seen(flat, now) == Seen(old(flat), now)[key := e]
    {
      PurgedView(flat, key, now);
      var found := Get(key, now);
      created := found.None?;
      e := if created then Entry(kind, content, 0, now, now) else found.value.(lastAccessedAt := now);
      StoreSeen(key, e, created, now);
    }

    /** A deadline from now on; a key that is not there, or no longer, gets none. */
    method Expire(key: Key, ttl: int, now: int) returns (ok: bool)
      requires Mirrored()
      modifies this, shards
      ensures Mirrored() && Drift() == old(Drift()) && ok == (key in Seen(old(flat), now))
      ensures ok ==> flat == old(flat)[key := old(flat)[key].(expiresAt := P.Wrap64(now + ttl))]
      ensures !ok ==> SameView(old(flat), flat, now)
    {
      PurgedView(flat, key, now);
      var e := Get(key, now);
      if e.None? { return false; }
      Store(key, e.value.(expiresAt := P.Wrap64(now + ttl)), false);
      return true;
    }

    method Persist(key: Key, now: int) returns (ok: bool)
      requires Mirrored()
      modifies this, shards
      ensures Mirrored() && Drift() == old(Drift())
      ensures ok == (key in Seen(old(flat), now) && old(flat)[key].expiresAt != 0)
      ensures ok ==> flat == old(flat)[key := old(flat)[key].(expiresAt := 0)]
      ensures !ok ==> SameView(old(flat), flat, now)
    {
      PurgedView(flat, key, now);
      var e := Get(key, now);
      if e.None? || e.value.expiresAt == 0 { return false; }
      Store(key, e.value.(expiresAt := 0), false);
      return true;
    }

    method DeleteOne(key: Key) returns (was: bool)
      requires Mirrored()
      modifies this, shards
      ensures Mirrored() && Drift() == old(Drift()) && was == (key in old(flat)) && flat == old(flat) - {key}
    {
      var e := Find(key);
      was := e.Some?;
      if was {
        CountDrop(flat, key);
        Remove(key);
        keyCount := keyCount - 1;
      } else {
        assert flat - {key} == flat;
      }
    }

    /** Deleting counts whatever is stored, expired or not. */
    method Delete(keys: seq<Key>) returns (count: nat)
      requires Mirrored()
      modifies this, shards
      ensures Mirrored() && Drift() == old(Drift()) && flat == old(flat) - KeySet(keys)
      ensures count == |old(flat).Keys * KeySet(keys)|
    {
      count := 0;
      ghost var f, gone := flat, {};
      for i := 0 to |keys|
        invariant Mirrored() && Drift() == old(Drift()) && gone == KeySet(keys[..i]) && flat == f - gone
        invariant count == |f.Keys * gone|
      {
        KeySetGrows(keys, i);
        OneMoreGone(f, gone, keys[i]);
        var was := DeleteOne(keys[i]);
        if was { count := count + 1; }
        gone := gone + {keys[i]};
      }
      assert keys[..|keys|] == keys;
    }

    /** The reaper looks at some entries of one shard, in any order, and drops those that have expired. */
    method Reap(i: nat, limit: nat, now: int)
      requires Mirrored() && i < SHARDS
      modifies this, shards
      ensures Mirrored() && Drift() == old(Drift()) && SameView(old(flat), flat, now) && flat.Keys <= old(flat).Keys
    {
      var rest, checked := shards[i].entries.Keys, 0;
      while rest != {} && checked < limit
        invariant Mirrored() && Drift() == old(Drift()) && SameView(old(flat), flat, now) && flat.Keys <= old(flat).Keys
        decreases |rest|
      {
        var k :| k in rest;
        ghost var before := flat;
        rest, checked := rest - {k}, checked + 1;
        var _ := Get(k, now);
        SameViewTrans(old(flat), before, flat, now);
      }
    }

    method FlushDB()
      requires Mirrored()
      modifies this, shards
      ensures Valid() && flat == map[]
    {
      for i := 0 to SHARDS
        invariant flat == old(flat) && forall j | 0 <= j < i :: shards[j].entries == map[]
      {
        forall j | 0 <= j < i ensures shards[i] != shards[j] { assert Apart(shards, i, j); }
        shards[i].entries := map[];
      }
      flat, keyCount := map[], 0;
      forall j ensures Shows(home, shards, flat, j) { }
    }

    constructor ()
      ensures Valid() && flat == map[] && fresh(shards)
    {
      var made: seq<Shard> := [];
      for i := 0 to SHARDS
        invariant |made| == i && fresh(made) && forall j | 0 <= j < i :: made[j].entries == map[]
        invariant forall j, k | 0 <= j < k < i :: made[j] != made[k]
      {
        var s := new Shard();
        made := made + [s];
      }
      home, shards, keyCount, flat := Home, made, 0, map[];
      new;
      forall i, j ensures Apart(shards, i, j) { }
      forall i ensures Shows(home, shards, flat, i) { }
    }
  }

  function Fresh(text: bytes, now: int): Entry { Entry(StringKind, Text(text), 0, now, now) }

  function Rewritten(e: Entry, text: bytes, now: int): Entry {
    e.(value := Text(text), updatedAt := now, lastAccessedAt := now)
  }

  /** INCRBY on a map in which nothing has expired. */
  function Incremented(v: Flat, key: Key, delta: int, now: int): (Flat, IncrResult) {
    if key !in v then (v[key := Fresh(PrintInt(delta), now)], Done(delta))
    else if v[key].kind != StringKind then (v, WrongType)
    else if !v[key].value.Text? || ParseInt(v[key].value.s).None? then (v, NotAnInteger)
    else
      var n := P.Wrap64(ParseInt(v[key].value.s).value + delta);
      (v[key := Rewritten(v[key], PrintInt(n), now)], Done(n))
  }

  /** A number in text becomes the sum in 64 bits, and keeps its deadline; without one the number is the increment. */
  lemma IncrementMeans(v: Flat, key: Key, delta: int, now: int)
    requires -TWO_63 <= delta < TWO_63
    ensures var (w, r) := Incremented(v, key, delta, now);
      && (r.Done? <==> key !in v || (v[key].kind == StringKind && v[key].value.Text? && ParseInt(v[key].value.s).Some?))
      && (!r.Done? ==> w == v)
      && (r.Done? ==> key in w && w[key].value.Text? && ParseInt(w[key].value.s) == Some(r.n) && w - {key} == v - {key})
      && (r.Done? && key !in v ==> r.n == delta && w[key].expiresAt == 0)
      && (r.Done? && key in v ==> Congruent(r.n, ParseInt(v[key].value.s).value + delta) && -TWO_63 <= r.n < TWO_63)
      && (r.Done? && key in v ==> w[key].expiresAt == v[key].expiresAt && w[key].kind == StringKind)
  {
    var r := Incremented(v, key, delta, now).1;
    if r.Done? {
      if key in v { WrapMeans(ParseInt(v[key].value.s).value + delta); }
      ParsePrintInt(r.n);
    }
  }

  /** Equal in 64 bits. */
  ghost predicate Congruent(a: int, b: int) { (a - b) % TWO_64 == 0 }

  lemma WrapMeans(x: int)
    ensures Congruent(P.Wrap64(x), x) && -TWO_63 <= P.Wrap64(x) < TWO_63
  {
  }

  /** INCRBY on a map in which some entries may have expired. */
  function Bumped(f: Flat, key: Key, delta: int, now: int): (Flat, IncrResult) {
    if key !in f || Expired(f[key], now) then (f[key := Fresh(PrintInt(delta), now)], Done(delta))
    else if f[key].kind != StringKind then (f, WrongType)
    else if !f[key].value.Text? || ParseInt(f[key].value.s).None? then (f, NotAnInteger)
    else
      var n := P.Wrap64(ParseInt(f[key].value.s).value + delta);
      (f[key := Rewritten(f[key], PrintInt(n), now)], Done(n))
  }

  /** It does to what can be seen what it would do with nothing expired. */
  lemma BumpedIsSeen(f: Flat, key: Key, delta: int, now: int)
    ensures var (g, r) := Bumped(f, key, delta, now);
      (Seen(g, now), r) == Incremented(Seen(f, now), key, delta, now)
  {
    SeenPut(f, key, Fresh(PrintInt(delta), now), now);
    if key in f && !Expired(f[key], now) && f[key].value.Text? && ParseInt(f[key].value.s).Some? {
      SeenPut(f, key, Rewritten(f[key], PrintInt(P.Wrap64(ParseInt(f[key].value.s).value + delta)), now), now);
    }
  }

  /** APPEND on a map in which nothing has expired. */
  function Appended(v: Flat, key: Key, val: bytes, now: int): (Flat, IncrResult) {
    if key !in v then (v[key := Fresh(val, now)], Done(|val|))
    else if v[key].kind != StringKind || !v[key].value.Text? then (v, WrongType)
    else
      var text := v[key].value.s + val;
      (v[key := Rewritten(v[key], text, now)], Done(|text|))
  }

  /** The text under a key, empty when there is none. */
  function TextOf(f: Flat, key: Key): bytes { if key in f && f[key].value.Text? then f[key].value.s else [] }

  function KeySet(keys: seq<Key>): set<Key> { set k | k in keys }

  lemma KeySetGrows(keys: seq<Key>, i: nat)
    requires i < |keys|
    ensures KeySet(keys[..i + 1]) == KeySet(keys[..i]) + {keys[i]}
  {
    assert keys[..i + 1] == keys[..i] + [keys[i]];
  }

  lemma CountDrop(f: Flat, k: Key)
    requires k in f
    ensures |f - {k}| == |f| - 1
  {
    assert (f - {k}).Keys == f.Keys - {k};
  }

  lemma OneMoreGone(f: Flat, gone: set<Key>, k: Key)
    ensures f - (gone + {k}) == f - gone - {k}
    ensures |f.Keys * (gone + {k})| == |f.Keys * gone| + (if k in f - gone then 1 else 0)
  {
    Sets.OneMoreCounted(f.Keys, gone, k);
  }

  /** The count is the number of keys that could be seen exactly when none of them had expired unnoticed. */
  lemma DeleteCountsSeenIff(f: Flat, keys: set<Key>, now: int)
    ensures |f.Keys * keys| == |Seen(f, now).Keys * keys| <==> forall k | k in keys && k in f :: !Expired(f[k], now)
  {
    var stored, seen := f.Keys * keys, Seen(f, now).Keys * keys;
    assert seen <= stored;
    if k :| k in keys && k in f && Expired(f[k], now) {
      assert k in stored - seen;
      Sets.SubsetSize(seen, stored - {k});
    } else {
      assert seen == stored;
    }
  }

  /** A key that expired a while ago is counted as deleted. */
  lemma ExpiredIsCounted()
    ensures var f: Flat := map[[1] := Entry(StringKind, Text([]), 5, 0, 0)];
      Seen(f, 9) == map[] && |f.Keys * {[1]}| == 1
  {
    var f: Flat := map[[1] := Entry(StringKind, Text([]), 5, 0, 0)];
    assert f.Keys * {[1]} == {[1]};
  }

  /** Without the key, if it has expired. */
  function Purged(f: Flat, k: Key, now: int): Flat { if k in f && Expired(f[k], now) then f - {k} else f }

  lemma PutPurged(f: Flat, k: Key, e: Entry, now: int)
    ensures Purged(f, k, now)[k := e] == f[k := e] && (k in Seen(f, now) ==> Purged(f, k, now) == f)
  {
  }

  lemma PurgedView(f: Flat, k: Key, now: int)
    ensures var g := Purged(f, k, now);
      && SameView(f, g, now) && Seen(g, now) == Seen(f, now) && (k in g <==> k in Seen(f, now))
      && |g| == |f| - (if k in f && Expired(f[k], now) then 1 else 0)
  {
    if k in f && Expired(f[k], now) {
      DropOne(f, k, now);
      DropExpired(f, {k}, now, now);
    }
  }

  /** Nothing that can be seen now or later is different. */
  ghost predicate SameView(f: Flat, g: Flat, now: int) {
    forall t: int {:trigger Seen(g, t)} | now <= t :: Seen(f, t) == Seen(g, t)
  }

  lemma SameViewTrans(f: Flat, g: Flat, h: Flat, now: int)
    requires SameView(f, g, now) && SameView(g, h, now)
    ensures SameView(f, h, now)
  {
    forall t: int | now <= t ensures Seen(f, t) == Seen(h, t) { assert Seen(f, t) == Seen(g, t); }
  }

  lemma DropOne(f: Flat, k: Key, now: int)
    requires k in f && Expired(f[k], now)
    ensures SameView(f, f - {k}, now) && |f - {k}| == |f| - 1
  {
    forall t: int | now <= t ensures Seen(f, t) == Seen(f - {k}, t) { DropExpired(f, {k}, now, t); }
    assert (f - {k}).Keys == f.Keys - {k};
  }

  lemma CountPut(f: Flat, k: Key, e: Entry)
    ensures |f[k := e]| == if k in f then |f| else |f| + 1
  {
    assert f[k := e].Keys == f.Keys + {k};
  }
}

