/**
 The snapshot file: a header, auxiliary fields, key-value records in the code's own
 uvarint-based format, an end marker and a CRC64 over all of it.
 */
module Snapshot {
  import opened Bytes

  // ---------------------------------------------------------------------------
  // Numbers and strings.
  // ---------------------------------------------------------------------------

  /** A value and the unread rest, or failure. */
  datatype Read<+T> = Ok(value: T, rest: bytes) | Failed

  /** A variable-length number; a failed one says how far it got, since some callers ignore the failure. */
  datatype Varint = Varint(value: nat, rest: bytes) | BadVarint(rest: bytes)

  function PutUvarint(n: nat): bytes {
    if n < 128 then [n as byte] else [(n % 128 + 128) as byte] + PutUvarint(n / 128)
  }

  /** Go's `binary.ReadUvarint` from its i-th byte on: at most ten bytes, the tenth at most 1. */
  function ReadUvarint(r: bytes, i: nat): (v: Varint)
    ensures |v.rest| <= |r| && (v.Varint? ==> |v.rest| < |r|)
    decreases |r|
  {
    if i >= 10 || r == [] then BadVarint(r)
    else if r[0] < 128 then
      if i == 9 && r[0] > 1 then BadVarint(r[1..]) else Varint(r[0] as nat, r[1..])
    else
      match ReadUvarint(r[1..], i + 1)
      case BadVarint(rest) => BadVarint(rest)
      case Varint(n, rest) => Varint((r[0] as nat - 128) + 128 * n, rest)
  }

  /** The numbers that fit from the i-th byte on; all 64-bit numbers at the start. */
  function Limit(i: nat): nat
    requires i <= 9
    decreases 9 - i
  {
    if i == 9 then 2 else 128 * Limit(i + 1)
  }

  /** The seven low bits come first, and the eighth says whether more follow. */
  lemma VarintFirst(n: nat)
    ensures var s := PutUvarint(n); s != [] && s[0] as nat % 128 == n % 128 && (s[0] >= 128 <==> |s| > 1)
  {
    if n >= 128 { assert PutUvarint(n / 128) != []; }
  }

  lemma {:induction false} VarintRoundTrip(n: nat, i: nat, rest: bytes)
    requires i <= 9 && n < Limit(i)
    ensures ReadUvarint(PutUvarint(n) + rest, i) == Varint(n, rest)
    decreases n
  {
    var w := PutUvarint(n);
    if n < 128 {
      assert w + rest == [w[0]] + rest;
      assert (w + rest)[1..] == rest;
    } else {
      assert i < 9;
      VarintRoundTrip(n / 128, i + 1, rest);
      assert (w + rest)[1..] == PutUvarint(n / 128) + rest;
    }
  }

  /** The conversion of an unsigned to a signed 64-bit number. */
  function Signed(n: nat): int {
    if n < TWO_63 then n else n - TWO_64
  }

  lemma LimitIs64Bits()
    ensures Limit(0) == TWO_64
  {
    assert Limit(5) == 2 * 128 * 128 * 128 * 128;
    assert Limit(0) == 128 * 128 * 128 * 128 * 128 * Limit(5);
  }

  function ReadNumber(r: bytes): (v: Read<nat>)
    ensures v.Ok? ==> |v.rest| < |r|
  {
    match ReadUvarint(r, 0)
    case BadVarint(_) => Failed
    case Varint(n, rest) => Ok(n, rest)
  }

  lemma NumberRoundTrip(n: nat, rest: bytes)
    requires n < TWO_64
    ensures ReadNumber(PutUvarint(n) + rest) == Ok(n, rest)
  {
    LimitIs64Bits();
    VarintRoundTrip(n, 0, rest);
  }

  /** `io.ReadFull` of n bytes. */
  function ReadFull(r: bytes, n: nat): (v: Read<bytes>)
    ensures v.Ok? ==> |v.value| == n && |v.rest| + n == |r|
  {
    if |r| < n then Failed else Ok(r[..n], r[n..])
  }

  function PutString(s: bytes): bytes {
    PutUvarint(|s|) + s
  }

  function ReadString(r: bytes): (v: Read<bytes>)
    ensures v.Ok? ==> |v.rest| < |r|
  {
    match ReadNumber(r)
    case Failed => Failed
    case Ok(n, rest) => ReadFull(rest, n)
  }

  lemma StringRoundTrip(s: bytes, rest: bytes)
    requires |s| < TWO_64
    ensures ReadString(PutString(s) + rest) == Ok(s, rest)
  {
    Associates(PutUvarint(|s|), s, rest);
    NumberRoundTrip(|s|, s + rest);
    assert (s + rest)[..|s|] == s && (s + rest)[|s|..] == rest;
  }

  /** k bytes, least significant first. */
  function PutLE(n: nat, k: nat): (s: bytes)
    ensures |s| == k
    decreases k
  {
    if k == 0 then [] else [(n % 256) as byte] + PutLE(n / 256, k - 1)
  }

  function GetLE(s: bytes): nat {
    if s == [] then 0 else s[0] as nat + 256 * GetLE(s[1..])
  }

  function Pow256(k: nat): nat {
    if k == 0 then 1 else 256 * Pow256(k - 1)
  }

  lemma {:induction false} LERoundTrip(n: nat, k: nat)
    requires n < Pow256(k)
    ensures GetLE(PutLE(n, k)) == n
    decreases k
  {
    if k > 0 {
      LERoundTrip(n / 256, k - 1);
      assert PutLE(n, k)[1..] == PutLE(n / 256, k - 1);
    }
  }

  /** The last byte of a number counts most. */
  lemma {:induction false} LELast(s: bytes)
    requires s != []
    ensures GetLE(s) == GetLE(s[..|s| - 1]) + s[|s| - 1] as nat * Pow256(|s| - 1)
  {
    var n := |s| - 1;
    if n > 0 {
      var tail, front := s[1..], s[..n];
      LELast(tail);
      assert tail[..n - 1] == front[1..];
      OneMoreByte(s[0] as nat, GetLE(front[1..]), s[n] as nat, Pow256(n - 1));
    }
  }

  lemma OneMoreByte(a: nat, b: nat, c: nat, p: nat)
    ensures a + 256 * (b + c * p) == (a + 256 * b) + c * (256 * p)
  {
  }

  function ReadLE(r: bytes, k: nat): (v: Read<nat>)
    ensures v.Ok? ==> |v.rest| + k == |r|
  {
    match ReadFull(r, k)
    case Failed => Failed
    case Ok(s, rest) => Ok(GetLE(s), rest)
  }

  lemma ReadLERoundTrip(n: nat, k: nat, rest: bytes)
    requires n < Pow256(k)
    ensures ReadLE(PutLE(n, k) + rest, k) == Ok(n, rest)
  {
    LERoundTrip(n, k);
    var s := PutLE(n, k);
    assert (s + rest)[..k] == s && (s + rest)[k..] == rest;
  }

  // ---------------------------------------------------------------------------
  // Repetition.
  // ---------------------------------------------------------------------------

  function PutAll<T>(put: T -> bytes, xs: seq<T>): bytes {
    if xs == [] then [] else put(xs[0]) + PutAll(put, xs[1..])
  }

  function ReadMany<U>(get: bytes -> Read<U>, n: nat, r: bytes): Read<seq<U>>
    decreases n
  {
    if n == 0 then Ok([], r)
    else
      match get(r)
      case Failed => Failed
      case Ok(x, rest) =>
        match ReadMany(get, n - 1, rest)
        case Failed => Failed
        case Ok(xs, rest') => Ok([x] + xs, rest')
  }

  function MapSeq<T, U>(f: T -> U, xs: seq<T>): seq<U> {
    if xs == [] then [] else [f(xs[0])] + MapSeq(f, xs[1..])
  }

  /** Reading what was written for x gives its meaning and leaves the rest alone. */
  ghost predicate Inverts<T, U(!new)>(put: T -> bytes, get: bytes -> Read<U>, mean: T -> U, x: T) {
    forall rest: bytes {:trigger get(put(x) + rest)} :: get(put(x) + rest) == Ok(mean(x), rest)
  }

  lemma {:induction false} ManyRoundTrip<T, U(!new)>(put: T -> bytes, get: bytes -> Read<U>, mean: T -> U, xs: seq<T>,
                                                     rest: bytes)
    requires forall i | 0 <= i < |xs| :: Inverts(put, get, mean, xs[i])
    ensures ReadMany(get, |xs|, PutAll(put, xs) + rest) == Ok(MapSeq(mean, xs), rest)
  {
    if xs == [] {
      assert PutAll(put, xs) + rest == rest;
    } else {
      var tail := xs[1..];
      assert Inverts(put, get, mean, xs[0]);
      Associates(put(xs[0]), PutAll(put, tail), rest);
      forall i | 0 <= i < |tail| ensures Inverts(put, get, mean, tail[i]) {
        assert Inverts(put, get, mean, xs[i + 1]);
      }
      ManyRoundTrip(put, get, mean, tail, rest);
    }
  }

  /** A count and then that many items. */
  function PutCounted<T>(put: T -> bytes, xs: seq<T>): bytes {
    PutUvarint(|xs|) + PutAll(put, xs)
  }

  function ReadCounted<U>(get: bytes -> Read<U>, r: bytes): Read<seq<U>> {
    match ReadNumber(r)
    case Failed => Failed
    case Ok(n, rest) => ReadMany(get, n, rest)
  }

  lemma CountedRoundTrip<T, U(!new)>(put: T -> bytes, get: bytes -> Read<U>, mean: T -> U, xs: seq<T>, rest: bytes)
    requires |xs| < TWO_64 && forall i | 0 <= i < |xs| :: Inverts(put, get, mean, xs[i])
    ensures ReadCounted(get, PutCounted(put, xs) + rest) == Ok(MapSeq(mean, xs), rest)
  {
    Associates(PutUvarint(|xs|), PutAll(put, xs), rest);
    NumberRoundTrip(|xs|, PutAll(put, xs) + rest);
    ManyRoundTrip(put, get, mean, xs, rest);
  }

  // ---------------------------------------------------------------------------
  // Values.  A written value fixes the order in which Go iterated over its maps.
  // ---------------------------------------------------------------------------

  type Pair = (bytes, bytes)

  datatype ZSetItem = ZSetItem(score: nat, member: bytes)  // the score as its 64 IEEE bits

  datatype WrittenStreamItem = WrittenStreamItem(id: bytes, fields: seq<Pair>)

  datatype StreamItem = StreamItem(id: bytes, fields: map<bytes, bytes>)

  datatype Written =
    | WString(s: bytes)
    | WList(items: seq<bytes>)
    | WSet(items: seq<bytes>)
    | WZSet(zitems: seq<ZSetItem>)
    | WHash(fields: seq<Pair>)
    | WStream(sitems: seq<WrittenStreamItem>)
    | WVector(dim: nat, vectors: seq<(bytes, seq<nat>)>)  // each float32 as its 32 bits

  datatype Value =
    | String(s: bytes)
    | List(items: seq<bytes>)
    | Set(items: seq<bytes>)
    | ZSet(zitems: seq<ZSetItem>)
    | Hash(fields: map<bytes, bytes>)
    | Stream(sitems: seq<StreamItem>)
    | Vector(dim: int, vectors: map<bytes, seq<nat>>)

  /** The map that results from storing the pairs in order. */
  function MapOf<K, V>(pairs: seq<(K, V)>): map<K, V> {
    if pairs == [] then map[]
    else MapOf(pairs[..|pairs| - 1])[pairs[|pairs| - 1].0 := pairs[|pairs| - 1].1]
  }

  /** Any order in which a map is listed gives the map back. */
  lemma {:induction false} ListingIsMap<K, V>(m: map<K, V>, pairs: seq<(K, V)>)
    requires Lists(pairs, m)
    ensures MapOf(pairs) == m
  {
    if pairs == [] {
      assert m == map[];
    } else {
      var last, front := pairs[|pairs| - 1], pairs[..|pairs| - 1];
      FrontLists(m, pairs);
      ListingIsMap(m - {last.0}, front);
    }
  }

  lemma FrontLists<K, V>(m: map<K, V>, pairs: seq<(K, V)>)
    requires Lists(pairs, m) && pairs != []
    ensures var last, front := pairs[|pairs| - 1], pairs[..|pairs| - 1];
      Lists(front, m - {last.0}) && (m - {last.0})[last.0 := last.1] == m
  {
    var last, front := pairs[|pairs| - 1], pairs[..|pairs| - 1];
    forall k | k in m - {last.0} ensures exists i :: 0 <= i < |front| && front[i].0 == k {
      var i :| 0 <= i < |pairs| && pairs[i].0 == k;
      assert front[i].0 == k;
    }
  }

  /** The pairs are the map's, each key once, in any order. */
  ghost predicate Lists<K, V>(pairs: seq<(K, V)>, m: map<K, V>) {
    && (forall i, j | 0 <= i < j < |pairs| :: pairs[i].0 != pairs[j].0)
    && (forall i | 0 <= i < |pairs| :: pairs[i].0 in m && m[pairs[i].0] == pairs[i].1)
    && (forall k | k in m :: exists i :: 0 <= i < |pairs| && pairs[i].0 == k)
  }

  function StreamMeaning(x: WrittenStreamItem): StreamItem {
    StreamItem(x.id, MapOf(x.fields))
  }

  function Same<T>(x: T): T { x }

  function Meaning(w: Written): Value {
    match w
    case WString(s) => String(s)
    case WList(items) => List(items)
    case WSet(items) => Set(items)
    case WZSet(items) => ZSet(items)
    case WHash(fields) => Hash(MapOf(fields))
    case WStream(items) => Stream(MapSeq(StreamMeaning, items))
    case WVector(dim, vectors) => Vector(dim, MapOf(vectors))
  }

  /** The written form is one that the writer may choose for the value. */
  ghost predicate Writes(w: Written, v: Value) {
    match w
    case WString(s) => v == String(s)
    case WList(items) => v == List(items)
    case WSet(items) => v == Set(items)
    case WZSet(items) => v == ZSet(items)
    case WHash(fields) => v.Hash? && Lists(fields, v.fields)
    case WStream(items) =>
      && v.Stream? && |items| == |v.sitems|
      && forall i | 0 <= i < |items| :: items[i].id == v.sitems[i].id && Lists(items[i].fields, v.sitems[i].fields)
    case WVector(dim, vectors) => v.Vector? && v.dim == dim && Lists(vectors, v.vectors)
  }

  lemma {:induction false} MapSeqAt<T, U>(f: T -> U, xs: seq<T>)
    ensures |MapSeq(f, xs)| == |xs| && forall i | 0 <= i < |xs| :: MapSeq(f, xs)[i] == f(xs[i])
  {
    if xs != [] { MapSeqAt(f, xs[1..]); }
  }

  /** Whatever order the writer chose, the meaning is the value. */
  lemma MeaningOfWritten(w: Written, v: Value)
    requires Writes(w, v)
    ensures Meaning(w) == v
  {
    match w
    case WHash(fields) => ListingIsMap(v.fields, fields);
    case WStream(items) =>
      MapSeqAt(StreamMeaning, items);
      forall i | 0 <= i < |items| ensures MapSeq(StreamMeaning, items)[i] == v.sitems[i] {
        ListingIsMap(v.sitems[i].fields, items[i].fields);
      }
      assert MapSeq(StreamMeaning, items) == v.sitems;
    case WVector(dim, vectors) => ListingIsMap(v.vectors, vectors);
    case _ =>
  }

  function TypeByte(w: Written): byte {
    match w
    case WString(_) => 0
    case WList(_) => 1
    case WSet(_) => 2
    case WZSet(_) => 3
    case WHash(_) => 4
    case WStream(_) => 6
    case WVector(_, _) => 240
  }

  function PutPair(p: Pair): bytes { PutString(p.0) + PutString(p.1) }

  function ReadPair(r: bytes): Read<Pair> {
    match ReadString(r)
    case Failed => Failed
    case Ok(f, rest) =>
      match ReadString(rest)
      case Failed => Failed
      case Ok(v, rest') => Ok((f, v), rest')
  }

  function PutZSetItem(x: ZSetItem): bytes { PutLE(x.score, 8) + PutString(x.member) }

  function ReadZSetItem(r: bytes): Read<ZSetItem> {
    match ReadLE(r, 8)
    case Failed => Failed
    case Ok(score, rest) =>
      match ReadString(rest)
      case Failed => Failed
      case Ok(m, rest') => Ok(ZSetItem(score, m), rest')
  }

  function PutStreamItem(x: WrittenStreamItem): bytes { PutString(x.id) + PutCounted(PutPair, x.fields) }

  function ReadStreamItem(r: bytes): Read<StreamItem> {
    match ReadString(r)
    case Failed => Failed
    case Ok(id, rest) =>
      match ReadCounted(ReadPair, rest)
      case Failed => Failed
      case Ok(fields, rest') => Ok(StreamItem(id, MapOf(fields)), rest')
  }

  function PutFloat(x: nat): bytes { PutLE(x, 4) }

  function ReadFloat(r: bytes): Read<nat> { ReadLE(r, 4) }

  /** A vector is written with all its components; the number read back is the dimension of the index. */
  function PutVector(v: (bytes, seq<nat>)): bytes { PutString(v.0) + PutAll(PutFloat, v.1) }

  function ReadVector(dim: nat, r: bytes): Read<(bytes, seq<nat>)> {
    match ReadString(r)
    case Failed => Failed
    case Ok(id, rest) =>
      match ReadMany(ReadFloat, dim, rest)
      case Failed => Failed
      case Ok(v, rest') => Ok((id, v), rest')
  }

  function VectorReader(dim: nat): bytes -> Read<(bytes, seq<nat>)> { s => ReadVector(dim, s) }

  function ReadIndex(r: bytes): Read<Value> {
    match ReadNumber(r)
    case Failed => Failed
    case Ok(dim, rest) =>
      match ReadCounted(VectorReader(dim), rest)
      case Failed => Failed
      case Ok(vectors, rest') => Ok(Vector(Signed(dim), MapOf(vectors)), rest')
  }

  function EncodeValue(w: Written): bytes {
    match w
    case WString(s) => PutString(s)
    case WList(items) => PutCounted(PutString, items)
    case WSet(items) => PutCounted(PutString, items)
    case WZSet(items) => PutCounted(PutZSetItem, items)
    case WHash(fields) => PutCounted(PutPair, fields)
    case WStream(items) => PutCounted(PutStreamItem, items)
    case WVector(dim, vectors) => PutUvarint(dim) + PutCounted(PutVector, vectors)
  }

  function DecodeValue(t: byte, r: bytes): Read<Value> {
    if t == 0 then var v := ReadString(r); if v.Ok? then Ok(String(v.value), v.rest) else Failed
    else if t == 1 then var v := ReadCounted(ReadString, r); if v.Ok? then Ok(List(v.value), v.rest) else Failed
    else if t == 2 then var v := ReadCounted(ReadString, r); if v.Ok? then Ok(Set(v.value), v.rest) else Failed
    else if t == 3 then var v := ReadCounted(ReadZSetItem, r); if v.Ok? then Ok(ZSet(v.value), v.rest) else Failed
    else if t == 4 then var v := ReadCounted(ReadPair, r); if v.Ok? then Ok(Hash(MapOf(v.value)), v.rest) else Failed
    else if t == 6 then var v := ReadCounted(ReadStreamItem, r); if v.Ok? then Ok(Stream(v.value), v.rest) else Failed
    else if t == 240 then ReadIndex(r)
    else Failed
  }

  // ---------------------------------------------------------------------------
  // Decoding inverts encoding.
  // ---------------------------------------------------------------------------

  predicate StringFits(s: bytes) { |s| < TWO_64 }

  predicate PairFits(p: Pair) { StringFits(p.0) && StringFits(p.1) }

  predicate StreamItemFits(x: WrittenStreamItem) {
    StringFits(x.id) && |x.fields| < TWO_64 && forall p | p in x.fields :: PairFits(p)
  }

  predicate VectorFits(dim: nat, v: (bytes, seq<nat>)) {
    StringFits(v.0) && |v.1| == dim && forall x | x in v.1 :: x < 0x1_0000_0000
  }

  /** Lengths are 64-bit, scores and floats have their width, and every vector has the stated dimension. */
  predicate Fits(w: Written) {
    match w
    case WString(s) => StringFits(s)
    case WList(items) => |items| < TWO_64 && forall x | x in items :: StringFits(x)
    case WSet(items) => |items| < TWO_64 && forall x | x in items :: StringFits(x)
    case WZSet(items) => |items| < TWO_64 && forall x | x in items :: x.score < TWO_64 && StringFits(x.member)
    case WHash(fields) => |fields| < TWO_64 && forall p | p in fields :: PairFits(p)
    case WStream(items) => |items| < TWO_64 && forall x | x in items :: StreamItemFits(x)
    case WVector(dim, vectors) => dim < TWO_63 && |vectors| < TWO_64 && forall v | v in vectors :: VectorFits(dim, v)
  }

  lemma {:induction false} MapSame<T(!new)>(f: T -> T, xs: seq<T>)
    requires forall x :: f(x) == x
    ensures MapSeq(f, xs) == xs
  {
    if xs != [] { MapSame(f, xs[1..]); }
  }

  lemma StringInverts(s: bytes)
    requires StringFits(s)
    ensures Inverts(PutString, ReadString, Same, s)
  {
    forall rest: bytes ensures ReadString(PutString(s) + rest) == Ok(s, rest) { StringRoundTrip(s, rest); }
  }

  lemma PairInverts(p: Pair)
    requires PairFits(p)
    ensures Inverts(PutPair, ReadPair, Same, p)
  {
    forall rest: bytes ensures ReadPair(PutPair(p) + rest) == Ok(p, rest) { PairRoundTrip(p, rest); }
  }

  lemma PairRoundTrip(p: Pair, rest: bytes)
    requires PairFits(p)
    ensures ReadPair(PutPair(p) + rest) == Ok(p, rest)
  {
    var first, second := PutString(p.0), PutString(p.1);
    Associates(first, second, rest);
    StringRoundTrip(p.0, second + rest);
    StringRoundTrip(p.1, rest);
  }

  lemma Pow256Values()
    ensures Pow256(2) == 65536 && Pow256(4) == 0x1_0000_0000 && Pow256(8) == TWO_64
  {
  }

  lemma ZSetItemInverts(x: ZSetItem)
    requires x.score < TWO_64 && StringFits(x.member)
    ensures Inverts(PutZSetItem, ReadZSetItem, Same, x)
  {
    Pow256Values();
    forall rest: bytes ensures ReadZSetItem(PutZSetItem(x) + rest) == Ok(x, rest) {
      Associates(PutLE(x.score, 8), PutString(x.member), rest);
      ReadLERoundTrip(x.score, 8, PutString(x.member) + rest);
      StringRoundTrip(x.member, rest);
    }
  }

  lemma StreamItemInverts(x: WrittenStreamItem)
    requires StreamItemFits(x)
    ensures Inverts(PutStreamItem, ReadStreamItem, StreamMeaning, x)
  {
    forall rest: bytes ensures ReadStreamItem(PutStreamItem(x) + rest) == Ok(StreamMeaning(x), rest) {
      Associates(PutString(x.id), PutCounted(PutPair, x.fields), rest);
      StringRoundTrip(x.id, PutCounted(PutPair, x.fields) + rest);
      PairsRoundTrip(x.fields, rest);
    }
  }

  lemma PairsRoundTrip(fields: seq<Pair>, rest: bytes)
    requires |fields| < TWO_64 && forall p | p in fields :: PairFits(p)
    ensures ReadCounted(ReadPair, PutCounted(PutPair, fields) + rest) == Ok(fields, rest)
  {
    forall i | 0 <= i < |fields| ensures Inverts(PutPair, ReadPair, Same, fields[i]) { PairInverts(fields[i]); }
    CountedRoundTrip(PutPair, ReadPair, Same, fields, rest);
    MapSame(Same, fields);
  }

  lemma StringsRoundTrip(items: seq<bytes>, rest: bytes)
    requires |items| < TWO_64 && forall x | x in items :: StringFits(x)
    ensures ReadCounted(ReadString, PutCounted(PutString, items) + rest) == Ok(items, rest)
  {
    forall i | 0 <= i < |items| ensures Inverts(PutString, ReadString, Same, items[i]) { StringInverts(items[i]); }
    CountedRoundTrip(PutString, ReadString, Same, items, rest);
    MapSame(Same, items);
  }

  lemma ZSetRoundTrip(items: seq<ZSetItem>, rest: bytes)
    requires |items| < TWO_64 && forall x | x in items :: x.score < TWO_64 && StringFits(x.member)
    ensures ReadCounted(ReadZSetItem, PutCounted(PutZSetItem, items) + rest) == Ok(items, rest)
  {
    forall i | 0 <= i < |items| ensures Inverts(PutZSetItem, ReadZSetItem, Same, items[i]) {
      ZSetItemInverts(items[i]);
    }
    CountedRoundTrip(PutZSetItem, ReadZSetItem, Same, items, rest);
    MapSame(Same, items);
  }

  lemma StreamRoundTrip(items: seq<WrittenStreamItem>, rest: bytes)
    requires |items| < TWO_64 && forall x | x in items :: StreamItemFits(x)
    ensures ReadCounted(ReadStreamItem, PutCounted(PutStreamItem, items) + rest) ==
      Ok(MapSeq(StreamMeaning, items), rest)
  {
    forall i | 0 <= i < |items| ensures Inverts(PutStreamItem, ReadStreamItem, StreamMeaning, items[i]) {
      StreamItemInverts(items[i]);
    }
    CountedRoundTrip(PutStreamItem, ReadStreamItem, StreamMeaning, items, rest);
  }

  lemma FloatInverts(x: nat)
    requires x < 0x1_0000_0000
    ensures Inverts(PutFloat, ReadFloat, Same, x)
  {
    Pow256Values();
    forall r: bytes ensures ReadFloat(PutFloat(x) + r) == Ok(x, r) { ReadLERoundTrip(x, 4, r); }
  }

  lemma FloatsRoundTrip(v: seq<nat>, rest: bytes)
    requires forall x | x in v :: x < 0x1_0000_0000
    ensures ReadMany(ReadFloat, |v|, PutAll(PutFloat, v) + rest) == Ok(v, rest)
  {
    forall i | 0 <= i < |v| ensures Inverts(PutFloat, ReadFloat, Same, v[i]) {
      assert v[i] in v;
      FloatInverts(v[i]);
    }
    ManyRoundTrip(PutFloat, ReadFloat, Same, v, rest);
    MapSame(Same, v);
  }

  lemma VectorsRoundTrip(dim: nat, vectors: seq<(bytes, seq<nat>)>, rest: bytes)
    requires |vectors| < TWO_64 && forall v | v in vectors :: VectorFits(dim, v)
    ensures ReadCounted(VectorReader(dim), PutCounted(PutVector, vectors) + rest) == Ok(vectors, rest)
  {
    var get := VectorReader(dim);
    forall i | 0 <= i < |vectors| ensures Inverts(PutVector, get, Same, vectors[i]) {
      var v := vectors[i];
      assert VectorFits(dim, v);
      forall r: bytes ensures ReadVector(dim, PutVector(v) + r) == Ok(v, r) {
        Associates(PutString(v.0), PutAll(PutFloat, v.1), r);
        StringRoundTrip(v.0, PutAll(PutFloat, v.1) + r);
        FloatsRoundTrip(v.1, r);
      }
    }
    CountedRoundTrip(PutVector, get, Same, vectors, rest);
    MapSame(Same, vectors);
  }

  lemma IndexRoundTrip(dim: nat, vectors: seq<(bytes, seq<nat>)>, rest: bytes)
    requires dim < TWO_63 && |vectors| < TWO_64 && forall v | v in vectors :: VectorFits(dim, v)
    ensures ReadIndex(PutUvarint(dim) + PutCounted(PutVector, vectors) + rest) == Ok(Vector(dim, MapOf(vectors)), rest)
  {
    var body := PutCounted(PutVector, vectors);
    Associates(PutUvarint(dim), body, rest);
    NumberRoundTrip(dim, body + rest);
    VectorsRoundTrip(dim, vectors, rest);
  }

  /** All seven types. */
  lemma ValueRoundTrip(w: Written, rest: bytes)
    requires Fits(w)
    ensures DecodeValue(TypeByte(w), EncodeValue(w) + rest) == Ok(Meaning(w), rest)
  {
    var t, r := TypeByte(w), EncodeValue(w) + rest;
    match w
    case WString(s) => StringRoundTrip(s, rest); assert t == 0 && ReadString(r) == Ok(s, rest);
    case WList(xs) => StringsRoundTrip(xs, rest); assert t == 1 && ReadCounted(ReadString, r) == Ok(xs, rest);
    case WSet(xs) => StringsRoundTrip(xs, rest); assert t == 2 && ReadCounted(ReadString, r) == Ok(xs, rest);
    case WZSet(xs) => ZSetRoundTrip(xs, rest); assert t == 3 && ReadCounted(ReadZSetItem, r) == Ok(xs, rest);
    case WHash(xs) => PairsRoundTrip(xs, rest); assert t == 4 && ReadCounted(ReadPair, r) == Ok(xs, rest);
    case WStream(xs) => StreamRoundTrip(xs, rest);
    case WVector(dim, xs) => IndexRoundTrip(dim, xs, rest);
  }
}

