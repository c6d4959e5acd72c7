/**
 Whole snapshot files: what is saved is what is loaded, and a file damaged in one place is refused.
 */
module SnapshotFile {
  import opened Bytes
  import opened Bits
  import opened Crc64
  import opened Snapshot

  // ---------------------------------------------------------------------------
  // Saving.
  // ---------------------------------------------------------------------------

  /** A key to save; expiresAt is in milliseconds, and 0 or less when the key does not expire. */
  datatype Record = Record(key: bytes, expiresAt: int, value: Written)

  predicate Expired(expiresAt: int, now: int) { 0 < expiresAt <= now }

  predicate RecordFits(e: Record) { StringFits(e.key) && e.expiresAt < TWO_63 && Fits(e.value) }

  const HEADER: bytes := [82, 69, 68, 73, 83, 48, 48, 48, 57]  // REDIS0009

  function PutAux(p: Pair): bytes { [0xFA] + PutPair(p) }

  function PutExpiry(expiresAt: int): bytes {
    if expiresAt > 0 then [0xFC] + PutLE(expiresAt, 8) else []
  }

  /** The bytes of a key and its value. */
  function KeyValue(e: Record): bytes { PutString(e.key) + EncodeValue(e.value) }

  function PutRecord(e: Record): bytes {
    PutExpiry(e.expiresAt) + ([TypeByte(e.value)] + KeyValue(e))
  }

  /** The records not yet expired. */
  function Live(records: seq<Record>, now: int): (r: seq<Record>)
    ensures |r| <= |records| && forall e | e in r :: e in records && !Expired(e.expiresAt, now)
  {
    if records == [] then []
    else (if Expired(records[0].expiresAt, now) then [] else [records[0]]) + Live(records[1..], now)
  }

  /** Those are the records without a deadline, or with one that is still to come, in their order. */
  lemma {:induction false} LiveMeans(records: seq<Record>, now: int)
    ensures forall e :: e in Live(records, now) <==> e in records && (e.expiresAt <= 0 || now < e.expiresAt)
    ensures (forall e | e in records :: e.expiresAt <= 0 || now < e.expiresAt) ==> Live(records, now) == records
  {
    if records != [] {
      LiveMeans(records[1..], now);
      assert records == [records[0]] + records[1..];
    }
  }

  function Expiring(records: seq<Record>): (n: nat)
    ensures n <= |records|
  {
    if records == [] then 0 else (if records[0].expiresAt > 0 then 1 else 0) + Expiring(records[1..])
  }

  /** The database selector and the size hints. */
  function Hints(count: nat, expiring: nat): bytes {
    ([0xFE] + PutUvarint(0)) + ([0xFB] + (PutUvarint(count) + PutUvarint(expiring)))
  }

  function Body(aux: seq<Pair>, live: seq<Record>): bytes {
    PutAll(PutAux, aux) + (Hints(|live|, Expiring(live)) + (PutAll(PutRecord, live) + [0xFF]))
  }

  function Payload(aux: seq<Pair>, records: seq<Record>, now: int): bytes {
    HEADER + Body(aux, Live(records, now))
  }

  /** The checksum that the file carries. */
  function Sum(payload: bytes): nat { ValueOf(Checksum(POLY, Zeros(64), payload)) }

  function Save(aux: seq<Pair>, records: seq<Record>, now: int): bytes {
    Payload(aux, records, now) + PutLE(Sum(Payload(aux, records, now)), 8)
  }

  // ---------------------------------------------------------------------------
  // Loading.
  // ---------------------------------------------------------------------------

  datatype Loading = Loading(aux: map<bytes, bytes>, delivered: seq<Delivered>)

  /** What the handler is called with. */
  datatype Delivered = Delivered(key: bytes, kind: byte, expiresAt: int, value: Value)

  datatype Step = More(rest: bytes, state: Loading) | Broken

  /** Entries reach the handler before the checksum is known, so failures say which did. */
  datatype Outcome =
    | Loaded(aux: map<bytes, bytes>, delivered: seq<Delivered>)
    | TooShort
    | BadHeader
    | BadRecord(delivered: seq<Delivered>)
    | ChecksumMismatch(delivered: seq<Delivered>)

  /** A key and its value, after the type byte. */
  function ReadRecord(t: byte, expiresAt: int, r: bytes, now: int, s: Loading): (v: Step)
    ensures v.More? ==> |v.rest| <= |r|
  {
    match ReadString(r)
    case Failed => Broken
    case Ok(key, rest) =>
      ValueShrinks(t, rest);
      match DecodeValue(t, rest)
      case Failed => Broken
      case Ok(value, rest') =>
        if Expired(expiresAt, now) then More(rest', s)
        else More(rest', s.(delivered := s.delivered + [Delivered(key, t, expiresAt, value)]))
  }

  /** An expiry of k bytes, the type byte and the record. */
  function ReadExpiring(k: nat, r: bytes, now: int, s: Loading): (v: Step)
    ensures v.More? ==> |v.rest| <= |r|
  {
    match ReadLE(r, k)
    case Failed => Broken
    case Ok(n, rest) =>
      if rest == [] then Broken
      else ReadRecord(rest[0], if k == 4 then n * 1000 else Signed(n), rest[1..], now, s)
  }

  /** One turn of the record loop, after the opcode b. */
  function ReadOne(b: byte, r: bytes, now: int, s: Loading): (v: Step)
    ensures v.More? ==> |v.rest| <= |r|
  {
    if b == 0xFA then
      PairShrinks(r);
      match ReadPair(r)
      case Failed => Broken
      case Ok(p, rest) => More(rest, s.(aux := s.aux[p.0 := p.1]))
    else if b == 0xFE then More(ReadUvarint(r, 0).rest, s)
    else if b == 0xFB then More(ReadUvarint(ReadUvarint(r, 0).rest, 0).rest, s)
    else if b == 0xFD then ReadExpiring(4, r, now, s)
    else if b == 0xFC then ReadExpiring(8, r, now, s)
    else ReadRecord(b, 0, r, now, s)
  }

  /** The record loop: whether it ended well, and what it gathered. */
  function Scan(r: bytes, now: int, s: Loading): (bool, Loading)
    decreases |r|
  {
    if r == [] || r[0] == 0xFF then (true, s)
    else
      match ReadOne(r[0], r[1..], now, s)
      case Broken => (false, s)
      case More(rest, s') => Scan(rest, now, s')
  }

  function Verdict(payload: bytes, expected: nat, now: int): Outcome
    requires |payload| >= 10
  {
    if payload[..5] != HEADER[..5] then BadHeader
    else
      var (ok, s) := Scan(payload[9..], now, Loading(map[], []));
      if !ok then BadRecord(s.delivered)
      else if expected != 0 && Sum(payload) != expected then ChecksumMismatch(s.delivered)
      else Loaded(s.aux, s.delivered)
  }

  function Load(file: bytes, now: int): Outcome {
    if |file| < 18 then TooShort
    else Verdict(file[..|file| - 8], GetLE(file[|file| - 8..]), now)
  }

  // ---------------------------------------------------------------------------
  // Readers only move forward.
  // ---------------------------------------------------------------------------

  ghost predicate Shrinks<T(!new)>(get: bytes -> Read<T>) {
    forall r: bytes {:trigger get(r)} :: get(r).Ok? ==> |get(r).rest| <= |r|
  }

  lemma {:induction false} ManyShrinks<T(!new)>(get: bytes -> Read<T>, n: nat, r: bytes)
    requires Shrinks(get)
    ensures ReadMany(get, n, r).Ok? ==> |ReadMany(get, n, r).rest| <= |r|
    decreases n
  {
    if n > 0 && get(r).Ok? { ManyShrinks(get, n - 1, get(r).rest); }
  }

  lemma CountedShrinks<T(!new)>(get: bytes -> Read<T>, r: bytes)
    requires Shrinks(get)
    ensures ReadCounted(get, r).Ok? ==> |ReadCounted(get, r).rest| <= |r|
  {
    var n := ReadNumber(r);
    if n.Ok? { ManyShrinks(get, n.value, n.rest); }
  }

  lemma PairShrinks(r: bytes)
    ensures ReadPair(r).Ok? ==> |ReadPair(r).rest| <= |r|
  {
  }

  lemma StreamItemShrinks(r: bytes)
    ensures ReadStreamItem(r).Ok? ==> |ReadStreamItem(r).rest| <= |r|
  {
    var id := ReadString(r);
    if id.Ok? { CountedShrinks(ReadPair, id.rest); }
  }

  lemma VectorShrinks(dim: nat, r: bytes)
    ensures ReadVector(dim, r).Ok? ==> |ReadVector(dim, r).rest| <= |r|
  {
    var id := ReadString(r);
    if id.Ok? { ManyShrinks(ReadFloat, dim, id.rest); }
  }

  lemma IndexShrinks(r: bytes)
    ensures ReadIndex(r).Ok? ==> |ReadIndex(r).rest| <= |r|
  {
    var dim := ReadNumber(r);
    if dim.Ok? {
      forall s: bytes { VectorShrinks(dim.value, s); }
      CountedShrinks(VectorReader(dim.value), dim.rest);
    }
  }

  lemma ValueShrinks(t: byte, r: bytes)
    ensures DecodeValue(t, r).Ok? ==> |DecodeValue(t, r).rest| <= |r|
  {
    if t == 1 || t == 2 { CountedShrinks(ReadString, r); }
    else if t == 3 { CountedShrinks(ReadZSetItem, r); }
    else if t == 4 { CountedShrinks(ReadPair, r); }
    else if t == 6 { forall s: bytes { StreamItemShrinks(s); } CountedShrinks(ReadStreamItem, r); }
    else if t == 240 { IndexShrinks(r); }
  }

  // ---------------------------------------------------------------------------
  // The record loop undoes the writer.
  // ---------------------------------------------------------------------------

  /** The map after storing the pairs in order. */
  function Stored(m: map<bytes, bytes>, pairs: seq<Pair>): map<bytes, bytes>
    decreases |pairs|
  {
    if pairs == [] then m else Stored(m[pairs[0].0 := pairs[0].1], pairs[1..])
  }

  lemma {:induction false} StoredLast(m: map<bytes, bytes>, pairs: seq<Pair>, p: Pair)
    ensures Stored(m, pairs + [p]) == Stored(m, pairs)[p.0 := p.1]
    decreases |pairs|
  {
    if pairs == [] {
      assert ([p])[1..] == [];
      assert pairs + [p] == [p];
    } else {
      assert (pairs + [p])[1..] == pairs[1..] + [p];
      StoredLast(m[pairs[0].0 := pairs[0].1], pairs[1..], p);
    }
  }

  lemma {:induction false} StoredIsMapOf(pairs: seq<Pair>)
    ensures Stored(map[], pairs) == MapOf(pairs)
    decreases |pairs|
  {
    if pairs != [] {
      var front, last := pairs[..|pairs| - 1], pairs[|pairs| - 1];
      StoredIsMapOf(front);
      StoredLast(map[], front, last);
      assert pairs == front + [last];
    }
  }

  type Scanner = (bytes, int, Loading) -> (bool, Loading)

  /** A name for Scan under which it is not unfolded. */
  ghost predicate IsScan(scan: Scanner) {
    forall r: bytes, now: int, s: Loading {:trigger Scan(r, now, s)} :: scan(r, now, s) == Scan(r, now, s)
  }

  /** One turn of the loop. */
  lemma ScanStep(scan: Scanner, b: byte, r: bytes, rest: bytes, now: int, s: Loading, s': Loading)
    requires IsScan(scan) && b != 0xFF && ReadOne(b, r, now, s) == More(rest, s')
    ensures scan([b] + r, now, s) == scan(rest, now, s')
  {
    assert ([b] + r)[1..] == r;
    assert Scan([b] + r, now, s) == Scan(rest, now, s');
  }

  lemma {:induction false} ScanAux(scan: Scanner, aux: seq<Pair>, rest: bytes, now: int, s: Loading)
    requires IsScan(scan) && forall p | p in aux :: PairFits(p)
    ensures scan(PutAll(PutAux, aux) + rest, now, s) == scan(rest, now, s.(aux := Stored(s.aux, aux)))
    decreases |aux|
  {
    if aux == [] {
      assert PutAll(PutAux, aux) + rest == rest;
    } else {
      var p, more := aux[0], PutAll(PutAux, aux[1..]) + rest;
      assert PutAll(PutAux, aux) + rest == [0xFA] + (PutPair(p) + more);
      PairRoundTrip(p, more);
      var s' := s.(aux := s.aux[p.0 := p.1]);
      ScanStep(scan, 0xFA, PutPair(p) + more, more, now, s, s');
      ScanAux(scan, aux[1..], rest, now, s');
    }
  }

  lemma VarintSkipped(n: nat, rest: bytes)
    requires n < TWO_64
    ensures ReadUvarint(PutUvarint(n) + rest, 0).rest == rest
  {
    LimitIs64Bits();
    VarintRoundTrip(n, 0, rest);
  }

  /** The loader uses none of them. */
  lemma ScanHints(scan: Scanner, count: nat, expiring: nat, rest: bytes, now: int, s: Loading)
    requires IsScan(scan) && count < TWO_64 && expiring < TWO_64
    ensures scan(Hints(count, expiring) + rest, now, s) == scan(rest, now, s)
  {
    var n0, n1, n2 := PutUvarint(0), PutUvarint(count), PutUvarint(expiring);
    var resize := [0xFB] + (n1 + (n2 + rest));
    assert Hints(count, expiring) + rest == [0xFE] + (n0 + resize);
    VarintSkipped(0, resize);
    ScanStep(scan, 0xFE, n0 + resize, resize, now, s, s);
    VarintSkipped(count, n2 + rest);
    VarintSkipped(expiring, rest);
    ScanStep(scan, 0xFB, n1 + (n2 + rest), rest, now, s, s);
  }

  /** What loading a saved record delivers. */
  function Restored(e: Record): Delivered {
    Delivered(e.key, TypeByte(e.value), if e.expiresAt > 0 then e.expiresAt else 0, Meaning(e.value))
  }

  /** The state after reading a record: it is delivered unless it has expired. */
  function After(e: Record, now: int, s: Loading): Loading {
    if Expired(e.expiresAt, now) then s else s.(delivered := s.delivered + [Restored(e)])
  }

  lemma ReadRecordBack(e: Record, rest: bytes, now: int, s: Loading)
    requires RecordFits(e)
    ensures ReadRecord(TypeByte(e.value), if e.expiresAt > 0 then e.expiresAt else 0, KeyValue(e) + rest, now, s)
      == More(rest, After(e, now, s))
  {
    var k, v := PutString(e.key), EncodeValue(e.value);
    Associates(k, v, rest);
    StringRoundTrip(e.key, v + rest);
    ValueRoundTrip(e.value, rest);
  }

  lemma ReadExpiringBack(e: Record, rest: bytes, now: int, s: Loading)
    requires RecordFits(e) && e.expiresAt > 0
    ensures ReadExpiring(8, PutLE(e.expiresAt, 8) + ([TypeByte(e.value)] + (KeyValue(e) + rest)), now, s)
      == More(rest, After(e, now, s))
  {
    var t, body := TypeByte(e.value), KeyValue(e) + rest;
    Pow256Values();
    ReadLERoundTrip(e.expiresAt, 8, [t] + body);
    assert ([t] + body)[1..] == body;
    ReadRecordBack(e, rest, now, s);
  }

  /** An expiring record, regrouped around its opcode. */
  lemma ExpiringLayout(x: bytes, t: byte, body: bytes, rest: bytes)
    ensures ([0xFC] + x) + ([t] + body) + rest == [0xFC] + (x + ([t] + (body + rest)))
  {
  }

  lemma ScanExpiring(scan: Scanner, e: Record, rest: bytes, now: int, s: Loading)
    requires IsScan(scan) && RecordFits(e) && e.expiresAt > 0
    ensures scan(PutRecord(e) + rest, now, s) == scan(rest, now, After(e, now, s))
  {
    var x, t := PutLE(e.expiresAt, 8), TypeByte(e.value);
    ExpiringLayout(x, t, KeyValue(e), rest);
    ReadExpiringBack(e, rest, now, s);
    ScanStep(scan, 0xFC, x + ([t] + (KeyValue(e) + rest)), rest, now, s, After(e, now, s));
  }

  lemma ScanPlain(scan: Scanner, t: byte, r: bytes, rest: bytes, now: int, s: Loading, s': Loading)
    requires IsScan(scan) && t < 0xFA && ReadRecord(t, 0, r, now, s) == More(rest, s')
    ensures scan([t] + r, now, s) == scan(rest, now, s')
  {
    ScanStep(scan, t, r, rest, now, s, s');
  }

  lemma LastingLayout(t: byte, body: bytes, rest: bytes)
    ensures [] + ([t] + body) + rest == [t] + (body + rest)
  {
  }

  lemma ScanLasting(scan: Scanner, e: Record, rest: bytes, now: int, s: Loading)
    requires IsScan(scan) && RecordFits(e) && e.expiresAt <= 0
    ensures scan(PutRecord(e) + rest, now, s) == scan(rest, now, After(e, now, s))
  {
    LastingLayout(TypeByte(e.value), KeyValue(e), rest);
    ReadRecordBack(e, rest, now, s);
    ScanPlain(scan, TypeByte(e.value), KeyValue(e) + rest, rest, now, s, After(e, now, s));
  }

  /** The state after reading the records. */
  function AfterAll(records: seq<Record>, now: int, s: Loading): Loading {
    s.(delivered := s.delivered + MapSeq(Restored, Live(records, now)))
  }

  lemma AfterFirst(records: seq<Record>, now: int, s: Loading)
    requires records != []
    ensures AfterAll(records[1..], now, After(records[0], now, s)) == AfterAll(records, now, s)
  {
    var tail := Live(records[1..], now);
    if Expired(records[0].expiresAt, now) {
      assert [] + tail == tail;
    } else {
      assert ([records[0]] + tail)[1..] == tail;
      var rest := MapSeq(Restored, tail);
      assert s.delivered + ([Restored(records[0])] + rest) == (s.delivered + [Restored(records[0])]) + rest;
    }
  }

  lemma {:induction false} ScanRecords(scan: Scanner, records: seq<Record>, rest: bytes, now: int, s: Loading)
    requires IsScan(scan) && forall e | e in records :: RecordFits(e)
    ensures scan(PutAll(PutRecord, records) + rest, now, s) == scan(rest, now, AfterAll(records, now, s))
    decreases |records|
  {
    if records == [] {
      assert PutAll(PutRecord, records) + rest == rest;
      assert s.delivered + [] == s.delivered;
    } else {
      var e, more := records[0], PutAll(PutRecord, records[1..]);
      Associates(PutRecord(e), more, rest);
      if e.expiresAt > 0 {
        ScanExpiring(scan, e, more + rest, now, s);
      } else {
        ScanLasting(scan, e, more + rest, now, s);
      }
      ScanRecords(scan, records[1..], rest, now, After(e, now, s));
      AfterFirst(records, now, s);
    }
  }

  /** Everything after the header is read back. */
  lemma ScanBody(scan: Scanner, aux: seq<Pair>, records: seq<Record>, now: int)
    requires IsScan(scan) && |records| < TWO_64
    requires (forall p | p in aux :: PairFits(p)) && forall e | e in records :: RecordFits(e)
    ensures scan(Body(aux, records), now, Loading(map[], []))
      == (true, AfterAll(records, now, Loading(MapOf(aux), [])))
  {
    var n, x := |records|, Expiring(records);
    var tail := PutAll(PutRecord, records) + [0xFF];
    var s := Loading(MapOf(aux), []);
    StoredIsMapOf(aux);
    ScanAux(scan, aux, Hints(n, x) + tail, now, Loading(map[], []));
    ScanHints(scan, n, x, tail, now, s);
    ScanRecords(scan, records, [0xFF], now, s);
    var end := AfterAll(records, now, s);
    assert Scan([0xFF], now, end) == (true, end);
  }

  /** Expiring twice is expiring at the later moment. */
  lemma {:induction false} LiveTwice(records: seq<Record>, now: int, later: int)
    requires now <= later
    ensures Live(Live(records, now), later) == Live(records, later)
  {
    if records != [] {
      var tail := Live(records[1..], now);
      LiveTwice(records[1..], now, later);
      if Expired(records[0].expiresAt, now) {
        assert [] + tail == tail;
      } else {
        assert ([records[0]] + tail)[1..] == tail;
      }
    }
  }

  lemma SumBytes(p: bytes)
    ensures |PutLE(Sum(p), 8)| == 8 && GetLE(PutLE(Sum(p), 8)) == Sum(p)
  {
    Pow256Values();
    Pow2Of64();
    LERoundTrip(Sum(p), 8);
  }

  /** A file is its payload and its checksum. */
  lemma Parts(payload: bytes, trailer: bytes)
    requires |trailer| == 8
    ensures var f := payload + trailer;
            |f| - 8 == |payload| && f[..|f| - 8] == payload && f[|f| - 8..] == trailer
  {
  }

  lemma HeaderParts(body: bytes)
    ensures (HEADER + body)[..5] == HEADER[..5] && (HEADER + body)[9..] == body
  {
    assert |HEADER| == 9;
  }

  lemma PayloadVerdict(aux: seq<Pair>, live: seq<Record>, now: int)
    requires |live| < TWO_64 && (forall p | p in aux :: PairFits(p)) && forall e | e in live :: RecordFits(e)
    ensures var p := HEADER + Body(aux, live);
            |p| >= 10 && Verdict(p, Sum(p), now) == Loaded(MapOf(aux), MapSeq(Restored, Live(live, now)))
  {
    var body, scan := Body(aux, live), (r, t, s) => Scan(r, t, s);
    ScanBody(scan, aux, live, now);
    var s := AfterAll(live, now, Loading(MapOf(aux), []));
    assert [] + MapSeq(Restored, Live(live, now)) == MapSeq(Restored, Live(live, now));
    assert Scan(body, now, Loading(map[], [])) == scan(body, now, Loading(map[], [])) == (true, s);
    BodyVerdict(body, now, s);
  }

  lemma BodyVerdict(body: bytes, now: int, s: Loading)
    requires body != [] && Scan(body, now, Loading(map[], [])) == (true, s)
    ensures var p := HEADER + body; |p| >= 10 && Verdict(p, Sum(p), now) == Loaded(s.aux, s.delivered)
  {
    HeaderParts(body);
  }

  /**
   Loading what was saved delivers the records that have expired neither at saving nor at
   loading, in the saved order, each with its key, type, expiry and value, and the auxiliary fields.
   */
  lemma SaveLoad(aux: seq<Pair>, records: seq<Record>, now: int, later: int)
    requires |records| < TWO_64 && (forall p | p in aux :: PairFits(p)) && forall e | e in records :: RecordFits(e)
    ensures Load(Save(aux, records, now), later) ==
      Loaded(MapOf(aux), MapSeq(Restored, Live(Live(records, now), later)))
    ensures now <= later ==>
      Load(Save(aux, records, now), later) == Loaded(MapOf(aux), MapSeq(Restored, Live(records, later)))
  {
    var p := Payload(aux, records, now);
    SumBytes(p);
    Parts(p, PutLE(Sum(p), 8));
    PayloadVerdict(aux, Live(records, now), later);
    if now <= later { LiveTwice(records, now, later); }
  }

  /** A key of the database with its value. */
  datatype KeyEntry = KeyEntry(key: bytes, expiresAt: int, value: Value)

  /** A record that the writer may produce for it, with the maps in any order. */
  ghost predicate RecordOf(r: Record, e: KeyEntry) {
    r.key == e.key && r.expiresAt == e.expiresAt && Writes(r.value, e.value)
  }

  function Alive(entries: seq<KeyEntry>, now: int): seq<KeyEntry> {
    if entries == [] then []
    else (if Expired(entries[0].expiresAt, now) then [] else [entries[0]]) + Alive(entries[1..], now)
  }

  function TypeOf(v: Value): byte {
    match v
    case String(_) => 0
    case List(_) => 1
    case Set(_) => 2
    case ZSet(_) => 3
    case Hash(_) => 4
    case Stream(_) => 6
    case Vector(_, _) => 240
  }

  function Handed(e: KeyEntry): Delivered {
    Delivered(e.key, TypeOf(e.value), if e.expiresAt > 0 then e.expiresAt else 0, e.value)
  }

  lemma RestoredIsHanded(r: Record, e: KeyEntry)
    requires RecordOf(r, e)
    ensures Restored(r) == Handed(e)
  {
    MeaningOfWritten(r.value, e.value);
  }

  lemma {:induction false} AllHanded(records: seq<Record>, entries: seq<KeyEntry>, now: int)
    requires |records| == |entries| && forall i | 0 <= i < |records| :: RecordOf(records[i], entries[i])
    ensures MapSeq(Restored, Live(records, now)) == MapSeq(Handed, Alive(entries, now))
    decreases |records|
  {
    if records != [] {
      AllHanded(records[1..], entries[1..], now);
      RestoredIsHanded(records[0], entries[0]);
      MapFirst(Restored, records[0], Live(records[1..], now));
      MapFirst(Handed, entries[0], Alive(entries[1..], now));
      assert [] + Live(records[1..], now) == Live(records[1..], now);
      assert [] + Alive(entries[1..], now) == Alive(entries[1..], now);
    }
  }

  lemma MapFirst<T, U>(f: T -> U, x: T, xs: seq<T>)
    ensures MapSeq(f, [x] + xs) == [f(x)] + MapSeq(f, xs)
  {
    assert ([x] + xs)[1..] == xs;
  }

  /** Whatever order the maps are written in, loading gives back the database without what has expired. */
  lemma DatabaseRoundTrip(fields: map<bytes, bytes>, aux: seq<Pair>, entries: seq<KeyEntry>, records: seq<Record>,
                          now: int, later: int)
    requires Lists(aux, fields) && |records| == |entries| < TWO_64 && now <= later
    requires forall i | 0 <= i < |records| :: RecordOf(records[i], entries[i])
    requires (forall p | p in aux :: PairFits(p)) && forall e | e in records :: RecordFits(e)
    ensures Load(Save(aux, records, now), later) == Loaded(fields, MapSeq(Handed, Alive(entries, later)))
  {
    SaveLoad(aux, records, now, later);
    ListingIsMap(fields, aux);
    AllHanded(records, entries, later);
  }

  // ---------------------------------------------------------------------------
  // Damage.
  // ---------------------------------------------------------------------------

  /** The loader can make its way through the payload, whatever the checksum. */
  predicate Readable(payload: bytes, now: int)
    requires |payload| >= 10
  {
    payload[..5] == HEADER[..5] && Scan(payload[9..], now, Loading(map[], [])).0
  }

  lemma SumsDiffer(head: bytes, p: bytes, q: bytes, tail: bytes)
    requires |p| == |q| <= 8 && p != q
    ensures Sum(head + p + tail) != Sum(head + q + tail)
  {
    JonesDetectsBursts(head, p, q, tail);
    BitsOfValue(Checksum(POLY, Zeros(64), head + p + tail));
    BitsOfValue(Checksum(POLY, Zeros(64), head + q + tail));
  }

  /**
   A file whose payload was changed within eight consecutive bytes after its checksum was
   written is never loaded, unless that checksum is zero, which turns the comparison off.
   */
  lemma DamageDetected(head: bytes, p: bytes, q: bytes, tail: bytes, now: int)
    requires |p| == |q| <= 8 && p != q && |head + p + tail| >= 10
    ensures var sum := Sum(head + p + tail);
            Load(head + q + tail + PutLE(sum, 8), now).Loaded? <==> sum == 0 && Readable(head + q + tail, now)
  {
    SumsDiffer(head, p, q, tail);
    SumBytes(head + p + tail);
    Parts(head + q + tail, PutLE(Sum(head + p + tail), 8));
  }

  /** With a zero in its place any payload that can be read is loaded, whatever its checksum is. */
  lemma ZeroIsNotCompared(payload: bytes, now: int)
    requires |payload| >= 10
    ensures Load(payload + PutLE(0, 8), now).Loaded? <==> Readable(payload, now)
  {
    Pow256Values();
    LERoundTrip(0, 8);
    Parts(payload, PutLE(0, 8));
  }

  /** An empty snapshot with any version byte: all are loaded, though no two have the same checksum. */
  lemma UncheckedVersions(u: byte, v: byte, now: int)
    requires u != v
    ensures Load(HEADER[..8] + [u] + [0xFF] + PutLE(0, 8), now).Loaded?
    ensures Sum(HEADER[..8] + [u] + [0xFF]) != Sum(HEADER[..8] + [v] + [0xFF])
  {
    var payload := HEADER[..8] + [u] + [0xFF];
    assert payload[..5] == HEADER[..5] && payload[9..] == [0xFF];
    ZeroIsNotCompared(payload, now);
    SumsDiffer(HEADER[..8], [u], [v], [0xFF]);
  }

  // ---------------------------------------------------------------------------
  // The code.
  // ---------------------------------------------------------------------------

  ghost predicate IsTable(poly: word, table: array<word>)
    reads table
  {
    table.Length == 256 && forall i | 0 <= i < 256 :: table[i] == Entry(poly, i)
  }

  /** The writer behind SaveRDB: every byte goes to the file and into the running checksum. */
  class ChecksumWriter {
    ghost const poly: word
    const table: array<word>
    var out: bytes
    var crc: word

    ghost predicate Valid()
      reads this, table
    {
      IsTable(poly, table) && crc == Checksum(poly, Zeros(64), out)
    }

    constructor (ghost poly: word, table: array<word>)
      requires IsTable(poly, table)
      ensures Valid() && this.poly == poly && this.table == table && out == []
    {
      this.poly, this.table, out, crc := poly, table, [], Zeros(64);
    }

    method Write(p: bytes)
      requires Valid()
      modifies this
      ensures Valid() && out == old(out) + p
    {
      crc := UpdateCRC64(poly, table, crc, p);
      ChecksumAppend(poly, Zeros(64), out, p);
      out := out + p;
    }
  }

  lemma {:induction false} PutAllLast<T>(put: T -> bytes, xs: seq<T>, x: T)
    ensures PutAll(put, xs + [x]) == PutAll(put, xs) + put(x)
  {
    if xs == [] {
      assert xs + [x] == [x] && ([x])[1..] == [];
    } else {
      assert (xs + [x])[1..] == xs[1..] + [x];
      PutAllLast(put, xs[1..], x);
    }
  }

  lemma {:induction false} LiveLast(records: seq<Record>, e: Record, now: int)
    ensures Live(records + [e], now) == Live(records, now) + (if Expired(e.expiresAt, now) then [] else [e])
  {
    if records == [] {
      assert records + [e] == [e] && ([e])[1..] == [];
    } else {
      var first := if Expired(records[0].expiresAt, now) then [] else [records[0]];
      var last := if Expired(e.expiresAt, now) then [] else [e];
      assert (records + [e])[1..] == records[1..] + [e];
      LiveLast(records[1..], e, now);
      Associates(first, Live(records[1..], now), last);
    }
  }

  lemma {:induction false} ExpiringLast(records: seq<Record>, e: Record)
    ensures Expiring(records + [e]) == Expiring(records) + (if e.expiresAt > 0 then 1 else 0)
  {
    if records == [] {
      assert records + [e] == [e] && ([e])[1..] == [];
    } else {
      assert (records + [e])[1..] == records[1..] + [e];
      ExpiringLast(records[1..], e);
    }
  }

  /** Drops what has expired and counts what will. */
  method Select(records: seq<Record>, now: int) returns (live: seq<Record>, expiring: nat)
    ensures live == Live(records, now) && expiring == Expiring(live)
  {
    live, expiring := [], 0;
    for i := 0 to |records|
      invariant live == Live(records[..i], now) && expiring == Expiring(live)
    {
      var e := records[i];
      assert records[..i + 1] == records[..i] + [e];
      LiveLast(records[..i], e, now);
      if !Expired(e.expiresAt, now) {
        ExpiringLast(live, e);
        if e.expiresAt > 0 { expiring := expiring + 1; }
        live := live + [e];
      }
    }
    assert records[..|records|] == records;
  }

  method WriteAll<T>(w: ChecksumWriter, put: T -> bytes, xs: seq<T>)
    requires w.Valid()
    modifies w
    ensures w.Valid() && w.out == old(w.out) + PutAll(put, xs)
  {
    ghost var before := w.out;
    assert before + [] == before;
    for i := 0 to |xs|
      invariant w.Valid() && w.out == before + PutAll(put, xs[..i])
    {
      assert xs[..i + 1] == xs[..i] + [xs[i]];
      PutAllLast(put, xs[..i], xs[i]);
      Associates(before, PutAll(put, xs[..i]), put(xs[i]));
      w.Write(put(xs[i]));
    }
    assert xs[..|xs|] == xs;
  }

  lemma BodyParts(header: bytes, a: bytes, h: bytes, r: bytes)
    ensures ([] + header + a + h + r) + [0xFF] == header + (a + (h + (r + [0xFF])))
  {
  }

  /** The payload and its checksum. */
  method WritePayload(ghost poly: word, table: array<word>, aux: seq<Pair>, records: seq<Record>, now: int)
    returns (payload: bytes, crc: word)
    requires IsTable(poly, table)
    ensures payload == Payload(aux, records, now) && crc == Checksum(poly, Zeros(64), payload)
  {
    var w := new ChecksumWriter(poly, table);
    w.Write(HEADER);
    WriteAll(w, PutAux, aux);
    var live, expiring := Select(records, now);
    w.Write(Hints(|live|, expiring));
    WriteAll(w, PutRecord, live);
    w.Write([0xFF]);
    BodyParts(HEADER, PutAll(PutAux, aux), Hints(|live|, expiring), PutAll(PutRecord, live));
    return w.out, w.crc;
  }

  /** The auxiliary fields come in the order of the map iteration. */
  method SaveRDB(table: array<word>, aux: seq<Pair>, records: seq<Record>, now: int) returns (file: bytes)
    requires IsTable(POLY, table)
    ensures file == Save(aux, records, now)
  {
    var payload, crc := WritePayload(POLY, table, aux, records, now);
    file := payload + PutLE(ValueOf(crc), 8);
  }

  method LoadRDB(table: array<word>, file: bytes, now: int) returns (outcome: Outcome)
    requires IsTable(POLY, table)
    ensures outcome == Load(file, now)
  {
    if |file| < 18 { return TooShort; }
    var payload := file[..|file| - 8];
    if payload[..5] != HEADER[..5] { return BadHeader; }
    var ok, s := ReadRecords(payload[9..], now);
    if !ok { return BadRecord(s.delivered); }
    var crc := UpdateCRC64(POLY, table, Zeros(64), payload);
    var expected := GetLE(file[|file| - 8..]);
    if expected != 0 && ValueOf(crc) != expected { return ChecksumMismatch(s.delivered); }
    return Loaded(s.aux, s.delivered);
  }

  method ReadRecords(r0: bytes, now: int) returns (ok: bool, s: Loading)
    ensures (ok, s) == Scan(r0, now, Loading(map[], []))
  {
    var r := r0;
    s := Loading(map[], []);
    while r != [] && r[0] != 0xFF
      invariant Scan(r0, now, Loading(map[], [])) == Scan(r, now, s)
      decreases |r|
    {
      var step := ReadOne(r[0], r[1..], now, s);
      if step.Broken? { return false, s; }
      r, s := step.rest, step.state;
    }
    return true, s;
  }
}

