/** Cluster bus packets: a fixed header, a slot bitmap and the gossip entries. */
module BusCodec {
  import opened Bytes
  import opened Bits
  import opened SlotTable
  import opened Snapshot

  // ---------------------------------------------------------------------------
  // The bitmap.
  // ---------------------------------------------------------------------------

  const BITMAP: nat := 2048

  predicate BitAt(bm: bytes, i: nat)
    requires i / 8 < |bm|
  {
    ByteBits(bm[i / 8])[i % 8]
  }

  function SetBitAt(bm: bytes, i: nat): (r: bytes)
    requires i / 8 < |bm|
    ensures |r| == |bm|
  {
    bm[i / 8 := ByteOf(ByteBits(bm[i / 8])[i % 8 := true])]
  }

  lemma SamePlace(i: nat, j: nat)
    ensures i / 8 == j / 8 && i % 8 == j % 8 ==> i == j
  {
  }

  lemma SameByteEffect(b: byte, k: nat, m: nat)
    requires k < 8 && m < 8
    ensures ByteBits(ByteOf(ByteBits(b)[k := true]))[m] == (ByteBits(b)[m] || k == m)
  {
    BitsOfByte(ByteBits(b)[k := true]);
  }

  lemma SetBitEffect(bm: bytes, i: nat, j: nat)
    requires i / 8 < |bm| && j / 8 < |bm|
    ensures BitAt(SetBitAt(bm, i), j) == (BitAt(bm, j) || i == j)
  {
    SamePlace(i, j);
    if i / 8 == j / 8 { SameByteEffect(bm[i / 8], i % 8, j % 8); }
  }

  /** The first n slots are packed, and no others. */
  ghost predicate Packed(bm: bytes, slots: seq<bool>, n: nat) {
    |bm| == BITMAP && |slots| == SLOTS && forall j | 0 <= j < SLOTS :: BitAt(bm, j) == (j < n && slots[j])
  }

  lemma PackNext(bm: bytes, slots: seq<bool>, n: nat)
    requires Packed(bm, slots, n) && n < SLOTS
    ensures Packed(if slots[n] then SetBitAt(bm, n) else bm, slots, n + 1)
  {
    if slots[n] {
      forall j | 0 <= j < SLOTS ensures BitAt(SetBitAt(bm, n), j) == (j < n + 1 && slots[j]) { SetBitEffect(bm, n, j); }
    }
  }

  lemma PackNone(slots: seq<bool>)
    requires |slots| == SLOTS
    ensures Packed(seq(BITMAP, _ => 0), slots, 0)
  {
    var bm: bytes := seq(BITMAP, _ => 0);
    forall j | 0 <= j < SLOTS ensures !BitAt(bm, j) { ZeroByte(j % 8); }
  }

  method SlotsToBitmap(slots: seq<bool>) returns (bm: bytes)
    requires |slots| == SLOTS
    ensures Packed(bm, slots, SLOTS)
  {
    bm := seq(BITMAP, _ => 0);
    PackNone(slots);
    for i := 0 to SLOTS
      invariant Packed(bm, slots, i)
    {
      PackNext(bm, slots, i);
      if slots[i] { bm := SetBitAt(bm, i); }
    }
  }

  lemma ZeroByte(k: nat)
    requires k < 8
    ensures !ByteBits(0)[k]
  {
  }

  function Unpacked(bm: bytes): (r: seq<bool>)
    requires |bm| == BITMAP
    ensures |r| == SLOTS
  {
    seq(SLOTS, i requires 0 <= i < SLOTS => BitAt(bm, i))
  }

  method BitmapToSlots(bm: bytes) returns (slots: seq<bool>)
    requires |bm| == BITMAP
    ensures slots == Unpacked(bm)
  {
    slots := Collect((i: nat) => i / 8 < |bm| && BitAt(bm, i));
  }

  /** The loop, for any test of a bit. */
  method Collect(test: nat -> bool) returns (slots: seq<bool>)
    ensures |slots| == SLOTS && forall i | 0 <= i < SLOTS :: slots[i] == test(i)
  {
    slots := seq(SLOTS, _ => false);
    for i := 0 to SLOTS
      invariant |slots| == SLOTS && forall j | 0 <= j < SLOTS :: slots[j] == (j < i && test(j))
    {
      if test(i) { slots := slots[i := true]; }
    }
  }

  /** Packing and unpacking gives every assignment back. */
  method BitmapRoundTrip(slots: seq<bool>) returns (back: seq<bool>)
    requires |slots| == SLOTS
    ensures back == slots
  {
    var bm := SlotsToBitmap(slots);
    back := BitmapToSlots(bm);
    assert forall i | 0 <= i < SLOTS :: back[i] == BitAt(bm, i);
  }

  // ---------------------------------------------------------------------------
  // Fields.
  // ---------------------------------------------------------------------------

  /** k bytes, most significant first. */
  function PutBE(n: nat, k: nat): (s: bytes)
    ensures |s| == k
  {
    if k == 0 then [] else PutBE(n / 256, k - 1) + [(n % 256) as byte]
  }

  function GetBE(s: bytes): nat {
    if s == [] then 0 else GetBE(s[..|s| - 1]) * 256 + s[|s| - 1] as nat
  }

  lemma {:induction false} BERoundTrip(n: nat, k: nat)
    requires n < Pow256(k)
    ensures GetBE(PutBE(n, k)) == n
    decreases k
  {
    if k > 0 {
      BERoundTrip(n / 256, k - 1);
      assert PutBE(n, k)[..k - 1] == PutBE(n / 256, k - 1);
    }
  }

  /** `padString`: cut or filled up with zeros. */
  function Pad(s: bytes, length: nat): (r: bytes)
    ensures |r| == length
  {
    if |s| >= length then s[..length] else s + seq(length - |s|, _ => 0)
  }

  /** `strings.TrimRight(s, "\x00")`. */
  function Trim(s: bytes): bytes {
    if s != [] && s[|s| - 1] == 0 then Trim(s[..|s| - 1]) else s
  }

  /** What becomes of a string in a field of the given length. */
  function Kept(s: bytes, length: nat): bytes { Trim(if |s| >= length then s[..length] else s) }

  lemma {:induction false} TrimZeros(s: bytes, k: nat)
    ensures Trim(s + seq(k, _ => 0)) == Trim(s)
  {
    if k == 0 {
      assert s + seq(k, _ => 0) == s;
    } else {
      var t := s + seq(k, _ => 0);
      assert t[..|t| - 1] == s + seq(k - 1, _ => 0);
      TrimZeros(s, k - 1);
    }
  }

  lemma PadTrim(s: bytes, length: nat)
    ensures Trim(Pad(s, length)) == Kept(s, length)
  {
    if |s| < length { TrimZeros(s, length - |s|); }
  }

  /** A string survives exactly when it fits and does not end in a zero. */
  lemma {:induction false} KeptIff(s: bytes, length: nat)
    ensures Kept(s, length) == s <==> |s| <= length && (s == [] || s[|s| - 1] != 0)
  {
    TrimShorter(if |s| >= length then s[..length] else s);
    if |s| == length { assert s[..length] == s; }
  }

  lemma {:induction false} TrimShorter(s: bytes)
    ensures |Trim(s)| <= |s| && (Trim(s) == s <==> s == [] || s[|s| - 1] != 0)
  {
    if s != [] && s[|s| - 1] == 0 { TrimShorter(s[..|s| - 1]); }
  }

  // ---------------------------------------------------------------------------
  // Packets.
  // ---------------------------------------------------------------------------

  type uint16 = n: int | 0 <= n < 65536
  type int64 = n: int | -TWO_63 <= n < TWO_63
  type Bitmap = s: bytes | |s| == BITMAP witness seq(BITMAP, _ => 0)

  datatype GossipEntry = GossipEntry(nodeID: bytes, ip: bytes, port: uint16, busPort: uint16, flags: uint16,
                                     pingSent: int64, pongRecv: int64)

  datatype BusPacket = BusPacket(kind: byte, epoch: uint64, senderID: bytes, senderIP: bytes, port: uint16,
                                 busPort: uint16, flags: uint16,
                                 slots: Bitmap, gossip: seq<GossipEntry>, targetNodeID: bytes, reqEpoch: uint64)

  const MAGIC: bytes := [86, 66, 85, 83]

  function Unsigned(n: int64): uint64 { if n < 0 then n + TWO_64 else n }

  /** The fields of a record, one after the other; a record is known by its fields' bytes. */
  function Cat(fields: seq<bytes>): bytes {
    if fields == [] then [] else fields[0] + Cat(fields[1..])
  }

  /** Cuts data into fields of the given lengths. */
  function Cut(data: bytes, lengths: seq<nat>): (r: Option<(seq<bytes>, bytes)>) {
    if lengths == [] then Some(([], data))
    else if |data| < lengths[0] then None
    else
      match Cut(data[lengths[0]..], lengths[1..])
      case None => None
      case Some((fields, rest)) => Some(([data[..lengths[0]]] + fields, rest))
  }

  function Lengths(fields: seq<bytes>): (r: seq<nat>)
    ensures |r| == |fields|
  {
    seq(|fields|, i requires 0 <= i < |fields| => |fields[i]|)
  }

  lemma {:induction false} CutInvertsCat(fields: seq<bytes>, rest: bytes)
    ensures Cut(Cat(fields) + rest, Lengths(fields)) == Some((fields, rest))
  {
    if fields == [] {
      assert [] + rest == rest;
    } else {
      var first, tail := fields[0], fields[1..];
      Associates(first, Cat(tail), rest);
      var data := first + (Cat(tail) + rest);
      assert data[..|first|] == first && data[|first|..] == Cat(tail) + rest;
      assert Lengths(fields)[1..] == Lengths(tail);
      CutInvertsCat(tail, rest);
      assert fields == [first] + tail;
    }
  }

  const GOSSIP_LENGTHS: seq<nat> := [40, 16, 2, 2, 2, 8, 8]
  const HEADER_LENGTHS: seq<nat> := [4, 1, 1, 8, 40, 16, 2, 2, 2, 2048, 40, 8, 2]

  function GossipFields(g: GossipEntry): (r: seq<bytes>)
    ensures Lengths(r) == GOSSIP_LENGTHS
  {
    [Pad(g.nodeID, 40), Pad(g.ip, 16), PutBE(g.port, 2), PutBE(g.busPort, 2), PutBE(g.flags, 2),
     PutBE(Unsigned(g.pingSent), 8), PutBE(Unsigned(g.pongRecv), 8)]
  }

  function HeaderFields(p: BusPacket): (r: seq<bytes>)
    ensures Lengths(r) == HEADER_LENGTHS
  {
    [MAGIC, [p.kind], [0], PutBE(p.epoch, 8), Pad(p.senderID, 40), Pad(p.senderIP, 16),
     PutBE(p.port, 2), PutBE(p.busPort, 2),
     PutBE(p.flags, 2), p.slots, Pad(p.targetNodeID, 40), PutBE(p.reqEpoch, 8), PutBE(|p.gossip| % 65536, 2)]
  }

  function WriteEntry(g: GossipEntry): bytes { Cat(GossipFields(g)) }

  function WritePacket(p: BusPacket): bytes { Cat(HeaderFields(p)) + PutAll(WriteEntry, p.gossip) }

  function OfGossipFields(f: seq<bytes>): GossipEntry
    requires Lengths(f) == GOSSIP_LENGTHS
  {
    assert forall i | 0 <= i < |f| :: Lengths(f)[i] == |f[i]|;
    BEBound(f[2]); BEBound(f[3]); BEBound(f[4]); BEBound(f[5]); BEBound(f[6]);
    Pow256Values();
    GossipEntry(Trim(f[0]), Trim(f[1]), GetBE(f[2]), GetBE(f[3]), GetBE(f[4]), Signed(GetBE(f[5])), Signed(GetBE(f[6])))
  }

  lemma {:induction false} BEBound(s: bytes)
    ensures GetBE(s) < Pow256(|s|)
  {
    if s != [] { BEBound(s[..|s| - 1]); }
  }

  function ReadEntry(data: bytes): Read<GossipEntry> {
    match Cut(data, GOSSIP_LENGTHS)
    case None => Failed
    case Some((f, rest)) =>
      CutLengths(data, GOSSIP_LENGTHS);
      Ok(OfGossipFields(f), rest)
  }

  lemma {:induction false} CutLengths(data: bytes, lengths: seq<nat>)
    ensures Cut(data, lengths).Some? ==> Lengths(Cut(data, lengths).value.0) == lengths
    decreases |lengths|
  {
    if lengths != [] && |data| >= lengths[0] {
      CutLengths(data[lengths[0]..], lengths[1..]);
      var c := Cut(data[lengths[0]..], lengths[1..]);
      if c.Some? {
        assert Lengths([data[..lengths[0]]] + c.value.0) == [lengths[0]] + lengths[1..];
        assert lengths == [lengths[0]] + lengths[1..];
      }
    }
  }

  /** A short header, wrong magic bytes or missing gossip entries are refused. */
  function ReadPacket(data: bytes): Read<BusPacket> {
    match Cut(data, HEADER_LENGTHS)
    case None => Failed
    case Some((f, rest)) =>
      CutLengths(data, HEADER_LENGTHS);
      OfHeader(f, rest)
  }

  function OfHeader(f: seq<bytes>, rest: bytes): Read<BusPacket>
    requires Lengths(f) == HEADER_LENGTHS
  {
    assert |f| == |HEADER_LENGTHS|;
    if f[0] != MAGIC then Failed
    else
      match ReadMany(ReadEntry, GetBE(f[12]), rest)
      case Failed => Failed
      case Ok(gossip, rest') => Ok(OfHeaderFields(f, gossip), rest')
  }

  function OfHeaderFields(f: seq<bytes>, gossip: seq<GossipEntry>): BusPacket
    requires Lengths(f) == HEADER_LENGTHS
  {
    assert forall i | 0 <= i < |f| :: Lengths(f)[i] == |f[i]|;
    BEBound(f[3]); BEBound(f[6]); BEBound(f[7]); BEBound(f[8]); BEBound(f[11]);
    Pow256Values();
    BusPacket(f[1][0], GetBE(f[3]), Trim(f[4]), Trim(f[5]), GetBE(f[6]), GetBE(f[7]), GetBE(f[8]), f[9], gossip,
      Trim(f[10]), GetBE(f[11]))
  }

  // ---------------------------------------------------------------------------
  // Reading inverts writing, up to what the fields can hold.
  // ---------------------------------------------------------------------------

  function NormalGossip(g: GossipEntry): GossipEntry { g.(nodeID := Kept(g.nodeID, 40), ip := Kept(g.ip, 16)) }

  function Normal(p: BusPacket): BusPacket {
    p.(senderID := Kept(p.senderID, 40), senderIP := Kept(p.senderIP, 16), targetNodeID := Kept(p.targetNodeID, 40),
      gossip := MapSeq(NormalGossip, p.gossip))
  }

  lemma GossipReadsBack(g: GossipEntry)
    ensures OfGossipFields(GossipFields(g)) == NormalGossip(g)
  {
    Pow256Values();
    PadTrim(g.nodeID, 40);
    PadTrim(g.ip, 16);
    BERoundTrip(g.port, 2);
    BERoundTrip(g.busPort, 2);
    BERoundTrip(g.flags, 2);
    BERoundTrip(Unsigned(g.pingSent), 8);
    BERoundTrip(Unsigned(g.pongRecv), 8);
  }

  lemma HeaderReadsBack(p: BusPacket, gossip: seq<GossipEntry>)
    ensures OfHeaderFields(HeaderFields(p), gossip) == Normal(p).(gossip := gossip)
    ensures GetBE(HeaderFields(p)[12]) == |p.gossip| % 65536
  {
    Pow256Values();
    BERoundTrip(p.epoch, 8);
    PadTrim(p.senderID, 40);
    PadTrim(p.senderIP, 16);
    BERoundTrip(p.port, 2);
    BERoundTrip(p.busPort, 2);
    BERoundTrip(p.flags, 2);
    PadTrim(p.targetNodeID, 40);
    BERoundTrip(p.reqEpoch, 8);
    BERoundTrip(|p.gossip| % 65536, 2);
  }

  lemma EntryReadsBack(g: GossipEntry)
    ensures Inverts(WriteEntry, ReadEntry, NormalGossip, g)
  {
    forall rest: bytes ensures ReadEntry(WriteEntry(g) + rest) == Ok(NormalGossip(g), rest) {
      CutInvertsCat(GossipFields(g), rest);
      GossipReadsBack(g);
    }
  }

  lemma {:induction false} PutAllSplits<T>(put: T -> bytes, a: seq<T>, b: seq<T>)
    ensures PutAll(put, a + b) == PutAll(put, a) + PutAll(put, b)
  {
    if a == [] {
      assert a + b == b;
    } else {
      assert (a + b)[1..] == a[1..] + b;
      PutAllSplits(put, a[1..], b);
      Associates(put(a[0]), PutAll(put, a[1..]), PutAll(put, b));
    }
  }

  /** As many entries are read back as are asked for. */
  lemma EntriesReadBack(gossip: seq<GossipEntry>, c: nat, rest: bytes)
    requires c <= |gossip|
    ensures ReadMany(ReadEntry, c, PutAll(WriteEntry, gossip) + rest)
      == Ok(MapSeq(NormalGossip, gossip[..c]), PutAll(WriteEntry, gossip[c..]) + rest)
  {
    var a, b := gossip[..c], gossip[c..];
    assert gossip == a + b;
    PutAllSplits(WriteEntry, a, b);
    Associates(PutAll(WriteEntry, a), PutAll(WriteEntry, b), rest);
    forall i | 0 <= i < |a| ensures Inverts(WriteEntry, ReadEntry, NormalGossip, a[i]) { EntryReadsBack(a[i]); }
    ManyRoundTrip(WriteEntry, ReadEntry, NormalGossip, a, PutAll(WriteEntry, b) + rest);
  }

  /** What is read back from any packet: strings as the fields keep them, and as many entries as sixteen bits count. */
  lemma PacketReadsBack(p: BusPacket, rest: bytes)
    ensures var c := |p.gossip| % 65536;
      ReadPacket(WritePacket(p) + rest)
        == Ok(Normal(p).(gossip := MapSeq(NormalGossip, p.gossip[..c])), PutAll(WriteEntry, p.gossip[c..]) + rest)
  {
    var c := |p.gossip| % 65536;
    var f, body := HeaderFields(p), PutAll(WriteEntry, p.gossip);
    Associates(Cat(f), body, rest);
    CutInvertsCat(f, body + rest);
    HeaderReadsBack(p, MapSeq(NormalGossip, p.gossip[..c]));
    EntriesReadBack(p.gossip, c, rest);
    assert ReadPacket(Cat(f) + (body + rest)) == OfHeader(f, body + rest);
  }

  predicate FieldFits(s: bytes, length: nat) { |s| <= length && (s == [] || s[|s| - 1] != 0) }

  predicate GossipFits(g: GossipEntry) { FieldFits(g.nodeID, 40) && FieldFits(g.ip, 16) }

  predicate IdsFit(p: BusPacket) {
    FieldFits(p.senderID, 40) && FieldFits(p.senderIP, 16) && FieldFits(p.targetNodeID, 40)
  }

  /** IDs of up to forty bytes, addresses of up to sixteen, none ending in a zero, and fewer than 65536 entries. */
  ghost predicate PacketFits(p: BusPacket) {
    IdsFit(p) && |p.gossip| < 65536 && AllFit(p.gossip)
  }

  predicate AllFit(gossip: seq<GossipEntry>) { gossip == [] || (GossipFits(gossip[0]) && AllFit(gossip[1..])) }

  lemma NormalIff(p: BusPacket, gossip: seq<GossipEntry>)
    ensures Normal(p).(gossip := gossip) == p <==> IdsFit(p) && gossip == p.gossip
  {
    KeptIff(p.senderID, 40);
    KeptIff(p.senderIP, 16);
    KeptIff(p.targetNodeID, 40);
  }

  lemma OneNormalIff(g: GossipEntry)
    ensures NormalGossip(g) == g <==> GossipFits(g)
  {
    KeptIff(g.nodeID, 40);
    KeptIff(g.ip, 16);
  }

  lemma {:induction false} AllNormalIff(gossip: seq<GossipEntry>)
    ensures MapSeq(NormalGossip, gossip) == gossip <==> AllFit(gossip)
  {
    if gossip != [] {
      OneNormalIff(gossip[0]);
      AllNormalIff(gossip[1..]);
      assert gossip == [gossip[0]] + gossip[1..];
    }
  }

  // ---------------------------------------------------------------------------
  // Where everything is.
  // ---------------------------------------------------------------------------

  /** The i-th field lies behind those before it. */
  lemma {:induction false} FieldAt(fields: seq<bytes>, i: nat, at: nat)
    requires i < |fields| && at == Start(Lengths(fields), i)
    ensures at + |fields[i]| <= |Cat(fields)| && Cat(fields)[at..at + |fields[i]|] == fields[i]
  {
    var all, tail := Cat(fields), fields[1..];
    assert Lengths(fields)[1..] == Lengths(tail) && Lengths(fields)[0] == |fields[0]|;
    if i == 0 {
      assert all[..|fields[0]|] == fields[0];
    } else {
      var b := at - |fields[0]|;
      FieldAt(tail, i - 1, b);
      assert all[|fields[0]|..] == Cat(tail);
      assert all[at..at + |fields[i]|] == Cat(tail)[b..b + |fields[i]|];
    }
  }

  function Start(lengths: seq<nat>, i: nat): nat
    requires i <= |lengths|
  {
    if i == 0 then 0 else lengths[0] + Start(lengths[1..], i - 1)
  }

  lemma Starts()
    ensures Start(HEADER_LENGTHS, 1) == 4 && Start(HEADER_LENGTHS, 2) == 5 && Start(HEADER_LENGTHS, 3) == 6
    ensures Start(HEADER_LENGTHS, 4) == 14 && Start(HEADER_LENGTHS, 5) == 54 && Start(HEADER_LENGTHS, 6) == 70
    ensures Start(HEADER_LENGTHS, 7) == 72 && Start(HEADER_LENGTHS, 8) == 74 && Start(HEADER_LENGTHS, 9) == 76
    ensures Start(HEADER_LENGTHS, 10) == 2124 && Start(HEADER_LENGTHS, 11) == 2164 && Start(HEADER_LENGTHS, 12) == 2172
    ensures Start(HEADER_LENGTHS, 13) == 2174
  {
  }

  /** The packet has the bytes at that place. */
  ghost predicate Has(packet: bytes, from: nat, bytes: bytes) {
    from + |bytes| <= |packet| && packet[from..from + |bytes|] == bytes
  }

  lemma HasField(p: BusPacket, fields: seq<bytes>, packet: bytes, i: nat, from: nat)
    requires fields == HeaderFields(p) && packet == WritePacket(p) && i < 13 && from == Start(HEADER_LENGTHS, i)
    ensures Has(packet, from, fields[i])
  {
    FieldAt(fields, i, from);
    var all := Cat(fields);
    assert packet[..|all|] == all;
    assert packet[from..from + |fields[i]|] == all[from..from + |fields[i]|];
  }

  /** Where a packet has what: the kind, the epochs and the count of gossip entries. */
  lemma EpochPlaces(p: BusPacket, packet: bytes)
    requires packet == WritePacket(p)
    ensures Has(packet, 0, [86, 66, 85, 83]) && Has(packet, 4, [p.kind]) && Has(packet, 6, PutBE(p.epoch, 8))
    ensures Has(packet, 2164, PutBE(p.reqEpoch, 8)) && Has(packet, 2172, PutBE(|p.gossip| % 65536, 2))
  {
    var f := HeaderFields(p);
    Starts();
    HasField(p, f, packet, 0, 0);
    HasField(p, f, packet, 1, 4);
    HasField(p, f, packet, 3, 6);
    HasField(p, f, packet, 11, 2164);
    HasField(p, f, packet, 12, 2172);
  }

  /** The node IDs and the address. */
  lemma IdPlaces(p: BusPacket, packet: bytes)
    requires packet == WritePacket(p)
    ensures Has(packet, 14, Pad(p.senderID, 40)) && Has(packet, 54, Pad(p.senderIP, 16))
    ensures Has(packet, 2124, Pad(p.targetNodeID, 40))
  {
    var f := HeaderFields(p);
    Starts();
    HasField(p, f, packet, 4, 14);
    HasField(p, f, packet, 5, 54);
    HasField(p, f, packet, 10, 2124);
  }

  /** The ports, the flags and the slots. */
  lemma PortPlaces(p: BusPacket, packet: bytes)
    requires packet == WritePacket(p)
    ensures Has(packet, 70, PutBE(p.port, 2)) && Has(packet, 72, PutBE(p.busPort, 2))
    ensures Has(packet, 74, PutBE(p.flags, 2)) && Has(packet, 76, p.slots)
  {
    var f := HeaderFields(p);
    Starts();
    HasField(p, f, packet, 6, 70);
    HasField(p, f, packet, 7, 72);
    HasField(p, f, packet, 8, 74);
    HasField(p, f, packet, 9, 76);
  }

  lemma {:induction false} CatSize(fields: seq<bytes>)
    ensures |Cat(fields)| == Start(Lengths(fields), |fields|)
  {
    if fields != [] {
      CatSize(fields[1..]);
      assert Lengths(fields)[1..] == Lengths(fields[1..]);
    }
  }

  lemma EntryStarts()
    ensures Start(GOSSIP_LENGTHS, 1) == 40 && Start(GOSSIP_LENGTHS, 2) == 56 && Start(GOSSIP_LENGTHS, 3) == 58
    ensures Start(GOSSIP_LENGTHS, 4) == 60 && Start(GOSSIP_LENGTHS, 5) == 62 && Start(GOSSIP_LENGTHS, 6) == 70
    ensures Start(GOSSIP_LENGTHS, 7) == 78
  {
  }

  lemma HasEntryField(g: GossipEntry, fields: seq<bytes>, entry: bytes, i: nat, from: nat)
    requires fields == GossipFields(g) && entry == WriteEntry(g) && i < 7 && from == Start(GOSSIP_LENGTHS, i)
    ensures Has(entry, from, fields[i])
  {
    FieldAt(fields, i, from);
  }

  /** Where a gossip entry has what. */
  lemma EntryPlaces(g: GossipEntry, entry: bytes)
    requires entry == WriteEntry(g)
    ensures Has(entry, 0, Pad(g.nodeID, 40)) && Has(entry, 40, Pad(g.ip, 16)) && Has(entry, 56, PutBE(g.port, 2))
    ensures Has(entry, 58, PutBE(g.busPort, 2)) && Has(entry, 60, PutBE(g.flags, 2))
    ensures Has(entry, 62, PutBE(Unsigned(g.pingSent), 8)) && Has(entry, 70, PutBE(Unsigned(g.pongRecv), 8))
  {
    var f := GossipFields(g);
    EntryStarts();
    HasEntryField(g, f, entry, 0, 0);
    HasEntryField(g, f, entry, 1, 40);
    HasEntryField(g, f, entry, 2, 56);
    HasEntryField(g, f, entry, 3, 58);
    HasEntryField(g, f, entry, 4, 60);
    HasEntryField(g, f, entry, 5, 62);
    HasEntryField(g, f, entry, 6, 70);
  }

  lemma EntrySize(g: GossipEntry)
    ensures |WriteEntry(g)| == 78
  {
    EntryStarts();
    CatSize(GossipFields(g));
  }

  /** The entries follow the header, 78 bytes each. */
  lemma {:induction false} EntryAt(gossip: seq<GossipEntry>, i: nat)
    requires i < |gossip|
    ensures var body := PutAll(WriteEntry, gossip);
      |body| == 78 * |gossip| && body[78 * i..78 * i + 78] == WriteEntry(gossip[i])
  {
    var body, tail := PutAll(WriteEntry, gossip), gossip[1..];
    EntrySize(gossip[0]);
    assert body == WriteEntry(gossip[0]) + PutAll(WriteEntry, tail);
    if i > 0 {
      EntryAt(tail, i - 1);
      assert body[78 * i..78 * i + 78] == PutAll(WriteEntry, tail)[78 * (i - 1)..78 * (i - 1) + 78];
    } else if tail != [] {
      EntryAt(tail, 0);
    }
  }

  /** The first byte of a number counts most. */
  lemma {:induction false} BEFirst(s: bytes)
    requires s != []
    ensures GetBE(s) == s[0] as nat * Pow256(|s| - 1) + GetBE(s[1..])
  {
    var n := |s| - 1;
    if n > 0 {
      var front, tail := s[..n], s[1..];
      BEFirst(front);
      assert front[1..] == tail[..n - 1];
      OneMorePlace(s[0] as nat, Pow256(n - 1), GetBE(front[1..]), s[n] as nat);
    }
  }

  lemma OneMorePlace(a: nat, p: nat, b: nat, c: nat)
    ensures (a * p + b) * 256 + c == a * (256 * p) + (b * 256 + c)
  {
  }

  /** A packet is read back as it was exactly when it fits. */
  lemma PacketRoundTripIff(p: BusPacket, rest: bytes)
    ensures ReadPacket(WritePacket(p) + rest) == Ok(p, rest) <==> PacketFits(p)
  {
    var c := |p.gossip| % 65536;
    var gossip, left := MapSeq(NormalGossip, p.gossip[..c]), PutAll(WriteEntry, p.gossip[c..]) + rest;
    PacketReadsBack(p, rest);
    NormalIff(p, gossip);
    SixteenBits(|p.gossip|);
    CountedIff(p.gossip, c);
    NothingLeft(p.gossip, rest);
    assert ReadPacket(WritePacket(p) + rest) == Ok(Normal(p).(gossip := gossip), left);
  }

  lemma NothingLeft(gossip: seq<GossipEntry>, rest: bytes)
    ensures |gossip| < 65536 ==> PutAll(WriteEntry, gossip[|gossip| % 65536..]) + rest == rest
  {
    if |gossip| < 65536 { assert gossip[|gossip| % 65536..] == [] && [] + rest == rest; }
  }

  lemma Fewer(gossip: seq<GossipEntry>, c: nat)
    requires c < |gossip|
    ensures MapSeq(NormalGossip, gossip[..c]) != gossip
  {
    MapSeqAt(NormalGossip, gossip[..c]);
  }

  lemma CountedIff(gossip: seq<GossipEntry>, c: nat)
    requires c <= |gossip|
    ensures MapSeq(NormalGossip, gossip[..c]) == gossip <==> c == |gossip| && AllFit(gossip)
  {
    if c < |gossip| {
      Fewer(gossip, c);
    } else {
      assert gossip[..c] == gossip;
      AllNormalIff(gossip);
    }
  }

  lemma SixteenBits(n: nat)
    ensures n % 65536 <= n && (n % 65536 == n <==> n < 65536)
  {
  }
}

