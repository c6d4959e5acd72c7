/** The CRC64-Jones checksum of the snapshot file: table-driven code against bit-by-bit division. */
module Crc64 {
  import opened Bytes
  import opened Bits

  type word = w: bits | |w| == 64 witness Zeros(64)

  /** The Jones polynomial; everything below holds for any polynomial, or any with the top bit set. */
  const POLY: word := BitsOf(0xad93_d235_94c9_35a9, 64)

  /** One bit of polynomial division. */
  function Shift(poly: word, x: word): word {
    if x[0] then Xor(Down(x, 1), poly) else Down(x, 1)
  }

  /** n bits of division. */
  function Shifts(poly: word, x: word, n: nat): word
    decreases n
  {
    if n == 0 then x else Shifts(poly, Shift(poly, x), n - 1)
  }

  /** A byte in the low bits of a word. */
  function Widen(b: byte): word {
    ByteBits(b) + Zeros(56)
  }

  // ---------------------------------------------------------------------------
  // Division is linear and loses nothing.
  // ---------------------------------------------------------------------------

  lemma XorLaws(a: bits, b: bits, c: bits, d: bits)
    requires |a| == |b| == |c| == |d|
    ensures Xor(Xor(a, b), Xor(c, d)) == Xor(Xor(a, c), Xor(b, d))
    ensures Xor(a, Xor(b, c)) == Xor(Xor(a, b), c) == Xor(Xor(a, c), b)
    ensures Xor(Xor(a, c), c) == a && Xor(a, Zeros(|a|)) == a
  {
  }

  lemma XorInjective(x: bits, y: bits, b: bits)
    requires |x| == |y| == |b|
    ensures Xor(x, b) == Xor(y, b) <==> x == y
    ensures Xor(b, x) == Xor(b, y) <==> x == y
  {
    XorLaws(x, y, b, b);
    XorLaws(y, x, b, b);
    assert Xor(b, x) == Xor(x, b) && Xor(b, y) == Xor(y, b);
  }

  lemma DownLinear(x: bits, y: bits, k: nat)
    requires |x| == |y| && k <= |x|
    ensures Down(Xor(x, y), k) == Xor(Down(x, k), Down(y, k))
  {
  }

  lemma ShiftLinear(poly: word, x: word, y: word)
    ensures Shift(poly, Xor(x, y)) == Xor(Shift(poly, x), Shift(poly, y))
  {
    DownLinear(x, y, 1);
    XorLaws(Down(x, 1), poly, Down(y, 1), poly);
    XorLaws(Down(x, 1), Down(y, 1), poly, poly);
  }

  lemma PolyTopBit()
    ensures POLY[63]
  {
    Pow2Of64();
    TopBit(0xad93_d235_94c9_35a9, 64);
  }

  /** The inverse of a step that divided by a polynomial whose top bit is set. */
  function Unshift(y: word, poly: word): word {
    if y[63] then [true] + Xor(y, poly)[..63] else [false] + y[..63]
  }

  lemma UnshiftUndoesBy(x: word, poly: word)
    requires poly[63]
    ensures Unshift(if x[0] then Xor(Down(x, 1), poly) else Down(x, 1), poly) == x
  {
    var d := Down(x, 1);
    assert !d[63] && d[..63] == x[1..] && x == [x[0]] + x[1..];
    XorLaws(d, poly, poly, poly);
  }

  lemma UnshiftUndoes(poly: word, x: word)
    requires poly[63]
    ensures Unshift(Shift(poly, x), poly) == x
  {
    UnshiftUndoesBy(x, poly);
  }

  lemma ShiftInjective(poly: word, x: word, y: word)
    requires poly[63] && x != y
    ensures Shift(poly, x) != Shift(poly, y)
  {
    UnshiftUndoes(poly, x);
    UnshiftUndoes(poly, y);
  }

  lemma {:induction false} ShiftsInjective(poly: word, x: word, y: word, n: nat)
    requires poly[63] && x != y
    ensures Shifts(poly, x, n) != Shifts(poly, y, n)
    decreases n
  {
    if n > 0 {
      ShiftInjective(poly, x, y);
      ShiftsInjective(poly, Shift(poly, x), Shift(poly, y), n - 1);
    }
  }

  lemma {:induction false} ShiftsLinear(poly: word, x: word, y: word, n: nat)
    ensures Shifts(poly, Xor(x, y), n) == Xor(Shifts(poly, x, n), Shifts(poly, y, n))
    decreases n
  {
    if n > 0 {
      ShiftLinear(poly, x, y);
      ShiftsLinear(poly, Shift(poly, x), Shift(poly, y), n - 1);
    }
  }

  /** Steps over zero bits only move the word down. */
  lemma {:induction false} ShiftsOverZeros(poly: word, y: word, n: nat)
    requires n <= 64 && forall i | 0 <= i < n :: !y[i]
    ensures Shifts(poly, y, n) == Down(y, n)
    decreases n
  {
    if n == 0 {
      assert Down(y, 0) == y;
    } else {
      var z := Down(y, 1);
      assert Shift(poly, y) == z;
      ShiftsOverZeros(poly, z, n - 1);
      assert Down(z, n - 1) == Down(y, n);
    }
  }

  lemma {:induction false} ShiftsAdd(poly: word, x: word, m: nat, n: nat)
    ensures Shifts(poly, x, m + n) == Shifts(poly, Shifts(poly, x, m), n)
    decreases m
  {
    if m > 0 { ShiftsAdd(poly, Shift(poly, x), m - 1, n); }
  }

  // ---------------------------------------------------------------------------
  // The checksum, bit by bit.
  // ---------------------------------------------------------------------------

  /** One byte: xor it into the low bits and divide by eight bits. */
  function Absorb(poly: word, crc: word, b: byte): word {
    Shifts(poly, Xor(crc, Widen(b)), 8)
  }

  function Checksum(poly: word, crc: word, p: bytes): word
    decreases p
  {
    if p == [] then crc else Checksum(poly, Absorb(poly, crc, p[0]), p[1..])
  }

  /** The table entry of a byte. */
  function Entry(poly: word, i: int): word
    requires 0 <= i < 256
  {
    Shifts(poly, Widen(i as byte), 8)
  }

  /** The step of the source: a table lookup on the low byte, and the rest of the word moved down. */
  lemma TableStep(poly: word, crc: word, b: byte)
    ensures var i := ByteOf(Xor(crc[..8], ByteBits(b))) as int;
      Xor(Entry(poly, i), Down(crc, 8)) == Absorb(poly, crc, b)
  {
    var low := Xor(crc[..8], ByteBits(b));
    var i := ByteOf(low);
    BitsOfByte(low);
    var high: word := Zeros(8) + crc[8..];
    assert Xor(crc, Widen(b)) == Xor(Widen(i), high);
    ShiftsLinear(poly, Widen(i), high, 8);
    ShiftsOverZeros(poly, high, 8);
    assert Down(high, 8) == Down(crc, 8);
  }

  // ---------------------------------------------------------------------------
  // The code: a table filled once, and a loop over the bytes.
  // ---------------------------------------------------------------------------

  method InitTable() returns (table: array<word>)
    ensures fresh(table) && table.Length == 256
    ensures forall i | 0 <= i < 256 :: table[i] == Entry(POLY, i)
  {
    table := FillTable(POLY, 8);
  }

  /** n bits of division of a table index. */
  ghost function EntryAt(poly: word, i: nat, n: nat): word
    requires i < 256
  {
    Shifts(poly, Widen(i as byte), n)
  }

  /** The outer loop, for entries of n division steps. */
  method FillTable(poly: word, n: nat) returns (table: array<word>)
    ensures fresh(table) && table.Length == 256
    ensures forall i | 0 <= i < 256 :: table[i] == EntryAt(poly, i, n)
  {
    table := new word[256](_ => Zeros(64));
    for i := 0 to 256
      invariant forall k | 0 <= k < i :: table[k] == EntryAt(poly, k, n)
    {
      var crc := Divide(poly, Widen(i as byte), n);
      table[i] := crc;
    }
  }

  /** The inner loop: n bits of division. */
  method Divide(poly: word, x: word, n: nat) returns (crc: word)
    ensures crc == Shifts(poly, x, n)
  {
    crc := x;
    for j := 0 to n
      invariant Shifts(poly, crc, n - j) == Shifts(poly, x, n)
    {
      crc := if crc[0] then Xor(Down(crc, 1), poly) else Down(crc, 1);
    }
  }

  method UpdateCRC64(ghost poly: word, table: array<word>, crc0: word, p: bytes) returns (crc: word)
    requires table.Length == 256 && forall i | 0 <= i < 256 :: table[i] == Entry(poly, i)
    ensures crc == Checksum(poly, crc0, p)
  {
    crc := crc0;
    for k := 0 to |p|
      invariant Checksum(poly, crc0, p) == Checksum(poly, crc, p[k..])
    {
      TableStep(poly, crc, p[k]);
      var i := ByteOf(Xor(crc[..8], ByteBits(p[k]))) as int;
      crc := Xor(table[i], Down(crc, 8));
    }
  }

  // ---------------------------------------------------------------------------
  // What the checksum detects.
  // ---------------------------------------------------------------------------

  /** No step loses information about the running state. */
  lemma {:induction false} ChecksumInjective(poly: word, x: word, y: word, p: bytes)
    requires poly[63] && x != y
    ensures Checksum(poly, x, p) != Checksum(poly, y, p)
    decreases p
  {
    if p != [] {
      var b := Widen(p[0]);
      XorInjective(x, y, b);
      ShiftsInjective(poly, Xor(x, b), Xor(y, b), 8);
      ChecksumInjective(poly, Absorb(poly, x, p[0]), Absorb(poly, y, p[0]), p[1..]);
    }
  }

  lemma {:induction false} ChecksumAppend(poly: word, crc: word, p: bytes, q: bytes)
    ensures Checksum(poly, crc, p + q) == Checksum(poly, Checksum(poly, crc, p), q)
    decreases p
  {
    if p == [] {
      assert p + q == q;
    } else {
      assert (p + q)[0] == p[0] && (p + q)[1..] == p[1..] + q;
      ChecksumAppend(poly, Absorb(poly, crc, p[0]), p[1..], q);
    }
  }

  /** Up to eight bytes as one word, first byte lowest. */
  function Pack(p: bytes): (w: word)
    requires |p| <= 8
  {
    PackBits(p) + Zeros(64 - 8 * |p|)
  }

  function PackBits(p: bytes): (w: bits)
    ensures |w| == 8 * |p|
  {
    if p == [] then [] else ByteBits(p[0]) + PackBits(p[1..])
  }

  lemma {:induction false} PackBitsInjective(p: bytes, q: bytes)
    requires |p| == |q| && PackBits(p) == PackBits(q)
    ensures p == q
  {
    if p != [] {
      var a, b := PackBits(p), PackBits(q);
      assert a[..8] == ByteBits(p[0]) && b[..8] == ByteBits(q[0]);
      assert a[8..] == PackBits(p[1..]) && b[8..] == PackBits(q[1..]);
      ByteBitsInjective(p[0], q[0]);
      PackBitsInjective(p[1..], q[1..]);
      assert p == [p[0]] + p[1..] && q == [q[0]] + q[1..];
    }
  }

  /** Eight steps take the first byte in and leave the other bytes xored on top. */
  lemma PackSplit(poly: word, crc: word, p: bytes)
    requires 0 < |p| <= 8
    ensures Shifts(poly, Xor(crc, Pack(p)), 8) == Xor(Absorb(poly, crc, p[0]), Pack(p[1..]))
  {
    var first, high: word := Widen(p[0]), Zeros(8) + Pack(p[1..])[..56];
    PackFirst(p);
    XorAssociates(crc, first, high);
    ShiftInto(poly, Xor(crc, first), high, Pack(p[1..]));
  }

  lemma XorAssociates(a: word, b: word, c: word)
    ensures Xor(a, Xor(b, c)) == Xor(Xor(a, b), c)
  {
    XorLaws(a, b, c, c);
  }

  lemma ShiftInto(poly: word, a: word, high: word, rest: word)
    requires Down(high, 8) == rest && forall i | 0 <= i < 8 :: !high[i]
    ensures Shifts(poly, Xor(a, high), 8) == Xor(Shifts(poly, a, 8), rest)
  {
    ShiftsLinear(poly, a, high, 8);
    ShiftsOverZeros(poly, high, 8);
  }

  lemma PackFirst(p: bytes)
    requires 0 < |p| <= 8
    ensures var high := Zeros(8) + Pack(p[1..])[..56];
      Pack(p) == Xor(Widen(p[0]), high) && Down(high, 8) == Pack(p[1..])
  {
    var rest := Pack(p[1..]);
    assert PackBits(p) == ByteBits(p[0]) + PackBits(p[1..]);
    assert Pack(p) == ByteBits(p[0]) + rest[..56];
    assert rest[56..] == Zeros(8);
    HighAndLow(ByteBits(p[0]), rest[..56]);
    assert Down(Zeros(8) + rest[..56], 8) == rest;
  }

  lemma HighAndLow(low: bits, high: bits)
    requires |low| == 8 && |high| == 56
    ensures low + high == Xor(low + Zeros(56), Zeros(8) + high)
  {
  }

  /** Up to eight bytes go into the state as a single word. */
  lemma {:induction false} ChecksumOfBlock(poly: word, crc: word, p: bytes)
    requires |p| <= 8
    ensures Checksum(poly, crc, p) == Shifts(poly, Xor(crc, Pack(p)), 8 * |p|)
    decreases p
  {
    if p == [] {
      assert Pack(p) == Zeros(64);
      XorLaws(crc, crc, crc, crc);
    } else {
      var rest := p[1..];
      PackSplit(poly, crc, p);
      ShiftsAdd(poly, Xor(crc, Pack(p)), 8, 8 * |rest|);
      ChecksumOfBlock(poly, Absorb(poly, crc, p[0]), rest);
    }
  }

  lemma XorCancels(c: word, x: word, y: word)
    requires Xor(c, x) == Xor(c, y)
    ensures x == y
  {
    assert forall i | 0 <= i < 64 :: Xor(c, x)[i] == Xor(c, y)[i];
  }

  /** Two blocks of the same length, at most eight bytes, give different states. */
  lemma BlockInjective(poly: word, crc: word, p: bytes, q: bytes)
    requires poly[63] && |p| == |q| <= 8 && p != q
    ensures Checksum(poly, crc, p) != Checksum(poly, crc, q)
  {
    ChecksumOfBlock(poly, crc, p);
    ChecksumOfBlock(poly, crc, q);
    if Xor(crc, Pack(p)) == Xor(crc, Pack(q)) {
      XorCancels(crc, Pack(p), Pack(q));
      assert PackBits(p) == Pack(p)[..8 * |p|] == Pack(q)[..8 * |p|] == PackBits(q);
      PackBitsInjective(p, q);
    } else {
      ShiftsInjective(poly, Xor(crc, Pack(p)), Xor(crc, Pack(q)), 8 * |p|);
    }
  }

  /** Corruption confined to eight consecutive bytes always changes the checksum. */
  lemma BurstDetected(poly: word, crc: word, head: bytes, p: bytes, q: bytes, tail: bytes)
    requires poly[63] && |p| == |q| <= 8 && p != q
    ensures Checksum(poly, crc, head + p + tail) != Checksum(poly, crc, head + q + tail)
  {
    var c := Checksum(poly, crc, head);
    ChecksumAppend(poly, crc, head + p, tail);
    ChecksumAppend(poly, crc, head + q, tail);
    ChecksumAppend(poly, crc, head, p);
    ChecksumAppend(poly, crc, head, q);
    BlockInjective(poly, c, p, q);
    ChecksumInjective(poly, Checksum(poly, c, p), Checksum(poly, c, q), tail);
  }

  /** The Jones polynomial has its top bit set, so single-burst corruption is detected with it. */
  lemma JonesDetectsBursts(head: bytes, p: bytes, q: bytes, tail: bytes)
    requires |p| == |q| <= 8 && p != q
    ensures Checksum(POLY, Zeros(64), head + p + tail) != Checksum(POLY, Zeros(64), head + q + tail)
  {
    PolyTopBit();
    BurstDetected(POLY, Zeros(64), head, p, q, tail);
  }
}

