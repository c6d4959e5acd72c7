/** Machine words as bit strings, least significant bit first. */
module Bits {
  import opened Bytes

  type bits = seq<bool>

  function Pow2(n: nat): (p: nat)
    ensures p >= 1
  {
    if n == 0 then 1 else 2 * Pow2(n - 1)
  }

  lemma {:induction false} Pow2Add(a: nat, b: nat)
    ensures Pow2(a + b) == Pow2(a) * Pow2(b)
  {
    if a > 0 { Pow2Add(a - 1, b); }
  }

  lemma Pow2Of64()
    ensures Pow2(64) == 0x1_0000_0000_0000_0000 && Pow2(63) == 0x8000_0000_0000_0000
  {
    assert Pow2(8) == 0x100;
    Pow2Add(8, 8);
    Pow2Add(16, 16);
    assert Pow2(32) == 0x1_0000_0000;
    Pow2Add(32, 32);
    assert Pow2(64) == 2 * Pow2(63);
  }

  /** The low k bits of n. */
  function BitsOf(n: nat, k: nat): (w: bits)
    ensures |w| == k
    decreases k
  {
    if k == 0 then [] else [n % 2 == 1] + BitsOf(n / 2, k - 1)
  }

  function ValueOf(w: bits): (n: nat)
    ensures n < Pow2(|w|)
  {
    if w == [] then 0 else (if w[0] then 1 else 0) + 2 * ValueOf(w[1..])
  }

  lemma {:induction false} ValueOfBits(n: nat, k: nat)
    requires n < Pow2(k)
    ensures ValueOf(BitsOf(n, k)) == n
    decreases k
  {
    if k > 0 { ValueOfBits(n / 2, k - 1); }
  }

  lemma {:induction false} BitsOfValue(w: bits)
    ensures BitsOf(ValueOf(w), |w|) == w
  {
    if w != [] {
      BitsOfValue(w[1..]);
      assert ValueOf(w) / 2 == ValueOf(w[1..]);
      assert w == [w[0]] + w[1..];
    }
  }

  /** The top bit of a number that needs all k bits. */
  lemma {:induction false} TopBit(n: nat, k: nat)
    requires k > 0 && Pow2(k - 1) <= n < Pow2(k)
    ensures BitsOf(n, k)[k - 1]
    decreases k
  {
    if k > 1 { TopBit(n / 2, k - 1); }
  }

  function Zeros(k: nat): (w: bits)
    ensures |w| == k
  {
    seq(k, _ => false)
  }

  function Xor(a: bits, b: bits): (c: bits)
    requires |a| == |b|
    ensures |c| == |a| && forall i | 0 <= i < |a| :: c[i] == (a[i] != b[i])
  {
    seq(|a|, i requires 0 <= i < |a| => a[i] != b[i])
  }

  /** The logical right shift. */
  function Down(w: bits, k: nat): (r: bits)
    requires k <= |w|
    ensures |r| == |w|
  {
    w[k..] + Zeros(k)
  }

  function ByteBits(b: byte): (w: bits)
    ensures |w| == 8
  {
    BitsOf(b as nat, 8)
  }

  function ByteOf(w: bits): (b: byte)
    requires |w| == 8
  {
    assert Pow2(8) == 256;
    ValueOf(w) as byte
  }

  lemma ByteOfBits(b: byte)
    ensures ByteOf(ByteBits(b)) == b
  {
    assert Pow2(8) == 256;
    ValueOfBits(b as nat, 8);
  }

  lemma BitsOfByte(w: bits)
    requires |w| == 8
    ensures ByteBits(ByteOf(w)) == w
  {
    BitsOfValue(w);
  }

  lemma ByteBitsInjective(a: byte, b: byte)
    requires ByteBits(a) == ByteBits(b)
    ensures a == b
  {
    ByteOfBits(a);
    ByteOfBits(b);
  }
}

