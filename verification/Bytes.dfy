/** Bytes, and the few slice operations the wire code is built from. */
module Bytes {
  newtype byte = x: int | 0 <= x < 256

  type bytes = seq<byte>

  datatype Option<+T> = None | Some(value: T)

  const TWO_63 := 0x8000_0000_0000_0000
  const TWO_64 := 0x1_0000_0000_0000_0000

  type uint64 = n: int | 0 <= n < TWO_64

  const LF: byte := 10
  const CR: byte := 13
  const SPACE: byte := 32
  const MINUS: byte := 45
  const DOLLAR: byte := 36
  const STAR: byte := 42
  const CRLF: bytes := [CR, LF]

  predicate IsDigit(b: byte) { 48 <= b <= 57 }

  /** The first position from p on that holds b, or the length: Go's `bytes.IndexByte(s[p:], b)`. */
  function IndexFrom(s: bytes, p: nat, b: byte): (i: nat)
    requires p <= |s|
    ensures p <= i <= |s|
    decreases |s| - p
  {
    if p == |s| || s[p] == b then p else IndexFrom(s, p + 1, b)
  }

  lemma {:induction false} IndexIsFirst(s: bytes, p: nat, b: byte)
    requires p <= |s|
    ensures var i := IndexFrom(s, p, b);
      (i < |s| ==> s[i] == b) && forall j | p <= j < i :: s[j] != b
    decreases |s| - p
  {
    if p < |s| && s[p] != b { IndexIsFirst(s, p + 1, b); }
  }

  /** Once found, the first occurrence does not move when bytes are added behind. */
  lemma {:induction false} IndexExtends(s: bytes, t: bytes, p: nat, b: byte)
    requires p <= |s| && IndexFrom(s, p, b) < |s|
    ensures IndexFrom(s + t, p, b) == IndexFrom(s, p, b)
    decreases |s| - p
  {
    if s[p] != b { IndexExtends(s, t, p + 1, b); }
  }

  lemma Associates<T>(a: seq<T>, b: seq<T>, c: seq<T>)
    ensures (a + b) + c == a + (b + c)
  {
  }
}

