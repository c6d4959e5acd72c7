/** The growing circular byte buffer of the reactor, against a plain byte queue. */
module RingBuffers {
  import opened Bytes

  /** The bytes from cursor r up to cursor w, going round the end. */
  ghost function Window(b: bytes, r: int, w: int): bytes
    requires 0 <= r < |b| && 0 <= w < |b|
  {
    if w >= r then b[r..w] else b[r..] + b[..w]
  }

  /** Go's `copy(b[at:], s)` where s fits. */
  function Overwrite(b: bytes, at: int, s: bytes): (c: bytes)
    requires 0 <= at && at + |s| <= |b|
    ensures |c| == |b|
  {
    b[..at] + s + b[at + |s|..]
  }

  lemma AppendAhead(b: bytes, r: int, w: int, s: bytes)
    requires 0 <= r < |b| && 0 <= w < |b| && w + |s| < |b| && (w < r ==> w + |s| < r)
    ensures Window(Overwrite(b, w, s), r, w + |s|) == Window(b, r, w) + s
  {
    var c := Overwrite(b, w, s);
    if w >= r {
      assert c[r..w + |s|] == b[r..w] + s;
    } else {
      assert c[r..] == b[r..];
      assert c[..w + |s|] == b[..w] + s;
    }
  }

  /** Bytes already in place behind w become part of the window when w moves. */
  lemma AppendInPlace(b: bytes, r: int, w: int, n: int)
    requires 0 <= r < |b| && 0 <= w < |b| && 0 < n && w + n <= |b| && n <= |b| - 1 - |Window(b, r, w)|
    ensures Window(b, r, if w + n < |b| then w + n else w + n - |b|) == Window(b, r, w) + b[w..w + n]
  {
    if w + n < |b| && w < r {
      assert b[..w + n] == b[..w] + b[w..w + n];
    }
  }

  /** Moving the read cursor by n drops n bytes from the front. */
  lemma DropFront(b: bytes, r: int, w: int, n: int)
    requires 0 <= r < |b| && 0 <= w < |b| && 0 <= n <= |Window(b, r, w)|
    ensures Window(b, if r + n < |b| then r + n else r + n - |b|, w) == Window(b, r, w)[n..]
  {
  }

  /** The first n bytes lie in one stretch, or in two. */
  lemma FrontPieces(b: bytes, r: int, w: int, n: int)
    requires 0 <= r < |b| && 0 <= w < |b| && 0 <= n <= |Window(b, r, w)|
    ensures Window(b, r, w)[..n] == if r + n <= |b| then b[r..r + n] else b[r..] + b[..r + n - |b|]
  {
  }

  lemma AppendRound(b: bytes, r: int, w: int, s: bytes, t: bytes)
    requires 0 <= r <= w < |b| && w + |s| == |b| && |t| < r
    ensures Window(Overwrite(Overwrite(b, w, s), 0, t), r, |t|) == Window(b, r, w) + (s + t)
  {
    var c := Overwrite(Overwrite(b, w, s), 0, t);
    assert c[r..] == b[r..w] + s;
    assert c[..|t|] == t;
  }

  lemma OverwriteFront(q: bytes, s: bytes)
    requires |s| <= |q|
    ensures Overwrite(q, 0, s)[..|s|] == s
  {
  }

  lemma CopyRound(q: bytes, s: bytes, t: bytes)
    requires |s| + |t| <= |q|
    ensures Overwrite(Overwrite(q, 0, s), |s|, t) == Overwrite(q, 0, s + t)
  {
  }

  class RingBuffer {
    var buf: array<byte>
    var size: int
    var r: int  // read cursor
    var w: int  // write cursor

    ghost predicate Valid()
      reads this
    {
      buf.Length == size && 0 <= r < size && 0 <= w < size
    }

    /** The unread bytes, in order. */
    ghost function Contents(): bytes
      requires Valid()
      reads this, buf
    {
      Window(buf[..], r, w)
    }

    constructor (capacity: int)
      ensures Valid() && fresh(buf) && Contents() == []
      ensures size == if capacity <= 0 then 64 * 1024 else capacity
    {
      var n := if capacity <= 0 then 64 * 1024 else capacity;
      buf := new byte[n](_ => 0);
      size := n;
      r, w := 0, 0;
    }

    function Len(): (n: int)
      requires Valid()
      reads this, buf
      ensures n == |Contents()|
    {
      if w >= r then w - r else size - r + w
    }

    /** One slot always stays unused. */
    function Free(): (n: int)
      requires Valid()
      reads this, buf
      ensures n == size - 1 - |Contents()| >= 0
    {
      size - 1 - Len()
    }

    predicate IsEmpty()
      requires Valid()
      reads this, buf
      ensures IsEmpty() <==> Contents() == []
    {
      r == w
    }

    method Reset()
      requires Valid()
      modifies this`r, this`w
      ensures Valid() && Contents() == []
    {
      r, w := 0, 0;
    }

    static method Copy(a: array<byte>, at: int, s: bytes)
      requires 0 <= at && at + |s| <= a.Length
      modifies a
      ensures a[..] == Overwrite(old(a[..]), at, s)
    {
      var i := 0;
      while i < |s|
        invariant 0 <= i <= |s|
        invariant a[..] == Overwrite(old(a[..]), at, s[..i])
      {
        a[at + i] := s[i];
        i := i + 1;
      }
      assert s[..i] == s;
    }

    method Grow(minCap: int)
      requires Valid() && minCap >= 1
      modifies this
      ensures Valid() && fresh(buf) && Contents() == old(Contents())
      ensures size >= minCap && size >= 2 * old(size)
    {
      var newCap := size * 2;
      if newCap < minCap {
        newCap := minCap * 2;
      }
      var newBuf := new byte[newCap](_ => 0);
      var avail := Len();
      ghost var blank, b := newBuf[..], buf[..];
      if avail > 0 {
        if w > r {
          assert buf[r..w] == b[r..w];
          Copy(newBuf, 0, buf[r..w]);
        } else {
          var c1 := size - r;
          CopyRound(blank, b[r..], b[..w]);
          assert buf[r..] == b[r..] && buf[..w] == b[..w];
          Copy(newBuf, 0, buf[r..]);
          Copy(newBuf, c1, buf[..w]);
        }
        OverwriteFront(blank, Window(b, r, w));
      }
      assert newBuf[..avail] == newBuf[..][..avail];
      buf, size := newBuf, newCap;
      r, w := 0, avail;
    }

    /** Appends p, growing the buffer when it does not fit. */
    method Write(p: bytes) returns (n: int)
      requires Valid()
      modifies this, buf
      ensures Valid() && n == |p| && Contents() == old(Contents()) + p
      ensures buf == old(buf) || fresh(buf)
    {
      n := |p|;
      if n == 0 {
        return;
      }
      if n > Free() {
        Grow(Len() + n + 1);
      }
      WriteFitting(p);
    }

    method WriteFitting(p: bytes)
      requires Valid() && 0 < |p| <= Free()
      modifies this`w, buf
      ensures Valid() && Contents() == old(Contents()) + p
    {
      var n := |p|;
      if w >= r {
        var c1 := size - w;
        if n <= c1 {
          if n < c1 { AppendAhead(buf[..], r, w, p); } else { AppendRound(buf[..], r, w, p, []); }
          Copy(buf, w, p);
          w := w + n;
          if w == size {
            assert buf[..] == Overwrite(buf[..], 0, []);
            w := 0;
          }
        } else {
          AppendRound(buf[..], r, w, p[..c1], p[c1..]);
          assert p[..c1] + p[c1..] == p;
          Copy(buf, w, p[..c1]);
          Copy(buf, 0, p[c1..]);
          w := n - c1;
        }
      } else {
        AppendAhead(buf[..], r, w, p);
        Copy(buf, w, p);
        w := w + n;
      }
    }

    /** Moves up to p.Length unread bytes into p; `eof` when there are none. */
    method Read(p: array<byte>) returns (n: int, eof: bool)
      requires Valid() && p != buf
      modifies this`r, p
      ensures Valid() && eof == (old(Contents()) == [])
      ensures n == if p.Length < |old(Contents())| then p.Length else |old(Contents())|
      ensures Contents() == old(Contents())[n..] && p[..] == Overwrite(old(p[..]), 0, old(Contents())[..n])
    {
      if IsEmpty() {
        return 0, true;
      }
      eof, n := false, p.Length;
      var avail := Len();
      if n > avail {
        n := avail;
      }
      Take(p, n);
    }

    method Take(p: array<byte>, n: int)
      requires Valid() && p != buf && 0 <= n <= p.Length && n <= |Contents()| && !IsEmpty()
      modifies this`r, p
      ensures Valid() && Contents() == old(Contents())[n..]
      ensures p[..] == Overwrite(old(p[..]), 0, old(Contents())[..n])
    {
      if w > r {
        TakeStraight(p, n);
        return;
      }
      var c1 := size - r;
      if n <= c1 {
        TakeStraight(p, n);
        return;
      }
      var c2 := n - c1;
      ghost var b := buf[..];
      DropFront(b, r, w, n);
      FrontPieces(b, r, w, n);
      CopyRound(p[..], b[r..], b[..c2]);
      assert buf[r..] == b[r..] && buf[..c2] == b[..c2];
      Copy(p, 0, buf[r..]);
      Copy(p, c1, buf[..c2]);
      r := c2;
    }

    /** The bytes taken do not go round the end. */
    method TakeStraight(p: array<byte>, n: int)
      requires Valid() && p != buf && 0 <= n <= p.Length && n <= |Contents()| && r + n <= size
      modifies this`r, p
      ensures Valid() && Contents() == old(Contents())[n..]
      ensures p[..] == Overwrite(old(p[..]), 0, old(Contents())[..n])
    {
      ghost var b := buf[..];
      DropFront(b, r, w, n);
      FrontPieces(b, r, w, n);
      assert buf[r..r + n] == b[r..r + n];
      Copy(p, 0, buf[r..r + n]);
      r := r + n;
      if r == size {
        r := 0;
      }
    }

    /** The unread bytes up to the physical end of the buffer. */
    method Peek() returns (p: bytes)
      requires Valid()
      ensures p <= Contents() && (p == [] <==> Contents() == [])
      ensures |p| < |Contents()| ==> r + |p| == size
    {
      if IsEmpty() {
        return [];
      }
      if w > r {
        return buf[r..w];
      }
      return buf[r..];
    }

    /** All unread bytes in one slice. */
    method All() returns (p: bytes)
      requires Valid()
      ensures p == Contents()
    {
      var avail := Len();
      if avail == 0 {
        return [];
      }
      if w > r {
        return buf[r..w];
      }
      p := buf[r..] + buf[..w];
    }

    /** Drops up to n bytes from the front. */
    method AdvanceRead(n: int)
      requires Valid()
      modifies this`r
      ensures Valid()
      ensures var all := |old(Contents())|;
        Contents() == old(Contents())[if n <= 0 then 0 else if n > all then all else n..]
    {
      if n <= 0 {
        return;
      }
      var m := n;
      var avail := Len();
      if m > avail {
        m := avail;
      }
      DropFront(buf[..], r, w, m);
      WrapOnce(r + m, size);
      r := (r + m) % size;
    }

    /** The free stretch behind the write cursor, as bounds into `buf`. */
    method WriteSlice() returns (lo: int, hi: int)
      requires Valid()
      ensures lo == w && 0 <= lo <= hi <= size && hi - lo <= Free()
      ensures hi == lo ==> Free() == 0
    {
      if w >= r {
        if r == 0 {
          return w, size - 1;
        }
        return w, size;
      }
      return w, r - 1;
    }

    /** After n bytes have been put into the free stretch, makes them readable. */
    method AdvanceWrite(n: int)
      requires Valid() && n <= Free() && (n <= 0 || w + n <= size)
      modifies this`w
      ensures Valid()
      ensures Contents() == if n <= 0 then old(Contents()) else old(Contents()) + buf[old(w)..old(w) + n]
    {
      if n <= 0 {
        return;
      }
      AppendInPlace(buf[..], r, w, n);
      WrapOnce(w + n, size);
      w := (w + n) % size;
    }
  }

  lemma WrapOnce(x: int, n: int)
    requires 0 < n && 0 <= x < 2 * n
    ensures x % n == if x < n then x else x - n
  {
    var q := x / n;
    assert x == n * q + x % n;
    if q >= 2 { TimesAtLeast(n, q, 2); }
    if q <= 0 { TimesAtLeast(n, 0, q); }
  }

  lemma TimesAtLeast(n: int, p: int, q: int)
    requires 0 < n && p >= q
    ensures n * p >= n * q
  {
  }
}

