/** The incremental command parser of the reactor (RESP arrays and inline commands). */
module CommandParser {
  import opened Bytes

  const MAX_INT64 := 0x7fff_ffff_ffff_ffff

  /** Incomplete: wait for more bytes.  Panic: an index outside the slice, which stops the Go program. */
  datatype ParseResult = Incomplete | Command(args: seq<bytes>, consumed: nat) | ProtocolError | Panic

  /** Two's complement 64-bit wrap-around. */
  function Wrap64(x: int): int {
    (x + MAX_INT64 + 1) % TWO_64 - MAX_INT64 - 1
  }

  /** The value of the digits at from..stop-1 on top of acc, in wrapping 64-bit arithmetic; None at any other byte. */
  function Digits(data: bytes, from: int, stop: int, acc: int): Option<int>
    requires 0 <= from <= stop <= |data|
    decreases stop - from
  {
    if from == stop then Some(acc)
    else if !IsDigit(data[from]) then None
    else Digits(data, from + 1, stop, Wrap64(acc * 10 + (data[from] - 48) as int))
  }

  /** The length written in a bulk header: an optional minus sign and digits. */
  function BulkLength(data: bytes, from: int, stop: int): Option<int>
    requires 0 <= from <= stop <= |data|
  {
    if from < stop && data[from] == MINUS then
      match Digits(data, from + 1, stop, 0) {
        case None => None
        case Some(n) => Some(Wrap64(-n))
      }
    else Digits(data, from, stop, 0)
  }

  // ---------------------------------------------------------------------------
  // What the parser computes, as functions of the bytes.
  // ---------------------------------------------------------------------------

  datatype Item = NeedMore | Bad | Fault | Arg(arg: bytes, next: nat)

  /** The bulk string that starts at pos. */
  function ItemAt(data: bytes, pos: nat): (item: Item)
    requires pos <= |data|
    ensures item.Arg? ==> pos < item.next <= |data|
  {
    if pos == |data| then NeedMore
    else if data[pos] != DOLLAR then Bad
    else
      var end := IndexFrom(data, pos, LF);
      if end == |data| then NeedMore
      else if end < pos + 2 || data[end - 1] != CR then Bad
      else
        match BulkLength(data, pos + 1, end - 1)
        case None => Bad
        case Some(n) => PayloadAt(data, end + 1, n)
  }

  /** The payload of n bytes that starts at pos, and the line end behind it. */
  function PayloadAt(data: bytes, pos: nat, n: int): (item: Item)
    requires pos <= |data|
    ensures item.Arg? ==> pos <= item.next <= |data|
  {
    if n == -1 then Arg([], pos)
    else if n < 0 then Bad
    else if n > MAX_INT64 - 2 then Fault  // n + 2 is negative, so the index pos + n is used and is out of range
    else if |data| - pos < n + 2 then NeedMore
    else if data[pos + n] != CR || data[pos + n + 1] != LF then Bad
    else Arg(data[pos..pos + n], pos + n + 2)
  }

  /** n more bulk strings from pos on, behind those already in args. */
  function Items(data: bytes, pos: nat, n: int, args: seq<bytes>): (r: ParseResult)
    requires pos <= |data|
    ensures r.Command? ==> pos <= r.consumed <= |data|
    decreases n
  {
    if n <= 0 then Command(args, pos)
    else
      match ItemAt(data, pos)
      case NeedMore => Incomplete
      case Bad => ProtocolError
      case Fault => Panic
      case Arg(a, next) => Items(data, next, n - 1, args + [a])
  }

  function ParseArray(data: bytes): (r: ParseResult)
    requires data != [] && data[0] == STAR
    ensures r.Command? ==> 0 < r.consumed <= |data|
  {
    var idx := IndexFrom(data, 0, LF);
    if idx == |data| then Incomplete
    else if idx < 2 || data[idx - 1] != CR then ProtocolError
    else
      match Digits(data, 1, idx - 1, 0)
      case None => ProtocolError
      case Some(count) => Items(data, idx + 1, count, [])
  }

  /** The ASCII white space of Go's `bytes.Fields`. */
  predicate IsSpace(b: byte) {
    b == SPACE || 9 <= b <= 13
  }

  /** The number of bytes before the first white space. */
  function FieldLength(s: bytes): (n: nat)
    ensures n <= |s|
  {
    if s == [] || IsSpace(s[0]) then 0 else 1 + FieldLength(s[1..])
  }

  /** The maximal runs of bytes that are not white space. */
  function Fields(s: bytes): seq<bytes>
    decreases |s|
  {
    if s == [] then []
    else if IsSpace(s[0]) then Fields(s[1..])
    else
      var n := FieldLength(s);
      [s[..n]] + Fields(s[n..])
  }

  lemma SpaceIs(b: byte)
    ensures IsSpace(b) <==> b in {9, 10, 11, 12, 13, 32}
  {
  }

  /** White space separates, and everything up to the next white space is one field. */
  lemma FieldsAre(w: bytes, rest: bytes)
    requires (forall b | b in w :: !IsSpace(b)) && (rest == [] || IsSpace(rest[0]))
    ensures rest != [] ==> Fields(rest) == Fields(rest[1..])
    ensures w != [] ==> Fields(w + rest) == [w] + Fields(rest)
  {
    if w != [] {
      FieldLengthIs(w, rest);
      assert (w + rest)[0] == w[0] && (w + rest)[..|w|] == w && (w + rest)[|w|..] == rest;
    }
  }

  lemma {:induction false} FieldLengthIs(w: bytes, rest: bytes)
    requires (forall b | b in w :: !IsSpace(b)) && (rest == [] || IsSpace(rest[0]))
    ensures FieldLength(w + rest) == |w|
  {
    if w == [] {
      assert w + rest == rest;
    } else {
      assert w[0] in w && (w + rest)[1..] == w[1..] + rest;
      FieldLengthIs(w[1..], rest);
    }
  }

  function ParseInline(data: bytes): (r: ParseResult)
    ensures r.Command? ==> 0 < r.consumed <= |data|
  {
    var idx := IndexFrom(data, 0, LF);
    if idx == |data| then Incomplete
    else
      var lineEnd := if idx > 0 && data[idx - 1] == CR then idx - 1 else idx;
      Command(Fields(data[..lineEnd]), idx + 1)
  }

  /** One command from the front of data. */
  function Parse(data: bytes): (r: ParseResult)
    ensures r.Command? ==> 0 < r.consumed <= |data|
  {
    if data == [] then Incomplete
    else if data[0] == STAR then ParseArray(data)
    else ParseInline(data)
  }

  // ---------------------------------------------------------------------------
  // When the program stops.
  // ---------------------------------------------------------------------------

  /** The argument count in a complete array header, and where the arguments begin. */
  function ArrayHeader(data: bytes): Option<(int, nat)> {
    if data == [] || data[0] != STAR then None
    else
      var idx := IndexFrom(data, 0, LF);
      if idx == |data| || idx < 2 || data[idx - 1] != CR then None
      else
        match Digits(data, 1, idx - 1, 0)
        case None => None
        case Some(count) => Some((count, idx + 1))
  }

  /** Where the bulk string behind k others begins, if these can all be read. */
  function BulkStart(data: bytes, pos: nat, k: nat): (p: Option<nat>)
    requires pos <= |data|
    ensures p.Some? ==> p.value <= |data|
    decreases k
  {
    if k == 0 then Some(pos)
    else
      match ItemAt(data, pos)
      case Arg(_, next) => BulkStart(data, next, k - 1)
      case _ => None
  }

  /** A complete header with a length, as 64-bit arithmetic reads it, that is too large to add two to. */
  predicate HugeHeader(data: bytes, p: nat) {
    && p < |data| && data[p] == DOLLAR
    && var end := IndexFrom(data, p, LF);
    && p + 2 <= end < |data| && data[end - 1] == CR
    && BulkLength(data, p + 1, end - 1).Some? && BulkLength(data, p + 1, end - 1).value > MAX_INT64 - 2
  }

  ghost predicate HugeAt(data: bytes, pos: nat, k: nat)
    requires pos <= |data|
  {
    BulkStart(data, pos, k).Some? && HugeHeader(data, BulkStart(data, pos, k).value)
  }

  lemma FaultIff(data: bytes, pos: nat)
    requires pos <= |data|
    ensures ItemAt(data, pos).Fault? <==> HugeAt(data, pos, 0)
  {
  }

  lemma HugeLater(data: bytes, pos: nat, k: nat)
    requires pos <= |data|
    ensures HugeAt(data, pos, k + 1) <==> ItemAt(data, pos).Arg? && HugeAt(data, ItemAt(data, pos).next, k)
  {
  }

  /** One of the next n bulk strings has such a header. */
  ghost predicate HugeAmong(data: bytes, pos: nat, n: int)
    requires pos <= |data|
  {
    exists k: nat :: k < n && HugeAt(data, pos, k)
  }

  lemma HugeAmongStep(data: bytes, pos: nat, n: int)
    requires pos <= |data| && n > 0
    ensures HugeAmong(data, pos, n) <==>
      var item := ItemAt(data, pos); item.Fault? || (item.Arg? && HugeAmong(data, item.next, n - 1))
  {
    FaultIff(data, pos);
    var item := ItemAt(data, pos);
    if k: nat :| k < n && HugeAt(data, pos, k) {
      if k > 0 {
        HugeLater(data, pos, k - 1);
        assert item.Arg? && k - 1 < n - 1 && HugeAt(data, item.next, k - 1);
      }
    }
    if item.Arg? {
      if k: nat :| k < n - 1 && HugeAt(data, item.next, k) {
        HugeLater(data, pos, k);
        assert k + 1 < n && HugeAt(data, pos, k + 1);
      }
    }
  }

  lemma {:induction false} ItemsPanicIff(data: bytes, pos: nat, n: int, args: seq<bytes>)
    requires pos <= |data|
    ensures Items(data, pos, n, args).Panic? <==> HugeAmong(data, pos, n)
    decreases n
  {
    if n > 0 {
      HugeAmongStep(data, pos, n);
      var item := ItemAt(data, pos);
      if item.Arg? { ItemsPanicIff(data, item.next, n - 1, args + [item.arg]); }
    }
  }

  /** The parser panics exactly when, behind arguments it has read, one of those announced has such a header. */
  lemma PanicIff(data: bytes)
    ensures Parse(data).Panic? <==>
      && ArrayHeader(data).Some?
      && var (count, pos) := ArrayHeader(data).value;
      && pos <= |data| && HugeAmong(data, pos, count)
  {
    if ArrayHeader(data).Some? {
      var (count, pos) := ArrayHeader(data).value;
      ItemsPanicIff(data, pos, count, []);
    }
  }

  // ---------------------------------------------------------------------------
  // A verdict never changes when more bytes arrive.
  // ---------------------------------------------------------------------------

  lemma {:induction false} DigitsExtend(data: bytes, ext: bytes, from: int, stop: int, acc: int)
    requires 0 <= from <= stop <= |data|
    ensures Digits(data + ext, from, stop, acc) == Digits(data, from, stop, acc)
    decreases stop - from
  {
    if from < stop && IsDigit(data[from]) {
      DigitsExtend(data, ext, from + 1, stop, Wrap64(acc * 10 + (data[from] - 48) as int));
    }
  }

  lemma ItemExtends(data: bytes, ext: bytes, pos: nat)
    requires pos <= |data| && !ItemAt(data, pos).NeedMore?
    ensures ItemAt(data + ext, pos) == ItemAt(data, pos)
  {
    if data[pos] == DOLLAR {
      IndexExtends(data, ext, pos, LF);
      var end := IndexFrom(data, pos, LF);
      if end >= pos + 2 && data[end - 1] == CR {
        DigitsExtend(data, ext, pos + 1, end - 1, 0);
        if pos + 1 < end - 1 { DigitsExtend(data, ext, pos + 2, end - 1, 0); }
        var len := BulkLength(data, pos + 1, end - 1);
        if len.Some? { PayloadExtends(data, ext, end + 1, len.value); }
      }
    }
  }

  lemma PayloadExtends(data: bytes, ext: bytes, pos: nat, n: int)
    requires pos <= |data| && !PayloadAt(data, pos, n).NeedMore?
    ensures PayloadAt(data + ext, pos, n) == PayloadAt(data, pos, n)
  {
    if 0 <= n <= MAX_INT64 - 2 {
      assert (data + ext)[pos..pos + n] == data[pos..pos + n];
    }
  }

  lemma {:induction false} ItemsExtend(data: bytes, ext: bytes, pos: nat, n: int, args: seq<bytes>)
    requires pos <= |data| && !Items(data, pos, n, args).Incomplete?
    ensures Items(data + ext, pos, n, args) == Items(data, pos, n, args)
    decreases n
  {
    if n > 0 {
      var item := ItemAt(data, pos);
      ItemExtends(data, ext, pos);
      match item {
        case NeedMore => assert false;
        case Bad =>
        case Fault =>
        case Arg(a, next) => ItemsExtend(data, ext, next, n - 1, args + [a]);
      }
    }
  }

  /** Success, protocol error and panic alike are final. */
  lemma ParseExtends(data: bytes, ext: bytes)
    requires !Parse(data).Incomplete?
    ensures Parse(data + ext) == Parse(data)
  {
    IndexExtends(data, ext, 0, LF);
    var idx := IndexFrom(data, 0, LF);
    if data[0] == STAR {
      if idx >= 2 && data[idx - 1] == CR {
        DigitsExtend(data, ext, 1, idx - 1, 0);
        var count := Digits(data, 1, idx - 1, 0);
        if count.Some? { ItemsExtend(data, ext, idx + 1, count.value, []); }
      }
    } else {
      var lineEnd := if idx > 0 && data[idx - 1] == CR then idx - 1 else idx;
      assert (data + ext)[..lineEnd] == data[..lineEnd];
    }
  }

  // ---------------------------------------------------------------------------
  // A command is determined by the bytes it consumes.
  // ---------------------------------------------------------------------------

  lemma {:induction false} IndexLocal(data: bytes, p: nat, b: byte, n: nat)
    requires p <= |data| && IndexFrom(data, p, b) < n <= |data|
    ensures IndexFrom(data[..n], p, b) == IndexFrom(data, p, b)
    decreases |data| - p
  {
    if data[p] != b { IndexLocal(data, p + 1, b, n); }
  }

  lemma {:induction false} DigitsLocal(data: bytes, from: int, stop: int, acc: int, n: nat)
    requires 0 <= from <= stop <= n <= |data|
    ensures Digits(data[..n], from, stop, acc) == Digits(data, from, stop, acc)
  {
    assert data == data[..n] + data[n..];
    DigitsExtend(data[..n], data[n..], from, stop, acc);
  }

  lemma ItemLocal(data: bytes, pos: nat)
    requires pos <= |data| && ItemAt(data, pos).Arg?
    ensures var n := ItemAt(data, pos).next; ItemAt(data[..n], pos) == ItemAt(data, pos)
  {
    var n := ItemAt(data, pos).next;
    var end := IndexFrom(data, pos, LF);
    IndexLocal(data, pos, LF, n);
    DigitsLocal(data, pos + 1, end - 1, 0, n);
    if pos + 1 < end - 1 { DigitsLocal(data, pos + 2, end - 1, 0, n); }
    var len := BulkLength(data, pos + 1, end - 1).value;
    if len >= 0 { assert data[..n][end + 1..end + 1 + len] == data[end + 1..end + 1 + len]; }
  }

  lemma {:induction false} ItemsLocal(data: bytes, pos: nat, n: int, args: seq<bytes>)
    requires pos <= |data| && Items(data, pos, n, args).Command?
    ensures var c := Items(data, pos, n, args).consumed; Items(data[..c], pos, n, args) == Items(data, pos, n, args)
    decreases n
  {
    if n > 0 {
      var c := Items(data, pos, n, args).consumed;
      var item := ItemAt(data, pos);
      ItemLocal(data, pos);
      assert data[..c] == data[..item.next] + data[item.next..c];
      ItemExtends(data[..item.next], data[item.next..c], pos);
      ItemsLocal(data, item.next, n - 1, args + [item.arg]);
    }
  }

  lemma ParseLocal(data: bytes)
    requires Parse(data).Command?
    ensures Parse(data[..Parse(data).consumed]) == Parse(data)
  {
    var c := Parse(data).consumed;
    var idx := IndexFrom(data, 0, LF);
    IndexLocal(data, 0, LF, c);
    if data[0] == STAR {
      DigitsLocal(data, 1, idx - 1, 0, c);
      ItemsLocal(data, idx + 1, Digits(data, 1, idx - 1, 0).value, []);
    } else {
      var lineEnd := if idx > 0 && data[idx - 1] == CR then idx - 1 else idx;
      assert data[..c][..lineEnd] == data[..lineEnd];
    }
  }

  // ---------------------------------------------------------------------------
  // The parser itself: cursors and loops.
  // ---------------------------------------------------------------------------

  method ParseCommandInto(data: bytes) returns (r: ParseResult)
    ensures r == Parse(data)
  {
    if |data| == 0 {
      return Incomplete;
    }
    if data[0] == STAR {
      r := ParseRespArrayInto(data);
    } else {
      r := ParseInlineCommandInto(data);
    }
  }

  /** The digit loop; `ok` is false at the first other byte. */
  method ParseDigits(data: bytes, from: int, stop: int) returns (n: int, ok: bool)
    requires 0 <= from <= stop <= |data|
    ensures ok == Digits(data, from, stop, 0).Some?
    ensures ok ==> Digits(data, from, stop, 0) == Some(n)
  {
    n := 0;
    var i := from;
    while i < stop
      invariant from <= i <= stop
      invariant Digits(data, from, stop, 0) == Digits(data, i, stop, n)
    {
      if !IsDigit(data[i]) {
        return 0, false;
      }
      n := Wrap64(n * 10 + (data[i] - 48) as int);
      i := i + 1;
    }
    ok := true;
  }

  /** One bulk string; the argument and the position behind it on success. */
  method ParseBulk(data: bytes, consumed: int) returns (item: Item)
    requires 0 <= consumed <= |data|
    ensures item == ItemAt(data, consumed)
  {
    if consumed >= |data| {
      return NeedMore;
    }
    if data[consumed] != DOLLAR {
      return Bad;
    }
    var endLen := IndexFrom(data, consumed, LF);
    if endLen == |data| {
      return NeedMore;
    }
    if endLen < consumed + 2 || data[endLen - 1] != CR {
      return Bad;
    }
    var start, isNegative := consumed + 1, false;
    if start < endLen - 1 && data[start] == MINUS {
      isNegative := true;
      start := start + 1;
    }
    var bulkLen, ok := ParseDigits(data, start, endLen - 1);
    if !ok {
      return Bad;
    }
    if isNegative {
      bulkLen := Wrap64(-bulkLen);
    }
    var pos := endLen + 1;
    if bulkLen == -1 {
      return Arg([], pos);
    }
    if bulkLen < 0 {
      return Bad;
    }
    if bulkLen > MAX_INT64 - 2 {
      return Fault;
    }
    if |data| - pos < bulkLen + 2 {
      return NeedMore;
    }
    if data[pos + bulkLen] != CR || data[pos + bulkLen + 1] != LF {
      return Bad;
    }
    return Arg(data[pos..pos + bulkLen], pos + bulkLen + 2);
  }

  method ParseRespArrayInto(data: bytes) returns (r: ParseResult)
    requires data != [] && data[0] == STAR
    ensures r == ParseArray(data)
  {
    var idx := IndexFrom(data, 0, LF);
    if idx == |data| {
      return Incomplete;
    }
    if idx < 2 || data[idx - 1] != CR {
      return ProtocolError;
    }
    var count, ok := ParseDigits(data, 1, idx - 1);
    if !ok {
      return ProtocolError;
    }
    if count == 0 {
      return Command([], idx + 1);
    }
    r := ParseItems(data, idx + 1, count);
  }

  method ParseItems(data: bytes, from: int, count: int) returns (r: ParseResult)
    requires 0 <= from <= |data|
    ensures r == Items(data, from, count, [])
  {
    var args: seq<bytes>, consumed, i := [], from, 0;
    while i < count
      invariant 0 <= i && 0 <= consumed <= |data|
      invariant Items(data, from, count, []) == Items(data, consumed, count - i, args)
    {
      var item := ParseBulk(data, consumed);
      match item {
        case NeedMore => return Incomplete;
        case Bad => return ProtocolError;
        case Fault => return Panic;
        case Arg(a, next) =>
          args := args + [a];
          consumed := next;
      }
      i := i + 1;
    }
    return Command(args, consumed);
  }

  method ParseInlineCommandInto(data: bytes) returns (r: ParseResult)
    ensures r == ParseInline(data)
  {
    var idx := IndexFrom(data, 0, LF);
    if idx == |data| {
      return Incomplete;
    }
    var lineEnd := idx;
    if lineEnd > 0 && data[lineEnd - 1] == CR {
      lineEnd := lineEnd - 1;
    }
    return Command(Fields(data[..lineEnd]), idx + 1);
  }
}

