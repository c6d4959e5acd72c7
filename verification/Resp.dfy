/** The wire format: three printers and the reader. */
module Resp {
  import opened Bytes
  import opened Decimal

  datatype Value =
    | Simple(text: bytes)
    | Error(text: bytes)
    | Integer(n: int)
    | Bulk(data: bytes)
    | NullBulk
    | Array(items: seq<Value>)
    | NullArray
    | Boolean(b: bool)

  const PLUS: byte := 43
  const COLON: byte := 58
  const UNDERSCORE: byte := 95
  const HASH: byte := 35

  const MAX_BULK: nat := 512 * 1024 * 1024
  const MAX_ARRAY: nat := 1024 * 1024
  const MAX_LINE: nat := 64 * 1024

  // ---------------------------------------------------------------------------
  // Printing.
  // ---------------------------------------------------------------------------

  function Line(prefix: byte, text: bytes): bytes { [prefix] + text + CRLF }

  const NULL_BULK: bytes := Line(DOLLAR, [MINUS, 49])
  const NULL_ARRAY: bytes := Line(STAR, [MINUS, 49])

  function BulkBytes(data: bytes): bytes { Line(DOLLAR, Print(|data|)) + (data + CRLF) }

  /** `SerializeValue`: a boolean prints as nothing. */
  function Serialize(v: Value): bytes
    decreases v, 0
  {
    match v
    case Simple(s) => Line(PLUS, s)
    case Error(s) => Line(MINUS, s)
    case Integer(n) => Line(COLON, PrintInt(n))
    case Bulk(b) => BulkBytes(b)
    case NullBulk => NULL_BULK
    case Array(items) => Line(STAR, Print(|items|)) + SerializeAll(items)
    case NullArray => NULL_ARRAY
    case Boolean(_) => []
  }

  function SerializeAll(items: seq<Value>): bytes
    decreases items, 1
  {
    if items == [] then [] else Serialize(items[0]) + SerializeAll(items[1..])
  }

  const OK_LINE: bytes := Line(PLUS, [79, 75])
  const PONG_LINE: bytes := Line(PLUS, [80, 79, 78, 71])

  /** `Writer.WriteValue`: constants for the common answers, and a boolean prints as an empty bulk string. */
  function Write(v: Value): bytes
    decreases v, 0
  {
    match v
    case Simple(s) => if s == [79, 75] then OK_LINE else if s == [80, 79, 78, 71] then PONG_LINE else Line(PLUS, s)
    case Error(s) => Line(MINUS, s)
    case Integer(n) =>
      if n == 0 then Line(COLON, [48]) else if n == 1 then Line(COLON, [49]) else Line(COLON, PrintInt(n))
    case Bulk(b) => BulkBytes(b)
    case NullBulk => NULL_BULK
    case Array(items) => Line(STAR, Print(|items|)) + WriteAll(items)
    case NullArray => NULL_ARRAY
    case Boolean(_) => BulkBytes([])
  }

  function WriteAll(items: seq<Value>): bytes
    decreases items, 1
  {
    if items == [] then [] else Write(items[0]) + WriteAll(items[1..])
  }

  /** Short lengths are printed digit by digit. */
  function ShortLength(n: nat): bytes {
    if n < 10 then [(48 + n) as byte]
    else if n < 100 then [(48 + n / 10) as byte, (48 + n % 10) as byte]
    else PrintInt(n)
  }

  function AppendBulk(dst: bytes, data: bytes): bytes { dst + [DOLLAR] + ShortLength(|data|) + CRLF + data + CRLF }

  /** `AppendValue`: the same onto the end of a buffer, and a boolean prints as OK. */
  function Append(dst: bytes, v: Value): bytes
    decreases v, 0
  {
    match v
    case NullArray => dst + NULL_ARRAY
    case NullBulk => dst + NULL_BULK
    case Simple(s) =>
      if s == [79, 75] then dst + OK_LINE
      else if s == [80, 79, 78, 71] then dst + PONG_LINE
      else dst + [PLUS] + s + CRLF
    case Error(s) => dst + [MINUS] + s + CRLF
    case Integer(n) =>
      if 0 <= n < 10 then dst + [COLON, (48 + n) as byte] + CRLF else dst + [COLON] + PrintInt(n) + CRLF
    case Bulk(b) => AppendBulk(dst, b)
    case Array(items) => AppendAll(dst + [STAR] + PrintInt(|items|) + CRLF, items)
    case Boolean(_) => dst + OK_LINE
  }

  function AppendAll(dst: bytes, items: seq<Value>): bytes
    decreases items, 1
  {
    if items == [] then dst else AppendAll(Append(dst, items[0]), items[1..])
  }

  /** The booleans in a value. */
  function Booleans(v: Value): nat
    decreases v, 0
  {
    match v
    case Boolean(_) => 1
    case Array(items) => AllBooleans(items)
    case _ => 0
  }

  function AllBooleans(items: seq<Value>): nat
    decreases items, 1
  {
    if items == [] then 0 else Booleans(items[0]) + AllBooleans(items[1..])
  }

  lemma ShortLengthIsPrint(n: nat)
    ensures ShortLength(n) == Print(n)
  {
    if 10 <= n < 100 { assert Print(n / 10) == [(48 + n / 10) as byte]; }
  }

  lemma {:induction false} WriteIsSerialize(v: Value)
    ensures Booleans(v) == 0 ==> Write(v) == Serialize(v)
    ensures |Write(v)| == |Serialize(v)| + 6 * Booleans(v)
    decreases v, 0
  {
    match v
    case Array(items) => WriteAllIsSerialize(items);
    case _ =>
  }

  lemma {:induction false} WriteAllIsSerialize(items: seq<Value>)
    ensures AllBooleans(items) == 0 ==> WriteAll(items) == SerializeAll(items)
    ensures |WriteAll(items)| == |SerializeAll(items)| + 6 * AllBooleans(items)
    decreases items, 1
  {
    if items != [] {
      WriteIsSerialize(items[0]);
      WriteAllIsSerialize(items[1..]);
    }
  }

  lemma {:induction false} AppendIsSerialize(dst: bytes, v: Value)
    ensures Booleans(v) == 0 ==> Append(dst, v) == dst + Serialize(v)
    ensures |Append(dst, v)| == |dst| + |Serialize(v)| + 5 * Booleans(v)
    decreases v, 0
  {
    match v
    case Simple(s) => AppendLine(dst, PLUS, s);
    case Error(s) => AppendLine(dst, MINUS, s);
    case Integer(n) => AppendLine(dst, COLON, PrintInt(n));
    case Bulk(b) => AppendBulkIsSerialize(dst, b);
    case Array(items) =>
      AppendLine(dst, STAR, Print(|items|));
      AppendAllIsSerialize(dst + Line(STAR, Print(|items|)), items);
      Associates(dst, Line(STAR, Print(|items|)), SerializeAll(items));
    case _ =>
  }

  lemma AppendLine(dst: bytes, prefix: byte, text: bytes)
    ensures dst + [prefix] + text + CRLF == dst + Line(prefix, text)
  {
  }

  lemma AppendBulkIsSerialize(dst: bytes, b: bytes)
    ensures AppendBulk(dst, b) == dst + BulkBytes(b)
  {
    ShortLengthIsPrint(|b|);
    var n := Print(|b|);
    assert dst + [DOLLAR] + n + CRLF + b + CRLF == dst + (([DOLLAR] + n + CRLF) + (b + CRLF));
  }

  lemma {:induction false} AppendAllIsSerialize(dst: bytes, items: seq<Value>)
    ensures AllBooleans(items) == 0 ==> AppendAll(dst, items) == dst + SerializeAll(items)
    ensures |AppendAll(dst, items)| == |dst| + |SerializeAll(items)| + 5 * AllBooleans(items)
    decreases items, 1
  {
    if items == [] {
      assert dst + [] == dst;
    } else {
      AppendIsSerialize(dst, items[0]);
      AppendAllIsSerialize(Append(dst, items[0]), items[1..]);
      Associates(dst, Serialize(items[0]), SerializeAll(items[1..]));
    }
  }

  /** The three printers give the same bytes exactly for the values without booleans. */
  lemma PrintersAgree(v: Value)
    ensures Write(v) == Serialize(v) <==> Booleans(v) == 0
    ensures Append([], v) == Serialize(v) <==> Booleans(v) == 0
  {
    WriteIsSerialize(v);
    AppendIsSerialize([], v);
    assert [] + Serialize(v) == Serialize(v);
  }

  /** True, printed three times. */
  lemma TrueInThreeWays(dst: bytes)
    ensures var v := Boolean(true);
      Serialize(v) == [] && Write(v) == [DOLLAR, 48] + CRLF + CRLF && Append(dst, v) == dst + ([PLUS, 79, 75] + CRLF)
  {
  }

  // ---------------------------------------------------------------------------
  // Reading.
  // ---------------------------------------------------------------------------

  datatype Fault = Eof | UnexpectedEof | Syntax | BulkTooLarge | MultibulkTooLarge | LineTooLong

  datatype Parsed<+T> = Ok(value: T, rest: bytes) | Fail(fault: Fault)

  /** Up to a line feed, with or without a carriage return before it; the buffer limits the length. */
  function ReadLine(r: bytes): (v: Parsed<bytes>)
    ensures v.Ok? ==> |v.rest| < |r|
  {
    var i := IndexFrom(r, 0, LF);
    if i >= MAX_LINE then Fail(LineTooLong)
    else if i == |r| then Fail(Eof)
    else Ok(if i == 0 || r[i - 1] != CR then r[..i] else r[..i - 1], r[i + 1..])
  }

  /** The line, its end and the rest make up what was there; a carriage return is never left on the line's end. */
  ghost predicate TakenLine(r: bytes, line: bytes, rest: bytes) {
    && LF !in line && |line| < MAX_LINE
    && (r == line + CRLF + rest || (r == line + [LF] + rest && (line == [] || line[|line| - 1] != CR)))
  }

  /** A line is taken whole; it is missing when the bytes end first, and too long when the buffer fills first. */
  lemma LineMeaning(r: bytes)
    ensures match ReadLine(r)
      case Ok(line, rest) => TakenLine(r, line, rest)
      case Fail(f) =>
        && LF !in r[..if |r| < MAX_LINE then |r| else MAX_LINE]
        && f == if |r| < MAX_LINE then Eof else LineTooLong
  {
    var i := IndexFrom(r, 0, LF);
    IndexIsFirst(r, 0, LF);
    if i < |r| { assert r == r[..i] + [LF] + r[i + 1..]; }
    if 0 < i < |r| && r[i - 1] == CR { assert r == r[..i - 1] + CRLF + r[i + 1..]; }
  }

  function ReadBulk(r: bytes): (v: Parsed<Value>)
    ensures v.Ok? ==> |v.rest| < |r|
  {
    match ReadLine(r)
    case Fail(f) => Fail(f)
    case Ok(line, rest) =>
      match ParseInt(line)
      case None => Fail(Syntax)
      case Some(n) =>
        if n == -1 then Ok(NullBulk, rest)
        else if n < -1 || n > MAX_BULK then Fail(BulkTooLarge)
        else if |rest| < n + 2 then Fail(if rest == [] then Eof else UnexpectedEof)
        else if rest[n..n + 2] != CRLF then Fail(Syntax)
        else Ok(Bulk(rest[..n]), rest[n + 2..])
  }

  function ReadArray(r: bytes): (v: Parsed<Value>)
    ensures v.Ok? ==> |v.rest| < |r|
    decreases |r|, 0
  {
    match ReadLine(r)
    case Fail(f) => Fail(f)
    case Ok(line, rest) =>
      match ParseInt(line)
      case None => Fail(Syntax)
      case Some(n) =>
        if n == -1 then Ok(NullArray, rest)
        else if n < -1 then Fail(Syntax)
        else if n > MAX_ARRAY then Fail(MultibulkTooLarge)
        else
          match ReadItems(rest, n)
          case Fail(f) => Fail(f)
          case Ok(items, rest') => Ok(Array(items), rest')
  }

  function ReadItems(r: bytes, n: nat): (v: Parsed<seq<Value>>)
    ensures v.Ok? ==> |v.rest| <= |r|
    decreases |r|, 2
  {
    if n == 0 then Ok([], r)
    else
      match ReadValue(r)
      case Fail(f) => Fail(f)
      case Ok(x, rest) =>
        match ReadItems(rest, n - 1)
        case Fail(f) => Fail(f)
        case Ok(xs, rest') => Ok([x] + xs, rest')
  }

  function ReadValue(r: bytes): (v: Parsed<Value>)
    ensures v.Ok? ==> |v.rest| < |r|
    decreases |r|, 1
  {
    if r == [] then Fail(Eof)
    else if r[0] == DOLLAR then ReadBulk(r[1..])
    else if r[0] == STAR then ReadArray(r[1..])
    else
      match ReadLine(r[1..])
      case Fail(f) => Fail(f)
      case Ok(line, rest) => OfLine(r[0], line, rest)
  }

  /** The values that are one line. */
  function OfLine(prefix: byte, line: bytes, rest: bytes): (v: Parsed<Value>)
    ensures v.Ok? ==> v.rest == rest
  {
    if prefix == PLUS then Ok(Simple(line), rest)
    else if prefix == MINUS then Ok(Error(line), rest)
    else if prefix == COLON then (match ParseInt(line) case None => Fail(Syntax) case Some(n) => Ok(Integer(n), rest))
    else if prefix == UNDERSCORE then Ok(NullBulk, rest)
    else if prefix == HASH then Ok(Boolean(line != [] && line[0] == 116), rest)
    else Ok(Array(Words([prefix] + line, 0, [], None)), rest)
  }

  /** An inline command: words between blanks, with quotes and, inside them, backslashes. */
  function Words(s: bytes, i: nat, word: bytes, quote: Option<byte>): seq<Value>
    requires i <= |s|
    decreases |s| - i
  {
    if i == |s| then (if word == [] then [] else [Bulk(word)])
    else if quote.Some? then
      if s[i] == quote.value then Words(s, i + 1, word, None)
      else if s[i] == 92 && i + 1 < |s| then Words(s, i + 2, word + [s[i + 1]], quote)
      else Words(s, i + 1, word + [s[i]], quote)
    else if s[i] == 34 || s[i] == 39 then Words(s, i + 1, word, Some(s[i]))
    else if s[i] == SPACE || s[i] == 9 then
      (if word == [] then [] else [Bulk(word)]) + Words(s, i + 1, [], None)
    else Words(s, i + 1, word + [s[i]], None)
  }

  // ---------------------------------------------------------------------------
  // Inline commands.
  // ---------------------------------------------------------------------------

  /** A word as a client can always write it: in double quotes, with a backslash before quotes and backslashes. */
  function Escaped(w: bytes): bytes {
    if w == [] then [] else (if w[0] == 34 || w[0] == 92 then [92, w[0]] else [w[0]]) + Escaped(w[1..])
  }

  function Inline(words: seq<bytes>): bytes {
    if words == [] then [] else [34] + Escaped(words[0]) + [34, SPACE] + Inline(words[1..])
  }

  function Bulks(words: seq<bytes>): seq<Value> {
    if words == [] then [] else [Bulk(words[0])] + Bulks(words[1..])
  }

  /** Inside double quotes an escaped word is read as it was, up to the closing quote. */
  lemma {:induction false} QuotedWord(s: bytes, i: nat, word: bytes, w: bytes, rest: bytes)
    requires i <= |s| && s[i..] == Escaped(w) + [34] + rest
    ensures Words(s, i, word, Some(34)) == Words(s, |s| - |rest|, word + w, None)
    decreases |w|
  {
    var n := |s| - |rest|;
    if w == [] {
      assert s[i] == s[i..][0] && i + 1 == n && word + w == word;
    } else {
      var c, step := w[0], if w[0] == 34 || w[0] == 92 then 2 else 1;
      assert s[i] == s[i..][0] && (step == 2 ==> s[i + 1] == s[i..][1]);
      assert s[i + step..] == s[i..][step..] == Escaped(w[1..]) + [34] + rest;
      QuotedWord(s, i + step, word + [c], w[1..], rest);
      assert word + [c] + w[1..] == word + w;
    }
  }

  lemma AtQuoteOrBlank(s: bytes, i: nat, w: bytes)
    requires i < |s|
    ensures s[i] == 34 ==> Words(s, i, w, None) == Words(s, i + 1, w, Some(34))
    ensures s[i] == SPACE && w != [] ==> Words(s, i, w, None) == [Bulk(w)] + Words(s, i + 1, [], None)
  {
  }

  lemma QuotedThenBlank(s: bytes, i: nat, w: bytes, more: bytes)
    requires i <= |s| && w != [] && s[i..] == [34] + Escaped(w) + [34, SPACE] + more
    ensures Words(s, i, [], None) == [Bulk(w)] + Words(s, |s| - |more|, [], None)
  {
    var rest, n := [SPACE] + more, |s| - |more| - 1;
    assert s[i] == s[i..][0] && s[n] == s[i..][n - i];
    assert s[i + 1..] == s[i..][1..] == Escaped(w) + [34] + rest;
    AtQuoteOrBlank(s, i, []);
    QuotedWord(s, i + 1, [], w, rest);
    assert [] + w == w;
    AtQuoteOrBlank(s, n, w);
  }

  lemma {:induction false} InlineFrom(s: bytes, i: nat, words: seq<bytes>)
    requires i <= |s| && s[i..] == Inline(words) && forall w | w in words :: w != []
    ensures Words(s, i, [], None) == Bulks(words)
    decreases |words|
  {
    if words != [] {
      var more := Inline(words[1..]);
      var n := |s| - |more|;
      assert words[0] in words && forall v | v in words[1..] :: v in words;
      QuotedThenBlank(s, i, words[0], more);
      assert s[n..] == s[i..][n - i..] == more;
      InlineFrom(s, n, words[1..]);
    }
  }

  /** Any words, quoted like this, are read back from an inline command. */
  lemma InlineReadsBack(words: seq<bytes>)
    requires forall w | w in words :: w != []
    ensures Words(Inline(words), 0, [], None) == Bulks(words)
  {
    assert Inline(words)[0..] == Inline(words);
    InlineFrom(Inline(words), 0, words);
  }

  predicate PlainByte(b: byte) { b != 34 && b != 39 && b != SPACE && b != 9 }

  /** Without quotes, blanks and tabs separate. */
  lemma {:induction false} PlainWord(s: bytes, i: nat, word: bytes, n: nat)
    requires i <= n <= |s| && (forall j | i <= j < n :: PlainByte(s[j])) && word + s[i..n] != []
    requires n == |s| || s[n] == SPACE || s[n] == 9
    ensures Words(s, i, word, None) == [Bulk(word + s[i..n])] + if n == |s| then [] else Words(s, n + 1, [], None)
    decreases n - i
  {
    if i < n {
      PlainWord(s, i + 1, word + [s[i]], n);
      assert word + [s[i]] + s[i + 1..n] == word + s[i..n];
    } else {
      assert word + s[i..n] == word;
    }
  }

  /** Single quotes work like double ones, and the other values of one line. */
  lemma OtherLines(s: bytes, i: nat, word: bytes, rest: bytes, line: bytes)
    requires i < |s| && s[i] == 39
    ensures Words(s, i, word, None) == Words(s, i + 1, word, Some(39))
    ensures OfLine(95, line, rest) == Ok(NullBulk, rest)
    ensures OfLine(35, line, rest) == Ok(Boolean([116] <= line), rest)
  {
  }

  // ---------------------------------------------------------------------------
  // Reading inverts printing.
  // ---------------------------------------------------------------------------

  ghost predicate OneLine(s: bytes) { LF !in s && |s| + 1 < MAX_LINE }

  /** Within the limits of the format. */
  ghost predicate Printable(v: Value)
    decreases v, 0
  {
    match v
    case Simple(s) => OneLine(s)
    case Error(s) => OneLine(s)
    case Integer(n) => -TWO_63 <= n < TWO_63
    case Bulk(b) => |b| <= MAX_BULK
    case NullBulk => true
    case Array(items) => |items| <= MAX_ARRAY && AllPrintable(items)
    case NullArray => true
    case Boolean(_) => false
  }

  ghost predicate AllPrintable(items: seq<Value>)
    decreases items, 1
  {
    items == [] || (Printable(items[0]) && AllPrintable(items[1..]))
  }

  lemma LineReadsBack(text: bytes, rest: bytes)
    requires OneLine(text)
    ensures ReadLine(text + CRLF + rest) == Ok(text, rest)
  {
    var r, n := text + CRLF + rest, |text|;
    assert forall j | 0 <= j < n :: r[j] == text[j] && text[j] in text;
    assert r[n] == CR && r[n + 1] == LF;
    FirstLF(r, 0, n + 1);
    assert r[..n] == text && r[n + 2..] == rest;
  }

  /** A line that begins with none of the seven prefixes is an inline command. */
  lemma InlineCommand(line: bytes, rest: bytes)
    requires line != [] && OneLine(line)
    requires line[0] !in {PLUS, MINUS, COLON, DOLLAR, STAR, UNDERSCORE, HASH}
    ensures ReadValue(line + CRLF + rest) == Ok(Array(Words(line, 0, [], None)), rest)
  {
    var r := line + CRLF + rest;
    assert OneLine(line[1..]) by { assert forall b | b in line[1..] :: b in line; }
    assert r[1..] == line[1..] + CRLF + rest && r[0] == line[0] && [line[0]] + line[1..] == line;
    LineReadsBack(line[1..], rest);
  }

  lemma {:induction false} FirstLF(r: bytes, p: nat, q: nat)
    requires p <= q < |r| && r[q] == LF && forall j | p <= j < q :: r[j] != LF
    ensures IndexFrom(r, p, LF) == q
    decreases q - p
  {
    if p < q { FirstLF(r, p + 1, q); }
  }

  lemma IntIsOneLine(n: int)
    requires -TWO_63 <= n < TWO_63
    ensures OneLine(PrintInt(n))
  {
    assert Power10(5) == 100000;
    assert Power10(10) == 100000 * Power10(5);
    assert Power10(15) == 100000 * Power10(10);
    assert Power10(20) == 100000 * Power10(15);
    PrintIsShort(if n < 0 then -n else n, 20);
  }

  /** A printed line, behind its prefix. */
  lemma PrefixedLine(prefix: byte, text: bytes, rest: bytes)
    requires OneLine(text)
    ensures var r := Line(prefix, text) + rest; r != [] && r[0] == prefix && ReadLine(r[1..]) == Ok(text, rest)
  {
    assert (Line(prefix, text) + rest)[1..] == text + CRLF + rest;
    LineReadsBack(text, rest);
  }

  lemma BulkReadsBack(b: bytes, rest: bytes)
    requires |b| <= MAX_BULK
    ensures ReadValue(BulkBytes(b) + rest) == Ok(Bulk(b), rest)
  {
    var head, body := Line(DOLLAR, Print(|b|)), b + CRLF;
    Associates(head, body, rest);
    IntIsOneLine(|b|);
    PrefixedLine(DOLLAR, Print(|b|), body + rest);
    ParsePrintInt(|b|);
    BulkBody(b, rest);
  }

  lemma BulkBody(b: bytes, rest: bytes)
    ensures var r := b + CRLF + rest; |r| >= |b| + 2 && r[|b|..|b| + 2] == CRLF && r[..|b|] == b && r[|b| + 2..] == rest
  {
  }

  lemma ArrayHead(n: nat, rest: bytes)
    requires n <= MAX_ARRAY
    ensures ReadValue(Line(STAR, Print(n)) + rest)
      == match ReadItems(rest, n) case Fail(f) => Fail(f) case Ok(items, rest') => Ok(Array(items), rest')
  {
    IntIsOneLine(n);
    PrefixedLine(STAR, Print(n), rest);
    ParsePrintInt(n);
  }

  lemma NullsReadBack(rest: bytes)
    ensures ReadValue(NULL_BULK + rest) == Ok(NullBulk, rest) && ReadValue(NULL_ARRAY + rest) == Ok(NullArray, rest)
  {
    var minus1: bytes := [MINUS, 49];
    PrefixedLine(DOLLAR, minus1, rest);
    PrefixedLine(STAR, minus1, rest);
    assert minus1 == PrintInt(-1);
    ParsePrintInt(-1);
  }

  /** Reading inverts printing, and leaves what follows. */
  lemma {:induction false} ReadsBack(v: Value, rest: bytes)
    requires Printable(v)
    ensures ReadValue(Serialize(v) + rest) == Ok(v, rest)
    decreases v, 0
  {
    match v
    case Simple(s) => PrefixedLine(PLUS, s, rest);
    case Error(s) => PrefixedLine(MINUS, s, rest);
    case Integer(n) =>
      IntIsOneLine(n);
      PrefixedLine(COLON, PrintInt(n), rest);
      ParsePrintInt(n);
    case Bulk(b) => BulkReadsBack(b, rest);
    case NullBulk => NullsReadBack(rest);
    case NullArray => NullsReadBack(rest);
    case Array(items) =>
      Associates(Line(STAR, Print(|items|)), SerializeAll(items), rest);
      ArrayHead(|items|, SerializeAll(items) + rest);
      ItemsReadBack(items, rest);
  }

  lemma {:induction false} ItemsReadBack(items: seq<Value>, rest: bytes)
    requires AllPrintable(items)
    ensures ReadItems(SerializeAll(items) + rest, |items|) == Ok(items, rest)
    decreases items, 1
  {
    if items == [] {
      assert [] + rest == rest;
    } else {
      var x, xs, all, tail := items[0], items[1..], SerializeAll(items) + rest, SerializeAll(items[1..]) + rest;
      Associates(Serialize(x), SerializeAll(xs), rest);
      assert all == Serialize(x) + tail;
      ReadsBack(x, tail);
      ItemsReadBack(xs, rest);
      ItemsStep(all, |items|, x, tail);
      assert items == [x] + xs;
    }
  }

  // ---------------------------------------------------------------------------
  // What has been read stays read when more arrives.
  // ---------------------------------------------------------------------------

  lemma LineExtends(r: bytes, more: bytes)
    requires ReadLine(r).Ok?
    ensures ReadLine(r + more) == Ok(ReadLine(r).value, ReadLine(r).rest + more)
  {
    var i := IndexFrom(r, 0, LF);
    IndexExtends(r, more, 0, LF);
    assert (r + more)[..i] == r[..i] && (r + more)[i + 1..] == r[i + 1..] + more;
    if i > 0 { assert (r + more)[..i - 1] == r[..i - 1]; }
  }

  lemma BulkExtends(r: bytes, more: bytes)
    requires ReadBulk(r).Ok?
    ensures ReadBulk(r + more) == Ok(ReadBulk(r).value, ReadBulk(r).rest + more)
  {
    LineExtends(r, more);
    var rest, n := ReadLine(r).rest, ParseInt(ReadLine(r).value).value;
    if n >= 0 { SlicesExtend(rest, more, n); }
  }

  lemma SlicesExtend(r: bytes, more: bytes, n: nat)
    requires n + 2 <= |r|
    ensures (r + more)[n..n + 2] == r[n..n + 2] && (r + more)[..n] == r[..n] && (r + more)[n + 2..] == r[n + 2..] + more
  {
  }

  lemma {:induction false} ValueExtends(r: bytes, more: bytes)
    requires ReadValue(r).Ok?
    ensures ReadValue(r + more) == Ok(ReadValue(r).value, ReadValue(r).rest + more)
    decreases |r|, 1
  {
    assert (r + more)[1..] == r[1..] + more;
    if r[0] == DOLLAR {
      BulkExtends(r[1..], more);
    } else if r[0] == STAR {
      ArrayExtends(r[1..], more);
    } else {
      LineExtends(r[1..], more);
    }
  }

  lemma {:induction false} ArrayExtends(r: bytes, more: bytes)
    requires ReadArray(r).Ok?
    ensures ReadArray(r + more) == Ok(ReadArray(r).value, ReadArray(r).rest + more)
    decreases |r|, 0
  {
    LineExtends(r, more);
    var n := ParseInt(ReadLine(r).value).value;
    if n >= 0 { ItemsExtend(ReadLine(r).rest, n, more); }
  }

  lemma {:induction false} ItemsExtend(r: bytes, n: nat, more: bytes)
    requires ReadItems(r, n).Ok?
    ensures ReadItems(r + more, n) == Ok(ReadItems(r, n).value, ReadItems(r, n).rest + more)
    decreases |r|, 2
  {
    if n > 0 {
      var v := ReadValue(r);
      ItemsStep(r, n, v.value, v.rest);
      ItemsExtend(v.rest, n - 1, more);
      ValueExtends(r, more);
      ItemsStep(r + more, n, v.value, v.rest + more);
    }
  }

  lemma ItemsStep(r: bytes, n: nat, x: Value, rest: bytes)
    requires n > 0 && ReadValue(r) == Ok(x, rest)
    ensures ReadItems(r, n) ==
      match ReadItems(rest, n - 1) case Fail(f) => Fail(f) case Ok(xs, rest') => Ok([x] + xs, rest')
  {
  }

  lemma PartFails(part: bytes, more: bytes, v: Value)
    requires more != [] && ReadValue(part + more) == Ok(v, [])
    ensures ReadValue(part).Fail?
  {
    if ReadValue(part).Ok? { ValueExtends(part, more); }
  }

  /** Nothing can be read from part of a printed value. */
  lemma NoPartialRead(s: bytes, m: nat, v: Value)
    requires m < |s| && ReadValue(s) == Ok(v, [])
    ensures ReadValue(s[..m]).Fail?
  {
    assert s[..m] + s[m..] == s;
    PartFails(s[..m], s[m..], v);
  }

  // ---------------------------------------------------------------------------
  // The reader as a cursor.
  // ---------------------------------------------------------------------------

  /** The result is what the function says, and on success the cursor is where it says. */
  ghost predicate Moved<T>(spec: Parsed<T>, got: Parsed<T>, rest: bytes) {
    got == spec && (spec.Ok? ==> rest == spec.rest)
  }

  class Reader {
    var rest: bytes

    constructor (data: bytes)
      ensures rest == data
    {
      rest := data;
    }

    /** Scans for the line feed and takes the line; a failed scan leaves the cursor alone. */
    method NextLine() returns (v: Parsed<bytes>)
      modifies this
      ensures Moved(ReadLine(old(rest)), v, rest)
      ensures if v.Ok? then TakenLine(old(rest), v.value, rest) else rest == old(rest)
    {
      LineMeaning(rest);
      var n := 0;
      while n < |rest| && n < MAX_LINE && rest[n] != LF
        invariant 0 <= n <= |rest| && n <= MAX_LINE && IndexFrom(rest, n, LF) == IndexFrom(rest, 0, LF)
      {
        n := n + 1;
      }
      if n == MAX_LINE { return Fail(LineTooLong); }
      if n == |rest| { return Fail(Eof); }
      var line := if n == 0 || rest[n - 1] != CR then rest[..n] else rest[..n - 1];
      rest := rest[n + 1..];
      return Ok(line, rest);
    }

    method NextBulk() returns (v: Parsed<Value>)
      modifies this
      ensures Moved(ReadBulk(old(rest)), v, rest)
    {
      var line := NextLine();
      if line.Fail? { return Fail(line.fault); }
      var n := ParseInt(line.value);
      if n.None? { return Fail(Syntax); }
      if n.value == -1 { return Ok(NullBulk, rest); }
      if n.value < -1 || n.value > MAX_BULK { return Fail(BulkTooLarge); }
      if |rest| < n.value + 2 { return Fail(if rest == [] then Eof else UnexpectedEof); }
      var buf := rest[..n.value + 2];
      assert buf[n.value..] == rest[n.value..n.value + 2] && buf[..n.value] == rest[..n.value];
      if buf[n.value..] != CRLF { return Fail(Syntax); }
      rest := rest[n.value + 2..];
      return Ok(Bulk(buf[..n.value]), rest);
    }

    method NextArray() returns (v: Parsed<Value>)
      modifies this
      ensures Moved(ReadArray(old(rest)), v, rest)
      decreases |rest|, 0
    {
      var line := NextLine();
      if line.Fail? { return Fail(line.fault); }
      var n := ParseInt(line.value);
      if n.None? { return Fail(Syntax); }
      if n.value == -1 { return Ok(NullArray, rest); }
      if n.value < -1 { return Fail(Syntax); }
      if n.value > MAX_ARRAY { return Fail(MultibulkTooLarge); }
      var items := NextItems(n.value);
      v := if items.Ok? then Ok(Array(items.value), rest) else Fail(items.fault);
    }

    /** The loop over the elements. */
    method NextItems(n: nat) returns (v: Parsed<seq<Value>>)
      modifies this
      ensures Moved(ReadItems(old(rest), n), v, rest)
      decreases |rest|, 2
    {
      ghost var start := rest;
      var items := [];
      NoItemsYet(ReadItems(start, n));
      for i := 0 to n
        invariant |rest| <= |start| && ItemsSoFar(ReadItems(start, n), items, ReadItems(rest, n - i))
      {
        ghost var before := rest;
        var x := NextValue();
        if x.Fail? { return Fail(x.fault); }
        ItemsStep(before, n - i, x.value, rest);
        ItemsOneMore(ReadItems(start, n), items, x.value, ReadItems(before, n - i), ReadItems(rest, n - i - 1));
        items := items + [x.value];
      }
      assert items + [] == items;
      return Ok(items, rest);
    }

    method NextValue() returns (v: Parsed<Value>)
      modifies this
      ensures Moved(ReadValue(old(rest)), v, rest)
      decreases |rest|, 1
    {
      if rest == [] { return Fail(Eof); }
      var prefix := rest[0];
      rest := rest[1..];
      if prefix == DOLLAR {
        v := NextBulk();
      } else if prefix == STAR {
        v := NextArray();
      } else {
        var line := NextLine();
        v := if line.Ok? then OfLine(prefix, line.value, rest) else Fail(line.fault);
      }
    }
  }

  /** What is still to be read completes what has been read. */
  ghost predicate ItemsSoFar(whole: Parsed<seq<Value>>, items: seq<Value>, left: Parsed<seq<Value>>) {
    match left
    case Fail(f) => whole == Fail(f)
    case Ok(xs, rest) => whole == Ok(items + xs, rest)
  }

  lemma NoItemsYet(whole: Parsed<seq<Value>>)
    ensures ItemsSoFar(whole, [], whole)
  {
    if whole.Ok? { assert [] + whole.value == whole.value; }
  }

  lemma ItemsOneMore(whole: Parsed<seq<Value>>, items: seq<Value>, x: Value, left: Parsed<seq<Value>>,
                     left': Parsed<seq<Value>>)
    requires ItemsSoFar(whole, items, left)
    requires left == match left' case Fail(f) => Fail(f) case Ok(xs, rest) => Ok([x] + xs, rest)
    ensures ItemsSoFar(whole, items + [x], left')
  {
    if left'.Ok? { Associates(items, [x], left'.value); }
  }
}

