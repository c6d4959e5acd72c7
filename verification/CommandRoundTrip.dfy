/** The reactor's parser reads what the command printer writes. */
module CommandRoundTrip {
  import opened Bytes
  import opened Decimal
  import opened Resp
  import opened AppendLog
  import P = CommandParser

  /** The text stands in the data at p. */
  ghost predicate Stands(data: bytes, p: nat, text: bytes) {
    p + |text| <= |data| && data[p..p + |text|] == text
  }

  lemma StandsAt(data: bytes, p: nat, text: bytes, i: nat)
    requires Stands(data, p, text) && i < |text|
    ensures data[p + i] == text[i]
  {
    assert data[p + i] == data[p..p + |text|][i];
  }

  lemma StandsParts(data: bytes, p: nat, a: bytes, b: bytes)
    requires Stands(data, p, a + b)
    ensures Stands(data, p, a) && Stands(data, p + |a|, b)
  {
    var whole := data[p..p + |a + b|];
    assert data[p..p + |a|] == whole[..|a|] && data[p + |a|..p + |a| + |b|] == whole[|a|..];
    assert (a + b)[..|a|] == a && (a + b)[|a|..] == b;
  }

  lemma {:induction false} DigitsLast(data: bytes, from: int, stop: int, acc: int)
    requires 0 <= from <= stop < |data| && forall i | from <= i <= stop :: IsDigit(data[i])
    ensures P.Digits(data, from, stop, acc).Some?
    ensures P.Digits(data, from, stop + 1, acc) ==
      Some(P.Wrap64(P.Digits(data, from, stop, acc).value * 10 + (data[stop] as int - 48)))
    decreases stop - from
  {
    if from < stop { DigitsLast(data, from + 1, stop, P.Wrap64(acc * 10 + (data[from] as int - 48))); }
  }

  lemma WrapSmall(x: int)
    requires 0 <= x <= P.MAX_INT64
    ensures P.Wrap64(x) == x
  {
  }

  lemma NumberStep(s: bytes)
    requires s != [] && AllDigits(s)
    ensures AllDigits(s[..|s| - 1]) && Number(s) == Number(s[..|s| - 1]) * 10 + (s[|s| - 1] as int - 48)
    ensures Number(s[..|s| - 1]) <= Number(s)
  {
    assert IsDigit(s[|s| - 1]);
  }

  lemma DigitsStand(data: bytes, p: nat, s: bytes)
    requires Stands(data, p, s) && AllDigits(s)
    ensures forall i | p <= i < p + |s| :: IsDigit(data[i])
  {
    forall i | p <= i < p + |s| ensures IsDigit(data[i]) { StandsAt(data, p, s, i - p); }
  }

  /** Digits that stay within 63 bits are read without wrapping. */
  lemma {:induction false} DigitsAreNumber(data: bytes, p: nat, s: bytes)
    requires Stands(data, p, s) && AllDigits(s) && Number(s) <= P.MAX_INT64
    ensures P.Digits(data, p, p + |s|, 0) == Some(Number(s))
    decreases |s|
  {
    if s != [] {
      var k := |s| - 1;
      NumberStep(s);
      assert s == s[..k] + [s[k]];
      StandsParts(data, p, s[..k], [s[k]]);
      DigitsAreNumber(data, p, s[..k]);
      DigitsStand(data, p, s);
      DigitsLast(data, p, p + k, 0);
      StandsAt(data, p, s, k);
      WrapSmall(Number(s));
    }
  }

  lemma LineEnd(data: bytes, p: nat, prefix: byte, n: nat)
    requires Stands(data, p, Line(prefix, Print(n))) && prefix != LF
    ensures var e := p + 2 + |Print(n)|;
      IndexFrom(data, p, LF) == e && data[e - 1] == CR && Stands(data, p + 1, Print(n))
  {
    var t := Print(n);
    var line := [prefix] + t + CRLF;
    StandsParts(data, p, [prefix] + t, CRLF);
    StandsParts(data, p, [prefix], t);
    StandsAt(data, p, line, 0);
    StandsAt(data, p, line, |t| + 1);
    StandsAt(data, p, line, |t| + 2);
    forall j | p <= j < p + 2 + |t| ensures data[j] != LF {
      if p < j <= p + |t| {
        StandsAt(data, p + 1, t, j - p - 1);
        assert IsDigit(t[j - p - 1]);
      }
    }
    FirstLF(data, p, p + 2 + |t|);
  }

  lemma ItemHead(data: bytes, p: nat, n: nat)
    requires Stands(data, p, Line(DOLLAR, Print(n))) && n <= P.MAX_INT64
    ensures P.ItemAt(data, p) == P.PayloadAt(data, p + |Line(DOLLAR, Print(n))|, n)
  {
    LineEnd(data, p, DOLLAR, n);
    NumberOfPrint(n);
    DigitsAreNumber(data, p + 1, Print(n));
    StandsAt(data, p, Line(DOLLAR, Print(n)), 0);
    FirstIsDigit(data, p + 1, n);
    assert P.BulkLength(data, p + 1, p + 1 + |Print(n)|) == Some(n);
  }

  lemma FirstIsDigit(data: bytes, p: nat, n: nat)
    requires Stands(data, p, Print(n))
    ensures IsDigit(data[p])
  {
    StandsAt(data, p, Print(n), 0);
    assert IsDigit(Print(n)[0]);
  }

  lemma Payload(data: bytes, at: nat, arg: bytes)
    requires Stands(data, at, arg + CRLF) && |arg| <= P.MAX_INT64 - 2
    ensures P.PayloadAt(data, at, |arg|) == P.Arg(arg, at + |arg| + 2)
  {
    StandsParts(data, at, arg, CRLF);
    StandsAt(data, at + |arg|, CRLF, 0);
    StandsAt(data, at + |arg|, CRLF, 1);
  }

  lemma ItemReadsBack(data: bytes, p: nat, arg: bytes)
    requires Stands(data, p, BulkBytes(arg)) && |arg| <= P.MAX_INT64 - 2
    ensures P.ItemAt(data, p) == P.Arg(arg, p + |BulkBytes(arg)|)
  {
    var head := Line(DOLLAR, Print(|arg|));
    StandsParts(data, p, head, arg + CRLF);
    ItemHead(data, p, |arg|);
    Payload(data, p + |head|, arg);
  }

  /** The first n parts, one after the other. */
  function Cat(parts: seq<bytes>, n: nat): bytes
    requires n <= |parts|
  {
    if n == 0 then [] else Cat(parts, n - 1) + parts[n - 1]
  }

  lemma {:induction false} PartStands(data: bytes, p: nat, parts: seq<bytes>, n: nat, i: nat)
    requires i < n <= |parts| && Stands(data, p, Cat(parts, n))
    ensures Stands(data, p + |Cat(parts, i)|, parts[i])
  {
    StandsParts(data, p, Cat(parts, n - 1), parts[n - 1]);
    if i < n - 1 { PartStands(data, p, parts, n - 1, i); }
  }

  function Parts(args: Args): (r: seq<bytes>)
    ensures |r| == |args|
  {
    seq(|args|, i requires 0 <= i < |args| => BulkBytes(args[i]))
  }

  lemma {:induction false} ArgsAreParts(args: Args, n: nat)
    requires n <= |args|
    ensures SerializeArgs(args, n) == Cat(Parts(args), n)
  {
    if n > 0 { ArgsAreParts(args, n - 1); }
  }

  /** The i-th argument is read from the i-th part, up to the next. */
  ghost predicate ReadsAt(data: bytes, pos: seq<nat>, args: Args, i: nat)
    requires i < |args| < |pos|
  {
    pos[i] <= |data| && P.ItemAt(data, pos[i]) == P.Arg(args[i], pos[i + 1])
  }

  /** Items that follow one another are read one after the other. */
  lemma {:induction false} ItemsChain(data: bytes, pos: seq<nat>, args: Args, k: nat, before: Args)
    requires k <= |args| < |pos| && pos[k] <= |data|
    requires forall i {:trigger ReadsAt(data, pos, args, i)} | 0 <= i < |args| :: ReadsAt(data, pos, args, i)
    ensures P.Items(data, pos[k], |args| - k, before) == P.Command(before + args[k..], pos[|args|])
    decreases |args| - k
  {
    if k < |args| {
      assert ReadsAt(data, pos, args, k);
      ItemsStep(data, pos[k], |args| - k, before, args[k], pos[k + 1]);
      ItemsChain(data, pos, args, k + 1, before + [args[k]]);
      assert (before + [args[k]]) + args[k + 1..] == before + args[k..];
    } else {
      assert before + args[k..] == before;
    }
  }

  /** Where the parts begin. */
  function Positions(p: nat, parts: seq<bytes>): (r: seq<nat>)
    ensures |r| == |parts| + 1
  {
    seq(|parts| + 1, i requires 0 <= i <= |parts| => p + |Cat(parts, i)|)
  }

  lemma PartReads(data: bytes, p: nat, args: Args, parts: seq<bytes>, i: nat)
    requires |parts| == |args| && i < |args| && Stands(data, p, Cat(parts, |parts|))
    requires parts[i] == BulkBytes(args[i]) && |args[i]| <= P.MAX_INT64 - 2
    ensures ReadsAt(data, Positions(p, parts), args, i)
  {
    PartStands(data, p, parts, |parts|, i);
    ItemReadsBack(data, p + |Cat(parts, i)|, args[i]);
  }

  lemma ItemsStep(data: bytes, p: nat, n: nat, before: Args, arg: bytes, next: nat)
    requires n > 0 && p <= |data| && P.ItemAt(data, p) == P.Arg(arg, next)
    ensures next <= |data| && P.Items(data, p, n, before) == P.Items(data, next, n - 1, before + [arg])
  {
  }

  lemma ItemsReadBackAt(data: bytes, p: nat, args: Args)
    requires Stands(data, p, SerializeArgs(args, |args|)) && forall i | 0 <= i < |args| :: |args[i]| <= P.MAX_INT64 - 2
    ensures P.Items(data, p, |args|, []) == P.Command(args, p + |SerializeArgs(args, |args|)|)
  {
    ArgsAreParts(args, |args|);
    AllRead(data, p, args, Parts(args));
    ChainFromStart(data, Positions(p, Parts(args)), args);
  }

  lemma AllRead(data: bytes, p: nat, args: Args, parts: seq<bytes>)
    requires parts == Parts(args) && Stands(data, p, Cat(parts, |parts|))
    requires forall i | 0 <= i < |args| :: |args[i]| <= P.MAX_INT64 - 2
    ensures forall i {:trigger ReadsAt(data, Positions(p, parts), args, i)} | 0 <= i < |args| ::
      ReadsAt(data, Positions(p, parts), args, i)
  {
    forall i | 0 <= i < |args| ensures ReadsAt(data, Positions(p, parts), args, i) {
      PartReads(data, p, args, parts, i);
    }
  }

  lemma ChainFromStart(data: bytes, pos: seq<nat>, args: Args)
    requires |args| < |pos| && pos[0] <= |data|
    requires forall i {:trigger ReadsAt(data, pos, args, i)} | 0 <= i < |args| :: ReadsAt(data, pos, args, i)
    ensures P.Items(data, pos[0], |args|, []) == P.Command(args, pos[|args|])
  {
    ItemsChain(data, pos, args, 0, []);
    assert [] + args[0..] == args;
  }

  /** Whatever follows, the reactor reads exactly the command that was written. */
  lemma ReactorReadsBack(args: Args, rest: bytes)
    requires |args| <= P.MAX_INT64 && forall i | 0 <= i < |args| :: |args[i]| <= P.MAX_INT64 - 2
    ensures P.Parse(SerializeCommand(args) + rest) == P.Command(args, |SerializeCommand(args)|)
  {
    var head, items := Line(STAR, Print(|args|)), SerializeArgs(args, |args|);
    var data := (head + items) + rest;
    assert Stands(data, 0, head + items);
    StandsParts(data, 0, head, items);
    HeadReadsBack(data, args);
    ItemsReadBackAt(data, |head|, args);
  }

  lemma HeadReadsBack(data: bytes, args: Args)
    requires Stands(data, 0, Line(STAR, Print(|args|))) && |args| <= P.MAX_INT64
    ensures data != [] && P.Parse(data) == P.Items(data, |Line(STAR, Print(|args|))|, |args|, [])
  {
    LineEnd(data, 0, STAR, |args|);
    NumberOfPrint(|args|);
    DigitsAreNumber(data, 1, Print(|args|));
    StandsAt(data, 0, Line(STAR, Print(|args|)), 0);
  }

  /** A header that announces a length just below 2^63 stops the program, whether or not anything follows. */
  lemma HugeLengthPanics(n: nat, rest: bytes)
    requires n <= P.MAX_INT64
    ensures P.Parse(Line(STAR, Print(1)) + Line(DOLLAR, Print(n)) + rest).Panic? <==> n > P.MAX_INT64 - 2
  {
    var head, bulk := Line(STAR, Print(1)), Line(DOLLAR, Print(n));
    var data := head + bulk + rest;
    assert Stands(data, 0, head + bulk);
    StandsParts(data, 0, head, bulk);
    OneBulk(data, n);
  }

  lemma OneBulk(data: bytes, n: nat)
    requires n <= P.MAX_INT64 && Stands(data, 0, Line(STAR, Print(1)))
    requires Stands(data, |Line(STAR, Print(1))|, Line(DOLLAR, Print(n)))
    ensures P.Parse(data).Panic? <==> n > P.MAX_INT64 - 2
  {
    var args: Args := [[]];
    HeadReadsBack(data, args);
    OneItem(data, |Line(STAR, Print(1))|, n);
  }

  lemma OneItem(data: bytes, p: nat, n: nat)
    requires n <= P.MAX_INT64 && Stands(data, p, Line(DOLLAR, Print(n)))
    ensures P.Items(data, p, 1, []).Panic? <==> n > P.MAX_INT64 - 2
  {
    var q := p + |Line(DOLLAR, Print(n))|;
    ItemHead(data, p, n);
    PayloadFault(data, q, n);
    FirstFaults(data, p, P.PayloadAt(data, q, n));
  }

  lemma PayloadFault(data: bytes, q: nat, n: nat)
    requires q <= |data|
    ensures P.PayloadAt(data, q, n).Fault? <==> n > P.MAX_INT64 - 2
  {
  }

  lemma FirstFaults(data: bytes, p: nat, item: P.Item)
    requires p <= |data| && P.ItemAt(data, p) == item
    ensures P.Items(data, p, 1, []).Panic? <==> item.Fault?
  {
    if item.Arg? { assert P.Items(data, item.next, 0, [] + [item.arg]).Command?; }
  }
}

