/** A log that ends in the middle of a command: whether replaying it is an error. */
module LogCuts {
  import opened Bytes
  import opened Decimal
  import opened Resp
  import opened AppendLog

  // ---------------------------------------------------------------------------
  // One bulk string.
  // ---------------------------------------------------------------------------

  /** A header without its line feed is just the end of the file. */
  lemma HeadCut(prefix: byte, text: bytes, m: nat)
    requires OneLine(text) && 0 < m < |Line(prefix, text)|
    ensures Line(prefix, text)[..m][0] == prefix && ReadLine(Line(prefix, text)[..m][1..]) == Fail(Eof)
  {
    var r := Line(prefix, text)[..m][1..];
    assert r == (text + [CR])[..m - 1];
    NoFeed(text, m - 1);
    LineMeaning(r);
  }

  lemma NoFeed(text: bytes, n: nat)
    requires OneLine(text) && n <= |text| + 1
    ensures LF !in (text + [CR])[..n] && |(text + [CR])[..n]| < MAX_LINE
  {
    assert forall j | 0 <= j < |text| :: text[j] in text;
  }

  /** Cut off after m bytes, it is an error only if some of the payload, or of its line end, is there. */
  lemma BulkCut(b: bytes, m: nat)
    requires |b| <= MAX_BULK && m < |BulkBytes(b)|
    ensures ReadValue(BulkBytes(b)[..m]) == Fail(if m > |Line(DOLLAR, Print(|b|))| then UnexpectedEof else Eof)
  {
    var head, body := Line(DOLLAR, Print(|b|)), b + CRLF;
    IntIsOneLine(|b|);
    if m >= |head| {
      var part := body[..m - |head|];
      var r := head + part;
      assert BulkBytes(b)[..m] == r;
      PrefixedLine(DOLLAR, Print(|b|), part);
      ParsePrintInt(|b|);
      assert PrintInt(|b|) == Print(|b|) && |part| < |b| + 2;
      assert ReadValue(r) == ReadBulk(r[1..]);
    } else {
      assert BulkBytes(b)[..m] == head[..m];
      if m > 0 { HeadCut(DOLLAR, Print(|b|), m); }
    }
  }

  // ---------------------------------------------------------------------------
  // One command.
  // ---------------------------------------------------------------------------

  /** Where the payload of an argument begins, counted from the first argument. */
  function PayloadOf(args: Args, k: nat): nat
    requires k < |args|
  {
    |SerializeArgs(args, k)| + |Line(DOLLAR, Print(|args[k]|))|
  }

  /** The cut is behind the argument's header, and before the end of its payload and line end. */
  predicate Cuts(args: Args, k: nat, m: int) {
    k < |args| && PayloadOf(args, k) < m < PayloadOf(args, k) + |args[k]| + 2
  }

  /** The cut is in such a place in one of the arguments from k on. */
  ghost predicate CutsFrom(args: Args, k: nat, m: int) {
    exists j :: k <= j && Cuts(args, j, m)
  }

  lemma CutsNext(args: Args, k: nat, m: int)
    ensures CutsFrom(args, k, m) <==> Cuts(args, k, m) || CutsFrom(args, k + 1, m)
  {
    if j: nat :| k <= j && Cuts(args, j, m) {
      if j != k { assert Cuts(args, j, m) && k + 1 <= j; }
    }
  }

  lemma {:induction false} ArgsPrefix(args: Args, k: nat, n: nat)
    requires k <= n <= |args|
    ensures SerializeArgs(args, k) <= SerializeArgs(args, n)
  {
    if k < n { ArgsPrefix(args, k, n - 1); }
  }

  /** A cut in one of the arguments from k on is behind those before k and before the end. */
  lemma CutsWithin(args: Args, k: nat, m: int)
    requires k <= |args| && CutsFrom(args, k, m)
    ensures |SerializeArgs(args, k)| < m < |SerializeArgs(args, |args|)|
  {
    var j: nat :| k <= j && Cuts(args, j, m);
    ArgsPrefix(args, k, j);
    ArgsPrefix(args, j + 1, |args|);
    assert |SerializeArgs(args, j + 1)| == PayloadOf(args, j) + |args[j]| + 2;
  }

  /** What is left of the arguments from k on begins with argument k, or with part of it. */
  lemma ArgSlices(args: Args, k: nat, m: nat)
    requires k < |args| && |SerializeArgs(args, k)| <= m < |SerializeArgs(args, |args|)|
    ensures var all, from, next := SerializeArgs(args, |args|), |SerializeArgs(args, k)|, |SerializeArgs(args, k + 1)|;
      && from <= next <= |all|
      && all[from..m] == if m < next then BulkBytes(args[k])[..m - from] else BulkBytes(args[k]) + all[next..m]
  {
    var all, from, next := SerializeArgs(args, |args|), |SerializeArgs(args, k)|, |SerializeArgs(args, k + 1)|;
    ArgsPrefix(args, k + 1, |args|);
    assert all[from..next] == BulkBytes(args[k]) by {
      assert all[..next] == SerializeArgs(args, k) + BulkBytes(args[k]);
    }
    if m >= next { assert all[from..m] == all[from..next] + all[next..m]; }
  }

  type ItemReader = (bytes, nat) -> Parsed<seq<Value>>

  /** A name for ReadItems under which it is not unfolded. */
  ghost predicate IsReadItems(read: ItemReader) {
    forall r: bytes, n: nat {:trigger ReadItems(r, n)} :: read(r, n) == ReadItems(r, n)
  }

  lemma CutHere(read: ItemReader, b: bytes, c: nat, part: bytes, n: nat)
    requires IsReadItems(read) && n > 0 && |b| <= MAX_BULK && c < |BulkBytes(b)| && part == BulkBytes(b)[..c]
    ensures read(part, n) == Fail(if c > |Line(DOLLAR, Print(|b|))| then UnexpectedEof else Eof)
  {
    BulkCut(b, c);
    assert ReadItems(part, n).Fail?;
  }

  lemma CutLater(read: ItemReader, b: bytes, rest: bytes, part: bytes, n: nat)
    requires IsReadItems(read) && n > 0 && |b| <= MAX_BULK && part == BulkBytes(b) + rest && read(rest, n - 1).Fail?
    ensures read(part, n) == read(rest, n - 1)
  {
    BulkReadsBack(b, rest);
    assert read(rest, n - 1) == ReadItems(rest, n - 1);
    ItemsStep(part, n, Bulk(b), rest);
  }

  /** The arguments from k on, cut off before their end. */
  lemma {:induction false} ArgsCut(read: ItemReader, args: Args, k: nat, m: nat, part: bytes)
    requires IsReadItems(read) && Loggable(args)
    requires k <= |args| && |SerializeArgs(args, k)| <= m < |SerializeArgs(args, |args|)|
    requires part == SerializeArgs(args, |args|)[|SerializeArgs(args, k)|..m]
    ensures read(part, |args| - k) == Fail(if CutsFrom(args, k, m) then UnexpectedEof else Eof)
    decreases |args| - k
  {
    if k < |args| {
      var all, from, next := SerializeArgs(args, |args|), |SerializeArgs(args, k)|, |SerializeArgs(args, k + 1)|;
      CutsNext(args, k, m);
      ArgSlices(args, k, m);
      if m < next {
        CutHere(read, args[k], m - from, part, |args| - k);
        NoneLater(args, k + 1, m);
      } else {
        ArgsCut(read, args, k + 1, m, all[next..m]);
        CutLater(read, args[k], all[next..m], part, |args| - k);
      }
    }
  }

  lemma NoneLater(args: Args, k: nat, m: int)
    requires k <= |args| && m <= |SerializeArgs(args, k)|
    ensures !CutsFrom(args, k, m)
  {
    if CutsFrom(args, k, m) { CutsWithin(args, k, m); }
  }

  lemma HeadedFails(n: nat, part: bytes)
    requires n <= MAX_ARRAY
    ensures ReadItems(part, n).Fail? ==> ReadCommand(Line(STAR, Print(n)) + part) == Fail(ReadItems(part, n).fault)
  {
    ArrayHead(n, part);
  }

  /** A command cut off before its end: why it cannot be read. */
  lemma CommandCut(args: Args, m: nat)
    requires Loggable(args) && m < |SerializeCommand(args)|
    ensures ReadCommand(SerializeCommand(args)[..m])
      == Fail(if CutsFrom(args, 0, m - |Line(STAR, Print(|args|))|) then UnexpectedEof else Eof)
  {
    var head, all := Line(STAR, Print(|args|)), SerializeArgs(args, |args|);
    if m >= |head| {
      var part := all[..m - |head|];
      assert SerializeCommand(args)[..m] == head + part;
      assert all[0..m - |head|] == part;
      ArgsCut(ReadItems, args, 0, m - |head|, part);
      HeadedFails(|args|, part);
    } else {
      assert SerializeCommand(args)[..m] == head[..m];
      PartOfHead(|args|, m);
      NoneLater(args, 0, m - |head|);
    }
  }

  lemma PartOfHead(n: nat, m: nat)
    requires n <= MAX_ARRAY && m < |Line(STAR, Print(n))|
    ensures ReadCommand(Line(STAR, Print(n))[..m]) == Fail(Eof)
  {
    IntIsOneLine(n);
    if m > 0 {
      HeadCut(STAR, Print(n), m);
      assert ReadValue(Line(STAR, Print(n))[..m]) == Fail(Eof);
    }
  }

  // ---------------------------------------------------------------------------
  // The log.
  // ---------------------------------------------------------------------------

  /** Where the first argument of a command begins. */
  function ArgsOf(cmds: seq<Args>, i: nat): nat
    requires i < |cmds|
  {
    |Log(cmds[..i])| + |Line(STAR, Print(|cmds[i]|))|
  }

  /** The cut at n is inside a payload of the command, or inside the line end behind it. */
  ghost predicate CutsAt(cmds: seq<Args>, i: nat, n: int) {
    i < |cmds| && CutsFrom(cmds[i], 0, n - ArgsOf(cmds, i))
  }

  ghost predicate CutsPayload(cmds: seq<Args>, n: int) {
    exists i :: CutsAt(cmds, i, n)
  }

  /** The same place in the log without its first command. */
  lemma CutsShift(cmds: seq<Args>, i: nat, n: int)
    requires i + 1 < |cmds|
    ensures CutsAt(cmds, i + 1, n) <==> CutsAt(cmds[1..], i, n - |SerializeCommand(cmds[0])|)
  {
    assert cmds[..i + 1][1..] == cmds[1..][..i] && cmds[..i + 1][0] == cmds[0];
  }

  lemma CutsFirstOrLater(cmds: seq<Args>, n: int)
    requires cmds != []
    ensures CutsPayload(cmds, n) <==> CutsAt(cmds, 0, n) || CutsPayload(cmds[1..], n - |SerializeCommand(cmds[0])|)
  {
    var rest, k := cmds[1..], n - |SerializeCommand(cmds[0])|;
    if i: nat :| CutsAt(cmds, i, n) {
      if i > 0 {
        CutsShift(cmds, i - 1, n);
        assert CutsAt(rest, i - 1, k);
      }
    }
    if i: nat :| CutsAt(rest, i, k) {
      CutsShift(cmds, i, n);
      assert CutsAt(cmds, i + 1, n);
    }
  }

  lemma NoneBefore(cmds: seq<Args>, n: int)
    requires n <= 0
    ensures !CutsPayload(cmds, n)
  {
    forall i: nat | i < |cmds| ensures !CutsAt(cmds, i, n) { NoneLater(cmds[i], 0, n - ArgsOf(cmds, i)); }
  }

  type Replayer = bytes -> (seq<Args>, bool)

  /** A name for Replayed under which it is not unfolded. */
  ghost predicate IsReplayed(replayed: Replayer) {
    forall r: bytes {:trigger Replayed(r)} :: replayed(r) == Replayed(r)
  }

  /** A cut before the end of the first command. */
  lemma FirstCut(replayed: Replayer, args: Args, m: nat, cut: bytes)
    requires IsReplayed(replayed) && Loggable(args) && m < |SerializeCommand(args)|
    requires cut == SerializeCommand(args)[..m]
    ensures replayed(cut).1 <==> !CutsFrom(args, 0, m - |Line(STAR, Print(|args|))|)
  {
    CommandCut(args, m);
    assert Replayed(cut).0 == [];
  }

  /** A cut behind the first command. */
  lemma LaterCut(replayed: Replayer, args: Args, rest: bytes, cut: bytes)
    requires IsReplayed(replayed) && Loggable(args) && cut == SerializeCommand(args) + rest
    ensures replayed(cut).1 == replayed(rest).1
  {
    CommandReadsBack(args, rest);
    assert Replayed(cut).1 == Replayed(rest).1;
  }

  /** What is left of a log begins with its first command, or with part of it. */
  lemma LogSlices(cmds: seq<Args>, n: nat)
    requires cmds != [] && n <= |Log(cmds)|
    ensures var first, rest := SerializeCommand(cmds[0]), Log(cmds[1..]);
      && (n >= |first| ==> n - |first| <= |rest|)
      && Log(cmds)[..n] == if n < |first| then first[..n] else first + rest[..n - |first|]
  {
  }

  lemma InFirst(cmds: seq<Args>, n: int)
    requires cmds != []
    ensures CutsAt(cmds, 0, n) <==> CutsFrom(cmds[0], 0, n - |Line(STAR, Print(|cmds[0]|))|)
  {
    assert cmds[..0] == [];
  }

  lemma {:induction false} LogCut(replayed: Replayer, cmds: seq<Args>, n: nat, cut: bytes)
    requires IsReplayed(replayed) && forall i | 0 <= i < |cmds| :: Loggable(cmds[i])
    requires n <= |Log(cmds)| && cut == Log(cmds)[..n]
    ensures replayed(cut).1 <==> !CutsPayload(cmds, n)
    decreases |cmds|
  {
    if cmds == [] {
      assert Replayed(cut).1;
    } else {
      var first, rest := SerializeCommand(cmds[0]), cmds[1..];
      CutsFirstOrLater(cmds, n);
      InFirst(cmds, n);
      LogSlices(cmds, n);
      if n < |first| {
        FirstCut(replayed, cmds[0], n, cut);
        NoneBefore(rest, n - |first|);
      } else {
        var k := n - |first|;
        LaterCut(replayed, cmds[0], Log(rest)[..k], cut);
        LogCut(replayed, rest, k, Log(rest)[..k]);
        NoneBehind(cmds[0], k);
      }
    }
  }

  lemma NoneBehind(args: Args, k: nat)
    ensures !CutsFrom(args, 0, |SerializeCommand(args)| + k - |Line(STAR, Print(|args|))|)
  {
    var m := |SerializeArgs(args, |args|)| + k;
    if CutsFrom(args, 0, m) { CutsWithin(args, 0, m); }
  }

  /** Replaying a cut log ends in an error exactly when the cut is inside a payload or the line end behind it. */
  lemma CutIsCleanIff(cmds: seq<Args>, n: nat)
    requires n <= |Log(cmds)| && forall i | 0 <= i < |cmds| :: Loggable(cmds[i])
    ensures Replayed(Log(cmds)[..n]).1 <==> !CutsPayload(cmds, n)
  {
    LogCut(Replayed, cmds, n, Log(cmds)[..n]);
  }

  /** PING, cut off inside its only argument, is not replayed, and the replay fails. */
  lemma CutInsidePing()
    ensures Replayed([STAR, 49] + CRLF + [DOLLAR, 52] + CRLF + [80, 73]) == ([], false)
  {
    var ping: bytes := [80, 73, 78, 71];
    var cmds: seq<Args> := [[ping]];
    assert SerializeArgs([ping], 1) == SerializeArgs([ping], 0) + BulkBytes(ping);
    assert cmds[1..] == [] && cmds[..0] == [];
    assert Log(cmds) == SerializeCommand([ping]);
    assert Log(cmds)[..10] == [STAR, 49] + CRLF + [DOLLAR, 52] + CRLF + [80, 73];
    assert Cuts([ping], 0, 6);
    assert CutsAt(cmds, 0, 10);
    CutIsCleanIff(cmds, 10);
    CutReplays(cmds, 10);
    assert Complete(cmds, 10) == 0;
  }
}

