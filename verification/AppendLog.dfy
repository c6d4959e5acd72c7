/** The append-only file: commands written one after the other, and replayed from any prefix. */
module AppendLog {
  import opened Bytes
  import opened Decimal
  import opened Resp

  type Args = seq<bytes>

  /** `SerializeCommand`. */
  function SerializeCommand(args: Args): bytes { Line(STAR, Print(|args|)) + SerializeArgs(args, |args|) }

  function SerializeArgs(args: Args, n: nat): bytes
    requires n <= |args|
  {
    if n == 0 then [] else SerializeArgs(args, n - 1) + BulkBytes(args[n - 1])
  }

  /** The code builds it in a loop. */
  method SerializeCommandLoop(args: Args) returns (b: bytes)
    ensures b == SerializeCommand(args)
  {
    b := Line(STAR, Print(|args|));
    assert b + [] == b;
    for i := 0 to |args|
      invariant b == Line(STAR, Print(|args|)) + SerializeArgs(args, i)
    {
      Associates(Line(STAR, Print(|args|)), SerializeArgs(args, i), BulkBytes(args[i]));
      b := b + BulkBytes(args[i]);
    }
  }

  /** A command as a value. */
  function AsValue(args: Args): Value { Array(Bulks(args)) }

  function Bulks(args: Args): (r: seq<Value>)
    ensures |r| == |args| && forall i | 0 <= i < |r| :: r[i] == Bulk(args[i])
  {
    seq(|args|, i requires 0 <= i < |args| => Bulk(args[i]))
  }

  lemma {:induction false} SerializeAllLast(items: seq<Value>, v: Value)
    ensures SerializeAll(items + [v]) == SerializeAll(items) + Serialize(v)
    decreases |items|
  {
    if items == [] {
      assert items + [v] == [v] && ([v])[1..] == [] && Serialize(v) + [] == [] + Serialize(v);
    } else {
      assert (items + [v])[1..] == items[1..] + [v];
      SerializeAllLast(items[1..], v);
      Associates(Serialize(items[0]), SerializeAll(items[1..]), Serialize(v));
    }
  }

  lemma {:induction false} ArgsAreItems(args: Args, n: nat)
    requires n <= |args|
    ensures SerializeArgs(args, n) == SerializeAll(Bulks(args)[..n])
  {
    if n > 0 {
      ArgsAreItems(args, n - 1);
      assert Bulks(args)[..n] == Bulks(args)[..n - 1] + [Bulk(args[n - 1])];
      SerializeAllLast(Bulks(args)[..n - 1], Bulk(args[n - 1]));
    }
  }

  /** Printing a command is printing the array of its arguments. */
  lemma CommandIsValue(args: Args)
    ensures SerializeCommand(args) == Serialize(AsValue(args))
  {
    ArgsAreItems(args, |args|);
    assert Bulks(args)[..|args|] == Bulks(args);
  }

  ghost predicate Loggable(args: Args) {
    |args| <= MAX_ARRAY && forall i | 0 <= i < |args| :: |args[i]| <= MAX_BULK
  }

  lemma {:induction false} LoggablePrintable(items: seq<Value>)
    requires forall i | 0 <= i < |items| :: items[i].Bulk? && |items[i].data| <= MAX_BULK
    ensures AllPrintable(items)
    decreases |items|
  {
    if items != [] { LoggablePrintable(items[1..]); }
  }

  // ---------------------------------------------------------------------------
  // Commands.
  // ---------------------------------------------------------------------------

  /** Anything that is not an array of strings still becomes a command where it can. */
  function ReadCommand(r: bytes): (c: Parsed<Args>)
    ensures c.Ok? ==> |c.rest| < |r|
  {
    match ReadValue(r)
    case Fail(f) => Fail(f)
    case Ok(v, rest) =>
      match v
      case Array(items) => Ok(Words(items), rest)
      case NullArray => Ok([], rest)
      case Bulk(b) => Ok([b], rest)
      case NullBulk => Ok([[]], rest)
      case _ => Fail(Syntax)
  }

  function Words(items: seq<Value>): (r: Args)
    ensures |r| == |items|
  {
    seq(|items|, i requires 0 <= i < |items| => Word(items[i]))
  }

  const NIL: bytes := [40, 110, 105, 108, 41]
  const ITEMS: bytes := [32, 105, 116, 101, 109, 115, 93]

  function Word(v: Value): bytes {
    match v
    case Bulk(b) => b
    case NullBulk => []
    case Simple(s) => s
    case Error(s) => s
    case Integer(n) => PrintInt(n)
    case Array(items) => [91] + Print(|items|) + ITEMS
    case NullArray => NIL
    case Boolean(_) => []
  }

  /** What becomes of an argument that is no bulk string: its text, or for an array how many items it has. */
  lemma WordMeans(n: int, items: seq<Value>)
    ensures Word(Integer(n)) == PrintInt(n) && Word(NullBulk) == [] && Word(NullArray) == [40, 110, 105, 108, 41]
    ensures Word(Array(items)) == [91] + Print(|items|) + [32, 105, 116, 101, 109, 115, 93]
  {
  }

  /** Reading a command inverts writing it. */
  lemma CommandReadsBack(args: Args, rest: bytes)
    requires Loggable(args)
    ensures ReadCommand(SerializeCommand(args) + rest) == Ok(args, rest)
  {
    CommandIsValue(args);
    LoggablePrintable(Bulks(args));
    ReadsBack(AsValue(args), rest);
    assert Words(Bulks(args)) == args;
  }

  /** Part of a command is not a command. */
  lemma NoPartialCommand(args: Args, m: nat)
    requires Loggable(args) && m < |SerializeCommand(args)|
    ensures ReadCommand(SerializeCommand(args)[..m]).Fail?
  {
    CommandIsValue(args);
    LoggablePrintable(Bulks(args));
    ReadsBack(AsValue(args), []);
    assert Serialize(AsValue(args)) + [] == Serialize(AsValue(args));
    NoPartialRead(SerializeCommand(args), m, AsValue(args));
  }

  // ---------------------------------------------------------------------------
  // The log.
  // ---------------------------------------------------------------------------

  /** The file after writing the commands. */
  function Log(cmds: seq<Args>): bytes {
    if cmds == [] then [] else SerializeCommand(cmds[0]) + Log(cmds[1..])
  }

  /** The commands handed on, and whether the end was clean; empty commands are passed over. */
  function Replayed(r: bytes): (seq<Args>, bool)
    decreases |r|
  {
    match ReadCommand(r)
    case Fail(f) => ([], f == Eof)
    case Ok(args, rest) =>
      var (more, clean) := Replayed(rest);
      ((if args == [] then [] else [args]) + more, clean)
  }

  /** The commands that are complete in the first n bytes. */
  function Complete(cmds: seq<Args>, n: nat): nat
    decreases |cmds|
  {
    if cmds == [] || n < |SerializeCommand(cmds[0])| then 0
    else 1 + Complete(cmds[1..], n - |SerializeCommand(cmds[0])|)
  }

  function NonEmpty(cmds: seq<Args>): seq<Args> {
    if cmds == [] then [] else (if cmds[0] == [] then [] else [cmds[0]]) + NonEmpty(cmds[1..])
  }

  lemma {:induction false} CompleteBound(cmds: seq<Args>, n: nat)
    ensures Complete(cmds, n) <= |cmds|
    decreases |cmds|
  {
    if cmds != [] && n >= |SerializeCommand(cmds[0])| { CompleteBound(cmds[1..], n - |SerializeCommand(cmds[0])|); }
  }

  /** A log cut off anywhere replays exactly the commands that were complete. */
  lemma {:induction false} CutReplays(cmds: seq<Args>, n: nat)
    requires n <= |Log(cmds)| && forall i | 0 <= i < |cmds| :: Loggable(cmds[i])
    ensures Complete(cmds, n) <= |cmds| && Replayed(Log(cmds)[..n]).0 == NonEmpty(cmds[..Complete(cmds, n)])
    decreases |cmds|
  {
    CompleteBound(cmds, n);
    if cmds != [] {
      var first, rest := SerializeCommand(cmds[0]), cmds[1..];
      if n < |first| {
        assert Log(cmds)[..n] == first[..n];
        NoPartialCommand(cmds[0], n);
      } else {
        var k := n - |first|;
        assert Log(cmds)[..n] == first + Log(rest)[..k];
        CommandReadsBack(cmds[0], Log(rest)[..k]);
        CutReplays(rest, k);
        assert cmds[..Complete(cmds, n)][1..] == rest[..Complete(rest, k)];
      }
    }
  }

  /** The whole log replays cleanly. */
  lemma {:induction false} WholeReplays(cmds: seq<Args>)
    requires forall i | 0 <= i < |cmds| :: Loggable(cmds[i])
    ensures Replayed(Log(cmds)) == (NonEmpty(cmds), true)
  {
    if cmds != [] {
      CommandReadsBack(cmds[0], Log(cmds[1..]));
      WholeReplays(cmds[1..]);
    }
  }

  lemma {:induction false} LogLast(cmds: seq<Args>, c: Args)
    ensures Log(cmds + [c]) == Log(cmds) + SerializeCommand(c)
  {
    if cmds == [] {
      assert cmds + [c] == [c] && ([c])[1..] == [] && SerializeCommand(c) + [] == [] + SerializeCommand(c);
    } else {
      assert (cmds + [c])[1..] == cmds[1..] + [c];
      LogLast(cmds[1..], c);
      Associates(SerializeCommand(cmds[0]), Log(cmds[1..]), SerializeCommand(c));
    }
  }

  /** The file and what has been written to it. */
  class AOF {
    var file: bytes
    ghost var cmds: seq<Args>

    ghost predicate Valid()
      reads this
    {
      file == Log(cmds)
    }

    constructor ()
      ensures Valid() && cmds == []
    {
      file, cmds := [], [];
    }

    method WriteCommand(args: Args)
      requires Valid()
      modifies this
      ensures Valid() && cmds == old(cmds) + [args]
    {
      LogLast(cmds, args);
      var b := SerializeCommandLoop(args);
      file, cmds := file + b, cmds + [args];
    }
  }

  method NextCommand(reader: Reader) returns (c: Parsed<Args>)
    modifies reader
    ensures Moved(ReadCommand(old(reader.rest)), c, reader.rest)
  {
    var v := reader.NextValue();
    if v.Fail? { return Fail(v.fault); }
    match v.value
    case Array(items) => c := Ok(Words(items), reader.rest);
    case NullArray => c := Ok([], reader.rest);
    case Bulk(b) => c := Ok([b], reader.rest);
    case NullBulk => c := Ok([[]], reader.rest);
    case _ => c := Fail(Syntax);
  }

  lemma ReplayStep(r: bytes, args: Args, rest: bytes, delivered: seq<Args>)
    requires ReadCommand(r) == Ok(args, rest)
    ensures delivered + Replayed(r).0 == (if args == [] then delivered else delivered + [args]) + Replayed(rest).0
    ensures Replayed(r).1 == Replayed(rest).1
  {
    Associates(delivered, if args == [] then [] else [args], Replayed(rest).0);
    assert delivered + [] == delivered;
  }

  /** Hands on every command that can be read; the end of the file in the middle of a value is an error. */
  method Replay(file: bytes) returns (delivered: seq<Args>, clean: bool)
    ensures (delivered, clean) == Replayed(file)
  {
    var reader := new Reader(file);
    delivered := [];
    assert [] + Replayed(file).0 == Replayed(file).0;
    while true
      invariant fresh(reader) && Replayed(file) == (delivered + Replayed(reader.rest).0, Replayed(reader.rest).1)
      decreases |reader.rest|
    {
      ghost var before := reader.rest;
      var c := NextCommand(reader);
      if c.Fail? {
        assert delivered + [] == delivered;
        return delivered, c.fault == Eof;
      }
      ReplayStep(before, c.value, reader.rest, delivered);
      if c.value != [] { delivered := delivered + [c.value]; }
    }
  }
}

