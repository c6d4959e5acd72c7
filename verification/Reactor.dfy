/**
 The input side of a reactor connection: zero-copy fast path, spill into the ring
 buffer, drain loop.  The commands executed must not depend on how the byte stream
 is cut into reads.
 */
module Reactor {
  import opened Bytes
  import opened CommandParser
  import opened RingBuffers

  type Cmd = seq<bytes>

  /** What one non-blocking read on the socket returns. */
  datatype ReadResult = Data(chunk: bytes) | WouldBlock | Closed

  datatype Verdict = More | Malformed | Crash

  /** The commands at the front of a byte string, what is left, and why parsing stopped. */
  datatype Drained = Drained(cmds: seq<Cmd>, rest: bytes, end: Verdict)

  /** A command with no words is accepted and ignored. */
  function Executed(args: Cmd): seq<Cmd> {
    if args == [] then [] else [args]
  }

  /** A parser that makes progress, looks only at the bytes it consumes, and whose verdicts are final. */
  ghost predicate Incremental(parse: bytes -> ParseResult) {
    && parse([]).Incomplete?
    && (forall a {:trigger parse(a)} :: parse(a).Command? ==> 0 < parse(a).consumed <= |a|)
    && (forall a {:trigger OwnBytes(parse, a)} :: parse(a).Command? ==> parse(OwnBytes(parse, a)) == parse(a))
    && forall a, b {:trigger parse(a + b)} :: !parse(a).Incomplete? ==> parse(a + b) == parse(a)
  }

  /** The bytes of the command at the front of a. */
  ghost function OwnBytes(parse: bytes -> ParseResult, a: bytes): bytes {
    if parse(a).Command? && parse(a).consumed <= |a| then a[..parse(a).consumed] else a
  }

  lemma ParseIsIncremental()
    ensures Incremental(Parse)
  {
    forall a, b | !Parse(a).Incomplete? ensures Parse(a + b) == Parse(a) {
      ParseExtends(a, b);
    }
    forall a | Parse(a).Command? ensures Parse(OwnBytes(Parse, a)) == Parse(a) {
      ParseLocal(a);
    }
  }

  ghost function Prepend(cmds: seq<Cmd>, d: Drained): Drained {
    Drained(cmds + d.cmds, d.rest, d.end)
  }

  /** Greedy parsing of a whole byte string. */
  ghost function Drain(parse: bytes -> ParseResult, data: bytes): Drained
    decreases |data|
  {
    match parse(data)
    case Incomplete => Drained([], data, More)
    case ProtocolError => Drained([], data, Malformed)
    case Panic => Drained([], data, Crash)
    case Command(args, n) =>
      if 0 < n <= |data| then Prepend(Executed(args), Drain(parse, data[n..])) else Drained([], data, Crash)
  }

  lemma PrependTwice(a: seq<Cmd>, b: seq<Cmd>, d: Drained)
    ensures Prepend(a, Prepend(b, d)) == Prepend(a + b, d)
  {
  }

  /** Parsing can be interrupted anywhere and resumed from the unparsed rest. */
  lemma {:induction false} DrainResumes(parse: bytes -> ParseResult, a: bytes, b: bytes)
    requires Incremental(parse)
    ensures var da := Drain(parse, a);
      if da.end.More? then
        Drain(parse, a + b) == Prepend(da.cmds, Drain(parse, da.rest + b))
      else
        Drain(parse, a + b).cmds == da.cmds && Drain(parse, a + b).end == da.end
    decreases |a|
  {
    var p := parse(a);
    if !p.Incomplete? {
      assert parse(a + b) == p;
      if p.Command? {
        var n := p.consumed;
        assert (a + b)[n..] == a[n..] + b;
        DrainResumes(parse, a[n..], b);
        var da := Drain(parse, a[n..]);
        assert Drain(parse, a) == Prepend(Executed(p.args), da);
        assert Drain(parse, a + b) == Prepend(Executed(p.args), Drain(parse, a[n..] + b));
        if da.end.More? { PrependTwice(Executed(p.args), da.cmds, Drain(parse, da.rest + b)); }
      }
    }
  }

  // ---------------------------------------------------------------------------
  // One connection as a value, and one call of the read handler.
  // ---------------------------------------------------------------------------

  datatype Conn = Conn(buffered: bytes, log: seq<Cmd>, verdict: Verdict, closed: bool)

  const FRESH := Conn([], [], More, false)

  function Lower(b: byte): byte {
    if 65 <= b <= 90 then b + 32 else b
  }

  /** QUIT, in any case, closes the connection. */
  predicate IsQuit(args: Cmd) {
    args != [] && |args[0]| == 4 &&
    Lower(args[0][0]) == 113 && Lower(args[0][1]) == 117 && Lower(args[0][2]) == 105 && Lower(args[0][3]) == 116
  }

  /** That is, each letter is an upper or a lower case one. */
  lemma QuitInAnyCase(args: Cmd)
    ensures IsQuit(args) <==>
      && args != [] && |args[0]| == 4 && args[0][0] in {81, 113} && args[0][1] in {85, 117}
      && args[0][2] in {73, 105} && args[0][3] in {84, 116}
  {
  }

  predicate HasQuit(cmds: seq<Cmd>) {
    exists i | 0 <= i < |cmds| :: IsQuit(cmds[i])
  }

  /** All commands in the buffered and new bytes are executed; a QUIT among them does not stop the others. */
  ghost function Absorb(parse: bytes -> ParseResult, c: Conn, data: bytes): Conn
  {
    var d := Drain(parse, c.buffered + data);
    Conn(if d.end.More? then d.rest else [], c.log + d.cmds, d.end, !d.end.More? || HasQuit(d.cmds))
  }

  datatype Gathered = Gathered(data: bytes, used: nat, alive: bool)

  /** Reads until the socket is empty or a read does not fill the buffer. */
  function Gather(input: seq<ReadResult>, size: nat): (g: Gathered)
    ensures g.used <= |input| && (input != [] ==> g.used > 0)
  {
    if input == [] then Gathered([], 0, true)
    else
      match input[0]
      case WouldBlock => Gathered([], 1, true)
      case Closed => Gathered([], 1, false)
      case Data(chunk) =>
        if |chunk| < size then Gathered(chunk, 1, true)
        else
          var g := Gather(input[1..], size);
          Gathered(chunk + g.data, g.used + 1, g.alive)
  }

  /** What one call of the handler does with the pending reads. */
  ghost function Step(parse: bytes -> ParseResult, c: Conn, input: seq<ReadResult>, size: nat): Conn
  {
    if c.buffered == [] then
      if input == [] || input[0].WouldBlock? then c
      else if input[0].Closed? then c.(closed := true)
      else Absorb(parse, c, input[0].chunk)
    else
      var g := Gather(input, size);
      if !g.alive then c.(buffered := c.buffered + g.data, closed := true)
      else Absorb(parse, c, g.data)
  }

  /** How many of the pending reads the call takes. */
  function Used(c: Conn, input: seq<ReadResult>, size: nat): (n: nat)
    ensures n <= |input| && (input != [] ==> n > 0)
  {
    if c.buffered == [] then (if input == [] then 0 else 1) else Gather(input, size).used
  }

  /** The handler is called again and again until the connection closes or the reads run out. */
  ghost function Run(parse: bytes -> ParseResult, c: Conn, input: seq<ReadResult>, size: nat): Conn
    decreases |input|
  {
    if c.closed || input == [] then c
    else Run(parse, Step(parse, c, input, size), input[Used(c, input, size)..], size)
  }

  // ---------------------------------------------------------------------------
  // Independence of the cut.
  // ---------------------------------------------------------------------------

  /** The bytes that a sequence of reads delivers. */
  function Payload(input: seq<ReadResult>): bytes {
    if input == [] then []
    else (if input[0].Data? then input[0].chunk else []) + Payload(input[1..])
  }

  predicate NoClose(input: seq<ReadResult>) {
    forall i | 0 <= i < |input| :: !input[i].Closed?
  }

  lemma {:induction false} PayloadSplit(input: seq<ReadResult>, k: nat)
    requires k <= |input|
    ensures Payload(input) == Payload(input[..k]) + Payload(input[k..])
  {
    if k == 0 {
      assert input[..0] == [] && input[0..] == input;
    } else {
      PayloadSplit(input[1..], k - 1);
      assert input[..k][1..] == input[1..][..k - 1] && input[1..][k - 1..] == input[k..];
    }
  }

  lemma {:induction false} GatherIsPayload(input: seq<ReadResult>, size: nat)
    ensures var g := Gather(input, size);
      g.data == Payload(input[..g.used]) && (NoClose(input) ==> g.alive)
  {
    var g := Gather(input, size);
    if input != [] {
      assert input[..g.used][0] == input[0];
      var tail := input[..g.used][1..];
      if input[0].Data? && |input[0].chunk| >= size {
        GatherIsPayload(input[1..], size);
        assert tail == input[1..][..g.used - 1];
      } else {
        assert tail == [];
      }
    }
  }

  /** An open connection has executed exactly the commands in the bytes it received and buffers the rest. */
  ghost predicate Follows(parse: bytes -> ParseResult, c: Conn, stream: bytes)
  {
    Drain(parse, stream) == Drained(c.log, c.buffered, More) && c.verdict == More && !c.closed && !HasQuit(c.log)
  }

  /** The connection after all commands of a stream were executed. */
  ghost predicate Settled(parse: bytes -> ParseResult, c: Conn, stream: bytes)
  {
    var d := Drain(parse, stream);
    && c.log == d.cmds && c.verdict == d.end && c.closed == (!d.end.More? || HasQuit(d.cmds))
    && c.buffered == if d.end.More? then d.rest else []
  }

  /** One call on an open connection executes what the bytes it takes in complete. */
  lemma StepSettles(parse: bytes -> ParseResult, c: Conn, input: seq<ReadResult>, size: nat, s: bytes)
    requires Incremental(parse) && Follows(parse, c, s) && NoClose(input) && input != []
    ensures Settled(parse, Step(parse, c, input, size), s + Payload(input[..Used(c, input, size)]))
  {
    var used := Used(c, input, size);
    var t := Payload(input[..used]);
    GatherIsPayload(input, size);
    if c.buffered == [] {
      assert input[..1] == [input[0]];
      PayloadOfOne(input[0]);
    }
    if c.buffered == [] && input[0].WouldBlock? {
      assert s + t == s;
    } else {
      DrainResumes(parse, s, t);
      QuitInAppend(c.log, Drain(parse, c.buffered + t).cmds);
    }
  }

  lemma PayloadOfOne(r: ReadResult)
    ensures Payload([r]) == if r.Data? then r.chunk else []
  {
    assert [r][1..] == [];
  }

  lemma QuitInAppend(a: seq<Cmd>, b: seq<Cmd>)
    ensures HasQuit(a + b) <==> HasQuit(a) || HasQuit(b)
  {
    if HasQuit(a) {
      var i :| 0 <= i < |a| && IsQuit(a[i]);
      assert (a + b)[i] == a[i];
    }
    if HasQuit(b) {
      var i :| 0 <= i < |b| && IsQuit(b[i]);
      assert (a + b)[|a| + i] == b[i];
    }
  }

  lemma PayloadPrefix(input: seq<ReadResult>, n: nat, m: nat)
    requires n + m <= |input|
    ensures Payload(input[..n + m]) == Payload(input[..n]) + Payload(input[n..][..m])
  {
    PayloadSplit(input[..n + m], n);
    assert input[..n + m][..n] == input[..n] && input[..n + m][n..] == input[n..][..m];
  }

  lemma NoCloseTail(input: seq<ReadResult>, k: nat)
    requires NoClose(input) && k <= |input|
    ensures NoClose(input[k..])
  {
  }

  /** The connection has settled on what it took in, and has stopped early only when it is closed. */
  ghost predicate SettlesAt(parse: bytes -> ParseResult, c: Conn, input: seq<ReadResult>, size: nat, s: bytes,
                            used: nat)
  {
    && used <= |input| && Settled(parse, Run(parse, c, input, size), s + Payload(input[..used]))
    && (used < |input| ==> Run(parse, c, input, size).closed)
  }

  lemma SettlesNow(parse: bytes -> ParseResult, c: Conn, input: seq<ReadResult>, size: nat, s: bytes)
    requires Incremental(parse) && Follows(parse, c, s) && NoClose(input)
    ensures input == [] ==> SettlesAt(parse, c, input, size, s, 0)
    ensures input != [] && Step(parse, c, input, size).closed ==>
      SettlesAt(parse, c, input, size, s, Used(c, input, size))
  {
    if input == [] {
      assert s + Payload(input[..0]) == s;
    } else {
      StepSettles(parse, c, input, size, s);
    }
  }

  lemma SettlesLater(parse: bytes -> ParseResult, c: Conn, input: seq<ReadResult>, size: nat, s: bytes, m: nat)
    requires input != [] && !c.closed
    requires var n := Used(c, input, size);
      SettlesAt(parse, Step(parse, c, input, size), input[n..], size, s + Payload(input[..n]), m)
    ensures SettlesAt(parse, c, input, size, s, Used(c, input, size) + m)
  {
    var n := Used(c, input, size);
    PayloadPrefix(input, n, m);
    Associates(s, Payload(input[..n]), Payload(input[n..][..m]));
  }

  ghost predicate Settles(parse: bytes -> ParseResult, c: Conn, input: seq<ReadResult>, size: nat, s: bytes) {
    exists used: nat :: SettlesAt(parse, c, input, size, s, used)
  }

  /** One call settles, or leaves an open connection with fewer reads, on which the rest depends. */
  lemma CallSettles(parse: bytes -> ParseResult, c: Conn, input: seq<ReadResult>, size: nat, s: bytes)
    returns (n: nat, c': Conn)
    requires Incremental(parse) && Follows(parse, c, s) && NoClose(input)
    ensures n <= |input| && (n == 0 ==> Settles(parse, c, input, size, s))
    ensures n > 0 ==> Follows(parse, c', s + Payload(input[..n])) && NoClose(input[n..])
    ensures n > 0 && Settles(parse, c', input[n..], size, s + Payload(input[..n])) ==> Settles(parse, c, input, size, s)
  {
    n, c' := Used(c, input, size), Step(parse, c, input, size);
    SettlesNow(parse, c, input, size, s);
    if input == [] || c'.closed {
      n := 0;
    } else {
      StepSettles(parse, c, input, size, s);
      NoCloseTail(input, n);
      if m: nat :| SettlesAt(parse, c', input[n..], size, s + Payload(input[..n]), m) {
        SettlesLater(parse, c, input, size, s, m);
      }
    }
  }

  lemma {:induction false} EveryRunSettles(parse: bytes -> ParseResult, c: Conn, input: seq<ReadResult>, size: nat,
                                           s: bytes)
    requires Incremental(parse) && Follows(parse, c, s) && NoClose(input)
    ensures Settles(parse, c, input, size, s)
    decreases |input|
  {
    var n, c' := CallSettles(parse, c, input, size, s);
    if n > 0 { EveryRunSettles(parse, c', input[n..], size, s + Payload(input[..n])); }
  }

  /** After any run, the connection has settled on some of the reads. */
  lemma RunSettles(parse: bytes -> ParseResult, c: Conn, input: seq<ReadResult>, size: nat, s: bytes)
    returns (used: nat)
    requires Incremental(parse) && Follows(parse, c, s) && NoClose(input)
    ensures SettlesAt(parse, c, input, size, s, used)
  {
    EveryRunSettles(parse, c, input, size, s);
    used :| SettlesAt(parse, c, input, size, s, used);
  }

  /** The commands up to and including the first QUIT. */
  function UntilQuit(cmds: seq<Cmd>): seq<Cmd> {
    if cmds == [] || IsQuit(cmds[0]) then cmds[..if cmds == [] then 0 else 1]
    else [cmds[0]] + UntilQuit(cmds[1..])
  }

  lemma {:induction false} UntilQuitIsPrefix(cmds: seq<Cmd>)
    ensures UntilQuit(cmds) <= cmds && (HasQuit(cmds) || UntilQuit(cmds) == cmds)
  {
    if cmds != [] && !IsQuit(cmds[0]) {
      UntilQuitIsPrefix(cmds[1..]);
      if HasQuit(cmds[1..]) {
        var i :| 0 <= i < |cmds[1..]| && IsQuit(cmds[1..][i]);
        assert IsQuit(cmds[i + 1]);
      }
    }
  }

  lemma {:induction false} UntilQuitAppend(a: seq<Cmd>, b: seq<Cmd>)
    ensures UntilQuit(a + b) == if HasQuit(a) then UntilQuit(a) else a + UntilQuit(b)
  {
    if a == [] {
      assert a + b == b;
    } else {
      assert (a + b)[1..] == a[1..] + b && (a + b)[0] == a[0];
      if !IsQuit(a[0]) {
        UntilQuitAppend(a[1..], b);
        if HasQuit(a) {
          var i :| 0 <= i < |a| && IsQuit(a[i]);
          assert IsQuit(a[1..][i - 1]);
        }
        if HasQuit(a[1..]) {
          var i :| 0 <= i < |a[1..]| && IsQuit(a[1..][i]);
          assert IsQuit(a[i + 1]);
        }
      }
    }
  }

  /** Every run executes at least the commands up to the first QUIT and at most all commands of the stream, in order. */
  lemma RunBounds(parse: bytes -> ParseResult, input: seq<ReadResult>, size: nat)
    requires Incremental(parse) && NoClose(input)
    ensures var all, log := Drain(parse, Payload(input)).cmds, Run(parse, FRESH, input, size).log;
      UntilQuit(all) <= log <= all
  {
    assert Follows(parse, FRESH, []);
    var used := RunSettles(parse, FRESH, input, size, []);
    var part := Payload(input[..used]);
    assert [] + part == part;
    PayloadSplit(input, used);
    DrainResumes(parse, part, Payload(input[used..]));
    var log, all := Drain(parse, part).cmds, Drain(parse, Payload(input)).cmds;
    UntilQuitIsPrefix(all);
    UntilQuitIsPrefix(log);
    if used == |input| {
      assert input[..used] == input;
    } else if Drain(parse, part).end.More? {
      UntilQuitAppend(log, all[|log|..]);
      assert log + all[|log|..] == all;
    }
  }

  /**
   Without a QUIT in the stream, the cut does not matter at all: commands, verdict and buffered
   bytes are those of greedy parsing of the whole stream.
   */
  lemma ChunkingIndependence(parse: bytes -> ParseResult, input: seq<ReadResult>, size: nat)
    requires Incremental(parse) && NoClose(input) && !HasQuit(Drain(parse, Payload(input)).cmds)
    ensures Settled(parse, Run(parse, FRESH, input, size), Payload(input))
  {
    assert Follows(parse, FRESH, []);
    var used := RunSettles(parse, FRESH, input, size, []);
    var part := Payload(input[..used]);
    assert [] + part == part;
    PayloadSplit(input, used);
    DrainResumes(parse, part, Payload(input[used..]));
    if used == |input| {
      assert input[..used] == input;
    } else if Drain(parse, part).end.More? {
      var all, log := Drain(parse, Payload(input)).cmds, Drain(parse, part).cmds;
      assert log + all[|log|..] == all;
      QuitInAppend(log, all[|log|..]);
    }
  }

  /** For the reactor's own parser: two cuts of one stream without QUIT end in the same state. */
  lemma SameStreamSameState(x: seq<ReadResult>, y: seq<ReadResult>, size: nat)
    requires NoClose(x) && NoClose(y) && Payload(x) == Payload(y)
    requires !HasQuit(Drain(Parse, Payload(x)).cmds)
    ensures Run(Parse, FRESH, x, size) == Run(Parse, FRESH, y, size)
  {
    ParseIsIncremental();
    ChunkingIndependence(Parse, x, size);
    ChunkingIndependence(Parse, y, size);
  }

  // ---------------------------------------------------------------------------
  // What is lost when the peer closes.
  // ---------------------------------------------------------------------------

  /** A call that finds the peer gone, behind reads that all filled the buffer, takes them in and executes nothing. */
  lemma {:induction false} GatherToClose(input: seq<ReadResult>, size: nat)
    requires NoClose(input)
    ensures var g := Gather(input + [Closed], size);
      if Filling(input, size, 0) then !g.alive && g.used == |input| + 1
      else g == Gather(input, size) && g.used <= |input|
  {
    var all := input + [Closed];
    if input != [] {
      assert all[1..] == input[1..] + [Closed] && all[0] == input[0];
      GatherToClose(input[1..], size);
      if FillsBuffer(input[0], size) && forall i | 0 <= i < |input[1..]| :: FillsBuffer(input[1..][i], size) {
        forall i | 0 <= i < |input| ensures FillsBuffer(input[i], size) {
          if i > 0 { assert input[i] == input[1..][i - 1]; }
        }
      }
      assert forall i | 0 <= i < |input[1..]| :: input[1..][i] == input[i + 1];
    }
  }

  predicate FillsBuffer(r: ReadResult, size: nat) { r.Data? && |r.chunk| >= size }

  /** All reads from the i-th on fill the buffer. */
  predicate Filling(input: seq<ReadResult>, size: nat, i: nat) {
    forall j | i <= j < |input| :: FillsBuffer(input[j], size)
  }

  /** What waits for the rest of a command after i reads. */
  ghost function Waiting(parse: bytes -> ParseResult, input: seq<ReadResult>, s: bytes, i: nat): bytes
    requires i <= |input|
  {
    Drain(parse, s + Payload(input[..i])).rest
  }

  /** No read before the k-th begins a stretch to the end that fills the buffer while bytes are waiting. */
  ghost predicate ClearBefore(parse: bytes -> ParseResult, input: seq<ReadResult>, size: nat, s: bytes, k: nat)
    requires k <= |input|
  {
    forall i | 0 <= i < k && Filling(input, size, i) :: Waiting(parse, input, s, i) == []
  }

  /** The k-th read is the first with which such a stretch begins; without one, k is the number of reads. */
  ghost predicate LostFrom(parse: bytes -> ParseResult, input: seq<ReadResult>, size: nat, s: bytes, k: nat) {
    && k <= |input| && Filling(input, size, k) && ClearBefore(parse, input, size, s, k)
    && (k < |input| ==> Waiting(parse, input, s, k) != [])
  }

  /** There is only one such read. */
  lemma LostFromOnce(parse: bytes -> ParseResult, input: seq<ReadResult>, size: nat, s: bytes, k: nat, m: nat)
    requires LostFrom(parse, input, size, s, k) && LostFrom(parse, input, size, s, m)
    ensures k == m
  {
  }

  /** The call reaches the point where the peer is gone. */
  ghost predicate Reaches(c: Conn, input: seq<ReadResult>, size: nat) {
    if c.buffered == [] then input == [] else Filling(input, size, 0)
  }

  /** Then it executes nothing. */
  lemma ClosedRun(parse: bytes -> ParseResult, c: Conn, input: seq<ReadResult>, size: nat)
    requires NoClose(input) && !c.closed && Reaches(c, input, size)
    ensures Run(parse, c, input + [Closed], size).log == c.log
  {
    var all := input + [Closed];
    GatherToClose(input, size);
    var c' := Step(parse, c, all, size);
    assert c'.log == c.log && c'.closed;
    assert Run(parse, c, all, size) == Run(parse, c', all[Used(c, all, size)..], size);
  }

  /** Otherwise it does what it would have done. */
  lemma OpenRun(parse: bytes -> ParseResult, c: Conn, input: seq<ReadResult>, size: nat)
    requires NoClose(input) && !c.closed && !Reaches(c, input, size)
    ensures var n := Used(c, input, size);
      input != [] && Run(parse, c, input + [Closed], size) ==
        Run(parse, Step(parse, c, input, size), input[n..] + [Closed], size)
  {
    var all := input + [Closed];
    GatherToClose(input, size);
    assert all[0] == input[0];
    var n := Used(c, all, size);
    assert n == Used(c, input, size) && all[n..] == input[n..] + [Closed];
    assert Step(parse, c, all, size) == Step(parse, c, input, size);
  }

  lemma LostAtOnce(parse: bytes -> ParseResult, c: Conn, input: seq<ReadResult>, size: nat, s: bytes)
    requires Follows(parse, c, s) && Reaches(c, input, size)
    ensures LostFrom(parse, input, size, s, 0) && s + Payload(input[..0]) == s
  {
    assert input[..0] == [] && s + [] == s;
  }

  /** A call that gathers without reaching the end stops at a read that does not fill the buffer. */
  lemma {:induction false} GatherStops(input: seq<ReadResult>, size: nat)
    requires NoClose(input) && !Filling(input, size, 0)
    ensures var n := Gather(input, size).used; 0 < n <= |input| && !FillsBuffer(input[n - 1], size)
  {
    assert input != [];
    if FillsBuffer(input[0], size) {
      var j :| 0 <= j < |input| && !FillsBuffer(input[j], size);
      assert input[1..][j - 1] == input[j];
      GatherStops(input[1..], size);
    }
  }

  lemma ClearStep(parse: bytes -> ParseResult, c: Conn, input: seq<ReadResult>, size: nat, s: bytes)
    requires Follows(parse, c, s) && NoClose(input) && !Reaches(c, input, size)
    ensures ClearBefore(parse, input, size, s, Used(c, input, size))
  {
    var n := Used(c, input, size);
    if c.buffered != [] { GatherStops(input, size); }
    assert input[..0] == [] && s + [] == s;
  }

  lemma FillingLater(input: seq<ReadResult>, size: nat, n: nat, i: nat)
    requires n + i <= |input|
    ensures Filling(input[n..], size, i) <==> Filling(input, size, n + i)
  {
    if Filling(input[n..], size, i) {
      forall j | n + i <= j < |input| ensures FillsBuffer(input[j], size) { assert input[j] == input[n..][j - n]; }
    }
  }

  lemma WaitingLater(parse: bytes -> ParseResult, input: seq<ReadResult>, s: bytes, n: nat, i: nat)
    requires n + i <= |input|
    ensures Waiting(parse, input[n..], s + Payload(input[..n]), i) == Waiting(parse, input, s, n + i)
    ensures s + Payload(input[..n]) + Payload(input[n..][..i]) == s + Payload(input[..n + i])
  {
    PayloadPrefix(input, n, i);
    Associates(s, Payload(input[..n]), Payload(input[n..][..i]));
  }

  lemma LostLater(parse: bytes -> ParseResult, input: seq<ReadResult>, size: nat, s: bytes, n: nat, m: nat)
    requires n <= |input| && ClearBefore(parse, input, size, s, n)
    requires LostFrom(parse, input[n..], size, s + Payload(input[..n]), m)
    ensures LostFrom(parse, input, size, s, n + m)
    ensures s + Payload(input[..n]) + Payload(input[n..][..m]) == s + Payload(input[..n + m])
  {
    FillingLater(input, size, n, m);
    WaitingLater(parse, input, s, n, m);
    forall i | 0 <= i < n + m && Filling(input, size, i) ensures Waiting(parse, input, s, i) == [] {
      if i >= n {
        FillingLater(input, size, n, i - n);
        WaitingLater(parse, input, s, n, i - n);
      }
    }
  }

  /** An open connection in step with the stream so far, before reads that bring neither QUIT nor an error. */
  ghost predicate Underway(parse: bytes -> ParseResult, c: Conn, input: seq<ReadResult>, s: bytes) {
    Follows(parse, c, s) && NoClose(input) && Plain(parse, s + Payload(input))
  }

  /** A call that does not reach the end leaves the same situation with fewer reads. */
  lemma OneCall(parse: bytes -> ParseResult, c: Conn, input: seq<ReadResult>, size: nat, s: bytes)
    returns (n: nat, c': Conn)
    requires Incremental(parse) && Underway(parse, c, input, s) && !Reaches(c, input, size)
    ensures 0 < n <= |input| && Underway(parse, c', input[n..], s + Payload(input[..n]))
    ensures ClearBefore(parse, input, size, s, n)
    ensures Run(parse, c, input + [Closed], size) == Run(parse, c', input[n..] + [Closed], size)
  {
    n, c' := Used(c, input, size), Step(parse, c, input, size);
    OpenRun(parse, c, input, size);
    StillFollows(parse, c, input, size, s);
    ClearStep(parse, c, input, size, s);
  }

  /** A run at whose end the peer closes executes what is complete before the read from which all is lost. */
  ghost predicate StopsAt(parse: bytes -> ParseResult, c: Conn, input: seq<ReadResult>, size: nat, s: bytes, k: nat) {
    && LostFrom(parse, input, size, s, k)
    && Run(parse, c, input + [Closed], size).log == Drain(parse, s + Payload(input[..k])).cmds
  }

  lemma StopsAtOnce(parse: bytes -> ParseResult, c: Conn, input: seq<ReadResult>, size: nat, s: bytes)
    requires Follows(parse, c, s) && NoClose(input) && Reaches(c, input, size)
    ensures StopsAt(parse, c, input, size, s, 0)
  {
    LostAtOnce(parse, c, input, size, s);
    ClosedRun(parse, c, input, size);
  }

  lemma StopsLater(parse: bytes -> ParseResult, c: Conn, c': Conn, input: seq<ReadResult>, size: nat, s: bytes, n: nat,
                   m: nat)
    requires n <= |input| && ClearBefore(parse, input, size, s, n)
    requires Run(parse, c, input + [Closed], size) == Run(parse, c', input[n..] + [Closed], size)
    requires StopsAt(parse, c', input[n..], size, s + Payload(input[..n]), m)
    ensures StopsAt(parse, c, input, size, s, n + m)
  {
    LostLater(parse, input, size, s, n, m);
  }

  /** Such a place exists for every run. */
  ghost predicate Stops(parse: bytes -> ParseResult, c: Conn, input: seq<ReadResult>, size: nat, s: bytes) {
    exists k: nat :: StopsAt(parse, c, input, size, s, k)
  }

  lemma StopsAfterCall(parse: bytes -> ParseResult, c: Conn, c': Conn, input: seq<ReadResult>, size: nat, s: bytes,
                       n: nat)
    requires n <= |input| && ClearBefore(parse, input, size, s, n)
    requires Run(parse, c, input + [Closed], size) == Run(parse, c', input[n..] + [Closed], size)
    requires Stops(parse, c', input[n..], size, s + Payload(input[..n]))
    ensures Stops(parse, c, input, size, s)
  {
    var m: nat :| StopsAt(parse, c', input[n..], size, s + Payload(input[..n]), m);
    StopsLater(parse, c, c', input, size, s, n, m);
  }

  lemma {:induction false} EveryRunStops(parse: bytes -> ParseResult, c: Conn, input: seq<ReadResult>, size: nat,
                                         s: bytes)
    requires Incremental(parse) && Underway(parse, c, input, s)
    ensures Stops(parse, c, input, size, s)
    decreases |input|
  {
    if Reaches(c, input, size) {
      StopsAtOnce(parse, c, input, size, s);
    } else {
      var n, c' := OneCall(parse, c, input, size, s);
      EveryRunStops(parse, c', input[n..], size, s + Payload(input[..n]));
      StopsAfterCall(parse, c, c', input, size, s, n);
    }
  }

  /**
   When the peer closes, exactly the commands that the stream completes after the k-th read are lost, where k is the
   first read from which on all fill the buffer while bytes are waiting. None is lost if and only if these reads
   complete no command.
   */
  lemma CloseLoses(parse: bytes -> ParseResult, c: Conn, input: seq<ReadResult>, size: nat, s: bytes, k: nat)
    requires Incremental(parse) && Follows(parse, c, s) && NoClose(input) && Plain(parse, s + Payload(input))
    requires LostFrom(parse, input, size, s, k)
    ensures var log := Run(parse, c, input + [Closed], size).log;
      && log == Drain(parse, s + Payload(input[..k])).cmds
      && Drain(parse, s + Payload(input)).cmds == log + Lost(parse, input, s, k)
      && (log == Drain(parse, s + Payload(input)).cmds <==> Lost(parse, input, s, k) == [])
  {
    EveryRunStops(parse, c, input, size, s);
    var m: nat :| StopsAt(parse, c, input, size, s, m);
    LostFromOnce(parse, input, size, s, k, m);
    PayloadSplit(input, k);
    Associates(s, Payload(input[..k]), Payload(input[k..]));
    StaysOpen(parse, s + Payload(input[..k]), Payload(input[k..]));
    DrainResumes(parse, s + Payload(input[..k]), Payload(input[k..]));
  }

  /** The commands that the reads from the k-th on complete. */
  ghost function Lost(parse: bytes -> ParseResult, input: seq<ReadResult>, s: bytes, k: nat): seq<Cmd>
    requires k <= |input|
  {
    Drain(parse, Waiting(parse, input, s, k) + Payload(input[k..])).cmds
  }

  /** Two reads of which the second fills the buffer behind an incomplete command: nothing is executed. */
  lemma FilledThenClosed(parse: bytes -> ParseResult, a: bytes, b: bytes, size: nat)
    requires Incremental(parse) && parse(a).Incomplete? && a != [] && |b| >= size
    ensures Run(parse, FRESH, [Data(a), Data(b), Closed], size).log == []
  {
    var all := [Data(a), Data(b), Closed];
    var c := Step(parse, FRESH, all, size);
    assert [] + a == a && Drain(parse, a) == Drained([], a, More);
    assert c == Conn(a, [], More, false) && all[1..] == [Data(b)] + [Closed];
    assert Run(parse, FRESH, all, size) == Run(parse, c, all[1..], size);
    ClosedRun(parse, c, [Data(b)], size);
  }

  const PING: bytes := [80, 73, 78, 71]

  /** PING is lost when the end of its line comes at the front of a read that fills the buffer. */
  lemma PingIsLost(size: nat, more: bytes)
    requires |more| + 1 == size
    ensures Run(Parse, FRESH, [Data(PING), Data([LF] + more), Closed], size).log == []
    ensures var cmds := Drain(Parse, PING + ([LF] + more)).cmds; cmds != [] && cmds[0] == [PING]
  {
    ParseIsIncremental();
    FilledThenClosed(Parse, PING, [LF] + more, size);
    PingParses();
    ParseExtends(PING + [LF], more);
    Associates(PING, [LF], more);
  }

  lemma PingParses()
    ensures Parse(PING).Incomplete? && Parse(PING + [LF]) == Command([PING], 5)
  {
    var line := PING + [LF];
    assert IndexFrom(line, 3, LF) == 4 && line[..4] == PING;
    assert IndexFrom(line, 1, LF) == 4;
    assert IndexFrom(PING, 3, LF) == 4;
    assert FieldLength(PING) == 4 && PING[..4] == PING && PING[4..] == [];
  }

  lemma StillFollows(parse: bytes -> ParseResult, c: Conn, input: seq<ReadResult>, size: nat, s: bytes)
    requires Incremental(parse) && Follows(parse, c, s) && NoClose(input) && input != []
    requires Plain(parse, s + Payload(input))
    ensures var n := Used(c, input, size);
      && Follows(parse, Step(parse, c, input, size), s + Payload(input[..n])) && NoClose(input[n..])
      && Plain(parse, s + Payload(input[..n]) + Payload(input[n..]))
  {
    var n := Used(c, input, size);
    NoCloseTail(input, n);
    StepSettles(parse, c, input, size, s);
    PayloadSplit(input, n);
    Associates(s, Payload(input[..n]), Payload(input[n..]));
    StaysOpen(parse, s + Payload(input[..n]), Payload(input[n..]));
  }

  /** Neither a QUIT in the stream nor an error. */
  ghost predicate Plain(parse: bytes -> ParseResult, stream: bytes) {
    !HasQuit(Drain(parse, stream).cmds) && Drain(parse, stream).end.More?
  }

  lemma StaysOpen(parse: bytes -> ParseResult, a: bytes, b: bytes)
    requires Incremental(parse) && Plain(parse, a + b)
    ensures Plain(parse, a)
  {
    DrainResumes(parse, a, b);
    if Drain(parse, a).end.More? {
      QuitInAppend(Drain(parse, a).cmds, Drain(parse, Drain(parse, a).rest + b).cmds);
    }
  }

  // ---------------------------------------------------------------------------
  // Exactly when the cut matters.
  // ---------------------------------------------------------------------------

  lemma {:induction false} RestIsIncomplete(parse: bytes -> ParseResult, a: bytes)
    requires Incremental(parse)
    ensures Drain(parse, a).end.More? ==> parse(Drain(parse, a).rest).Incomplete?
    decreases |a|
  {
    var p := parse(a);
    if p.Command? { RestIsIncomplete(parse, a[p.consumed..]); }
  }

  /** A command that was not there before ends in the new bytes. */
  lemma NotEarlier(parse: bytes -> ParseResult, a: bytes, ext: bytes)
    requires Incremental(parse)
    ensures parse(a + ext).Command? && parse(a + ext).consumed <= |a| ==> parse(a) == parse(a + ext)
  {
    var p := parse(a + ext);
    if p.Command? && p.consumed <= |a| {
      assert OwnBytes(parse, a + ext) == a[..p.consumed];
      assert a[..p.consumed] + a[p.consumed..] == a;
    }
  }

  /** One more byte behind an incomplete command completes at most that command. */
  lemma OneMoreByte(parse: bytes -> ParseResult, a: bytes, b: byte)
    requires Incremental(parse) && parse(a).Incomplete?
    ensures |Drain(parse, a + [b]).cmds| <= 1
  {
    NotEarlier(parse, a, [b]);
    var p := parse(a + [b]);
    if p.Command? { assert (a + [b])[p.consumed..] == []; }
  }

  function OneByOne(s: bytes): seq<ReadResult> {
    if s == [] then [] else [Data(s[..1])] + OneByOne(s[1..])
  }

  /** A cut of s into reads: non-empty chunks that fit the read buffer, the peer staying connected. */
  predicate IsCut(input: seq<ReadResult>, s: bytes, size: nat) {
    && NoClose(input) && Payload(input) == s
    && forall i | 0 <= i < |input| && input[i].Data? :: 0 < |input[i].chunk| <= size
  }

  lemma {:induction false} OneByOneIsCut(s: bytes, size: nat)
    requires size >= 1
    ensures IsCut(OneByOne(s), s, size)
  {
    if s != [] {
      OneByOneIsCut(s[1..], size);
      assert OneByOne(s)[1..] == OneByOne(s[1..]);
      assert s[..1] + s[1..] == s;
    }
  }

  /** Fed one byte at a time, the connection executes exactly the commands up to the first QUIT. */
  lemma {:induction false} BytewiseRun(parse: bytes -> ParseResult, c: Conn, s: bytes, t: bytes, size: nat)
    requires Incremental(parse) && Follows(parse, c, s) && size >= 2
    ensures Run(parse, c, OneByOne(t), size).log == UntilQuit(Drain(parse, s + t).cmds)
    decreases |t|
  {
    if t == [] {
      assert s + t == s;
      UntilQuitIsPrefix(c.log);
    } else {
      var input, b := OneByOne(t), t[..1];
      OneByOneIsCut(t, size);
      assert input[..1] == [Data(b)] && input[1..] == OneByOne(t[1..]);
      PayloadOfOne(Data(b));
      StepSettles(parse, c, input, size, s);
      var c' := Step(parse, c, input, size);
      OneByteLog(parse, c, s, t[0]);
      assert b == [t[0]];
      DrainResumes(parse, s + b, t[1..]);
      Associates(s, b, t[1..]);
      assert b + t[1..] == t;
      if c'.closed {
        var all := Drain(parse, s + t).cmds;
        UntilQuitAppend(c'.log, all[|c'.log|..]);
        assert c'.log + all[|c'.log|..] == all;
      } else {
        BytewiseRun(parse, c', s + b, t[1..], size);
      }
    }
  }

  lemma OneByteLog(parse: bytes -> ParseResult, c: Conn, s: bytes, b: byte)
    requires Incremental(parse) && Follows(parse, c, s)
    ensures UntilQuit(Drain(parse, s + [b]).cmds) == Drain(parse, s + [b]).cmds
  {
    DrainResumes(parse, s, [b]);
    RestIsIncomplete(parse, s);
    OneMoreByte(parse, c.buffered, b);
    NothingAfterQuit(c.log, Drain(parse, c.buffered + [b]).cmds);
  }

  lemma NothingAfterQuit(log: seq<Cmd>, cmds: seq<Cmd>)
    requires !HasQuit(log) && UntilQuit(cmds) == cmds
    ensures UntilQuit(log + cmds) == log + cmds
  {
    UntilQuitAppend(log, cmds);
  }

  /** No single byte is a QUIT. */
  ghost predicate NoByteQuits(parse: bytes -> ParseResult) {
    forall b: byte {:trigger parse([b])} :: parse([b]).Command? ==> !IsQuit(parse([b]).args)
  }

  lemma ParseNoByteQuits()
    ensures NoByteQuits(Parse)
  {
    forall b: byte | Parse([b]).Command? ensures !IsQuit(Parse([b]).args) {
      assert [b][..0] == [];
    }
  }

  lemma ByteDrain(parse: bytes -> ParseResult, b: byte)
    requires Incremental(parse) && NoByteQuits(parse)
    ensures !HasQuit(Drain(parse, [b]).cmds)
  {
    var p := parse([b]);
    if p.Command? { assert [b][p.consumed..] == []; }
  }

  /** Reads that fill the buffer, but for the last. */
  function Chunks(t: bytes, size: nat): seq<ReadResult>
    requires size > 0
  {
    if |t| <= size then (if t == [] then [] else [Data(t)])
    else [Data(t[..size])] + Chunks(t[size..], size)
  }

  lemma {:induction false} ChunksAreGathered(t: bytes, size: nat)
    requires size > 0
    ensures IsCut(Chunks(t, size), t, size) && Gather(Chunks(t, size), size) == Gathered(t, |Chunks(t, size)|, true)
  {
    var input := Chunks(t, size);
    if |t| > size {
      ChunksAreGathered(t[size..], size);
      assert input[1..] == Chunks(t[size..], size) && t[..size] + t[size..] == t;
    } else if t != [] {
      PayloadOfOne(Data(t));
      assert input[1..] == [] && t + [] == t;
    }
  }

  /** With bytes in the ring, one call takes in a whole stream that keeps filling the buffer. */
  lemma GatheredRun(parse: bytes -> ParseResult, c: Conn, s: bytes, t: bytes, size: nat)
    requires Incremental(parse) && Follows(parse, c, s) && size > 0 && c.buffered != [] && t != []
    ensures Run(parse, c, Chunks(t, size), size).log == Drain(parse, s + t).cmds
  {
    var input := Chunks(t, size);
    ChunksAreGathered(t, size);
    StepSettles(parse, c, input, size, s);
    assert input[..|input|] == input && input[|input|..] == [];
  }

  lemma IsCutFirst(b: byte, rest: seq<ReadResult>, t: bytes, size: nat)
    requires IsCut(rest, t, size) && size > 0
    ensures IsCut([Data([b])] + rest, [b] + t, size)
  {
    assert ([Data([b])] + rest)[1..] == rest;
  }

  lemma FirstByteRun(parse: bytes -> ParseResult, c: Conn, s: bytes, b: byte, rest: seq<ReadResult>, size: nat)
    requires Incremental(parse) && NoByteQuits(parse) && Follows(parse, c, s) && c.buffered == []
    ensures var c' := Absorb(parse, c, [b]);
      && Run(parse, c, [Data([b])] + rest, size) == Run(parse, c', rest, size)
      && (c'.closed ==> c'.log == Drain(parse, s + [b]).cmds && !Drain(parse, s + [b]).end.More?)
      && (!c'.closed ==> Follows(parse, c', s + [b]))
  {
    var input := [Data([b])] + rest;
    assert input[1..] == rest && [] + [b] == [b];
    DrainResumes(parse, s, [b]);
    ByteDrain(parse, b);
    QuitInAppend(c.log, Drain(parse, [b]).cmds);
  }

  /** Some cut of the stream, however long it is, executes all its commands. */
  lemma {:induction false} WholeRun(parse: bytes -> ParseResult, c: Conn, s: bytes, t: bytes, size: nat)
    returns (input: seq<ReadResult>)
    requires Incremental(parse) && NoByteQuits(parse) && Follows(parse, c, s) && size > 0
    ensures IsCut(input, t, size) && Run(parse, c, input, size).log == Drain(parse, s + t).cmds
    decreases |t|
  {
    if t == [] {
      input := [];
      assert s + t == s;
    } else if c.buffered != [] {
      input := Chunks(t, size);
      ChunksAreGathered(t, size);
      GatheredRun(parse, c, s, t, size);
    } else {
      var b, c' := t[0], Absorb(parse, c, [t[0]]);
      var rest := OneByOne(t[1..]);
      OneByOneIsCut(t[1..], size);
      FirstByteRun(parse, c, s, b, rest, size);
      Associates(s, [b], t[1..]);
      assert [b] + t[1..] == t;
      if c'.closed {
        DrainResumes(parse, s + [b], t[1..]);
      } else {
        rest := WholeRun(parse, c', s + [b], t[1..], size);
        FirstByteRun(parse, c, s, b, rest, size);
      }
      IsCutFirst(b, rest, t[1..], size);
      input := [Data([b])] + rest;
    }
  }

  /** All cuts of a stream execute the same commands if and only if no command follows the first QUIT in it. */
  lemma CutIsIrrelevantIff(s: bytes, size: nat)
    requires size >= 2
    ensures (forall x, y | IsCut(x, s, size) && IsCut(y, s, size) ::
               Run(Parse, FRESH, x, size).log == Run(Parse, FRESH, y, size).log)
       <==> UntilQuit(Drain(Parse, s).cmds) == Drain(Parse, s).cmds
  {
    ParseIsIncremental();
    ParseNoByteQuits();
    CutMattersIff(Parse, s, size);
  }

  lemma CutMattersIff(parse: bytes -> ParseResult, s: bytes, size: nat)
    requires Incremental(parse) && NoByteQuits(parse) && size >= 2
    ensures (forall x, y | IsCut(x, s, size) && IsCut(y, s, size) ::
               Run(parse, FRESH, x, size).log == Run(parse, FRESH, y, size).log)
       <==> UntilQuit(Drain(parse, s).cmds) == Drain(parse, s).cmds
  {
    var whole := WholeRun(parse, FRESH, [], s, size);
    OneByOneIsCut(s, size);
    BytewiseRun(parse, FRESH, [], s, size);
    assert [] + s == s;
    if UntilQuit(Drain(parse, s).cmds) == Drain(parse, s).cmds {
      forall x | IsCut(x, s, size) ensures Run(parse, FRESH, x, size).log == Drain(parse, s).cmds {
        RunBounds(parse, x, size);
      }
    } else {
      assert IsCut(whole, s, size) && IsCut(OneByOne(s), s, size);
    }
  }

  // ---------------------------------------------------------------------------
  // The handler itself.
  // ---------------------------------------------------------------------------

  /** parse is the reactor's own parser. */
  ghost predicate IsParser(parse: bytes -> ParseResult) {
    forall d {:trigger Parse(d)} :: parse(d) == Parse(d)
  }

  /** What one parse result contributes to the rest of a drain. */
  ghost predicate Contributes(parse: bytes -> ParseResult, data: bytes, done: seq<Cmd>, r: ParseResult)
  {
    && (r.Command? ==> 0 < r.consumed <= |data|)
    && Prepend(done, Drain(parse, data)) ==
      match r
      case Incomplete => Drained(done, data, More)
      case ProtocolError => Drained(done, data, Malformed)
      case Panic => Drained(done, data, Crash)
      case Command(args, n) => Prepend(done + Executed(args), Drain(parse, data[n..]))
  }

  lemma ParseContributes(parse: bytes -> ParseResult, data: bytes, done: seq<Cmd>)
    requires parse(data).Command? ==> 0 < parse(data).consumed <= |data|
    ensures Contributes(parse, data, done, parse(data))
  {
    var p := parse(data);
    if p.Command? {
      var d := Drain(parse, data[p.consumed..]);
      assert done + (Executed(p.args) + d.cmds) == (done + Executed(p.args)) + d.cmds;
    }
  }

  lemma RestOfChunk(parse: bytes -> ParseResult, chunk: bytes, args: Cmd, n: nat, log: seq<Cmd>)
    requires Contributes(parse, chunk, [], Command(args, n))
    ensures var all, d := Drain(parse, chunk), Drain(parse, chunk[n..]);
      && all.rest == d.rest && all.end == d.end
      && log + all.cmds == (log + Executed(args)) + d.cmds
      && (HasQuit(all.cmds) <==> HasQuit(Executed(args)) || HasQuit(d.cmds))
  {
    FirstAndRest(Drain(parse, chunk), Executed(args), Drain(parse, chunk[n..]), log);
  }

  lemma FirstAndRest(all: Drained, e: seq<Cmd>, d: Drained, log: seq<Cmd>)
    requires Prepend([], all) == Prepend([] + e, d)
    ensures all.rest == d.rest && all.end == d.end && log + all.cmds == (log + e) + d.cmds
    ensures HasQuit(all.cmds) <==> HasQuit(e) || HasQuit(d.cmds)
  {
    assert [] + all.cmds == all.cmds && [] + e == e;
    QuitInAppend(e, d.cmds);
  }

  lemma OneMoreDone(log: seq<Cmd>, done: seq<Cmd>, e: seq<Cmd>)
    ensures (log + done) + e == log + (done + e) && (HasQuit(done + e) <==> HasQuit(done) || HasQuit(e))
  {
    QuitInAppend(done, e);
  }

  lemma NothingToDrain(parse: bytes -> ParseResult)
    requires IsParser(parse)
    ensures Drain(parse, []) == Drained([], [], More)
  {
    assert Parse([]).Incomplete?;
  }

  method NextCommand(data: bytes, ghost parse: bytes -> ParseResult, ghost done: seq<Cmd>) returns (r: ParseResult)
    requires IsParser(parse)
    ensures Contributes(parse, data, done, r)
  {
    r := ParseCommandInto(data);
    ParseContributes(parse, data, done);
  }

  /** The result of reading on after used reads that brought in data. */
  ghost function After(data: bytes, used: nat, g: Gathered): Gathered {
    Gathered(data + g.data, used + g.used, g.alive)
  }

  lemma GatherNext(input: seq<ReadResult>, p: nat, size: nat, taken: bytes)
    requires p < |input|
    ensures After(taken, p, Gather(input[p..], size)) ==
      match input[p]
      case WouldBlock => Gathered(taken, p + 1, true)
      case Closed => Gathered(taken, p + 1, false)
      case Data(chunk) =>
        if |chunk| < size then Gathered(taken + chunk, p + 1, true)
        else After(taken + chunk, p + 1, Gather(input[p + 1..], size))
  {
    assert input[p..][0] == input[p] && input[p..][1..] == input[p + 1..];
    var g := Gather(input[p + 1..], size);
    if input[p].Data? { assert (taken + input[p].chunk) + g.data == taken + (input[p].chunk + g.data); }
  }

  class Connection {
    const inRing: RingBuffer
    var executed: seq<Cmd>
    var verdict: Verdict
    var closed: bool

    constructor (ringSize: int)
      ensures Valid() && View() == FRESH && fresh(inRing) && fresh(inRing.buf)
    {
      inRing := new RingBuffer(ringSize);
      executed, verdict, closed := [], More, false;
    }

    ghost predicate Valid()
      reads this, inRing
    {
      inRing.Valid()
    }

    ghost function View(): Conn
      requires Valid()
      reads this, inRing, inRing.buf
    {
      Conn(if verdict.More? then inRing.Contents() else [], executed, verdict, closed)
    }

    /** Runs one command; the replies are not part of the model. */
    method ExecuteCommand(args: Cmd)
      modifies this`executed, this`closed
      ensures executed == old(executed) + Executed(args)
      ensures closed == (old(closed) || HasQuit(Executed(args)))
    {
      assert args != [] ==> Executed(args)[0] == args;
      if args == [] {
        return;
      }
      executed := executed + [args];
      if IsQuit(args) {
        closed := true;
      }
    }

    /** Reply with an error, or stop, and close. */
    method Fail(r: ParseResult)
      modifies this`verdict, this`closed
      ensures closed && verdict == if r.Panic? then Crash else Malformed
    {
      verdict := if r.Panic? then Crash else Malformed;
      closed := true;
    }

    /** The commands of `data` have been executed on top of `log`, and closing them has had its effect. */
    ghost predicate Did(parse: bytes -> ParseResult, data: bytes, log: seq<Cmd>, wasClosed: bool)
      requires Valid()
      reads this, inRing, inRing.buf
    {
      var d := Drain(parse, data);
      && executed == log + d.cmds && verdict == d.end
      && closed == (wasClosed || !d.end.More? || HasQuit(d.cmds))
      && (d.end.More? ==> inRing.Contents() == d.rest)
    }

    /** The loop over a slice of the read buffer; incomplete trailing bytes go to the ring. */
    method DrainSlice(data: bytes, ghost parse: bytes -> ParseResult)
      requires Valid() && inRing.Contents() == [] && verdict.More? && IsParser(parse)
      modifies this, inRing, inRing.buf
      ensures Valid() && (inRing.buf == old(inRing.buf) || fresh(inRing.buf))
      ensures Did(parse, data, old(executed), old(closed))
    {
      var buf := data;
      ghost var done: seq<Cmd>, log, wasClosed := [], executed, closed;
      assert [] + Drain(parse, data).cmds == Drain(parse, data).cmds;
      while |buf| > 0
        invariant Valid() && inRing.Contents() == [] && inRing.buf == old(inRing.buf) && verdict.More?
        invariant Prepend([], Drain(parse, data)) == Prepend(done, Drain(parse, buf))
        invariant executed == log + done && closed == (wasClosed || HasQuit(done))
        decreases |buf|
      {
        var r := NextCommand(buf, parse, done);
        match r {
          case ProtocolError =>
            Fail(r);
            return;
          case Panic =>
            Fail(r);
            return;
          case Incomplete =>
            var _ := inRing.Write(buf);
            return;
          case Command(args, consumed) =>
            ExecuteCommand(args);
            OneMoreDone(log, done, Executed(args));
            done := done + Executed(args);
            buf := buf[consumed..];
        }
      }
      NothingToDrain(parse);
      assert done + [] == done;
    }

    /** All unread bytes: without a copy when they do not wrap round. */
    method RingBytes() returns (data: bytes)
      requires Valid()
      ensures data == inRing.Contents()
    {
      data := inRing.Peek();
      if inRing.Len() > |data| {
        data := inRing.All();
      }
    }

    method TakeCommand(args: Cmd, consumed: nat)
      requires Valid() && consumed <= |inRing.Contents()|
      modifies this`executed, this`closed, inRing
      ensures Valid() && inRing.buf == old(inRing.buf) && inRing.Contents() == old(inRing.Contents())[consumed..]
      ensures executed == old(executed) + Executed(args) && closed == (old(closed) || HasQuit(Executed(args)))
    {
      inRing.AdvanceRead(consumed);
      ExecuteCommand(args);
    }

    /** The commands `done`, from the front of `all`, have been executed on top of `log`; the ring holds what
     is left. */
    ghost predicate Doing(parse: bytes -> ParseResult, all: bytes, done: seq<Cmd>, log: seq<Cmd>, wasClosed: bool)
      requires Valid()
      reads this, inRing, inRing.buf
    {
      && verdict.More? && Prepend([], Drain(parse, all)) == Prepend(done, Drain(parse, inRing.Contents()))
      && executed == log + done && closed == (wasClosed || HasQuit(done))
    }

    /** One turn of the loop over the ring. */
    method DrainNext(ghost parse: bytes -> ParseResult, ghost all: bytes, ghost done: seq<Cmd>, ghost log: seq<Cmd>,
                     ghost wasClosed: bool)
      returns (more: bool, ghost now: seq<Cmd>)
      requires Valid() && IsParser(parse) && Doing(parse, all, done, log, wasClosed)
      modifies this, inRing
      ensures Valid() && inRing.buf == old(inRing.buf)
      ensures more ==> Doing(parse, all, now, log, wasClosed) && inRing.Len() < old(inRing.Len())
      ensures !more ==> Did(parse, all, log, wasClosed)
    {
      more, now := false, done;
      assert [] + Drain(parse, all).cmds == Drain(parse, all).cmds;
      var data := RingBytes();
      if |data| == 0 {
        NothingToDrain(parse);
        assert done + [] == done;
        return;
      }
      var r := NextCommand(data, parse, done);
      match r {
        case ProtocolError =>
          Fail(r);
        case Panic =>
          Fail(r);
        case Incomplete =>
        case Command(args, consumed) =>
          TakeCommand(args, consumed);
          OneMoreDone(log, done, Executed(args));
          more, now := true, done + Executed(args);
      }
    }

    /** The loop over everything in the ring. */
    method DrainRing(ghost parse: bytes -> ParseResult)
      requires Valid() && verdict.More? && IsParser(parse)
      modifies this, inRing
      ensures Valid() && inRing.buf == old(inRing.buf)
      ensures Did(parse, old(inRing.Contents()), old(executed), old(closed))
    {
      ghost var all, log, wasClosed := inRing.Contents(), executed, closed;
      ghost var done: seq<Cmd> := [];
      var more := true;
      while more
        invariant Valid() && inRing.buf == old(inRing.buf)
        invariant if more then Doing(parse, all, done, log, wasClosed) else Did(parse, all, log, wasClosed)
        decreases more, inRing.Len()
      {
        more, done := DrainNext(parse, all, done, log, wasClosed);
      }
      if !verdict.More? {
        return;
      }
      if inRing.IsEmpty() {
        inRing.Reset();
      }
    }

    /** Reads into the ring until the socket is empty or a read does not fill the buffer. */
    method ReadAll(input: seq<ReadResult>, size: nat) returns (used: nat, alive: bool)
      requires Valid()
      modifies inRing, inRing.buf
      ensures Valid() && (inRing.buf == old(inRing.buf) || fresh(inRing.buf))
      ensures inRing.Contents() == old(inRing.Contents()) + Gather(input, size).data
      ensures used == Gather(input, size).used && alive == Gather(input, size).alive
    {
      used, alive := 0, true;
      ghost var taken: bytes := [];
      ghost var was := inRing.Contents();
      assert input[0..] == input;
      while used < |input|
        invariant 0 <= used <= |input| && Valid() && (inRing.buf == old(inRing.buf) || fresh(inRing.buf))
        invariant inRing.Contents() == was + taken && alive
        invariant Gather(input, size) == After(taken, used, Gather(input[used..], size))
      {
        GatherNext(input, used, size, taken);
        var r := input[used];
        used := used + 1;
        if r.WouldBlock? {
          break;
        }
        if r.Closed? {
          alive := false;
          break;
        }
        var _ := inRing.Write(r.chunk);
        Associates(was, taken, r.chunk);
        taken := taken + r.chunk;
        if |r.chunk| < size {
          break;
        }
      }
      assert Gather(input, size) == Gathered(taken, used, alive);
    }

    /** The fast path behind its first command. */
    method HandleRest(chunk: bytes, args: Cmd, consumed: nat, ghost parse: bytes -> ParseResult, ghost log: seq<Cmd>)
      requires Valid() && verdict.More? && inRing.Contents() == [] && IsParser(parse)
      requires Contributes(parse, chunk, [], Command(args, consumed)) && closed == HasQuit(Executed(args))
      requires executed == log + Executed(args)
      modifies this, inRing, inRing.buf
      ensures Valid() && (inRing.buf == old(inRing.buf) || fresh(inRing.buf))
      ensures Did(parse, chunk, log, false)
    {
      RestOfChunk(parse, chunk, args, consumed, log);
      DrainSlice(chunk[consumed..], parse);
    }

    /** The fast path: parse straight from the read buffer. */
    method HandleChunk(chunk: bytes, ghost parse: bytes -> ParseResult)
      requires Valid() && !closed && verdict.More? && inRing.Contents() == [] && IsParser(parse)
      modifies this, inRing, inRing.buf
      ensures Valid() && (inRing.buf == old(inRing.buf) || fresh(inRing.buf))
      ensures Did(parse, chunk, old(executed), false)
    {
      var r := NextCommand(chunk, parse, []);
      assert [] + Drain(parse, chunk).cmds == Drain(parse, chunk).cmds;
      match r {
        case ProtocolError =>
          Fail(r);
        case Panic =>
          Fail(r);
        case Command(args, consumed) =>
          ExecuteCommand(args);
          HandleRest(chunk, args, consumed, parse, old(executed));
        case Incomplete =>
          var _ := inRing.Write(chunk);
          assert inRing.Contents() == chunk;
          DrainRing(parse);
      }
    }

    /** One read event. */
    method HandleReadWith(input: seq<ReadResult>, size: nat, ghost parse: bytes -> ParseResult) returns (used: nat)
      requires Valid() && !closed && verdict.More? && IsParser(parse)
      modifies this, inRing, inRing.buf
      ensures Valid() && (inRing.buf == old(inRing.buf) || fresh(inRing.buf))
      ensures View() == Step(parse, old(View()), input, size) && used == Used(old(View()), input, size)
    {
      if inRing.IsEmpty() {
        if input == [] {
          return 0;
        }
        used := 1;
        match input[0] {
          case WouldBlock =>
          case Closed =>
            closed := true;
          case Data(chunk) =>
            assert [] + chunk == chunk;
            HandleChunk(chunk, parse);
        }
      } else {
        var alive;
        used, alive := ReadAll(input, size);
        if alive {
          DrainRing(parse);
        } else {
          closed := true;
        }
      }
    }

    method HandleRead(input: seq<ReadResult>, size: nat) returns (used: nat)
      requires Valid() && !closed && verdict.More?
      modifies this, inRing, inRing.buf
      ensures Valid() && (inRing.buf == old(inRing.buf) || fresh(inRing.buf))
      ensures View() == Step(Parse, old(View()), input, size)
      ensures used == Used(old(View()), input, size)
    {
      used := HandleReadWith(input, size, Parse);
    }
  }
}

