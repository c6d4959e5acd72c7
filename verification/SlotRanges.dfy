/** The slots of a node as text: ranges such as "0-5460 7000". */
module SlotRanges {
  import opened Bytes
  import opened Decimal
  import opened SlotTable
  import P = CommandParser

  // ---------------------------------------------------------------------------
  // Slots as ranges.
  // ---------------------------------------------------------------------------

  ghost predicate RisesAt(s: seq<nat>, i: int, j: int) { 0 <= i < j < |s| ==> s[i] < s[j] }

  ghost predicate Rising(s: seq<nat>) { forall i, j {:trigger RisesAt(s, i, j)} :: RisesAt(s, i, j) }

  /** The slots below n whose bit is set. */
  function Listed(bits: seq<bool>, n: nat): seq<nat>
    requires n <= |bits|
  {
    if n == 0 then [] else if bits[n - 1] then Listed(bits, n - 1) + [n - 1] else Listed(bits, n - 1)
  }

  lemma {:induction false} ListedRises(bits: seq<bool>, n: nat)
    requires n <= |bits|
    ensures Rising(Listed(bits, n)) && forall i | 0 <= i < |Listed(bits, n)| :: Listed(bits, n)[i] < n
  {
    if n > 0 {
      ListedRises(bits, n - 1);
      forall i, j ensures RisesAt(Listed(bits, n), i, j) { assert RisesAt(Listed(bits, n - 1), i, j); }
    }
  }

  method SlotsList(bits: seq<bool>) returns (slots: seq<nat>)
    requires |bits| == SLOTS
    ensures slots == Listed(bits, SLOTS)
  {
    slots := [];
    for i := 0 to SLOTS
      invariant slots == Listed(bits, i)
    {
      if bits[i] { slots := slots + [i]; }
    }
  }

  datatype Range = Range(first: nat, last: nat)

  /** The first n slots, grouped: a slot that follows the last range extends it. */
  function Grouped(s: seq<nat>, n: nat): (r: seq<Range>)
    requires n <= |s|
    ensures n > 0 ==> r != []
  {
    if n == 0 then []
    else if n == 1 then [Range(s[0], s[0])]
    else
      var r := Grouped(s, n - 1);
      var end := r[|r| - 1];
      if s[n - 1] == end.last + 1 then r[..|r| - 1] + [Range(end.first, s[n - 1])] else r + [Range(s[n - 1], s[n - 1])]
  }

  /** The loop keeps the range that is still open apart. */
  method SlotRangesOf(slots: seq<nat>) returns (ranges: seq<Range>)
    ensures ranges == Grouped(slots, |slots|)
  {
    if slots == [] { return []; }
    ranges := [];
    var start, prev := slots[0], slots[0];
    for i := 1 to |slots|
      invariant ranges + [Range(start, prev)] == Grouped(slots, i)
    {
      ghost var r := Grouped(slots, i);
      assert r[|r| - 1] == Range(start, prev) && r[..|r| - 1] == ranges;
      var curr := slots[i];
      if curr == prev + 1 {
        prev := curr;
      } else {
        ranges := ranges + [Range(start, prev)];
        start, prev := curr, curr;
      }
    }
    ranges := ranges + [Range(start, prev)];
  }

  function Run(r: Range): seq<nat> {
    if r.first <= r.last then seq(r.last - r.first + 1, i => r.first + i) else []
  }

  /** The slots of the first k ranges. */
  function Expanded(ranges: seq<Range>, k: nat): seq<nat>
    requires k <= |ranges|
  {
    if k == 0 then [] else Expanded(ranges, k - 1) + Run(ranges[k - 1])
  }

  lemma {:induction false} ExpandedPrefix(a: seq<Range>, b: seq<Range>, k: nat)
    requires k <= |a| && k <= |b| && a[..k] == b[..k]
    ensures Expanded(a, k) == Expanded(b, k)
  {
    if k > 0 {
      assert a[..k - 1] == a[..k][..k - 1] && b[..k - 1] == b[..k][..k - 1];
      assert a[k - 1] == a[..k][k - 1] && b[k - 1] == b[..k][k - 1];
      ExpandedPrefix(a, b, k - 1);
    }
  }

  lemma RunGrows(a: nat, b: nat)
    requires a <= b
    ensures Run(Range(a, b + 1)) == Run(Range(a, b)) + [b + 1] && Run(Range(a, a)) == [a]
  {
  }

  /** The ranges hold exactly the slots, in order; no two touch. */
  ghost predicate Tight(ranges: seq<Range>) {
    && (forall k {:trigger Proper(ranges, k)} :: Proper(ranges, k))
    && (forall k {:trigger Gap(ranges, k)} :: Gap(ranges, k))
  }

  ghost predicate Proper(ranges: seq<Range>, k: int) { 0 <= k < |ranges| ==> ranges[k].first <= ranges[k].last }

  ghost predicate Gap(ranges: seq<Range>, k: int) { 0 <= k < |ranges| - 1 ==> ranges[k].last + 1 < ranges[k + 1].first }

  lemma {:induction false} GroupedIsTight(s: seq<nat>, n: nat)
    requires Rising(s) && n <= |s|
    ensures Tight(Grouped(s, n)) && (n > 0 ==> Grouped(s, n)[|Grouped(s, n)| - 1].last == s[n - 1])
  {
    if n > 1 {
      GroupedIsTight(s, n - 1);
      assert RisesAt(s, n - 2, n - 1);
      var r, r' := Grouped(s, n - 1), Grouped(s, n);
      forall k ensures Proper(r', k) { assert Proper(r, k); }
      forall k ensures Gap(r', k) { assert Gap(r, k); }
    }
  }

  lemma {:induction false} GroupedExpands(s: seq<nat>, n: nat)
    requires Rising(s) && n <= |s|
    ensures Expanded(Grouped(s, n), |Grouped(s, n)|) == s[..n]
  {
    if n == 1 {
      OneExpands(s[0]);
      assert s[..1] == [s[0]];
    } else if n > 1 {
      GroupedIsTight(s, n - 1);
      GroupedExpands(s, n - 1);
      GroupStep(s, n);
      assert s[..n] == s[..n - 1] + [s[n - 1]];
    }
  }

  lemma OneExpands(x: nat)
    ensures Expanded([Range(x, x)], 1) == [x]
  {
    RunGrows(x, x);
    assert Expanded([Range(x, x)], 0) == [];
  }

  /** Extending the last range, or adding one, adds one slot. */
  lemma LastExtends(r: seq<Range>, x: nat)
    requires r != [] && r[|r| - 1].first <= r[|r| - 1].last && x == r[|r| - 1].last + 1
    ensures var r' := r[..|r| - 1] + [Range(r[|r| - 1].first, x)]; Expanded(r', |r'|) == Expanded(r, |r|) + [x]
  {
    var k := |r| - 1;
    var r' := r[..k] + [Range(r[k].first, x)];
    ExpandedPrefix(r, r', k);
    RunGrows(r[k].first, r[k].last);
    Associates(Expanded(r, k), Run(r[k]), [x]);
  }

  lemma OneMoreRange(r: seq<Range>, x: nat)
    ensures Expanded(r + [Range(x, x)], |r| + 1) == Expanded(r, |r|) + [x]
  {
    ExpandedPrefix(r, r + [Range(x, x)], |r|);
    RunGrows(x, x);
  }

  lemma GroupStep(s: seq<nat>, n: nat)
    requires 1 < n <= |s| && Tight(Grouped(s, n - 1))
    ensures Expanded(Grouped(s, n), |Grouped(s, n)|) == Expanded(Grouped(s, n - 1), |Grouped(s, n - 1)|) + [s[n - 1]]
  {
    var r := Grouped(s, n - 1);
    assert Proper(r, |r| - 1);
    if s[n - 1] == r[|r| - 1].last + 1 {
      LastExtends(r, s[n - 1]);
    } else {
      OneMoreRange(r, s[n - 1]);
    }
  }

  // ---------------------------------------------------------------------------
  // Ranges as text.
  // ---------------------------------------------------------------------------

  function Token(r: Range): (t: bytes)
    ensures t != [] && forall i | 0 <= i < |t| :: IsDigit(t[i]) || t[i] == MINUS
  {
    if r.first == r.last then Print(r.first) else Print(r.first) + [MINUS] + Print(r.last)
  }

  /** `strings.Join(tokens, " ")`. */
  function Join(tokens: seq<bytes>): bytes {
    if tokens == [] then [] else if |tokens| == 1 then tokens[0] else tokens[0] + [SPACE] + Join(tokens[1..])
  }

  function Tokens(ranges: seq<Range>): (r: seq<bytes>)
    ensures |r| == |ranges|
  {
    seq(|ranges|, i requires 0 <= i < |ranges| => Token(ranges[i]))
  }

  /** Where the digits that begin at i end. */
  function DigitsEnd(t: bytes, i: nat): (e: nat)
    requires i <= |t|
    ensures i <= e <= |t| && AllDigits(t[i..e]) && (e < |t| ==> !IsDigit(t[e]))
    decreases |t| - i
  {
    if i < |t| && IsDigit(t[i]) then
      var e := DigitsEnd(t, i + 1);
      assert t[i..e] == [t[i]] + t[i + 1..e];
      e
    else i
  }

  /** `Sscanf` of one `%d` into sixteen bits: as many digits as there are, and where they end. */
  function ScanUint16(t: bytes, i: nat): Option<(nat, nat)>
    requires i <= |t|
  {
    var e := DigitsEnd(t, i);
    if e == i || Number(t[i..e]) >= 65536 then None else Some((Number(t[i..e]), e))
  }

  /** One slot, or a range from low to high; what follows the digits does not matter. */
  function ParseToken(t: bytes): Option<Range> {
    match ScanUint16(t, 0)
    case None => None
    case Some((a, e)) =>
      if MINUS !in t then (if a >= SLOTS then None else Some(Range(a, a)))
      else if e == |t| || t[e] != MINUS then None
      else
        match ScanUint16(t, e + 1)
        case None => None
        case Some((b, _)) => if a > b || b >= SLOTS then None else Some(Range(a, b))
  }

  /** A token that is accepted is a range of slots; a slot that does not exist is refused. */
  lemma TokenInRange(t: bytes)
    ensures ParseToken(t).Some? ==> ParseToken(t).value.first <= ParseToken(t).value.last < SLOTS
    ensures ParseToken(t).Some? && MINUS in t ==> DigitsEnd(t, 0) < |t| && t[DigitsEnd(t, 0)] == MINUS
  {
  }

  function ParseTokens(tokens: seq<bytes>): Option<seq<Range>> {
    if tokens == [] then Some([])
    else
      match ParseToken(tokens[0])
      case None => None
      case Some(r) =>
        match ParseTokens(tokens[1..])
        case None => None
        case Some(more) => Some([r] + more)
  }

  /** `sort.Slice` of the slots. */
  function Insert(s: seq<nat>, x: nat): seq<nat> {
    if s == [] || x < s[0] then [x] + s else [s[0]] + Insert(s[1..], x)
  }

  function Sorted(s: seq<nat>): seq<nat> {
    if s == [] then [] else Insert(Sorted(s[..|s| - 1]), s[|s| - 1])
  }

  function ParseSlotRanges(spec: bytes): Option<seq<nat>> {
    match ParseTokens(P.Fields(spec))
    case None => None
    case Some(ranges) => Some(Sorted(Expanded(ranges, |ranges|)))
  }

  function RangesText(slots: seq<nat>): bytes { Join(Tokens(Grouped(slots, |slots|))) }

  lemma {:induction false} InsertSorts(s: seq<nat>, x: nat)
    requires forall i, j | 0 <= i < j < |s| :: s[i] <= s[j]
    ensures var r := Insert(s, x);
      && multiset(r) == multiset(s) + multiset{x} && (forall i, j | 0 <= i < j < |r| :: r[i] <= r[j])
      && r != [] && (s != [] ==> r[0] == if x < s[0] then x else s[0])
  {
    if s != [] && x >= s[0] {
      var rest := Insert(s[1..], x);
      InsertSorts(s[1..], x);
      assert s == [s[0]] + s[1..];
      assert forall j | 0 <= j < |rest| :: rest[0] <= rest[j];
    }
  }

  /** Whatever order the ranges are in, the slots come out in ascending order, each as often as it was named. */
  lemma {:induction false} SortedSorts(s: seq<nat>)
    ensures multiset(Sorted(s)) == multiset(s)
    ensures forall i, j | 0 <= i < j < |Sorted(s)| :: Sorted(s)[i] <= Sorted(s)[j]
  {
    if s != [] {
      var front := s[..|s| - 1];
      SortedSorts(front);
      InsertSorts(Sorted(front), s[|s| - 1]);
      assert s == front + [s[|s| - 1]];
    }
  }

  lemma {:induction false} SortedKeeps(s: seq<nat>)
    requires Rising(s)
    ensures Sorted(s) == s
  {
    if s != [] {
      var front := s[..|s| - 1];
      forall i, j ensures RisesAt(front, i, j) { assert RisesAt(s, i, j); }
      SortedKeeps(front);
      forall i | 0 <= i < |front| ensures front[i] < s[|s| - 1] { assert RisesAt(s, i, |s| - 1); }
      InsertLast(front, s[|s| - 1]);
      assert s == front + [s[|s| - 1]];
    }
  }

  lemma {:induction false} InsertLast(s: seq<nat>, x: nat)
    requires forall i | 0 <= i < |s| :: s[i] < x
    ensures Insert(s, x) == s + [x]
  {
    if s != [] {
      InsertLast(s[1..], x);
      assert [s[0]] + (s[1..] + [x]) == s + [x];
    }
  }

  lemma {:induction false} DigitsEndAt(t: bytes, i: nat, e: nat)
    requires i <= e <= |t| && (forall j | i <= j < e :: IsDigit(t[j])) && (e < |t| ==> !IsDigit(t[e]))
    ensures DigitsEnd(t, i) == e
    decreases e - i
  {
    if i < e { DigitsEndAt(t, i + 1, e); }
  }

  /** A printed number is scanned back up to whatever ends it. */
  lemma ScanPrint(t: bytes, i: nat, n: nat)
    requires n < 65536 && i + |Print(n)| <= |t| && t[i..i + |Print(n)|] == Print(n)
    requires i + |Print(n)| < |t| ==> !IsDigit(t[i + |Print(n)|])
    ensures ScanUint16(t, i) == Some((n, i + |Print(n)|))
  {
    var e := i + |Print(n)|;
    forall j | i <= j < e ensures IsDigit(t[j]) { assert t[j] == t[i..e][j - i] && IsDigit(Print(n)[j - i]); }
    DigitsEndAt(t, i, e);
    NumberOfPrint(n);
  }

  lemma PairScans(a: bytes, b: bytes, m: nat, n: nat)
    requires a == Print(m) && b == Print(n) && m < 65536 && n < 65536
    ensures var t := a + [MINUS] + b;
      ScanUint16(t, 0) == Some((m, |a|)) && t[|a|] == MINUS && ScanUint16(t, |a| + 1) == Some((n, |t|))
  {
    var t := a + [MINUS] + b;
    assert t[0..|a|] == a && t[|a|] == MINUS && t[|a| + 1..|a| + 1 + |b|] == b;
    ScanPrint(t, 0, m);
    ScanPrint(t, |a| + 1, n);
  }

  lemma TokenReadsBack(r: Range)
    requires r.first <= r.last < SLOTS
    ensures ParseToken(Token(r)) == Some(r)
  {
    var a := Print(r.first);
    if r.first == r.last {
      assert a[0..|a|] == a;
      ScanPrint(a, 0, r.first);
      NoMinus(a);
    } else {
      PairScans(a, Print(r.last), r.first, r.last);
    }
  }

  /** Of two numbers a range is accepted exactly when they are in order and the second is a slot. */
  lemma PairIff(m: nat, n: nat)
    requires m < 65536 && n < 65536
    ensures ParseToken(Print(m) + [MINUS] + Print(n)) == if m <= n < SLOTS then Some(Range(m, n)) else None
  {
    PairScans(Print(m), Print(n), m, n);
    assert (Print(m) + [MINUS] + Print(n))[|Print(m)|] == MINUS;
  }

  lemma NoMinus(a: bytes)
    requires AllDigits(a)
    ensures MINUS !in a
  {
  }

  lemma {:induction false} TokensReadBack(ranges: seq<Range>)
    requires forall k | 0 <= k < |ranges| :: ranges[k].first <= ranges[k].last < SLOTS
    ensures ParseTokens(Tokens(ranges)) == Some(ranges)
  {
    if ranges != [] {
      TokenReadsBack(ranges[0]);
      TokensReadBack(ranges[1..]);
      FirstToken(Token(ranges[0]), Tokens(ranges[1..]), ranges[0], ranges[1..]);
      TokensSplit(ranges);
    }
  }

  lemma TokensSplit(ranges: seq<Range>)
    requires ranges != []
    ensures Tokens(ranges) == [Token(ranges[0])] + Tokens(ranges[1..]) && ranges == [ranges[0]] + ranges[1..]
  {
  }

  lemma FirstToken(t: bytes, rest: seq<bytes>, r: Range, more: seq<Range>)
    requires ParseToken(t) == Some(r) && ParseTokens(rest) == Some(more)
    ensures ParseTokens([t] + rest) == Some([r] + more)
  {
    assert ([t] + rest)[1..] == rest;
  }

  ghost predicate Word(t: bytes) { t != [] && forall i | 0 <= i < |t| :: !P.IsSpace(t[i]) }

  lemma {:induction false} FieldEnds(t: bytes, rest: bytes)
    requires (forall i | 0 <= i < |t| :: !P.IsSpace(t[i])) && (rest == [] || P.IsSpace(rest[0]))
    ensures P.FieldLength(t + rest) == |t|
  {
    if t == [] {
      assert t + rest == rest;
    } else {
      assert (t + rest)[1..] == t[1..] + rest;
      FieldEnds(t[1..], rest);
    }
  }

  lemma {:induction false} FieldsOfJoin(tokens: seq<bytes>)
    requires forall i | 0 <= i < |tokens| :: Word(tokens[i])
    ensures P.Fields(Join(tokens)) == tokens
  {
    if tokens != [] {
      var t := tokens[0];
      assert Word(t) && !P.IsSpace(t[0]);
      if |tokens| == 1 {
        FieldEnds(t, []);
        assert t + [] == t && t[..|t|] == t && t[|t|..] == [] && tokens == [t];
      } else {
        var rest := [SPACE] + Join(tokens[1..]);
        assert t + [SPACE] + Join(tokens[1..]) == t + rest;
        FieldEnds(t, rest);
        assert (t + rest)[..|t|] == t && (t + rest)[|t|..] == rest && rest[1..] == Join(tokens[1..]);
        FieldsOfJoin(tokens[1..]);
        assert tokens == [t] + tokens[1..];
      }
    }
  }

  /** Parsing inverts printing, for every set of slots. */
  lemma RangesReadBack(bits: seq<bool>)
    requires |bits| == SLOTS
    ensures ParseSlotRanges(RangesText(Listed(bits, SLOTS))) == Some(Listed(bits, SLOTS))
  {
    var slots := Listed(bits, SLOTS);
    ListedRises(bits, SLOTS);
    var ranges := Grouped(slots, |slots|);
    GroupedIsTight(slots, |slots|);
    GroupedExpands(slots, |slots|);
    RangesWithin(slots, |slots|);
    assert slots[..|slots|] == slots;
    forall i | 0 <= i < |ranges| ensures Word(Tokens(ranges)[i]) { TokenIsWord(ranges[i]); }
    FieldsOfJoin(Tokens(ranges));
    TokensReadBack(ranges);
    SortedKeeps(slots);
  }

  lemma TokenIsWord(r: Range)
    ensures Word(Token(r))
  {
  }

  lemma {:induction false} RangesWithin(s: seq<nat>, n: nat)
    requires n <= |s| && Rising(s) && forall i | 0 <= i < |s| :: s[i] < SLOTS
    ensures forall k | 0 <= k < |Grouped(s, n)| :: Grouped(s, n)[k].first <= Grouped(s, n)[k].last < SLOTS
  {
    if n > 1 { RangesWithin(s, n - 1); }
  }
}

