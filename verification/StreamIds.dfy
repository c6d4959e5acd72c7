/** Stream IDs: a millisecond time and a sequence number, kept and compared as text. */
module StreamIds {
  import opened Bytes
  import opened Decimal

  datatype StreamId = StreamId(millis: uint64, seqNo: uint64)

  predicate Before(a: StreamId, b: StreamId) {
    a.millis < b.millis || (a.millis == b.millis && a.seqNo < b.seqNo)
  }

  const LOWEST: bytes := [MINUS]
  const HIGHEST: bytes := [43]

  function Text(id: StreamId): bytes { Print(id.millis) + [MINUS] + Print(id.seqNo) }

  /** `strings.Split(id, "-")` gives one part, two, or more. */
  function ParseStreamID(id: bytes): Option<StreamId> {
    var d := IndexFrom(id, 0, MINUS);
    if d == |id| then
      match ParseUint(id)
      case None => None
      case Some(m) => Some(StreamId(m, 0))
    else if IndexFrom(id, d + 1, MINUS) < |id| then None
    else
      match ParseUint(id[..d])
      case None => None
      case Some(m) =>
        match ParseUint(id[d + 1..])
        case None => None
        case Some(n) => Some(StreamId(m, n))
  }

  /** `strings.Compare` is negative. */
  predicate TextLess(a: bytes, b: bytes) {
    b != [] && (a == [] || a[0] < b[0] || (a[0] == b[0] && TextLess(a[1..], b[1..])))
  }

  function CompareStreamIDs(a: bytes, b: bytes): int {
    if a == b then 0
    else if a == LOWEST || b == HIGHEST then -1
    else if a == HIGHEST || b == LOWEST then 1
    else
      match (ParseStreamID(a), ParseStreamID(b))
      case (Some(x), Some(y)) => if Before(x, y) then -1 else if Before(y, x) then 1 else 0
      case _ => if TextLess(a, b) then -1 else 1
  }

  lemma {:induction false} IndexSkips(s: bytes, p: nat, q: nat, b: byte)
    requires p <= q <= |s| && (forall j | p <= j < q :: s[j] != b) && (q == |s| || s[q] == b)
    ensures IndexFrom(s, p, b) == q
    decreases q - p
  {
    if p < q { IndexSkips(s, p + 1, q, b); }
  }

  lemma TextParts(m: bytes, n: bytes)
    requires AllDigits(m) && AllDigits(n)
    ensures var t := m + [MINUS] + n;
            IndexFrom(t, 0, MINUS) == |m| && IndexFrom(t, |m| + 1, MINUS) == |t| && t[..|m|] == m && t[|m| + 1..] == n
  {
    var t := m + [MINUS] + n;
    assert forall j | 0 <= j < |m| :: t[j] == m[j] && IsDigit(m[j]);
    assert forall j | |m| + 1 <= j < |t| :: t[j] == n[j - |m| - 1] && IsDigit(n[j - |m| - 1]);
    IndexSkips(t, 0, |m|, MINUS);
    IndexSkips(t, |m| + 1, |t|, MINUS);
  }

  /** Parsing inverts printing. */
  lemma ParseText(id: StreamId)
    ensures ParseStreamID(Text(id)) == Some(id)
  {
    TextParts(Print(id.millis), Print(id.seqNo));
    ParsePrint(id.millis);
    ParsePrint(id.seqNo);
  }

  /** A number alone stands for the first ID of that millisecond. */
  lemma ParseMillis(m: uint64)
    ensures ParseStreamID(Print(m)) == Some(StreamId(m, 0))
  {
    IndexSkips(Print(m), 0, |Print(m)|, MINUS);
    ParsePrint(m);
  }

  // ---------------------------------------------------------------------------
  // Where a text falls among the stream's own IDs.
  // ---------------------------------------------------------------------------

  /** A text that is no ID still compares, by bytes; Odd keeps which IDs it is above. */
  datatype Bound = Lowest | Highest | At(id: StreamId) | Odd(above: StreamId -> bool)

  function BoundOf(text: bytes): Bound {
    if text == LOWEST then Lowest
    else if text == HIGHEST then Highest
    else
      match ParseStreamID(text)
      case Some(id) => At(id)
      case None => Odd(id => TextLess(Text(id), text))
  }

  /** Negative, zero or positive as the ID is below, at or above the bound. */
  function Compare(id: StreamId, b: Bound): int {
    match b
    case Lowest => 1
    case Highest => -1
    case At(x) => if Before(id, x) then -1 else if Before(x, id) then 1 else 0
    case Odd(above) => if above(id) then -1 else 1
  }

  lemma TextIsNoBound(id: StreamId)
    ensures Text(id) != LOWEST && Text(id) != HIGHEST
  {
    assert IsDigit(Text(id)[0]) by { assert Text(id)[0] == Print(id.millis)[0]; }
  }

  lemma BoundOfText(id: StreamId)
    ensures BoundOf(Text(id)) == At(id)
  {
    ParseText(id);
    TextIsNoBound(id);
  }

  /** Comparing an ID of the stream with any text is comparing it with the bound. */
  lemma CompareText(id: StreamId, text: bytes)
    ensures CompareStreamIDs(Text(id), text) == Compare(id, BoundOf(text))
  {
    ParseText(id);
    TextIsNoBound(id);
  }

  /** On two of the stream's IDs it is the order of the pairs, and only equal texts compare equal. */
  lemma CompareTexts(a: StreamId, b: StreamId)
    ensures CompareStreamIDs(Text(a), Text(b)) < 0 <==> Before(a, b)
    ensures CompareStreamIDs(Text(a), Text(b)) == 0 <==> Text(a) == Text(b)
    ensures Text(a) == Text(b) <==> a == b
  {
    ParseText(a);
    ParseText(b);
    TextIsNoBound(a);
    TextIsNoBound(b);
  }

  /** IDs at or below the bound are before the IDs above it. */
  ghost predicate Separates(c: Bound) {
    forall a: StreamId, b: StreamId {:trigger Compare(a, c), Compare(b, c)} ::
      Compare(a, c) <= 0 && Compare(b, c) > 0 ==> Before(a, b)
  }

  /** A bound that is an ID, or one of the two ends, separates. */
  lemma IdSeparates(c: Bound)
    requires !c.Odd?
    ensures Separates(c)
  {
  }

  /** So does a separating bound the IDs below it from those at or above it. */
  lemma CompareAcross(a: StreamId, c: Bound, b: StreamId)
    requires Separates(c) && Compare(a, c) < 0 && Compare(b, c) >= 0
    ensures Before(a, b)
  {
    if c.Odd? { assert Compare(b, c) > 0; }
  }
}

