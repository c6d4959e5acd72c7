/** Bounds that are no stream IDs are compared as text: which of them still separate lower from higher IDs. */
module OddBounds {
  import opened Bytes
  import opened Decimal
  import opened StreamIds

  // ---------------------------------------------------------------------------
  // The order of texts.
  // ---------------------------------------------------------------------------

  lemma {:induction false} TextTransitive(a: bytes, b: bytes, c: bytes)
    requires TextLess(a, b) && TextLess(b, c)
    ensures TextLess(a, c)
  {
    if a != [] && a[0] == b[0] == c[0] { TextTransitive(a[1..], b[1..], c[1..]); }
  }

  lemma {:induction false} TextTotal(a: bytes, b: bytes)
    ensures a == b || TextLess(a, b) || TextLess(b, a)
  {
    if a != [] && b != [] && a[0] == b[0] {
      TextTotal(a[1..], b[1..]);
      assert a == [a[0]] + a[1..] && b == [b[0]] + b[1..];
    }
  }

  lemma {:induction false} TextAsymmetric(a: bytes, b: bytes)
    requires TextLess(a, b)
    ensures !TextLess(b, a)
  {
    if a != [] && a[0] == b[0] { TextAsymmetric(a[1..], b[1..]); }
  }

  lemma {:induction false} TextPrefix(p: bytes, a: bytes, b: bytes)
    ensures TextLess(p + a, p + b) <==> TextLess(a, b)
  {
    if p == [] {
      assert p + a == a && p + b == b;
    } else {
      assert (p + a)[1..] == p[1..] + a && (p + b)[1..] == p[1..] + b;
      TextPrefix(p[1..], a, b);
    }
  }

  /** Not before b in the order of texts, so what is below b is below a. */
  lemma Below(t: bytes, a: bytes, b: bytes)
    requires TextLess(t, b) && !TextLess(a, b)
    ensures TextLess(t, a)
  {
    TextTotal(a, b);
    if TextLess(b, a) { TextTransitive(t, b, a); }
  }

  lemma Beyond(a: bytes, b: bytes, t: bytes)
    requires TextLess(b, t) && !TextLess(b, a)
    ensures TextLess(a, t)
  {
    TextTotal(a, b);
    if TextLess(a, b) { TextTransitive(a, b, t); }
  }

  // ---------------------------------------------------------------------------
  // Numbers as text.
  // ---------------------------------------------------------------------------

  /** Nineteen nines: as text, no 64-bit number is greater. */
  const TOP: nat := 9_999_999_999_999_999_999

  function Nines(k: nat): (s: bytes)
    ensures |s| == k && forall i | 0 <= i < k :: s[i] == 57
  {
    seq(k, _ => 57)
  }

  lemma PowersOfTen()
    ensures Power10(19) == TOP + 1 && Power10(20) > TWO_64 && 2 * Power10(19) > TWO_64
  {
    assert Power10(5) == 100000;
    assert Power10(10) == 100000 * Power10(5);
    assert Power10(15) == 100000 * Power10(10);
    assert Power10(19) == 10000 * Power10(15);
    assert Power10(20) == 10 * Power10(19);
  }

  lemma {:induction false} PrintNines(k: nat)
    requires k > 0
    ensures Print(Power10(k) - 1) == Nines(k)
  {
    if k == 1 {
      assert Power10(1) == 10 && Power10(0) == 1;
    } else {
      var n := Power10(k) - 1;
      assert n / 10 == Power10(k - 1) - 1 && n % 10 == 9 && n >= 10;
      PrintNines(k - 1);
      assert Nines(k) == Nines(k - 1) + [57];
    }
  }

  /** A number that needs all its digits, and begins with a one. */
  lemma {:induction false} LeadingOne(n: nat, k: nat)
    requires Power10(k) <= n < 2 * Power10(k)
    ensures Print(n)[0] == 49
  {
    if k > 0 { LeadingOne(n / 10, k - 1); }
  }

  lemma {:induction false} NoLeadingZero(n: nat)
    requires n > 0
    ensures Print(n)[0] != 48
  {
    if n >= 10 { NoLeadingZero(n / 10); }
  }

  lemma NotBeforeZero(s: bytes)
    requires s != [] && IsDigit(s[0])
    ensures !TextLess(s, [48])
  {
    var zero: bytes := [48];
    assert zero[1..] == [];
  }

  /** Two digits at least, and no leading zero. */
  lemma FromTen(n: nat)
    requires n >= 10
    ensures |Print(n)| >= 2 && Print(n)[0] >= 49 && !TextLess(Print(n), [49, 48])
  {
    var s := Print(n);
    NoLeadingZero(n);
    assert |s| == |Print(n / 10)| + 1 && IsDigit(s[0]) && IsDigit(s[1]);
    var ten: bytes := [49, 48];
    assert s[1..][0] == s[1];
    NotBeforeZero(s[1..]);
    assert ten[1..] == [48];
  }

  /** Digits, no more than k of them, then a dash: not after k nines and a dash, unless what follows is. */
  lemma {:induction false} NotAfterNines(k: nat, s: bytes, a: bytes, b: bytes)
    requires AllDigits(s) && |s| <= k && !TextLess(a, b)
    ensures !TextLess(Nines(k) + [MINUS] + a, s + [MINUS] + b)
  {
    var x, y := Nines(k) + [MINUS] + a, s + [MINUS] + b;
    if s == [] {
      assert y[0] == MINUS;
      if k == 0 { assert x[1..] == a && y[1..] == b; } else { assert x[0] == 57; }
    } else {
      assert x[0] == 57 && y[0] == s[0] && IsDigit(s[0]);
      assert Nines(k)[1..] == Nines(k - 1);
      assert x[1..] == Nines(k - 1) + [MINUS] + a && y[1..] == s[1..] + [MINUS] + b;
      NotAfterNines(k - 1, s[1..], a, b);
    }
  }

  lemma {:induction false} DigitsNotAfter(k: nat, s: bytes)
    requires AllDigits(s) && |s| <= k
    ensures !TextLess(Nines(k), s)
  {
    if s != [] {
      assert IsDigit(s[0]) && Nines(k)[1..] == Nines(k - 1);
      DigitsNotAfter(k - 1, s[1..]);
    }
  }

  /** A 64-bit number has nineteen digits at most, or begins with a one. */
  lemma Short(n: uint64)
    ensures |Print(n)| <= 19 || Print(n)[0] == 49
  {
    PowersOfTen();
    if n < Power10(19) { PrintIsShort(n, 19); } else { LeadingOne(n, 19); }
  }

  lemma TopIsNines()
    ensures Print(TOP) == Nines(19)
  {
    PowersOfTen();
    PrintNines(19);
  }

  lemma NumberNotAfter(n: uint64)
    ensures !TextLess(Print(TOP), Print(n))
  {
    TopIsNines();
    Short(n);
    if |Print(n)| <= 19 { DigitsNotAfter(19, Print(n)); }
  }

  // ---------------------------------------------------------------------------
  // IDs as text.
  // ---------------------------------------------------------------------------

  function Id(m: uint64, n: uint64): StreamId { StreamId(m, n) }

  /** As text, no ID is after this one. */
  lemma LastOfAll(id: StreamId)
    ensures !TextLess(Text(Id(TOP, TOP)), Text(id))
  {
    TopIsNines();
    NumberNotAfter(id.seqNo);
    Short(id.millis);
    var s := Print(id.millis);
    if |s| <= 19 {
      NotAfterNines(19, s, Print(TOP), Print(id.seqNo));
    } else {
      assert Text(id)[0] == s[0] && Text(Id(TOP, TOP))[0] == 57;
    }
  }

  /** Within a millisecond, this one is the last. */
  lemma LastOfMilli(id: StreamId)
    ensures !TextLess(Text(Id(id.millis, TOP)), Text(id))
  {
    NumberNotAfter(id.seqNo);
    TextPrefix(Print(id.millis) + [MINUS], Print(TOP), Print(id.seqNo));
  }

  /** From the third millisecond on no ID is, as text, before 10-0. */
  lemma NotBeforeTen(id: StreamId)
    requires id.millis >= 2
    ensures !TextLess(Text(id), Text(Id(10, 0)))
  {
    var s, t := Text(id), Text(Id(10, 0));
    TenIsText();
    var m := Print(id.millis);
    NoLeadingZero(id.millis);
    assert s[0] == m[0] && IsDigit(m[0]);
    if id.millis >= 10 {
      FromTen(id.millis);
      assert s[1] == m[1] && IsDigit(m[1]);
      if m[0] == 49 && m[1] == 48 {
        AfterTen(id, m);
      } else {
        FirstTwo(s, t);
      }
    } else {
      assert m == [(48 + id.millis) as byte];
    }
  }

  lemma TenIsText()
    ensures Print(10) == [49, 48] && Text(Id(10, 0)) == [49, 48, MINUS, 48]
  {
    assert Print(10) == Print(1) + [48];
  }

  /** Decided by the first two bytes. */
  lemma FirstTwo(s: bytes, t: bytes)
    requires |s| >= 2 && |t| >= 2 && (s[0] > t[0] || (s[0] == t[0] && s[1] > t[1]))
    ensures !TextLess(s, t)
  {
    assert s[1..][0] == s[1] && t[1..][0] == t[1];
  }

  lemma AfterTen(id: StreamId, m: bytes)
    requires m == Print(id.millis) && |m| >= 2 && m[..2] == [49, 48]
    ensures !TextLess(Text(id), Text(Id(10, 0)))
  {
    var tail := m[2..] + [MINUS] + Print(id.seqNo);
    TenIsText();
    var rest: bytes := [MINUS, 48];
    assert Text(id) == [49, 48] + tail && Text(Id(10, 0)) == [49, 48] + rest;
    TextPrefix([49, 48], tail, rest);
    if m[2..] != [] {
      assert tail[0] == m[2] && IsDigit(m[2]);
    } else {
      assert tail[0] == MINUS && tail[1..] == Print(id.seqNo) && rest[1..] == [48];
      NotBeforeZero(Print(id.seqNo));
    }
  }

  /** A text of the first two milliseconds is before every text of a later one. */
  lemma FirstMillis(b: StreamId, a: StreamId)
    requires b.millis < a.millis && b.millis <= 1
    ensures TextLess(Text(b), Text(a))
  {
    NoLeadingZero(a.millis);
    assert Text(b)[0] == Print(b.millis)[0] == (48 + b.millis) as byte && Text(a)[0] == Print(a.millis)[0];
    if b.millis == 1 {
      NotBeforeTen(a);
      TenIsText();
      assert Text(b)[1..][0] == MINUS && Text(Id(10, 0))[1..][0] == 48;
      Below(Text(b), Text(a), Text(Id(10, 0)));
    } else {
      assert IsDigit(Print(a.millis)[0]);
    }
  }

  lemma SameMilli(m: uint64, a: uint64, b: uint64)
    ensures TextLess(Text(Id(m, a)), Text(Id(m, b))) <==> TextLess(Print(a), Print(b))
  {
    TextPrefix(Print(m) + [MINUS], Print(a), Print(b));
  }

  // ---------------------------------------------------------------------------
  // Which texts separate.
  // ---------------------------------------------------------------------------

  /** As text, t lies between the two IDs. */
  predicate Among(t: bytes, a: StreamId, b: StreamId) { TextLess(Text(a), t) && TextLess(t, Text(b)) }

  /** The three stretches of texts in which the order of texts and that of IDs disagree. */
  predicate Confuses(t: bytes) {
    || Among(t, Id(0, 10), Id(0, TOP))
    || Among(t, Id(1, 10), Id(1, TOP))
    || Among(t, Id(10, 0), Id(TOP, TOP))
  }

  /** A later ID whose text is nevertheless before that of an earlier one: t in between is in one of the three. */
  lemma InversionConfuses(t: bytes, a: StreamId, b: StreamId)
    requires Before(b, a) && TextLess(Text(a), t) && TextLess(t, Text(b))
    ensures Confuses(t)
  {
    TextTransitive(Text(a), t, Text(b));
    TextAsymmetric(Text(a), Text(b));
    if b.millis <= 1 && b.millis < a.millis {
      FirstMillis(b, a);
    } else if b.millis <= 1 {
      InversionInMilli(a.millis, a.seqNo, b.seqNo);
      Beyond(Text(Id(a.millis, 10)), Text(a), t);
      LastOfMilli(b);
      Below(t, Text(Id(b.millis, TOP)), Text(b));
    } else {
      NotBeforeTen(a);
      Beyond(Text(Id(10, 0)), Text(a), t);
      LastOfAll(b);
      Below(t, Text(Id(TOP, TOP)), Text(b));
    }
  }

  lemma InversionInMilli(m: uint64, a: uint64, b: uint64)
    requires b < a && TextLess(Text(Id(m, a)), Text(Id(m, b)))
    ensures !TextLess(Text(Id(m, a)), Text(Id(m, 10)))
  {
    SameMilli(m, a, b);
    SameMilli(m, a, 10);
    TenIsText();
    if a >= 10 { FromTen(a); }
  }

  /** In each stretch some ID is above t though a later one is below it. */
  ghost predicate Inverted(t: bytes) {
    exists a: StreamId, b: StreamId :: InvertedBy(t, a, b)
  }

  predicate InvertedBy(t: bytes, a: StreamId, b: StreamId) {
    Before(b, a) && TextLess(Text(a), t) && !TextLess(Text(b), t)
  }

  /** The first number after nineteen nines: as text it comes before 9. */
  lemma TopAndOne()
    ensures TOP + 1 < TWO_64 && Print(TOP + 1)[0] == 49 && Print(9) == [57]
  {
    PowersOfTen();
    LeadingOne(TOP + 1, 19);
  }

  lemma InvertedInMilli(t: bytes, m: uint64)
    requires TextLess(Text(Id(m, 9)), t) && !TextLess(Text(Id(m, TOP)), t)
    ensures Inverted(t)
  {
    TopAndOne();
    var a, b := Id(m, TOP + 1), Id(m, TOP);
    SameMilli(m, TOP + 1, 9);
    TextTransitive(Text(a), Text(Id(m, 9)), t);
    assert InvertedBy(t, a, b);
  }

  lemma InvertedAcross(t: bytes)
    requires TextLess(Text(Id(9, TOP)), t) && !TextLess(Text(Id(TOP, TOP)), t)
    ensures Inverted(t)
  {
    TopAndOne();
    var a, b := Id(TOP + 1, 0), Id(TOP, TOP);
    assert Text(a)[0] == Print(TOP + 1)[0] && Text(Id(9, TOP))[0] == 57;
    TextTransitive(Text(a), Text(Id(9, TOP)), t);
    assert InvertedBy(t, a, b);
  }

  lemma ConfusesInverts(t: bytes)
    requires Confuses(t)
    ensures Inverted(t)
  {
    if Among(t, Id(10, 0), Id(TOP, TOP)) {
      TextAsymmetric(t, Text(Id(TOP, TOP)));
      if TextLess(Text(Id(9, TOP)), t) { InvertedAcross(t); } else { assert InvertedBy(t, Id(10, 0), Id(9, TOP)); }
    } else {
      var m: uint64 := if Among(t, Id(0, 10), Id(0, TOP)) then 0 else 1;
      TextAsymmetric(t, Text(Id(m, TOP)));
      if TextLess(Text(Id(m, 9)), t) { InvertedInMilli(t, m); } else { assert InvertedBy(t, Id(m, 10), Id(m, 9)); }
    }
  }

  /** A text that is no ID separates the IDs exactly when it is in none of the three stretches. */
  lemma OddSeparatesIff(text: bytes)
    requires BoundOf(text).Odd?
    ensures Separates(BoundOf(text)) <==> !Confuses(text)
  {
    var c := BoundOf(text);
    if Confuses(text) {
      ConfusesInverts(text);
      var a, b :| InvertedBy(text, a, b);
      assert Compare(a, c) <= 0 && Compare(b, c) > 0;
    } else {
      forall a: StreamId, b: StreamId | Compare(a, c) <= 0 && Compare(b, c) > 0 ensures Before(a, b) {
        NeverText(b, text);
        TextTotal(Text(b), text);
        if !Before(a, b) && a != b { InversionConfuses(text, a, b); }
      }
    }
  }

  lemma NeverText(id: StreamId, text: bytes)
    requires BoundOf(text).Odd?
    ensures Text(id) != text
  {
    ParseText(id);
  }

  lemma DigitX(d: byte)
    requires IsDigit(d)
    ensures BoundOf([d, MINUS, 120]).Odd?
  {
    var c: bytes := [d, MINUS, 120];
    IndexSkips(c, 0, 1, MINUS);
    IndexSkips(c, 2, 3, MINUS);
    assert ParseUint(c[2..]).None? by { assert !IsDigit(c[2..][0]); }
  }

  /** The text 2-x does not separate: as text, 10-0 is below it and 9-0 is above it. */
  lemma OddBoundIsNoBound()
    ensures var c := BoundOf([50, MINUS, 120]);
      c.Odd? && Compare(StreamId(10, 0), c) < 0 < Compare(StreamId(9, 0), c) && !Separates(c)
  {
    DigitX(50);
    TenIsText();
    var c := BoundOf([50, MINUS, 120]);
    assert Print(9) == [57] && Text(StreamId(9, 0))[0] == 57 && Text(StreamId(10, 0))[0] == 49;
    assert !Before(StreamId(10, 0), StreamId(9, 0));
  }

  /** The text 0-x does: it is above all IDs of millisecond zero and below all others. */
  lemma OddBoundCanSeparate()
    ensures BoundOf([48, MINUS, 120]).Odd? && Separates(BoundOf([48, MINUS, 120]))
  {
    var t: bytes := [48, MINUS, 120];
    DigitX(48);
    TopIsNines();
    assert Text(Id(0, TOP)) == [48, MINUS] + Nines(19) && t == [48, MINUS] + [120];
    TextPrefix([48, MINUS], [120], Nines(19));
    assert Text(Id(1, 10))[0] == 49;
    TenIsText();
    OddSeparatesIff(t);
  }
}

