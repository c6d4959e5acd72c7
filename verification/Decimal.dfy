/** Decimal numbers in text, as Go's strconv reads and prints them. */
module Decimal {
  import opened Bytes

  predicate AllDigits(s: bytes) { forall i | 0 <= i < |s| :: IsDigit(s[i]) }

  function Print(n: nat): (s: bytes)
    ensures s != [] && AllDigits(s)
  {
    if n < 10 then [(48 + n) as byte] else Print(n / 10) + [(48 + n % 10) as byte]
  }

  function PrintInt(n: int): (s: bytes)
    ensures s != [] && forall i | 0 <= i < |s| :: IsDigit(s[i]) || s[i] == MINUS
  {
    if n < 0 then [MINUS] + Print(-n) else Print(n)
  }

  function Number(s: bytes): nat
    requires AllDigits(s)
  {
    if s == [] then 0 else Number(s[..|s| - 1]) * 10 + (s[|s| - 1] - 48) as nat
  }

  /** `strconv.ParseUint(s, 10, 64)`. */
  function ParseUint(s: bytes): Option<nat> {
    if s == [] || !AllDigits(s) || Number(s) >= TWO_64 then None else Some(Number(s))
  }

  /** `strconv.ParseInt(s, 10, 64)`. */
  function ParseInt(s: bytes): Option<int> {
    if s == [] then None
    else
      var negative := s[0] == MINUS;
      match ParseUint(if negative || s[0] == 43 then s[1..] else s)
      case None => None
      case Some(n) =>
        var signed := if negative then 0 - n as int else n as int;
        if -TWO_63 <= signed < TWO_63 then Some(signed) else None
  }

  lemma {:induction false} NumberOfPrint(n: nat)
    ensures Number(Print(n)) == n
  {
    if n >= 10 {
      NumberOfPrint(n / 10);
      var s := Print(n);
      assert s[..|s| - 1] == Print(n / 10);
    } else {
      assert Print(n)[..0] == [];
    }
  }

  lemma ParsePrint(n: nat)
    requires n < TWO_64
    ensures ParseUint(Print(n)) == Some(n)
  {
    NumberOfPrint(n);
  }

  lemma ParsePrintInt(n: int)
    requires -TWO_63 <= n < TWO_63
    ensures ParseInt(PrintInt(n)) == Some(n)
  {
    if n < 0 {
      ParsePrint(-n);
      assert PrintInt(n)[1..] == Print(-n);
    } else {
      ParsePrint(n);
      assert IsDigit(Print(n)[0]);
    }
  }

  /** A plus sign is allowed, and nothing outside the range of the type is read. */
  lemma ParseLimits(n: nat, s: bytes)
    requires n < TWO_63
    ensures ParseInt([43] + Print(n)) == Some(n)
    ensures ParseUint(s).Some? ==> ParseUint(s).value < TWO_64
    ensures ParseInt(s).Some? ==> -TWO_63 <= ParseInt(s).value < TWO_63
  {
    ParsePrint(n);
    assert ([43] + Print(n))[1..] == Print(n);
  }

  function Power10(k: nat): (p: nat)
    ensures p > 0
  {
    if k == 0 then 1 else 10 * Power10(k - 1)
  }

  lemma {:induction false} PrintIsShort(n: nat, k: nat)
    requires n < Power10(k) && k > 0
    ensures |Print(n)| <= k && LF !in Print(n)
  {
    if n >= 10 { PrintIsShort(n / 10, k - 1); }
  }
}

