/** Decimal text of integers: `str(int)`, `FormatInt(i, 10)`, `String(n)`, `bigint.toString()`. */
module Decimal {
  import opened Outcome

  predicate IsDigit(c: char) {
    '0' <= c <= '9'
  }

  function DigitChar(d: nat): (c: char)
    requires d < 10
  {
    '0' + d as char
  }

  function DigitValue(c: char): nat
    requires IsDigit(c)
  {
    (c - '0') as nat
  }

  function OfNat(n: nat): (s: string)
    ensures s != "" && forall i :: 0 <= i < |s| ==> IsDigit(s[i])
  {
    if n < 10 then [DigitChar(n)] else OfNat(n / 10) + [DigitChar(n % 10)]
  }

  function OfInt(n: int): (s: string)
    ensures s != "" && (s[0] == '-' || IsDigit(s[0]))
    ensures forall i :: 0 < i < |s| ==> IsDigit(s[i])
  {
    if n < 0 then "-" + OfNat(-n) else OfNat(n)
  }

  function ToNat(s: string): Option<nat> {
    if s == "" then None
    else if !IsDigit(s[|s| - 1]) then None
    else if |s| == 1 then Some(DigitValue(s[0]))
    else match ToNat(s[..|s| - 1])
      case None => None
      case Some(n) => Some(10 * n + DigitValue(s[|s| - 1]))
  }

  function ToInt(s: string): Option<int> {
    if s != "" && s[0] == '-' then
      match ToNat(s[1..])
      case None => None
      case Some(n) => Some(-(n as int))
    else
      match ToNat(s)
      case None => None
      case Some(n) => Some(n)
  }

  lemma {:induction false} NatRoundTrip(n: nat)
    ensures ToNat(OfNat(n)) == Some(n)
  {
    if n >= 10 {
      NatRoundTrip(n / 10);
      var s := OfNat(n);
      assert s[..|s| - 1] == OfNat(n / 10);
    }
  }

  lemma IntRoundTrip(n: int)
    ensures ToInt(OfInt(n)) == Some(n)
  {
    if n < 0 {
      NatRoundTrip(-n);
      assert OfInt(n)[1..] == OfNat(-n);
    } else {
      NatRoundTrip(n);
    }
  }

  /** There is no leading zero. */
  lemma {:induction false} NoLeadingZero(n: nat)
    ensures OfNat(n)[0] == '0' <==> n == 0
    ensures n == 0 ==> OfNat(n) == "0"
  {
    if n >= 10 { NoLeadingZero(n / 10); }
  }

  /** The sign is a minus, and only negative integers have one. */
  lemma SignOfInt(n: int)
    ensures OfInt(n)[0] == '-' <==> n < 0
    ensures n < 0 ==> OfInt(n)[1..] == OfInt(-n)
  {
  }

  predicate AllDigits(s: string) {
    s != "" && forall i :: 0 <= i < |s| ==> '0' <= s[i] <= '9'
  }

  /** Exactly the non-empty strings of digits are read, and leading zeros do not count. */
  lemma {:induction false} ToNatIff(s: string)
    ensures ToNat(s).Some? <==> AllDigits(s)
    ensures AllDigits(s) ==> ToNat("0" + s) == ToNat(s)
  {
    if s != "" {
      var init := s[..|s| - 1];
      assert s == init + [s[|s| - 1]];
      assert ("0" + s)[..|s|] == "0" + init;
      ToNatIff(init);
    }
  }

  /** Without a leading zero the text read is the text the number is printed as. */
  lemma {:induction false} PrintedAsRead(s: string)
    requires AllDigits(s) && (s[0] != '0' || s == "0")
    ensures ToNat(s).Some? && OfNat(ToNat(s).value) == s
  {
    if |s| > 1 {
      var init := s[..|s| - 1];
      PrintedAsRead(init);
      var n := ToNat(init).value;
      NoLeadingZero(n);
      assert n > 0 && (10 * n + DigitValue(s[|s| - 1])) / 10 == n;
      assert s == init + [s[|s| - 1]];
    }
  }

  lemma OfIntInjective(m: int, n: int)
    requires OfInt(m) == OfInt(n)
    ensures m == n
  {
    IntRoundTrip(m);
    IntRoundTrip(n);
  }
}
