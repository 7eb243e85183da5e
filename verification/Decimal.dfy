/** Decimal numerals: printing, reading, and padding with zeros. */
module Decimal {
  predicate IsDigit(c: char) {
    '0' <= c <= '9'
  }

  ghost predicate AllDigits(s: string) {
    forall i :: 0 <= i < |s| ==> IsDigit(s[i])
  }

  function DigitValue(c: char): (d: nat)
    ensures d < 10
  {
    if IsDigit(c) then (c - '0') as nat else 0
  }

  function DigitChar(d: nat): (c: char)
    requires d < 10
    ensures IsDigit(c) && DigitValue(c) == d
  {
    d as char + '0'
  }

  /** `String(n)`. */
  function Print(n: nat): (s: string)
    ensures s != ""
  {
    if n < 10 then [DigitChar(n)] else Print(n / 10) + [DigitChar(n % 10)]
  }

  /** The value of a string of digits; leading zeros do not count, and "" is 0. */
  function Value(s: string): nat {
    if s == "" then 0 else Value(s[..|s| - 1]) * 10 + DigitValue(s[|s| - 1])
  }

  function Pow10(n: nat): (p: nat)
    ensures p > 0
  {
    if n == 0 then 1 else 10 * Pow10(n - 1)
  }

  function Zeros(n: nat): (s: string)
    ensures |s| == n
  {
    if n == 0 then "" else Zeros(n - 1) + "0"
  }

  function PadStart(s: string, n: nat): string {
    if |s| >= n then s else Zeros(n - |s|) + s
  }

  function PadEnd(s: string, n: nat): string {
    if |s| >= n then s else s + Zeros(n - |s|)
  }

  /** `s.replace(/0+$/, "")`. */
  function StripZeros(s: string): (r: string)
    ensures |r| <= |s|
  {
    if s != "" && s[|s| - 1] == '0' then StripZeros(s[..|s| - 1]) else s
  }

  lemma {:induction false} PrintValue(n: nat)
    ensures AllDigits(Print(n)) && Value(Print(n)) == n
  {
    if n >= 10 {
      PrintValue(n / 10);
      assert Print(n)[..|Print(n)| - 1] == Print(n / 10);
    } else {
      assert Print(n)[..0] == "";
    }
  }

  lemma ShiftDigit(a: nat, p: nat, v: nat, d: nat)
    ensures (a * p + v) * 10 + d == a * (10 * p) + (v * 10 + d)
  {
    assert a * (10 * p) == 10 * (a * p);
  }

  lemma {:induction false} ValueAppend(a: string, b: string)
    requires AllDigits(a) && AllDigits(b)
    ensures AllDigits(a + b) && Value(a + b) == Value(a) * Pow10(|b|) + Value(b)
  {
    if b == "" {
      assert a + b == a;
    } else {
      var init := b[..|b| - 1];
      assert (a + b)[..|a + b| - 1] == a + init;
      ValueAppend(a, init);
      ShiftDigit(Value(a), Pow10(|init|), Value(init), DigitValue(b[|b| - 1]));
    }
  }

  lemma {:induction false} ZerosValue(n: nat)
    ensures AllDigits(Zeros(n)) && Value(Zeros(n)) == 0
  {
    if n > 0 {
      ZerosValue(n - 1);
      assert Zeros(n)[..n - 1] == Zeros(n - 1);
    }
  }

  lemma {:induction false} PrintLength(n: nat, k: nat)
    requires k > 0 && n < Pow10(k)
    ensures |Print(n)| <= k
  {
    if n >= 10 {
      assert k > 1 by { assert Pow10(1) == 10 * Pow10(0); }
      PrintLength(n / 10, k - 1);
    }
  }

  lemma PadStartOf(s: string, k: nat)
    requires AllDigits(s) && |s| <= k
    ensures |PadStart(s, k)| == k && AllDigits(PadStart(s, k)) && Value(PadStart(s, k)) == Value(s)
  {
    LeadingZeros(k - |s|, s);
  }

  lemma PadStartValue(n: nat, k: nat)
    requires k > 0 && n < Pow10(k)
    ensures var s := PadStart(Print(n), k); |s| == k && AllDigits(s) && Value(s) == n
  {
    PrintLength(n, k);
    PrintValue(n);
    PadStartOf(Print(n), k);
  }

  lemma LeadingZeros(k: nat, s: string)
    requires AllDigits(s)
    ensures AllDigits(Zeros(k) + s) && Value(Zeros(k) + s) == Value(s)
  {
    ZerosValue(k);
    ValueAppend(Zeros(k), s);
    assert 0 * Pow10(|s|) == 0;
  }

  lemma {:induction false} StripThenPad(s: string)
    ensures PadEnd(StripZeros(s), |s|) == s
    ensures AllDigits(s) ==> AllDigits(StripZeros(s))
  {
    if s != "" && s[|s| - 1] == '0' {
      var init := s[..|s| - 1];
      StripThenPad(init);
      assert s == init + "0";
    }
  }
}
