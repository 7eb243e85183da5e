/** The automatic compaction percentage as the user types it: checking and normalising. */
module AutoCompact {
  import opened Wrappers
  import opened Text
  import opened TokenLimits

  const DEFAULT_PERCENT: string := "90%"

  function Bare(value: string): string {
    DropPercentSign(Trim(JavaScript, value))
  }

  /** Blank, or a decimal above 0 and at most 100 with an optional percent sign right behind it. */
  predicate IsValid(value: string) {
    Trim(JavaScript, value) == "" || (IsDecimal(Bare(value)) && 0 < DecimalValue(Bare(value)) <= DENOMINATOR)
  }

  /** One spelling for every valid percentage; an invalid text is only trimmed. */
  function Normalize(value: string): string {
    var t := Trim(JavaScript, value);
    if t == "" then "" else if !IsValid(t) then t else Trim(JavaScript, Bare(t)) + "%"
  }

  lemma {:induction false} DigitsAreNotSpace(s: string)
    requires s != "" && DigitCount(s) == |s|
    ensures !IsSpace(JavaScript, s[0]) && !IsSpace(JavaScript, s[|s| - 1])
  {
    if |s| > 1 {
      DigitsAreNotSpace(s[1..]);
    }
  }

  lemma DecimalTight(s: string)
    requires IsDecimal(s)
    ensures Tight(JavaScript, s) && s != ""
  {
    var n := DigitCount(s);
    if n == |s| {
      DigitsAreNotSpace(s);
    } else {
      DigitsAreNotSpace(s[n + 1..]);
    }
  }

  lemma NormalizeValid(value: string)
    requires IsValid(value) && Trim(JavaScript, value) != ""
    ensures Normalize(value) == Bare(value) + "%"
    ensures Bare(Normalize(value)) == Bare(value) && Trim(JavaScript, Normalize(value)) == Normalize(value)
  {
    TrimTwice(JavaScript, value);
    DecimalTight(Bare(value));
    TrimTight(JavaScript, Bare(value));
    TrimTight(JavaScript, Bare(value) + "%");
    assert DropPercentSign(Bare(value) + "%") == Bare(value);
  }

  /** Normalising twice is normalising once, and it keeps the percentage and its validity. */
  lemma NormalizeIdempotent(value: string)
    ensures Normalize(Normalize(value)) == Normalize(value)
    ensures IsValid(Normalize(value)) == IsValid(value)
    ensures Normalize(value) == "" <==> Trim(JavaScript, value) == ""
    ensures Trim(JavaScript, Normalize(value)) == Normalize(value)
  {
    TrimTwice(JavaScript, value);
    if Trim(JavaScript, value) == "" {
      TrimTight(JavaScript, "");
    } else if IsValid(value) {
      NormalizeValid(value);
      NormalizeValid(Normalize(value));
    }
  }

  /** The text check and the arithmetic agree, except that the arithmetic also takes white space
      in front of the percent sign. */
  lemma ValidIffCalculable(value: string)
    ensures IsValid(value) && Trim(JavaScript, value) != ""
            <==> ScaledPercent(value).Some? && Trim(JavaScript, Bare(value)) == Bare(value)
  {
    if Trim(JavaScript, value) == "" {
      assert Bare(value) == "";
      TrimTight(JavaScript, "");
    } else if IsDecimal(Bare(value)) {
      DecimalTight(Bare(value));
      TrimTight(JavaScript, Bare(value));
    }
  }

  /** Normalising a valid percentage does not change what is calculated from it. */
  lemma NormalizeKeepsPercent(value: string)
    requires IsValid(value)
    ensures ScaledPercent(Normalize(value)) == ScaledPercent(value)
  {
    if Trim(JavaScript, value) == "" {
      TrimTight(JavaScript, "");
    } else {
      NormalizeValid(value);
    }
  }
}
