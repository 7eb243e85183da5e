/** What the texts of windows and percentages mean, in numbers. */
module WindowTexts {
  import opened Wrappers
  import opened Text
  import opened Decimal
  import opened TokenLimits

  /** Reading a numeral: digits count by tens, from '0' up. */
  lemma ValueOfDigits(d: string, c: char)
    requires '0' <= c <= '9'
    ensures Value("") == 0 && Value(d + [c]) == 10 * Value(d) + (c as int - '0' as int)
  {
    assert (d + [c])[..|d + [c]| - 1] == d;
  }

  /** The number of tokens, if it is one and fits 64 bits. */
  function Tokens(n: nat): Option<nat> {
    if 0 < n <= 18_446_744_073_709_551_615 then Some(n) else None
  }

  /** The unit a text of digits may end in, and what it multiplies by. */
  predicate IsUnit(unit: string, factor: nat) {
    || (unit == "" && factor == 1)
    || ((unit == "K" || unit == "k") && factor == 1_000)
    || ((unit == "M" || unit == "m") && factor == 1_000_000)
  }

  lemma UnitTail(d: string, unit: string, factor: nat)
    requires AllDigits(d) && d != "" && IsUnit(unit, factor)
    ensures DigitCount(d + unit) == |d| && Tight(JavaScript, d + unit) && (d + unit)[..|d|] == d
    ensures |unit| <= 1 && (unit != "" ==> (d + unit)[|d|] == unit[0])
  {
    DigitCountStops(d, unit);
    DigitsTight(d);
    if unit != "" { assert (d + unit)[|d + unit| - 1] == unit[0]; } else { assert d + unit == d; }
  }

  lemma WindowOfTight(d: string, unit: string, factor: nat, t: string)
    requires AllDigits(d) && d != "" && IsUnit(unit, factor) && Trim(JavaScript, t) == d + unit
    ensures Window(t) == Tokens(Value(d) * factor)
  {
    UnitTail(d, unit, factor);
  }

  /** Digits, possibly followed by K or k for thousands or M or m for millions, with any white space
      around them, are a window of that many tokens, if it is positive and fits 64 bits. */
  lemma WindowIs(before: string, d: string, unit: string, factor: nat, after: string)
    requires Blank(JavaScript, before) && Blank(JavaScript, after) && AllDigits(d) && d != "" && IsUnit(unit, factor)
    ensures Window(before + (d + unit) + after)
            == if 0 < Value(d) * factor <= 18_446_744_073_709_551_615 then Some(Value(d) * factor) else None
  {
    UnitTail(d, unit, factor);
    TrimUnique(JavaScript, before, d + unit, after);
    WindowOfTight(d, unit, factor, before + (d + unit) + after);
  }

  lemma {:induction false} CountedDigits(s: string)
    ensures AllDigits(s[..DigitCount(s)])
  {
    if s != "" && IsDigit(s[0]) {
      CountedDigits(s[1..]);
      assert s[..DigitCount(s)] == [s[0]] + s[1..][..DigitCount(s[1..])];
    }
  }

  /** No other text has a window. */
  lemma OnlyWindows(text: string) returns (before: string, d: string, unit: string, factor: nat, after: string)
    requires Window(text).Some?
    ensures Blank(JavaScript, before) && Blank(JavaScript, after) && AllDigits(d) && d != "" && IsUnit(unit, factor)
    ensures text == before + (d + unit) + after
  {
    before, after := TrimParts(JavaScript, text);
    var t := Trim(JavaScript, text);
    var n := DigitCount(t);
    CountedDigits(t);
    d, unit := t[..n], t[n..];
    assert t == d + unit;
    factor := if unit == "" then 1 else if unit[0] == 'K' || unit[0] == 'k' then 1_000 else 1_000_000;
    if unit != "" { assert unit == [t[n]]; }
  }

  /** What may stand behind the digits of a percentage: nothing, or a percent sign behind white space. */
  predicate IsSign(sign: string) {
    sign == "" || (sign[|sign| - 1] == '%' && Blank(JavaScript, sign[..|sign| - 1]))
  }

  lemma SignDropped(s: string, sign: string)
    requires Tight(JavaScript, s) && s != "" && s[|s| - 1] != '%' && IsSign(sign)
    ensures Tight(JavaScript, s + sign) && Trim(JavaScript, DropPercentSign(s + sign)) == s
  {
    TrimTight(JavaScript, s);
    if sign == "" {
      assert s + sign == s;
    } else {
      var gap := sign[..|sign| - 1];
      assert (s + sign)[..|s + sign| - 1] == "" + s + gap;
      TrimUnique(JavaScript, "", s, gap);
    }
  }

  lemma TextOfPercent(before: string, s: string, sign: string, after: string, text: string, value: nat)
    requires Blank(JavaScript, before) && Blank(JavaScript, after) && IsSign(sign)
    requires IsDecimal(s) && Tight(JavaScript, s) && s[|s| - 1] != '%'
    requires text == before + (s + sign) + after && value == DecimalValue(s)
    ensures ScaledPercent(text) == if 0 < value <= 100_000_000 then Some(value) else None
  {
    SignDropped(s, sign);
    TrimUnique(JavaScript, before, s + sign, after);
  }

  lemma LastDigit(w: string, f: string, s: string)
    requires AllDigits(w) && w != "" && AllDigits(f) && s == DecimalText(w, f)
    ensures s != "" && s[|s| - 1] != '%'
  {
    if f == "" { assert s == w; } else { assert s[|s| - 1] == f[|f| - 1]; }
  }

  lemma PaddedValue(f: string, n: nat)
    requires AllDigits(f) && |f| + n == 6
    ensures Value(PadEnd(f, 6)) == Value(f) * Pow10(n)
  {
    ZerosValue(n);
    ValueAppend(f, Zeros(n));
    PaddedEnd(f, n);
  }

  lemma PaddedEnd(f: string, n: nat)
    requires |f| + n == 6
    ensures PadEnd(f, 6) == f + Zeros(n)
  {
    if n == 0 { assert f + Zeros(0) == f; }
  }

  lemma DecimalIs(w: string, f: string, s: string, millionths: nat)
    requires AllDigits(w) && w != "" && AllDigits(f) && |f| <= 6 && s == DecimalText(w, f)
    requires millionths == Value(w) * 1_000_000 + Value(f) * Pow10(6 - |f|)
    ensures IsDecimal(s) && DecimalValue(s) == millionths
  {
    PaddedValue(f, 6 - |f|);
    DecimalOfText(w, f);
  }

  /** A percentage: digits, possibly a point and up to six more, possibly a percent sign, with any white
      space around them and in front of the sign, in millionths of a percent. */
  lemma PercentIs(before: string, w: string, f: string, sign: string, after: string, millionths: nat)
    requires Blank(JavaScript, before) && Blank(JavaScript, after) && IsSign(sign)
    requires AllDigits(w) && w != "" && AllDigits(f) && |f| <= 6
    requires millionths == Value(w) * 1_000_000 + Value(f) * Pow10(6 - |f|)
    ensures ScaledPercent(before + (w + (if f != "" then "." + f else "") + sign) + after)
            == if 0 < millionths <= 100_000_000 then Some(millionths) else None
  {
    var s := DecimalText(w, f);
    DecimalIs(w, f, s, millionths);
    LastDigit(w, f, s);
    DecimalOfText(w, f);
    TextOfPercent(before, s, sign, after, before + (s + sign) + after, millionths);
  }

  /** No other text is a percentage. */
  lemma OnlyPercents(text: string) returns (before: string, w: string, f: string, sign: string, after: string)
    requires ScaledPercent(text).Some?
    ensures Blank(JavaScript, before) && Blank(JavaScript, after) && IsSign(sign)
    ensures AllDigits(w) && w != "" && AllDigits(f) && |f| <= 6
    ensures text == before + (w + (if f != "" then "." + f else "") + sign) + after
  {
    before, after := TrimParts(JavaScript, text);
    var t := Trim(JavaScript, text);
    var s := Trim(JavaScript, DropPercentSign(t));
    w, f := DecimalParts(s);
    sign := SignOf(t, s);
  }

  lemma BlankEnds(a: string, b: string, c: string)
    requires Blank(JavaScript, a) && Blank(JavaScript, c)
    ensures a != "" ==> IsSpace(JavaScript, (a + b + c)[0])
    ensures c != "" ==> IsSpace(JavaScript, (a + b + c)[|a + b + c| - 1])
  {
    if c != "" { assert (a + b + c)[|a + b + c| - 1] == c[|c| - 1]; }
  }

  lemma SignOf(t: string, s: string) returns (sign: string)
    requires Tight(JavaScript, t) && s == Trim(JavaScript, DropPercentSign(t)) && s != ""
    ensures t == s + sign && IsSign(sign)
  {
    var front := DropPercentSign(t);
    var before, gap := TrimParts(JavaScript, front);
    BlankEnds(before, s, gap);
    if front == t {
      sign := "";
    } else {
      sign := gap + "%";
      assert sign[..|sign| - 1] == gap;
      assert t == front + "%";
    }
  }

  lemma DecimalParts(s: string) returns (w: string, f: string)
    requires IsDecimal(s)
    ensures AllDigits(w) && w != "" && AllDigits(f) && |f| <= 6
    ensures s == w + (if f != "" then "." + f else "")
  {
    var n := DigitCount(s);
    CountedDigits(s);
    w := s[..n];
    f := Fraction(s);
    if n < |s| {
      CountedDigits(s[n + 1..]);
      assert f == f[..|f|];
      assert s == s[..n] + "." + s[n + 1..];
    } else {
      assert s == w;
    }
  }

  /** The limit is the share of the window rounded half up to whole tokens, and at least one. */
  lemma LimitIsNearest(window: nat, scaled: nat)
    ensures var limit := Limit(window, scaled);
            if 2 * (window * scaled) < 100_000_000 then limit == 1
            else 2 * (limit * 100_000_000) <= 2 * (window * scaled) + 100_000_000 < 2 * ((limit + 1) * 100_000_000)
  {
    var share := window * scaled;
    Quotient(share + DENOMINATOR / 2, DENOMINATOR);
  }

  /** The percentage of a limit is its share of the window rounded half up to millionths. */
  lemma ScaledIsNearest(window: nat, limit: nat)
    requires window > 0
    ensures var scaled := Scaled(window, limit);
            scaled * window <= limit * 100_000_000 + window / 2 < (scaled + 1) * window
  {
    Quotient(limit * DENOMINATOR + window / 2, window);
  }

  /** The percentage shown is rounded half up to whole percents. */
  lemma ShownIsNearest(scaled: nat)
    ensures Rounded(scaled) * 1_000_000 <= scaled + 500_000 < (Rounded(scaled) + 1) * 1_000_000
  {
  }

  /** A percentage of a window is stored as the limit nearest to it, if JavaScript holds that number. */
  lemma LimitIs(window: string, percent: string, tokens: nat, scaled: nat, limit: nat)
    requires Window(window) == Some(tokens) && ScaledPercent(percent) == Some(scaled)
    requires if 2 * (tokens * scaled) < 100_000_000 then limit == 1
             else 2 * (limit * 100_000_000) <= 2 * (tokens * scaled) + 100_000_000 < 2 * ((limit + 1) * 100_000_000)
    ensures PercentToLimit(window, percent) == if limit <= 9_007_199_254_740_991 then Some(limit) else None
  {
    LimitIsNearest(tokens, scaled);
    if 2 * (tokens * scaled) >= 100_000_000 { SameFloor(2 * (tokens * scaled) + 100_000_000, limit, Limit(tokens, scaled)); }
  }

  lemma SameFloor(x: nat, a: nat, b: nat)
    requires 2 * (a * 100_000_000) <= x < 2 * ((a + 1) * 100_000_000)
    requires 2 * (b * 100_000_000) <= x < 2 * ((b + 1) * 100_000_000)
    ensures a == b
  {
  }

  /** Without a window or a percentage there is no limit. */
  lemma NoLimit(window: string, percent: string)
    ensures Window(window) == None || ScaledPercent(percent) == None ==> PercentToLimit(window, percent) == None
  {
  }

  /** A limit is shown as a percentage exactly if it is digits for a number from one to the window that is at
      least half a millionth of a percent of it; the percentage reads back as the share nearest to it. */
  lemma PercentOfLimit(window: string, limit: string, tokens: nat)
    requires Window(window) == Some(tokens)
    ensures LimitToPercent(window, limit).Some?
            <==> AllDigits(limit) && limit != "" && 1 <= Value(limit) <= tokens && tokens <= Value(limit) * 100_000_000 + tokens / 2
    ensures LimitToPercent(window, limit).Some? ==>
              ScaledPercent(LimitToPercent(window, limit).value) == Some(Scaled(tokens, Value(limit)))
  {
    CountedDigits(limit);
    assert limit[..|limit|] == limit;
    if AllDigits(limit) && limit != "" && 1 <= Value(limit) <= tokens {
      DigitsTight(limit);
      var scaled := Scaled(tokens, Value(limit));
      ScaledIsNearest(tokens, Value(limit));
      ScaledIsPercentage(tokens, Value(limit));
      PositiveShare(tokens, Value(limit) * 100_000_000 + tokens / 2, scaled);
      if scaled > 0 { PrintedPercentReadsBack(scaled); }
    }
  }

  lemma PositiveShare(tokens: nat, share: nat, scaled: nat)
    requires tokens > 0 && scaled * tokens <= share < (scaled + 1) * tokens
    ensures scaled > 0 <==> tokens <= share
  {
    if scaled > 0 { MulMono(1, scaled, tokens, tokens); }
  }
}
