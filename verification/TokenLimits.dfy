/** Automatic compaction limits: a percentage of a context window turned into a token count and
    back, both rounded half up, through the decimal texts the user sees. */
module TokenLimits {
  import opened Wrappers
  import opened Text
  import opened Decimal

  const MAX_U64: nat := 18_446_744_073_709_551_615
  const MAX_SAFE_INTEGER: nat := 9_007_199_254_740_991
  const PERCENT_SCALE: nat := 1_000_000
  const DENOMINATOR: nat := 100_000_000

  // ---- On numbers ----

  /** The token limit of a scaled percentage of a window; at least one token. */
  function Limit(window: nat, scaled: nat): nat {
    var rounded := (window * scaled + DENOMINATOR / 2) / DENOMINATOR;
    if rounded > 0 then rounded else 1
  }

  /** The scaled percentage of the window that a token limit is. */
  function Scaled(window: nat, limit: nat): nat
    requires window > 0
  {
    (limit * DENOMINATOR + window / 2) / window
  }

  function Rounded(scaled: nat): nat {
    (scaled + PERCENT_SCALE / 2) / PERCENT_SCALE
  }

  lemma Quotient(a: nat, b: nat)
    requires b > 0
    ensures b * (a / b) <= a < b * (a / b) + b
  {
  }

  lemma MulMono(a: nat, b: nat, c: nat, d: nat)
    requires a <= b && c <= d
    ensures a * c <= b * d
  {
    assert a * c <= b * c;
    assert b * c <= b * d;
  }

  lemma LessByProduct(b: nat, x: int, y: int)
    requires b * x < b * y
    ensures x < y
  {
  }

  lemma DivMono(a: nat, b: nat, d: nat)
    requires a <= b && d > 0
    ensures a / d <= b / d
  {
    Quotient(a, d);
    Quotient(b, d);
    LessByProduct(d, a / d, b / d + 1);
  }

  /** A limit is a share of its window and grows with the window and with the percentage. */
  lemma LimitIsShare(window: nat, scaled: nat)
    requires window > 0 && scaled <= DENOMINATOR
    ensures 1 <= Limit(window, scaled) <= window
  {
    MulMono(window, window, scaled, DENOMINATOR);
  }

  lemma LimitMonotone(w1: nat, w2: nat, s1: nat, s2: nat)
    requires w1 <= w2 && s1 <= s2
    ensures Limit(w1, s1) <= Limit(w2, s2)
  {
    MulMono(w1, w2, s1, s2);
    DivMono(w1 * s1 + DENOMINATOR / 2, w2 * s2 + DENOMINATOR / 2, DENOMINATOR);
  }

  lemma ScaledIsPercentage(window: nat, limit: nat)
    requires 1 <= limit <= window
    ensures Scaled(window, limit) <= DENOMINATOR
    ensures window <= 2 * DENOMINATOR ==> Scaled(window, limit) > 0
  {
    var s := Scaled(window, limit);
    Quotient(limit * DENOMINATOR + window / 2, window);
    assert window * (DENOMINATOR + 1) == window * DENOMINATOR + window;
    LessByProduct(window, s, DENOMINATOR + 1);
    if window <= 2 * DENOMINATOR {
      assert window * (s + 1) == window * s + window;
      LessByProduct(window, 1, s + 1);
    }
  }

  /** Up to a window of 100,000,000 tokens, every limit survives being shown as a percentage. */
  lemma LimitSurvives(window: nat, limit: nat)
    requires 1 <= limit <= window <= DENOMINATOR
    ensures Limit(window, Scaled(window, limit)) == limit
  {
    var s := Scaled(window, limit);
    Quotient(limit * DENOMINATOR + window / 2, window);
    if window == DENOMINATOR {
      assert s == limit;
    }
  }

  /** Above that there are fewer percentages than limits, and this limit is one that is lost. */
  function LostLimit(window: nat): nat
    requires window > DENOMINATOR
  {
    var r := 2 * (window - DENOMINATOR);
    (DENOMINATOR + r - 1) / r
  }

  lemma LimitLost(window: nat, scaled: nat)
    requires window > DENOMINATOR && scaled > 0
    ensures 1 <= LostLimit(window) <= window
    ensures Limit(window, scaled) != LostLimit(window)
  {
    var r := window - DENOMINATOR;
    var t := LostLimit(window);
    Quotient(DENOMINATOR + 2 * r - 1, 2 * r);
    assert 2 * r * t >= DENOMINATOR && 2 * r * t < DENOMINATOR + 2 * r;
    LessByProduct(2 * r, 0, t);
    LessByProduct(2 * r, t, DENOMINATOR + 1);
    assert window * scaled == DENOMINATOR * scaled + r * scaled;
    if scaled < t {
      MulMono(r, r, scaled, t - 1);
      assert 2 * (r * (t - 1)) == 2 * r * t - 2 * r;
    } else {
      MulMono(r, r, t, scaled);
      assert 2 * (r * t) == 2 * r * t;
    }
  }

  /** From a window of 100 tokens on, every whole percentage survives being stored as a limit. */
  lemma PercentSurvives(window: nat, percent: nat)
    requires window >= 100 && 1 <= percent <= 100
    ensures Rounded(Scaled(window, Limit(window, percent * PERCENT_SCALE))) == percent
  {
    var limit := Limit(window, percent * PERCENT_SCALE);
    var s := Scaled(window, limit);
    var share := window * percent;
    assert window * (percent * PERCENT_SCALE) == share * PERCENT_SCALE;
    MulMono(100, window, 1, percent);
    Quotient(limit * DENOMINATOR + window / 2, window);
    assert share * PERCENT_SCALE - DENOMINATOR / 2 <= limit * DENOMINATOR <= share * PERCENT_SCALE + DENOMINATOR / 2;
    var low, high := percent * PERCENT_SCALE - PERCENT_SCALE / 2, percent * PERCENT_SCALE + PERCENT_SCALE / 2;
    assert window * low == share * PERCENT_SCALE - window * (PERCENT_SCALE / 2);
    assert window * high == share * PERCENT_SCALE + window * (PERCENT_SCALE / 2);
    assert window * (s + 1) == window * s + window;
    LessByProduct(window, low, s + 1);
    LessByProduct(window, s, high);
  }

  /** Below that there are fewer limits than whole percentages: this one and the next collide. */
  function CollidingPercent(window: nat): (p: nat)
    requires 1 <= window < 100
  {
    if window < 50 then 1 else 50 / (100 - window)
  }

  /** For windows of 50 to 99 tokens, `p` percent and one more both come to `p` tokens. */
  lemma LimitOfWholePercent(window: nat, percent: nat, share: nat)
    requires share == window * percent && share + 50 >= 100
    ensures Limit(window, percent * PERCENT_SCALE) == (share + 50) / 100
  {
    assert window * (percent * PERCENT_SCALE) == share * PERCENT_SCALE;
  }

  lemma HalfWindowCollides(window: nat, p: nat)
    requires 50 <= window < 100 && 1 <= p && (100 - window) * p <= 50 < (100 - window) * (p + 1)
    ensures Limit(window, p * PERCENT_SCALE) == p == Limit(window, (p + 1) * PERCENT_SCALE)
  {
    var missing := (100 - window) * p;
    assert window * p == 100 * p - missing;
    assert window * (p + 1) == 100 * p - missing + window;
    assert (100 - window) * (p + 1) == missing + (100 - window);
    LimitOfWholePercent(window, p, 100 * p - missing);
    LimitOfWholePercent(window, p + 1, 100 * p - missing + window);
  }

  lemma PercentsCollide(window: nat)
    requires 1 <= window < 100
    ensures var p := CollidingPercent(window);
            1 <= p < 100 && Limit(window, p * PERCENT_SCALE) == Limit(window, (p + 1) * PERCENT_SCALE)
  {
    if window >= 50 {
      var p, r := 50 / (100 - window), 100 - window;
      Quotient(50, r);
      assert r * (p + 1) == r * p + r;
      LessByProduct(r, 1, p + 1);
      LessByProduct(r, p, 51);
      HalfWindowCollides(window, p);
    }
  }

  /** From a window of 100,000,000 tokens on, every percentage survives being stored as a limit. */
  lemma ScaledSurvives(window: nat, scaled: nat)
    requires window >= DENOMINATOR && 1 <= scaled <= DENOMINATOR
    ensures Scaled(window, Limit(window, scaled)) == scaled
  {
    var limit := Limit(window, scaled);
    var share := window * scaled;
    MulMono(DENOMINATOR, window, 1, scaled);
    Quotient(share + DENOMINATOR / 2, DENOMINATOR);
    assert share - DENOMINATOR / 2 < limit * DENOMINATOR <= share + DENOMINATOR / 2;
    if window == DENOMINATOR {
      assert limit == scaled;
    } else {
      ScaledWithin(window, scaled, limit * DENOMINATOR, share);
    }
  }

  lemma ScaledWithin(window: nat, scaled: nat, product: nat, share: nat)
    requires window > DENOMINATOR && share == window * scaled
    requires share - DENOMINATOR / 2 < product <= share + DENOMINATOR / 2
    ensures (product + window / 2) / window == scaled
  {
    var s := (product + window / 2) / window;
    Quotient(product + window / 2, window);
    assert window * (s + 1) == window * s + window;
    assert window * (scaled + 1) == share + window;
    LessByProduct(window, scaled, s + 1);
    LessByProduct(window, s, scaled + 1);
  }

  /** A limit computed from a percentage is stable: showing it as a percentage and computing the limit
      again changes nothing, whatever the window. */
  lemma LimitStable(window: nat, scaled: nat)
    requires window > 0 && 1 <= scaled <= DENOMINATOR
    ensures 1 <= Scaled(window, Limit(window, scaled)) <= DENOMINATOR
    ensures Limit(window, Scaled(window, Limit(window, scaled))) == Limit(window, scaled)
  {
    var limit := Limit(window, scaled);
    LimitIsShare(window, scaled);
    ScaledIsPercentage(window, limit);
    if window >= DENOMINATOR {
      ScaledSurvives(window, scaled);
    } else {
      LimitSurvives(window, limit);
    }
  }

  /** Below that there are fewer limits than percentages, and this percentage is one that is lost. */
  function LostPercent(window: nat): nat
    requires 1 <= window < DENOMINATOR
  {
    var r := DENOMINATOR - window;
    (window - window / 2 + r - 1) / r
  }

  lemma PercentLost(window: nat, limit: nat)
    requires 1 <= window < DENOMINATOR
    ensures 1 <= LostPercent(window) <= DENOMINATOR
    ensures Scaled(window, limit) != LostPercent(window)
  {
    var r, half, t := DENOMINATOR - window, window - window / 2, LostPercent(window);
    assert limit * DENOMINATOR == window * limit + r * limit;
    if limit < t {
      BelowLost(window, limit, r, half, t);
    } else {
      AboveLost(window, limit, r, half, t);
    }
  }

  lemma BelowLost(window: nat, limit: nat, r: nat, half: nat, t: nat)
    requires window > 0 && half == window - window / 2 && limit < t && r * t < half + r
    requires limit * DENOMINATOR == window * limit + r * limit
    ensures Scaled(window, limit) <= limit
  {
    var s := Scaled(window, limit);
    Quotient(limit * DENOMINATOR + window / 2, window);
    MulMono(r, r, limit, t - 1);
    assert r * (t - 1) == r * t - r;
    assert window * (limit + 1) == window * limit + window;
    LessByProduct(window, s, limit + 1);
  }

  lemma AboveLost(window: nat, limit: nat, r: nat, half: nat, t: nat)
    requires window > 0 && half == window - window / 2 && t <= limit && half <= r * t
    requires limit * DENOMINATOR == window * limit + r * limit
    ensures limit < Scaled(window, limit)
  {
    var s := Scaled(window, limit);
    Quotient(limit * DENOMINATOR + window / 2, window);
    MulMono(r, r, t, limit);
    assert window * (limit + 1) == window * limit + window;
    assert window * (s + 1) == window * s + window;
    LessByProduct(window, limit + 1, s + 1);
  }

  // ---- On texts ----

  function DigitCount(s: string): (n: nat)
    ensures n <= |s|
  {
    if s != "" && IsDigit(s[0]) then 1 + DigitCount(s[1..]) else 0
  }

  /** The tokens of a context window text: digits and an optional K or M, within 64 bits. */
  function Window(text: string): (tokens: Option<nat>)
    ensures tokens.Some? ==> 0 < tokens.value <= MAX_U64
  {
    var t := Trim(JavaScript, text);
    var n := DigitCount(t);
    if n == 0 || |t| > n + 1 then None
    else
      var unit := if |t| == n then Some(1)
                  else if t[n] == 'K' || t[n] == 'k' then Some(1_000)
                  else if t[n] == 'M' || t[n] == 'm' then Some(1_000_000)
                  else None;
      if unit.None? then None
      else
        var tokens := Value(t[..n]) * unit.value;
        if 0 < tokens <= MAX_U64 then Some(tokens) else None
  }

  function DropPercentSign(s: string): string {
    if s != "" && s[|s| - 1] == '%' then s[..|s| - 1] else s
  }

  /** A percentage as digits, optionally followed by a point and one to six more. */
  predicate IsDecimal(s: string) {
    var n := DigitCount(s);
    n > 0 && (n == |s| || (s[n] == '.' && 1 <= |s| - n - 1 <= 6 && DigitCount(s[n + 1..]) == |s| - n - 1))
  }

  function Fraction(s: string): (f: string)
    requires IsDecimal(s)
  {
    var n := DigitCount(s);
    if n == |s| then "" else s[n + 1..]
  }

  /** The value of a percentage in millionths of a percent, zero included. */
  function DecimalValue(s: string): nat
    requires IsDecimal(s)
  {
    Value(s[..DigitCount(s)]) * PERCENT_SCALE + Value(PadEnd(Fraction(s), 6))
  }

  function ScaledPercent(text: string): (scaled: Option<nat>)
    ensures scaled.Some? ==> 0 < scaled.value <= DENOMINATOR
  {
    var t := Trim(JavaScript, DropPercentSign(Trim(JavaScript, text)));
    if !IsDecimal(t) then None
    else if 0 < DecimalValue(t) <= DENOMINATOR then Some(DecimalValue(t))
    else None
  }

  function DecimalText(whole: string, fraction: string): string {
    whole + (if fraction != "" then "." + fraction else "")
  }

  function PercentText(whole: string, fraction: string): string {
    DecimalText(whole, fraction) + "%"
  }

  /** A scaled percentage as the interface shows it: no trailing zeros, no needless point. */
  function PrintPercent(scaled: nat): string {
    PercentText(Print(scaled / PERCENT_SCALE), StripZeros(PadStart(Print(scaled % PERCENT_SCALE), 6)))
  }

  /** `autoCompactPercentToTokenLimit`. */
  function PercentToLimit(window: string, percent: string): (limit: Option<nat>) {
    var w, s := Window(window), ScaledPercent(percent);
    if w.None? || s.None? then None
    else if Limit(w.value, s.value) <= MAX_SAFE_INTEGER then Some(Limit(w.value, s.value))
    else None
  }

  /** `autoCompactTokenLimitToPercent`. */
  function LimitToPercent(window: string, limit: string): (percent: Option<string>) {
    var w := Window(window);
    var tokens := if limit != "" && DigitCount(limit) == |limit| then Value(limit) else 0;
    if w.None? || tokens <= 0 || tokens > w.value then None
    else
      var scaled := Scaled(w.value, tokens);
      if scaled <= 0 || scaled > DENOMINATOR then None else Some(PrintPercent(scaled))
  }

  /** `displayAutoCompactPercent`. */
  function DisplayPercent(percent: Option<string>): Option<string> {
    if percent.None? || percent.value == "" then percent
    else
      var s := ScaledPercent(percent.value);
      if s.None? then percent else Some(Print(Rounded(s.value)) + "%")
  }

  lemma DigitsTight(s: string)
    requires AllDigits(s)
    ensures Tight(JavaScript, s) && DigitCount(s) == |s|
  {
    if s != "" {
      assert AllDigits(s[1..]);
      DigitsTight(s[1..]);
    }
  }

  lemma {:induction false} DigitCountStops(digits: string, rest: string)
    requires AllDigits(digits) && (rest != "" ==> !IsDigit(rest[0]))
    ensures DigitCount(digits + rest) == |digits|
  {
    if digits == "" {
      assert digits + rest == rest;
    } else {
      assert (digits + rest)[1..] == digits[1..] + rest;
      DigitCountStops(digits[1..], rest);
    }
  }

  /** Reading a percentage that was written with a percent sign. */
  lemma ReadDecimal(whole: string, fraction: string)
    requires AllDigits(whole) && whole != "" && AllDigits(fraction) && |fraction| <= 6
    ensures var s := DecimalText(whole, fraction);
            && IsDecimal(s) && s[..DigitCount(s)] == whole && Fraction(s) == fraction && Tight(JavaScript, s)
  {
    var s := DecimalText(whole, fraction);
    DigitsTight(whole);
    DigitsTight(fraction);
    if fraction == "" {
      assert s == whole;
    } else {
      DigitCountStops(whole, "." + fraction);
      assert s[|whole| + 1..] == fraction;
      assert s[|s| - 1] == fraction[|fraction| - 1];
    }
  }

  lemma PercentSignDropped(s: string)
    requires Tight(JavaScript, s) && s != ""
    ensures Trim(JavaScript, DropPercentSign(Trim(JavaScript, s + "%"))) == s
  {
    TrimTight(JavaScript, s + "%");
    assert DropPercentSign(s + "%") == s;
    TrimTight(JavaScript, s);
  }

  lemma ScaledPercentOf(s: string)
    requires IsDecimal(s) && Tight(JavaScript, s)
    ensures ScaledPercent(s + "%") == if 0 < DecimalValue(s) <= DENOMINATOR then Some(DecimalValue(s)) else None
  {
    PercentSignDropped(s);
  }

  lemma DecimalOfParts(s: string, w: string, f: string)
    requires IsDecimal(s) && s[..DigitCount(s)] == w && Fraction(s) == f
    ensures DecimalValue(s) == Value(w) * PERCENT_SCALE + Value(PadEnd(f, 6))
  {
  }

  lemma ReadText(s: string, text: string, value: nat)
    requires IsDecimal(s) && Tight(JavaScript, s) && text == s + "%" && DecimalValue(s) == value && 0 < value <= DENOMINATOR
    ensures ScaledPercent(text) == Some(value)
  {
    ScaledPercentOf(s);
  }

  lemma ReadPercent(w: string, f: string, text: string, value: nat)
    requires AllDigits(w) && w != "" && AllDigits(f) && |f| <= 6 && text == PercentText(w, f)
    requires value == Value(w) * PERCENT_SCALE + Value(PadEnd(f, 6)) && 0 < value <= DENOMINATOR
    ensures ScaledPercent(text) == Some(value)
  {
    DecimalOfText(w, f);
    ReadText(DecimalText(w, f), text, value);
  }

  lemma DecimalOfText(w: string, f: string)
    requires AllDigits(w) && w != "" && AllDigits(f) && |f| <= 6
    ensures IsDecimal(DecimalText(w, f)) && Tight(JavaScript, DecimalText(w, f))
    ensures DecimalValue(DecimalText(w, f)) == Value(w) * PERCENT_SCALE + Value(PadEnd(f, 6))
  {
    ReadDecimal(w, f);
    DecimalOfParts(DecimalText(w, f), w, f);
  }

  lemma FractionReadsBack(n: nat)
    requires n < PERCENT_SCALE
    ensures var f := StripZeros(PadStart(Print(n), 6));
            AllDigits(f) && |f| <= 6 && Value(PadEnd(f, 6)) == n
  {
    PadStartValue(n, 6);
    StripThenPad(PadStart(Print(n), 6));
  }

  lemma PartsReadBack(whole: nat, fraction: nat, text: string, value: nat)
    requires fraction < PERCENT_SCALE && value == whole * PERCENT_SCALE + fraction && 0 < value <= DENOMINATOR
    requires text == PercentText(Print(whole), StripZeros(PadStart(Print(fraction), 6)))
    ensures ScaledPercent(text) == Some(value)
  {
    FractionReadsBack(fraction);
    PrintValue(whole);
    ReadPercent(Print(whole), StripZeros(PadStart(Print(fraction), 6)), text, value);
  }

  /** The printer and the parser are inverse on every percentage. */
  lemma PrintedPercentReadsBack(scaled: nat)
    requires 1 <= scaled <= DENOMINATOR
    ensures ScaledPercent(PrintPercent(scaled)) == Some(scaled)
  {
    PartsReadBack(scaled / PERCENT_SCALE, scaled % PERCENT_SCALE, PrintPercent(scaled), scaled);
  }

  // ---- The round trips, through the texts ----

  /** A limit comes back from the percentage it is shown as. */
  ghost predicate LimitComesBack(window: string, limit: nat) {
    var percent := LimitToPercent(window, Print(limit));
    percent.Some? && PercentToLimit(window, percent.value) == Some(limit)
  }

  lemma LimitToPercentOfNumber(window: string, limit: nat)
    requires Window(window).Some?
    ensures var w := Window(window).value;
            LimitToPercent(window, Print(limit))
            == if 1 <= limit <= w && 1 <= Scaled(w, limit) <= DENOMINATOR then Some(PrintPercent(Scaled(w, limit))) else None
  {
    PrintValue(limit);
    DigitsTight(Print(limit));
  }

  lemma SmallLimitComesBack(window: string, limit: nat)
    requires Window(window).Some? && 1 <= limit <= Window(window).value <= DENOMINATOR
    ensures LimitComesBack(window, limit)
  {
    var w := Window(window).value;
    ScaledIsPercentage(w, limit);
    LimitSurvives(w, limit);
    LimitToPercentOfNumber(window, limit);
    PrintedPercentReadsBack(Scaled(w, limit));
  }

  lemma LostLimitStaysLost(window: string)
    requires Window(window).Some? && Window(window).value > DENOMINATOR
    ensures 1 <= LostLimit(Window(window).value) <= Window(window).value
    ensures !LimitComesBack(window, LostLimit(Window(window).value))
  {
    var w := Window(window).value;
    var limit := LostLimit(w);
    LimitLost(w, 1);
    LimitToPercentOfNumber(window, limit);
    if LimitToPercent(window, Print(limit)).Some? {
      PrintedPercentReadsBack(Scaled(w, limit));
      LimitLost(w, Scaled(w, limit));
    }
  }

  /** Every limit of a window comes back exactly when the window has at most 100,000,000 tokens. */
  lemma LimitsComeBackIff(window: string)
    requires Window(window).Some?
    ensures (forall limit :: 1 <= limit <= Window(window).value ==> LimitComesBack(window, limit))
            <==> Window(window).value <= 100_000_000
  {
    if Window(window).value <= DENOMINATOR {
      forall limit | 1 <= limit <= Window(window).value ensures LimitComesBack(window, limit) {
        SmallLimitComesBack(window, limit);
      }
    } else {
      LostLimitStaysLost(window);
    }
  }

  function Redisplayed(window: string, limit: nat): Option<string> {
    DisplayPercent(LimitToPercent(window, Print(limit)))
  }

  /** A whole percentage is displayed unchanged after being stored as a limit of the window. */
  ghost predicate PercentComesBack(window: string, percent: nat) {
    var limit := PercentToLimit(window, Print(percent) + "%");
    limit.Some? && Redisplayed(window, limit.value) == Some(Print(percent) + "%")
  }

  lemma WholePercent(percent: nat)
    requires 1 <= percent <= 100
    ensures ScaledPercent(Print(percent) + "%") == Some(percent * PERCENT_SCALE)
  {
    PrintValue(percent);
    ZerosValue(6);
    assert "" + Zeros(6) == Zeros(6);
    assert Print(percent) + "" + "%" == Print(percent) + "%";
    ReadPercent(Print(percent), "", Print(percent) + "%", percent * PERCENT_SCALE);
  }

  lemma DisplayOfLimit(window: string, limit: nat)
    requires Window(window).Some? && 1 <= limit <= Window(window).value
    requires 1 <= Scaled(Window(window).value, limit) <= DENOMINATOR
    ensures Redisplayed(window, limit) == Some(Print(Rounded(Scaled(Window(window).value, limit))) + "%")
  {
    LimitToPercentOfNumber(window, limit);
    PrintedPercentReadsBack(Scaled(Window(window).value, limit));
  }

  lemma {:induction false} PrintInjective(a: nat, b: nat)
    requires Print(a) + "%" == Print(b) + "%"
    ensures a == b
  {
    assert (Print(a) + "%")[..|Print(a)|] == Print(a) && (Print(b) + "%")[..|Print(b)|] == Print(b);
    PrintValue(a);
    PrintValue(b);
  }

  lemma PercentDoesComeBack(window: string, percent: nat)
    requires Window(window).Some? && 100 <= Window(window).value <= MAX_SAFE_INTEGER && 1 <= percent <= 100
    ensures PercentComesBack(window, percent)
  {
    var w := Window(window).value;
    var limit := Limit(w, percent * PERCENT_SCALE);
    WholePercent(percent);
    LimitIsShare(w, percent * PERCENT_SCALE);
    ScaledIsPercentage(w, limit);
    PercentSurvives(w, percent);
    DisplayOfLimit(window, limit);
  }

  lemma CollidingPercentLost(window: string)
    requires Window(window).Some? && Window(window).value < 100
    ensures var p := CollidingPercent(Window(window).value);
            1 <= p < 100 && !(PercentComesBack(window, p) && PercentComesBack(window, p + 1))
  {
    var p := CollidingPercent(Window(window).value);
    PercentsCollide(Window(window).value);
    WholePercent(p);
    WholePercent(p + 1);
    if PercentComesBack(window, p) && PercentComesBack(window, p + 1) {
      PrintInjective(p, p + 1);
    }
  }

  lemma FullWindowUnsafe(window: string)
    requires Window(window).Some? && Window(window).value > MAX_SAFE_INTEGER
    ensures !PercentComesBack(window, 100)
  {
    WholePercent(100);
    assert Limit(Window(window).value, 100 * PERCENT_SCALE) == Window(window).value;
  }

  /** Every whole percentage comes back exactly for windows from 100 tokens to 2^53 - 1. */
  lemma WholePercentsComeBackIff(window: string)
    requires Window(window).Some?
    ensures (forall percent :: 1 <= percent <= 100 ==> PercentComesBack(window, percent))
            <==> 100 <= Window(window).value <= 9_007_199_254_740_991
  {
    if Window(window).value > MAX_SAFE_INTEGER {
      FullWindowUnsafe(window);
    } else if Window(window).value < 100 {
      CollidingPercentLost(window);
    } else {
      forall percent | 1 <= percent <= 100 ensures PercentComesBack(window, percent) {
        PercentDoesComeBack(window, percent);
      }
    }
  }

  /** A percentage comes back from the limit it is stored as, to the last of its six digits. */
  ghost predicate ScaledComesBack(window: string, scaled: nat) {
    var limit := PercentToLimit(window, PrintPercent(scaled));
    limit.Some? && LimitToPercent(window, Print(limit.value)) == Some(PrintPercent(scaled))
  }

  lemma LargeWindowKeepsPercent(window: string, scaled: nat)
    requires Window(window).Some? && DENOMINATOR <= Window(window).value <= MAX_SAFE_INTEGER && 1 <= scaled <= DENOMINATOR
    ensures ScaledComesBack(window, scaled)
  {
    var w := Window(window).value;
    PrintedPercentReadsBack(scaled);
    LimitIsShare(w, scaled);
    ScaledSurvives(w, scaled);
    LimitToPercentOfNumber(window, Limit(w, scaled));
  }

  lemma SmallWindowLosesPercent(window: string)
    requires Window(window).Some? && Window(window).value < DENOMINATOR
    ensures 1 <= LostPercent(Window(window).value) <= DENOMINATOR
    ensures !ScaledComesBack(window, LostPercent(Window(window).value))
  {
    var w := Window(window).value;
    var lost := LostPercent(w);
    PercentLost(w, 1);
    var limit := PercentToLimit(window, PrintPercent(lost));
    if limit.Some? {
      LimitToPercentOfNumber(window, limit.value);
      PercentLost(w, limit.value);
      PrintedPercentReadsBack(lost);
      if 1 <= limit.value <= w && 1 <= Scaled(w, limit.value) <= DENOMINATOR {
        PrintedPercentReadsBack(Scaled(w, limit.value));
      }
    }
  }

  /** Every percentage comes back with all its digits exactly for windows from 100,000,000 tokens to
      2^53 - 1. */
  lemma PercentsComeBackIff(window: string)
    requires Window(window).Some?
    ensures (forall scaled :: 1 <= scaled <= 100_000_000 ==> ScaledComesBack(window, scaled))
            <==> 100_000_000 <= Window(window).value <= 9_007_199_254_740_991
  {
    if Window(window).value < DENOMINATOR {
      SmallWindowLosesPercent(window);
    } else if Window(window).value > MAX_SAFE_INTEGER {
      PrintedPercentReadsBack(DENOMINATOR);
      assert !ScaledComesBack(window, DENOMINATOR);
    } else {
      forall scaled | 1 <= scaled <= DENOMINATOR ensures ScaledComesBack(window, scaled) {
        LargeWindowKeepsPercent(window, scaled);
      }
    }
  }

  /** A stored limit lies in its window. */
  lemma LimitInWindow(window: string, percent: string)
    requires PercentToLimit(window, percent).Some?
    ensures Window(window).Some? && 1 <= PercentToLimit(window, percent).value <= Window(window).value
  {
    LimitIsShare(Window(window).value, ScaledPercent(percent).value);
  }

  /** A larger window or a larger percentage never gives a smaller limit, and a limit is given
      for the smaller ones whenever it is given for the larger ones. */
  lemma LimitGrows(w1: string, p1: string, w2: string, p2: string)
    requires Window(w1).Some? && Window(w2).Some? && Window(w1).value <= Window(w2).value
    requires ScaledPercent(p1).Some? && ScaledPercent(p2).Some? && ScaledPercent(p1).value <= ScaledPercent(p2).value
    ensures PercentToLimit(w2, p2).Some? ==>
              PercentToLimit(w1, p1).Some? && PercentToLimit(w1, p1).value <= PercentToLimit(w2, p2).value
  {
    LimitMonotone(Window(w1).value, Window(w2).value, ScaledPercent(p1).value, ScaledPercent(p2).value);
  }
}
