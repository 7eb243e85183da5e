/** What the highlighters take for a number, a date, a word, a string, a comment or a table header, character
    by character. */
module CodeTokens {
  import opened Text
  import opened CodeHighlight

  // ---- Characters ----

  predicate IsDecimal(c: char) { '0' <= c <= '9' }

  predicate DecimalOrLine(c: char) { '0' <= c <= '9' || c == '_' }

  predicate HexOrLine(c: char) { '0' <= c <= '9' || 'a' <= c <= 'f' || 'A' <= c <= 'F' || c == '_' }

  predicate OctalOrLine(c: char) { '0' <= c <= '7' || c == '_' }

  predicate BinaryOrLine(c: char) { c == '0' || c == '1' || c == '_' }

  predicate BareChar(c: char) { 'a' <= c <= 'z' || 'A' <= c <= 'Z' || '0' <= c <= '9' || c == '_' || c == '-' }

  predicate WhiteSpace(c: char) { IsSpace(JavaScript, c) }

  /** One of these characters stands at the position. */
  predicate Here(s: string, i: nat, chars: string) {
    i < |s| && s[i] in chars
  }

  /** Decimal digits stand at all positions from `i` to `j`. */
  predicate Digits(s: string, i: nat, j: nat) {
    j <= |s| && forall k :: i <= k < j ==> '0' <= s[k] <= '9'
  }

  /** The characters from `i` to `j` are of the class, and the one at `j`, if any, is not. */
  ghost predicate Run(s: string, i: nat, j: nat, cls: char -> bool) {
    && i <= j <= |s|
    && (forall k :: i <= k < j ==> cls(s[k]))
    && (j < |s| ==> !cls(s[j]))
  }

  lemma {:induction false} CountIsRun(s: string, i: nat, cls: Class, chars: char -> bool)
    requires i <= |s| && forall c :: In(cls, c) <==> chars(c)
    ensures Run(s, i, i + CountWhile(s[i..], cls), chars)
    decreases |s| - i
  {
    if i < |s| {
      assert s[i..][1..] == s[i + 1..];
      if In(cls, s[i]) {
        CountIsRun(s, i + 1, cls, chars);
        var j := i + 1 + CountWhile(s[i + 1..], cls);
        assert forall k :: i <= k < j ==> k == i || chars(s[k]);
      }
    }
  }

  lemma RunUnique(s: string, i: nat, j: nat, k: nat, chars: char -> bool)
    requires Run(s, i, j, chars) && Run(s, i, k, chars)
    ensures j == k
  {
  }

  lemma RunIff(s: string, i: nat, j: nat, cls: Class, chars: char -> bool)
    requires i <= |s| && forall c :: In(cls, c) <==> chars(c)
    ensures Run(s, i, j, chars) <==> j == i + CountWhile(s[i..], cls)
  {
    CountIsRun(s, i, cls, chars);
    if Run(s, i, j, chars) { RunUnique(s, i, j, i + CountWhile(s[i..], cls), chars); }
  }

  // ---- Numbers ----

  /** `0x`, `0o` or `0b` in either case, and a run of digits of that base and underscores. */
  ghost predicate RadixSpan(s: string, n: nat) {
    && Here(s, 0, "0") && 2 < n
    && ((Here(s, 1, "xX") && Run(s, 2, n, HexOrLine))
        || (Here(s, 1, "oO") && Run(s, 2, n, OctalOrLine))
        || (Here(s, 1, "bB") && Run(s, 2, n, BinaryOrLine)))
  }

  /** A point and a run of digits and underscores, or nothing. */
  ghost predicate FractionSpan(s: string, w: nat, f: nat) {
    if w + 1 < |s| && s[w] == '.' && DecimalOrLine(s[w + 1]) then Run(s, w + 1, f, DecimalOrLine) else f == w
  }

  /** `e` or `E`, an optional sign and a run of digits, or nothing. */
  ghost predicate ExponentSpan(s: string, f: nat, n: nat) {
    var d := if Here(s, f + 1, "+-") then f + 2 else f + 1;
    if Here(s, f, "eE") && d < |s| && IsDecimal(s[d]) then Run(s, d, n, IsDecimal) else n == f
  }

  /** A digit with a run of digits and underscores, a fraction and an exponent, ending at `w`, `f` and `n`. */
  ghost predicate DecimalParts(s: string, w: nat, f: nat, n: nat) {
    && Digits(s, 0, 1)
    && Run(s, 1, w, DecimalOrLine) && FractionSpan(s, w, f) && ExponentSpan(s, f, n)
  }

  ghost predicate DecimalSpan(s: string, n: nat) {
    exists w, f :: DecimalParts(s, w, f, n)
  }

  predicate NamedSpan(s: string, n: nat) {
    n == 3 && n <= |s| && (s[..3] == "nan" || s[..3] == "inf")
  }

  /** A number in another base if there is one, else a decimal one, `nan` or `inf`. */
  ghost predicate BodySpan(s: string, n: nat) {
    RadixSpan(s, n) || ((DecimalSpan(s, n) || NamedSpan(s, n)) && forall m :: !RadixSpan(s, m))
  }

  /** An optional sign and a number. */
  ghost predicate NumberSpan(s: string, n: nat) {
    if Here(s, 0, "+-") then n > 0 && BodySpan(s[1..], n - 1) else BodySpan(s, n)
  }

  lemma RadixIff(s: string, n: nat)
    ensures RadixSpan(s, n) <==> RadixLen(s) > 0 && n == RadixLen(s)
  {
    if 2 <= |s| {
      RunIff(s, 2, n, HexRun, HexOrLine);
      RunIff(s, 2, n, OctalRun, OctalOrLine);
      RunIff(s, 2, n, BinaryRun, BinaryOrLine);
    }
  }

  lemma FractionIff(s: string, w: nat, f: nat)
    requires w <= |s|
    ensures FractionSpan(s, w, f) <==> f == w + FractionLen(s[w..])
  {
    if w < |s| {
      assert s[w..][1..] == s[w + 1..];
      RunIff(s, w + 1, f, DigitRun, DecimalOrLine);
    }
  }

  lemma ExponentIff(s: string, f: nat, n: nat)
    requires f <= |s|
    ensures ExponentSpan(s, f, n) <==> n == f + ExponentLen(s[f..])
  {
    var d := if Here(s, f + 1, "+-") then f + 2 else f + 1;
    if d <= |s| {
      assert s[f..][d - f..] == s[d..];
      RunIff(s, d, n, Digit, IsDecimal);
    }
  }

  lemma DecimalLenIs(s: string, w: nat, f: nat)
    requires Digits(s, 0, 1) && w == 1 + CountWhile(s[1..], DigitRun) && f == w + FractionLen(s[w..])
    ensures DecimalLen(s) == f + ExponentLen(s[f..])
  {
  }

  lemma FractionCounted(s: string, w: nat, f: nat, n: nat)
    requires Digits(s, 0, 1) && w == 1 + CountWhile(s[1..], DigitRun) && FractionSpan(s, w, f) && ExponentSpan(s, f, n)
    ensures n == DecimalLen(s)
  {
    FractionIff(s, w, f);
    ExponentIff(s, f, n);
    DecimalLenIs(s, w, f);
  }

  lemma PartsCounted(s: string, w: nat, f: nat, n: nat)
    requires DecimalParts(s, w, f, n)
    ensures n == DecimalLen(s)
  {
    RunIff(s, 1, w, DigitRun, DecimalOrLine);
    FractionCounted(s, w, f, n);
  }

  lemma WholeEnd(s: string) returns (w: nat)
    requires s != ""
    ensures Run(s, 1, w, DecimalOrLine)
  {
    w := 1 + CountWhile(s[1..], DigitRun);
    CountIsRun(s, 1, DigitRun, DecimalOrLine);
  }

  lemma FractionEnd(s: string, w: nat) returns (f: nat)
    requires w <= |s|
    ensures FractionSpan(s, w, f) && f <= |s|
  {
    f := w + FractionLen(s[w..]);
    FractionIff(s, w, f);
  }

  lemma ExponentEnd(s: string, f: nat) returns (n: nat)
    requires f <= |s|
    ensures ExponentSpan(s, f, n)
  {
    n := f + ExponentLen(s[f..]);
    ExponentIff(s, f, n);
  }

  lemma PartsAt(s: string) returns (w: nat, f: nat)
    requires Digits(s, 0, 1)
    ensures DecimalParts(s, w, f, DecimalLen(s))
  {
    w := WholeEnd(s);
    f := FractionEnd(s, w);
    var n := ExponentEnd(s, f);
    PartsCounted(s, w, f, n);
  }

  lemma DecimalIff(s: string, n: nat)
    ensures DecimalSpan(s, n) <==> DecimalLen(s) > 0 && n == DecimalLen(s)
  {
    if Digits(s, 0, 1) {
      var w, f := PartsAt(s);
    }
    if w, f :| DecimalParts(s, w, f, n) {
      PartsCounted(s, w, f, n);
    }
  }

  lemma {:induction false} StartsIff(s: string, i: nat, word: string)
    requires i <= |s|
    ensures Starts(s[i..], word) <==> i + |word| <= |s| && s[i..i + |word|] == word
    decreases |word|
  {
    if word != "" && i < |s| {
      assert s[i..][1..] == s[i + 1..];
      StartsIff(s, i + 1, word[1..]);
      if i + |word| <= |s| { assert s[i..i + |word|] == [s[i]] + s[i + 1..i + |word|]; }
      assert word == [word[0]] + word[1..];
    }
  }

  lemma NamedIff(s: string)
    ensures Starts(s, "nan") || Starts(s, "inf") <==> NamedSpan(s, 3)
    ensures NamedSpan(s, 3) ==> DecimalLen(s) == 0
  {
    assert s[0..] == s;
    StartsIff(s, 0, "nan");
    StartsIff(s, 0, "inf");
    if NamedSpan(s, 3) { assert s[0] == s[..3][0]; }
  }

  ghost function BodyLen(rest: string): nat {
    if RadixLen(rest) > 0 then RadixLen(rest)
    else if DecimalLen(rest) > 0 then DecimalLen(rest)
    else if Starts(rest, "nan") || Starts(rest, "inf") then 3
    else 0
  }

  lemma NoRadix(s: string)
    ensures (exists m :: RadixSpan(s, m)) <==> RadixLen(s) > 0
  {
    RadixIff(s, RadixLen(s));
    if m :| RadixSpan(s, m) { RadixIff(s, m); }
  }

  lemma BodyIff(s: string, n: nat)
    ensures BodySpan(s, n) <==> BodyLen(s) > 0 && n == BodyLen(s)
  {
    RadixIff(s, n);
    NoRadix(s);
    DecimalIff(s, n);
    NamedIff(s);
  }

  lemma NumberLenIsBody(s: string)
    ensures var b := if Here(s, 0, "+-") then 1 else 0;
            NumberLen(s) == if BodyLen(s[b..]) > 0 then b + BodyLen(s[b..]) else 0
  {
    assert Here(s, 0, "+-") <==> SignAt(s, 0);
  }

  /** The length of a number is that of its span. */
  lemma NumberIff(s: string, n: nat)
    ensures NumberSpan(s, n) <==> NumberLen(s) > 0 && n == NumberLen(s)
  {
    NumberLenIsBody(s);
    if Here(s, 0, "+-") {
      if n > 0 { BodyIff(s[1..], n - 1); }
    } else {
      assert s[0..] == s;
      BodyIff(s, n);
    }
  }

  // ---- Dates ----

  /** `dddd-dd-dd`. */
  predicate DateShape(s: string) {
    Digits(s, 0, 4) && Here(s, 4, "-") && Digits(s, 5, 7) && Here(s, 7, "-") && Digits(s, 8, 10)
  }

  /** `T`, `t` or a space, and `dd:dd`, behind the date. */
  predicate TimeShape(s: string) {
    Here(s, 10, "Tt ") && Digits(s, 11, 13) && Here(s, 13, ":") && Digits(s, 14, 16)
  }

  /** `:dd` and a point with digits behind it, each only if it is there. */
  ghost predicate SecondsSpan(s: string, t: nat) {
    if !(Here(s, 16, ":") && Digits(s, 17, 19)) then t == 16
    else if Here(s, 19, ".") && Digits(s, 20, 21) then Run(s, 20, t, IsDecimal)
    else t == 19
  }

  /** `Z`, `z` or a signed `dd:dd`, if it is there. */
  predicate ZoneSpan(s: string, t: nat, n: nat) {
    if Here(s, t, "Zz") then n == t + 1
    else if Here(s, t, "+-") && Digits(s, t + 1, t + 3) && Here(s, t + 3, ":") && Digits(s, t + 4, t + 6) then n == t + 6
    else n == t
  }

  /** A date, and behind it a time of day with seconds and a zone, as far as they are there. */
  ghost predicate DateSpan(s: string, n: nat) {
    && DateShape(s)
    && if TimeShape(s) then exists t :: SecondsSpan(s, t) && ZoneSpan(s, t, n) else n == 10
  }

  predicate Fits(s: string, i: nat, shape: string) {
    i + |shape| <= |s|
    && forall k :: 0 <= k < |shape| ==> if shape[k] == 'd' then '0' <= s[i + k] <= '9' else s[i + k] == shape[k]
  }

  lemma {:induction false} MatchesIff(s: string, i: nat, shape: string)
    requires i <= |s|
    ensures Matches(s[i..], shape) <==> Fits(s, i, shape)
    decreases |shape|
  {
    if shape != "" && i < |s| {
      assert s[i..][1..] == s[i + 1..];
      MatchesIff(s, i + 1, shape[1..]);
      FitsCons(s, i, shape);
    }
  }

  lemma FitsCons(s: string, i: nat, shape: string)
    requires shape != "" && i < |s|
    ensures Fits(s, i, shape)
            <==> (if shape[0] == 'd' then '0' <= s[i] <= '9' else s[i] == shape[0]) && Fits(s, i + 1, shape[1..])
  {
    if Fits(s, i + 1, shape[1..]) && (if shape[0] == 'd' then '0' <= s[i] <= '9' else s[i] == shape[0]) {
      forall k | 0 <= k < |shape| ensures if shape[k] == 'd' then '0' <= s[i + k] <= '9' else s[i + k] == shape[k] {
        if k > 0 { assert shape[k] == shape[1..][k - 1] && s[i + k] == s[i + 1 + (k - 1)]; }
      }
    }
    if Fits(s, i, shape) {
      assert if shape[0] == 'd' then '0' <= s[i + 0] <= '9' else s[i + 0] == shape[0];
      forall k | 0 <= k < |shape| - 1
        ensures if shape[1..][k] == 'd' then '0' <= s[i + 1 + k] <= '9' else s[i + 1 + k] == shape[1..][k]
      {
        assert shape[1..][k] == shape[k + 1] && s[i + 1 + k] == s[i + (k + 1)];
      }
    }
  }

  lemma DateShapeIff(s: string)
    ensures Matches(s, "dddd-dd-dd") <==> DateShape(s)
  {
    assert s[0..] == s;
    MatchesIff(s, 0, "dddd-dd-dd");
    if Fits(s, 0, "dddd-dd-dd") {
      FitsAt(s, 0, "dddd-dd-dd", 0); FitsAt(s, 0, "dddd-dd-dd", 1); FitsAt(s, 0, "dddd-dd-dd", 2); FitsAt(s, 0, "dddd-dd-dd", 3);
      FitsAt(s, 0, "dddd-dd-dd", 4); FitsAt(s, 0, "dddd-dd-dd", 5); FitsAt(s, 0, "dddd-dd-dd", 6); FitsAt(s, 0, "dddd-dd-dd", 7);
      FitsAt(s, 0, "dddd-dd-dd", 8); FitsAt(s, 0, "dddd-dd-dd", 9);
    }
  }

  lemma FitsAt(s: string, i: nat, shape: string, k: nat)
    requires Fits(s, i, shape) && k < |shape|
    ensures if shape[k] == 'd' then '0' <= s[i + k] <= '9' else s[i + k] == shape[k]
  {
  }

  /** `dd:dd`. */
  predicate ClockShape(s: string, i: nat) {
    Digits(s, i, i + 2) && Here(s, i + 2, ":") && Digits(s, i + 3, i + 5)
  }

  lemma ClockIff(s: string, i: nat)
    requires i <= |s|
    ensures Matches(s[i..], "dd:dd") <==> ClockShape(s, i)
  {
    MatchesIff(s, i, "dd:dd");
    if Fits(s, i, "dd:dd") {
      FitsAt(s, i, "dd:dd", 0); FitsAt(s, i, "dd:dd", 1); FitsAt(s, i, "dd:dd", 2); FitsAt(s, i, "dd:dd", 3); FitsAt(s, i, "dd:dd", 4);
    }
  }

  lemma SecondsShapeIff(s: string)
    requires 16 <= |s|
    ensures Matches(s[16..], ":dd") <==> Here(s, 16, ":") && Digits(s, 17, 19)
  {
    MatchesIff(s, 16, ":dd");
    if Fits(s, 16, ":dd") {
      FitsAt(s, 16, ":dd", 0); FitsAt(s, 16, ":dd", 1); FitsAt(s, 16, ":dd", 2);
    }
  }

  lemma SecondsIff(s: string, t: nat)
    requires 16 <= |s|
    ensures SecondsSpan(s, t) <==> t == 16 + SecondsLen(s[16..])
  {
    SecondsShapeIff(s);
    if Here(s, 16, ":") && Digits(s, 17, 19) && 20 <= |s| {
      assert s[16..][4..] == s[20..];
      RunIff(s, 20, t, Digit, IsDecimal);
    }
  }

  lemma ZoneIff(s: string, t: nat, n: nat)
    requires t <= |s|
    ensures ZoneSpan(s, t, n) <==> n == t + ZoneLen(s[t..])
  {
    if t < |s| {
      assert s[t..][1..] == s[t + 1..];
      ClockIff(s, t + 1);
    }
  }

  lemma TimeLenIs(s: string)
    requires 10 <= |s|
    ensures TimeLen(s[10..]) == if TimeShape(s) then 6 + SecondsLen(s[16..]) + ZoneLen(s[16 + SecondsLen(s[16..])..]) else 0
  {
    if 11 <= |s| {
      var r := s[10..];
      assert r[1..] == s[11..];
      ClockIff(s, 11);
      if TimeShape(s) {
        assert r[6..] == s[16..];
        assert r[6 + SecondsLen(s[16..])..] == s[16 + SecondsLen(s[16..])..];
      }
    }
  }

  /** The length of a date is that of its span. */
  lemma DateIff(s: string, n: nat)
    ensures DateSpan(s, n) <==> DateLen(s) > 0 && n == DateLen(s)
  {
    DateShapeIff(s);
    if DateShape(s) {
      TimeLenIs(s);
      if TimeShape(s) {
        var t := 16 + SecondsLen(s[16..]);
        SecondsIff(s, t);
        ZoneIff(s, t, n);
        if t' :| SecondsSpan(s, t') && ZoneSpan(s, t', n) { SecondsIff(s, t'); }
      }
    }
  }

  // ---- Words ----

  /** The word stands at the start, and no letter, digit or underscore behind it. */
  predicate IsWord(s: string, word: string) {
    && |word| <= |s| && s[..|word|] == word
    && (|word| < |s| ==> var c := s[|word|]; !('a' <= c <= 'z' || 'A' <= c <= 'Z' || '0' <= c <= '9' || c == '_'))
  }

  lemma WordIff(s: string, word: string)
    ensures StartsWord(s, word) <==> IsWord(s, word)
  {
  }

  // ---- Strings ----

  /** Exactly `m` backslashes stand directly before position `k`, not counting the opening quote. */
  ghost predicate BackslashRun(s: string, k: nat, m: nat) {
    && m < k <= |s|
    && (forall j :: k - m <= j < k ==> s[j] == '\\')
    && (k - m > 1 ==> s[k - m - 1] != '\\')
  }

  lemma {:induction false} BackslashIff(s: string, k: nat, m: nat)
    requires 1 <= k <= |s|
    ensures BackslashRun(s, k, m) <==> m == Backslashes(s, k)
    decreases k
  {
    if k > 1 && s[k - 1] == '\\' {
      if m > 0 {
        BackslashIff(s, k - 1, m - 1);
        if BackslashRun(s, k - 1, m - 1) {
          forall j | k - m <= j < k ensures s[j] == '\\' { if j < k - 1 { assert k - 1 - (m - 1) <= j; } }
        }
      }
    }
  }

  /** The quote of the string or a line break, with no odd number of backslashes before it. */
  ghost predicate EndsString(s: string, k: nat, escapes: bool)
    requires s != ""
  {
    && 1 <= k < |s| && (s[k] == s[0] || s[k] == '\n')
    && !(escapes && exists m :: m % 2 == 1 && BackslashRun(s, k, m))
  }

  /** A string goes to the first character that ends it, the quote included and the line break not, or, when
      there is none, to the end of the text. */
  ghost predicate StringSpan(s: string, n: nat, escapes: bool)
    requires s != ""
  {
    if exists k: nat :: EndsString(s, k, escapes) then
      exists k: nat :: EndsString(s, k, escapes) && n == (if s[k] == '\n' then k else k + 1)
                  && forall j: nat :: j < k ==> !EndsString(s, j, escapes)
    else n == |s|
  }

  lemma EndsIff(s: string, k: nat, escapes: bool)
    requires s != ""
    ensures EndsString(s, k, escapes) <==> 1 <= k < |s| && Stops(s, k, escapes)
  {
    if 1 <= k < |s| {
      BackslashIff(s, k, Backslashes(s, k));
      if m: nat :| m % 2 == 1 && BackslashRun(s, k, m) { BackslashIff(s, k, m); }
    }
  }

  lemma FirstEnd(s: string, k: nat, j: nat, escapes: bool)
    requires s != "" && EndsString(s, k, escapes) && EndsString(s, j, escapes)
    requires (forall i :: 0 <= i < k ==> !EndsString(s, i, escapes)) && (forall i :: 0 <= i < j ==> !EndsString(s, i, escapes))
    ensures j == k
  {
  }

  /** The length of a string is that of its span. */
  lemma StringIff(s: string, n: nat, escapes: bool)
    requires s != "" && (s[0] == '"' || s[0] == '\'')
    ensures StringSpan(s, n, escapes) <==> n == Upto(QuotedLen(s, escapes), s)
  {
    QuotedStringEndsAtFirstStop(s, escapes);
    forall k: nat ensures EndsString(s, k, escapes) <==> 1 <= k < |s| && Stops(s, k, escapes) { EndsIff(s, k, escapes); }
    if k: nat :| EndsString(s, k, escapes) {
      var first :| 1 <= first < |s| && Stops(s, first, escapes)
                   && QuotedLen(s, escapes) == (if s[first] == '\n' then first else first + 1)
                   && forall j :: 1 <= j < first ==> !Stops(s, j, escapes);
      assert EndsString(s, first, escapes);
    }
  }

  /** Only white space stands from `n` up to a colon. */
  ghost predicate ColonBehind(s: string, n: nat) {
    exists k :: n <= k < |s| && s[k] == ':' && forall j :: n <= j < k ==> IsSpace(JavaScript, s[j])
  }

  lemma ColonIff(s: string, n: nat)
    ensures ColonFollows(s, n) <==> ColonBehind(s, n)
  {
    if n <= |s| {
      var k := n + CountWhile(s[n..], Space);
      CountIsRun(s, n, Space, WhiteSpace);
      assert !IsSpace(JavaScript, ':');
      if k' :| n <= k' < |s| && s[k'] == ':' && forall j :: n <= j < k' ==> IsSpace(JavaScript, s[j]) {
        RunUnique(s, n, k, k', WhiteSpace);
      }
    }
  }

  // ---- Comments, headers and strings of several lines ----

  /** The text up to its first line break. */
  ghost predicate LineSpan(s: string, n: nat) {
    n <= |s| && (forall i :: 0 <= i < n ==> s[i] != '\n') && (n < |s| ==> s[n] == '\n')
  }

  predicate SpelledAt(s: string, k: nat, word: string) {
    k + |word| <= |s| && s[k..k + |word|] == word
  }

  /** The text up to the first place from `from` on where the word ends, or to its end. */
  ghost predicate ThroughFirst(s: string, from: nat, word: string, n: nat) {
    if exists k :: from <= k && SpelledAt(s, k, word) then
      exists k :: from <= k && SpelledAt(s, k, word) && n == k + |word| && forall j :: from <= j < k ==> !SpelledAt(s, j, word)
    else n == |s|
  }

  /** The text up to the last `]` of its first line. */
  ghost predicate HeaderSpan(s: string, n: nat) {
    && 1 < n <= |s| && s[n - 1] == ']'
    && exists line :: LineSpan(s, line) && n <= line && forall i :: n <= i < line ==> s[i] != ']'
  }

  lemma LineIff(s: string, n: nat)
    ensures LineSpan(s, n) <==> n == IndexOrEnd(s, "\n")
  {
    var m := IndexOrEnd(s, "\n");
    IndexOrEndIsFirst(s, "\n");
    forall i | 0 <= i < |s| ensures Starts(s[i..], "\n") <==> s[i] == '\n' {
      assert Starts(s[i..][1..], "");
    }
  }

  lemma ThroughFirstIff(s: string, from: nat, word: string, n: nat)
    requires from <= |s| && word != ""
    ensures var c := from + IndexOrEnd(s[from..], word);
            ThroughFirst(s, from, word, n) <==> n == if c < |s| then c + |word| else |s|
  {
    var c := from + IndexOrEnd(s[from..], word);
    IndexOrEndIsFirst(s[from..], word);
    forall k | from <= k <= |s| ensures Starts(s[from..][k - from..], word) <==> SpelledAt(s, k, word) {
      assert s[from..][k - from..] == s[k..];
      StartsIff(s, k, word);
    }
    forall k | from <= k < c ensures !SpelledAt(s, k, word) {
      assert !Starts(s[from..][k - from..], word);
    }
    if c < |s| {
      assert Starts(s[from..][c - from..], word);
      assert SpelledAt(s, c, word);
    }
  }

  lemma {:induction false} AfterLastIs(s: string, c: char, n: nat)
    requires n <= |s|
    ensures n > 0 && s[n - 1] == c && (forall i :: n <= i < |s| ==> s[i] != c) <==> n > 0 && n == AfterLast(s, c)
  {
    if s != "" && s[|s| - 1] != c && n < |s| {
      AfterLastIs(s[..|s| - 1], c, n);
    }
  }

  lemma HeaderIff(s: string, n: nat)
    ensures HeaderSpan(s, n) <==> SectionLen(s) > 0 && n == SectionLen(s)
  {
    var line := IndexOrEnd(s, "\n");
    LineIff(s, line);
    if n <= line { AfterLastIs(s[..line], ']', n); }
    if m :| LineSpan(s, m) { LineIff(s, m); }
  }
}
