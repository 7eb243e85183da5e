/** What the documents and the form say, in numbers and by the names of the fields. */
module MetadataTexts {
  import opened Wrappers
  import opened Text
  import opened Decimal
  import opened TokenLimits
  import opened WindowTexts
  import opened AutoCompact
  import opened JsonRecords
  import opened MetadataDocument

  // ---- The window of the form ----

  /** Digits and a unit, with white space around them, are a window JavaScript holds if the product is
      positive and at most 2^53 - 1. */
  lemma SafeWindowIs(before: string, d: string, unit: string, factor: nat, after: string)
    requires Blank(JavaScript, before) && Blank(JavaScript, after) && AllDigits(d) && d != "" && IsUnit(unit, factor)
    ensures SafeWindow(before + (d + unit) + after)
            == if 0 < Value(d) * factor <= 9_007_199_254_740_991 then Some(Value(d) * factor) else None
  {
    WindowIs(before, d, unit, factor, after);
  }

  lemma SafeWindowTrimmed(text: string)
    ensures SafeWindow(Trim(JavaScript, text)) == SafeWindow(text)
  {
    TrimTwice(JavaScript, text);
  }

  lemma FormIsNotBlank(before: string, d: string, unit: string, factor: nat, after: string)
    requires Blank(JavaScript, before) && Blank(JavaScript, after) && AllDigits(d) && d != "" && IsUnit(unit, factor)
    ensures Trim(JavaScript, before + (d + unit) + after) == d + unit
  {
    UnitTail(d, unit, factor);
    TrimUnique(JavaScript, before, d + unit, after);
  }

  /** Synchronising writes the tokens the form's text stands for into the field of the one model with the
      slug, or refuses a number that is zero or too large. */
  lemma WindowIsWritten(doc: seq<Item>, slug: string, i: nat, before: string, d: string, unit: string, factor: nat, after: string)
    requires OnlyMatch(doc, slug, i)
    requires Blank(JavaScript, before) && Blank(JavaScript, after) && AllDigits(d) && d != "" && IsUnit(unit, factor)
    ensures var written := SyncWindow(doc, slug, before + (d + unit) + after);
            if 0 < Value(d) * factor <= 9_007_199_254_740_991 then
              && written.Some? && |written.value| == |doc| && written.value[i].Model?
              && Get(written.value[i].fields, "context_window") == Some(Integer(Value(d) * factor))
            else written == None
  {
    var text := before + (d + unit) + after;
    MatchesAre(doc, slug, i);
    SafeWindowIs(before, d, unit, factor, after);
    SafeWindowTrimmed(text);
    FormIsNotBlank(before, d, unit, factor, after);
    var value := SafeWindow(Trim(JavaScript, text));
    AssignedGet(doc[i].fields, CONTEXT_WINDOW, value, "context_window");
    ReorderedKeeps(Assigned(doc[i].fields, CONTEXT_WINDOW, value), "context_window");
  }

  /** A blank window clears the field, if it is there. */
  lemma BlankIsWritten(doc: seq<Item>, slug: string, i: nat, blank: string)
    requires OnlyMatch(doc, slug, i) && Blank(JavaScript, blank)
    ensures var written := SyncWindow(doc, slug, blank);
            && written.Some? && |written.value| == |doc| && written.value[i].Model?
            && Get(written.value[i].fields, "context_window")
               == if Get(doc[i].fields, "context_window").Some? then Some(Null) else None
  {
    MatchesAre(doc, slug, i);
    TrimBlank(JavaScript, blank);
    TrimTight(JavaScript, "");
    assert Window("") == None;
    AssignedGet(doc[i].fields, CONTEXT_WINDOW, None, "context_window");
    ReorderedKeeps(Assigned(doc[i].fields, CONTEXT_WINDOW, None), "context_window");
  }

  // ---- The order of the fields ----

  function Rank(key: string): nat {
    if key == "slug" then 0 else if key == "context_window" then 1 else if key == "auto_compact_token_limit" then 2 else 3
  }

  lemma {:induction false} UnmanagedFrom(fs: Record, i: nat) returns (p: nat)
    requires i < |Unmanaged(fs)|
    ensures p < |fs| && fs[p] == Unmanaged(fs)[i] && Rank(fs[p].key) == 3
  {
    if Managed(fs[0].key) {
      var q := UnmanagedFrom(fs[1..], i);
      p := q + 1;
    } else if i == 0 {
      p := 0;
    } else {
      var q := UnmanagedFrom(fs[1..], i - 1);
      p := q + 1;
    }
  }

  lemma {:induction false} UnmanagedInOrder(fs: Record, i: nat, j: nat) returns (p: nat, q: nat)
    requires i < j < |Unmanaged(fs)|
    ensures p < q < |fs| && fs[p] == Unmanaged(fs)[i] && fs[q] == Unmanaged(fs)[j] && Rank(fs[p].key) == Rank(fs[q].key) == 3
  {
    if Managed(fs[0].key) {
      var p', q' := UnmanagedInOrder(fs[1..], i, j);
      p, q := p' + 1, q' + 1;
    } else if i == 0 {
      var q' := UnmanagedFrom(fs[1..], j - 1);
      p, q := 0, q' + 1;
    } else {
      var p', q' := UnmanagedInOrder(fs[1..], i - 1, j - 1);
      p, q := p' + 1, q' + 1;
    }
  }

  lemma ManagedRanks(fs: Record)
    ensures forall i :: 0 <= i < |ManagedFields(fs)| ==> Rank(ManagedFields(fs)[i].key) < 3
    ensures forall i, j :: 0 <= i < j < |ManagedFields(fs)| ==> Rank(ManagedFields(fs)[i].key) < Rank(ManagedFields(fs)[j].key)
  {
  }

  /** After reordering, the slug stands before the window, the window before the limit and the limit before
      all other fields, which stand in the order they had. */
  lemma ReorderedInOrder(fs: Record, i: nat, j: nat)
    requires i < j < |Reordered(fs)|
    ensures var a, b := Reordered(fs)[i], Reordered(fs)[j];
            || Rank(a.key) < Rank(b.key)
            || (Rank(a.key) == Rank(b.key) == 3 && exists p, q :: 0 <= p < q < |fs| && fs[p] == a && fs[q] == b)
  {
    var m := |ManagedFields(fs)|;
    ManagedRanks(fs);
    if i >= m {
      var p, q := UnmanagedInOrder(fs, i - m, j - m);
    } else if j >= m {
      var q := UnmanagedFrom(fs, j - m);
    }
  }

  // ---- Reading the numbers of a document ----

  /** A field counts as a number of tokens if it is an integer from 1 to 2^53 - 1. */
  lemma IntegerIs(n: int)
    ensures PositiveInteger(Integer(n)) == if 0 < n <= 9_007_199_254_740_991 then Some(Print(n)) else None
  {
  }

  /** Or a text of digits for such an integer, with white space around it. */
  lemma DigitsAreInteger(before: string, d: string, after: string)
    requires Blank(JavaScript, before) && Blank(JavaScript, after) && AllDigits(d) && d != ""
    ensures PositiveInteger(Str(before + d + after))
            == if 0 < Value(d) <= 9_007_199_254_740_991 then Some(Print(Value(d))) else None
  {
    DigitsTight(d);
    TrimUnique(JavaScript, before, d, after);
    DigitCountStops(d, "");
    assert d + "" == d;
  }

  /** Nothing else does. */
  lemma OnlyIntegers(v: Json) returns (before: string, d: string, after: string)
    requires PositiveInteger(v).Some?
    ensures v.Integer? || (v.Str? && v.s == before + d + after && Blank(JavaScript, before) && Blank(JavaScript, after)
                           && AllDigits(d) && d != "")
  {
    if v.Str? {
      before, after := TrimParts(JavaScript, v.s);
      d := Trim(JavaScript, v.s);
      CountedDigits(d);
      assert d[..|d|] == d;
    } else {
      before, d, after := "", "", "";
    }
  }

  /** The summary parameter takes the value of the older field if it is not there itself. */
  lemma SummaryIs(metadata: Record, key: string)
    ensures Get(WithSummary(metadata), key)
            == if key == "supports_reasoning_summary_parameter" && Get(metadata, key) == None
                  && Get(metadata, "supports_reasoning_summaries").Some?
                  && Get(metadata, "supports_reasoning_summaries").value.Bool?
               then Get(metadata, "supports_reasoning_summaries")
               else Get(metadata, key)
  {
    match Get(metadata, SUMMARIES) {
      case Some(Bool(b)) => GetAppend(metadata, [Field(SUMMARY_PARAMETER, Bool(b))], key);
      case _ =>
    }
  }

  // ---- The percentage of the form ----

  predicate IsPercentSign(sign: string) {
    sign == "" || sign == "%"
  }

  lemma BareOf(s: string, sign: string)
    requires Tight(JavaScript, s) && s != "" && s[|s| - 1] != '%' && IsPercentSign(sign)
    ensures Tight(JavaScript, s + sign) && DropPercentSign(s + sign) == s
  {
    assert (s + sign)[..|s|] == s;
    if sign == "" { assert s + sign == s; }
  }

  lemma NormalizedPercent(before: string, s: string, sign: string, after: string, text: string)
    requires Blank(JavaScript, before) && Blank(JavaScript, after) && IsPercentSign(sign)
    requires IsDecimal(s) && s[|s| - 1] != '%' && text == before + (s + sign) + after
    ensures IsValid(text) <==> 0 < DecimalValue(s) <= 100_000_000
    ensures Normalize(text) == if 0 < DecimalValue(s) <= 100_000_000 then s + "%" else s + sign
  {
    DecimalTight(s);
    BareOf(s, sign);
    TrimUnique(JavaScript, before, s + sign, after);
    TrimTight(JavaScript, s + sign);
    TrimTight(JavaScript, s);
  }

  /** A number with at most six decimals and an optional percent sign is valid above 0 and up to 100, and
      normalised to have the sign; otherwise it is only trimmed. */
  lemma NormalizeIs(before: string, w: string, f: string, sign: string, after: string, millionths: nat)
    requires Blank(JavaScript, before) && Blank(JavaScript, after) && IsPercentSign(sign)
    requires AllDigits(w) && w != "" && AllDigits(f) && |f| <= 6
    requires millionths == Value(w) * 1_000_000 + Value(f) * Pow10(6 - |f|)
    ensures var s := w + (if f != "" then "." + f else "");
            var text := before + (s + sign) + after;
            && (IsValid(text) <==> 0 < millionths <= 100_000_000)
            && Normalize(text) == if 0 < millionths <= 100_000_000 then s + "%" else s + sign
  {
    var s := DecimalText(w, f);
    DecimalIs(w, f, s, millionths);
    LastDigit(w, f, s);
    NormalizedPercent(before, s, sign, after, before + (s + sign) + after);
  }

  lemma SignDroppedFrom(t: string, bare: string) returns (sign: string)
    requires bare == DropPercentSign(t)
    ensures IsPercentSign(sign) && t == bare + sign
  {
    sign := if bare == t then "" else "%";
  }

  /** No other text is valid, but for a blank one. */
  lemma OnlyValid(text: string) returns (before: string, w: string, f: string, sign: string, after: string)
    requires IsValid(text) && Trim(JavaScript, text) != ""
    ensures Blank(JavaScript, before) && Blank(JavaScript, after) && IsPercentSign(sign)
    ensures AllDigits(w) && w != "" && AllDigits(f) && |f| <= 6
    ensures text == before + (w + (if f != "" then "." + f else "") + sign) + after
  {
    before, after := TrimParts(JavaScript, text);
    sign := SignDroppedFrom(Trim(JavaScript, text), Bare(text));
    w, f := DecimalParts(Bare(text));
  }

  /** A blank text is valid, and a text that is not is only trimmed. */
  lemma OthersTrimmed(text: string)
    ensures Trim(JavaScript, text) == "" ==> IsValid(text) && Normalize(text) == ""
    ensures !IsValid(text) ==> Normalize(text) == Trim(JavaScript, text)
  {
    TrimTwice(JavaScript, text);
  }
}
