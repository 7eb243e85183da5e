/** The lexers' loops, branch by branch: each branch pushes a slice of the text and moves behind it. */
module CodeLexers {
  import opened Text
  import opened CodeLines
  import opened CodeHighlight

  // ---- Searching the whole text ----

  /** `text.indexOf(needle, from)`, or the end of the text. */
  function IndexFrom(text: string, needle: string, from: nat): (n: nat)
    requires from <= |text|
    ensures from <= n <= |text| && (n < |text| ==> n + |needle| <= |text|)
  {
    from + IndexOrEnd(text[from..], needle)
  }

  /** `text.lastIndexOf(c, end)`. */
  function LastIndexOf(text: string, c: char, end: nat): (n: int)
    ensures -1 <= n < |text|
  {
    AfterLast(text[..Upto(end + 1, text)], c) - 1
  }

  lemma {:induction false} AfterLastConcat(a: string, b: string, c: char)
    ensures AfterLast(a + b, c) == if AfterLast(b, c) > 0 then |a| + AfterLast(b, c) else AfterLast(a, c)
  {
    if b == "" {
      assert a + b == a;
    } else {
      var n := |b| - 1;
      assert (a + b)[..|a + b| - 1] == a + b[..n];
      AfterLastConcat(a, b[..n], c);
    }
  }

  /** The last `]` up to the end of the line is behind `i` exactly if the line has a header at `i`, and
      then it ends the header. */
  lemma HeaderClose(text: string, i: nat)
    requires i < |text| && text[i] == '['
    ensures var close := LastIndexOf(text, ']', IndexFrom(text, "\n", i));
            && (close > i <==> SectionLen(text[i..]) > 0)
            && (close > i ==> close + 1 - i == SectionLen(text[i..]))
  {
    var rest := text[i..];
    var n := IndexOrEnd(rest, "\n");
    var line, upto := rest[..n], Upto(i + n + 1, text);
    var b := text[i..upto];
    assert text[..upto] == text[..i] + b;
    AfterLastConcat(text[..i], b, ']');
    LineOf(rest, n, b);
    HeaderLine(line);
  }

  lemma LineOf(rest: string, n: nat, b: string)
    requires rest != "" && rest[0] == '[' && n == IndexOrEnd(rest, "\n") && b == rest[..Upto(n + 1, rest)]
    ensures n > 0 && AfterLast(b, ']') == AfterLast(rest[..n], ']')
  {
    IndexOrEndIsFirst(rest, "\n");
    if n < |rest| {
      assert Starts(rest[n..], "\n");
      assert b == rest[..n] + "\n";
      AfterLastConcat(rest[..n], "\n", ']');
      assert "\n"[..0] == "" && AfterLast("\n", ']') == 0;
    } else {
      assert b == rest[..n];
    }
  }

  lemma {:induction false} HeaderLine(line: string)
    requires line != "" && line[0] == '['
    ensures AfterLast(line, ']') != 1
  {
    if |line| > 1 && line[|line| - 1] != ']' { HeaderLine(line[..|line| - 1]); }
  }

  // ---- TOML ----

  ghost predicate TomlReached(text: string, cells: seq<Cell>, i: nat, st: TomlState) {
    Reached(text, TOML_START, TomlStep, cells, i, st)
  }

  /** The loop may push a slice of the text in this colour and go on behind it. */
  lemma TomlMoves(text: string, cells: seq<Cell>, i: nat, st: TomlState, kind: Kind, end: nat, next: TomlState)
    requires i < |text| && i < end && TomlReached(text, cells, i, st)
    requires TomlStep(text[i..], st) == (Piece(kind, end - i), next)
    ensures TomlReached(text, cells + Paint(kind, Slice(text, i, end)), end, next)
  {
    Advance(text, TOML_START, TomlStep, cells, i, st, kind, end, next);
  }

  lemma TomlBreak(text: string, cells: seq<Cell>, i: nat, st: TomlState)
    requires i < |text| && text[i] == '\n' && TomlReached(text, cells, i, st)
    ensures TomlReached(text, cells + Paint(Plain, "\n"), i + 1, TomlState(st.expectKey || st.braceDepth == 0, st.braceDepth))
  {
    TomlMoves(text, cells, i, st, Plain, i + 1, TomlState(st.expectKey || st.braceDepth == 0, st.braceDepth));
    assert Slice(text, i, i + 1) == "\n";
  }

  lemma OneChar(text: string, i: nat)
    requires i < |text|
    ensures Slice(text, i, i + 1) == [text[i]]
  {
  }

  lemma TomlBlank(text: string, cells: seq<Cell>, i: nat, st: TomlState)
    requires i < |text| && (text[i] == ' ' || text[i] == '\t' || text[i] == '\r') && TomlReached(text, cells, i, st)
    ensures TomlReached(text, cells + Paint(Plain, [text[i]]), i + 1, st)
  {
    TomlMoves(text, cells, i, st, Plain, i + 1, st);
    OneChar(text, i);
  }

  lemma NoBreakHere(text: string, i: nat)
    requires i < |text| && text[i] != '\n'
    ensures IndexFrom(text, "\n", i) > i
  {
  }

  lemma TomlComment(text: string, cells: seq<Cell>, i: nat, st: TomlState)
    requires i < |text| && text[i] == '#' && TomlReached(text, cells, i, st)
    ensures var end := IndexFrom(text, "\n", i);
            end > i && TomlReached(text, cells + Paint(Comment, Slice(text, i, end)), end, st)
  {
    NoBreakHere(text, i);
    TomlMoves(text, cells, i, st, Comment, IndexFrom(text, "\n", i), st);
  }

  lemma TomlHeader(text: string, cells: seq<Cell>, i: nat, st: TomlState, end: nat)
    requires i < |text| && text[i] == '[' && st.expectKey && TomlReached(text, cells, i, st)
    requires SectionLen(text[i..]) > 0 && end == i + SectionLen(text[i..])
    ensures TomlReached(text, cells + Paint(Section, Slice(text, i, end)), end, st)
  {
    HeaderToml(text[i..], st);
    TomlMoves(text, cells, i, st, Section, end, st);
  }

  lemma HeaderToml(s: string, st: TomlState)
    requires s != "" && s[0] == '[' && st.expectKey && SectionLen(s) > 0
    ensures TomlStep(s, st) == (Piece(Section, SectionLen(s)), st)
  {
  }

  /** The branches for line breaks, white space and comments. */
  method TomlLayout(out: LineBuilder, text: string, i: nat, expectKey: bool, braceDepth: nat)
    returns (done: bool, i': nat, expectKey': bool)
    requires i < |text| && out.Valid() && TomlReached(text, out.cells, i, TomlState(expectKey, braceDepth))
    modifies out
    ensures out.Valid() && TomlReached(text, out.cells, i', TomlState(expectKey', braceDepth))
    ensures if done then i' > i else i' == i && expectKey' == expectKey && text[i] !in "\n \t\r#"
  {
    var ch := text[i];
    ghost var st := TomlState(expectKey, braceDepth);
    done, i', expectKey' := true, i, expectKey;
    if ch == '\n' {
      TomlBreak(text, out.cells, i, st);
      out.Newline();
      i' := i + 1;
      if braceDepth == 0 { expectKey' := true; }
    } else if ch == ' ' || ch == '\t' || ch == '\r' {
      TomlBlank(text, out.cells, i, st);
      out.Push(Plain, [ch]);
      i' := i + 1;
    } else if ch == '#' {
      i' := IndexFrom(text, "\n", i);
      TomlComment(text, out.cells, i, st);
      out.Push(Comment, Slice(text, i, i'));
    } else {
      done := false;
    }
  }

  /** The branch for table headers: a bracket where a key is expected, with a closing one on its line. */
  method TomlTable(out: LineBuilder, text: string, i: nat, ghost st: TomlState) returns (done: bool, i': nat)
    requires i < |text| && text[i] == '[' && st.expectKey && out.Valid() && TomlReached(text, out.cells, i, st)
    modifies out
    ensures out.Valid() && TomlReached(text, out.cells, i', st)
    ensures if done then i' > i else i' == i && SectionLen(text[i..]) == 0
  {
    var end := IndexFrom(text, "\n", i);
    var close := LastIndexOf(text, ']', end);
    HeaderClose(text, i);
    done, i' := close > i, i;
    if done {
      i' := close + 1;
      TomlHeader(text, out.cells, i, st, i');
      out.Push(Section, Slice(text, i, i'));
    }
  }

  function Delimiter(ch: char): string {
    if ch == '"' then "\"\"\"" else "'''"
  }

  predicate IsQuote(ch: char) {
    ch == '"' || ch == '\''
  }

  lemma {:induction false} StartsIs(s: string, word: string)
    requires Starts(s, word)
    ensures s[..|word|] == word
  {
    if word != "" {
      StartsIs(s[1..], word[1..]);
      assert s[..|word|] == [s[0]] + s[1..][..|word| - 1];
      assert word == [word[0]] + word[1..];
    }
  }

  lemma DelimiterHere(text: string, i: nat)
    requires i < |text| && IsQuote(text[i])
    ensures StartsMultiline(text[i..]) <==> Starts(text[i..], Delimiter(text[i]))
    ensures StartsMultiline(text[i..]) ==> |text[i..]| >= 3 && text[i..][..3] == Delimiter(text[i])
  {
    if Starts(text[i..], Delimiter(text[i])) { StartsIs(text[i..], Delimiter(text[i])); }
  }

  /** Where a multi-line string ends. */
  function MultilineEnd(text: string, i: nat): (end: nat)
    requires i + 3 <= |text|
    ensures i < end
  {
    var close := IndexFrom(text, Delimiter(text[i]), i + 3);
    if close < |text| then close + 3 else |text|
  }

  lemma MultilineEndIs(text: string, i: nat)
    requires i < |text| && IsQuote(text[i]) && StartsMultiline(text[i..])
    ensures i + 3 <= |text| && MultilineEnd(text, i) - i == MultilineLen(text[i..], text[i..][..3])
  {
    DelimiterHere(text, i);
    assert text[i..][3..] == text[i + 3..];
  }

  lemma MultilineToml(s: string, st: TomlState)
    requires s != "" && IsQuote(s[0]) && StartsMultiline(s) && !st.expectKey
    ensures TomlStep(s, st) == (Piece(String, MultilineLen(s, s[..3])), st)
  {
  }

  lemma TomlMultiline(text: string, cells: seq<Cell>, i: nat, st: TomlState, end: nat)
    requires i + 3 <= |text| && IsQuote(text[i]) && StartsMultiline(text[i..]) && !st.expectKey && TomlReached(text, cells, i, st)
    requires end == MultilineEnd(text, i)
    ensures TomlReached(text, cells + Paint(String, Slice(text, i, end)), end, st)
  {
    MultilineEndIs(text, i);
    MultilineToml(text[i..], st);
    TomlMoves(text, cells, i, st, String, end, st);
  }

  lemma QuotedToml(s: string, st: TomlState)
    requires s != "" && IsQuote(s[0]) && !(StartsMultiline(s) && !st.expectKey)
    ensures TomlStep(s, st) == (Piece(if st.expectKey then Key else String, QuotedLen(s, s[0] == '"')), st)
  {
  }

  lemma TomlQuoted(text: string, cells: seq<Cell>, i: nat, st: TomlState, kind: Kind, end: nat)
    requires i < |text| && IsQuote(text[i]) && !(StartsMultiline(text[i..]) && !st.expectKey) && TomlReached(text, cells, i, st)
    requires kind == (if st.expectKey then Key else String) && end == i + QuotedLen(text[i..], text[i] == '"')
    ensures TomlReached(text, cells + Paint(kind, Slice(text, i, end)), end, st)
  {
    QuotedToml(text[i..], st);
    TomlMoves(text, cells, i, st, kind, end, st);
  }

  /** The branch for multi-line strings. */
  method TomlMultilineString(out: LineBuilder, text: string, i: nat, ghost st: TomlState) returns (end: nat)
    requires i < |text| && IsQuote(text[i]) && StartsMultiline(text[i..]) && !st.expectKey
    requires out.Valid() && TomlReached(text, out.cells, i, st)
    modifies out
    ensures out.Valid() && end > i && TomlReached(text, out.cells, end, st)
  {
    MultilineEndIs(text, i);
    var close := IndexFrom(text, Delimiter(text[i]), i + 3);
    end := if close < |text| then close + 3 else |text|;
    TomlMultiline(text, out.cells, i, st, end);
    out.Push(String, Slice(text, i, end));
  }

  /** The branch for other quoted strings, which are keys where a key is expected. */
  method TomlQuotedString(out: LineBuilder, text: string, i: nat, expectKey: bool, ghost st: TomlState) returns (end: nat)
    requires i < |text| && IsQuote(text[i]) && !(StartsMultiline(text[i..]) && !expectKey) && st.expectKey == expectKey
    requires out.Valid() && TomlReached(text, out.cells, i, st)
    modifies out
    ensures out.Valid() && end > i && TomlReached(text, out.cells, end, st)
  {
    var length := ReadQuoted(text, i, text[i] == '"');
    end := i + length;
    var kind := if expectKey then Key else String;
    TomlQuoted(text, out.cells, i, st, kind, end);
    out.Push(kind, Slice(text, i, end));
  }

  predicate IsMark(ch: char) {
    ch == '=' || ch == '{' || ch == '}' || ch == '[' || ch == ']' || ch == ',' || ch == '.'
  }

  lemma TomlOperator(text: string, cells: seq<Cell>, i: nat, st: TomlState)
    requires i < |text| && (text[i] == '=' || text[i] == ',' || text[i] == '.') && TomlReached(text, cells, i, st)
    ensures var expectKey := if text[i] == '=' then false else st.expectKey || (text[i] == ',' && st.braceDepth > 0);
            TomlReached(text, cells + Paint(Operator, [text[i]]), i + 1, TomlState(expectKey, st.braceDepth))
  {
    var expectKey := if text[i] == '=' then false else st.expectKey || (text[i] == ',' && st.braceDepth > 0);
    TomlMoves(text, cells, i, st, Operator, i + 1, TomlState(expectKey, st.braceDepth));
    OneChar(text, i);
  }

  lemma TomlOpens(text: string, cells: seq<Cell>, i: nat, st: TomlState)
    requires i < |text| && text[i] == '{' && TomlReached(text, cells, i, st)
    ensures TomlReached(text, cells + Paint(Punct, [text[i]]), i + 1, TomlState(true, st.braceDepth + 1))
  {
    TomlMoves(text, cells, i, st, Punct, i + 1, TomlState(true, st.braceDepth + 1));
    OneChar(text, i);
  }

  lemma TomlCloses(text: string, cells: seq<Cell>, i: nat, st: TomlState, depth: nat)
    requires i < |text| && text[i] == '}' && TomlReached(text, cells, i, st)
    requires depth == if st.braceDepth > 0 then st.braceDepth - 1 else 0
    ensures TomlReached(text, cells + Paint(Punct, [text[i]]), i + 1, TomlState(false, depth))
  {
    TomlMoves(text, cells, i, st, Punct, i + 1, TomlState(false, depth));
    OneChar(text, i);
  }

  lemma TomlBracket(text: string, cells: seq<Cell>, i: nat, st: TomlState)
    requires i < |text| && (text[i] == '[' || text[i] == ']') && TomlReached(text, cells, i, st)
    requires !(st.expectKey && text[i] == '[' && SectionLen(text[i..]) > 0)
    ensures TomlReached(text, cells + Paint(Punct, [text[i]]), i + 1, st)
  {
    TomlMoves(text, cells, i, st, Punct, i + 1, st);
    OneChar(text, i);
  }

  /** The branches for operators and brackets. */
  method TomlMark(out: LineBuilder, text: string, i: nat, expectKey: bool, braceDepth: nat)
    returns (expectKey': bool, braceDepth': nat)
    requires i < |text| && IsMark(text[i]) && !(expectKey && text[i] == '[' && SectionLen(text[i..]) > 0)
    requires out.Valid() && TomlReached(text, out.cells, i, TomlState(expectKey, braceDepth))
    modifies out
    ensures out.Valid() && TomlReached(text, out.cells, i + 1, TomlState(expectKey', braceDepth'))
  {
    var ch := text[i];
    ghost var st := TomlState(expectKey, braceDepth);
    expectKey', braceDepth' := expectKey, braceDepth;
    if ch == '=' {
      TomlOperator(text, out.cells, i, st);
      out.Push(Operator, [ch]);
      expectKey' := false;
    } else if ch == '{' {
      TomlOpens(text, out.cells, i, st);
      out.Push(Punct, [ch]);
      braceDepth', expectKey' := braceDepth + 1, true;
    } else if ch == '}' {
      braceDepth', expectKey' := if braceDepth > 0 then braceDepth - 1 else 0, false;
      TomlCloses(text, out.cells, i, st, braceDepth');
      out.Push(Punct, [ch]);
    } else if ch == '[' || ch == ']' {
      TomlBracket(text, out.cells, i, st);
      out.Push(Punct, [ch]);
    } else if ch == ',' {
      TomlOperator(text, out.cells, i, st);
      out.Push(Operator, [ch]);
      if braceDepth > 0 { expectKey' := true; }
    } else {
      TomlOperator(text, out.cells, i, st);
      out.Push(Operator, [ch]);
    }
  }

  /** What no branch before the keys and values takes. */
  predicate IsOrdinary(ch: char) {
    !IsMark(ch) && !IsQuote(ch) && ch !in "\n \t\r#"
  }

  lemma TomlOrdinary(text: string, i: nat, st: TomlState)
    requires i < |text| && IsOrdinary(text[i])
    ensures TomlStep(text[i..], st)
            == if !st.expectKey then (TomlScalar(text[i..]), st)
               else if CountWhile(text[i..], BareKey) > 0 then (Piece(Key, CountWhile(text[i..], BareKey)), st)
               else (Piece(Plain, 1), st)
  {
  }

  lemma TomlKeyMoves(text: string, cells: seq<Cell>, i: nat, st: TomlState, kind: Kind, end: nat)
    requires i < |text| && IsOrdinary(text[i]) && st.expectKey && TomlReached(text, cells, i, st)
    requires var n := CountWhile(text[i..], BareKey);
             kind == (if n > 0 then Key else Plain) && end == i + (if n > 0 then n else 1)
    ensures TomlReached(text, cells + Paint(kind, Slice(text, i, end)), end, st)
  {
    TomlOrdinary(text, i, st);
    TomlMoves(text, cells, i, st, kind, end, st);
  }

  lemma TomlValueMoves(text: string, cells: seq<Cell>, i: nat, st: TomlState, kind: Kind, end: nat)
    requires i < |text| && i < end && IsOrdinary(text[i]) && !st.expectKey && TomlReached(text, cells, i, st)
    requires TomlScalar(text[i..]) == Piece(kind, end - i)
    ensures TomlReached(text, cells + Paint(kind, Slice(text, i, end)), end, st)
  {
    TomlOrdinary(text, i, st);
    TomlMoves(text, cells, i, st, kind, end, st);
  }

  /** The branches where a key is expected. */
  method TomlKey(out: LineBuilder, text: string, i: nat, ghost braceDepth: nat) returns (end: nat)
    requires i < |text| && IsOrdinary(text[i])
    requires out.Valid() && TomlReached(text, out.cells, i, TomlState(true, braceDepth))
    modifies out
    ensures out.Valid() && end > i && TomlReached(text, out.cells, end, TomlState(true, braceDepth))
  {
    ghost var st := TomlState(true, braceDepth);
    var bare := CountWhile(text[i..], BareKey);
    if bare > 0 {
      end := i + bare;
      TomlKeyMoves(text, out.cells, i, st, Key, end);
      out.Push(Key, Slice(text, i, end));
      return;
    }
    end := i + 1;
    TomlKeyMoves(text, out.cells, i, st, Plain, end);
    OneChar(text, i);
    out.Push(Plain, [text[i]]);
  }

  /** The branches for values. */
  method TomlValue(out: LineBuilder, text: string, i: nat, ghost braceDepth: nat) returns (end: nat)
    requires i < |text| && IsOrdinary(text[i])
    requires out.Valid() && TomlReached(text, out.cells, i, TomlState(false, braceDepth))
    modifies out
    ensures out.Valid() && end > i && TomlReached(text, out.cells, end, TomlState(false, braceDepth))
  {
    ghost var st := TomlState(false, braceDepth);
    var rest := text[i..];
    var date := DateLen(rest);
    if date > 0 {
      end := i + date;
      TomlValueMoves(text, out.cells, i, st, Date, end);
      out.Push(Date, Slice(text, i, end));
      return;
    }
    if StartsWord(rest, "true") || StartsWord(rest, "false") {
      end := i + if StartsWord(rest, "true") then 4 else 5;
      TomlValueMoves(text, out.cells, i, st, Boolean, end);
      out.Push(Boolean, Slice(text, i, end));
      return;
    }
    var number := NumberLen(rest);
    if number > 0 && (In(Digit, text[i]) || text[i] == '+' || text[i] == '-') {
      end := i + number;
      TomlValueMoves(text, out.cells, i, st, Number, end);
      out.Push(Number, Slice(text, i, end));
      return;
    }
    var bare := CountWhile(rest, BareKey);
    if bare > 0 {
      end := i + bare;
      TomlValueMoves(text, out.cells, i, st, Plain, end);
      out.Push(Plain, Slice(text, i, end));
      return;
    }
    end := i + 1;
    TomlValueMoves(text, out.cells, i, st, Plain, end);
    OneChar(text, i);
    out.Push(Plain, [text[i]]);
  }

  method TokenizeToml(text: string) returns (lines: seq<Line>)
    ensures lines == Lines(Coloured(text, TOML_START, TomlStep))
  {
    var out := new LineBuilder();
    var i, expectKey, braceDepth := 0, true, 0;
    Begun(text, TOML_START, TomlStep);
    while i < |text|
      invariant fresh(out) && out.Valid() && TomlReached(text, out.cells, i, TomlState(expectKey, braceDepth))
    {
      var done;
      done, i, expectKey := TomlLayout(out, text, i, expectKey, braceDepth);
      if done { continue; }
      if expectKey && text[i] == '[' {
        done, i := TomlTable(out, text, i, TomlState(expectKey, braceDepth));
        if done { continue; }
      }
      if IsQuote(text[i]) {
        DelimiterHere(text, i);
        if Starts(text[i..], Delimiter(text[i])) && !expectKey {
          i := TomlMultilineString(out, text, i, TomlState(expectKey, braceDepth));
        } else {
          i := TomlQuotedString(out, text, i, expectKey, TomlState(expectKey, braceDepth));
        }
      } else if IsMark(text[i]) {
        expectKey, braceDepth := TomlMark(out, text, i, expectKey, braceDepth);
        i := i + 1;
      } else if expectKey {
        i := TomlKey(out, text, i, braceDepth);
      } else {
        i := TomlValue(out, text, i, braceDepth);
      }
    }
    Finished(text, TOML_START, TomlStep, out.cells, i, TomlState(expectKey, braceDepth));
    lines := out.lines;
  }

  // ---- JSON ----

  ghost predicate JsonReached(text: string, cells: seq<Cell>, i: nat) {
    Reached(text, (), JsonStep, cells, i, ())
  }

  lemma JsonMoves(text: string, cells: seq<Cell>, i: nat, kind: Kind, end: nat)
    requires i < |text| && i < end && JsonReached(text, cells, i)
    requires JsonPieceOf(text[i..]) == Piece(kind, end - i)
    ensures JsonReached(text, cells + Paint(kind, Slice(text, i, end)), end)
  {
    Advance(text, (), JsonStep, cells, i, (), kind, end, ());
  }

  lemma JsonBreak(text: string, cells: seq<Cell>, i: nat)
    requires i < |text| && text[i] == '\n' && JsonReached(text, cells, i)
    ensures JsonReached(text, cells + Paint(Plain, "\n"), i + 1)
  {
    JsonMoves(text, cells, i, Plain, i + 1);
    assert Slice(text, i, i + 1) == "\n";
  }

  lemma QuotedJson(s: string)
    requires s != "" && s[0] == '"'
    ensures JsonPieceOf(s) == Piece(if ColonFollows(s, QuotedLen(s, true)) then Key else String, QuotedLen(s, true))
  {
  }

  lemma JsonQuoted(text: string, cells: seq<Cell>, i: nat, kind: Kind, end: nat)
    requires i < |text| && text[i] == '"' && JsonReached(text, cells, i) && end == i + QuotedLen(text[i..], true)
    requires kind == if ColonFollows(text[i..], end - i) then Key else String
    ensures JsonReached(text, cells + Paint(kind, Slice(text, i, end)), end)
  {
    QuotedJson(text[i..]);
    JsonMoves(text, cells, i, kind, end);
  }

  lemma ProbeStep(text: string, i: nat)
    requires i < |text| && IsSpace(JavaScript, text[i])
    ensures CountWhile(text[i..], Space) == 1 + CountWhile(text[i + 1..], Space)
  {
    assert text[i..][1..] == text[i + 1..];
  }

  /** Whether the first character behind `from` that is not white space is a colon. */
  method ProbeColon(text: string, from: nat) returns (found: bool)
    requires from <= |text|
    ensures found == At(text[from..], CountWhile(text[from..], Space), ':')
  {
    var probe := from;
    while probe < |text| && IsSpace(JavaScript, text[probe])
      invariant from <= probe <= |text|
      invariant probe + CountWhile(text[probe..], Space) == from + CountWhile(text[from..], Space)
    {
      ProbeStep(text, probe);
      probe := probe + 1;
    }
    found := probe < |text| && text[probe] == ':';
  }

  /** A string is a key when a colon is the next thing behind it. */
  method StringKind(text: string, i: nat, length: nat) returns (kind: Kind)
    requires i < |text|
    ensures kind == if ColonFollows(text[i..], length) then Key else String
  {
    kind := String;
    if i + length <= |text| {
      assert text[i..][length..] == text[i + length..];
      var found := ProbeColon(text, i + length);
      if found { kind := Key; }
    }
  }

  /** The branch for strings. */
  method JsonString(out: LineBuilder, text: string, i: nat) returns (end: nat)
    requires i < |text| && text[i] == '"' && out.Valid() && JsonReached(text, out.cells, i)
    modifies out
    ensures out.Valid() && end > i && JsonReached(text, out.cells, end)
  {
    var length := ReadQuoted(text, i, true);
    var kind := StringKind(text, i, length);
    end := i + length;
    JsonQuoted(text, out.cells, i, kind, end);
    out.Push(kind, Slice(text, i, end));
  }

  predicate OpensComment(text: string, i: nat) {
    i + 1 < |text| && text[i] == '/' && (text[i + 1] == '/' || text[i + 1] == '*')
  }

  /** Where a comment ends: at the end of the line, or behind the closing mark. */
  function CommentEnd(text: string, i: nat): (end: nat)
    requires OpensComment(text, i)
  {
    if text[i + 1] == '/' then IndexFrom(text, "\n", i)
    else if IndexFrom(text, "*/", i + 2) + 2 <= |text| then IndexFrom(text, "*/", i + 2) + 2
    else |text|
  }

  lemma CommentJson(text: string, i: nat)
    requires OpensComment(text, i)
    ensures i < CommentEnd(text, i) && JsonPieceOf(text[i..]) == Piece(Comment, CommentEnd(text, i) - i)
  {
    NoBreakHere(text, i);
    assert text[i..][2..] == text[i + 2..] && text[i..][1] == text[i + 1];
  }

  lemma JsonComments(text: string, cells: seq<Cell>, i: nat, end: nat)
    requires OpensComment(text, i) && JsonReached(text, cells, i) && end == CommentEnd(text, i)
    ensures i < end && JsonReached(text, cells + Paint(Comment, Slice(text, i, end)), end)
  {
    CommentJson(text, i);
    JsonMoves(text, cells, i, Comment, end);
  }

  /** The branch for comments. */
  method JsonComment(out: LineBuilder, text: string, i: nat) returns (end: nat)
    requires OpensComment(text, i) && out.Valid() && JsonReached(text, out.cells, i)
    modifies out
    ensures out.Valid() && end > i && JsonReached(text, out.cells, end)
  {
    if text[i + 1] == '/' {
      end := IndexFrom(text, "\n", i);
    } else {
      var close := IndexFrom(text, "*/", i + 2);
      end := if close + 2 <= |text| then close + 2 else |text|;
    }
    JsonComments(text, out.cells, i, end);
    out.Push(Comment, Slice(text, i, end));
  }

  predicate IsJsonMark(ch: char) {
    ch == '{' || ch == '}' || ch == '[' || ch == ']' || ch == ':' || ch == ','
  }

  lemma JsonMark(text: string, cells: seq<Cell>, i: nat)
    requires i < |text| && IsJsonMark(text[i]) && JsonReached(text, cells, i)
    ensures var kind := if text[i] == ':' || text[i] == ',' then Operator else Punct;
            JsonReached(text, cells + Paint(kind, [text[i]]), i + 1)
  {
    JsonMoves(text, cells, i, if text[i] == ':' || text[i] == ',' then Operator else Punct, i + 1);
    OneChar(text, i);
  }

  /** What no branch before the words and numbers takes. */
  predicate IsJsonOrdinary(text: string, i: nat) {
    i < |text| && text[i] != '\n' && text[i] != '"' && !IsJsonMark(text[i]) && !OpensComment(text, i)
  }

  lemma JsonOrdinary(text: string, i: nat)
    requires IsJsonOrdinary(text, i)
    ensures JsonPieceOf(text[i..]) == JsonScalar(text[i..])
  {
    assert i + 1 < |text| ==> text[i..][1] == text[i + 1];
  }

  lemma JsonScalarMoves(text: string, cells: seq<Cell>, i: nat, kind: Kind, end: nat)
    requires IsJsonOrdinary(text, i) && i < end && JsonReached(text, cells, i)
    requires JsonScalar(text[i..]) == Piece(kind, end - i)
    ensures JsonReached(text, cells + Paint(kind, Slice(text, i, end)), end)
  {
    JsonOrdinary(text, i);
    JsonMoves(text, cells, i, kind, end);
  }

  /** The branches for words, numbers and everything else. */
  method JsonValue(out: LineBuilder, text: string, i: nat) returns (end: nat)
    requires IsJsonOrdinary(text, i) && out.Valid() && JsonReached(text, out.cells, i)
    modifies out
    ensures out.Valid() && end > i && JsonReached(text, out.cells, end)
  {
    var rest := text[i..];
    if StartsWord(rest, "true") || StartsWord(rest, "false") {
      end := i + if StartsWord(rest, "true") then 4 else 5;
      JsonScalarMoves(text, out.cells, i, Boolean, end);
      out.Push(Boolean, Slice(text, i, end));
      return;
    }
    if StartsWord(rest, "null") {
      end := i + 4;
      JsonScalarMoves(text, out.cells, i, Null, end);
      out.Push(Null, Slice(text, i, end));
      return;
    }
    var number := NumberLen(rest);
    if number > 0 && (In(Digit, text[i]) || text[i] == '+' || text[i] == '-') {
      end := i + number;
      JsonScalarMoves(text, out.cells, i, Number, end);
      out.Push(Number, Slice(text, i, end));
      return;
    }
    end := i + 1;
    JsonScalarMoves(text, out.cells, i, Plain, end);
    OneChar(text, i);
    out.Push(Plain, [text[i]]);
  }

  method TokenizeJson(text: string) returns (lines: seq<Line>)
    ensures lines == Lines(Coloured(text, (), JsonStep))
  {
    var out := new LineBuilder();
    var i := 0;
    Begun(text, (), JsonStep);
    while i < |text|
      invariant fresh(out) && out.Valid() && JsonReached(text, out.cells, i)
    {
      var ch := text[i];
      if ch == '\n' {
        JsonBreak(text, out.cells, i);
        out.Newline();
        i := i + 1;
      } else if ch == '"' {
        i := JsonString(out, text, i);
      } else if OpensComment(text, i) {
        i := JsonComment(out, text, i);
      } else if IsJsonMark(ch) {
        JsonMark(text, out.cells, i);
        out.Push(if ch == ':' || ch == ',' then Operator else Punct, [ch]);
        i := i + 1;
      } else {
        i := JsonValue(out, text, i);
      }
    }
    Finished(text, (), JsonStep, out.cells, i, ());
    lines := out.lines;
  }

  method TokenizeCode(text: string, language: Language) returns (lines: seq<Line>)
    ensures lines == Lines(Cells(text, language))
    ensures Flatten(lines) == text && Compact(lines) && |lines| == |Split(text)|
  {
    if language == Json {
      lines := TokenizeJson(text);
    } else {
      lines := TokenizeToml(text);
    }
    HighlightIsLossless(text, language);
  }
}
