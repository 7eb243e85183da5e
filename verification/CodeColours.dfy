/** The tokens of the two languages, stated on the characters of the text, and the colours they give it. */
module CodeColours {
  import opened Text
  import opened CodeLines
  import opened CodeHighlight
  import opened CodeTokens

  // ---- JSON ----

  predicate OpensNumber(s: string) {
    Here(s, 0, "+-0123456789")
  }

  ghost predicate StartsNumber(s: string) {
    OpensNumber(s) && exists m :: NumberSpan(s, m)
  }

  ghost predicate JsonCommentSpan(s: string, n: nat) {
    || (SpelledAt(s, 0, "//") && LineSpan(s, n))
    || (SpelledAt(s, 0, "/*") && ThroughFirst(s, 2, "*/", n))
  }

  /** A token of this kind and length stands at the start of the text. */
  ghost predicate JsonToken(s: string, n: nat, kind: Kind)
    requires s != ""
  {
    match kind
    case Key => s[0] == '"' && StringSpan(s, n, true) && ColonBehind(s, n)
    case String => s[0] == '"' && StringSpan(s, n, true) && !ColonBehind(s, n)
    case Comment => JsonCommentSpan(s, n)
    case Boolean => (n == 4 && IsWord(s, "true")) || (n == 5 && IsWord(s, "false"))
    case Null => n == 4 && IsWord(s, "null")
    case Number => OpensNumber(s) && NumberSpan(s, n)
    case Punct => n == 1 && Here(s, 0, "{}[]")
    case Operator => n == 1 && Here(s, 0, ":,")
    case Plain =>
      && n == 1 && !Here(s, 0, "\"{}[]:,") && !SpelledAt(s, 0, "//") && !SpelledAt(s, 0, "/*")
      && !IsWord(s, "true") && !IsWord(s, "false") && !IsWord(s, "null") && !StartsNumber(s)
    case _ => false
  }

  ghost predicate JsonPieceIs(s: string, n: nat, kind: Kind)
    requires s != ""
  {
    JsonPieceOf(s).kind == kind && n == Upto(JsonPieceOf(s).length, s)
  }

  lemma WordFirst(s: string, word: string)
    requires word != "" && IsWord(s, word)
    ensures s[0] == word[0]
  {
    assert s[0] == s[..|word|][0];
  }

  lemma SpelledFirst(s: string, word: string)
    requires |word| == 2
    ensures SpelledAt(s, 0, word) <==> |s| >= 2 && s[0] == word[0] && s[1] == word[1]
  {
    if |s| >= 2 { assert s[0..2] == [s[0], s[1]]; }
    assert word == [word[0], word[1]];
    if SpelledAt(s, 0, word) { assert s[0] == s[0..2][0] && s[1] == s[0..2][1]; }
  }

  /** No word stands at a text that starts otherwise. */
  lemma NoWord(s: string)
    requires s != ""
    ensures IsWord(s, "true") ==> s[0] == 't'
    ensures IsWord(s, "false") ==> s[0] == 'f'
    ensures IsWord(s, "null") ==> s[0] == 'n'
  {
    if IsWord(s, "true") { WordFirst(s, "true"); }
    if IsWord(s, "false") { WordFirst(s, "false"); }
    if IsWord(s, "null") { WordFirst(s, "null"); }
  }

  lemma JsonStringIff(s: string, n: nat, kind: Kind)
    requires s != "" && s[0] == '"'
    ensures JsonToken(s, n, kind) <==> JsonPieceIs(s, n, kind)
  {
    StringIff(s, n, true);
    ColonIff(s, QuotedLen(s, true));
    NoWord(s);
    SpelledFirst(s, "//");
    SpelledFirst(s, "/*");
  }

  lemma JsonCommentIff(s: string, n: nat, kind: Kind)
    requires s != "" && (SpelledAt(s, 0, "//") || SpelledAt(s, 0, "/*"))
    ensures JsonToken(s, n, kind) <==> JsonPieceIs(s, n, kind)
  {
    NoWord(s);
    SpelledFirst(s, "//");
    SpelledFirst(s, "/*");
    LineIff(s, n);
    ThroughFirstIff(s, 2, "*/", n);
  }

  lemma JsonMarkIff(s: string, n: nat, kind: Kind)
    requires s != "" && Here(s, 0, "{}[]:,\n")
    ensures JsonToken(s, n, kind) <==> JsonPieceIs(s, n, kind)
  {
    NoWord(s);
    SpelledFirst(s, "//");
    SpelledFirst(s, "/*");
  }

  /** The length of a number that may be coloured as one, or 0. */
  ghost function ColouredNumber(s: string): nat
    requires s != ""
  {
    if In(Digit, s[0]) || SignAt(s, 0) then NumberLen(s) else 0
  }

  lemma NumberMeans(s: string, n: nat)
    requires s != ""
    ensures OpensNumber(s) && NumberSpan(s, n) <==> ColouredNumber(s) > 0 && n == ColouredNumber(s)
    ensures StartsNumber(s) <==> ColouredNumber(s) > 0
  {
    NumberIff(s, n);
    NumberIff(s, NumberLen(s));
    if m :| NumberSpan(s, m) { NumberIff(s, m); }
    assert OpensNumber(s) <==> In(Digit, s[0]) || SignAt(s, 0);
  }

  lemma NotMarks(s: string)
    requires s != "" && Here(s, 0, "tfn")
    ensures s[0] !in "{}[]:,\n\"" && s[0] !in "+-0123456789" && !SpelledAt(s, 0, "//") && !SpelledAt(s, 0, "/*")
  {
    SpelledFirst(s, "//");
    SpelledFirst(s, "/*");
  }

  lemma JsonWordPiece(s: string)
    requires s != "" && Here(s, 0, "tfn")
    ensures JsonPieceOf(s) == if IsWord(s, "true") then Piece(Boolean, 4)
                              else if IsWord(s, "false") then Piece(Boolean, 5)
                              else if IsWord(s, "null") then Piece(Null, 4)
                              else Piece(Plain, 1)
  {
  }

  lemma JsonWordIff(s: string, n: nat, kind: Kind)
    requires s != "" && Here(s, 0, "tfn")
    ensures JsonToken(s, n, kind) <==> JsonPieceIs(s, n, kind)
  {
    NoWord(s);
    NotMarks(s);
    JsonWordPiece(s);
  }

  lemma JsonNumberPiece(s: string)
    requires s != "" && !Here(s, 0, "{}[]:,\n\"tfn") && !SpelledAt(s, 0, "//") && !SpelledAt(s, 0, "/*")
    ensures JsonPieceOf(s) == if ColouredNumber(s) > 0 then Piece(Number, ColouredNumber(s)) else Piece(Plain, 1)
    ensures ColouredNumber(s) <= |s|
  {
    NoWord(s);
    SpelledFirst(s, "//");
    SpelledFirst(s, "/*");
  }

  lemma JsonNumberIff(s: string, n: nat, kind: Kind)
    requires s != "" && !Here(s, 0, "{}[]:,\n\"tfn") && !SpelledAt(s, 0, "//") && !SpelledAt(s, 0, "/*")
    ensures JsonToken(s, n, kind) <==> JsonPieceIs(s, n, kind)
  {
    NoWord(s);
    JsonNumberPiece(s);
    NumberMeans(s, n);
  }

  /** The lexer's step finds exactly these tokens. */
  lemma JsonTokenIff(s: string, n: nat, kind: Kind)
    requires s != ""
    ensures JsonToken(s, n, kind) <==> JsonPieceIs(s, n, kind)
  {
    if s[0] == '"' { JsonStringIff(s, n, kind); }
    else if Here(s, 0, "{}[]:,\n") { JsonMarkIff(s, n, kind); }
    else if SpelledAt(s, 0, "//") || SpelledAt(s, 0, "/*") { JsonCommentIff(s, n, kind); }
    else if Here(s, 0, "tfn") { JsonWordIff(s, n, kind); }
    else { JsonNumberIff(s, n, kind); }
  }

  // ---- TOML ----

  predicate OpensTriple(s: string) {
    SpelledAt(s, 0, "\"\"\"") || SpelledAt(s, 0, "'''")
  }

  /** A string where a value is expected: one of several lines with three quotes, else one of a line. */
  ghost predicate TomlStringSpan(s: string, n: nat)
    requires s != ""
  {
    if OpensTriple(s) then ThroughFirst(s, 3, s[..3], n) else StringSpan(s, n, s[0] == '"')
  }

  predicate TomlLayout(s: string) {
    Here(s, 0, "\n \t\r")
  }

  /** What may start a key or a value without quotes. */
  predicate Ordinary(s: string) {
    s != "" && s[0] !in "\n \t\r#\"'={}[],."
  }

  predicate TomlWord(s: string) {
    IsWord(s, "true") || IsWord(s, "false")
  }

  /** A token of this kind and length stands at the start of the text, a key or a value being expected. */
  ghost predicate TomlToken(s: string, expectKey: bool, n: nat, kind: Kind)
    requires s != ""
  {
    match kind
    case Comment => s[0] == '#' && LineSpan(s, n)
    case Section => expectKey && s[0] == '[' && HeaderSpan(s, n)
    case Key => expectKey && ((Here(s, 0, "\"'") && StringSpan(s, n, s[0] == '"')) || (n > 0 && Run(s, 0, n, BareChar)))
    case String => !expectKey && Here(s, 0, "\"'") && TomlStringSpan(s, n)
    case Operator => n == 1 && Here(s, 0, "=,.")
    case Punct => n == 1 && (Here(s, 0, "{}]") || (s[0] == '[' && !(expectKey && exists m :: HeaderSpan(s, m))))
    case Date => !expectKey && DateSpan(s, n)
    case Boolean => !expectKey && ((n == 4 && IsWord(s, "true")) || (n == 5 && IsWord(s, "false")))
    case Null => false
    case Number => !expectKey && OpensNumber(s) && NumberSpan(s, n) && !DateShape(s)
    case Plain =>
      || (n == 1 && TomlLayout(s))
      || (n == 1 && Ordinary(s) && expectKey && !BareChar(s[0]))
      || (Ordinary(s) && !expectKey && !DateShape(s) && !TomlWord(s) && !StartsNumber(s)
          && if BareChar(s[0]) then Run(s, 0, n, BareChar) else n == 1)
  }

  /** The state behind a token that starts with this character. */
  function TomlNext(c: char, st: TomlState): TomlState {
    match c
    case '\n' => TomlState(st.expectKey || st.braceDepth == 0, st.braceDepth)
    case '=' => TomlState(false, st.braceDepth)
    case '{' => TomlState(true, st.braceDepth + 1)
    case '}' => TomlState(false, if st.braceDepth == 0 then 0 else st.braceDepth - 1)
    case ',' => TomlState(st.expectKey || st.braceDepth > 0, st.braceDepth)
    case _ => st
  }

  ghost predicate TomlPieceIs(s: string, st: TomlState, n: nat, kind: Kind) {
    TomlStep(s, st).0.kind == kind && n == Upto(TomlStep(s, st).0.length, s)
  }

  lemma TomlStateIs(s: string, st: TomlState)
    requires s != ""
    ensures TomlStep(s, st).1 == TomlNext(s[0], st)
  {
    if s[0] == '\n' {
    } else if s[0] == '=' {
    } else if s[0] == '{' || s[0] == '}' || s[0] == ',' {
    } else {
    }
  }

  /** No key, word, number or date stands at a text that does not start with one of their characters. */
  lemma NotOrdinary(s: string, n: nat)
    requires s != "" && !Ordinary(s)
    ensures !TomlWord(s) && !OpensNumber(s) && !DateShape(s) && !BareChar(s[0])
    ensures !(n > 0 && Run(s, 0, n, BareChar))
  {
    NoWord(s);
    assert s[0] in "\n \t\r#\"'={}[],.";
  }

  lemma TomlLayoutIff(s: string, st: TomlState, n: nat, kind: Kind)
    requires s != "" && Here(s, 0, "\n \t\r#")
    ensures TomlToken(s, st.expectKey, n, kind) <==> TomlPieceIs(s, st, n, kind)
  {
    NotOrdinary(s, n);
    LineIff(s, n);
  }

  lemma TomlMarkIff(s: string, st: TomlState, n: nat, kind: Kind)
    requires s != "" && Here(s, 0, "={}],.")
    ensures TomlToken(s, st.expectKey, n, kind) <==> TomlPieceIs(s, st, n, kind)
  {
    NotOrdinary(s, n);
  }

  lemma HeaderMeans(s: string, n: nat)
    ensures HeaderSpan(s, n) <==> SectionLen(s) > 0 && n == SectionLen(s)
    ensures (exists m :: HeaderSpan(s, m)) <==> SectionLen(s) > 0
  {
    HeaderIff(s, n);
    HeaderIff(s, SectionLen(s));
    if m :| HeaderSpan(s, m) { HeaderIff(s, m); }
  }

  lemma TomlBracketIff(s: string, st: TomlState, n: nat, kind: Kind)
    requires s != "" && s[0] == '['
    ensures TomlToken(s, st.expectKey, n, kind) <==> TomlPieceIs(s, st, n, kind)
  {
    NotOrdinary(s, n);
    HeaderMeans(s, n);
  }

  lemma TripleIff(s: string)
    ensures StartsMultiline(s) <==> OpensTriple(s)
  {
    assert s[0..] == s;
    StartsIff(s, 0, "\"\"\"");
    StartsIff(s, 0, "'''");
  }

  lemma QuotedKeyIff(s: string, st: TomlState, n: nat, kind: Kind)
    requires s != "" && Here(s, 0, "\"'") && st.expectKey
    ensures TomlToken(s, true, n, kind) <==> TomlPieceIs(s, st, n, kind)
  {
    NotOrdinary(s, n);
    StringIff(s, n, s[0] == '"');
  }

  lemma TripleValueIff(s: string, st: TomlState, n: nat, kind: Kind)
    requires s != "" && Here(s, 0, "\"'") && !st.expectKey && OpensTriple(s)
    ensures TomlToken(s, false, n, kind) <==> TomlPieceIs(s, st, n, kind)
  {
    NotOrdinary(s, n);
    TripleIff(s);
    ThroughFirstIff(s, 3, s[..3], n);
  }

  lemma LineValueIff(s: string, st: TomlState, n: nat, kind: Kind)
    requires s != "" && Here(s, 0, "\"'") && !st.expectKey && !OpensTriple(s)
    ensures TomlToken(s, false, n, kind) <==> TomlPieceIs(s, st, n, kind)
  {
    NotOrdinary(s, n);
    TripleIff(s);
    StringIff(s, n, s[0] == '"');
  }

  lemma TomlKeyIff(s: string, st: TomlState, n: nat, kind: Kind)
    requires Ordinary(s) && st.expectKey
    ensures TomlToken(s, true, n, kind) <==> TomlPieceIs(s, st, n, kind)
  {
    assert s[0..] == s;
    RunIff(s, 0, n, BareKey, BareChar);
    CountIsRun(s, 0, BareKey, BareChar);
  }

  lemma TomlScalarStep(s: string, st: TomlState)
    requires Ordinary(s) && !st.expectKey
    ensures TomlStep(s, st) == (TomlScalar(s), st)
  {
  }

  /** The tokens of a value without quotes or marks. */
  ghost predicate ScalarToken(s: string, n: nat, kind: Kind)
    requires s != ""
  {
    match kind
    case Date => DateSpan(s, n)
    case Boolean => (n == 4 && IsWord(s, "true")) || (n == 5 && IsWord(s, "false"))
    case Number => OpensNumber(s) && NumberSpan(s, n) && !DateShape(s)
    case Plain =>
      !DateShape(s) && !TomlWord(s) && !StartsNumber(s) && if BareChar(s[0]) then Run(s, 0, n, BareChar) else n == 1
    case _ => false
  }

  lemma OrdinaryToken(s: string, n: nat, kind: Kind)
    requires Ordinary(s)
    ensures TomlToken(s, false, n, kind) <==> ScalarToken(s, n, kind)
  {
  }

  lemma DateScalar(s: string, n: nat, kind: Kind)
    requires s != "" && DateShape(s)
    ensures ScalarToken(s, n, kind) <==> kind == Date && n == DateLen(s)
    ensures DateLen(s) > 0
  {
    NoWord(s);
    DateIff(s, n);
    DateIff(s, DateLen(s));
    DateShapeIff(s);
  }

  lemma WordScalar(s: string, n: nat, kind: Kind)
    requires s != "" && TomlWord(s)
    ensures ScalarToken(s, n, kind) <==> kind == Boolean && n == if s[0] == 't' then 4 else 5
    ensures DateLen(s) == 0 && (StartsWord(s, "true") <==> s[0] == 't') && (s[0] == 't' || StartsWord(s, "false"))
  {
    NoWord(s);
    DateShapeIff(s);
  }

  lemma NumberScalar(s: string, n: nat, kind: Kind, number: nat)
    requires s != "" && !DateShape(s) && !TomlWord(s) && number == ColouredNumber(s) > 0
    ensures ScalarToken(s, n, kind) <==> kind == Number && n == number
  {
    NumberMeans(s, n);
  }

  lemma BareScalar(s: string, n: nat, kind: Kind, number: nat)
    requires s != "" && !DateShape(s) && !TomlWord(s) && number == ColouredNumber(s) == 0
    ensures ScalarToken(s, n, kind)
            <==> kind == Plain && n == if CountWhile(s, BareKey) > 0 then CountWhile(s, BareKey) else 1
  {
    NumberMeans(s, n);
    assert s[0..] == s;
    RunIff(s, 0, n, BareKey, BareChar);
  }

  lemma ScalarIs(s: string, number: nat)
    requires s != "" && !DateShape(s) && !TomlWord(s) && number == ColouredNumber(s)
    ensures TomlScalar(s) == if number > 0 then Piece(Number, number)
                             else Piece(Plain, if CountWhile(s, BareKey) > 0 then CountWhile(s, BareKey) else 1)
  {
    DateShapeIff(s);
  }

  lemma ScalarIff(s: string, n: nat, kind: Kind)
    requires s != ""
    ensures ScalarToken(s, n, kind) <==> TomlScalar(s).kind == kind && n == TomlScalar(s).length
  {
    if DateShape(s) {
      DateScalar(s, n, kind);
    } else if TomlWord(s) {
      WordScalar(s, n, kind);
    } else {
      var number := ColouredNumber(s);
      ScalarIs(s, number);
      if number > 0 { NumberScalar(s, n, kind, number); } else { BareScalar(s, n, kind, number); }
    }
  }

  lemma TomlValueIff(s: string, st: TomlState, n: nat, kind: Kind)
    requires Ordinary(s) && !st.expectKey
    ensures TomlToken(s, false, n, kind) <==> TomlPieceIs(s, st, n, kind)
  {
    TomlScalarStep(s, st);
    OrdinaryToken(s, n, kind);
    ScalarIff(s, n, kind);
  }

  /** The lexer's step finds exactly these tokens. */
  lemma TomlTokenIff(s: string, st: TomlState, n: nat, kind: Kind)
    requires s != ""
    ensures TomlToken(s, st.expectKey, n, kind) <==> TomlPieceIs(s, st, n, kind)
  {
    if Here(s, 0, "\n \t\r#") { TomlLayoutIff(s, st, n, kind); }
    else if Here(s, 0, "={}],.") { TomlMarkIff(s, st, n, kind); }
    else if s[0] == '[' { TomlBracketIff(s, st, n, kind); }
    else if Here(s, 0, "\"'") {
      if st.expectKey { QuotedKeyIff(s, st, n, kind); }
      else if OpensTriple(s) { TripleValueIff(s, st, n, kind); }
      else { LineValueIff(s, st, n, kind); }
    }
    else if st.expectKey { TomlKeyIff(s, st, n, kind); }
    else { TomlValueIff(s, st, n, kind); }
  }
}
