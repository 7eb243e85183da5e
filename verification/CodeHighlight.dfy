/** The TOML and JSON highlighters: one step of each lexer, the loops that run them over a text,
    and what the lines they produce have in common. */
module CodeHighlight {
  import opened Text
  import opened CodeLines

  // ---- The regular expressions, as scanners that return a match length (0: no match) ----

  datatype Class = Digit | DigitRun | HexRun | OctalRun | BinaryRun | BareKey | Space

  predicate In(cls: Class, c: char) {
    match cls
    case Digit => '0' <= c <= '9'
    case DigitRun => '0' <= c <= '9' || c == '_'
    case HexRun => '0' <= c <= '9' || 'a' <= c <= 'f' || 'A' <= c <= 'F' || c == '_'
    case OctalRun => '0' <= c <= '7' || c == '_'
    case BinaryRun => c == '0' || c == '1' || c == '_'
    case BareKey => 'A' <= c <= 'Z' || 'a' <= c <= 'z' || '0' <= c <= '9' || c == '_' || c == '-'
    case Space => IsSpace(JavaScript, c)
  }

  predicate At(s: string, i: nat, c: char) {
    i < |s| && s[i] == c
  }

  predicate OneOf(s: string, i: nat, a: char, b: char) {
    At(s, i, a) || At(s, i, b)
  }

  predicate SignAt(s: string, i: nat) {
    OneOf(s, i, '+', '-')
  }

  function CountWhile(s: string, cls: Class): (n: nat)
    ensures n <= |s|
  {
    if s != "" && In(cls, s[0]) then 1 + CountWhile(s[1..], cls) else 0
  }

  /** `shape` spelled out: `d` is a digit, everything else stands for itself. */
  predicate Matches(s: string, shape: string)
    ensures Matches(s, shape) ==> |shape| <= |s|
  {
    shape == "" || (s != "" && (if shape[0] == 'd' then In(Digit, s[0]) else s[0] == shape[0]) && Matches(s[1..], shape[1..]))
  }

  predicate Starts(s: string, word: string)
    ensures Starts(s, word) ==> |word| <= |s|
  {
    word == "" || (s != "" && s[0] == word[0] && Starts(s[1..], word[1..]))
  }

  function FractionLen(s: string): (n: nat)
    ensures n <= |s|
  {
    var digits := if At(s, 0, '.') then CountWhile(s[1..], DigitRun) else 0;
    if digits > 0 then 1 + digits else 0
  }

  function ExponentLen(s: string): (n: nat)
    ensures n <= |s|
  {
    if !OneOf(s, 0, 'e', 'E') then 0
    else
      var sign := if SignAt(s, 1) then 1 else 0;
      var digits := CountWhile(s[1 + sign..], Digit);
      if digits > 0 then 1 + sign + digits else 0
  }

  function DecimalLen(s: string): (n: nat)
    ensures n <= |s|
  {
    if s == "" || !In(Digit, s[0]) then 0
    else
      var whole := 1 + CountWhile(s[1..], DigitRun);
      var fraction := FractionLen(s[whole..]);
      whole + fraction + ExponentLen(s[whole + fraction..])
  }

  /** `0x`, `0o` or `0b` and at least one digit of that base. */
  function RadixLen(s: string): (n: nat)
    ensures n <= |s|
  {
    if !At(s, 0, '0') || |s| < 2 then 0
    else
      var digits := if OneOf(s, 1, 'x', 'X') then CountWhile(s[2..], HexRun)
                    else if OneOf(s, 1, 'o', 'O') then CountWhile(s[2..], OctalRun)
                    else if OneOf(s, 1, 'b', 'B') then CountWhile(s[2..], BinaryRun)
                    else 0;
      if digits > 0 then 2 + digits else 0
  }

  function NumberLen(s: string): (n: nat)
    ensures n <= |s|
  {
    var sign := if SignAt(s, 0) then 1 else 0;
    var rest := s[sign..];
    var body := if RadixLen(rest) > 0 then RadixLen(rest)
                else if DecimalLen(rest) > 0 then DecimalLen(rest)
                else if Starts(rest, "nan") || Starts(rest, "inf") then 3
                else 0;
    if body > 0 then sign + body else 0
  }

  function SecondsLen(s: string): (n: nat)
    ensures n <= |s|
  {
    if !Matches(s, ":dd") then 0
    else
      var digits := if At(s, 3, '.') then CountWhile(s[4..], Digit) else 0;
      if digits > 0 then 4 + digits else 3
  }

  function ZoneLen(s: string): (n: nat)
    ensures n <= |s|
  {
    if OneOf(s, 0, 'Z', 'z') then 1
    else if SignAt(s, 0) && Matches(s[1..], "dd:dd") then 6
    else 0
  }

  function TimeLen(s: string): (n: nat)
    ensures n <= |s|
  {
    if (OneOf(s, 0, 'T', 't') || At(s, 0, ' ')) && Matches(s[1..], "dd:dd") then
      var seconds := SecondsLen(s[6..]);
      6 + seconds + ZoneLen(s[6 + seconds..])
    else 0
  }

  function DateLen(s: string): (n: nat)
    ensures n <= |s|
  {
    if Matches(s, "dddd-dd-dd") then 10 + TimeLen(s[10..]) else 0
  }

  /** Where `needle` first occurs, or the length of the text. */
  function IndexOrEnd(s: string, needle: string): (n: nat)
    ensures n <= |s| && (n < |s| ==> n + |needle| <= |s|)
  {
    if s == "" || Starts(s, needle) then 0 else 1 + IndexOrEnd(s[1..], needle)
  }

  lemma {:induction false} IndexOrEndIsFirst(s: string, needle: string)
    ensures var n := IndexOrEnd(s, needle);
            && (n < |s| ==> Starts(s[n..], needle))
            && forall i :: 0 <= i < n ==> !Starts(s[i..], needle)
  {
    if s != "" && !Starts(s, needle) {
      IndexOrEndIsFirst(s[1..], needle);
      var n := IndexOrEnd(s[1..], needle);
      assert s[1..][n..] == s[n + 1..];
      forall i | 0 <= i < n + 1 ensures !Starts(s[i..], needle) {
        if i > 0 { assert s[i..] == s[1..][i - 1..]; }
      }
    }
  }

  /** One more than where `c` last occurs, 0 if it does not. */
  function AfterLast(s: string, c: char): (n: nat)
    ensures n <= |s|
  {
    if s == "" then 0 else if s[|s| - 1] == c then |s| else AfterLast(s[..|s| - 1], c)
  }

  // ---- Quoted strings ----

  /** Where a quoted string ends, scanning from `i`: past the closing quote, or at the end of the
      line. A backslash takes the next character with it, a line break too, and at the very end
      of the text the scan steps one past it. */
  function QuotedEnd(s: string, i: nat, quote: char, escapes: bool): (end: nat)
    requires i <= |s| + 1
    ensures i <= end <= |s| + 1
    decreases |s| + 1 - i
  {
    if i >= |s| || s[i] == '\n' then i
    else if escapes && s[i] == '\\' then QuotedEnd(s, i + 2, quote, escapes)
    else if s[i] == quote then i + 1
    else QuotedEnd(s, i + 1, quote, escapes)
  }

  function QuotedLen(s: string, escapes: bool): (n: nat)
    requires s != ""
    ensures 1 <= n <= |s| + 1
  {
    QuotedEnd(s, 1, s[0], escapes)
  }

  method ReadQuoted(text: string, start: nat, escapes: bool) returns (length: nat)
    requires start < |text|
    ensures length == QuotedLen(text[start..], escapes)
  {
    var quote := text[start];
    ghost var s := text[start..];
    var i := start + 1;
    while i < |text|
      invariant start < i <= |text| + 1
      invariant QuotedLen(s, escapes) == QuotedEnd(s, i - start, quote, escapes)
    {
      var ch := text[i];
      assert s[i - start] == ch;
      if ch == '\n' { break; }
      if escapes && ch == '\\' {
        i := i + 2;
      } else {
        i := i + 1;
        if ch == quote { return i - start; }
      }
    }
    length := i - start;
  }

  /** How many backslashes stand directly before position `k`, after the opening quote. */
  function Backslashes(s: string, k: nat): nat
    requires k <= |s|
  {
    if k > 1 && s[k - 1] == '\\' then 1 + Backslashes(s, k - 1) else 0
  }

  ghost predicate Escaped(s: string, k: nat, escapes: bool)
    requires k <= |s|
  {
    escapes && Backslashes(s, k) % 2 == 1
  }

  /** A character that would end the string: its quote or a line break, not escaped. */
  ghost predicate Stops(s: string, k: nat, escapes: bool)
    requires s != "" && k < |s|
  {
    (s[k] == s[0] || s[k] == '\n') && !Escaped(s, k, escapes)
  }

  lemma {:induction false} QuotedEndIsFirstStop(s: string, i: nat, escapes: bool)
    requires s != "" && 1 <= i <= |s| + 1 && s[0] != '\\' && s[0] != '\n'
    requires i <= |s| ==> !Escaped(s, i, escapes)
    ensures var end := QuotedEnd(s, i, s[0], escapes);
            if exists k :: i <= k < |s| && Stops(s, k, escapes)
            then exists k :: i <= k < |s| && Stops(s, k, escapes) && end == (if s[k] == '\n' then k else k + 1)
                             && forall j :: i <= j < k ==> !Stops(s, j, escapes)
            else end >= |s|
    decreases |s| + 1 - i
  {
    if i < |s| {
      if Stops(s, i, escapes) {
      } else if escapes && s[i] == '\\' {
        if i + 1 < |s| {
          assert Escaped(s, i + 1, escapes);
        }
        if i + 2 <= |s| {
          assert !Escaped(s, i + 2, escapes);
        }
        QuotedEndIsFirstStop(s, i + 2, escapes);
      } else {
        assert Backslashes(s, i + 1) % 2 == 0 || !escapes;
        QuotedEndIsFirstStop(s, i + 1, escapes);
      }
    }
  }

  /** A quoted string runs to its first unescaped quote, inclusive, or to the first unescaped line
      break, exclusive, whichever comes first; with neither it takes the rest of the text. A
      character is escaped when an odd number of backslashes stands before it. */
  lemma QuotedStringEndsAtFirstStop(s: string, escapes: bool)
    requires s != "" && (s[0] == '"' || s[0] == '\'')
    ensures if exists k :: 1 <= k < |s| && Stops(s, k, escapes)
            then exists k :: 1 <= k < |s| && Stops(s, k, escapes)
                             && QuotedLen(s, escapes) == (if s[k] == '\n' then k else k + 1)
                             && forall j :: 1 <= j < k ==> !Stops(s, j, escapes)
            else QuotedLen(s, escapes) >= |s|
  {
    QuotedEndIsFirstStop(s, 1, escapes);
  }

  // ---- One step of each lexer ----

  type Positive = n: nat | n > 0 witness 1

  /** A piece of the text and its kind. `length` may exceed the text by one after an escape. */
  datatype Piece = Piece(kind: Kind, length: Positive)

  /** A lexer: the piece at the start of a text, and the state behind it. */
  type Lexer<!S> = (string, S) -> (Piece, S)

  datatype TomlState = TomlState(expectKey: bool, braceDepth: nat)

  const TOML_START := TomlState(true, 0)

  /** A table header: from `[` to the last `]` of its line. */
  function SectionLen(s: string): (n: nat)
    ensures n <= |s|
  {
    var close := AfterLast(s[..IndexOrEnd(s, "\n")], ']');
    if close > 1 then close else 0
  }

  function MultilineLen(s: string, delimiter: string): (n: nat)
    requires |delimiter| == 3 <= |s|
    ensures 3 <= n <= |s|
  {
    var close := IndexOrEnd(s[3..], delimiter);
    if 3 + close < |s| then 3 + close + 3 else |s|
  }

  predicate StartsMultiline(s: string) {
    Starts(s, "\"\"\"") || Starts(s, "'''")
  }

  /** What a value that is not quoted or punctuation is coloured as. */
  function TomlScalar(s: string): (p: Piece)
    requires s != ""
    ensures 1 <= p.length <= |s|
  {
    if DateLen(s) > 0 then Piece(Date, DateLen(s))
    else if StartsWord(s, "true") then Piece(Boolean, 4)
    else if StartsWord(s, "false") then Piece(Boolean, 5)
    else if NumberLen(s) > 0 && (In(Digit, s[0]) || SignAt(s, 0)) then Piece(Number, NumberLen(s))
    else if CountWhile(s, BareKey) > 0 then Piece(Plain, CountWhile(s, BareKey))
    else Piece(Plain, 1)
  }

  function TomlStep(s: string, st: TomlState): (Piece, TomlState) {
    if s == "" then (Piece(Plain, 1), st) else NonEmptyTomlStep(s, st)
  }

  function NonEmptyTomlStep(s: string, st: TomlState): (Piece, TomlState)
    requires s != ""
  {
    var ch := s[0];
    if ch == '\n' then (Piece(Plain, 1), if st.braceDepth == 0 then st.(expectKey := true) else st)
    else if ch == ' ' || ch == '\t' || ch == '\r' then (Piece(Plain, 1), st)
    else if ch == '#' then (Piece(Comment, IndexOrEnd(s, "\n")), st)
    else if st.expectKey && ch == '[' && SectionLen(s) > 0 then (Piece(Section, SectionLen(s)), st)
    else if StartsMultiline(s) && !st.expectKey then (Piece(String, MultilineLen(s, s[..3])), st)
    else if ch == '"' || ch == '\'' then (Piece(if st.expectKey then Key else String, QuotedLen(s, ch == '"')), st)
    else if ch == '=' then (Piece(Operator, 1), st.(expectKey := false))
    else if ch == '{' then (Piece(Punct, 1), TomlState(true, st.braceDepth + 1))
    else if ch == '}' then (Piece(Punct, 1), TomlState(false, if st.braceDepth > 0 then st.braceDepth - 1 else 0))
    else if ch == '[' || ch == ']' then (Piece(Punct, 1), st)
    else if ch == ',' then (Piece(Operator, 1), if st.braceDepth > 0 then st.(expectKey := true) else st)
    else if ch == '.' then (Piece(Operator, 1), st)
    else if st.expectKey then
      (if CountWhile(s, BareKey) > 0 then Piece(Key, CountWhile(s, BareKey)) else Piece(Plain, 1), st)
    else (TomlScalar(s), st)
  }

  /** A JSON string is a key when the first character after it that is not white space is `:`. */
  predicate ColonFollows(s: string, n: nat) {
    n <= |s| && At(s[n..], CountWhile(s[n..], Space), ':')
  }

  function BlockCommentLen(s: string): (n: nat)
    requires |s| >= 2
    ensures 2 <= n <= |s|
  {
    var close := IndexOrEnd(s[2..], "*/");
    if 2 + close + 2 <= |s| then 2 + close + 2 else |s|
  }

  /** What is neither quoted nor a comment nor punctuation. */
  function JsonScalar(s: string): (p: Piece)
    requires s != ""
  {
    if StartsWord(s, "true") then Piece(Boolean, 4)
    else if StartsWord(s, "false") then Piece(Boolean, 5)
    else if StartsWord(s, "null") then Piece(Null, 4)
    else if NumberLen(s) > 0 && (In(Digit, s[0]) || SignAt(s, 0)) then Piece(Number, NumberLen(s))
    else Piece(Plain, 1)
  }

  /** The JSON lexer has no state. */
  function JsonStep(s: string, st: ()): (Piece, ()) {
    (if s == "" then Piece(Plain, 1) else JsonPieceOf(s), st)
  }

  function JsonPieceOf(s: string): Piece
    requires s != ""
  {
    var ch := s[0];
    if ch == '\n' then Piece(Plain, 1)
    else if ch == '"' then
      Piece(if ColonFollows(s, QuotedLen(s, true)) then Key else String, QuotedLen(s, true))
    else if ch == '/' && At(s, 1, '/') then Piece(Comment, IndexOrEnd(s, "\n"))
    else if ch == '/' && At(s, 1, '*') then Piece(Comment, BlockCommentLen(s))
    else if ch == '{' || ch == '}' || ch == '[' || ch == ']' then Piece(Punct, 1)
    else if ch == ':' || ch == ',' then Piece(Operator, 1)
    else JsonScalar(s)
  }

  // ---- Whole texts ----

  function Upto(n: nat, s: string): (r: nat)
    ensures r <= |s|
  {
    if n <= |s| then n else |s|
  }

  /** The coloured text of a suffix of a document, given the state the lexer reaches it in. */
  function Coloured<S>(s: string, st: S, lexer: Lexer<S>): seq<Cell>
    decreases |s|
  {
    if s == "" then []
    else
      var (piece, next) := lexer(s, st);
      var n := Upto(piece.length, s);
      Paint(piece.kind, s[..n]) + Coloured(s[n..], next, lexer)
  }

  lemma PaintedPrefix(s: string, n: nat, kind: Kind, rest: seq<Cell>)
    requires n <= |s| && Normal(rest) && Chars(rest) == s[n..]
    ensures Normal(Paint(kind, s[..n]) + rest) && Chars(Paint(kind, s[..n]) + rest) == s
  {
    var all := Paint(kind, s[..n]) + rest;
    forall i | 0 <= i < |all| ensures all[i].ch == s[i] && (all[i].ch == '\n' ==> all[i].kind == Plain) {
      if i >= n {
        assert all[i] == rest[i - n] && Chars(rest)[i - n] == s[n..][i - n];
      }
    }
    assert |all| == |s|;
  }

  lemma {:induction false} ColouredCoversText<S>(s: string, st: S, lexer: Lexer<S>)
    ensures Normal(Coloured(s, st, lexer)) && Chars(Coloured(s, st, lexer)) == s
    decreases |s|
  {
    if s != "" {
      var (piece, next) := lexer(s, st);
      var n := Upto(piece.length, s);
      ColouredCoversText(s[n..], next, lexer);
      PaintedPrefix(s, n, piece.kind, Coloured(s[n..], next, lexer));
    }
  }

  /** The lexer's loop began in state `start`, has coloured `cells` and stands at `i` in state `st`. */
  ghost predicate Reached<S>(text: string, start: S, lexer: Lexer<S>, cells: seq<Cell>, i: nat, st: S) {
    cells + Coloured(text[Upto(i, text)..], st, lexer) == Coloured(text, start, lexer)
  }

  /** Cutting a piece off a suffix moves the suffix along. */
  lemma CutPiece(text: string, i: nat, length: nat)
    requires i < |text|
    ensures var rest := text[i..];
            && rest[..Upto(length, rest)] == text[i..Upto(i + length, text)]
            && rest[Upto(length, rest)..] == text[Upto(i + length, text)..]
  {
  }

  /** `text.slice(i, end)`. */
  function Slice(text: string, i: nat, end: nat): string
    requires i <= |text| && i <= end
  {
    text[i..Upto(end, text)]
  }

  lemma Advance<S>(text: string, start: S, lexer: Lexer<S>, cells: seq<Cell>, i: nat, st: S, kind: Kind, end: nat, next: S)
    requires i < |text| && i < end && Reached(text, start, lexer, cells, i, st)
    requires lexer(text[i..], st) == (Piece(kind, end - i), next)
    ensures Reached(text, start, lexer, cells + Paint(kind, Slice(text, i, end)), end, next)
  {
    CutPiece(text, i, end - i);
    Assoc(cells, Paint(kind, Slice(text, i, end)), Coloured(text[Upto(end, text)..], next, lexer));
  }

  lemma Begun<S>(text: string, start: S, lexer: Lexer<S>)
    ensures Reached(text, start, lexer, [], 0, start)
  {
    assert text[0..] == text && [] + Coloured(text, start, lexer) == Coloured(text, start, lexer);
  }

  lemma Finished<S>(text: string, start: S, lexer: Lexer<S>, cells: seq<Cell>, i: nat, st: S)
    requires i >= |text| && Reached(text, start, lexer, cells, i, st)
    ensures cells == Coloured(text, start, lexer)
  {
    assert text[Upto(i, text)..] == "" && cells + [] == cells;
  }

  // ---- The promise of the highlighter ----

  datatype Language = Json | Toml

  function Cells(text: string, language: Language): seq<Cell> {
    match language
    case Json => Coloured(text, (), JsonStep)
    case Toml => Coloured(text, TOML_START, TomlStep)
  }

  /** Joining the tokens gives back the text, line by line, in compact lines. */
  lemma HighlightIsLossless(text: string, language: Language)
    ensures var lines := Lines(Cells(text, language));
            && Flatten(lines) == text
            && Compact(lines)
            && |lines| == |Split(text)|
            && forall i :: 0 <= i < |lines| ==> LineText(lines[i]) == Split(text)[i]
  {
    var cells := Cells(text, language);
    var lines := Lines(cells);
    ColouredCoversText(text, TOML_START, TomlStep);
    ColouredCoversText(text, (), JsonStep);
    LinesKeepCells(cells);
    FlattenIsChars(lines);
    LinesCompact(cells);
    var texts := seq(|lines|, i requires 0 <= i < |lines| => LineText(lines[i]));
    forall i | 0 <= i < |texts| ensures OneLine(texts[i]) {
      CompactLineIsOneLine(lines[i]);
    }
    SplitJoin(texts);
  }

  lemma {:induction false} CompactLineIsOneLine(line: Line)
    requires CompactLine(line)
    ensures OneLine(LineText(line))
  {
    if line != [] {
      CompactLineIsOneLine(line[..|line| - 1]);
    }
  }

  /** No other compact lines show the same text in the same colours. */
  lemma HighlightIsDetermined(text: string, language: Language, other: seq<Line>)
    requires other != [] && Compact(other) && CellsOf(other) == Cells(text, language)
    ensures other == Lines(Cells(text, language))
  {
    CompactLinesUnique(other);
  }
}
