/** The laws of the goals switch on whole configuration texts. */
module GoalsTextLaws {
  import opened Wrappers
  import opened Text
  import opened GoalsConfig
  import opened GoalsLaws

  function JoinRows(rows: seq<Row>): string {
    Join(Texts(rows), "\n")
  }

  function Trimmed(rows: seq<Row>): string {
    TrimEnd(JavaScript, JoinRows(rows))
  }

  lemma JoinCons(rows: seq<Row>)
    requires |rows| > 1
    ensures JoinRows(rows) == rows[0].text + ("\n" + JoinRows(rows[1..]))
  {
    Assoc(rows[0].text, "\n", JoinRows(rows[1..]));
  }

  /** The end of the joined rows is trimmed in the last row that is not blank. */
  lemma TrimmedCons(rows: seq<Row>)
    requires rows != []
    ensures Trimmed(rows) == if Blank(JavaScript, JoinRows(rows[1..])) then TrimEnd(JavaScript, rows[0].text)
                             else rows[0].text + "\n" + Trimmed(rows[1..])
  {
    if |rows| > 1 {
      var rest := JoinRows(rows[1..]);
      JoinCons(rows);
      TrimEndConcat(JavaScript, rows[0].text, "\n" + rest);
      TrimEndConcat(JavaScript, "\n", rest);
      BlankConcat(JavaScript, "\n", rest);
      Assoc(rows[0].text, "\n", Trimmed(rows[1..]));
    }
  }

  lemma {:induction false} BlankRowsJoin(rows: seq<Row>)
    requires AllBlank(rows)
    ensures Blank(JavaScript, JoinRows(rows))
  {
    if |rows| > 1 {
      BlankRowsJoin(rows[1..]);
      JoinCons(rows);
      BlankConcat(JavaScript, "\n", JoinRows(rows[1..]));
      BlankConcat(JavaScript, rows[0].text, "\n" + JoinRows(rows[1..]));
    }
  }

  lemma {:induction false} BlankJoinRows(rows: seq<Row>)
    requires Blank(JavaScript, JoinRows(rows)) && WellKinded(rows)
    ensures AllBlank(rows)
  {
    if rows != [] {
      assert WellFormed(rows[0]);
      if |rows| > 1 {
        JoinCons(rows);
        BlankConcat(JavaScript, rows[0].text, "\n" + JoinRows(rows[1..]));
        BlankConcat(JavaScript, "\n", JoinRows(rows[1..]));
      }
      KindOfBlank(rows[0].text);
      BlankJoinRows(rows[1..]);
    }
  }

  lemma {:induction false} TailSameTrimmed(a: seq<Row>, b: seq<Row>)
    requires TailSame(a, b)
    ensures Trimmed(a) == Trimmed(b)
  {
    if AllBlank(a) && AllBlank(b) {
      BlankRowsJoin(a);
      BlankRowsJoin(b);
      TrimEndEmpty(JavaScript, JoinRows(a));
      TrimEndEmpty(JavaScript, JoinRows(b));
    } else {
      TrimmedCons(a);
      TrimmedCons(b);
      if a[0] == b[0] && TailSame(a[1..], b[1..]) {
        TailSameTrimmed(a[1..], b[1..]);
        TrimEndEmpty(JavaScript, JoinRows(a[1..]));
        TrimEndEmpty(JavaScript, JoinRows(b[1..]));
      } else {
        BlankRowsJoin(a[1..]);
        BlankRowsJoin(b[1..]);
      }
    }
  }

  lemma TrimEndTwice(s: string)
    ensures TrimEnd(JavaScript, TrimEnd(JavaScript, s)) == TrimEnd(JavaScript, s)
  {
    var r := TrimEnd(JavaScript, s);
    var after := TrimEndParts(JavaScript, s);
    assert r + "" == r;
    TrimEndUnique(JavaScript, r, "");
  }

  lemma TrimmedLine(line: string)
    requires OneLine(line)
    ensures Split(TrimEnd(JavaScript, line)) == [TrimEnd(JavaScript, line)]
  {
    var out := TrimEnd(JavaScript, line);
    var after := TrimEndParts(JavaScript, line);
    assert forall i :: 0 <= i < |out| ==> out[i] == line[i];
    SplitOneLine(out);
  }

  lemma TrimmedRow(row: Row)
    requires WellFormed(row)
    ensures var out := TrimEnd(JavaScript, row.text);
            Split(out) == [out] && KindOf(out) == row.kind && TrimEnd(JavaScript, out) == out
  {
    TrimmedLine(row.text);
    TrimOfTrimEnd(JavaScript, row.text);
    TrimEndTwice(row.text);
  }

  lemma RowsCons(line: string, rest: seq<string>)
    ensures Rows([line] + rest) == [Row(KindOf(line), line)] + Rows(rest)
  {
    assert ([line] + rest)[1..] == rest;
  }

  /** The rows read back from the trimmed text are the rows written, up to the trimmed end. */
  lemma {:induction false} ReadBackRows(rows: seq<Row>)
    requires WellKinded(rows) && rows != []
    ensures TailSame(rows, Rows(Split(Trimmed(rows))))
  {
    var rest := rows[1..];
    assert WellFormed(rows[0]);
    TrimmedCons(rows);
    if Blank(JavaScript, JoinRows(rest)) {
      BlankJoinRows(rest);
      TrimmedRow(rows[0]);
      RowsCons(Trimmed(rows), []);
    } else {
      ReadBackRows(rest);
      SplitAppend(rows[0].text, Trimmed(rest));
      RowsCons(rows[0].text, Split(Trimmed(rest)));
    }
  }

  lemma {:induction false} RowsAppend(a: seq<string>, b: seq<string>)
    ensures Rows(a + b) == Rows(a) + Rows(b)
  {
    if a == [] {
      assert a + b == b;
    } else {
      assert (a + b)[1..] == a[1..] + b;
      RowsAppend(a[1..], b);
    }
  }

  lemma {:induction false} AllBlankAppend(a: seq<Row>, b: seq<Row>)
    requires AllBlank(a) && AllBlank(b)
    ensures AllBlank(a + b)
  {
    if a == [] {
      assert a + b == b;
    } else {
      assert (a + b)[1..] == a[1..] + b;
      AllBlankAppend(a[1..], b);
    }
  }

  lemma {:induction false} TailSameAppend(a: seq<Row>, b: seq<Row>, blank: seq<Row>)
    requires TailSame(a, b) && AllBlank(blank)
    ensures TailSame(a, b + blank)
  {
    if AllBlank(a) && AllBlank(b) {
      AllBlankAppend(b, blank);
    } else {
      assert (b + blank)[1..] == b[1..] + blank;
      if a[0] == b[0] && TailSame(a[1..], b[1..]) {
        TailSameAppend(a[1..], b[1..], blank);
      } else {
        AllBlankAppend(b[1..], blank);
      }
    }
  }

  lemma BodyIsTrimmed(rows: seq<Row>)
    ensures Body(rows) == Trimmed(rows) + "\n"
  {
    var after := TrimEndParts(JavaScript, JoinRows(rows));
  }

  // ---- Carriage returns ----

  /** The text with every CR LF made a LF: `text.replace(/\r\n/g, "\n")`. */
  function Unix(s: string): (r: string)
    ensures |r| <= |s|
  {
    if s == "" then ""
    else if |s| > 1 && s[0] == '\r' && s[1] == '\n' then "\n" + Unix(s[2..])
    else [s[0]] + Unix(s[1..])
  }

  predicate HasCrLf(s: string) {
    |s| > 1 && ((s[0] == '\r' && s[1] == '\n') || HasCrLf(s[1..]))
  }

  lemma {:induction false} UnixChanges(s: string)
    ensures Unix(s) == s <==> !HasCrLf(s)
    ensures HasCrLf(s) ==> |Unix(s)| < |s|
  {
    if s != "" {
      UnixChanges(s[1..]);
      assert [s[0]] + s[1..] == s;
      if |s| == 1 { assert s[1..] == ""; }
    }
  }

  lemma CrLfLines(s: string)
    requires |s| > 1 && s[0] == '\r' && s[1] == '\n'
    ensures Split(s) == ["\r"] + Split(s[2..]) && DropCrs(["\r"] + Split(s[2..])) == [""] + DropCrs(Split(s[2..]))
  {
    assert s[1..][1..] == s[2..];
    assert ([""] + Split(s[2..]))[1..] == Split(s[2..]);
    assert (["\r"] + Split(s[2..]))[1..] == Split(s[2..]);
    assert ['\r'] + "" == "\r";
  }

  lemma DropCrsHead(c: char, lines: seq<string>)
    requires lines != [] && (|lines| > 1 && lines[0] == "" ==> c != '\r')
    ensures DropCrs([[c] + lines[0]] + lines[1..]) == [[c] + DropCrs(lines)[0]] + DropCrs(lines)[1..]
  {
    var x := [[c] + lines[0]] + lines[1..];
    assert x[1..] == lines[1..];
    if |lines| > 1 {
      StripCrCons(c, lines[0]);
      assert DropCrs(lines)[1..] == DropCrs(lines[1..]);
    }
  }

  lemma StripCrCons(c: char, line: string)
    requires line == "" ==> c != '\r'
    ensures StripCr([c] + line) == [c] + StripCr(line)
  {
  }

  lemma BreakLines(s: string)
    requires s != "" && s[0] == '\n'
    ensures Split(s) == [""] + Split(s[1..]) && DropCrs([""] + Split(s[1..])) == [""] + DropCrs(Split(s[1..]))
  {
    assert ([""] + Split(s[1..]))[1..] == Split(s[1..]);
  }

  /** Splitting at `\r?\n` is splitting the text with its CR LF made LF. */
  lemma {:induction false} ConfigLinesUnix(s: string)
    ensures ConfigLines(s) == Split(Unix(s))
    decreases |s|
  {
    if s == "" {
    } else if |s| > 1 && s[0] == '\r' && s[1] == '\n' {
      CrLfLines(s);
      ConfigLinesUnix(s[2..]);
      assert ("\n" + Unix(s[2..]))[1..] == Unix(s[2..]);
    } else {
      ConfigLinesUnix(s[1..]);
      assert ([s[0]] + Unix(s[1..]))[1..] == Unix(s[1..]);
      if s[0] == '\n' {
        BreakLines(s);
      } else {
        DropCrsHead(s[0], Split(s[1..]));
      }
    }
  }

  /** The rows without the carriage returns at the ends of their texts. */
  function StripRows(rows: seq<Row>): (r: seq<Row>)
    ensures |r| == |rows|
  {
    if rows == [] then [] else [Row(rows[0].kind, StripCr(rows[0].text))] + StripRows(rows[1..])
  }

  lemma {:induction false} StrippedRows(lines: seq<string>)
    requires lines != [] && lines[|lines| - 1] == ""
    ensures Rows(DropCrs(lines)) == StripRows(Rows(lines))
  {
    if |lines| == 1 {
      assert Rows(lines)[1..] == [];
    } else {
      StrippedRows(lines[1..]);
      StripCrTrims(lines[0]);
      RowsCons(StripCr(lines[0]), DropCrs(lines[1..]));
      assert Rows(lines)[1..] == Rows(lines[1..]);
    }
  }

  lemma {:induction false} StripRowsKinds(rows: seq<Row>)
    ensures SectionHasGoals(StripRows(rows)) == SectionHasGoals(rows)
    ensures HasFeatures(StripRows(rows)) == HasFeatures(rows)
  {
    if rows != [] {
      StripRowsKinds(rows[1..]);
      assert StripRows(rows)[1..] == StripRows(rows[1..]);
    }
  }

  lemma StripGoalsRow(enabled: bool, rest: seq<Row>)
    ensures StripRows([GoalsRow(enabled)] + rest) == [GoalsRow(enabled)] + StripRows(rest)
  {
  }

  lemma {:induction false} StripRowsSet(rows: seq<Row>, mode: Mode, enabled: bool)
    ensures SetRows(StripRows(rows), mode, enabled) == StripRows(SetRows(rows, mode, enabled))
  {
    if rows != [] {
      var row, rest := rows[0], rows[1..];
      assert StripRows(rows)[1..] == StripRows(rest);
      StripRowsKinds(rest);
      var next := match row.kind
                  case Features => if SectionHasGoals(rest) then Pending else Written
                  case Header => Outside
                  case Goals(_) => if mode == Outside then Outside else Written
                  case Other => mode;
      var tail := SetRows(rest, next, enabled);
      StripRowsSet(rest, next, enabled);
      StripGoalsRow(enabled, tail);
    }
  }

  lemma {:induction false} StripRowsOthers(rows: seq<Row>, inside: bool)
    ensures Others(StripRows(rows), inside) == StripRows(Others(rows, inside))
  {
    if rows != [] {
      var row, rest := rows[0], rows[1..];
      assert StripRows(rows)[1..] == StripRows(rest);
      var next := row.kind == Features || (inside && row.kind != Header);
      StripRowsOthers(rest, next);
    }
  }

  /** Rows that hold one line each. */
  ghost predicate SingleLines(rows: seq<Row>) {
    forall row :: row in rows ==> OneLine(row.text)
  }

  lemma {:induction false} StripRowsBlank(rows: seq<Row>)
    ensures Blank(JavaScript, JoinRows(StripRows(rows))) <==> Blank(JavaScript, JoinRows(rows))
  {
    if rows != [] {
      StripCrBlank(rows[0].text);
      if |rows| == 1 {
        assert StripRows(rows)[1..] == [];
      } else {
        StripRowsBlank(rows[1..]);
        assert StripRows(rows)[1..] == StripRows(rows[1..]);
        BlankCons(rows);
        BlankCons(StripRows(rows));
      }
    }
  }

  lemma StripCrBlank(line: string)
    ensures Blank(JavaScript, StripCr(line)) <==> Blank(JavaScript, line)
  {
    if StripCr(line) != line {
      assert line == StripCr(line) + "\r";
      BlankConcat(JavaScript, StripCr(line), "\r");
    }
  }

  lemma BlankCons(rows: seq<Row>)
    requires |rows| > 1
    ensures Blank(JavaScript, JoinRows(rows)) <==> Blank(JavaScript, rows[0].text) && Blank(JavaScript, JoinRows(rows[1..]))
  {
    JoinCons(rows);
    BlankConcat(JavaScript, rows[0].text, "\n" + JoinRows(rows[1..]));
    BlankConcat(JavaScript, "\n", JoinRows(rows[1..]));
  }

  lemma UnixLine(line: string)
    requires OneLine(line)
    ensures Unix(line) == line
  {
    ConfigLinesUnix(line);
    SplitOneLine(line);
    JoinSplit(Unix(line));
  }

  lemma UnixLines(line: string, rest: string)
    requires OneLine(line)
    ensures Unix(line + "\n" + rest) == StripCr(line) + "\n" + Unix(rest)
  {
    var s := line + "\n" + rest;
    ConfigLinesUnix(s);
    ConfigLinesUnix(rest);
    SplitAppend(line, rest);
    assert ([line] + Split(rest))[1..] == Split(rest);
    JoinSplit(Unix(s));
    JoinSplit(Unix(rest));
    assert ([StripCr(line)] + Split(Unix(rest)))[1..] == Split(Unix(rest));
  }

  /** Stripping the rows is stripping the text they make. */
  lemma {:induction false} UnixTrimmed(rows: seq<Row>)
    requires SingleLines(rows)
    ensures Trimmed(StripRows(rows)) == Unix(Trimmed(rows))
  {
    if rows != [] {
      var line, rest := rows[0].text, rows[1..];
      TrimmedCons(rows);
      TrimmedCons(StripRows(rows));
      assert StripRows(rows)[1..] == StripRows(rest);
      StripRowsBlank(rest);
      if Blank(JavaScript, JoinRows(rest)) {
        TrimmedLine(line);
        JoinSplit(TrimEnd(JavaScript, line));
        UnixLine(TrimEnd(JavaScript, line));
      } else {
        UnixTrimmed(rest);
        UnixLines(line, Trimmed(rest));
      }
    }
  }

  lemma UnixCons(c: char, s: string)
    requires !(c == '\r' && s != "" && s[0] == '\n')
    ensures Unix([c] + s) == [c] + Unix(s)
  {
    assert ([c] + s)[1..] == s;
  }

  lemma UnixCrLf(s: string)
    ensures Unix("\r\n" + s) == "\n" + Unix(s)
  {
    assert ("\r\n" + s)[2..] == s;
  }

  lemma {:induction false} UnixBreak(s: string)
    requires s != "" ==> s[|s| - 1] != '\r'
    ensures Unix(s + "\n") == Unix(s) + "\n"
    decreases |s|
  {
    if s == "" {
      assert s + "\n" == "\n";
      assert "\n"[1..] == "";
    } else if |s| > 1 && s[0] == '\r' && s[1] == '\n' {
      assert s + "\n" == "\r\n" + (s[2..] + "\n");
      UnixBreak(s[2..]);
      UnixCrLf(s[2..] + "\n");
    } else {
      assert s + "\n" == [s[0]] + (s[1..] + "\n");
      UnixBreak(s[1..]);
      UnixCons(s[0], s[1..] + "\n");
    }
  }

  lemma UnixBody(rows: seq<Row>)
    requires SingleLines(rows)
    ensures Body(StripRows(rows)) == Unix(Body(rows))
  {
    BodyIsTrimmed(rows);
    BodyIsTrimmed(StripRows(rows));
    UnixTrimmed(rows);
    var after := TrimEndParts(JavaScript, JoinRows(rows));
    UnixBreak(Trimmed(rows));
  }

  lemma KindedLines(rows: seq<Row>)
    requires WellKinded(rows)
    ensures SingleLines(rows)
  {
    forall row | row in rows ensures OneLine(row.text) { assert WellFormed(row); }
  }

  lemma {:induction false} DropCrsOneLine(lines: seq<string>)
    requires OneLiners(lines)
    ensures OneLiners(DropCrs(lines))
  {
    if |lines| > 1 {
      DropCrsOneLine(lines[1..]);
    }
  }

  lemma ConfigRowsWellKinded(text: string)
    ensures WellKinded(ConfigRows(text)) && OneLiners(ConfigLines(text))
  {
    JoinSplit(text);
    DropCrsOneLine(Split(text));
    TextsOfRows(ConfigLines(text));
  }

  // ---- When the text has a features section ----

  lemma JoinTexts(lines: seq<string>)
    ensures JoinRows(Rows(lines)) == Join(lines, "\n")
  {
    TextsOfRows(lines);
  }

  lemma SetNotEmpty(rows: seq<Row>, mode: Mode, enabled: bool)
    requires rows != [] && mode == Outside
    ensures SetRows(rows, mode, enabled) != []
  {
  }

  /** What a written text reads back as. */
  lemma BodyReadsBack(rows: seq<Row>)
    requires WellKinded(rows) && rows != []
    ensures TailSame(rows, Rows(Split(Body(rows))))
  {
    BodyIsTrimmed(rows);
    SplitTrailing(Trimmed(rows));
    ReadBackRows(rows);
    RowsAppend(Split(Trimmed(rows)), [""]);
    BlankLine();
    TailSameAppend(rows, Rows(Split(Trimmed(rows))), Rows([""]));
  }

  lemma EndsInBreak(s: string)
    ensures Split(s + "\n")[|Split(s + "\n")| - 1] == ""
  {
    SplitTrailing(s);
  }

  /** Reading a written text again takes one carriage return off each of its lines, and nothing else. */
  lemma ReadAgain(s: string)
    ensures ConfigRows(s + "\n") == StripRows(Rows(Split(s + "\n")))
    ensures WellKinded(Rows(Split(s + "\n"))) && Rows(Split(s + "\n")) != []
  {
    EndsInBreak(s);
    StrippedRows(Split(s + "\n"));
    JoinSplit(s + "\n");
    TextsOfRows(Split(s + "\n"));
  }

  lemma SetAgain(s: string, rows: seq<Row>, enabled: bool)
    requires rows == Rows(Split(s + "\n")) && HasFeatures(rows)
    ensures SetFeature(s + "\n", enabled) == Unix(Body(SetRows(rows, Outside, enabled)))
  {
    ReadAgain(s);
    StripRowsKinds(rows);
    StripRowsSet(rows, Outside, enabled);
    SetWellKinded(rows, enabled);
    KindedLines(SetRows(rows, Outside, enabled));
    UnixBody(SetRows(rows, Outside, enabled));
  }

  lemma RemainderAgain(s: string, rows: seq<Row>)
    requires rows == Rows(Split(s + "\n"))
    ensures Remainder(s + "\n") == Unix(Trimmed(Others(rows, false)))
  {
    ReadAgain(s);
    StripRowsOthers(rows, false);
    KindedLines(rows);
    forall row | row in Others(rows, false) ensures OneLine(row.text) { OthersFrom(rows, false, row); }
    UnixTrimmed(Others(rows, false));
  }

  lemma {:induction false} OthersFrom(rows: seq<Row>, inside: bool, row: Row)
    ensures row in Others(rows, inside) ==> row in rows
  {
    if rows != [] {
      OthersFrom(rows[1..], rows[0].kind == Features || (inside && rows[0].kind != Header), row);
      OthersFrom(rows[1..], inside, row);
    }
  }

  /** All of a configuration text but its goals lines, up to trailing white space. */
  function Remainder(text: string): string {
    Trimmed(Others(ConfigRows(text), false))
  }

  lemma BlankLine()
    ensures AllBlank(Rows([""]))
  {
    KindOfBlank("");
    RowsCons("", []);
  }

  lemma BodyKeepsKinds(rows: seq<Row>)
    requires WellKinded(rows) && rows != []
    ensures Value(ConfigRows(Body(rows)), false) == Value(rows, false)
    ensures HasFeatures(ConfigRows(Body(rows))) == HasFeatures(rows)
  {
    BodyReadsBack(rows);
    TailSameKinds(rows, Rows(Split(Body(rows))), false);
    DropCrsKinds(Split(Body(rows)), false);
  }

  lemma {:induction false} SetKeepsFeatures(rows: seq<Row>, mode: Mode, enabled: bool)
    ensures HasFeatures(SetRows(rows, mode, enabled)) == HasFeatures(rows)
  {
    if rows != [] {
      var next := match rows[0].kind
                  case Features => if SectionHasGoals(rows[1..]) then Pending else Written
                  case Header => Outside
                  case Goals(_) => if mode == Outside then Outside else Written
                  case Other => mode;
      SetKeepsFeatures(rows[1..], next, enabled);
    }
  }

  lemma ReadsBackInSection(text: string, enabled: bool)
    requires HasFeatures(ConfigRows(text))
    ensures FeatureValue(SetFeature(text, enabled)) == Some(enabled)
  {
    var rows := ConfigRows(text);
    var next := SetRows(rows, Outside, enabled);
    ConfigRowsWellKinded(text);
    SetWellKinded(rows, enabled);
    SetNotEmpty(rows, Outside, enabled);
    BodyKeepsKinds(next);
    RowsReadBack(rows, Outside, enabled);
  }

  lemma LastWinsInSection(text: string, first: bool, last: bool)
    requires HasFeatures(ConfigRows(text))
    ensures SetFeature(SetFeature(text, first), last) == Unix(SetFeature(text, last))
  {
    var rows := ConfigRows(text);
    var next := SetRows(rows, Outside, first);
    ConfigRowsWellKinded(text);
    SetWellKinded(rows, first);
    SetNotEmpty(rows, Outside, first);
    BodyReadsBack(next);
    var again := Rows(Split(Body(next)));
    SetKeepsFeatures(rows, Outside, first);
    TailSameKinds(next, again, false);
    SetCompletes(rows, Outside, first);
    TailSameSet(next, again, Outside, last);
    TailSameTrimmed(SetRows(next, Outside, last), SetRows(again, Outside, last));
    RowsSetTwice(rows, Outside, first, last);
    SameBody(SetRows(again, Outside, last), SetRows(rows, Outside, last));
    BodyIsTrimmed(next);
    SetAgain(Trimmed(next), again, last);
  }

  lemma SameBody(a: seq<Row>, b: seq<Row>)
    requires Trimmed(a) == Trimmed(b)
    ensures Body(a) == Body(b)
  {
    BodyIsTrimmed(a);
    BodyIsTrimmed(b);
  }

  lemma RemainderInSection(text: string, enabled: bool)
    requires HasFeatures(ConfigRows(text))
    ensures Remainder(SetFeature(text, enabled)) == Unix(Remainder(text))
  {
    var rows := ConfigRows(text);
    var next := SetRows(rows, Outside, enabled);
    ConfigRowsWellKinded(text);
    SetWellKinded(rows, enabled);
    SetNotEmpty(rows, Outside, enabled);
    BodyReadsBack(next);
    var again := Rows(Split(Body(next)));
    TailSameOthers(next, again, false);
    TailSameTrimmed(Others(next, false), Others(again, false));
    RowsKeepOthers(rows, Outside, enabled);
    BodyIsTrimmed(next);
    RemainderAgain(Trimmed(next), again);
  }

  // ---- When the text has no features section yet ----

  function NewSection(enabled: bool): string {
    "[features]\n" + GoalsLine(enabled)
  }

  /** The text in front of a new section and its lines. */
  function Ahead(t: string): string {
    if t == "" then "" else t + "\n\n"
  }

  function LinesAhead(t: string): seq<string> {
    if t == "" then [] else Split(t) + [""]
  }

  /** The text written when there is no features section: the trimmed text and a new section. */
  function Appended(t: string, enabled: bool): string {
    Ahead(t) + NewSection(enabled)
  }

  lemma {:induction false} NoFeaturesSet(rows: seq<Row>, enabled: bool)
    requires !HasFeatures(rows)
    ensures SetRows(rows, Outside, enabled) == rows && Others(rows, false) == rows && Value(rows, false) == None
  {
    if rows != [] {
      NoFeaturesSet(rows[1..], enabled);
    }
  }

  lemma PassOverRow(row: Row, rest: seq<Row>, enabled: bool)
    requires row.kind != Features
    ensures SetRows([row] + rest, Outside, enabled) == [row] + SetRows(rest, Outside, enabled)
    ensures Others([row] + rest, false) == [row] + Others(rest, false)
    ensures Value([row] + rest, false) == Value(rest, false)
    ensures HasFeatures([row] + rest) == HasFeatures(rest)
  {
    assert ([row] + rest)[1..] == rest;
  }

  lemma {:induction false} PassOver(rows: seq<Row>, rest: seq<Row>, enabled: bool)
    requires !HasFeatures(rows)
    ensures SetRows(rows + rest, Outside, enabled) == rows + SetRows(rest, Outside, enabled)
    ensures Others(rows + rest, false) == rows + Others(rest, false)
    ensures Value(rows + rest, false) == Value(rest, false)
    ensures HasFeatures(rows + rest) == HasFeatures(rest)
  {
    if rows == [] {
      assert rows + rest == rest;
      assert rows + SetRows(rest, Outside, enabled) == SetRows(rest, Outside, enabled);
      assert rows + Others(rest, false) == Others(rest, false);
    } else {
      var row, tail := rows[0], rows[1..];
      assert rows == [row] + tail;
      PassOver(tail, rest, enabled);
      PassOverRow(row, tail + rest, enabled);
      Assoc([row], tail, rest);
      Assoc([row], tail, SetRows(rest, Outside, enabled));
      Assoc([row], tail, Others(rest, false));
    }
  }

  lemma JoinTwo(a: string, b: string)
    ensures Join([a, b], "\n\n") == a + "\n\n" + b
  {
    assert [a, b][1..] == [b];
  }

  lemma BodyTrimmed(rows: seq<Row>)
    ensures T(Body(rows)) == T(JoinRows(rows))
  {
    BodyIsTrimmed(rows);
    assert "" + Trimmed(rows) + "\n" == Body(rows);
    TrimPadded(JavaScript, "", Trimmed(rows), "\n");
    TrimOfTrimEnd(JavaScript, JoinRows(rows));
  }

  lemma JoinSectionsTwo(a: string, b: string)
    requires T(b) == b && b != ""
    ensures JoinSections([a, b]) == (if T(a) == "" then "" else T(a) + "\n\n") + b + "\n"
  {
    assert [a, b][1..] == [b] && [b][1..] == [];
    assert NonEmpty([b]) == [b];
    JoinTwo(T(a), b);
    assert "" + b == b;
  }

  lemma SetAppends(text: string, enabled: bool)
    requires !HasFeatures(ConfigRows(text))
    ensures SetFeature(text, enabled) == Appended(T(JoinRows(ConfigRows(text))), enabled) + "\n"
  {
    var rows := ConfigRows(text);
    NoFeaturesSet(rows, enabled);
    BodyTrimmed(rows);
    JoinSectionsTwo(Body(rows), NewSection(enabled));
  }

  // Lines of the trimmed text come from lines of the text.

  lemma {:induction false} SplitBlank(s: string)
    requires Blank(JavaScript, s)
    ensures forall i :: 0 <= i < |Split(s)| ==> Blank(JavaScript, Split(s)[i])
  {
    if s != "" {
      SplitBlank(s[1..]);
      BlankConcat(JavaScript, [s[0]], Split(s[1..])[0]);
    }
  }

  lemma FeaturesCons(line: string, rest: seq<string>)
    ensures HasFeatures(Rows([line] + rest)) <==> KindOf(line) == Features || HasFeatures(Rows(rest))
  {
    RowsCons(line, rest);
    assert Rows([line] + rest)[1..] == Rows(rest);
  }

  lemma KindOfPadded(before: string, line: string, after: string)
    requires Blank(JavaScript, before) && Blank(JavaScript, after)
    ensures KindOf(before + line) == KindOf(line) == KindOf(line + after)
  {
    assert before + line + "" == before + line && "" + line + after == line + after;
    TrimPadded(JavaScript, before, line, "");
    TrimPadded(JavaScript, "", line, after);
  }

  lemma PaddedFirst(before: string, y: seq<string>)
    requires y != [] && Blank(JavaScript, before)
    ensures HasFeatures(Rows(y)) <==> HasFeatures(Rows([before + y[0]] + y[1..]))
  {
    KindOfPadded(before, y[0], "");
    assert y == [y[0]] + y[1..];
    FeaturesCons(y[0], y[1..]);
    FeaturesCons(before + y[0], y[1..]);
  }

  lemma {:induction false} SeamBefore(x: seq<string>, y: seq<string>)
    requires x != [] && y != [] && Blank(JavaScript, x[|x| - 1])
    ensures HasFeatures(Rows(y)) ==> HasFeatures(Rows(Seam(x, y)))
  {
    if |x| == 1 {
      PaddedFirst(x[0], y);
    } else {
      SeamBefore(x[1..], y);
      FeaturesCons(x[0], Seam(x[1..], y));
      assert Seam(x, y)[1..] == Seam(x[1..], y);
    }
  }

  lemma {:induction false} SeamAfter(x: seq<string>, y: seq<string>)
    requires x != [] && y != [] && Blank(JavaScript, y[0])
    ensures HasFeatures(Rows(x)) ==> HasFeatures(Rows(Seam(x, y)))
  {
    assert x == [x[0]] + x[1..];
    FeaturesCons(x[0], x[1..]);
    if |x| == 1 {
      KindOfPadded("", x[0], y[0]);
      FeaturesCons(x[0] + y[0], y[1..]);
    } else {
      SeamAfter(x[1..], y);
      FeaturesCons(x[0], Seam(x[1..], y));
      assert Seam(x, y)[1..] == Seam(x[1..], y);
    }
  }

  lemma NoLines()
    ensures Split("") == [""] && !HasFeatures(Rows([""]))
  {
    RowsCons("", []);
    KindOfBlank("");
  }

  lemma LinesBehindBlank(before: string, t: string)
    requires Blank(JavaScript, before)
    ensures HasFeatures(Rows(Split(t))) ==> HasFeatures(Rows(Split(before + t)))
  {
    SplitConcat(before, t);
    SplitBlank(before);
    SeamBefore(Split(before), Split(t));
  }

  lemma FirstLineBlank(s: string)
    requires Blank(JavaScript, s)
    ensures Blank(JavaScript, Split(s)[0])
  {
    SplitBlank(s);
  }

  lemma LinesAheadOfBlank(t: string, after: string)
    requires Blank(JavaScript, after) && t != "" && !IsSpace(JavaScript, t[|t| - 1])
    ensures HasFeatures(Rows(Split(t))) ==> HasFeatures(Rows(Split(t + after)))
  {
    SplitConcat(t, after);
    FirstLineBlank(after);
    SeamAfter(Split(t), Split(after));
  }

  lemma TrimmedLines(s: string)
    ensures HasFeatures(Rows(Split(T(s)))) ==> HasFeatures(Rows(Split(s)))
  {
    if T(s) == "" {
      NoLines();
    } else {
      var before, after := TrimParts(JavaScript, s);
      LinesBehindBlank(before, T(s));
      LinesAheadOfBlank(before + T(s), after);
    }
  }

  // ---- The rows of an appended section ----

  function SectionRows(enabled: bool): seq<Row> {
    [Row(Features, "[features]"), GoalsRow(enabled), Row(Other, "")]
  }

  lemma SectionSplit(enabled: bool)
    ensures Split(NewSection(enabled) + "\n") == ["[features]", GoalsLine(enabled), ""]
  {
    GoalsLineTidy(enabled);
    SplitOneLine(GoalsLine(enabled));
    SplitTrailing(GoalsLine(enabled));
    var rest := GoalsLine(enabled) + "\n";
    assert NewSection(enabled) + "\n" == "[features]" + "\n" + rest;
    SplitAppend("[features]", rest);
  }

  lemma FeaturesKind()
    ensures KindOf("[features]") == Features
  {
    TrimTight(JavaScript, "[features]");
  }

  lemma SectionLines(enabled: bool)
    ensures Rows(["[features]", GoalsLine(enabled), ""]) == SectionRows(enabled)
  {
    FeaturesKind();
    GoalsRowWellFormed(enabled);
    KindOfBlank("");
    RowsCons("[features]", [GoalsLine(enabled), ""]);
    RowsCons(GoalsLine(enabled), [""]);
    RowsCons("", []);
  }

  /** The rows that precede the new section. */
  function KeptRows(t: string): seq<Row> {
    Rows(LinesAhead(t))
  }

  lemma SplitAhead(t: string, section: string)
    ensures Split(Ahead(t) + section + "\n") == LinesAhead(t) + Split(section + "\n")
  {
    Assoc(Ahead(t), section, "\n");
    if t == "" {
      assert "" + (section + "\n") == section + "\n";
      assert [] + Split(section + "\n") == Split(section + "\n");
    } else {
      assert t + "\n\n" == (t + "\n") + "\n";
      SplitBreak(t + "\n", section + "\n");
      SplitTrailing(t);
    }
  }

  lemma AppendedSplit(t: string, enabled: bool)
    ensures Split(Appended(t, enabled) + "\n") == LinesAhead(t) + ["[features]", GoalsLine(enabled), ""]
  {
    SectionSplit(enabled);
    SplitAhead(t, NewSection(enabled));
  }

  lemma AppendedRows(t: string, enabled: bool)
    ensures Rows(Split(Appended(t, enabled) + "\n")) == KeptRows(t) + SectionRows(enabled)
  {
    AppendedSplit(t, enabled);
    RowsAppend(LinesAhead(t), ["[features]", GoalsLine(enabled), ""]);
    SectionLines(enabled);
  }

  lemma SectionSet(enabled: bool, again: bool)
    ensures SetRows(SectionRows(enabled), Outside, again) == SectionRows(again)
    ensures Others(SectionRows(enabled), false) == [Row(Features, "[features]"), Row(Other, "")]
    ensures Value(SectionRows(enabled), false) == Some(enabled) && HasFeatures(SectionRows(enabled))
  {
    var rows := SectionRows(enabled);
    assert rows[1..] == [GoalsRow(enabled), Row(Other, "")];
    assert rows[1..][1..] == [Row(Other, "")];
    assert rows[1..][1..][1..] == [];
    assert SetRows([Row(Other, "")], Written, again) == [Row(Other, "")];
    assert Others([Row(Other, "")], true) == [Row(Other, "")];
  }

  lemma KeptHasNoFeatures(text: string)
    requires !HasFeatures(ConfigRows(text))
    ensures !HasFeatures(KeptRows(T(JoinRows(ConfigRows(text)))))
  {
    var all := JoinRows(ConfigRows(text));
    var t := T(all);
    if t != "" {
      ConfigRowsWellKinded(text);
      JoinTexts(ConfigLines(text));
      SplitJoin(ConfigLines(text));
      TrimmedLines(all);
      NoLines();
      RowsAppend(Split(t), [""]);
      PassOver(Rows(Split(t)), Rows([""]), true);
    }
  }

  lemma AppendedReadsBack(text: string, enabled: bool)
    requires !HasFeatures(ConfigRows(text))
    ensures FeatureValue(SetFeature(text, enabled)) == Some(enabled)
    ensures HasFeatures(ConfigRows(SetFeature(text, enabled)))
  {
    var t := T(JoinRows(ConfigRows(text)));
    SetAppends(text, enabled);
    AppendedRows(t, enabled);
    KeptHasNoFeatures(text);
    PassOver(KeptRows(t), SectionRows(enabled), enabled);
    SectionSet(enabled, enabled);
    DropCrsKinds(Split(SetFeature(text, enabled)), false);
  }

  lemma AppendedBody(t: string, rows: seq<Row>, enabled: bool)
    requires rows == Rows(Split(Appended(t, enabled) + "\n"))
    ensures Body(rows) == Appended(t, enabled) + "\n"
    ensures Trimmed(rows) == Appended(t, enabled)
  {
    var u := Appended(t, enabled);
    JoinTexts(Split(u + "\n"));
    JoinSplit(u + "\n");
    assert u[|u| - 1] == NewSection(enabled)[|NewSection(enabled)| - 1];
    TrimEndUnique(JavaScript, u, "\n");
    BodyIsTrimmed(rows);
  }

  lemma LastWinsAppended(text: string, first: bool, last: bool)
    requires !HasFeatures(ConfigRows(text))
    ensures SetFeature(SetFeature(text, first), last) == Unix(SetFeature(text, last))
  {
    var t := T(JoinRows(ConfigRows(text)));
    var kept := KeptRows(t);
    SetAppends(text, first);
    AppendedRows(t, first);
    KeptHasNoFeatures(text);
    PassOver(kept, SectionRows(first), last);
    SectionSet(first, last);
    SetAgain(Appended(t, first), kept + SectionRows(first), last);
    AppendedRows(t, last);
    AppendedBody(t, kept + SectionRows(last), last);
    SetAppends(text, last);
  }

  lemma RemainderAppended(text: string, enabled: bool)
    requires !HasFeatures(ConfigRows(text))
    ensures Remainder(SetFeature(text, enabled)) == Unix(Headed(T(Remainder(text))))
  {
    var rows := ConfigRows(text);
    var t := T(JoinRows(rows));
    NoFeaturesSet(rows, enabled);
    TrimOfTrimEnd(JavaScript, JoinRows(rows));
    SetAppends(text, enabled);
    AppendedRows(t, enabled);
    KeptHasNoFeatures(text);
    PassOver(KeptRows(t), SectionRows(enabled), enabled);
    SectionSet(enabled, enabled);
    RemainderAgain(Appended(t, enabled), KeptRows(t) + SectionRows(enabled));
    HeaderOnly(t);
  }

  function Headed(t: string): string {
    Ahead(t) + "[features]"
  }

  lemma HeadedSplit(t: string)
    ensures Split(Headed(t) + "\n") == LinesAhead(t) + ["[features]", ""]
  {
    SplitOneLine("[features]");
    SplitTrailing("[features]");
    SplitAhead(t, "[features]");
  }

  lemma HeadedRows(t: string)
    ensures Rows(Split(Headed(t) + "\n")) == KeptRows(t) + [Row(Features, "[features]"), Row(Other, "")]
  {
    HeadedSplit(t);
    FeaturesKind();
    KindOfBlank("");
    RowsCons("[features]", [""]);
    RowsCons("", []);
    RowsAppend(LinesAhead(t), ["[features]", ""]);
  }

  lemma HeaderOnly(t: string)
    ensures Trimmed(KeptRows(t) + [Row(Features, "[features]"), Row(Other, "")]) == Headed(t)
  {
    var u := Headed(t);
    HeadedRows(t);
    JoinTexts(Split(u + "\n"));
    JoinSplit(u + "\n");
    assert u[|u| - 1] == ']';
    TrimEndUnique(JavaScript, u, "\n");
  }

  // ---- The laws ----

  /** What was set is what is read, whatever the text. */
  lemma ReadsWhatWasSet(text: string, enabled: bool)
    ensures FeatureValue(SetFeature(text, enabled)) == Some(enabled)
  {
    if HasFeatures(ConfigRows(text)) {
      ReadsBackInSection(text, enabled);
    } else {
      AppendedReadsBack(text, enabled);
    }
  }

  /** The last setting wins, except that reading the text again makes every CR LF left in it a LF;
      with `first == last`, this is what setting twice does. */
  lemma LastSettingWins(text: string, first: bool, last: bool)
    ensures SetFeature(SetFeature(text, first), last) == Unix(SetFeature(text, last))
  {
    if HasFeatures(ConfigRows(text)) {
      LastWinsInSection(text, first, last);
    } else {
      LastWinsAppended(text, first, last);
    }
  }

  /** Every line that is not a goals line of a features section survives, in order: the text is the
      same but for its goals lines, its trailing white space and any CR LF the writing left, except
      that a text without a features section is trimmed and gets one. */
  lemma OtherLinesSurvive(text: string, enabled: bool)
    ensures Remainder(SetFeature(text, enabled))
            == Unix(if HasFeatures(ConfigRows(text)) then Remainder(text) else Headed(T(Remainder(text))))
  {
    if HasFeatures(ConfigRows(text)) {
      RemainderInSection(text, enabled);
    } else {
      RemainderAppended(text, enabled);
    }
  }
}
