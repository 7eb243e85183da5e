/** When setting the goals switch twice is setting it once. */
module GoalsIdempotence {
  import opened Wrappers
  import opened Text
  import opened GoalsConfig
  import opened GoalsLaws
  import opened GoalsTextLaws

  // ---- CR LF in a text ----

  lemma {:induction false} CrLfPart(a: string, b: string, c: string)
    requires HasCrLf(b)
    ensures HasCrLf(a + b + c)
    decreases |a|, |b|
  {
    var s := a + b + c;
    if a != "" {
      assert s[1..] == a[1..] + b + c;
      CrLfPart(a[1..], b, c);
    } else {
      assert s[0] == b[0] && s[1] == b[1];
      if !(b[0] == '\r' && b[1] == '\n') {
        assert s[1..] == "" + b[1..] + c;
        CrLfPart("", b[1..], c);
      }
    }
  }

  lemma {:induction false} CrLfConcat(a: string, b: string)
    requires !HasCrLf(a) && !HasCrLf(b) && (a != "" ==> a[|a| - 1] != '\r')
    ensures !HasCrLf(a + b)
  {
    if a == "" {
      assert a + b == b;
    } else {
      assert (a + b)[1..] == a[1..] + b;
      CrLfConcat(a[1..], b);
    }
  }

  lemma {:induction false} NoCrNoCrLf(s: string)
    requires '\r' !in s
    ensures !HasCrLf(s)
  {
    if s != "" { NoCrNoCrLf(s[1..]); }
  }

  predicate EndsInCr(line: string) {
    line != "" && line[|line| - 1] == '\r'
  }

  lemma {:induction false} LineCrLf(line: string, rest: string)
    requires OneLine(line)
    ensures HasCrLf(line + "\n" + rest) <==> EndsInCr(line) || HasCrLf(rest)
  {
    var s := line + "\n" + rest;
    if line == "" {
      assert s[0] == '\n' && s[1..] == rest;
    } else {
      assert s[1..] == line[1..] + "\n" + rest;
      LineCrLf(line[1..], rest);
    }
  }

  lemma {:induction false} OneLineNoCrLf(line: string)
    requires OneLine(line)
    ensures !HasCrLf(line)
  {
    if line != "" { OneLineNoCrLf(line[1..]); }
  }

  lemma BreakAddsNoCrLf(s: string)
    requires s != "" ==> s[|s| - 1] != '\r'
    ensures HasCrLf(s + "\n") <==> HasCrLf(s)
  {
    assert "" + s + "\n" == s + "\n";
    if HasCrLf(s) {
      CrLfPart("", s, "\n");
    } else {
      CrLfConcat(s, "\n");
    }
  }

  // ---- CR LF in rows ----

  /** Some row's text is more than white space. */
  predicate Inked(rows: seq<Row>) {
    rows != [] && (!Blank(JavaScript, rows[0].text) || Inked(rows[1..]))
  }

  /** Some row's text ends in a CR and has more than white space behind it. */
  predicate LooseCr(rows: seq<Row>) {
    rows != [] && ((EndsInCr(rows[0].text) && Inked(rows[1..])) || LooseCr(rows[1..]))
  }

  lemma {:induction false} InkedJoin(rows: seq<Row>)
    ensures Inked(rows) <==> !Blank(JavaScript, JoinRows(rows))
  {
    if |rows| == 1 {
      assert rows[1..] == [];
    } else if |rows| > 1 {
      InkedJoin(rows[1..]);
      BlankCons(rows);
    }
  }

  lemma {:induction false} NotInkedNotLoose(rows: seq<Row>)
    requires !Inked(rows)
    ensures !LooseCr(rows)
  {
    if rows != [] { NotInkedNotLoose(rows[1..]); }
  }

  lemma {:induction false} LooseTrimmed(rows: seq<Row>)
    requires SingleLines(rows)
    ensures HasCrLf(Trimmed(rows)) <==> LooseCr(rows)
  {
    if rows != [] {
      var line, rest := rows[0].text, rows[1..];
      TrimmedCons(rows);
      InkedJoin(rest);
      if Inked(rest) {
        LooseTrimmed(rest);
        LineCrLf(line, Trimmed(rest));
      } else {
        NotInkedNotLoose(rest);
        TrimmedLine(line);
        JoinSplit(TrimEnd(JavaScript, line));
        OneLineNoCrLf(TrimEnd(JavaScript, line));
      }
    }
  }

  lemma LooseBody(rows: seq<Row>)
    requires SingleLines(rows)
    ensures HasCrLf(Body(rows)) <==> LooseCr(rows)
  {
    BodyIsTrimmed(rows);
    LooseTrimmed(rows);
    var after := TrimEndParts(JavaScript, JoinRows(rows));
    BreakAddsNoCrLf(Trimmed(rows));
  }

  // ---- The condition, on the text that is set ----

  /** Something more than white space is written for the rows. In a features section the first goals
      row counts, being rewritten, and the others do not. */
  predicate WritesInk(rows: seq<Row>, mode: Mode) {
    && rows != []
    && if rows[0].kind.Goals? && mode != Outside then mode == Pending || WritesInk(rows[1..], Written)
       else !Blank(JavaScript, rows[0].text) || WritesInk(rows[1..], mode)
  }

  /** A row that survives ends in a CR, and something more than white space is written behind it. Behind
      the header of a features section there always is, since goals are. */
  predicate KeepsCr(rows: seq<Row>, mode: Mode) {
    && rows != []
    && match rows[0].kind
       case Features =>
         EndsInCr(rows[0].text) || KeepsCr(rows[1..], if SectionHasGoals(rows[1..]) then Pending else Written)
       case Header =>
         (EndsInCr(rows[0].text) && WritesInk(rows[1..], Outside)) || KeepsCr(rows[1..], Outside)
       case Goals(_) =>
         if mode == Outside then (EndsInCr(rows[0].text) && WritesInk(rows[1..], Outside)) || KeepsCr(rows[1..], Outside)
         else KeepsCr(rows[1..], Written)
       case Other =>
         (EndsInCr(rows[0].text) && WritesInk(rows[1..], mode)) || KeepsCr(rows[1..], mode)
  }

  /** Setting goals in the text leaves a CR LF: with a features section, behind a surviving line; without
      one, inside the trimmed text. */
  predicate LeavesCr(text: string) {
    if HasFeatures(ConfigRows(text)) then KeepsCr(ConfigRows(text), Outside) else HasCrLf(T(Unix(text)))
  }

  /** Only a line that is nothing special to the editor can be blank. */
  ghost predicate InkedKinds(rows: seq<Row>) {
    forall row :: row in rows && row.kind != Other ==> !Blank(JavaScript, row.text)
  }

  lemma WellKindedInked(rows: seq<Row>)
    requires WellKinded(rows)
    ensures InkedKinds(rows)
  {
    forall row | row in rows && Blank(JavaScript, row.text) ensures row.kind == Other {
      assert WellFormed(row);
      KindOfBlank(row.text);
    }
  }

  lemma GoalsRowInked(enabled: bool, rest: seq<Row>)
    ensures Inked([GoalsRow(enabled)] + rest) && !EndsInCr(GoalsRow(enabled).text)
    ensures LooseCr([GoalsRow(enabled)] + rest) <==> LooseCr(rest)
  {
    assert GoalsRow(enabled).text[0] == 'g';
    GoalsLineEnd(enabled);
    assert ([GoalsRow(enabled)] + rest)[1..] == rest;
  }

  lemma RowInked(row: Row, rest: seq<Row>)
    ensures Inked([row] + rest) <==> !Blank(JavaScript, row.text) || Inked(rest)
    ensures LooseCr([row] + rest) <==> (EndsInCr(row.text) && Inked(rest)) || LooseCr(rest)
  {
    assert ([row] + rest)[1..] == rest;
  }

  lemma {:induction false} InkWritten(rows: seq<Row>, mode: Mode, enabled: bool)
    requires InkedKinds(rows) && (mode == Pending ==> SectionHasGoals(rows))
    ensures Inked(SetRows(rows, mode, enabled)) <==> WritesInk(rows, mode)
  {
    if rows != [] {
      var row, rest := rows[0], rows[1..];
      assert row in rows;
      if row.kind.Goals? && mode != Outside {
        InkWritten(rest, Written, enabled);
        GoalsRowInked(enabled, SetRows(rest, Written, enabled));
      } else if row.kind == Other {
        InkWritten(rest, mode, enabled);
        RowInked(row, SetRows(rest, mode, enabled));
      } else {
        assert SetRows(rows, mode, enabled)[0] == row;
      }
    }
  }

  lemma {:induction false} CrKept(rows: seq<Row>, mode: Mode, enabled: bool)
    requires InkedKinds(rows) && (mode == Pending ==> SectionHasGoals(rows))
    ensures LooseCr(SetRows(rows, mode, enabled)) <==> KeepsCr(rows, mode)
    decreases |rows|, 1
  {
    if rows != [] {
      var row, rest := rows[0], rows[1..];
      assert row in rows;
      match row.kind {
        case Features => CrKeptFeatures(rows, mode, enabled);
        case Header =>
          CrKept(rest, Outside, enabled);
          InkWritten(rest, Outside, enabled);
          RowInked(row, SetRows(rest, Outside, enabled));
        case Goals(_) =>
          var next := if mode == Outside then Outside else Written;
          CrKept(rest, next, enabled);
          InkWritten(rest, next, enabled);
          RowInked(row, SetRows(rest, next, enabled));
          GoalsRowInked(enabled, SetRows(rest, next, enabled));
        case Other =>
          CrKept(rest, mode, enabled);
          InkWritten(rest, mode, enabled);
          RowInked(row, SetRows(rest, mode, enabled));
      }
    }
  }

  lemma {:induction false} CrKeptFeatures(rows: seq<Row>, mode: Mode, enabled: bool)
    requires InkedKinds(rows) && rows != [] && rows[0].kind == Features
    ensures LooseCr(SetRows(rows, mode, enabled)) <==> KeepsCr(rows, mode)
    decreases |rows|, 0
  {
    var row, rest := rows[0], rows[1..];
    if SectionHasGoals(rest) {
      CrKept(rest, Pending, enabled);
      InkWritten(rest, Pending, enabled);
      PendingWritesInk(rest);
      RowInked(row, SetRows(rest, Pending, enabled));
    } else {
      var written := SetRows(rest, Written, enabled);
      CrKept(rest, Written, enabled);
      GoalsRowInked(enabled, written);
      RowInked(row, [GoalsRow(enabled)] + written);
    }
  }

  lemma {:induction false} PendingWritesInk(rows: seq<Row>)
    requires SectionHasGoals(rows)
    ensures WritesInk(rows, Pending)
  {
    if rows[0].kind == Other { PendingWritesInk(rows[1..]); }
  }

  // ---- Setting twice ----

  lemma WinsIffNoCrLf(text: string, first: bool, last: bool)
    ensures SetFeature(SetFeature(text, first), last) == SetFeature(text, last) <==> !HasCrLf(SetFeature(text, last))
  {
    LastSettingWins(text, first, last);
    UnixChanges(SetFeature(text, last));
  }

  lemma SectionLeavesCr(text: string, enabled: bool)
    requires HasFeatures(ConfigRows(text))
    ensures HasCrLf(SetFeature(text, enabled)) <==> LeavesCr(text)
  {
    var rows := ConfigRows(text);
    ConfigRowsWellKinded(text);
    WellKindedInked(rows);
    SetWellKinded(rows, enabled);
    KindedLines(SetRows(rows, Outside, enabled));
    LooseBody(SetRows(rows, Outside, enabled));
    CrKept(rows, Outside, enabled);
  }

  lemma NewSectionLeavesCr(text: string, enabled: bool)
    requires !HasFeatures(ConfigRows(text))
    ensures HasCrLf(SetFeature(text, enabled)) <==> LeavesCr(text)
  {
    var t := T(Unix(text));
    if HasCrLf(t) {
      WrittenCrLf(text, enabled);
    } else {
      SetAppends(text, enabled);
      JoinTexts(ConfigLines(text));
      ConfigLinesUnix(text);
      JoinSplit(Unix(text));
      var before, after := TrimParts(JavaScript, Unix(text));
      AppendedNoCrLf(t, enabled);
    }
  }

  /** Setting is idempotent, and the last setting wins, exactly on the texts in which it leaves no CR LF:
      with a features section, those where no surviving line ends in a second CR, or in a CR at the end
      of the text, with something still written behind it; without one, those whose trimmed text has
      no CR in front of a CR LF. */
  lemma LastSettingWinsIff(text: string, first: bool, last: bool)
    ensures SetFeature(SetFeature(text, first), last) == SetFeature(text, last) <==> !LeavesCr(text)
  {
    WinsIffNoCrLf(text, first, last);
    if HasFeatures(ConfigRows(text)) {
      SectionLeavesCr(text, last);
    } else {
      NewSectionLeavesCr(text, last);
    }
  }

  lemma {:induction false} DropCrsSame(lines: seq<string>, i: nat)
    requires i < |lines| && DropCrs(lines + [""]) == lines + [""]
    ensures !EndsInCr(lines[i])
  {
    var all := lines + [""];
    assert all[1..] == lines[1..] + [""];
    assert DropCrs(all)[0] == lines[0] && DropCrs(all)[1..] == DropCrs(all[1..]);
    if i > 0 { DropCrsSame(lines[1..], i - 1); }
  }

  /** A text none of whose lines ends in a CR once split. */
  lemma NoCrLines(text: string)
    requires !HasCrLf(Unix(text) + "\n")
    ensures forall line :: line in ConfigLines(text) ==> !EndsInCr(line)
  {
    var u := Unix(text);
    ConfigLinesUnix(text);
    UnixChanges(u + "\n");
    ConfigLinesUnix(u + "\n");
    SplitTrailing(u);
    forall line | line in Split(u) ensures !EndsInCr(line) {
      var i :| 0 <= i < |Split(u)| && Split(u)[i] == line;
      DropCrsSame(Split(u), i);
    }
  }

  lemma {:induction false} NothingStripped(rows: seq<Row>)
    requires forall row :: row in rows ==> !EndsInCr(row.text)
    ensures StripRows(rows) == rows
  {
    if rows != [] { NothingStripped(rows[1..]); }
  }

  lemma NoCrRows(text: string, enabled: bool)
    requires !HasCrLf(Unix(text) + "\n")
    ensures !HasCrLf(Body(SetRows(ConfigRows(text), Outside, enabled)))
  {
    var rows := ConfigRows(text);
    var next := SetRows(rows, Outside, enabled);
    NoCrLines(text);
    ConfigRowsWellKinded(text);
    SetWellKinded(rows, enabled);
    KindedLines(next);
    GoalsLineEnd(enabled);
    forall row | row in next ensures !EndsInCr(row.text) {
      SetRowsFrom(rows, Outside, enabled, row);
      if row != GoalsRow(enabled) { RowsInLines(ConfigLines(text), row); }
    }
    NothingStripped(next);
    UnixBody(next);
    UnixChanges(Body(next));
  }

  lemma {:induction false} RowsInLines(lines: seq<string>, row: Row)
    requires row in Rows(lines)
    ensures row.text in lines
  {
    if row != Rows(lines)[0] {
      RowsInLines(lines[1..], row);
    }
  }

  lemma GoalsLineEnd(enabled: bool)
    ensures !EndsInCr(GoalsLine(enabled)) && '\r' !in "\n\n" + NewSection(enabled) + "\n"
    ensures '\r' !in NewSection(enabled) + "\n"
  {
  }

  lemma AppendedNoCrLf(t: string, enabled: bool)
    requires !HasCrLf(t) && Tight(JavaScript, t)
    ensures !HasCrLf(Appended(t, enabled) + "\n")
  {
    GoalsLineEnd(enabled);
    if t == "" {
      assert Appended(t, enabled) + "\n" == NewSection(enabled) + "\n";
      NoCrNoCrLf(NewSection(enabled) + "\n");
    } else {
      var rest := "\n\n" + NewSection(enabled) + "\n";
      assert Appended(t, enabled) + "\n" == t + rest;
      NoCrNoCrLf(rest);
      CrLfConcat(t, rest);
    }
  }

  /** A text without a CR in front of a line break, or of the end, once every CR LF is a LF, is
      written without one. */
  lemma NoCrLfWritten(text: string, enabled: bool)
    requires !HasCrLf(Unix(text) + "\n")
    ensures !HasCrLf(SetFeature(text, enabled))
  {
    NoCrRows(text, enabled);
    var rows := ConfigRows(text);
    if !HasFeatures(rows) {
      NoFeaturesSet(rows, enabled);
      BodyTrimmed(rows);
      SetAppends(text, enabled);
      var before, after := TrimParts(JavaScript, Body(rows));
      var t := T(Body(rows));
      if HasCrLf(t) { CrLfPart(before, t, after); }
      AppendedNoCrLf(t, enabled);
    }
  }

  /** On such texts setting is idempotent and the last setting wins. */
  lemma LastSettingWinsPlain(text: string, first: bool, last: bool)
    requires !HasCrLf(Unix(text) + "\n")
    ensures SetFeature(SetFeature(text, first), last) == SetFeature(text, last)
  {
    NoCrLfWritten(text, last);
    WinsIffNoCrLf(text, first, last);
  }

  lemma WrittenCrLf(text: string, enabled: bool)
    requires !HasFeatures(ConfigRows(text)) && HasCrLf(T(Unix(text)))
    ensures HasCrLf(SetFeature(text, enabled))
  {
    var t := T(Unix(text));
    SetAppends(text, enabled);
    JoinTexts(ConfigLines(text));
    ConfigLinesUnix(text);
    JoinSplit(Unix(text));
    AppendedCrLf(t, enabled);
  }

  lemma AroundPart(t: string, section: string)
    ensures t + "\n\n" + section + "\n" == "" + t + ("\n\n" + section + "\n")
  {
  }

  lemma AppendedCrLf(t: string, enabled: bool)
    requires HasCrLf(t)
    ensures HasCrLf(Appended(t, enabled) + "\n")
  {
    var section := NewSection(enabled);
    AroundPart(t, section);
    CrLfPart("", t, "\n\n" + section + "\n");
  }

  const STRAY_CR := "a\r\r\nb"

  lemma StrayCrUnix()
    ensures Unix(STRAY_CR) == "a\r\nb" && T("a\r\nb") == "a\r\nb" && HasCrLf("a\r\nb")
  {
    var s := STRAY_CR;
    assert s[1..] == "\r\r\nb" && s[1..][1..] == "\r\nb" && s[1..][1..][2..] == "b" && "b"[1..] == "";
    assert Unix("b") == "b";
    assert Unix("\r\nb") == "\nb";
    assert Unix("\r\r\nb") == "\r\nb";
    TrimTight(JavaScript, "a\r\nb");
    assert HasCrLf("a\r\nb"[1..]);
  }

  lemma StrayCrLines()
    ensures Split("a\r\nb") == ["a\r", "b"]
  {
    assert "a\r\nb" == "a\r" + "\n" + "b";
    SplitAppend("a\r", "b");
    SplitOneLine("b");
  }

  lemma ShortKind(line: string)
    requires |T(line)| == 1
    ensures KindOf(line) != Features
  {
  }

  lemma StrayCrKinds()
    ensures !HasFeatures(Rows(["a\r", "b"]))
  {
    assert "" + "a" + "\r" == "a\r";
    TrimUnique(JavaScript, "", "a", "\r");
    TrimTight(JavaScript, "b");
    ShortKind("a\r");
    ShortKind("b");
    FeaturesCons("a\r", ["b"]);
    FeaturesCons("b", []);
  }

  /** On others they can fail: here a second setting takes out the CR that the first one left. */
  lemma SecondSettingDropsCr(enabled: bool)
    ensures SetFeature(SetFeature(STRAY_CR, enabled), enabled) != SetFeature(STRAY_CR, enabled)
  {
    StrayCrUnix();
    StrayCrLines();
    StrayCrKinds();
    ConfigLinesUnix(STRAY_CR);
    WrittenCrLf(STRAY_CR, enabled);
    WinsIffNoCrLf(STRAY_CR, enabled, enabled);
  }
}
