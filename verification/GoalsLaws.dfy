/** The laws of the goals switch: what was set is what is read, setting is idempotent and the last
    setting wins, and every other line of the configuration survives. */
module GoalsLaws {
  import opened Wrappers
  import opened Text
  import opened GoalsConfig

  // ---- On rows ----

  lemma {:induction false} RowsReadBack(rows: seq<Row>, mode: Mode, enabled: bool)
    requires if mode == Pending then SectionHasGoals(rows) else mode == Outside && HasFeatures(rows)
    ensures Value(SetRows(rows, mode, enabled), mode == Pending) == Some(enabled)
  {
    var kind := rows[0].kind;
    if kind == Features {
      if SectionHasGoals(rows[1..]) {
        RowsReadBack(rows[1..], Pending, enabled);
      }
    } else if !(mode == Pending && kind.Goals?) {
      RowsReadBack(rows[1..], mode, enabled);
    }
  }

  lemma {:induction false} GoalsStay(rows: seq<Row>, mode: Mode, enabled: bool)
    requires mode != Outside
    ensures SectionHasGoals(SetRows(rows, mode, enabled)) == (mode == Pending && SectionHasGoals(rows))
  {
    if rows != [] && (rows[0].kind == Other || rows[0].kind.Goals?) {
      GoalsStay(rows[1..], mode, enabled);
      GoalsStay(rows[1..], Written, enabled);
    }
  }

  lemma PendingGoalsRow(row: Row, rest: seq<Row>, enabled: bool)
    requires row.kind.Goals?
    ensures SetRows([row] + rest, Pending, enabled) == [GoalsRow(enabled)] + SetRows(rest, Written, enabled)
  {
    assert ([row] + rest)[1..] == rest;
  }

  /** The last setting wins. */
  lemma {:induction false} RowsSetTwice(rows: seq<Row>, mode: Mode, first: bool, last: bool)
    requires mode == Pending ==> SectionHasGoals(rows)
    ensures SetRows(SetRows(rows, mode, first), mode, last) == SetRows(rows, mode, last)
  {
    if rows != [] {
      var row, rest := rows[0], rows[1..];
      match row.kind
      case Features =>
        if SectionHasGoals(rest) {
          GoalsStay(rest, Pending, first);
          RowsSetTwice(rest, Pending, first, last);
        } else {
          RowsSetTwice(rest, Written, first, last);
          PendingGoalsRow(GoalsRow(first), SetRows(rest, Written, first), last);
        }
      case Header => RowsSetTwice(rest, Outside, first, last);
      case Goals(_) =>
        RowsSetTwice(rest, if mode == Outside then Outside else Written, first, last);
        PendingGoalsRow(GoalsRow(first), SetRows(rest, Written, first), last);
      case Other => RowsSetTwice(rest, mode, first, last);
    }
  }

  /** Every row that is not a goals row of a features section. */
  function Others(rows: seq<Row>, inside: bool): seq<Row> {
    if rows == [] then []
    else if rows[0].kind.Goals? && inside then Others(rows[1..], inside)
    else [rows[0]] + Others(rows[1..], rows[0].kind == Features || (inside && rows[0].kind != Header))
  }

  /** Setting touches no other row, and keeps their order. */
  lemma {:induction false} RowsKeepOthers(rows: seq<Row>, mode: Mode, enabled: bool)
    requires mode == Pending ==> SectionHasGoals(rows)
    ensures Others(SetRows(rows, mode, enabled), mode != Outside) == Others(rows, mode != Outside)
  {
    if rows != [] {
      var rest := rows[1..];
      match rows[0].kind
      case Features => RowsKeepOthers(rest, if SectionHasGoals(rest) then Pending else Written, enabled);
      case Header => RowsKeepOthers(rest, Outside, enabled);
      case Goals(_) => RowsKeepOthers(rest, if mode == Outside then Outside else Written, enabled);
      case Other => RowsKeepOthers(rest, mode, enabled);
    }
  }

  /** Every features section has a goals row. */
  ghost predicate Complete(rows: seq<Row>) {
    rows == [] || ((rows[0].kind == Features ==> SectionHasGoals(rows[1..])) && Complete(rows[1..]))
  }

  lemma {:induction false} SetCompletes(rows: seq<Row>, mode: Mode, enabled: bool)
    requires mode == Pending ==> SectionHasGoals(rows)
    ensures Complete(SetRows(rows, mode, enabled))
  {
    if rows != [] {
      var rest := rows[1..];
      match rows[0].kind
      case Features =>
        GoalsStay(rest, Pending, enabled);
        SetCompletes(rest, if SectionHasGoals(rest) then Pending else Written, enabled);
      case Header => SetCompletes(rest, Outside, enabled);
      case Goals(_) => SetCompletes(rest, if mode == Outside then Outside else Written, enabled);
      case Other => SetCompletes(rest, mode, enabled);
    }
  }

  // ---- Rows that differ only in trailing white space of the text ----

  ghost predicate AllBlank(rows: seq<Row>) {
    rows == [] || (Blank(JavaScript, rows[0].text) && rows[0].kind == Other && AllBlank(rows[1..]))
  }

  ghost predicate TailSame(a: seq<Row>, b: seq<Row>) {
    || (AllBlank(a) && AllBlank(b))
    || (a != [] && b != [] && a[0].kind == b[0].kind &&
        ((a[0] == b[0] && TailSame(a[1..], b[1..]))
         || (TrimEnd(JavaScript, a[0].text) == TrimEnd(JavaScript, b[0].text) && AllBlank(a[1..]) && AllBlank(b[1..]))))
  }

  lemma {:induction false} BlankRows(rows: seq<Row>, mode: Mode, enabled: bool)
    requires AllBlank(rows)
    ensures SetRows(rows, mode, enabled) == rows && Others(rows, mode != Outside) == rows
    ensures Value(rows, mode != Outside) == None && !SectionHasGoals(rows) && !HasFeatures(rows)
  {
    if rows != [] {
      BlankRows(rows[1..], mode, enabled);
    }
  }

  lemma {:induction false} TailSameKinds(a: seq<Row>, b: seq<Row>, inside: bool)
    requires TailSame(a, b)
    ensures Value(a, inside) == Value(b, inside)
    ensures SectionHasGoals(a) == SectionHasGoals(b) && HasFeatures(a) == HasFeatures(b)
  {
    var mode := if inside then Written else Outside;
    if AllBlank(a) && AllBlank(b) {
      BlankRows(a, mode, true);
      BlankRows(b, mode, true);
    } else {
      var next := a[0].kind == Features || (inside && a[0].kind != Header);
      if a[0] == b[0] && TailSame(a[1..], b[1..]) {
        TailSameKinds(a[1..], b[1..], next);
      } else {
        BlankRows(a[1..], if next then Written else Outside, true);
        BlankRows(b[1..], if next then Written else Outside, true);
      }
    }
  }

  lemma {:induction false} TailSameSet(a: seq<Row>, b: seq<Row>, mode: Mode, enabled: bool)
    requires TailSame(a, b) && Complete(a)
    ensures TailSame(SetRows(a, mode, enabled), SetRows(b, mode, enabled))
  {
    if AllBlank(a) && AllBlank(b) {
      BlankRows(a, mode, enabled);
      BlankRows(b, mode, enabled);
    } else {
      var kind := a[0].kind;
      var next := if kind == Features then Pending
                  else if kind == Header then Outside
                  else if kind.Goals? && mode != Outside then Written
                  else mode;
      if a[0] == b[0] && TailSame(a[1..], b[1..]) {
        TailSameKinds(a[1..], b[1..], true);
        TailSameSet(a[1..], b[1..], next, enabled);
      } else {
        BlankRows(a[1..], next, enabled);
        BlankRows(b[1..], next, enabled);
      }
    }
  }

  lemma {:induction false} TailSameOthers(a: seq<Row>, b: seq<Row>, inside: bool)
    requires TailSame(a, b)
    ensures TailSame(Others(a, inside), Others(b, inside))
  {
    var mode := if inside then Written else Outside;
    if AllBlank(a) && AllBlank(b) {
      BlankRows(a, mode, true);
      BlankRows(b, mode, true);
    } else {
      var next := a[0].kind == Features || (inside && a[0].kind != Header);
      if a[0] == b[0] && TailSame(a[1..], b[1..]) {
        TailSameOthers(a[1..], b[1..], next);
      } else {
        BlankRows(a[1..], if next then Written else Outside, true);
        BlankRows(b[1..], if next then Written else Outside, true);
      }
    }
  }

  // ---- Rows of lines of text ----

  ghost predicate WellFormed(row: Row) {
    row.kind == KindOf(row.text) && OneLine(row.text)
  }

  /** Rows that stand for single lines of text. */
  ghost predicate WellKinded(rows: seq<Row>) {
    forall row :: row in rows ==> WellFormed(row)
  }

  lemma {:induction false} TextsOfRows(lines: seq<string>)
    ensures Texts(Rows(lines)) == lines
    ensures OneLiners(lines) ==> WellKinded(Rows(lines))
  {
    if lines != [] {
      TextsOfRows(lines[1..]);
      assert Rows(lines)[1..] == Rows(lines[1..]);
    }
  }

  lemma KindOfBlank(line: string)
    requires Blank(JavaScript, line)
    ensures KindOf(line) == Other
  {
    TrimBlank(JavaScript, line);
  }

  lemma StripCrTrims(line: string)
    ensures T(StripCr(line)) == T(line)
  {
    if StripCr(line) != line {
      assert line == "" + StripCr(line) + "\r";
      TrimPadded(JavaScript, "", StripCr(line), "\r");
    }
  }

  lemma {:induction false} DropCrsKinds(lines: seq<string>, inside: bool)
    ensures Value(Rows(DropCrs(lines)), inside) == Value(Rows(lines), inside)
    ensures SectionHasGoals(Rows(DropCrs(lines))) == SectionHasGoals(Rows(lines))
    ensures HasFeatures(Rows(DropCrs(lines))) == HasFeatures(Rows(lines))
  {
    if |lines| > 1 {
      StripCrTrims(lines[0]);
      var kind := KindOf(lines[0]);
      DropCrsKinds(lines[1..], kind == Features || (inside && kind != Header));
      assert DropCrs(lines)[1..] == DropCrs(lines[1..]);
    }
  }

  function Word(enabled: bool): string {
    if enabled then "true" else "false"
  }

  lemma GoalsLineTail(enabled: bool)
    ensures GoalsTail(GoalsLine(enabled)) == Some(" " + Word(enabled))
  {
    var line, rest := GoalsLine(enabled), "= " + Word(enabled);
    assert line == "goals" + (" " + rest);
    AssignedTail(line, rest, Word(enabled));
  }

  lemma AssignedTail(line: string, rest: string, word: string)
    requires line == "goals" + (" " + rest) && rest == "= " + word
    ensures GoalsTail(line) == Some(" " + word)
  {
    assert line[5..] == " " + rest;
    assert rest[1..] == " " + word;
    TrimStartUnique(JavaScript, " ", rest);
  }

  lemma GoalsTailValue(enabled: bool)
    ensures GoalsValue(" " + Word(enabled)) == Some(enabled)
  {
    TrimStartUnique(JavaScript, " ", Word(enabled));
    assert Word(enabled)[0] == if enabled then 't' else 'f';
  }

  lemma GoalsLineKind(enabled: bool)
    ensures KindOfTrimmed(GoalsLine(enabled)) == Goals(Some(enabled))
  {
    GoalsLineTail(enabled);
    GoalsTailValue(enabled);
    assert GoalsLine(enabled)[0] == 'g' && "[features]"[0] == '[';
  }

  lemma GoalsLineTidy(enabled: bool)
    ensures OneLine(GoalsLine(enabled)) && T(GoalsLine(enabled)) == GoalsLine(enabled)
  {
    TrimTight(JavaScript, GoalsLine(enabled));
  }

  /** What the setter writes is what the reader looks for. */
  lemma GoalsRowWellFormed(enabled: bool)
    ensures WellFormed(GoalsRow(enabled))
  {
    GoalsLineTidy(enabled);
    GoalsLineKind(enabled);
  }

  /** Setting brings in no row but the goals row. */
  lemma {:induction false} SetRowsFrom(rows: seq<Row>, mode: Mode, enabled: bool, row: Row)
    ensures row in SetRows(rows, mode, enabled) ==> row in rows || row == GoalsRow(enabled)
  {
    if rows != [] {
      var next := match rows[0].kind
                  case Features => if SectionHasGoals(rows[1..]) then Pending else Written
                  case Header => Outside
                  case Goals(_) => if mode == Outside then Outside else Written
                  case Other => mode;
      SetRowsFrom(rows[1..], next, enabled, row);
    }
  }

  lemma SetWellKinded(rows: seq<Row>, enabled: bool)
    requires WellKinded(rows)
    ensures WellKinded(SetRows(rows, Outside, enabled))
  {
    GoalsRowWellFormed(enabled);
    forall row | row in SetRows(rows, Outside, enabled) ensures WellFormed(row) {
      SetRowsFrom(rows, Outside, enabled, row);
    }
  }
}
