/** The goals switch on lines of text: which line is read, and what each line becomes when it is set. */
module GoalsReading {
  import opened Wrappers
  import opened Text
  import opened GoalsConfig
  import opened GoalsLaws
  import opened GoalsTextLaws

  // ---- What a line says, as a text without the white space around it ----

  predicate IsFeaturesHeader(t: string) {
    t == "[features]"
  }

  /** `[`, a name that is not empty and has no `]`, and `]`. */
  ghost predicate IsTable(t: string) {
    exists name: string :: name != "" && ']' !in name && t == "[" + name + "]"
  }

  /** `goals`, blanks and `=`. */
  ghost predicate AssignsGoals(t: string) {
    exists x, rest: string :: Blank(JavaScript, x) && t == "goals" + (x + ("=" + rest))
  }

  /** Nothing, or no letter, digit or underscore first. */
  predicate Bounded(rest: string) {
    rest == "" || !('A' <= rest[0] <= 'Z' || 'a' <= rest[0] <= 'z' || '0' <= rest[0] <= '9' || rest[0] == '_')
  }

  /** `goals`, blanks, `=`, blanks, the word for the value and a word boundary. */
  ghost predicate AssignsWord(t: string, word: string) {
    exists x, y, rest: string ::
      Blank(JavaScript, x) && Blank(JavaScript, y) && Bounded(rest) && t == "goals" + (x + ("=" + (y + (word + rest))))
  }

  ghost predicate AssignsValue(t: string, b: bool) {
    AssignsWord(t, if b then "true" else "false")
  }

  // ---- The kinds of lines are these ----

  lemma TableKind(name: string)
    requires name != "" && ']' !in name
    ensures IsHeader("[" + name + "]") && !("goals" <= "[" + name + "]")
  {
    var t := "[" + name + "]";
    assert t[1..|t| - 1] == name;
    assert t[0] == '[';
  }

  lemma HeaderIsTable(t: string)
    ensures IsHeader(t) <==> IsTable(t)
  {
    if IsHeader(t) {
      var name := t[1..|t| - 1];
      assert t == "[" + name + "]";
    }
    if IsTable(t) {
      var name: string :| name != "" && ']' !in name && t == "[" + name + "]";
      TableKind(name);
    }
  }

  lemma GoalsTailOf(x: string, rest: string)
    requires Blank(JavaScript, x)
    ensures GoalsTail("goals" + (x + ("=" + rest))) == Some(rest)
  {
    var t := "goals" + (x + ("=" + rest));
    assert t[5..] == x + ("=" + rest);
    TrimStartUnique(JavaScript, x, "=" + rest);
    assert ("=" + rest)[1..] == rest;
  }

  lemma TailIsAssigned(t: string) returns (x: string)
    requires GoalsTail(t).Some?
    ensures Blank(JavaScript, x) && t == "goals" + (x + ("=" + GoalsTail(t).value))
  {
    x := TrimStartParts(JavaScript, t[5..]);
    var r := SkipSpace(t[5..]);
    assert r == "=" + r[1..];
    assert t == "goals" + t[5..];
  }

  lemma TailIffAssigns(t: string)
    ensures GoalsTail(t).Some? <==> AssignsGoals(t)
  {
    if GoalsTail(t).Some? {
      var x := TailIsAssigned(t);
    }
    if AssignsGoals(t) {
      var x, rest: string :| Blank(JavaScript, x) && t == "goals" + (x + ("=" + rest));
      GoalsTailOf(x, rest);
    }
  }

  lemma WordRead(y: string, b: bool, rest: string)
    requires Blank(JavaScript, y) && Bounded(rest)
    ensures GoalsValue(y + ((if b then "true" else "false") + rest)) == Some(b)
  {
    var word := if b then "true" else "false";
    var v := word + rest;
    assert v[0] == if b then 't' else 'f';
    TrimStartUnique(JavaScript, y, v);
    assert |v| > |word| ==> v[|word|] == rest[0];
  }

  lemma ReadWord(tail: string, b: bool) returns (y: string, rest: string)
    requires GoalsValue(tail) == Some(b)
    ensures Blank(JavaScript, y) && Bounded(rest) && tail == y + ((if b then "true" else "false") + rest)
  {
    var word := if b then "true" else "false";
    y := TrimStartParts(JavaScript, tail);
    var v := SkipSpace(tail);
    rest := v[|word|..];
    assert v == word + rest;
  }

  lemma AssignedValue(t: string, x: string, y: string, b: bool, rest: string)
    requires Blank(JavaScript, x) && Blank(JavaScript, y) && Bounded(rest)
    requires t == "goals" + (x + ("=" + (y + ((if b then "true" else "false") + rest))))
    ensures GoalsTail(t).Some? && GoalsValue(GoalsTail(t).value) == Some(b)
  {
    GoalsTailOf(x, y + ((if b then "true" else "false") + rest));
    WordRead(y, b, rest);
  }

  lemma ValueIffAssigns(t: string, b: bool)
    ensures GoalsTail(t).Some? && GoalsValue(GoalsTail(t).value) == Some(b) <==> AssignsValue(t, b)
  {
    var word := if b then "true" else "false";
    if GoalsTail(t).Some? && GoalsValue(GoalsTail(t).value) == Some(b) {
      var x := TailIsAssigned(t);
      var y, rest := ReadWord(GoalsTail(t).value, b);
      assert AssignsWord(t, word);
    }
    if AssignsValue(t, b) {
      var x, y, rest: string :|
        Blank(JavaScript, x) && Blank(JavaScript, y) && Bounded(rest) && t == "goals" + (x + ("=" + (y + (word + rest))));
      AssignedValue(t, x, y, b, rest);
    }
  }

  lemma FirstChars(t: string)
    ensures GoalsTail(t).Some? ==> !IsHeader(t) && !IsFeaturesHeader(t)
  {
    if GoalsTail(t).Some? {
      assert t[0] == "goals"[0] == 'g';
      assert "[features]"[0] == '[';
    }
  }

  lemma KindMeans(t: string)
    ensures KindOfTrimmed(t) == Features <==> IsFeaturesHeader(t)
    ensures KindOfTrimmed(t) == Features || KindOfTrimmed(t) == Header <==> IsTable(t)
    ensures KindOfTrimmed(t).Goals? <==> AssignsGoals(t)
    ensures forall b :: KindOfTrimmed(t) == Goals(Some(b)) <==> AssignsValue(t, b)
  {
    HeaderIsTable(t);
    assert IsHeader("[features]");
    TailIffAssigns(t);
    FirstChars(t);
    forall b ensures KindOfTrimmed(t) == Goals(Some(b)) <==> AssignsValue(t, b) { ValueIffAssigns(t, b); }
  }

  // ---- Places among rows ----

  predicate Starts(row: Row) {
    row.kind == Features || row.kind == Header
  }

  ghost predicate Inside(rows: seq<Row>, i: nat)
    requires i <= |rows|
  {
    i > 0 && (rows[i - 1].kind == Features || (rows[i - 1].kind != Header && Inside(rows, i - 1)))
  }

  ghost predicate Seen(rows: seq<Row>, i: nat)
    requires i <= |rows|
  {
    i > 0 && (rows[i - 1].kind.Goals? || (rows[i - 1].kind == Other && Seen(rows, i - 1)))
  }

  lemma {:induction false} InsideIff(rows: seq<Row>, i: nat)
    requires i <= |rows|
    ensures Inside(rows, i) <==> exists h :: 0 <= h < i && rows[h].kind == Features && forall j :: h < j < i ==> !Starts(rows[j])
  {
    if i > 0 {
      InsideIff(rows, i - 1);
      if rows[i - 1].kind != Features && rows[i - 1].kind != Header && Inside(rows, i - 1) {
        var h :| 0 <= h < i - 1 && rows[h].kind == Features && forall j :: h < j < i - 1 ==> !Starts(rows[j]);
        assert forall j :: h < j < i ==> !Starts(rows[j]);
      }
    }
  }

  lemma {:induction false} SeenIff(rows: seq<Row>, i: nat)
    requires i <= |rows|
    ensures Seen(rows, i) <==> exists g :: 0 <= g < i && rows[g].kind.Goals? && forall j :: g < j < i ==> !Starts(rows[j])
  {
    if i > 0 {
      SeenIff(rows, i - 1);
      if rows[i - 1].kind == Other && Seen(rows, i - 1) {
        var g :| 0 <= g < i - 1 && rows[g].kind.Goals? && forall j :: g < j < i - 1 ==> !Starts(rows[j]);
        assert forall j :: g < j < i ==> !Starts(rows[j]);
      }
    }
  }

  lemma {:induction false} AheadIff(rows: seq<Row>, i: nat)
    requires i <= |rows|
    ensures SectionHasGoals(rows[i..])
            <==> exists g :: i <= g < |rows| && rows[g].kind.Goals? && forall j :: i <= j < g ==> !Starts(rows[j])
    decreases |rows| - i
  {
    if i < |rows| {
      Suffix(rows, i);
      AheadIff(rows, i + 1);
      if rows[i].kind == Other && SectionHasGoals(rows[i + 1..]) {
        var g :| i + 1 <= g < |rows| && rows[g].kind.Goals? && forall j :: i + 1 <= j < g ==> !Starts(rows[j]);
        assert forall j :: i <= j < g ==> !Starts(rows[j]);
      }
    }
  }

  predicate Readable(row: Row) {
    row.kind.Goals? && row.kind.value.Some?
  }

  ghost predicate ReadAt(rows: seq<Row>, i: nat, k: nat, b: bool)
    requires i <= k < |rows|
  {
    && Inside(rows, k) && rows[k].kind == Goals(Some(b))
    && forall j :: i <= j < k && Inside(rows, j) ==> !Readable(rows[j])
  }

  lemma ReadAtStep(rows: seq<Row>, i: nat, k: nat, b: bool)
    requires i < k < |rows| && !(Inside(rows, i) && Readable(rows[i]))
    ensures ReadAt(rows, i, k, b) <==> ReadAt(rows, i + 1, k, b)
  {
    assert Inside(rows, i) ==> !Readable(rows[i]);
  }

  lemma {:induction false} ValueIff(rows: seq<Row>, i: nat, b: bool)
    requires i <= |rows|
    ensures Value(rows[i..], Inside(rows, i)) == Some(b) <==> exists k :: i <= k < |rows| && ReadAt(rows, i, k, b)
    decreases |rows| - i
  {
    if i < |rows| {
      Suffix(rows, i);
      ValueIff(rows, i + 1, b);
      if Inside(rows, i) && Readable(rows[i]) {
        if rows[i].kind.value == Some(b) { assert ReadAt(rows, i, i, b); }
      } else {
        assert Value(rows[i..], Inside(rows, i)) == Value(rows[i + 1..], Inside(rows, i + 1));
        if Value(rows[i..], Inside(rows, i)) == Some(b) {
          var k :| i + 1 <= k < |rows| && ReadAt(rows, i + 1, k, b);
          ReadAtStep(rows, i, k, b);
        }
        if k :| i <= k < |rows| && ReadAt(rows, i, k, b) {
          ReadAtStep(rows, i, k, b);
        }
      }
    }
  }

  /** What the row becomes when goals is set. */
  ghost function EditedRow(rows: seq<Row>, i: nat, b: bool): seq<Row>
    requires i < |rows|
  {
    if rows[i].kind == Features && !SectionHasGoals(rows[i + 1..]) then [rows[i], GoalsRow(b)]
    else if rows[i].kind.Goals? && Inside(rows, i) then if Seen(rows, i) then [] else [GoalsRow(b)]
    else [rows[i]]
  }

  ghost function EditedRows(rows: seq<Row>, i: nat, b: bool): seq<Row>
    requires i <= |rows|
    decreases |rows| - i
  {
    if i == |rows| then [] else EditedRow(rows, i, b) + EditedRows(rows, i + 1, b)
  }

  ghost function ModeAt(rows: seq<Row>, i: nat): Mode
    requires i <= |rows|
  {
    if !Inside(rows, i) then Outside else if Seen(rows, i) || !SectionHasGoals(rows[i..]) then Written else Pending
  }

  lemma {:induction false} SetRowsEdits(rows: seq<Row>, i: nat, b: bool)
    requires i <= |rows|
    ensures SetRows(rows[i..], ModeAt(rows, i), b) == EditedRows(rows, i, b)
    decreases |rows| - i
  {
    if i < |rows| {
      Suffix(rows, i);
      SetRowsEdits(rows, i + 1, b);
      if rows[i].kind == Features && !SectionHasGoals(rows[i + 1..]) {
        Assoc([rows[i]], [GoalsRow(b)], EditedRows(rows, i + 1, b));
        assert [rows[i]] + [GoalsRow(b)] == [rows[i], GoalsRow(b)];
      }
    }
  }

  // ---- Places among lines ----

  /** A features header stands before the line, with no table header between. */
  ghost predicate InFeatures(lines: seq<string>, i: nat)
    requires i <= |lines|
  {
    exists h :: 0 <= h < i && IsFeaturesHeader(Trim(JavaScript, lines[h]))
                && forall j :: h < j < i ==> !IsTable(Trim(JavaScript, lines[j]))
  }

  /** A goals line stands before the line, with no table header between. */
  ghost predicate GoalsAbove(lines: seq<string>, i: nat)
    requires i <= |lines|
  {
    exists g :: 0 <= g < i && AssignsGoals(Trim(JavaScript, lines[g]))
                && forall j :: g < j < i ==> !IsTable(Trim(JavaScript, lines[j]))
  }

  /** A goals line stands behind the line, with no table header between. */
  ghost predicate GoalsBelow(lines: seq<string>, i: nat)
    requires i < |lines|
  {
    exists g :: i < g < |lines| && AssignsGoals(Trim(JavaScript, lines[g]))
                && forall j :: i < j < g ==> !IsTable(Trim(JavaScript, lines[j]))
  }

  /** The line is the one the reader takes the value from. */
  ghost predicate FirstAssigned(lines: seq<string>, k: nat, b: bool)
    requires k < |lines|
  {
    && InFeatures(lines, k) && AssignsValue(Trim(JavaScript, lines[k]), b)
    && forall j :: 0 <= j < k && InFeatures(lines, j) ==>
         !AssignsValue(Trim(JavaScript, lines[j]), true) && !AssignsValue(Trim(JavaScript, lines[j]), false)
  }

  /** What the line becomes when goals is set: a features header whose section has no goals line gets one
      below it, the first goals line of a section is replaced, and the others of the section go. */
  ghost function EditedLine(lines: seq<string>, i: nat, b: bool): seq<string>
    requires i < |lines|
  {
    var t := Trim(JavaScript, lines[i]);
    var goals := if b then "goals = true" else "goals = false";
    if IsFeaturesHeader(t) && !GoalsBelow(lines, i) then [lines[i], goals]
    else if AssignsGoals(t) && InFeatures(lines, i) then if GoalsAbove(lines, i) then [] else [goals]
    else [lines[i]]
  }

  /** What all places up to `n` give, from `i` on, put together. */
  function Collected<T>(n: nat, i: nat, at: nat -> seq<T>): seq<T>
    decreases n - i
  {
    if i >= n then [] else at(i) + Collected(n, i + 1, at)
  }

  ghost function LineEdits(lines: seq<string>, b: bool): nat -> seq<string> {
    (k: nat) => if k < |lines| then EditedLine(lines, k, b) else []
  }

  ghost function EditedLines(lines: seq<string>, b: bool): seq<string> {
    Collected(|lines|, 0, LineEdits(lines, b))
  }

  // ---- Rows are lines ----

  /** The rows have the kinds their lines say. */
  ghost predicate MeanHeaders(rows: seq<Row>, lines: seq<string>) {
    && |rows| == |lines|
    && (forall i :: 0 <= i < |rows| ==> (rows[i].kind == Features <==> IsFeaturesHeader(Trim(JavaScript, lines[i]))))
    && (forall i :: 0 <= i < |rows| ==> (Starts(rows[i]) <==> IsTable(Trim(JavaScript, lines[i]))))
  }

  ghost predicate MeanGoals(rows: seq<Row>, lines: seq<string>) {
    && |rows| == |lines|
    && (forall i :: 0 <= i < |rows| ==> (rows[i].kind.Goals? <==> AssignsGoals(Trim(JavaScript, lines[i]))))
  }

  ghost predicate MeanValues(rows: seq<Row>, lines: seq<string>) {
    && |rows| == |lines|
    && (forall i, b :: 0 <= i < |rows| ==> (rows[i].kind == Goals(Some(b)) <==> AssignsValue(Trim(JavaScript, lines[i]), b)))
  }

  lemma {:induction false} RowAt(lines: seq<string>, i: nat)
    requires i < |lines|
    ensures Rows(lines)[i] == Row(KindOf(lines[i]), lines[i])
  {
    if i > 0 { RowAt(lines[1..], i - 1); }
  }

  lemma RowsHaveTexts(lines: seq<string>)
    ensures forall k :: 0 <= k < |lines| ==> Rows(lines)[k].text == lines[k]
  {
    forall k | 0 <= k < |lines| ensures Rows(lines)[k].text == lines[k] { RowAt(lines, k); }
  }

  lemma RowsMeanHeaders(lines: seq<string>)
    ensures MeanHeaders(Rows(lines), lines)
  {
    var rows := Rows(lines);
    forall i | 0 <= i < |lines|
      ensures rows[i].kind == Features <==> IsFeaturesHeader(Trim(JavaScript, lines[i]))
      ensures Starts(rows[i]) <==> IsTable(Trim(JavaScript, lines[i]))
    {
      RowAt(lines, i);
      KindMeans(Trim(JavaScript, lines[i]));
    }
  }

  lemma RowsMeanGoals(lines: seq<string>)
    ensures MeanGoals(Rows(lines), lines)
  {
    var rows := Rows(lines);
    forall i | 0 <= i < |lines| ensures rows[i].kind.Goals? <==> AssignsGoals(Trim(JavaScript, lines[i])) {
      RowAt(lines, i);
      KindMeans(Trim(JavaScript, lines[i]));
    }
  }

  lemma RowsMeanValues(lines: seq<string>)
    ensures MeanValues(Rows(lines), lines)
  {
    var rows := Rows(lines);
    forall i, b | 0 <= i < |lines| ensures rows[i].kind == Goals(Some(b)) <==> AssignsValue(Trim(JavaScript, lines[i]), b) {
      RowAt(lines, i);
      KindMeans(Trim(JavaScript, lines[i]));
    }
  }

  lemma InsideMeans(rows: seq<Row>, lines: seq<string>, i: nat)
    requires MeanHeaders(rows, lines) && i <= |rows|
    ensures Inside(rows, i) <==> InFeatures(lines, i)
  {
    InsideIff(rows, i);
  }

  lemma SeenMeans(rows: seq<Row>, lines: seq<string>, i: nat)
    requires MeanHeaders(rows, lines) && MeanGoals(rows, lines) && i <= |rows|
    ensures Seen(rows, i) <==> GoalsAbove(lines, i)
  {
    SeenIff(rows, i);
  }

  lemma AheadMeans(rows: seq<Row>, lines: seq<string>, i: nat)
    requires MeanHeaders(rows, lines) && MeanGoals(rows, lines) && i < |rows|
    ensures SectionHasGoals(rows[i + 1..]) <==> GoalsBelow(lines, i)
  {
    AheadIff(rows, i + 1);
  }

  lemma ReadableMeans(rows: seq<Row>, lines: seq<string>, j: nat)
    requires MeanValues(rows, lines) && j < |rows|
    ensures Readable(rows[j]) <==> AssignsValue(Trim(JavaScript, lines[j]), true) || AssignsValue(Trim(JavaScript, lines[j]), false)
  {
    assert rows[j].kind == Goals(Some(true)) <==> AssignsValue(Trim(JavaScript, lines[j]), true);
    assert rows[j].kind == Goals(Some(false)) <==> AssignsValue(Trim(JavaScript, lines[j]), false);
    if Readable(rows[j]) {
      var b := rows[j].kind.value.value;
      assert rows[j].kind == Goals(Some(b));
      assert b == true || b == false;
    }
  }

  lemma ReadAtMeans(rows: seq<Row>, lines: seq<string>, k: nat, b: bool)
    requires MeanHeaders(rows, lines) && MeanValues(rows, lines) && k < |rows|
    ensures ReadAt(rows, 0, k, b) <==> FirstAssigned(lines, k, b)
  {
    forall j | 0 <= j <= k ensures Inside(rows, j) <==> InFeatures(lines, j) { InsideMeans(rows, lines, j); }
    forall j | 0 <= j < k
      ensures Readable(rows[j]) <==> AssignsValue(Trim(JavaScript, lines[j]), true) || AssignsValue(Trim(JavaScript, lines[j]), false)
    {
      ReadableMeans(rows, lines, j);
    }
  }

  lemma {:induction false} TextsAppend(a: seq<Row>, b: seq<Row>)
    ensures Texts(a + b) == Texts(a) + Texts(b)
  {
    if a == [] {
      assert a + b == b;
    } else {
      assert (a + b)[1..] == a[1..] + b;
      TextsAppend(a[1..], b);
    }
  }

  lemma EditedRowMeans(rows: seq<Row>, lines: seq<string>, i: nat, b: bool)
    requires MeanHeaders(rows, lines) && MeanGoals(rows, lines) && i < |rows| && rows[i].text == lines[i]
    ensures Texts(EditedRow(rows, i, b)) == EditedLine(lines, i, b)
  {
    InsideMeans(rows, lines, i);
    SeenMeans(rows, lines, i);
    AheadMeans(rows, lines, i);
    assert Texts([rows[i]]) == [lines[i]] && Texts([GoalsRow(b)]) == [GoalsLine(b)];
    TextsAppend([rows[i]], [GoalsRow(b)]);
  }

  lemma TextsOf(a: seq<Row>, b: seq<Row>, x: seq<string>, y: seq<string>)
    requires Texts(a) == x && Texts(b) == y
    ensures Texts(a + b) == x + y
  {
    TextsAppend(a, b);
  }

  lemma {:induction false} CollectedTexts(n: nat, i: nat, rows: nat -> seq<Row>, lines: nat -> seq<string>)
    requires forall k :: i <= k < n ==> Texts(rows(k)) == lines(k)
    ensures Texts(Collected(n, i, rows)) == Collected(n, i, lines)
    decreases n - i
  {
    if i < n {
      CollectedTexts(n, i + 1, rows, lines);
      TextsOf(rows(i), Collected(n, i + 1, rows), lines(i), Collected(n, i + 1, lines));
    }
  }

  ghost function RowEdits(rows: seq<Row>, b: bool): nat -> seq<Row> {
    (k: nat) => if k < |rows| then EditedRow(rows, k, b) else []
  }

  lemma {:induction false} RowEditsCollected(rows: seq<Row>, i: nat, b: bool)
    requires i <= |rows|
    ensures EditedRows(rows, i, b) == Collected(|rows|, i, RowEdits(rows, b))
    decreases |rows| - i
  {
    if i < |rows| { RowEditsCollected(rows, i + 1, b); }
  }

  lemma EditedRowsMean(rows: seq<Row>, lines: seq<string>, b: bool)
    requires MeanHeaders(rows, lines) && MeanGoals(rows, lines)
    requires forall k :: 0 <= k < |rows| ==> rows[k].text == lines[k]
    ensures Texts(EditedRows(rows, 0, b)) == EditedLines(lines, b)
  {
    forall k: nat | k < |rows| ensures Texts(RowEdits(rows, b)(k)) == LineEdits(lines, b)(k) {
      EditedRowMeans(rows, lines, k, b);
    }
    CollectedTexts(|rows|, 0, RowEdits(rows, b), LineEdits(lines, b));
    RowEditsCollected(rows, 0, b);
  }

  lemma {:induction false} FeaturesIff(rows: seq<Row>)
    ensures HasFeatures(rows) <==> exists i :: 0 <= i < |rows| && rows[i].kind == Features
  {
    if rows != [] {
      FeaturesIff(rows[1..]);
      assert forall i :: 0 <= i < |rows[1..]| ==> rows[1..][i] == rows[i + 1];
      if HasFeatures(rows[1..]) {
        var i :| 0 <= i < |rows[1..]| && rows[1..][i].kind == Features;
        assert rows[i + 1].kind == Features;
      }
      if i :| 0 <= i < |rows| && rows[i].kind == Features {
        assert i > 0 ==> rows[1..][i - 1].kind == Features;
      }
    }
  }

  // ---- The laws on lines ----

  /** The lines of a configuration, a carriage return before a line break being part of the break. */
  function LinesOf(text: string): (r: seq<string>) {
    Split(Unix(text))
  }

  /** The value read is the one assigned by the first line that assigns one inside a features section. */
  lemma ReaderIff(text: string, b: bool)
    ensures FeatureValue(text) == Some(b) <==> exists k :: 0 <= k < |LinesOf(text)| && FirstAssigned(LinesOf(text), k, b)
  {
    var lines := LinesOf(text);
    var rows := Rows(lines);
    ConfigLinesUnix(text);
    RowsMeanHeaders(lines);
    RowsMeanValues(lines);
    ValueIff(rows, 0, b);
    assert rows[0..] == rows;
    forall k | 0 <= k < |lines| ensures ReadAt(rows, 0, k, b) <==> FirstAssigned(lines, k, b) {
      ReadAtMeans(rows, lines, k, b);
    }
  }

  ghost predicate HasFeaturesLine(lines: seq<string>) {
    exists i :: 0 <= i < |lines| && IsFeaturesHeader(Trim(JavaScript, lines[i]))
  }

  lemma RowsEdited(lines: seq<string>, b: bool)
    ensures HasFeatures(Rows(lines)) <==> HasFeaturesLine(lines)
    ensures Texts(SetRows(Rows(lines), Outside, b)) == EditedLines(lines, b)
  {
    var rows := Rows(lines);
    RowsMeanHeaders(lines);
    RowsMeanGoals(lines);
    FeaturesIff(rows);
    SetRowsEdits(rows, 0, b);
    assert rows[0..] == rows;
    RowsHaveTexts(lines);
    EditedRowsMean(rows, lines, b);
  }

  /** Setting goals edits the lines one by one and trims the end of the text. */
  lemma SetterEdits(text: string, b: bool)
    requires HasFeaturesLine(LinesOf(text))
    ensures SetFeature(text, b) == TrimEnd(JavaScript, Join(EditedLines(LinesOf(text), b), "\n")) + "\n"
  {
    ConfigLinesUnix(text);
    RowsEdited(LinesOf(text), b);
    BodyIsTrimmed(SetRows(ConfigRows(text), Outside, b));
  }

  /** A text without a features section is trimmed and gets one at its end. */
  lemma SetterAppends(text: string, b: bool)
    requires !HasFeaturesLine(LinesOf(text))
    ensures var kept := Trim(JavaScript, Unix(text));
            var section := "[features]\ngoals = " + (if b then "true" else "false") + "\n";
            SetFeature(text, b) == if kept == "" then section else kept + "\n\n" + section
  {
    var kept := Trim(JavaScript, Unix(text));
    ConfigLinesUnix(text);
    RowsEdited(LinesOf(text), b);
    SetAppends(text, b);
    JoinTexts(LinesOf(text));
    JoinSplit(Unix(text));
    AppendedIs(kept, b);
  }

  lemma AppendedIs(kept: string, b: bool)
    ensures var section := "[features]\ngoals = " + (if b then "true" else "false") + "\n";
            Appended(kept, b) + "\n" == if kept == "" then section else kept + "\n\n" + section
  {
    var word := if b then "true" else "false";
    assert NewSection(b) + "\n" == "[features]\ngoals = " + word + "\n";
    Assoc(Ahead(kept), NewSection(b), "\n");
    if kept == "" { assert "" + (NewSection(b) + "\n") == NewSection(b) + "\n"; }
  }

  // ---- The other lines ----

  ghost function OtherRows(rows: seq<Row>, i: nat): seq<Row>
    requires i <= |rows|
    decreases |rows| - i
  {
    if i == |rows| then []
    else OtherRow(rows, i) + OtherRows(rows, i + 1)
  }

  ghost function OtherRow(rows: seq<Row>, i: nat): seq<Row>
    requires i < |rows|
  {
    if rows[i].kind.Goals? && Inside(rows, i) then [] else [rows[i]]
  }

  lemma {:induction false} OthersAreOther(rows: seq<Row>, i: nat)
    requires i <= |rows|
    ensures Others(rows[i..], Inside(rows, i)) == OtherRows(rows, i)
    decreases |rows| - i
  {
    if i < |rows| {
      Suffix(rows, i);
      OthersAreOther(rows, i + 1);
      if rows[i].kind.Goals? && Inside(rows, i) { assert [] + OtherRows(rows, i + 1) == OtherRows(rows, i + 1); }
    }
  }

  /** The lines that are no goals lines of a features section. */
  ghost function OtherLines(lines: seq<string>): seq<string> {
    Collected(|lines|, 0, OtherLineAt(lines))
  }

  ghost function OtherLine(lines: seq<string>, i: nat): seq<string>
    requires i < |lines|
  {
    if AssignsGoals(Trim(JavaScript, lines[i])) && InFeatures(lines, i) then [] else [lines[i]]
  }

  lemma OtherRowMeans(rows: seq<Row>, lines: seq<string>, i: nat)
    requires MeanHeaders(rows, lines) && MeanGoals(rows, lines) && i < |rows| && rows[i].text == lines[i]
    ensures Texts(OtherRow(rows, i)) == OtherLine(lines, i)
  {
    InsideMeans(rows, lines, i);
    assert Texts([rows[i]]) == [lines[i]];
  }

  ghost function OtherRowAt(rows: seq<Row>): nat -> seq<Row> {
    (k: nat) => if k < |rows| then OtherRow(rows, k) else []
  }

  ghost function OtherLineAt(lines: seq<string>): nat -> seq<string> {
    (k: nat) => if k < |lines| then OtherLine(lines, k) else []
  }

  lemma {:induction false} OtherRowsCollected(rows: seq<Row>, i: nat)
    requires i <= |rows|
    ensures OtherRows(rows, i) == Collected(|rows|, i, OtherRowAt(rows))
    decreases |rows| - i
  {
    if i < |rows| { OtherRowsCollected(rows, i + 1); }
  }

  lemma OtherRowsMean(rows: seq<Row>, lines: seq<string>)
    requires MeanHeaders(rows, lines) && MeanGoals(rows, lines)
    requires forall k :: 0 <= k < |rows| ==> rows[k].text == lines[k]
    ensures Texts(OtherRows(rows, 0)) == OtherLines(lines)
  {
    forall k: nat | k < |rows| ensures Texts(OtherRowAt(rows)(k)) == OtherLineAt(lines)(k) {
      OtherRowMeans(rows, lines, k);
    }
    CollectedTexts(|rows|, 0, OtherRowAt(rows), OtherLineAt(lines));
    OtherRowsCollected(rows, 0);
  }

  /** The text of the other lines, without the white space at its end. */
  ghost function OtherText(text: string): string {
    TrimEnd(JavaScript, Join(OtherLines(LinesOf(text)), "\n"))
  }

  lemma RemainderIsOtherText(text: string)
    ensures Remainder(text) == OtherText(text)
  {
    var lines := LinesOf(text);
    ConfigLinesUnix(text);
    RowsMeanHeaders(lines);
    RowsMeanGoals(lines);
    OthersAreOther(Rows(lines), 0);
    assert Rows(lines)[0..] == Rows(lines);
    RowsHaveTexts(lines);
    OtherRowsMean(Rows(lines), lines);
  }

  lemma FeaturesMean(text: string)
    ensures HasFeatures(ConfigRows(text)) <==> HasFeaturesLine(LinesOf(text))
  {
    ConfigLinesUnix(text);
    RowsEdited(LinesOf(text), true);
  }

  lemma HeadedIs(t: string)
    ensures Headed(t) == if t == "" then "[features]" else t + "\n\n" + "[features]"
  {
    assert "" + "[features]" == "[features]";
  }

  /** Setting keeps every other line, in order: the text of the other lines is the same but for the carriage
      returns that reading takes, except that a text without a features section is trimmed and gets one. */
  lemma SetterKeepsOtherLines(text: string, b: bool)
    ensures var kept := OtherText(text);
            OtherText(SetFeature(text, b))
            == Unix(if HasFeaturesLine(LinesOf(text)) then kept
                    else if Trim(JavaScript, kept) == "" then "[features]"
                    else Trim(JavaScript, kept) + "\n\n" + "[features]")
  {
    OtherLinesSurvive(text, b);
    RemainderIsOtherText(text);
    RemainderIsOtherText(SetFeature(text, b));
    FeaturesMean(text);
    HeadedIs(Trim(JavaScript, OtherText(text)));
  }
}
