/** The `goals` feature switch kept in config.toml text: reading it and writing it in place. */
module GoalsConfig {
  import opened Wrappers
  import opened Text

  // ---- Lines ----

  function StripCr(line: string): string {
    if line != "" && line[|line| - 1] == '\r' then line[..|line| - 1] else line
  }

  /** A line break may be preceded by a carriage return; the last line has no line break. */
  function DropCrs(lines: seq<string>): (r: seq<string>)
    ensures |r| == |lines|
  {
    if |lines| <= 1 then lines else [StripCr(lines[0])] + DropCrs(lines[1..])
  }

  /** `text.split(/\r?\n/)`. */
  function ConfigLines(text: string): (r: seq<string>)
    ensures r != []
  {
    DropCrs(Split(text))
  }

  function T(line: string): string {
    Trim(JavaScript, line)
  }

  /** `[name]`; a `[[name]]` line is not recognised. */
  predicate IsHeader(t: string) {
    |t| >= 3 && t[0] == '[' && t[|t| - 1] == ']' && ']' !in t[1..|t| - 1]
  }

  function SkipSpace(s: string): (r: string)
    ensures |r| <= |s|
  {
    TrimStart(JavaScript, s)
  }

  /** What follows `goals =` on a trimmed line that assigns it. */
  function GoalsTail(t: string): Option<string> {
    if "goals" <= t && "=" <= SkipSpace(t[5..]) then Some(SkipSpace(t[5..])[1..]) else None
  }

  /** The value a goals line assigns, if it is one the reader understands. */
  function GoalsValue(tail: string): Option<bool> {
    var v := SkipSpace(tail);
    if StartsWord(v, "true") then Some(true) else if StartsWord(v, "false") then Some(false) else None
  }

  /** What a line is to the editor. A features header is a header too. */
  datatype Kind = Features | Header | Goals(value: Option<bool>) | Other

  function KindOfTrimmed(t: string): Kind {
    if t == "[features]" then Features
    else if IsHeader(t) then Header
    else if GoalsTail(t).Some? then Goals(GoalsValue(GoalsTail(t).value))
    else Other
  }

  function KindOf(line: string): Kind {
    KindOfTrimmed(T(line))
  }

  datatype Row = Row(kind: Kind, text: string)

  function Rows(lines: seq<string>): (r: seq<Row>)
    ensures |r| == |lines|
  {
    if lines == [] then [] else [Row(KindOf(lines[0]), lines[0])] + Rows(lines[1..])
  }

  function Texts(rows: seq<Row>): (r: seq<string>)
    ensures |r| == |rows|
  {
    if rows == [] then [] else [rows[0].text] + Texts(rows[1..])
  }

  function ConfigRows(text: string): (r: seq<Row>)
    ensures r != []
  {
    Rows(ConfigLines(text))
  }

  // ---- Reading ----

  /** The value the rows give, starting inside or outside a features section. */
  function Value(rows: seq<Row>, inside: bool): Option<bool> {
    if rows == [] then None
    else
      match rows[0].kind
      case Features => Value(rows[1..], true)
      case Header => Value(rows[1..], false)
      case Goals(value) => if inside && value.Some? then value else Value(rows[1..], inside)
      case Other => Value(rows[1..], inside)
  }

  function FeatureValue(text: string): Option<bool> {
    Value(ConfigRows(text), false)
  }

  method ReadFeatureValue(text: string) returns (value: Option<bool>)
    ensures value == FeatureValue(text)
  {
    var rows := ConfigRows(text);
    var inFeatures := false;
    for i := 0 to |rows|
      invariant Value(rows[i..], inFeatures) == FeatureValue(text)
    {
      var kind := rows[i].kind;
      assert rows[i..][0] == rows[i] && rows[i..][1..] == rows[i + 1..];
      if kind == Features {
        inFeatures := true;
        continue;
      }
      if inFeatures && kind == Header {
        inFeatures := false;
      }
      if inFeatures && kind.Goals? && kind.value.Some? {
        return kind.value;
      }
    }
    value := None;
  }

  // ---- Writing ----

  /** Where a row stands: outside any features section, or inside one whose goals line is still
      to come or already written. */
  datatype Mode = Outside | Pending | Written

  function GoalsLine(enabled: bool): string {
    if enabled then "goals = true" else "goals = false"
  }

  function GoalsRow(enabled: bool): Row {
    Row(Goals(Some(enabled)), GoalsLine(enabled))
  }

  predicate SectionHasGoals(rows: seq<Row>) {
    rows != [] && (rows[0].kind.Goals? || (rows[0].kind == Other && SectionHasGoals(rows[1..])))
  }

  /** The rows with `goals` set: the first goals row of each features section is replaced, the
      others are dropped, and a section without one gets it right below its header. */
  function SetRows(rows: seq<Row>, mode: Mode, enabled: bool): seq<Row> {
    if rows == [] then []
    else
      var row, rest := rows[0], rows[1..];
      if row.kind == Features then
        if SectionHasGoals(rest) then [row] + SetRows(rest, Pending, enabled)
        else [row] + ([GoalsRow(enabled)] + SetRows(rest, Written, enabled))
      else if row.kind == Header then [row] + SetRows(rest, Outside, enabled)
      else if row.kind == Other || mode == Outside then [row] + SetRows(rest, mode, enabled)
      else if mode == Pending then [GoalsRow(enabled)] + SetRows(rest, Written, enabled)
      else SetRows(rest, Written, enabled)
  }

  predicate HasFeatures(rows: seq<Row>) {
    rows != [] && (rows[0].kind == Features || HasFeatures(rows[1..]))
  }

  function EnsureTrailingNewline(s: string): string {
    if s != "" && s[|s| - 1] == '\n' then s else s + "\n"
  }

  function NonEmpty(sections: seq<string>): seq<string> {
    if sections == [] then []
    else (if T(sections[0]) != "" then [T(sections[0])] else []) + NonEmpty(sections[1..])
  }

  function JoinSections(sections: seq<string>): string {
    var kept := NonEmpty(sections);
    if kept == [] then "" else Join(kept, "\n\n") + "\n"
  }

  function Body(rows: seq<Row>): string {
    EnsureTrailingNewline(TrimEnd(JavaScript, Join(Texts(rows), "\n")))
  }

  function SetFeature(text: string, enabled: bool): string {
    var rows := ConfigRows(text);
    var body := Body(SetRows(rows, Outside, enabled));
    if HasFeatures(rows) then body else JoinSections([body, "[features]\n" + GoalsLine(enabled)])
  }

  /** `next` with the pending goals row spliced in below the header it is pending for. */
  function WithGoals(next: seq<Row>, header: nat, enabled: bool): seq<Row>
    requires header < |next|
  {
    next[..header + 1] + [GoalsRow(enabled)] + next[header + 1..]
  }

  /** Leaving a section: `maybeInsertGoals`. */
  function Closed(next: seq<Row>, header: int, mode: Mode, enabled: bool): seq<Row>
    requires mode == Pending ==> 0 <= header < |next|
  {
    if mode == Pending then WithGoals(next, header, enabled) else next
  }

  /** What the setter loop ends with when it stands before `rest` with `next` written, `header`
      being the index in `next` of the header of a section that has no goals row yet. */
  ghost function Completed(next: seq<Row>, header: int, mode: Mode, rest: seq<Row>, enabled: bool): seq<Row>
    requires mode == Pending ==> 0 <= header < |next|
  {
    if mode == Pending && !SectionHasGoals(rest)
    then WithGoals(next, header, enabled) + SetRows(rest, Written, enabled)
    else next + SetRows(rest, mode, enabled)
  }

  /** A row that starts a new section: the section before it is closed. */
  lemma CrossHeader(next: seq<Row>, header: int, mode: Mode, rest: seq<Row>, enabled: bool)
    requires mode == Pending ==> 0 <= header < |next|
    requires rest != [] && (rest[0].kind == Features || rest[0].kind == Header)
    ensures var next' := Closed(next, header, mode, enabled) + [rest[0]];
            Completed(next', |next'| - 1, if rest[0].kind == Features then Pending else Outside, rest[1..], enabled)
            == Completed(next, header, mode, rest, enabled)
  {
    var before := Closed(next, header, mode, enabled);
    assert Completed(next, header, mode, rest, enabled) == before + SetRows(rest, Outside, enabled);
    var next' := before + [rest[0]];
    if rest[0].kind == Features && !SectionHasGoals(rest[1..]) {
      assert WithGoals(next', |next'| - 1, enabled) == next' + [GoalsRow(enabled)];
      Assoc(next', [GoalsRow(enabled)], SetRows(rest[1..], Written, enabled));
      Assoc(before, [rest[0]], [GoalsRow(enabled)] + SetRows(rest[1..], Written, enabled));
    } else {
      Assoc(before, [rest[0]], SetRows(rest[1..], if rest[0].kind == Features then Pending else Outside, enabled));
    }
  }

  lemma KeepRow(next: seq<Row>, header: int, mode: Mode, rest: seq<Row>, enabled: bool)
    requires mode == Pending ==> 0 <= header < |next|
    requires rest != [] && (rest[0].kind == Other || (rest[0].kind.Goals? && mode == Outside))
    ensures Completed(next + [rest[0]], header, mode, rest[1..], enabled) == Completed(next, header, mode, rest, enabled)
  {
    if mode == Pending && !SectionHasGoals(rest) {
      assert WithGoals(next + [rest[0]], header, enabled) == WithGoals(next, header, enabled) + [rest[0]];
      Assoc(WithGoals(next, header, enabled), [rest[0]], SetRows(rest[1..], Written, enabled));
    } else {
      Assoc(next, [rest[0]], SetRows(rest[1..], mode, enabled));
    }
  }

  lemma Finish(next: seq<Row>, header: int, mode: Mode, enabled: bool)
    requires mode == Pending ==> 0 <= header < |next|
    ensures Completed(next, header, mode, [], enabled) == Closed(next, header, mode, enabled)
  {
  }

  /** The mode the loop's two flags stand for. */
  function ModeOf(inFeatures: bool, hasGoals: bool): Mode {
    if !inFeatures then Outside else if hasGoals then Written else Pending
  }

  lemma MeetGoals(next: seq<Row>, header: int, mode: Mode, rest: seq<Row>, enabled: bool)
    requires mode == Pending ==> 0 <= header < |next|
    requires rest != [] && rest[0].kind.Goals? && mode != Outside
    ensures Completed(if mode == Pending then next + [GoalsRow(enabled)] else next, header, Written, rest[1..], enabled)
            == Completed(next, header, mode, rest, enabled)
  {
    Assoc(next, [GoalsRow(enabled)], SetRows(rest[1..], Written, enabled));
  }

  /** A header: the section before it is closed, and the row is pushed. */
  method MeetHeader(row: Row, next: seq<Row>, header: int, mode: Mode, enabled: bool, ghost rest: seq<Row>)
    returns (next': seq<Row>)
    requires rest != [] && rest[0] == row && (row.kind == Features || row.kind == Header)
    requires mode == Pending ==> 0 <= header < |next|
    ensures next' != []
    ensures Completed(next', |next'| - 1, if row.kind == Features then Pending else Outside, rest[1..], enabled)
            == Completed(next, header, mode, rest, enabled)
  {
    CrossHeader(next, header, mode, rest, enabled);
    next' := Closed(next, header, mode, enabled) + [row];
  }

  /** One turn of the setter's loop: what is written so far still completes to the same rows. */
  method MeetRow(row: Row, next: seq<Row>, inFeatures: bool, hasGoals: bool, header: int, enabled: bool, ghost rest: seq<Row>)
    returns (next': seq<Row>, inFeatures': bool, hasGoals': bool, header': int)
    requires rest != [] && rest[0] == row
    requires ModeOf(inFeatures, hasGoals) == Pending ==> 0 <= header < |next|
    ensures ModeOf(inFeatures', hasGoals') == Pending ==> 0 <= header' < |next'|
    ensures Completed(next', header', ModeOf(inFeatures', hasGoals'), rest[1..], enabled)
            == Completed(next, header, ModeOf(inFeatures, hasGoals), rest, enabled)
  {
    var mode := ModeOf(inFeatures, hasGoals);
    inFeatures', hasGoals', header' := inFeatures, hasGoals, header;
    if row.kind == Features {
      next' := MeetHeader(row, next, header, mode, enabled, rest);
      inFeatures', hasGoals', header' := true, false, |next'| - 1;
    } else if row.kind == Header {
      next' := MeetHeader(row, next, header, mode, enabled, rest);
      inFeatures' := false;
    } else if inFeatures && row.kind.Goals? {
      MeetGoals(next, header, mode, rest, enabled);
      next', hasGoals' := if hasGoals then next else next + [GoalsRow(enabled)], true;
    } else {
      KeepRow(next, header, mode, rest, enabled);
      next' := next + [row];
    }
  }

  lemma Begin(rows: seq<Row>, enabled: bool)
    ensures Completed([], -1, Outside, rows, enabled) == SetRows(rows, Outside, enabled)
  {
  }

  lemma Suffix(rows: seq<Row>, i: nat)
    requires i < |rows|
    ensures rows[i..][0] == rows[i] && rows[i..][1..] == rows[i + 1..]
  {
  }

  method SetRowsInPlace(rows: seq<Row>, enabled: bool) returns (next: seq<Row>, sawFeatures: bool)
    ensures next == SetRows(rows, Outside, enabled)
    ensures sawFeatures == HasFeatures(rows)
  {
    next, sawFeatures := [], false;
    var inFeatures, hasGoals, header := false, false, -1;
    ghost var rest, all := rows, SetRows(rows, Outside, enabled);
    Begin(rows, enabled);
    for i := 0 to |rows|
      invariant rest == rows[i..]
      invariant sawFeatures || HasFeatures(rest) <==> HasFeatures(rows)
      invariant ModeOf(inFeatures, hasGoals) == Pending ==> 0 <= header < |next|
      invariant Completed(next, header, ModeOf(inFeatures, hasGoals), rest, enabled) == all
    {
      Suffix(rows, i);
      next, inFeatures, hasGoals, header := MeetRow(rows[i], next, inFeatures, hasGoals, header, enabled, rest);
      if rows[i].kind == Features { sawFeatures := true; }
      rest := rest[1..];
    }
    Finish(next, header, ModeOf(inFeatures, hasGoals), enabled);
    next := Closed(next, header, ModeOf(inFeatures, hasGoals), enabled);
  }

  method SetFeatureInConfig(text: string, enabled: bool) returns (result: string)
    ensures result == SetFeature(text, enabled)
  {
    var next, sawFeatures := SetRowsInPlace(ConfigRows(text), enabled);
    result := Body(next);
    if !sawFeatures {
      result := JoinSections([result, "[features]\n" + GoalsLine(enabled)]);
    }
  }
}
