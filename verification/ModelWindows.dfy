/** The model table of a profile: rows in the editor, and the texts and maps they are saved as. */
module ModelWindows {
  import opened Wrappers
  import opened Text
  import opened AutoCompact

  datatype ImageHandling = Unset | SendAsIs | Strip | Vlm

  datatype Row = Row(model: string, window: string, autoCompact: string, image: ImageHandling)

  const BLANK_ROW := Row("", "", "", SendAsIs)

  function T(s: string): string {
    Trim(JavaScript, s)
  }

  // ---- Merging rows ----

  function Cleaned(row: Row): Row {
    Row(T(row.model), T(row.window), Normalize(row.autoCompact), row.image)
  }

  function CleanedAll(rows: seq<Row>): (r: seq<Row>)
    ensures |r| == |rows|
  {
    if rows == [] then [] else [Cleaned(rows[0])] + CleanedAll(rows[1..])
  }

  function Names(rows: seq<Row>): set<string> {
    set row | row in rows :: row.model
  }

  /** The rows kept from a list: the first of each name, and none without a name. */
  function Kept(rows: seq<Row>): (kept: seq<Row>) {
    if rows == [] then []
    else
      var before, row := Kept(rows[..|rows| - 1]), rows[|rows| - 1];
      if row.model == "" || row.model in Names(before) then before else before + [row]
  }

  function OrBlank(rows: seq<Row>): seq<Row> {
    if rows == [] then [BLANK_ROW] else rows
  }

  lemma KeptStep(rows: seq<Row>, i: nat)
    requires i < |rows|
    ensures var before, row := Kept(rows[..i]), rows[i];
            && Kept(rows[..i + 1]) == (if row.model == "" || row.model in Names(before) then before else before + [row])
            && Names(before + [row]) == Names(before) + {row.model}
  {
    assert rows[..i + 1][..i] == rows[..i];
  }

  method MergeRows(current: seq<Row>, incoming: seq<Row>) returns (rows: seq<Row>)
    ensures rows == OrBlank(Kept(CleanedAll(current + incoming)))
  {
    rows := [];
    var seen: set<string> := {};
    var all := CleanedAll(current + incoming);
    for i := 0 to |all|
      invariant rows == Kept(all[..i]) && seen == Names(rows)
    {
      KeptStep(all, i);
      if all[i].model != "" && all[i].model !in seen {
        seen := seen + {all[i].model};
        rows := rows + [all[i]];
      }
    }
    assert all[..|all|] == all;
    if rows == [] {
      rows := [BLANK_ROW];
    }
  }

  // ---- Saving and loading ----

  datatype Stored = Stored(modelList: string, windows: map<string, string>, vlm: map<string, ImageHandling>,
                           autoCompact: map<string, string>)

  /** What one row contributes to the saved texts and maps. */
  datatype Saved = Saved(model: string, window: Option<string>, vlm: Option<ImageHandling>, percent: string)

  function SavedPercent(row: Row): string {
    Normalize(if T(row.autoCompact) != "" then T(row.autoCompact) else DEFAULT_PERCENT)
  }

  function SavedRow(row: Row): Saved {
    Saved(T(row.model),
          if T(row.window) != "" then Some(T(row.window)) else None,
          if row.image == Vlm || row.image == Strip then Some(row.image) else None,
          SavedPercent(row))
  }

  function SavedAll(rows: seq<Row>): (r: seq<Saved>)
    ensures |r| == |rows|
  {
    if rows == [] then [] else [SavedRow(rows[0])] + SavedAll(rows[1..])
  }

  function Assign<V>(m: map<string, V>, key: string, value: Option<V>): map<string, V> {
    if value.Some? then m[key := value.value] else m
  }

  /** The lists and maps after some rows; the model list as a list of lines. */
  datatype Tables = Tables(names: seq<string>, windows: map<string, string>, vlm: map<string, ImageHandling>,
                           percents: map<string, string>)

  function TablesOf(saved: seq<Saved>): Tables {
    if saved == [] then Tables([], map[], map[], map[])
    else
      var t, s := TablesOf(saved[..|saved| - 1]), saved[|saved| - 1];
      if s.model == "" then t
      else Tables(t.names + [s.model], Assign(t.windows, s.model, s.window), Assign(t.vlm, s.model, s.vlm),
                  t.percents[s.model := s.percent])
  }

  function Serialize(rows: seq<Row>): Stored {
    var t := TablesOf(SavedAll(OrBlank(Kept(CleanedAll(rows)))));
    Stored(Join(t.names, "\n"), t.windows, t.vlm, t.percents)
  }

  method SerializeRows(rows: seq<Row>) returns (stored: Stored)
    ensures stored == Serialize(rows)
  {
    var merged := MergeRows(rows, []);
    assert rows + [] == rows;
    var saved := SavedAll(merged);
    var modelList: seq<string> := [];
    var windows, vlm, autoCompact := map[], map[], map[];
    for i := 0 to |saved|
      invariant Tables(modelList, windows, vlm, autoCompact) == TablesOf(saved[..i])
    {
      assert saved[..i + 1][..i] == saved[..i];
      var row := saved[i];
      if row.model == "" { continue; }
      modelList := modelList + [row.model];
      if row.window.Some? { windows := windows[row.model := row.window.value]; }
      if row.vlm.Some? { vlm := vlm[row.model := row.vlm.value]; }
      autoCompact := autoCompact[row.model := row.percent];
    }
    assert saved[..|saved|] == saved;
    stored := Stored(Join(modelList, "\n"), windows, vlm, autoCompact);
  }

  function Get<V>(m: map<string, V>, key: string): Option<V> {
    if key in m then Some(m[key]) else None
  }

  function LoadRow(stored: Stored, model: string): Row {
    Row(model, Get(stored.windows, model).GetOr(""), Normalize(Get(stored.autoCompact, model).GetOr(DEFAULT_PERCENT)),
        Get(stored.vlm, model).GetOr(SendAsIs))
  }

  /** `map(trim).filter(Boolean)`. */
  function NonBlank(lines: seq<string>): (r: seq<string>)
    ensures |r| <= |lines|
  {
    if lines == [] then [] else (if T(lines[0]) != "" then [T(lines[0])] else []) + NonBlank(lines[1..])
  }

  function LoadAll(stored: Stored, models: seq<string>): (r: seq<Row>)
    ensures |r| == |models|
  {
    if models == [] then [] else [LoadRow(stored, models[0])] + LoadAll(stored, models[1..])
  }

  /** `modelWindowRowsFromProfile`. */
  function Load(stored: Stored): seq<Row> {
    OrBlank(LoadAll(stored, NonBlank(Split(stored.modelList))))
  }

  // ---- Round trip ----

  /** A row as it comes back: a blank percentage is 90%, a plain image mode is the default. */
  function Settled(row: Row): Row {
    row.(autoCompact := if row.autoCompact != "" then row.autoCompact else DEFAULT_PERCENT,
         image := if row.image == Vlm || row.image == Strip then row.image else SendAsIs)
  }

  function SettledAll(rows: seq<Row>): (r: seq<Row>)
    ensures |r| == |rows|
  {
    if rows == [] then [] else [Settled(rows[0])] + SettledAll(rows[1..])
  }

  /** The form every saved table comes back in. */
  function Canonical(rows: seq<Row>): seq<Row> {
    OrBlank(SettledAll(Kept(CleanedAll(rows))))
  }

  ghost predicate Distinct(saved: seq<Saved>) {
    forall i, j :: 0 <= i < j < |saved| ==> saved[i].model != saved[j].model
  }

  ghost predicate Named(saved: seq<Saved>) {
    forall i :: 0 <= i < |saved| ==> saved[i].model != ""
  }

  lemma {:induction false} TablesKeys(saved: seq<Saved>, model: string)
    requires forall i :: 0 <= i < |saved| ==> saved[i].model != model
    ensures var t := TablesOf(saved); model !in t.windows && model !in t.vlm && model !in t.percents
  {
    if saved != [] {
      TablesKeys(saved[..|saved| - 1], model);
    }
  }

  /** What a row saved can be looked up again under its name. */
  lemma {:induction false} TablesLookup(saved: seq<Saved>, i: nat)
    requires Distinct(saved) && Named(saved) && i < |saved|
    ensures var t, s := TablesOf(saved), saved[i];
            && Get(t.windows, s.model) == s.window && Get(t.vlm, s.model) == s.vlm
            && Get(t.percents, s.model) == Some(s.percent)
  {
    var n := |saved| - 1;
    if i == n {
      TablesKeys(saved[..n], saved[n].model);
    } else {
      assert saved[i].model != saved[n].model;
      TablesLookup(saved[..n], i);
    }
  }

  lemma {:induction false} TablesNames(saved: seq<Saved>)
    requires Named(saved)
    ensures |TablesOf(saved).names| == |saved|
    ensures forall i :: 0 <= i < |saved| ==> TablesOf(saved).names[i] == saved[i].model
  {
    if saved != [] {
      TablesNames(saved[..|saved| - 1]);
    }
  }

  // Rows that were cleaned and kept.

  ghost predicate CleanRow(row: Row) {
    && T(row.model) == row.model && T(row.window) == row.window
    && Normalize(row.autoCompact) == row.autoCompact && T(row.autoCompact) == row.autoCompact
  }

  lemma CleanedIsClean(row: Row)
    ensures CleanRow(Cleaned(row))
  {
    TrimTwice(JavaScript, row.model);
    TrimTwice(JavaScript, row.window);
    NormalizeIdempotent(row.autoCompact);
  }

  lemma {:induction false} CleanedAllClean(rows: seq<Row>, row: Row)
    requires row in CleanedAll(rows)
    ensures CleanRow(row)
  {
    CleanedIsClean(rows[0]);
    if row != CleanedAll(rows)[0] {
      CleanedAllClean(rows[1..], row);
    }
  }

  lemma {:induction false} KeptNames(rows: seq<Row>)
    ensures forall row :: row in Kept(rows) ==> row in rows && row.model != ""
    ensures forall i, j :: 0 <= i < j < |Kept(rows)| ==> Kept(rows)[i].model != Kept(rows)[j].model
  {
    if rows != [] {
      KeptNames(rows[..|rows| - 1]);
    }
  }

  lemma {:induction false} SavedAt(rows: seq<Row>, i: nat)
    requires i < |rows|
    ensures SavedAll(rows)[i] == SavedRow(rows[i]) && SettledAll(rows)[i] == Settled(rows[i])
  {
    if i > 0 {
      SavedAt(rows[1..], i - 1);
    }
  }

  /** Rows as they come out of merging: clean, named and with distinct names. */
  ghost predicate Tidy(rows: seq<Row>) {
    && (forall i :: 0 <= i < |rows| ==> CleanRow(rows[i]) && rows[i].model != "")
    && (forall i, j :: 0 <= i < j < |rows| ==> rows[i].model != rows[j].model)
  }

  lemma MergedTidy(rows: seq<Row>)
    ensures Tidy(Kept(CleanedAll(rows)))
  {
    var kept := Kept(CleanedAll(rows));
    KeptNames(CleanedAll(rows));
    forall i | 0 <= i < |kept| ensures CleanRow(kept[i]) && kept[i].model != "" {
      assert kept[i] in kept;
      CleanedAllClean(rows, kept[i]);
    }
  }

  lemma TidySaved(rows: seq<Row>)
    requires Tidy(rows)
    ensures Named(SavedAll(rows)) && Distinct(SavedAll(rows))
    ensures forall i :: 0 <= i < |rows| ==> SavedAll(rows)[i].model == rows[i].model
  {
    forall i | 0 <= i < |rows| ensures SavedAll(rows)[i].model == rows[i].model {
      SavedAt(rows, i);
      SavedModel(rows[i]);
    }
  }

  lemma SavedModel(row: Row)
    requires CleanRow(row)
    ensures SavedRow(row).model == row.model
  {
  }

  lemma DefaultPercentSettled()
    ensures Normalize(DEFAULT_PERCENT) == DEFAULT_PERCENT && T(DEFAULT_PERCENT) == DEFAULT_PERCENT
  {
    var p, n := DEFAULT_PERCENT, "90";
    TrimTight(JavaScript, p);
    TrimTight(JavaScript, n);
    assert Bare(p) == n;
  }

  lemma SavedPercentSettles(row: Row)
    requires CleanRow(row)
    ensures Normalize(SavedPercent(row)) == SavedPercent(row) == Settled(row).autoCompact
  {
    DefaultPercentSettled();
  }

  function StoredTables(t: Tables): Stored {
    Stored(Join(t.names, "\n"), t.windows, t.vlm, t.percents)
  }

  /** A saved row is loaded as it was, settled. */
  lemma RowComesBack(rows: seq<Row>, i: nat)
    requires Tidy(rows) && i < |rows|
    ensures LoadRow(StoredTables(TablesOf(SavedAll(rows))), rows[i].model) == Settled(rows[i])
  {
    TidySaved(rows);
    TablesLookup(SavedAll(rows), i);
    SavedAt(rows, i);
    SavedPercentSettles(rows[i]);
  }

  lemma {:induction false} LoadAllAt(stored: Stored, models: seq<string>, i: nat)
    requires i < |models|
    ensures LoadAll(stored, models)[i] == LoadRow(stored, models[i])
  {
    if i > 0 {
      LoadAllAt(stored, models[1..], i - 1);
    }
  }

  lemma RowsComeBack(rows: seq<Row>)
    requires Tidy(rows)
    ensures var t := TablesOf(SavedAll(rows)); LoadAll(StoredTables(t), t.names) == SettledAll(rows)
  {
    var t := TablesOf(SavedAll(rows));
    TidySaved(rows);
    TablesNames(SavedAll(rows));
    forall i | 0 <= i < |rows| ensures LoadAll(StoredTables(t), t.names)[i] == SettledAll(rows)[i] {
      LoadAllAt(StoredTables(t), t.names, i);
      RowComesBack(rows, i);
      SavedAt(rows, i);
    }
  }

  // The model list as text.

  lemma {:induction false} NonBlankAppend(a: seq<string>, b: seq<string>)
    ensures NonBlank(a + b) == NonBlank(a) + NonBlank(b)
  {
    if a == [] {
      assert a + b == b;
    } else {
      assert (a + b)[1..] == a[1..] + b;
      NonBlankAppend(a[1..], b);
    }
  }

  ghost predicate ModelName(name: string) {
    name != "" && T(name) == name
  }

  lemma OneLineName(name: string)
    requires ModelName(name) && OneLine(name)
    ensures NonBlank(Split(name)) == [name]
  {
    SplitOneLine(name);
    assert [name][1..] == [];
  }

  lemma {:induction false} LastLine(s: string)
    requires s != "" && !IsSpace(JavaScript, s[|s| - 1])
    ensures var last := Split(s)[|Split(s)| - 1]; last != "" && last[|last| - 1] == s[|s| - 1]
  {
    if |s| > 1 {
      LastLine(s[1..]);
    } else {
      assert s[1..] == "";
    }
  }

  lemma NonBlankLine(line: string)
    requires line != "" && (!IsSpace(JavaScript, line[0]) || !IsSpace(JavaScript, line[|line| - 1]))
    ensures T(line) != ""
  {
    TrimBlank(JavaScript, line);
  }

  lemma {:induction false} SplitParts(s: string)
    requires !OneLine(s)
    ensures |Split(s)| > 1
  {
    if s[0] != '\n' {
      assert '\n' in s[1..] by { assert s == [s[0]] + s[1..]; }
      SplitParts(s[1..]);
    }
  }

  lemma BrokenName(name: string)
    requires ModelName(name) && !OneLine(name)
    ensures |NonBlank(Split(name))| >= 2
  {
    var lines := Split(name);
    var before, after := TrimParts(JavaScript, name);
    LastLine(name);
    SplitParts(name);
    var n := |lines| - 1;
    NonBlankLine(lines[n]);
    NonBlankLine(lines[0]);
    TwoEnds(lines[0], lines[1..n], lines[n]);
    assert lines == [lines[0]] + lines[1..n] + [lines[n]];
  }

  lemma TwoEnds(first: string, middle: seq<string>, last: string)
    requires NonBlank([first]) != [] && NonBlank([last]) != []
    ensures |NonBlank([first] + middle + [last])| >= 2
  {
    NonBlankAppend([first] + middle, [last]);
    NonBlankAppend([first], middle);
  }

  /** One name gives one line of the list, or more if it holds a line break. */
  lemma NameLines(name: string)
    requires ModelName(name)
    ensures if OneLine(name) then NonBlank(Split(name)) == [name] else |NonBlank(Split(name))| >= 2
  {
    if OneLine(name) { OneLineName(name); } else { BrokenName(name); }
  }

  function ListLines(names: seq<string>): seq<string> {
    NonBlank(Split(Join(names, "\n")))
  }

  lemma ListCons(name: string, rest: seq<string>)
    requires rest != []
    ensures ListLines([name] + rest) == NonBlank(Split(name)) + ListLines(rest)
  {
    assert ([name] + rest)[1..] == rest;
    SplitBreak(name, Join(rest, "\n"));
    NonBlankAppend(Split(name), Split(Join(rest, "\n")));
  }

  lemma NoNames()
    ensures ListLines([]) == []
  {
    TrimTight(JavaScript, "");
    assert Split("")[1..] == [];
  }

  /** The names come back from the list exactly when none of them holds a line break. */
  lemma {:induction false} NamesComeBack(names: seq<string>)
    requires forall i :: 0 <= i < |names| ==> ModelName(names[i])
    ensures if OneLiners(names) then ListLines(names) == names else |ListLines(names)| > |names|
  {
    if names == [] {
      NoNames();
    } else {
      var name, rest := names[0], names[1..];
      assert names == [name] + rest;
      NameLines(name);
      if rest != [] {
        NamesComeBack(rest);
        ListCons(name, rest);
      }
    }
  }

  // ---- The laws ----

  /** Merging rows that have names, all different, keeps them all. */
  lemma {:induction false} KeptTidy(rows: seq<Row>)
    requires forall i :: 0 <= i < |rows| ==> rows[i].model != ""
    requires forall i, j :: 0 <= i < j < |rows| ==> rows[i].model != rows[j].model
    ensures Kept(rows) == rows
  {
    if rows != [] {
      var init, row := rows[..|rows| - 1], rows[|rows| - 1];
      KeptTidy(init);
      assert init + [row] == rows;
    }
  }

  lemma CleanSettled(row: Row)
    requires CleanRow(row)
    ensures Cleaned(Settled(row)) == Settled(row) && SavedRow(Settled(row)) == SavedRow(row)
    ensures CleanRow(Settled(row))
  {
    DefaultPercentSettled();
  }

  lemma {:induction false} SettledTwice(rows: seq<Row>)
    requires forall i :: 0 <= i < |rows| ==> CleanRow(rows[i])
    ensures CleanedAll(SettledAll(rows)) == SettledAll(rows) && SavedAll(SettledAll(rows)) == SavedAll(rows)
  {
    if rows != [] {
      CleanSettled(rows[0]);
      SettledTwice(rows[1..]);
      assert SettledAll(rows)[1..] == SettledAll(rows[1..]);
    }
  }

  lemma SettledTidy(rows: seq<Row>)
    requires Tidy(rows)
    ensures Tidy(SettledAll(rows))
  {
    var s := SettledAll(rows);
    forall i | 0 <= i < |s| ensures CleanRow(s[i]) && s[i].model == rows[i].model {
      SavedAt(rows, i);
      CleanSettled(rows[i]);
    }
  }

  lemma BlankTables()
    ensures TablesOf(SavedAll([BLANK_ROW])) == TablesOf([]) == TablesOf(SavedAll([]))
  {
    TrimTight(JavaScript, "");
    assert SavedAll([BLANK_ROW]) == [SavedRow(BLANK_ROW)];
  }

  lemma SerializeKept(rows: seq<Row>)
    ensures Serialize(rows) == StoredTables(TablesOf(SavedAll(Kept(CleanedAll(rows)))))
  {
    BlankTables();
  }

  lemma StoredNames(rows: seq<Row>)
    requires Tidy(rows)
    ensures var names := TablesOf(SavedAll(rows)).names;
            && |names| == |rows|
            && (forall i :: 0 <= i < |names| ==> names[i] == rows[i].model && ModelName(names[i]))
  {
    TidySaved(rows);
    TablesNames(SavedAll(rows));
  }

  /** No model name that is kept holds a line break. */
  ghost predicate UnbrokenNames(rows: seq<Row>) {
    var kept := Kept(CleanedAll(rows));
    forall i :: 0 <= i < |kept| ==> OneLine(kept[i].model)
  }

  /** Saving a table and loading it gives its canonical form exactly when no name that is kept
      holds a line break: trimmed, the first row of each name, blank percentages as 90%, and the
      default image mode spelled out. */
  lemma LoadsCanonicalIff(rows: seq<Row>)
    ensures Load(Serialize(rows)) == Canonical(rows) <==> UnbrokenNames(rows)
  {
    var kept := Kept(CleanedAll(rows));
    var t := TablesOf(SavedAll(kept));
    MergedTidy(rows);
    SerializeKept(rows);
    StoredNames(kept);
    NamesComeBack(t.names);
    if UnbrokenNames(rows) {
      RowsComeBack(kept);
    }
  }

  /** A name with a line break comes back as two. */
  lemma BrokenNameSplits()
    ensures var rows := [Row("a\nb", "", "", SendAsIs)]; Load(Serialize(rows)) != Canonical(rows)
  {
    var row := Row("a\nb", "", "", SendAsIs);
    TrimTight(JavaScript, "a\nb");
    assert Cleaned(row).model == "a\nb";
    assert CleanedAll([row]) == [Cleaned(row)];
    KeptTidy([Cleaned(row)]);
    assert "a\nb"[1] == '\n';
    LoadsCanonicalIff([row]);
  }

  /** Saving what was loaded saves the same again. */
  lemma SerializeStable(rows: seq<Row>)
    requires UnbrokenNames(rows)
    ensures Serialize(Load(Serialize(rows))) == Serialize(rows)
  {
    var kept := Kept(CleanedAll(rows));
    LoadsCanonicalIff(rows);
    MergedTidy(rows);
    SerializeKept(rows);
    SerializeKept(Canonical(rows));
    if kept == [] {
      TrimTight(JavaScript, "");
      assert CleanedAll([BLANK_ROW])[0].model == "";
      assert Kept(CleanedAll([BLANK_ROW])) == [];
    } else {
      SettledTwice(kept);
      SettledTidy(kept);
      KeptTidy(SettledAll(kept));
    }
  }
}
