/** Which rows of the model table are kept, and what each of them is after saving and loading. */
module ModelWindowRows {
  import opened Wrappers
  import opened Text
  import opened AutoCompact
  import opened ModelWindows

  /** The row has a name, and no row before it has the same one. */
  ghost predicate IsFirst(rows: seq<Row>, i: nat)
    requires i < |rows|
  {
    var name := Trim(JavaScript, rows[i].model);
    name != "" && forall j :: 0 <= j < i ==> Trim(JavaScript, rows[j].model) != name
  }

  /** A row trimmed and with its percentage normalised. */
  function Tidied(row: Row): Row {
    Row(Trim(JavaScript, row.model), Trim(JavaScript, row.window), Normalize(row.autoCompact), row.image)
  }

  ghost function Firsts(rows: seq<Row>): (r: seq<bool>)
    ensures |r| == |rows|
  {
    seq(|rows|, i requires 0 <= i < |rows| => IsFirst(rows, i))
  }

  /** What becomes of the rows that are picked, in their order. */
  function Picked(rows: seq<Row>, picks: seq<bool>, n: nat, f: Row -> Row): seq<Row>
    requires n <= |rows| == |picks|
  {
    if n == 0 then [] else Picked(rows, picks, n - 1, f) + (if picks[n - 1] then [f(rows[n - 1])] else [])
  }

  /** The first rows of each name, in their order, each as `f` makes it. */
  ghost function FirstRows(rows: seq<Row>, f: Row -> Row): seq<Row> {
    Picked(rows, Firsts(rows), |rows|, f)
  }

  lemma {:induction false} CleanedAt(rows: seq<Row>, i: nat)
    requires i < |rows|
    ensures CleanedAll(rows)[i] == Tidied(rows[i])
  {
    if i > 0 { CleanedAt(rows[1..], i - 1); }
  }

  /** A name is kept exactly if some row had it. */
  lemma {:induction false} NamesKept(rows: seq<Row>, name: string)
    requires name != ""
    ensures name in Names(Kept(rows)) <==> exists i :: 0 <= i < |rows| && rows[i].model == name
  {
    if rows != [] {
      var n := |rows| - 1;
      NamesKept(rows[..n], name);
      KeptStep(rows, n);
      assert rows[..n + 1] == rows;
      if name in Names(Kept(rows[..n])) {
        var i :| 0 <= i < n && rows[..n][i].model == name;
        assert rows[i].model == name;
      }
      if i :| 0 <= i < |rows| && rows[i].model == name {
        if i < n { assert rows[..n][i].model == name; }
      }
    }
  }

  lemma FirstIff(rows: seq<Row>, i: nat)
    requires i < |rows|
    ensures var all := CleanedAll(rows);
            IsFirst(rows, i) <==> all[i].model != "" && all[i].model !in Names(Kept(all[..i]))
  {
    var all := CleanedAll(rows);
    CleanedAt(rows, i);
    forall j | 0 <= j < i ensures all[..i][j].model == Trim(JavaScript, rows[j].model) { CleanedAt(rows, j); }
    if all[i].model != "" { NamesKept(all[..i], all[i].model); }
  }

  lemma KeptOneMore(all: seq<Row>, i: nat, pick: bool)
    requires i < |all| && (pick <==> all[i].model != "" && all[i].model !in Names(Kept(all[..i])))
    ensures Kept(all[..i + 1]) == Kept(all[..i]) + if pick then [all[i]] else []
  {
    KeptStep(all, i);
  }

  lemma TidiedOneMore(rows: seq<Row>, all: seq<Row>, i: nat, pick: bool, row: Row)
    requires i < |rows| && all == CleanedAll(rows) && pick == IsFirst(rows, i) && row == Tidied(rows[i])
    ensures Kept(all[..i + 1]) == Kept(all[..i]) + if pick then [row] else []
  {
    CleanedAt(rows, i);
    FirstIff(rows, i);
    KeptOneMore(all, i, pick);
  }

  lemma {:induction false} KeptPicked(rows: seq<Row>, all: seq<Row>, picks: seq<bool>, n: nat, f: Row -> Row)
    requires n <= |rows| == |all| && all == CleanedAll(rows) && picks == Firsts(rows) && f == Tidied
    ensures Kept(all[..n]) == Picked(rows, picks, n, f)
  {
    if n > 0 {
      KeptPicked(rows, all, picks, n - 1, f);
      TidiedOneMore(rows, all, n - 1, picks[n - 1], f(rows[n - 1]));
    }
  }

  /** Merging keeps the first row of each name, tidied, in order, and nothing else. */
  lemma KeptAreFirst(rows: seq<Row>)
    ensures Kept(CleanedAll(rows)) == FirstRows(rows, Tidied)
  {
    KeptPicked(rows, CleanedAll(rows), Firsts(rows), |rows|, Tidied);
    assert CleanedAll(rows)[..|rows|] == CleanedAll(rows);
  }

  /** A row after saving and loading: a blank percentage is 90%, and an image mode that is not stored is
      the plain one. */
  function Reloaded(row: Row): Row {
    var tidy := Tidied(row);
    Row(tidy.model, tidy.window, if tidy.autoCompact == "" then "90%" else tidy.autoCompact,
        match row.image
        case Vlm => Vlm
        case Strip => Strip
        case _ => SendAsIs)
  }

  lemma {:induction false} SettledSnoc(rows: seq<Row>, row: Row)
    ensures SettledAll(rows + [row]) == SettledAll(rows) + [Settled(row)]
  {
    if rows == [] {
      assert [] + [row] == [row];
    } else {
      assert (rows + [row])[1..] == rows[1..] + [row];
      SettledSnoc(rows[1..], row);
    }
  }

  lemma TidiedReloads(row: Row)
    ensures Settled(Tidied(row)) == Reloaded(row)
  {
  }

  lemma SettledMore(before: seq<Row>, pick: bool, row: Row)
    ensures SettledAll(before + (if pick then [row] else [])) == SettledAll(before) + (if pick then [Settled(row)] else [])
  {
    if pick { SettledSnoc(before, row); } else { assert before + [] == before; }
  }

  lemma {:induction false} SettledPicked(rows: seq<Row>, picks: seq<bool>, n: nat, f: Row -> Row, g: Row -> Row)
    requires n <= |rows| == |picks| && forall row :: Settled(f(row)) == g(row)
    ensures SettledAll(Picked(rows, picks, n, f)) == Picked(rows, picks, n, g)
  {
    if n > 0 {
      SettledPicked(rows, picks, n - 1, f, g);
      SettledMore(Picked(rows, picks, n - 1, f), picks[n - 1], f(rows[n - 1]));
    }
  }

  ghost predicate OneLineNames(rows: seq<Row>) {
    forall k :: 0 <= k < |rows| ==> OneLine(rows[k].model)
  }

  lemma NamesSnoc(rows: seq<Row>, row: Row)
    ensures OneLineNames(rows + [row]) <==> OneLineNames(rows) && OneLine(row.model)
  {
    if OneLineNames(rows + [row]) {
      assert (rows + [row])[|rows|] == row;
      forall k | 0 <= k < |rows| ensures OneLine(rows[k].model) { assert (rows + [row])[k] == rows[k]; }
    }
  }

  lemma {:induction false} NamesPicked(rows: seq<Row>, picks: seq<bool>, n: nat, f: Row -> Row)
    requires n <= |rows| == |picks|
    ensures OneLineNames(Picked(rows, picks, n, f)) <==> forall i :: 0 <= i < n && picks[i] ==> OneLine(f(rows[i]).model)
  {
    if n > 0 {
      NamesPicked(rows, picks, n - 1, f);
      if picks[n - 1] {
        NamesSnoc(Picked(rows, picks, n - 1, f), f(rows[n - 1]));
      } else {
        assert Picked(rows, picks, n, f) == Picked(rows, picks, n - 1, f);
      }
    }
  }

  /** The first row of each name has one without a line break. */
  ghost predicate Unbroken(rows: seq<Row>) {
    forall i :: 0 <= i < |rows| && IsFirst(rows, i) ==> '\n' !in Trim(JavaScript, rows[i].model)
  }

  lemma UnbrokenIff(rows: seq<Row>)
    ensures UnbrokenNames(rows) <==> Unbroken(rows)
  {
    KeptAreFirst(rows);
    NamesPicked(rows, Firsts(rows), |rows|, Tidied);
    forall i | 0 <= i < |rows| ensures Firsts(rows)[i] == IsFirst(rows, i) {}
  }

  /** Saving a table and loading it gives the first row of each name as `Reloaded` says, or one blank row,
      exactly if none of these names holds a line break. */
  lemma TableReloads(rows: seq<Row>)
    ensures Load(Serialize(rows))
            == (if FirstRows(rows, Reloaded) == [] then [Row("", "", "", SendAsIs)] else FirstRows(rows, Reloaded))
            <==> Unbroken(rows)
  {
    KeptAreFirst(rows);
    ReloadedFirst(rows);
    LoadsCanonicalIff(rows);
    UnbrokenIff(rows);
  }

  lemma ReloadedFirst(rows: seq<Row>)
    ensures SettledAll(FirstRows(rows, Tidied)) == FirstRows(rows, Reloaded)
  {
    forall row ensures Settled(Tidied(row)) == Reloaded(row) { TidiedReloads(row); }
    SettledPicked(rows, Firsts(rows), |rows|, Tidied, Reloaded);
  }

  lemma {:induction false} AmongPicked(rows: seq<Row>, picks: seq<bool>, n: nat, i: nat, f: Row -> Row) returns (k: nat)
    requires i < n <= |rows| == |picks| && picks[i]
    ensures k < |Picked(rows, picks, n, f)| && Picked(rows, picks, n, f)[k] == f(rows[i])
  {
    if i == n - 1 { k := |Picked(rows, picks, n - 1, f)|; } else { k := AmongPicked(rows, picks, n - 1, i, f); }
  }

  lemma FirstIsKept(rows: seq<Row>, i: nat) returns (k: nat)
    requires i < |rows| && IsFirst(rows, i)
    ensures k < |Kept(CleanedAll(rows))| && Kept(CleanedAll(rows))[k] == Tidied(rows[i])
  {
    KeptAreFirst(rows);
    k := AmongPicked(rows, Firsts(rows), |rows|, i, Tidied);
  }

  lemma KeptIsStored(kept: seq<Row>, k: nat, row: Row)
    requires Tidy(kept) && k < |kept| && kept[k] == row
    ensures var t := TablesOf(SavedAll(kept));
            && Get(t.windows, row.model) == (if row.window == "" then None else Some(row.window))
            && Get(t.percents, row.model) == Some(Settled(row).autoCompact)
            && Get(t.vlm, row.model) == (if row.image == Vlm || row.image == Strip then Some(row.image) else None)
  {
    TidySaved(kept);
    TablesLookup(SavedAll(kept), k);
    SavedAt(kept, k);
    SavedPercentSettles(kept[k]);
  }

  /** What is stored of a table is stored under the name of a row: the window if there is one, the percentage,
      and the image mode if it is one of the two that are stored. */
  lemma RowIsStored(rows: seq<Row>, i: nat)
    requires i < |rows| && IsFirst(rows, i)
    ensures var stored, row := Serialize(rows), Reloaded(rows[i]);
            && Get(stored.windows, row.model) == (if row.window == "" then None else Some(row.window))
            && Get(stored.autoCompact, row.model) == Some(row.autoCompact)
            && Get(stored.vlm, row.model) == (if rows[i].image == Vlm || rows[i].image == Strip then Some(rows[i].image) else None)
  {
    MergedTidy(rows);
    SerializeKept(rows);
    var k := FirstIsKept(rows, i);
    TidiedReloads(rows[i]);
    KeptIsStored(Kept(CleanedAll(rows)), k, Tidied(rows[i]));
  }
}
