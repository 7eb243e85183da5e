/** Token lines: what the highlighter produces, as the unique compact form of a coloured text. */
module CodeLines {
  import opened Text

  datatype Kind = Plain | Comment | Section | Key | String | Number | Boolean | Null | Date | Punct | Operator

  datatype Token = Token(kind: Kind, text: string)

  type Line = seq<Token>

  /** One coloured character. A line break has no colour of its own and counts as plain. */
  datatype Cell = Cell(kind: Kind, ch: char)

  function Paint(kind: Kind, text: string): (cells: seq<Cell>)
    ensures |cells| == |text|
  {
    seq(|text|, i requires 0 <= i < |text| => Cell(if text[i] == '\n' then Plain else kind, text[i]))
  }

  function Chars(cells: seq<Cell>): (s: string)
    ensures |s| == |cells|
  {
    seq(|cells|, i requires 0 <= i < |cells| => cells[i].ch)
  }

  ghost predicate Normal(cells: seq<Cell>) {
    forall i :: 0 <= i < |cells| && cells[i].ch == '\n' ==> cells[i].kind == Plain
  }

  /** Put a piece of one line at the end of a line, growing the last token if the kind is the same. */
  function Extend(line: Line, kind: Kind, piece: string): (r: Line)
    ensures r != []
  {
    if line != [] && line[|line| - 1].kind == kind
    then line[|line| - 1 := Token(kind, line[|line| - 1].text + piece)]
    else line + [Token(kind, piece)]
  }

  function AddPiece(lines: seq<Line>, kind: Kind, piece: string): (r: seq<Line>)
    requires lines != []
    ensures |r| == |lines|
  {
    lines[|lines| - 1 := Extend(lines[|lines| - 1], kind, piece)]
  }

  /** The lines of a coloured text, built one character at a time. */
  function Lines(cells: seq<Cell>): (lines: seq<Line>)
    ensures lines != []
  {
    if cells == [] then [[]]
    else
      var before := Lines(cells[..|cells| - 1]);
      var c := cells[|cells| - 1];
      if c.ch == '\n' then before + [[]] else AddPiece(before, c.kind, [c.ch])
  }

  lemma AddTwice(lines: seq<Line>, kind: Kind, a: string, b: string)
    requires lines != []
    ensures AddPiece(AddPiece(lines, kind, a), kind, b) == AddPiece(lines, kind, a + b)
  {
    var last := lines[|lines| - 1];
    if last != [] && last[|last| - 1].kind == kind {
      assert last[|last| - 1].text + a + b == last[|last| - 1].text + (a + b);
    }
    assert Extend(Extend(last, kind, a), kind, b) == Extend(last, kind, a + b);
  }

  lemma PaintLast(kind: Kind, piece: string)
    requires piece != "" && OneLine(piece)
    ensures var n := |piece| - 1;
            Paint(kind, piece) == Paint(kind, piece[..n]) + [Cell(kind, piece[n])]
  {
  }

  lemma LastCharAdded(cells: seq<Cell>, kind: Kind, piece: string, n: nat)
    requires |piece| == n + 1 && OneLine(piece)
    ensures Lines(cells + Paint(kind, piece)) == AddPiece(Lines(cells + Paint(kind, piece[..n])), kind, [piece[n]])
  {
    PaintLast(kind, piece);
    Assoc(cells, Paint(kind, piece[..n]), [Cell(kind, piece[n])]);
  }

  lemma FirstChar(cells: seq<Cell>, kind: Kind, piece: string)
    requires |piece| == 1 && OneLine(piece)
    ensures Lines(cells + Paint(kind, piece)) == AddPiece(Lines(cells), kind, piece)
  {
    LastCharAdded(cells, kind, piece, 0);
    assert cells + Paint(kind, piece[..0]) == cells && piece == [piece[0]];
  }

  lemma NextChar(cells: seq<Cell>, kind: Kind, front: string, last: char, lines: seq<Line>)
    requires OneLine(front + [last]) && lines != []
    requires Lines(cells + Paint(kind, front)) == AddPiece(lines, kind, front)
    ensures Lines(cells + Paint(kind, front + [last])) == AddPiece(lines, kind, front + [last])
  {
    var piece := front + [last];
    assert piece[..|front|] == front;
    LastCharAdded(cells, kind, piece, |front|);
    AddTwice(lines, kind, front, [last]);
  }

  /** A piece of one line and one kind may be added at once. */
  lemma {:induction false} PieceAtOnce(cells: seq<Cell>, kind: Kind, piece: string)
    requires piece != "" && OneLine(piece)
    ensures Lines(cells + Paint(kind, piece)) == AddPiece(Lines(cells), kind, piece)
  {
    var n := |piece| - 1;
    if n == 0 {
      FirstChar(cells, kind, piece);
    } else {
      PieceAtOnce(cells, kind, piece[..n]);
      assert piece[..n] + [piece[n]] == piece;
      NextChar(cells, kind, piece[..n], piece[n], Lines(cells));
    }
  }

  /** `this.lines` of the source, with the coloured text it stands for. */
  class LineBuilder {
    var lines: seq<Line>
    ghost var cells: seq<Cell>

    ghost predicate Valid()
      reads this
    {
      lines == Lines(cells)
    }

    constructor ()
      ensures Valid() && cells == []
    {
      lines, cells := [[]], [];
    }

    method Newline()
      requires Valid()
      modifies this
      ensures Valid() && cells == old(cells) + Paint(Plain, "\n")
    {
      lines := lines + [[]];
      cells := cells + Paint(Plain, "\n");
      assert cells[..|cells| - 1] == old(cells);
    }

    method Append(kind: Kind, part: string)
      requires Valid() && part != "" && OneLine(part)
      modifies this
      ensures Valid() && cells == old(cells) + Paint(kind, part)
    {
      PieceAtOnce(cells, kind, part);
      var line := lines[|lines| - 1];
      if line != [] && line[|line| - 1].kind == kind {
        line := line[|line| - 1 := Token(kind, line[|line| - 1].text + part)];
      } else {
        line := line + [Token(kind, part)];
      }
      assert line == Extend(lines[|lines| - 1], kind, part);
      lines := lines[|lines| - 1 := line];
      cells := cells + Paint(kind, part);
    }

    method Push(kind: Kind, text: string)
      requires Valid()
      modifies this
      ensures Valid() && cells == old(cells) + Paint(kind, text)
    {
      if text == "" { return; }
      var parts := Split(text);
      JoinSplit(text);
      ghost var painted := [];
      for index := 0 to |parts|
        invariant Valid()
        invariant painted == Paint(kind, Join(parts[..index], "\n"))
        invariant cells == old(cells) + painted
      {
        PaintNextPart(kind, parts, index);
        if index > 0 {
          Newline();
          Assoc(old(cells), painted, Paint(Plain, "\n"));
          painted := painted + Paint(Plain, "\n");
        }
        if parts[index] != "" { Append(kind, parts[index]); }
        Assoc(old(cells), painted, Paint(kind, parts[index]));
        painted := painted + Paint(kind, parts[index]);
      }
      assert parts[..|parts|] == parts;
    }
  }

  lemma PaintAppend(kind: Kind, a: string, b: string)
    ensures Paint(kind, a + b) == Paint(kind, a) + Paint(kind, b)
  {
  }

  lemma PaintNextPart(kind: Kind, parts: seq<string>, index: nat)
    requires index < |parts|
    ensures Paint(kind, Join(parts[..index + 1], "\n"))
            == Paint(kind, Join(parts[..index], "\n")) + (if index > 0 then Paint(Plain, "\n") else []) + Paint(kind, parts[index])
  {
    assert parts[..index + 1] == parts[..index] + [parts[index]];
    if index > 0 {
      JoinSnoc(parts[..index], parts[index], "\n");
      PaintAppend(kind, Join(parts[..index], "\n") + "\n", parts[index]);
      PaintAppend(kind, Join(parts[..index], "\n"), "\n");
    }
  }

  // ---- The lines of a coloured text are its one compact form ----

  function LineText(line: Line): string {
    if line == [] then "" else LineText(line[..|line| - 1]) + line[|line| - 1].text
  }

  /** What the editor shows: the token texts of each line, the lines joined by line breaks. */
  function Flatten(lines: seq<Line>): string {
    Join(seq(|lines|, i requires 0 <= i < |lines| => LineText(lines[i])), "\n")
  }

  function LineCells(line: Line): seq<Cell> {
    if line == [] then [] else LineCells(line[..|line| - 1]) + Paint(line[|line| - 1].kind, line[|line| - 1].text)
  }

  /** The coloured text that lines show. */
  function CellsOf(lines: seq<Line>): seq<Cell>
    requires lines != []
  {
    var last := LineCells(lines[|lines| - 1]);
    if |lines| == 1 then last else CellsOf(lines[..|lines| - 1]) + Paint(Plain, "\n") + last
  }

  ghost predicate CompactLine(line: Line) {
    && (forall i :: 0 <= i < |line| ==> line[i].text != "" && OneLine(line[i].text))
    && (forall i :: 0 <= i < |line| - 1 ==> line[i].kind != line[i + 1].kind)
  }

  ghost predicate Compact(lines: seq<Line>) {
    forall i :: 0 <= i < |lines| ==> CompactLine(lines[i])
  }

  function LineBreaks(cells: seq<Cell>): nat {
    if cells == [] then 0 else LineBreaks(cells[..|cells| - 1]) + if cells[|cells| - 1].ch == '\n' then 1 else 0
  }

  lemma ExtendCompact(line: Line, kind: Kind, piece: string)
    requires CompactLine(line) && piece != "" && OneLine(piece)
    ensures CompactLine(Extend(line, kind, piece))
  {
  }

  lemma {:induction false} LinesCompact(cells: seq<Cell>)
    ensures Compact(Lines(cells)) && |Lines(cells)| == LineBreaks(cells) + 1
  {
    if cells != [] {
      var before := Lines(cells[..|cells| - 1]);
      var c := cells[|cells| - 1];
      LinesCompact(cells[..|cells| - 1]);
      if c.ch != '\n' {
        ExtendCompact(before[|before| - 1], c.kind, [c.ch]);
      }
    }
  }

  lemma ExtendCells(line: Line, kind: Kind, piece: string)
    ensures LineCells(Extend(line, kind, piece)) == LineCells(line) + Paint(kind, piece)
  {
    var n := |line| - 1;
    if line != [] && line[n].kind == kind {
      assert Extend(line, kind, piece)[..n] == line[..n];
      assert Paint(kind, line[n].text + piece) == Paint(kind, line[n].text) + Paint(kind, piece);
    } else {
      assert Extend(line, kind, piece)[..|line|] == line;
    }
  }

  lemma AddPieceCells(lines: seq<Line>, kind: Kind, piece: string)
    requires lines != []
    ensures CellsOf(AddPiece(lines, kind, piece)) == CellsOf(lines) + Paint(kind, piece)
  {
    var r := AddPiece(lines, kind, piece);
    assert r[..|r| - 1] == lines[..|lines| - 1];
    ExtendCells(lines[|lines| - 1], kind, piece);
  }

  /** Reading the colours back off the lines gives the coloured text. */
  lemma {:induction false} LinesKeepCells(cells: seq<Cell>)
    requires Normal(cells)
    ensures CellsOf(Lines(cells)) == cells
  {
    if cells == [] {
      assert CellsOf([[]]) == [];
    } else {
      var before := cells[..|cells| - 1];
      var c := cells[|cells| - 1];
      LinesKeepCells(before);
      assert cells == before + [c];
      if c.ch == '\n' {
        var lines := Lines(before) + [[]];
        assert lines[..|lines| - 1] == Lines(before);
        assert Paint(Plain, "\n") == [c];
      } else {
        AddPieceCells(Lines(before), c.kind, [c.ch]);
        assert Paint(c.kind, [c.ch]) == [c];
      }
    }
  }

  lemma ExtendBack(lines: seq<Line>, line: Line)
    requires CompactLine(line) && line != []
    ensures AddPiece(lines + [line[..|line| - 1]], line[|line| - 1].kind, line[|line| - 1].text) == lines + [line]
  {
    assert Extend(line[..|line| - 1], line[|line| - 1].kind, line[|line| - 1].text) == line;
  }

  lemma {:induction false} LinesOfLine(before: seq<Cell>, lines: seq<Line>, line: Line)
    requires CompactLine(line) && Lines(before) == lines + [[]]
    ensures Lines(before + LineCells(line)) == lines + [line]
  {
    if line == [] {
      assert before + LineCells(line) == before;
    } else {
      var init, last := line[..|line| - 1], line[|line| - 1];
      LinesOfLine(before, lines, init);
      PieceAtOnce(before + LineCells(init), last.kind, last.text);
      Assoc(before, LineCells(init), Paint(last.kind, last.text));
      ExtendBack(lines, line);
    }
  }

  lemma AddLine(init: seq<Line>, line: Line)
    requires init != [] && Lines(CellsOf(init)) == init && CompactLine(line)
    ensures Lines(CellsOf(init + [line])) == init + [line]
  {
    var cells := CellsOf(init);
    assert Paint(Plain, "\n") == [Cell(Plain, '\n')];
    LinesOfLine(cells + Paint(Plain, "\n"), init, line);
    assert (init + [line])[..|init + [line]| - 1] == init;
  }

  /** Compact lines are determined by the coloured text they show. */
  lemma {:induction false} CompactLinesUnique(lines: seq<Line>)
    requires lines != [] && Compact(lines)
    ensures Lines(CellsOf(lines)) == lines
  {
    var n := |lines| - 1;
    assert lines == lines[..n] + [lines[n]];
    if n == 0 {
      LinesOfLine([], [], lines[0]);
      assert [] + LineCells(lines[0]) == LineCells(lines[0]);
    } else {
      CompactLinesUnique(lines[..n]);
      AddLine(lines[..n], lines[n]);
    }
  }

  lemma {:induction false} LineTextIsChars(line: Line)
    ensures Chars(LineCells(line)) == LineText(line)
  {
    if line != [] {
      LineTextIsChars(line[..|line| - 1]);
    }
  }

  lemma {:induction false} FlattenIsChars(lines: seq<Line>)
    requires lines != []
    ensures Flatten(lines) == Chars(CellsOf(lines))
  {
    var n := |lines| - 1;
    var texts := seq(|lines|, i requires 0 <= i < |lines| => LineText(lines[i]));
    LineTextIsChars(lines[n]);
    if n == 0 {
      assert texts == [LineText(lines[0])];
    } else {
      FlattenIsChars(lines[..n]);
      var init := seq(n, i requires 0 <= i < n => LineText(lines[..n][i]));
      assert texts == init + [LineText(lines[n])];
      JoinSnoc(init, LineText(lines[n]), "\n");
    }
  }
}
