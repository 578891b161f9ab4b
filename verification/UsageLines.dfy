/**
  On which lines of the screen the texts of a table stand: where the printer
  breaks the line, counted from the first text of a row to its end.
*/
module UsageLines {
  import opened Basics
  import opened Utf8Width
  import opened HelpGrid
  import opened GreedyWrap
  import opened LineWrapper
  import opened Sequences
  import opened UsageLayout
  import opened UsageScreen
  import opened UsageColumns

  /** The lines that have been ended. */
  function LineBreaks(out: seq<Chunk>): (n: nat) {
    if out == [] then 0 else
      var n := |out| - 1;
      LineBreaks(out[..n]) + if out[n] == Layout([NEWLINE]) then 1 else 0
  }

  lemma {:induction false} BreaksJoin(a: seq<Chunk>, b: seq<Chunk>)
    ensures LineBreaks(a + b) == LineBreaks(a) + LineBreaks(b)
  {
    if b == [] {
      assert a + b == a;
    } else {
      var n := |b| - 1;
      BreaksJoin(a, b[..n]);
      assert (a + b)[..|a| + n] == a + b[..n];
    }
  }

  lemma BreaksOfOne(c: Chunk)
    ensures LineBreaks([c]) == if c == Layout([NEWLINE]) then 1 else 0
  {
    assert [c][..0] == [];
  }

  lemma {:induction false} BreaksOfSpaces(n: nat)
    ensures LineBreaks(Spaces(n)) == 0
  {
    if n > 0 {
      BreaksOfSpaces(n - 1);
      BreaksOfOne(Layout([SPACE]));
      BreaksJoin(Spaces(n - 1), [Layout([SPACE])]);
    }
  }

  lemma BreaksOfIndentation(x0: int, want: int)
    ensures LineBreaks(Indentation(x0, want)) == if want < x0 then 1 else 0
  {
    var n := if want >= x0 then want - x0 else if want > 0 then want else 0;
    BreaksOfSpaces(n);
    BreaksOfOne(Layout([NEWLINE]));
    BreaksJoin(if want < x0 then BREAK else [], Spaces(n));
  }

  /** The pieces of a block stand on lines of their own, one below the other. */
  lemma {:induction false} BreaksOfBlock(pieces: seq<seq<Byte>>, x: nat)
    ensures LineBreaks(Block(pieces, x)) == if pieces == [] then 0 else |pieces| - 1
  {
    if pieces != [] {
      var n := |pieces| - 1;
      var front := if n > 0 then Break(x) else [];
      BreaksOfBlock(pieces[..n], x);
      BreaksOfSpaces(x);
      BreaksOfOne(Layout([NEWLINE]));
      BreaksJoin([Layout([NEWLINE])], Margin(x));
      BreaksOfOne(Payload(pieces[n]));
      BreaksJoin(front, [Payload(pieces[n])]);
      BreaksJoin(Block(pieces[..n], x), front + [Payload(pieces[n])]);
    }
  }

  lemma BreaksOfFlushed(queue: seq<seq<Byte>>, x: nat)
    ensures LineBreaks(Flushed(queue, x)) == |queue|
  {
    if queue != [] {
      BreaksOfSpaces(x);
      BreaksOfBlock(queue, x);
      BreaksOfOne(Layout([NEWLINE]));
      BreaksJoin(Margin(x), Block(queue, x));
      BreaksJoin(Margin(x) + Block(queue, x), [Layout([NEWLINE])]);
    }
  }

  // ---------- In front of a part ----------

  /** The screen line on which the cursor is when the parts in front of part `k` have been printed. */
  function LinesBefore(f: Format, row: seq<Byte>, out: seq<Chunk>, k: nat): nat
    requires f.Valid() && k <= |Grid(row)|
  {
    LineBreaks(FirstPass(f, row, Grid(row)[..k], Screen(out, [], [], -1)).out)
  }

  /** The screen line on which a part of the row begins. */
  function LineOfPart(f: Format, row: seq<Byte>, out: seq<Chunk>, k: nat): nat
    requires f.Valid() && k < |Grid(row)| && Grid(row)[k].column <= f.lastcolumn
  {
    LineBreaks(Begun(f, Grid(row)[k], FirstPass(f, row, Grid(row)[..k], Screen(out, [], [], -1))).out)
  }

  /** How wide the parts to the left of part `k` in its line of the grid are together. */
  function WidthsLeft(parts: seq<Part>, k: nat): nat
    requires k < |parts|
  {
    if k == 0 || parts[k].column == 0 then 0 else WidthsLeft(parts, k - 1) + ScreenWidth(parts[k - 1])
  }

  /**
    How far the texts in front of part `k` reach on the screen: behind the one
    that begins at the tab stop before, or as far as all of them are wide if
    none of their columns has a width.
  */
  function Reach(f: Format, parts: seq<Part>, k: nat): nat
    requires f.Valid() && 0 < k < |parts| && 0 < parts[k].column <= f.lastcolumn
  {
    var stop := f.tabstop[parts[k].column - 1];
    if stop == 0 then WidthsLeft(parts, k) else stop + ScreenWidth(parts[k - 1])
  }

  ghost predicate Ascending(f: Format) {
    f.Valid() && f.tabstop[0] == 0 && forall c :: 0 < c <= f.lastcolumn ==> f.tabstop[c - 1] <= f.tabstop[c]
  }

  /** That is where the cursor is believed to be. */
  lemma {:induction false} BelievedIsReach(f: Format, row: seq<Byte>, out: seq<Chunk>, k: nat)
    requires Ascending(f) && !Interjection(row) && 0 < k < |Grid(row)| && 0 < Grid(row)[k].column <= f.lastcolumn
    ensures FirstPass(f, row, Grid(row)[..k], Screen(out, [], [], -1)).x == Reach(f, Grid(row), k)
    decreases k
  {
    var grid, s0 := Grid(row), Screen(out, [], [], -1);
    ColumnsFollow(row, 0, 0);
    assert grid[..k][..k - 1] == grid[..k - 1];
    var s := FirstPass(f, row, grid[..k - 1], s0);
    assert FirstPass(f, row, grid[..k], s0) == FirstShown(f, row, grid[k - 1], s);
    if grid[k - 1].column > 0 {
      BelievedIsReach(f, row, out, k - 1);
    }
  }

  lemma BreaksOfBegun(f: Format, p: Part, s: Screen)
    requires f.Valid() && p.column <= f.lastcolumn
    ensures LineBreaks(Begun(f, p, s).out) == LineBreaks(s.out) +
            if p.column > 0 then if f.tabstop[p.column] < s.x then 1 else 0 else if s.x >= 0 then 1 else 0
  {
    var front: seq<Chunk> := if s.x >= 0 then BREAK else [];
    var s1 := if p.column > 0 then s else Shown(s, front).(x := 0);
    BreaksOfOne(Layout([NEWLINE]));
    BreaksJoin(s.out, front);
    BreaksOfIndentation(s1.x, f.tabstop[p.column]);
    BreaksJoin(s1.out, Indentation(s1.x, f.tabstop[p.column]));
  }

  lemma {:induction false} NaturalBehind(f: Format, row: seq<Byte>, out: seq<Chunk>, k: nat)
    requires f.Valid() && k <= |Grid(row)|
    ensures var x := FirstPass(f, row, Grid(row)[..k], Screen(out, [], [], -1)).x; if k == 0 then x == -1 else x >= 0
    decreases k
  {
    if k > 0 {
      var grid, s0 := Grid(row), Screen(out, [], [], -1);
      ColumnsFollow(row, 0, 0);
      NaturalBehind(f, row, out, k - 1);
      assert grid[..k][..k - 1] == grid[..k - 1];
      BelievedIsNatural(f, row, grid[k - 1], FirstPass(f, row, grid[..k - 1], s0));
    }
  }

  /**
    The line is broken in front of a part if it begins another line of the grid,
    or if the texts in front of it reach beyond its tab stop, and in no other
    case; the first part of a row begins on the line where the row does.
  */
  lemma BreaksBeforePart(f: Format, row: seq<Byte>, out: seq<Chunk>, k: nat)
    requires Ascending(f) && k < |Grid(row)| && Grid(row)[k].column <= f.lastcolumn
    ensures var p := Grid(row)[k];
            LineOfPart(f, row, out, k) == LinesBefore(f, row, out, k)
            + if k == 0 then 0 else if p.column == 0 || Reach(f, Grid(row), k) > f.tabstop[p.column] then 1 else 0
    ensures LinesBefore(f, row, out, 0) == LineBreaks(out)
  {
    ColumnsFollow(row, 0, 0);
    NaturalBehind(f, row, out, k);
    BreaksOfBegun(f, Grid(row)[k], FirstPass(f, row, Grid(row)[..k], Screen(out, [], [], -1)));
    if Interjection(row) {
      InterjectionIsOnePart(row);
    } else if Grid(row)[k].column > 0 {
      BelievedIsReach(f, row, out, k);
    }
  }

  // ---------- Within a part, and behind a row ----------

  /** The breaks between the pieces that are written when `pieces` are handed to a wrapper. */
  function BreaksBetween(queue: seq<seq<Byte>>, pieces: seq<seq<Byte>>): nat {
    if queue + pieces == [] then 0 else Due(queue + pieces) - 1
  }

  /** A text written directly stays on its line; a wrapper breaks the line between the pieces that it writes. */
  lemma BreaksWithinPart(f: Format, row: seq<Byte>, p: Part, s: Screen)
    requires f.Valid() && f.margin >= 0 && p.column <= f.lastcolumn
    ensures LineBreaks(FirstShown(f, row, p, s).out) == LineBreaks(Begun(f, p, s).out)
            + match RouteOf(f, row, FIRST, p.column)
              case LAST => BreaksBetween(s.last, Pieces(f, row, p))
              case BETWEEN => BreaksBetween(s.between, Pieces(f, row, p))
              case _ => 0
  {
    var begun, pieces := Begun(f, p, s), Pieces(f, row, p);
    BreaksOfOne(Payload(p.text));
    BreaksJoin(begun.out, [Payload(p.text)]);
    var last, between := s.last + pieces, s.between + pieces;
    BreaksOfBlock(last[..Due(last)], f.margin);
    BreaksJoin(begun.out, Block(last[..Due(last)], f.margin));
    BreaksOfBlock(between[..Due(between)], 0);
    BreaksJoin(begun.out, Block(between[..Due(between)], 0));
  }

  /** A part in the second pass begins a line of its own. */
  lemma BreaksInSecondPass(f: Format, row: seq<Byte>, p: Part, s: Screen)
    requires f.Valid() && f.margin >= 0
    ensures LineBreaks(SecondShown(f, row, p, s).out) == LineBreaks(s.out)
            + if p.column == f.lastcolumn then 1 + BreaksBetween(s.last, Pieces(f, row, p)) else 0
  {
    var last := s.last + Pieces(f, row, p);
    BreaksOfOne(Layout([NEWLINE]));
    BreaksJoin(s.out, BREAK);
    BreaksOfIndentation(0, f.margin);
    BreaksJoin(s.out + BREAK, Indentation(0, f.margin));
    BreaksOfBlock(last[..Due(last)], f.margin);
    BreaksJoin(s.out + BREAK + Indentation(0, f.margin), Block(last[..Due(last)], f.margin));
  }

  /** A row ends its line, and every piece that is still queued takes one more. */
  lemma BreaksBehindRow(f: Format, s: Screen)
    requires f.margin >= 0
    ensures LineBreaks(RowEnded(f, s).out) == LineBreaks(s.out) + 1 + |s.last| + |s.between|
  {
    BreaksOfOne(Layout([NEWLINE]));
    BreaksJoin(s.out, BREAK);
    BreaksOfFlushed(s.last, f.margin);
    BreaksJoin(s.out + BREAK, Flushed(s.last, f.margin));
    BreaksOfFlushed(s.between, 0);
    BreaksJoin(s.out + BREAK + Flushed(s.last, f.margin), Flushed(s.between, 0));
  }

  // ---------- In a layout ----------

  /** The parts to the left of part `k` in its line of the grid are narrow enough to be measured. */
  ghost predicate NarrowLeft(parts: seq<Part>, k: nat, threshold: nat)
    requires k < |parts|
  {
    parts[k].column <= k && forall j :: k - parts[k].column <= j < k ==> ScreenWidth(parts[j]) < threshold
  }

  lemma NarrowIsWithinColumn(measured: seq<Part>, p: Part, threshold: nat)
    requires p in measured && ScreenWidth(p) < threshold
    ensures ScreenWidth(p) <= ColumnWidth(measured, p.column, threshold)
  {
    ColumnWidthIsLeast(measured, p.column, threshold);
    assert Widens(p, p.column, threshold);
  }

  /** Texts that are narrow enough to be measured do not reach beyond the next tab stop. */
  lemma {:induction false} NarrowTextsFit(f: Format, measured: seq<Part>, threshold: nat, row: seq<Byte>, k: nat)
    requires Stops(f, measured, threshold) && (forall p :: p in Grid(row) ==> p in measured)
    requires 0 < k < |Grid(row)| && 0 < Grid(row)[k].column <= f.lastcolumn && NarrowLeft(Grid(row), k, threshold)
    ensures f.tabstop[Grid(row)[k].column - 1] == 0 ==> WidthsLeft(Grid(row), k) <= f.tabstop[Grid(row)[k].column]
    ensures Reach(f, Grid(row), k) <= f.tabstop[Grid(row)[k].column]
    decreases k
  {
    var grid := Grid(row);
    ColumnsFollow(row, 0, 0);
    var c := grid[k - 1].column;
    assert grid[k - 1] in grid;
    NarrowIsWithinColumn(measured, grid[k - 1], threshold);
    assert f.tabstop[c + 1] == f.tabstop[c] + ColumnWidth(measured, c, threshold);
    if c > 0 && f.tabstop[c] == 0 {
      assert f.tabstop[c - 1] <= f.tabstop[c];
      NarrowTextsFit(f, measured, threshold, row, k - 1);
    }
  }

  lemma StopsAscend(f: Format, measured: seq<Part>, threshold: nat)
    requires Stops(f, measured, threshold)
    ensures Ascending(f)
  {
    forall c | 0 < c <= f.lastcolumn
      ensures f.tabstop[c - 1] <= f.tabstop[c]
    {
      assert f.tabstop[c] == f.tabstop[c - 1] + ColumnWidth(measured, c - 1, threshold);
    }
  }

  /** A part begins on the line of the part in front of it, if that is narrow enough. */
  lemma NextToPart(f: Format, measured: seq<Part>, threshold: nat, row: seq<Byte>, out: seq<Chunk>, k: nat)
    requires Stops(f, measured, threshold) && !Interjection(row) && (forall p :: p in Grid(row) ==> p in measured)
    requires 0 < k < |Grid(row)| && 0 < Grid(row)[k].column <= f.lastcolumn && NarrowLeft(Grid(row), k, threshold)
    ensures Grid(row)[k - 1].column == Grid(row)[k].column - 1
    ensures LineOfPart(f, row, out, k) == LineOfPart(f, row, out, k - 1)
  {
    ColumnsFollow(row, 0, 0);
    NarrowTextsFit(f, measured, threshold, row, k);
    StopsAscend(f, measured, threshold);
    BreaksBeforePart(f, row, out, k);
    DirectStaysOnLine(f, row, out, k);
  }

  lemma DirectStaysOnLine(f: Format, row: seq<Byte>, out: seq<Chunk>, k: nat)
    requires f.Valid() && 0 < k <= |Grid(row)| && Direct(f, row, Grid(row)[k - 1].column)
    ensures LinesBefore(f, row, out, k) == LineOfPart(f, row, out, k - 1)
  {
    var grid, s0 := Grid(row), Screen(out, [], [], -1);
    assert grid[..k][..k - 1] == grid[..k - 1];
    var begun := Begun(f, grid[k - 1], FirstPass(f, row, grid[..k - 1], s0));
    BreaksOfOne(Payload(grid[k - 1].text));
    BreaksJoin(begun.out, [Payload(grid[k - 1].text)]);
  }

  /**
    In a layout, a line of the grid is a line of the screen: a part begins on
    the screen line of the first part of its line, as long as the texts between
    them are narrow enough to be measured.
  */
  lemma {:induction false} LinesStayTogether(f: Format, measured: seq<Part>, threshold: nat, row: seq<Byte>,
                                             out: seq<Chunk>, k: nat)
    requires Stops(f, measured, threshold) && (!Interjection(row) ==> forall p :: p in Grid(row) ==> p in measured)
    requires k < |Grid(row)| && Grid(row)[k].column <= f.lastcolumn && NarrowLeft(Grid(row), k, threshold)
    ensures var first := k - Grid(row)[k].column;
            Grid(row)[first].column == 0 && LineOfPart(f, row, out, k) == LineOfPart(f, row, out, first)
    decreases k
  {
    if Grid(row)[k].column > 0 {
      if Interjection(row) {
        InterjectionIsOnePart(row);
      } else {
        NextToPart(f, measured, threshold, row, out, k);
        assert NarrowLeft(Grid(row), k - 1, threshold);
        LinesStayTogether(f, measured, threshold, row, out, k - 1);
      }
    }
  }

  // ---------- No text breaks a line by itself ----------

  lemma {:induction false} PieceIsWithin(s: seq<Byte>, sep: Byte, p: seq<Byte>)
    requires p in Split(s, sep)
    ensures forall b :: b in p ==> b in s
  {
    if s != [] {
      var more := Split(s[1..], sep);
      if p in more {
        PieceIsWithin(s[1..], sep, p);
      } else if s[0] != sep {
        PieceIsWithin(s[1..], sep, more[0]);
      }
    }
  }

  lemma {:induction false} PartIsWithin(row: seq<Byte>, line: nat, column: nat, p: Part)
    requires p in GridFrom(row, line, column)
    ensures forall b :: b in p.text ==> b in row
    decreases Height(row) - line, |Cells(row)| - column
  {
    if column >= |Cells(row)| {
      PartIsWithin(row, line + 1, 0, p);
    } else if p != Part(column, line, PartText(row, column, line)) {
      PartIsWithin(row, line, column + 1, p);
    } else {
      var cell := Cells(row)[column];
      PieceIsWithin(row, TAB, cell);
      if p.text in Parts(cell) {
        PieceIsWithin(cell, VTAB, p.text);
      }
    }
  }

  lemma {:induction false} LineIsWithin(s: seq<Byte>, i: nat, width: nat, t: seq<Byte>)
    requires i <= |s| && Printable(s) && width >= 2 && t in Wrap(s, i, width)
    ensures forall b :: b in t ==> b in s
    decreases |s| - i
  {
    var l := FirstLine(s, i, width);
    if t != Text(s, l) {
      LineIsWithin(s, l.next, width, t);
    }
  }

  lemma {:induction false} PieceOfSomePart(f: Format, row: seq<Byte>, parts: seq<Part>, t: seq<Byte>)
    requires f.Valid() && t in AllPieces(f, row, parts)
    ensures exists p :: p in parts && t in Pieces(f, row, p)
  {
    var n := |parts| - 1;
    if t in AllPieces(f, row, parts[..n]) {
      PieceOfSomePart(f, row, parts[..n], t);
      var p :| p in parts[..n] && t in Pieces(f, row, p);
    }
  }

  /** What is printed of a row of a table holds no line feed, so that line breaks are the ones counted. */
  lemma TextsHoldNoBreak(f: Format, row: seq<Byte>, printed: seq<seq<Byte>>, t: seq<Byte>)
    requires f.Valid() && PrintedRow(f, row, printed) && t in printed && LF !in row
    ensures LF !in t
  {
    EveryPartIsPrinted(f, row, printed);
    assert t in multiset(printed);
    PieceOfSomePart(f, row, Grid(row), t);
    var p :| p in Grid(row) && t in Pieces(f, row, p);
    PartIsWithin(row, 0, 0, p);
    if t != p.text {
      LineIsWithin(p.text, 0, if p.column == 0 then f.lineWidth else f.lastWidth, t);
    }
  }

  /** Nor does a row. */
  lemma {:induction false} RowsHoldNoBreak(helps: Helps, d: nat, row: seq<Byte>)
    requires row in Rows(helps, d)
    ensures LF !in row
    decreases |helps| - d
  {
    SplitJoins(helps[d].value, LF);
    if row !in Split(helps[d].value, LF) {
      RowsHoldNoBreak(helps, d + 1, row);
    }
  }
}
