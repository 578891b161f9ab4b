/**
  Two help texts that the usage formatter does not print as one would wish: it
  breaks a line without need, and goes past the right edge.
*/
module UsageOddities {
  import opened Basics
  import opened Utf8Width
  import opened HelpGrid
  import opened GreedyWrap
  import opened LineWrapper
  import opened Sequences
  import opened UsageLayout
  import opened UsageScreen
  import opened UsageColumns

  /** A text of `n` letters. */
  function Letters(n: nat): (s: seq<Byte>)
    ensures |s| == n && Printable(s) && forall i :: 0 <= i < n ==> s[i] == 0x61
  {
    seq(n, _ => 0x61)
  }

  lemma {:induction false} ColumnsOfLetters(n: nat, i: nat, j: nat)
    requires i <= j <= n
    ensures Columns(Letters(n), i, j) == j - i && Whole(Letters(n), i, j)
    decreases j - i
  {
    if i < j {
      ColumnsOfLetters(n, i + 1, j);
    }
  }

  lemma WidthOfLetters(n: nat)
    ensures TextWidth(Letters(n)) == n
  {
    ColumnsOfLetters(n, 0, n);
  }

  /** Cells of one line each make a row of as many parts. */
  lemma GridOfCells(cells: seq<seq<Byte>>)
    requires |cells| >= 2 && forall c :: c in cells ==> TAB !in c && VTAB !in c
    ensures var row := Join(cells, TAB);
            && !Interjection(row) && |Grid(row)| == |cells|
            && forall k :: 0 <= k < |cells| ==> Grid(row)[k] == Part(k, 0, cells[k])
  {
    var row := Join(cells, TAB);
    JoinSplits(cells, TAB);
    SingleCell(row);
    forall k | 0 <= k < |cells|
      ensures Parts(cells[k]) == [cells[k]]
    {
      assert cells[k] in cells;
      SingleCell(cells[k]);
    }
    NoBreaks(cells);
    GridLine(row, 0, 0);
    assert GridFrom(row, 1, 0) == [];
    assert Grid(row) == LineFrom(row, 0, 0);
  }

  lemma {:induction false} NoBreaks(cells: seq<seq<Byte>>)
    requires forall k :: 0 <= k < |cells| ==> Parts(cells[k]) == [cells[k]]
    ensures MaxBreaks(cells) == 0
  {
    if cells != [] {
      NoBreaks(cells[..|cells| - 1]);
    }
  }

  // ---------- A line break that is not needed ----------

  /** A row with cells of 90, 10 and 1 letters. */
  function Overlong(): seq<Byte> {
    Join([Letters(90), Letters(10), Letters(1)], TAB)
  }

  ghost predicate OverlongRow(row: seq<Byte>) {
    forall k {:trigger Key(k)} :: Key(k) ==>
      && !Interjection(row)
      && Grid(row) == [Part(0, 0, Letters(90)), Part(1, 0, Letters(10)), Part(2, 0, Letters(1))]
  }

  lemma TheOverlongRow()
    ensures OverlongRow(Overlong())
  {
    GridOfCells([Letters(90), Letters(10), Letters(1)]);
  }

  lemma MeasuredOne(row: seq<Byte>)
    requires !Interjection(row)
    ensures Measured([row]) == Grid(row)
  {
    assert [row][1..] == [];
  }

  lemma WidthsOfThree(p: Part, q: Part, r: Part, t: nat)
    requires p.column == 0 && q.column == 1 && r.column == 2 && ScreenWidth(p) == 90 && ScreenWidth(q) == 10
    ensures ColumnWidth([p, q, r], 0, t) == if t > 90 then 90 else 0
    ensures ColumnWidth([p, q, r], 1, t) == if t > 10 then 10 else 0
  {
    assert [p, q, r][..2] == [p, q] && [p, q][..1] == [p] && [p][..0] == [];
    assert ColumnWidth([p], 0, t) == (if t > 90 then 90 else 0) && ColumnWidth([p], 1, t) == 0;
    assert ColumnWidth([p, q], 0, t) == ColumnWidth([p], 0, t);
    assert ColumnWidth([p, q], 1, t) == if t > 10 then 10 else 0;
  }

  /** In a line of 80, the first of the three columns gets no width. */
  lemma OverlongFirstColumn(p: Part, q: Part, r: Part)
    requires p.column == 0 && q.column == 1 && r.column == 2 && ScreenWidth(p) == 90 && ScreenWidth(q) == 10
    ensures var measured := [p, q, r];
            && LastColumn(measured) == 2 && BestThreshold(measured, 80, 90)
            && ColumnWidth(measured, 0, 90) == 0 && ColumnWidth(measured, 1, 90) == 10
  {
    var measured := [p, q, r];
    WidthsOfThree(p, q, r, 90);
    assert measured[..2] == [p, q] && [p, q][..1] == [p] && [p][..0] == [];
    assert LastColumn([p]) == 0;
    assert LastColumn([p, q]) == 1;
    assert LastColumn(measured) == 2;
    forall t: nat
      ensures SumWidths(measured, 2, t) == (if t > 90 then 90 else 0) + (if t > 10 then 10 else 0)
    {
      WidthsOfThree(p, q, r, t);
      assert SumWidths(measured, 1, t) == SumWidths(measured, 0, t) + ColumnWidth(measured, 0, t);
    }
  }

  lemma StopsOfOverlong(f: Format, row: seq<Byte>, threshold: nat, minWidth: int, ownWidth: int, rightwidth: int)
    requires f.Valid() && OverlongRow(row)
    requires LaidOut(Measured([row]), 80, threshold, minWidth, ownWidth, f.tabstop, f.lastcolumn, rightwidth, f.ownLine)
    ensures f.lastcolumn == 2 && f.tabstop[0] == f.tabstop[1] == 0 && f.tabstop[2] == 10
  {
    assert Key(0);
    MeasuredOne(row);
    WidthOfLetters(90);
    WidthOfLetters(10);
    OverlongFirstColumn(Grid(row)[0], Grid(row)[1], Grid(row)[2]);
    BestIsUnique(Grid(row), 80, threshold, 90);
  }

  /** Behind the second text the cursor is at the tab stop of the last column, which the printer does not know. */
  lemma BehindTwo(f: Format, row: seq<Byte>, p: Part, q: Part, s: Screen)
    requires f.Valid() && f.lastcolumn == 2 && f.tabstop[0] == f.tabstop[1] == 0 && s.x < 0 && Cursor(s.out) == 0
    requires p.column == 0 && q.column == 1 && ScreenWidth(p) == 90 && ScreenWidth(q) == 10 && !Interjection(row)
    ensures var s2 := FirstShown(f, row, q, FirstShown(f, row, p, s)); Cursor(s2.out) == 10 && s2.x == 100
  {
    var s1 := FirstShown(f, row, p, s);
    assert s.out + [] == s.out;
    CursorIndented(Shown(s, []).(x := 0), 0);
    CursorBehindDirect(f, row, p, s);
    CursorIndented(s1, 0);
    CursorBehindDirect(f, row, q, s1);
  }

  /**
    However the table of that one row is laid out in a line of 80: behind the
    second text the cursor is at the tab stop of the last column, and the
    printer breaks the line nevertheless.
  */
  lemma NeedlessBreak(f: Format, threshold: nat, minWidth: int, ownWidth: int, rightwidth: int, out: seq<Chunk>)
    requires f.Valid() && Cursor(out) == 0
    requires LaidOut(Measured([Overlong()]), 80, threshold, minWidth, ownWidth, f.tabstop, f.lastcolumn, rightwidth,
                     f.ownLine)
    ensures |Grid(Overlong())| == 3 && Grid(Overlong())[2].column == f.lastcolumn == 2
    ensures var s := FirstPass(f, Overlong(), Grid(Overlong())[..2], Screen(out, [], [], -1));
            && Cursor(s.out) == f.tabstop[2]
            && Begun(f, Grid(Overlong())[2], s).out == s.out + (BREAK + Spaces(10))
  {
    TheOverlongRow();
    NeedlessBreakOf(f, Overlong(), threshold, minWidth, ownWidth, rightwidth, out);
  }

  lemma NeedlessBreakOf(f: Format, row: seq<Byte>, threshold: nat, minWidth: int, ownWidth: int, rightwidth: int,
                        out: seq<Chunk>)
    requires f.Valid() && Cursor(out) == 0 && OverlongRow(row)
    requires LaidOut(Measured([row]), 80, threshold, minWidth, ownWidth, f.tabstop, f.lastcolumn, rightwidth, f.ownLine)
    ensures |Grid(row)| == 3 && Grid(row)[2].column == f.lastcolumn == 2
    ensures var s := FirstPass(f, row, Grid(row)[..2], Screen(out, [], [], -1));
            && Cursor(s.out) == f.tabstop[2]
            && Begun(f, Grid(row)[2], s).out == s.out + (BREAK + Spaces(10))
  {
    StopsOfOverlong(f, row, threshold, minWidth, ownWidth, rightwidth);
    var p, q, s0 := Part(0, 0, Letters(90)), Part(1, 0, Letters(10)), Screen(out, [], [], -1);
    assert Grid(row) == [p, q, Part(2, 0, Letters(1))] && !Interjection(row) by {
      assert Key(0);
    }
    WidthOfLetters(90);
    WidthOfLetters(10);
    assert Grid(row)[..2] == [p, q] && [p, q][..1] == [p] && [p][..0] == [];
    assert FirstPass(f, row, [p], s0) == FirstShown(f, row, p, s0);
    BehindTwo(f, row, p, q, s0);
  }

  // ---------- A text beyond the right edge ----------

  /** Rows with cells of 79 letters and one, and of 90 letters each. */
  function Snug(): seq<Byte> {
    Join([Letters(79), Letters(1)], TAB)
  }

  function Wide(): seq<Byte> {
    Join([Letters(90), Letters(90)], TAB)
  }

  ghost predicate TwoRows(snug: seq<Byte>, wide: seq<Byte>) {
    forall k {:trigger Key(k)} :: Key(k) ==>
      && !Interjection(snug) && !Interjection(wide)
      && Grid(snug) == [Part(0, 0, Letters(79)), Part(1, 0, Letters(1))]
      && Grid(wide) == [Part(0, 0, Letters(90)), Part(1, 0, Letters(90))]
  }

  lemma TwoCells(c: seq<Byte>, d: seq<Byte>)
    requires TAB !in c + d && VTAB !in c + d
    ensures !Interjection(Join([c, d], TAB)) && Grid(Join([c, d], TAB)) == [Part(0, 0, c), Part(1, 0, d)]
  {
    GridOfCells([c, d]);
  }

  lemma TheTwoRows()
    ensures TwoRows(Snug(), Wide())
  {
    TwoCells(Letters(79), Letters(1));
    TwoCells(Letters(90), Letters(90));
  }

  lemma WidthsOfFour(p: Part, q: Part, p': Part, q': Part, t: nat)
    requires p.column == p'.column == 0 && q.column == q'.column == 1
    requires ScreenWidth(p) == 79 && ScreenWidth(q) == 1 && ScreenWidth(p') == ScreenWidth(q') == 90
    ensures ColumnWidth([p, q, p', q'], 0, t) == if t > 90 then 90 else if t > 79 then 79 else 0
    ensures t == 90 ==> ColumnWidth([p, q, p', q'], 1, t) == 1
    ensures LastColumn([p, q, p', q']) == 1
  {
    assert [p, q, p', q'][..3] == [p, q, p'] && [p, q, p'][..2] == [p, q] && [p, q][..1] == [p] && [p][..0] == [];
    assert ColumnWidth([p], 0, t) == (if t > 79 then 79 else 0) && ColumnWidth([p], 1, t) == 0 && LastColumn([p]) == 0;
    assert ColumnWidth([p, q], 0, t) == ColumnWidth([p], 0, t);
    assert ColumnWidth([p, q], 1, t) == (if t > 1 then 1 else 0) && LastColumn([p, q]) == 1;
    assert ColumnWidth([p, q, p'], 0, t) == if t > 90 then 90 else if t > 79 then 79 else 0;
    assert ColumnWidth([p, q, p'], 1, t) == ColumnWidth([p, q], 1, t) && LastColumn([p, q, p']) == 1;
  }

  lemma BestOfFour(p: Part, q: Part, p': Part, q': Part)
    requires p.column == p'.column == 0 && q.column == q'.column == 1
    requires ScreenWidth(p) == 79 && ScreenWidth(q) == 1 && ScreenWidth(p') == ScreenWidth(q') == 90
    ensures BestThreshold([p, q, p', q'], 80, 90)
  {
    WidthsOfFour(p, q, p', q', 90);
    forall t: nat
      ensures SumWidths([p, q, p', q'], 1, t) == if t > 90 then 90 else if t > 79 then 79 else 0
    {
      WidthsOfFour(p, q, p', q', t);
      assert SumWidths([p, q, p', q'], 0, t) == 0;
    }
  }

  lemma MeasuredTwo(a: seq<Byte>, b: seq<Byte>)
    requires !Interjection(a) && !Interjection(b)
    ensures Measured([a, b]) == Grid(a) + Grid(b)
  {
    assert [a, b][1..] == [b] && [b][1..] == [];
    assert Measured([b]) == Grid(b) + [] == Grid(b);
  }

  lemma ShownTwo(f: Format, a: seq<Byte>, b: seq<Byte>, out: seq<Chunk>)
    requires f.Valid()
    ensures RowsShown(f, [a, b], out) == RowShown(f, b, RowShown(f, a, out).out).out
  {
    assert [a, b][1..] == [b] && [b][1..] == [];
    assert RowsShown(f, [b], RowShown(f, a, out).out) == RowShown(f, b, RowShown(f, a, out).out).out;
  }

  /** The layout leaves one column for the last one, in which only one of its texts has been measured. */
  lemma NoRoomLeft(f: Format, snug: seq<Byte>, wide: seq<Byte>, threshold: nat, minWidth: int, ownWidth: int,
                   rightwidth: int)
    requires f.Valid() && TwoRows(snug, wide)
    requires LaidOut(Measured([snug, wide]), 80, threshold, minWidth, ownWidth, f.tabstop, f.lastcolumn, rightwidth,
                     f.ownLine)
    ensures threshold == 90 && f.lastcolumn == 1 && rightwidth == 1 && !f.ownLine && f.tabstop[1] == 79
  {
    assert Key(0);
    MeasuredTwo(snug, wide);
    WidthOfLetters(79);
    WidthOfLetters(1);
    WidthOfLetters(90);
    var p, q, p', q' := Grid(snug)[0], Grid(snug)[1], Grid(wide)[0], Grid(wide)[1];
    assert Measured([snug, wide]) == [p, q, p', q'];
    BestOfFour(p, q, p', q');
    BestIsUnique([p, q, p', q'], 80, threshold, 90);
    WidthsOfFour(p, q, p', q', 90);
  }

  /** The first piece of a long word takes all the width there is. */
  lemma FirstPieceOfWord(n: nat)
    requires n > 2
    ensures var pieces := Wrap(Letters(n), 0, 2);
            pieces != [] && pieces[0] == Letters(2) && TextWidth(pieces[0]) == 2
  {
    var s := Letters(n);
    ColumnsOfLetters(n, 0, n);
    WidthOfLetters(2);
    assert FitEnd(s, 2, 0) == 2;
    assert FitEnd(s, 1, 1) == 2;
    assert FitEnd(s, 0, 2) == 2;
    assert s[0..2] == Letters(2);
  }

  lemma {:induction false} BlockBegins(pieces: seq<seq<Byte>>, x: int)
    requires pieces != []
    ensures [Payload(pieces[0])] <= Block(pieces, x)
  {
    if |pieces| > 1 {
      BlockBegins(pieces[..|pieces| - 1], x);
    }
  }

  /** A first piece is written where the cursor is. */
  lemma PieceIsWritten(s: Screen, pieces: seq<seq<Byte>>, margin: int)
    requires s.last == [] && pieces != []
    ensures s.out + [Payload(pieces[0])] <= IntoLast(s, pieces, margin).out
  {
    assert s.last + pieces == pieces;
    BlockBegins(pieces[..Due(pieces)], margin);
  }

  /** The first pass over a row of two cells. */
  lemma PassOverTwo(f: Format, row: seq<Byte>, p: Part, q: Part, s: Screen)
    requires f.Valid() && Grid(row) == [p, q]
    ensures FirstPass(f, row, Grid(row)[..1], s) == FirstShown(f, row, p, s)
    ensures FirstPass(f, row, Grid(row), s) == FirstShown(f, row, q, FirstShown(f, row, p, s))
  {
    assert Grid(row)[..1] == [p] && [p][..0] == [];
  }

  lemma ShownIsWritten(f: Format, row: seq<Byte>, out: seq<Chunk>)
    requires f.Valid() && !f.ownLine
    ensures FirstPass(f, row, Grid(row), Screen(out, [], [], -1)).out <= RowShown(f, row, out).out
    ensures out <= RowShown(f, row, out).out
  {
    PassWrites(f, row, Grid(row), Screen(out, [], [], -1));
  }

  lemma {:induction false} PassWrites(f: Format, row: seq<Byte>, parts: seq<Part>, s: Screen)
    requires f.Valid()
    ensures s.out <= FirstPass(f, row, parts, s).out
  {
    if parts != [] {
      PassWrites(f, row, parts[..|parts| - 1], s);
    }
  }

  lemma NextText(before: seq<Chunk>, text: seq<Byte>, shown: seq<Chunk>, column: nat) returns (i: nat)
    requires before + [Payload(text)] <= shown && Cursor(before) + TextWidth(text) == column
    ensures i == |before| && shown[i] == Payload(text) && Cursor(shown[..i + 1]) == column
  {
    i := |before|;
    assert (before + [Payload(text)])[|before|] == Payload(text);
    assert shown[..|before| + 1] == before + [Payload(text)];
    CursorBehind(before, Payload(text));
  }

  /** The last text is wrapped in a column of width 2, which begins one column in front of the edge. */
  lemma WordInLastColumn(f: Format, snug: seq<Byte>, wide: seq<Byte>, threshold: nat, minWidth: int, ownWidth: int,
                         out: seq<Chunk>) returns (before: seq<Chunk>, text: seq<Byte>)
    requires f.Valid() && TwoRows(snug, wide) && Cursor(out) == 0 && f.margin == 79 && f.lastWidth == 2
    requires LaidOut(Measured([snug, wide]), 80, threshold, minWidth, ownWidth, f.tabstop, f.lastcolumn, 1, f.ownLine)
    ensures Cursor(before) == 79 && out <= before && before + [Payload(text)] <= RowShown(f, wide, out).out
    ensures TextWidth(text) == 2
  {
    NoRoomLeft(f, snug, wide, threshold, minWidth, ownWidth, 1);
    StopsOfLayout(f, Measured([snug, wide]), 80, threshold, minWidth, ownWidth, 1);
    var p, q, s0 := Part(0, 0, Letters(90)), Part(1, 0, Letters(90)), Screen(out, [], [], -1);
    assert Grid(wide) == [p, q] && !Interjection(wide) && !Interjection(snug) by {
      assert Key(0);
    }
    MeasuredTwo(snug, wide);
    LandsOnTabStop(f, Measured([snug, wide]), threshold, wide, out, 1);
    PassOverTwo(f, wide, p, q, s0);
    FirstPieceOfWord(90);
    var begun := Begun(f, q, FirstShown(f, wide, p, s0));
    before, text := begun.out, Pieces(f, wide, q)[0];
    PieceIsWritten(begun, Pieces(f, wide, q), 79);
    ShownIsWritten(f, wide, out);
  }

  lemma PastTheEdgeOf(f: Format, snug: seq<Byte>, wide: seq<Byte>, threshold: nat, minWidth: int, ownWidth: int,
                      rightwidth: int, out: seq<Chunk>) returns (i: nat)
    requires f.Valid() && TwoRows(snug, wide) && Cursor(out) == 0 && f.margin == 80 - rightwidth
             && f.lastWidth == if rightwidth < 2 then 2 else rightwidth
    requires LaidOut(Measured([snug, wide]), 80, threshold, minWidth, ownWidth, f.tabstop, f.lastcolumn, rightwidth,
                     f.ownLine)
    ensures var shown := RowsShown(f, [snug, wide], out);
            |out| <= i < |shown| && shown[i].Payload? && TextWidth(shown[i].text) == 2 && Cursor(shown[..i + 1]) == 81
    ensures rightwidth == 1 && 2 < threshold
  {
    NoRoomLeft(f, snug, wide, threshold, minWidth, ownWidth, rightwidth);
    var first := RowShown(f, snug, out).out;
    RowEndsALine(f, snug, out);
    var before, text := WordInLastColumn(f, snug, wide, threshold, minWidth, ownWidth, first);
    ShownTwo(f, snug, wide, out);
    ShownIsWritten(f, snug, out);
    i := NextText(before, text, RowsShown(f, [snug, wide], out), 81);
  }

  /**
    However the table of the two rows is laid out in a line of 80: a piece of
    the last column, which is not too wide to be measured, ends in column 81.
  */
  lemma PastTheEdge(f: Format, threshold: nat, minWidth: int, ownWidth: int, rightwidth: int, out: seq<Chunk>)
      returns (i: nat)
    requires f.Valid() && Cursor(out) == 0 && f.margin == 80 - rightwidth
             && f.lastWidth == if rightwidth < 2 then 2 else rightwidth
    requires LaidOut(Measured([Snug(), Wide()]), 80, threshold, minWidth, ownWidth, f.tabstop, f.lastcolumn, rightwidth,
                     f.ownLine)
    ensures var shown := RowsShown(f, [Snug(), Wide()], out);
            |out| <= i < |shown| && shown[i].Payload? && TextWidth(shown[i].text) == 2 && Cursor(shown[..i + 1]) == 81
    ensures rightwidth == 1 && 2 < threshold
  {
    TheTwoRows();
    i := PastTheEdgeOf(f, Snug(), Wide(), threshold, minWidth, ownWidth, rightwidth, out);
  }
}
