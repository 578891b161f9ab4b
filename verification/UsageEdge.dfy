/**
  Where every line that is printed of a table lands: what stands to the left of
  the last column at its tab stop, every line of the last column at the margin,
  and every line of an interjection in column 0.  So nothing goes past the
  right edge but texts that are too wide for the layout.
*/
module UsageEdge {
  import opened Basics
  import opened Utf8Width
  import opened HelpGrid
  import opened GreedyWrap
  import opened LineWrapper
  import opened Sequences
  import opened UsageLayout
  import opened UsageScreen
  import opened UsageColumns

  /** A text of the row belongs in the column: as a part written directly, of the last column or of an interjection. */
  ghost predicate Belongs(f: Format, row: seq<Byte>, column: nat, text: seq<Byte>)
    requires f.Valid()
  {
    || (column == f.margin && text in Via(f, row, Grid(row), BOTH, LAST))
    || (column == 0 && text in Via(f, row, Grid(row), BOTH, BETWEEN))
    || exists p :: p in Grid(row) && Direct(f, row, p.column) && p.text == text && column == f.tabstop[p.column]
  }

  ghost predicate BelongsToSome(f: Format, rows: seq<seq<Byte>>, column: nat, text: seq<Byte>)
    requires f.Valid()
  {
    exists row :: row in rows && Belongs(f, row, column, text)
  }

  /** Every text written since `from` begins in a column where it belongs. */
  ghost predicate InPlace(f: Format, rows: seq<seq<Byte>>, out: seq<Chunk>, from: nat)
    requires f.Valid()
  {
    && from <= |out|
    && forall i :: from <= i < |out| && out[i].Payload? ==> BelongsToSome(f, rows, Cursor(out[..i]), out[i].text)
  }

  lemma InPlaceMore(f: Format, rows: seq<seq<Byte>>, out: seq<Chunk>, from: nat, text: seq<Byte>)
    requires f.Valid() && InPlace(f, rows, out, from) && BelongsToSome(f, rows, Cursor(out), text)
    ensures InPlace(f, rows, out + [Payload(text)], from)
  {
    forall i | 0 <= i <= |out|
      ensures (out + [Payload(text)])[..i] == out[..i]
    {
    }
    assert out[..|out|] == out;
  }

  lemma InPlaceLayout(f: Format, rows: seq<seq<Byte>>, out: seq<Chunk>, from: nat, more: seq<Chunk>)
    requires f.Valid() && InPlace(f, rows, out, from) && Payloads(more) == []
    ensures InPlace(f, rows, out + more, from)
  {
    NoPayload(more);
    forall i | |out| <= i < |out + more|
      ensures (out + more)[i] in more
    {
    }
    forall i | 0 <= i < |out|
      ensures (out + more)[..i] == out[..i]
    {
    }
  }

  lemma {:induction false} NoPayload(more: seq<Chunk>)
    requires Payloads(more) == []
    ensures forall c :: c in more ==> c.Layout?
  {
    if more != [] {
      NoPayload(more[..|more| - 1]);
      assert more == more[..|more| - 1] + [more[|more| - 1]];
    }
  }

  lemma CursorBehindMargin(out: seq<Chunk>, x: nat)
    ensures Cursor(out + Margin(x)) == Cursor(out) + x && Cursor(out + Break(x)) == x
  {
    CursorBehindSpaces(out, x);
    CursorBehindBreak(out);
    CursorBehindSpaces(out + BREAK, x);
    Associative(out, BREAK, Spaces(x));
  }

  /** All pieces of a block begin in the same column. */
  lemma {:induction false} InPlaceBlock(f: Format, rows: seq<seq<Byte>>, out: seq<Chunk>, from: nat,
                                        pieces: seq<seq<Byte>>, x: nat)
    requires f.Valid() && InPlace(f, rows, out, from) && Cursor(out) == x
    requires forall t :: t in pieces ==> BelongsToSome(f, rows, x, t)
    ensures InPlace(f, rows, out + Block(pieces, x), from)
  {
    if pieces == [] {
      assert out + [] == out;
    } else {
      var n := |pieces| - 1;
      var before := out + Block(pieces[..n], x);
      InPlaceBlock(f, rows, out, from, pieces[..n], x);
      var front := if n > 0 then Break(x) else [];
      PayloadsOfMargin(x);
      InPlaceLayout(f, rows, before, from, front);
      CursorBehindMargin(before, x);
      assert n == 0 ==> before + front == out;
      InPlaceMore(f, rows, before + front, from, pieces[n]);
      Associative(before, front, [Payload(pieces[n])]);
      Associative(out, Block(pieces[..n], x), front + [Payload(pieces[n])]);
    }
  }

  // ---------- What goes which way ----------

  lemma {:induction false} PiecesGo(f: Format, row: seq<Byte>, parts: seq<Part>, pass: Pass, route: Route, p: Part)
    requires f.Valid() && p in parts && RouteOf(f, row, pass, p.column) == route
    ensures forall t :: t in Pieces(f, row, p) ==> t in Via(f, row, parts, pass, route)
  {
    var n := |parts| - 1;
    if parts[n] != p {
      assert parts == parts[..n] + [parts[n]];
      PiecesGo(f, row, parts[..n], pass, route, p);
    }
  }

  /** A piece of a part that is wrapped fits the wrapper. */
  lemma {:induction false} PiecesAreNarrow(f: Format, row: seq<Byte>, parts: seq<Part>, pass: Pass)
    requires f.Valid()
    ensures forall t :: t in Via(f, row, parts, pass, LAST) ==> TextWidth(t) <= f.lastWidth
    ensures forall t :: t in Via(f, row, parts, pass, BETWEEN) ==> TextWidth(t) <= f.lineWidth
  {
    if parts != [] {
      var n := |parts| - 1;
      PiecesAreNarrow(f, row, parts[..n], pass);
      if Printable(parts[n].text) {
        PiecesFit(parts[n].text, 0, f.lineWidth);
        PiecesFit(parts[n].text, 0, f.lastWidth);
      }
    }
  }

  // ---------- One row ----------

  /** What the columns need for the lines to land where they belong. */
  ghost predicate Spaced(f: Format) {
    && f.Valid() && f.tabstop[0] == 0 && f.margin >= 0
    && (!f.ownLine && f.lastcolumn > 0 ==> f.tabstop[f.lastcolumn] == f.margin)
  }

  /** What has been written is in place, and what is queued is on its way. */
  ghost predicate Underway(f: Format, rows: seq<seq<Byte>>, row: seq<Byte>, s: Screen, from: nat)
    requires f.Valid()
  {
    && InPlace(f, rows, s.out, from)
    && (forall t :: t in s.last ==> t in Via(f, row, Grid(row), BOTH, LAST))
    && forall t :: t in s.between ==> t in Via(f, row, Grid(row), BOTH, BETWEEN)
  }

  lemma UnderwayLayout(f: Format, rows: seq<seq<Byte>>, row: seq<Byte>, s: Screen, from: nat, more: seq<Chunk>, x: int)
    requires f.Valid() && Underway(f, rows, row, s, from) && Payloads(more) == []
    ensures Underway(f, rows, row, Shown(s, more).(x := x), from)
  {
    InPlaceLayout(f, rows, s.out, from, more);
  }

  lemma UnderwayBegun(f: Format, rows: seq<seq<Byte>>, row: seq<Byte>, p: Part, s: Screen, from: nat)
    requires f.Valid() && p.column <= f.lastcolumn && Underway(f, rows, row, s, from)
    ensures Underway(f, rows, row, Begun(f, p, s), from)
  {
    var front: seq<Chunk> := if s.x >= 0 then BREAK else [];
    assert Payloads(front) == [];
    UnderwayLayout(f, rows, row, s, from, front, 0);
    var s1 := if p.column > 0 then s else Shown(s, front).(x := 0);
    PayloadsOfIndentation(s1.x, f.tabstop[p.column]);
    UnderwayLayout(f, rows, row, s1, from, Indentation(s1.x, f.tabstop[p.column]), Believed(s1.x, f.tabstop[p.column]));
  }

  lemma UnderwayLast(f: Format, rows: seq<seq<Byte>>, row: seq<Byte>, s: Screen, from: nat, pieces: seq<seq<Byte>>)
    requires Spaced(f) && row in rows && Underway(f, rows, row, s, from) && Cursor(s.out) == f.margin
    requires forall t :: t in pieces ==> t in Via(f, row, Grid(row), BOTH, LAST)
    ensures Underway(f, rows, row, IntoLast(s, pieces, f.margin), from)
  {
    var all := s.last + pieces;
    InPlaceBlock(f, rows, s.out, from, all[..Due(all)], f.margin);
  }

  lemma UnderwayBetween(f: Format, rows: seq<seq<Byte>>, row: seq<Byte>, s: Screen, from: nat, pieces: seq<seq<Byte>>)
    requires Spaced(f) && row in rows && Underway(f, rows, row, s, from) && Cursor(s.out) == 0
    requires forall t :: t in pieces ==> t in Via(f, row, Grid(row), BOTH, BETWEEN)
    ensures Underway(f, rows, row, IntoBetween(s, pieces), from)
  {
    var all := s.between + pieces;
    InPlaceBlock(f, rows, s.out, from, all[..Due(all)], 0);
  }

  lemma UnderwayFirst(f: Format, rows: seq<seq<Byte>>, row: seq<Byte>, p: Part, s: Screen, from: nat)
    requires Spaced(f) && row in rows && p in Grid(row) && Underway(f, rows, row, s, from)
    requires p.column <= f.lastcolumn ==> Cursor(Begun(f, p, s).out) == f.tabstop[p.column]
    ensures Underway(f, rows, row, FirstShown(f, row, p, s), from)
  {
    if p.column <= f.lastcolumn {
      var begun := Begun(f, p, s);
      UnderwayBegun(f, rows, row, p, s, from);
      if Interjection(row) {
        InterjectionIsOnePart(row);
      }
      if Direct(f, row, p.column) {
        assert Belongs(f, row, Cursor(begun.out), p.text);
        InPlaceMore(f, rows, begun.out, from, p.text);
      } else if !(f.ownLine && p.column == f.lastcolumn) {
        PiecesGo(f, row, Grid(row), BOTH, RouteOf(f, row, BOTH, p.column), p);
        if p.column == 0 {
          UnderwayBetween(f, rows, row, begun, from, Pieces(f, row, p));
        } else {
          UnderwayLast(f, rows, row, begun, from, Pieces(f, row, p));
        }
      }
    }
  }

  lemma UnderwaySecond(f: Format, rows: seq<seq<Byte>>, row: seq<Byte>, p: Part, s: Screen, from: nat)
    requires Spaced(f) && f.ownLine && row in rows && p in Grid(row) && Underway(f, rows, row, s, from)
    ensures Underway(f, rows, row, SecondShown(f, row, p, s), from)
  {
    if p.column == f.lastcolumn {
      assert Payloads(BREAK) == [];
      UnderwayLayout(f, rows, row, s, from, BREAK, s.x);
      PayloadsOfIndentation(0, f.margin);
      UnderwayLayout(f, rows, row, Shown(s, BREAK), from, Indentation(0, f.margin), s.x);
      CursorBehindBreak(s.out);
      assert Indentation(0, f.margin) == Margin(f.margin);
      CursorBehindMargin(s.out + BREAK, f.margin);
      PiecesGo(f, row, Grid(row), BOTH, RouteOf(f, row, BOTH, p.column), p);
      UnderwayLast(f, rows, row, Shown(Shown(s, BREAK), Indentation(0, f.margin)), from, Pieces(f, row, p));
    }
  }

  lemma OnePartFurther(f: Format, row: seq<Byte>, k: nat, s0: Screen)
    requires f.Valid() && 0 < k <= |Grid(row)|
    ensures FirstPass(f, row, Grid(row)[..k], s0)
            == FirstShown(f, row, Grid(row)[k - 1], FirstPass(f, row, Grid(row)[..k - 1], s0))
  {
    assert Grid(row)[..k][..k - 1] == Grid(row)[..k - 1];
  }

  /** Before part `k` of the row, in the first pass. */
  lemma {:induction false} UnderwayFirstPass(f: Format, measured: seq<Part>, threshold: nat, rows: seq<seq<Byte>>,
                                             row: seq<Byte>, out: seq<Chunk>, from: nat, k: nat)
    requires Spaced(f) && Stops(f, measured, threshold) && row in rows && k <= |Grid(row)|
    requires !Interjection(row) ==> forall p :: p in Grid(row) ==> p in measured
    requires InPlace(f, rows, out, from) && Cursor(out) == 0
    ensures Underway(f, rows, row, FirstPass(f, row, Grid(row)[..k], Screen(out, [], [], -1)), from)
    decreases k
  {
    if k > 0 {
      var grid, s0 := Grid(row), Screen(out, [], [], -1);
      UnderwayFirstPass(f, measured, threshold, rows, row, out, from, k - 1);
      LandsOnTabStop(f, measured, threshold, row, out, k - 1);
      OnePartFurther(f, row, k, s0);
      UnderwayFirst(f, rows, row, grid[k - 1], FirstPass(f, row, grid[..k - 1], s0), from);
    }
  }

  lemma {:induction false} UnderwaySecondPass(f: Format, rows: seq<seq<Byte>>, row: seq<Byte>, parts: seq<Part>,
                                              s: Screen, from: nat)
    requires Spaced(f) && f.ownLine && row in rows && Underway(f, rows, row, s, from)
    requires forall p :: p in parts ==> p in Grid(row)
    ensures Underway(f, rows, row, SecondPass(f, row, parts, s), from)
  {
    if parts != [] {
      var n := |parts| - 1;
      UnderwaySecondPass(f, rows, row, parts[..n], s, from);
      UnderwaySecond(f, rows, row, parts[n], SecondPass(f, row, parts[..n], s), from);
    }
  }

  lemma InPlaceFlushed(f: Format, rows: seq<seq<Byte>>, out: seq<Chunk>, from: nat, queue: seq<seq<Byte>>, x: nat)
    requires f.Valid() && InPlace(f, rows, out, from) && Cursor(out) == 0
    requires forall t :: t in queue ==> BelongsToSome(f, rows, x, t)
    ensures InPlace(f, rows, out + Flushed(queue, x), from) && Cursor(out + Flushed(queue, x)) == 0
  {
    FlushEndsALine(out, queue, x);
    if queue == [] {
      assert out + [] == out;
    } else {
      JoinedThrice(out, Margin(x), Block(queue, x), BREAK);
      PayloadsOfMargin(x);
      InPlaceLayout(f, rows, out, from, Margin(x));
      CursorBehindMargin(out, x);
      InPlaceBlock(f, rows, out + Margin(x), from, queue, x);
      assert Payloads(BREAK) == [];
      InPlaceLayout(f, rows, out + Margin(x) + Block(queue, x), from, BREAK);
    }
  }

  lemma RowInPlace(f: Format, measured: seq<Part>, threshold: nat, rows: seq<seq<Byte>>, row: seq<Byte>,
                   out: seq<Chunk>, from: nat)
    requires Spaced(f) && Stops(f, measured, threshold) && row in rows
    requires !Interjection(row) ==> forall p :: p in Grid(row) ==> p in measured
    requires InPlace(f, rows, out, from) && Cursor(out) == 0
    ensures InPlace(f, rows, RowShown(f, row, out).out, from) && Cursor(RowShown(f, row, out).out) == 0
  {
    var first := FirstPass(f, row, Grid(row), Screen(out, [], [], -1));
    UnderwayFirstPass(f, measured, threshold, rows, row, out, from, |Grid(row)|);
    assert Grid(row)[..|Grid(row)|] == Grid(row);
    var s := if f.ownLine then SecondPass(f, row, Grid(row), first) else first;
    if f.ownLine {
      UnderwaySecondPass(f, rows, row, Grid(row), first, from);
    }
    assert Payloads(BREAK) == [];
    InPlaceLayout(f, rows, s.out, from, BREAK);
    CursorBehindBreak(s.out);
    InPlaceFlushed(f, rows, s.out + BREAK, from, s.last, f.margin);
    InPlaceFlushed(f, rows, s.out + BREAK + Flushed(s.last, f.margin), from, s.between, 0);
  }

  // ---------- A table ----------

  lemma {:induction false} RowsInPlace(f: Format, measured: seq<Part>, threshold: nat, rows: seq<seq<Byte>>,
                                       more: seq<seq<Byte>>, out: seq<Chunk>, from: nat)
    requires Spaced(f) && Stops(f, measured, threshold) && forall row :: row in more ==> row in rows
    requires forall row, p :: row in more && !Interjection(row) && p in Grid(row) ==> p in measured
    requires InPlace(f, rows, out, from) && Cursor(out) == 0
    ensures InPlace(f, rows, RowsShown(f, more, out), from)
  {
    if more != [] {
      assert more[0] in more;
      RowInPlace(f, measured, threshold, rows, more[0], out, from);
      RowsInPlace(f, measured, threshold, rows, more[1..], RowShown(f, more[0], out).out, from);
    }
  }

  /**
    In a table that is laid out with a margin, every line that is printed,
    in both passes and of wrapped texts too, begins where it belongs.
  */
  lemma EveryLineInItsPlace(f: Format, rows: seq<seq<Byte>>, width: nat, threshold: nat, minWidth: int, ownWidth: int,
                            rightwidth: int, out: seq<Chunk>)
    requires f.Valid() && Cursor(out) == 0 && f.margin == width - rightwidth >= 0
    requires LaidOut(Measured(rows), width, threshold, minWidth, ownWidth, f.tabstop, f.lastcolumn, rightwidth,
                     f.ownLine)
    ensures InPlace(f, rows, RowsShown(f, rows, out), |out|)
  {
    StopsOfLayout(f, Measured(rows), width, threshold, minWidth, ownWidth, rightwidth);
    assert Spaced(f) by {
      assert Key(0);
    }
    forall row, p | row in rows && !Interjection(row) && p in Grid(row)
      ensures p in Measured(rows)
    {
      PartsAreMeasured(rows, row, p);
    }
    RowsInPlace(f, Measured(rows), threshold, rows, rows, out, |out|);
  }

  /** The text of a part written directly that is too wide to be measured. */
  ghost predicate TooWide(f: Format, rows: seq<seq<Byte>>, threshold: nat, column: nat, text: seq<Byte>)
    requires f.Valid()
  {
    exists row, p ::
      && row in rows && p in Grid(row) && Direct(f, row, p.column) && p.text == text && column == f.tabstop[p.column]
      && ScreenWidth(p) >= threshold
  }

  /** A text that belongs where it begins ends within the line. */
  lemma EndsWithin(f: Format, rows: seq<seq<Byte>>, width: nat, threshold: nat, minWidth: int, ownWidth: int,
                   rightwidth: int, column: nat, text: seq<Byte>)
    requires f.Valid() && f.margin == width - rightwidth && f.lastWidth == rightwidth && f.lineWidth <= width
    requires LaidOut(Measured(rows), width, threshold, minWidth, ownWidth, f.tabstop, f.lastcolumn, rightwidth,
                     f.ownLine)
    requires BelongsToSome(f, rows, column, text)
    ensures column + TextWidth(text) <= width || TooWide(f, rows, threshold, column, text)
  {
    var row :| row in rows && Belongs(f, row, column, text);
    PiecesAreNarrow(f, row, Grid(row), BOTH);
    if p :| p in Grid(row) && Direct(f, row, p.column) && p.text == text && column == f.tabstop[p.column] {
      if ScreenWidth(p) < threshold {
        PartsAreMeasured(rows, row, p);
        DirectEndsWithin(f, Measured(rows), width, threshold, minWidth, ownWidth, rightwidth, p);
      } else {
        assert TooWide(f, rows, threshold, column, text);
      }
    }
  }

  /** What is narrow enough to be measured ends where the next column begins. */
  lemma DirectEndsWithin(f: Format, measured: seq<Part>, width: nat, threshold: nat, minWidth: int, ownWidth: int,
                         rightwidth: int, p: Part)
    requires f.Valid() && p in measured && p.column < f.lastcolumn && ScreenWidth(p) < threshold
    requires LaidOut(measured, width, threshold, minWidth, ownWidth, f.tabstop, f.lastcolumn, rightwidth, f.ownLine)
    ensures f.tabstop[p.column] + ScreenWidth(p) <= width
  {
    ColumnWidthIsLeast(measured, p.column, threshold);
    assert Key(0);
    assert f.tabstop[p.column + 1] <= f.tabstop[f.lastcolumn];
  }

  lemma CursorBehindText(out: seq<Chunk>, i: nat)
    requires i < |out| && out[i].Payload?
    ensures Cursor(out[..i + 1]) == Cursor(out[..i]) + TextWidth(out[i].text)
  {
    assert out[..i + 1][..i] == out[..i];
  }

  /** Since `from`, nothing has been written past the right edge but what is too wide. */
  ghost predicate WithinEdge(f: Format, rows: seq<seq<Byte>>, width: nat, threshold: nat, shown: seq<Chunk>, from: nat)
    requires f.Valid()
  {
    forall i :: from <= i < |shown| && shown[i].Payload? ==>
      Cursor(shown[..i + 1]) <= width || TooWide(f, rows, threshold, Cursor(shown[..i]), shown[i].text)
  }

  /**
    If the last column has room for the widest characters, nothing in the table
    goes past the right edge but what is too wide to be measured.
  */
  lemma NothingPastTheEdge(f: Format, rows: seq<seq<Byte>>, width: nat, threshold: nat, minWidth: int, ownWidth: int,
                           rightwidth: int, out: seq<Chunk>)
    requires f.Valid() && Cursor(out) == 0 && f.margin == width - rightwidth
    requires f.lineWidth == (if width < 2 then 2 else width) && f.lastWidth == if rightwidth < 2 then 2 else rightwidth
    requires LaidOut(Measured(rows), width, threshold, minWidth, ownWidth, f.tabstop, f.lastcolumn, rightwidth,
                     f.ownLine)
    requires 2 <= rightwidth <= width
    ensures WithinEdge(f, rows, width, threshold, RowsShown(f, rows, out), |out|)
  {
    var shown := RowsShown(f, rows, out);
    EveryLineInItsPlace(f, rows, width, threshold, minWidth, ownWidth, rightwidth, out);
    forall i | |out| <= i < |shown| && shown[i].Payload?
      ensures Cursor(shown[..i + 1]) <= width || TooWide(f, rows, threshold, Cursor(shown[..i]), shown[i].text)
    {
      assert BelongsToSome(f, rows, Cursor(shown[..i]), shown[i].text);
      EndsWithin(f, rows, width, threshold, minWidth, ownWidth, rightwidth, Cursor(shown[..i]), shown[i].text);
      CursorBehindText(shown, i);
    }
  }
}
