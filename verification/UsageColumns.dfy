/**
  In which columns the texts of a table land.  The printer keeps track of the
  cursor itself, and loses it when a line break takes it back to column 0; that
  costs a line break at most, because every text still begins at its tab stop.
*/
module UsageColumns {
  import opened Basics
  import opened Utf8Width
  import opened HelpGrid
  import opened GreedyWrap
  import opened LineWrapper
  import opened Sequences
  import opened UsageLayout
  import opened UsageScreen

  /** Where the cursor really is behind what has been written. */
  function Cursor(out: seq<Chunk>): (column: nat) {
    if out == [] then 0 else
      var n := |out| - 1;
      match out[n]
      case Layout(text) => if text == [NEWLINE] then 0 else Cursor(out[..n]) + |text|
      case Payload(text) => Cursor(out[..n]) + TextWidth(text)
  }

  lemma CursorBehind(out: seq<Chunk>, c: Chunk)
    ensures Cursor(out + [c]) == match c
                                 case Layout(text) => if text == [NEWLINE] then 0 else Cursor(out) + |text|
                                 case Payload(text) => Cursor(out) + TextWidth(text)
  {
    assert (out + [c])[..|out|] == out;
  }

  lemma {:induction false} CursorBehindSpaces(out: seq<Chunk>, n: nat)
    ensures Cursor(out + Spaces(n)) == Cursor(out) + n
  {
    if n == 0 {
      assert out + [] == out;
    } else {
      CursorBehindSpaces(out, n - 1);
      CursorBehind(out + Spaces(n - 1), Layout([SPACE]));
      Associative(out, Spaces(n - 1), [Layout([SPACE])]);
    }
  }

  lemma CursorBehindBreak(out: seq<Chunk>)
    ensures Cursor(out + BREAK) == 0
  {
    CursorBehind(out, Layout([NEWLINE]));
  }

  /** Indentation relies on where the cursor is believed to be only if no new line is begun. */
  lemma CursorIndented(s: Screen, want: nat)
    ensures Cursor(Indented(s, want).out) == if want < s.x then want else Cursor(s.out) + want - s.x
  {
    var n := if want >= s.x then want - s.x else want;
    if want < s.x {
      Associative(s.out, BREAK, Spaces(n));
      CursorBehindBreak(s.out);
      CursorBehindSpaces(s.out + BREAK, n);
    } else {
      assert [] + Spaces(n) == Spaces(n);
      CursorBehindSpaces(s.out, n);
    }
  }

  /** Believed and real position stay the same, unless a line break leads to a tab stop at column 0. */
  lemma BelievedIsReal(s: Screen, want: nat)
    requires s.x == Cursor(s.out)
    ensures Indented(s, want).x == Cursor(Indented(s, want).out) <==> !(want == 0 && s.x > 0)
  {
    CursorIndented(s, want);
  }

  // ---------- Tab stops ----------

  /** The columns of a grid: each line goes from column to column. */
  lemma {:induction false} ColumnsFollow(row: seq<Byte>, line: nat, column: nat)
    ensures var g := GridFrom(row, line, column);
            FollowEachOther(g) && (g != [] ==> g[0].column == if column < |Cells(row)| then column else 0)
    decreases Height(row) - line, |Cells(row)| - column
  {
    if line < Height(row) {
      if column >= |Cells(row)| {
        ColumnsFollow(row, line + 1, 0);
      } else {
        var p, more := Part(column, line, PartText(row, column, line)), GridFrom(row, line, column + 1);
        ColumnsFollow(row, line, column + 1);
        OneMoreInFront(p, more);
        assert GridFrom(row, line, column) == [p] + more;
      }
    }
  }

  ghost predicate FollowEachOther(parts: seq<Part>) {
    forall k :: 1 <= k < |parts| ==> parts[k].column == 0 || parts[k].column == parts[k - 1].column + 1
  }

  lemma OneMoreInFront(p: Part, parts: seq<Part>)
    requires FollowEachOther(parts) && (parts != [] ==> parts[0].column == 0 || parts[0].column == p.column + 1)
    ensures FollowEachOther([p] + parts)
  {
  }

  /** The tab stops that the layout of `measured` determines, with what is left out from `threshold` on. */
  ghost predicate Stops(f: Format, measured: seq<Part>, threshold: nat) {
    && f.Valid() && f.tabstop[0] == 0
    && forall c :: 1 <= c < MAX_COLUMNS ==> f.tabstop[c] == f.tabstop[c - 1] + ColumnWidth(measured, c - 1, threshold)
  }

  /** They are those of the layout. */
  lemma StopsOfLayout(f: Format, measured: seq<Part>, width: nat, threshold: nat, minWidth: int, ownWidth: int,
                      rightwidth: int)
    requires f.Valid() && LaidOut(measured, width, threshold, minWidth, ownWidth, f.tabstop, f.lastcolumn, rightwidth,
                                  f.ownLine)
    ensures Stops(f, measured, threshold)
  {
    assert Key(0);
  }

  /**
    Behind a part written directly, the cursor is where it is believed to be,
    or it has been taken back to column 0 and is believed to be farther right
    than any column is wide.
  */
  ghost predicate TrackedBehind(f: Format, threshold: nat, p: Part, s: Screen)
    requires f.Valid() && p.column < MAX_COLUMNS
  {
    || s.x == Cursor(s.out) == f.tabstop[p.column] + ScreenWidth(p)
    || (f.tabstop[p.column] == 0 && s.x >= threshold && s.x > 0)
  }

  /** The first part of a line begins in column 0. */
  lemma FirstColumn(f: Format, measured: seq<Part>, threshold: nat, p: Part, s: Screen)
    requires Stops(f, measured, threshold) && p.column == 0 && (s.x < 0 ==> Cursor(s.out) == 0)
    ensures var begun := Begun(f, p, s);
            begun.x == Cursor(begun.out) == f.tabstop[p.column]
  {
    var front: seq<Chunk> := if s.x >= 0 then BREAK else [];
    var s1 := Shown(s, front).(x := 0);
    if s.x >= 0 {
      CursorBehindBreak(s.out);
    } else {
      assert s.out + [] == s.out;
    }
    CursorIndented(s1, 0);
  }

  /** The next one begins at its tab stop, wherever the cursor is believed to be. */
  lemma NextColumn(f: Format, measured: seq<Part>, threshold: nat, p: Part, next: Part, s: Screen)
    requires Stops(f, measured, threshold) && next.column == p.column + 1 <= f.lastcolumn
    requires p in measured && TrackedBehind(f, threshold, p, s)
    ensures var begun := Begun(f, next, s);
            && Cursor(begun.out) == f.tabstop[next.column]
            && (begun.x == f.tabstop[next.column]
                || (f.tabstop[next.column] == 0 && begun.x >= threshold && begun.x > 0))
  {
    ColumnWidthIsLeast(measured, p.column, threshold);
    CursorIndented(s, f.tabstop[next.column]);
    if threshold == 0 {
      NothingCounts(measured, p.column);
    }
  }

  lemma {:induction false} NothingCounts(parts: seq<Part>, column: nat)
    ensures ColumnWidth(parts, column, 0) == 0
  {
    if parts != [] {
      NothingCounts(parts[..|parts| - 1], column);
    }
  }

  lemma CursorBehindDirect(f: Format, row: seq<Byte>, p: Part, s: Screen)
    requires f.Valid() && p.column <= f.lastcolumn && Direct(f, row, p.column)
    ensures var begun, after := Begun(f, p, s), FirstShown(f, row, p, s);
            Cursor(after.out) == Cursor(begun.out) + ScreenWidth(p) && after.x == begun.x + ScreenWidth(p)
  {
    CursorBehind(Begun(f, p, s).out, Payload(p.text));
  }

  /** The part `k` of a row begins at its tab stop, and what follows it in the line can rely on that. */
  lemma {:induction false} LandsOnTabStop(f: Format, measured: seq<Part>, threshold: nat, row: seq<Byte>,
                                          out: seq<Chunk>, k: nat)
    requires Stops(f, measured, threshold) && Cursor(out) == 0 && k < |Grid(row)|
    requires !Interjection(row) ==> forall p :: p in Grid(row) ==> p in measured
    ensures var p, s := Grid(row)[k], FirstPass(f, row, Grid(row)[..k], Screen(out, [], [], -1));
            && (k > 0 ==> s.x >= 0)
            && (p.column <= f.lastcolumn ==> Cursor(Begun(f, p, s).out) == f.tabstop[p.column])
            && (p.column < f.lastcolumn && !Interjection(row) ==>
                  TrackedBehind(f, threshold, p, FirstShown(f, row, p, s)))
    decreases k
  {
    var grid, s0 := Grid(row), Screen(out, [], [], -1);
    var p, s := grid[k], FirstPass(f, row, grid[..k], s0);
    ColumnsFollow(row, 0, 0);
    if k > 0 {
      LandsOnTabStop(f, measured, threshold, row, out, k - 1);
      assert grid[..k][..k - 1] == grid[..k - 1];
      assert s == FirstShown(f, row, grid[k - 1], FirstPass(f, row, grid[..k - 1], s0));
      BelievedIsNatural(f, row, grid[k - 1], FirstPass(f, row, grid[..k - 1], s0));
    }
    if p.column == 0 {
      FirstColumn(f, measured, threshold, p, s);
    } else if p.column <= f.lastcolumn {
      LaterColumn(f, measured, threshold, row, k, s);
    }
    if p.column < f.lastcolumn && !Interjection(row) {
      CursorBehindDirect(f, row, p, s);
    }
  }

  lemma BelievedIsNatural(f: Format, row: seq<Byte>, p: Part, s: Screen)
    requires f.Valid() && (s.x >= 0 || p.column == 0)
    ensures FirstShown(f, row, p, s).x >= 0
  {
  }

  lemma LaterColumn(f: Format, measured: seq<Part>, threshold: nat, row: seq<Byte>, k: nat, s: Screen)
    requires Stops(f, measured, threshold) && 0 < k < |Grid(row)|
    requires 0 < Grid(row)[k].column <= f.lastcolumn && Grid(row)[k].column == Grid(row)[k - 1].column + 1
    requires !Interjection(row) ==> TrackedBehind(f, threshold, Grid(row)[k - 1], s)
                                    && forall p :: p in Grid(row) ==> p in measured
    ensures var begun := Begun(f, Grid(row)[k], s);
            && Cursor(begun.out) == f.tabstop[Grid(row)[k].column]
            && (begun.x == f.tabstop[Grid(row)[k].column]
                || (f.tabstop[Grid(row)[k].column] == 0 && begun.x >= threshold && begun.x > 0))
  {
    if Interjection(row) {
      InterjectionIsOnePart(row);
    } else {
      assert Grid(row)[k - 1] in Grid(row);
      NextColumn(f, measured, threshold, Grid(row)[k - 1], Grid(row)[k], s);
    }
  }

  /** All parts of the rows that take part in the layout are measured. */
  lemma {:induction false} PartsAreMeasured(rows: seq<seq<Byte>>, row: seq<Byte>, p: Part)
    requires row in rows && !Interjection(row) && p in Grid(row)
    ensures p in Measured(rows)
  {
    if rows[0] == row {
      InEither(p, Grid(row), Measured(rows[1..]));
    } else {
      PartsAreMeasured(rows[1..], row, p);
      InEither(p, if Interjection(rows[0]) then [] else Grid(rows[0]), Measured(rows[1..]));
    }
  }

  /** Behind a row, the cursor is at the beginning of a line. */
  lemma RowEndsALine(f: Format, row: seq<Byte>, out: seq<Chunk>)
    requires f.Valid()
    ensures Cursor(RowShown(f, row, out).out) == 0
  {
    var first := FirstPass(f, row, Grid(row), Screen(out, [], [], -1));
    var s := if f.ownLine then SecondPass(f, row, Grid(row), first) else first;
    CursorBehindBreak(s.out);
    FlushEndsALine(s.out + BREAK, s.last, f.margin);
    FlushEndsALine(s.out + BREAK + Flushed(s.last, f.margin), s.between, 0);
  }

  lemma FlushEndsALine(out: seq<Chunk>, queue: seq<seq<Byte>>, x: int)
    requires Cursor(out) == 0
    ensures Cursor(out + Flushed(queue, x)) == 0
  {
    if queue == [] {
      assert out + [] == out;
    } else {
      JoinedThrice(out, Margin(x), Block(queue, x), BREAK);
      CursorBehindBreak(out + Margin(x) + Block(queue, x));
    }
  }

  /**
    In a table that is laid out, every text of the first pass begins at the tab
    stop of its column, in every row and line.
  */
  lemma {:induction false} EveryTextAtItsTabStop(f: Format, rows: seq<seq<Byte>>, width: nat, threshold: nat,
                                                 minWidth: int,
                                                 ownWidth: int, rightwidth: int, out: seq<Chunk>, r: nat, k: nat)
    requires f.Valid() && Cursor(out) == 0 && r < |rows| && k < |Grid(rows[r])|
             && Grid(rows[r])[k].column <= f.lastcolumn
    requires LaidOut(Measured(rows), width, threshold, minWidth, ownWidth, f.tabstop, f.lastcolumn, rightwidth,
                     f.ownLine)
    ensures var row := rows[r];
            var s := FirstPass(f, row, Grid(row)[..k], Screen(RowsShown(f, rows[..r], out), [], [], -1));
            Cursor(Begun(f, Grid(row)[k], s).out) == f.tabstop[Grid(row)[k].column]
  {
    StopsOfLayout(f, Measured(rows), width, threshold, minWidth, ownWidth, rightwidth);
    RowsEndALine(f, rows[..r], out);
    assert rows[r] in rows;
    if !Interjection(rows[r]) {
      forall p | p in Grid(rows[r])
        ensures p in Measured(rows)
      {
        PartsAreMeasured(rows, rows[r], p);
      }
    }
    LandsOnTabStop(f, Measured(rows), threshold, rows[r], RowsShown(f, rows[..r], out), k);
  }

  lemma {:induction false} RowsEndALine(f: Format, rows: seq<seq<Byte>>, out: seq<Chunk>)
    requires f.Valid() && Cursor(out) == 0
    ensures Cursor(RowsShown(f, rows, out)) == 0
  {
    if rows != [] {
      RowEndsALine(f, rows[0], out);
      RowsEndALine(f, rows[1..], RowShown(f, rows[0], out).out);
    }
  }

  /** The rows are shown one after the other. */
  lemma {:induction false} RowsInTurn(f: Format, rows: seq<seq<Byte>>, r: nat, out: seq<Chunk>)
    requires f.Valid() && r <= |rows|
    ensures RowsShown(f, rows, out) == RowsShown(f, rows[r..], RowsShown(f, rows[..r], out))
    decreases r
  {
    if r > 0 {
      RowsInTurn(f, rows[1..], r - 1, RowShown(f, rows[0], out).out);
      assert rows[..r][1..] == rows[1..][..r - 1] && rows[1..][r - 1..] == rows[r..];
    } else {
      assert rows[0..] == rows;
    }
  }
}
