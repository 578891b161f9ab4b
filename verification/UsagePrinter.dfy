/**
  Printing a table of help texts in its layout: cells to the left of the last
  column are written at their tab stops, the last column and interjections go
  through line wrappers.
*/
module UsagePrinter {
  import opened Basics
  import opened Utf8Width
  import opened HelpGrid
  import opened GreedyWrap
  import opened LineParts
  import opened LineWrapper
  import opened Sequences
  import opened UsageLayout
  import opened UsageScreen
  import opened UsageColumns
  import opened UsageEdge
  import opened UsageLines

  /** The writer and the two wrappers that a table is printed with. */
  class Printer {
    const w: Writer
    const last: LineWrapper
    const interjections: LineWrapper
    const format: Format

    ghost predicate Valid()
      reads w, last, last.lenbuf, last.datbuf, interjections, interjections.lenbuf, interjections.datbuf
    {
      format.Valid() && forall k {:trigger Key(k)} :: Key(k) ==>
        && last.Valid() && interjections.Valid()
        && last.width == format.lastWidth && interjections.width == format.lineWidth
        && last.x == format.margin && interjections.x == 0
        && last.Repr() !! interjections.Repr() && w !in last.Repr() + interjections.Repr()
    }

    /** The screen, with the cursor believed to be in column `x`. */
    ghost function State(x: int): Screen
      reads w, last, interjections
    {
      Screen(w.out, last.queue, interjections.queue, x)
    }

    constructor (w: Writer, format: Format, width: int, rightwidth: int)
      requires format.Valid() && format.margin == width - rightwidth
      requires format.lineWidth == if width < 2 then 2 else width
      requires format.lastWidth == if rightwidth < 2 then 2 else rightwidth
      ensures Valid() && this.w == w && this.format == format && fresh(last.Repr()) && fresh(interjections.Repr())
      ensures last.queue == [] && interjections.queue == []
    {
      this.w := w;
      this.format := format;
      this.last := new LineWrapper(width - rightwidth, width);
      this.interjections := new LineWrapper(0, width);
    }

    method WriteNewline()
      requires Valid()
      modifies w
      ensures Valid() && forall x :: State(x) == Shown(old(State(x)), BREAK)
    {
      assert Key(0);
      w.Write(Layout([NEWLINE]));
    }

    method IndentTo(x0: int, want: int) returns (x: int)
      requires Valid()
      modifies w
      ensures Valid() && State(x) == Indented(old(State(x0)), want)
    {
      assert Key(0);
      x := Indent(w, x0, want);
    }

    method WriteDirectly(text: seq<Byte>)
      requires Valid()
      modifies w
      ensures Valid() && forall x :: State(x) == Shown(old(State(x)), [Payload(text)])
    {
      assert Key(0);
      w.Write(Payload(text));
    }

    /** Hands a text to the wrapper of the last column. */
    method WriteLast(text: seq<Byte>, ghost x: int)
      requires Valid() && Printable(text)
      modifies w, last, last.lenbuf, last.datbuf
      ensures Valid() && State(x) == IntoLast(old(State(x)), Wrap(text, 0, format.lastWidth), format.margin)
    {
      assert Key(0);
      last.Process(w, text);
    }

    /** Hands a text to the wrapper that has the whole line. */
    method WriteInterjection(text: seq<Byte>, ghost x: int)
      requires Valid() && Printable(text)
      modifies w, interjections, interjections.lenbuf, interjections.datbuf
      ensures Valid() && State(x) == IntoBetween(old(State(x)), Wrap(text, 0, format.lineWidth))
    {
      assert Key(0);
      interjections.Process(w, text);
    }

    /** At the end of a row the line is broken, and both wrappers are emptied. */
    method EndRow(ghost x: int)
      requires Valid()
      modifies w, last, last.lenbuf, last.datbuf, interjections, interjections.lenbuf, interjections.datbuf
      ensures Valid() && State(x) == RowEnded(format, old(State(x)))
    {
      WriteNewline();
      FlushBoth();
    }

    method FlushBoth()
      requires Valid()
      modifies w, last, last.lenbuf, last.datbuf, interjections, interjections.lenbuf, interjections.datbuf
      ensures Valid() && last.queue == [] && interjections.queue == []
      ensures w.out == old(w.out + Flushed(last.queue, format.margin) + Flushed(interjections.queue, 0))
    {
      assert Key(0);
      last.Flush(w);
      interjections.Flush(w);
    }

    /** The text that the iterator stands at. */
    method TextOf(part: LinePartIterator, ghost row: seq<Byte>, ghost parts: seq<Part>) returns (text: seq<Byte>)
      requires part.AtPart(row, parts)
      ensures parts != [] && text == parts[0].text && Printable(text)
      ensures part.col >= 0 && parts[0].column == part.col && part.screenlen == ScreenWidth(parts[0])
    {
      PartFacts(part, row, parts);
      WidthOfPart(part, row, parts);
      SliceFront(part.Text(), part.ptr.value, part.len, RowEnd(part.Text(), part.rowstart.value));
      text := part.helps[part.rowdesc.value].value[part.ptr.value..part.ptr.value + part.len];
    }

    /** Goes to the tab stop of a part. */
    method Begin(col: nat, x0: int, ghost p: Part) returns (x: int)
      requires Valid() && p.column == col <= format.lastcolumn
      modifies w
      ensures Valid() && State(x) == Begun(format, p, old(State(x0)))
    {
      x := x0;
      if col == 0 {
        if x >= 0 {
          WriteNewline();
        } else {
          assert w.out + [] == w.out;
        }
        x := 0;
      }
      x := IndentTo(x, format.tabstop[col]);
    }

    /** Prints the part that the iterator stands at, in the first pass; `x0` is the column of the cursor. */
    method PrintPart(part: LinePartIterator, x0: int, ghost row: seq<Byte>, ghost parts: seq<Part>) returns (x: int)
      requires Valid() && part.AtPart(row, parts)
      modifies w, last, last.lenbuf, last.datbuf, interjections, interjections.lenbuf, interjections.datbuf
      ensures Valid() && parts != [] && State(x) == FirstShown(format, row, parts[0], old(State(x0)))
    {
      x := x0;
      var text := TextOf(part, row, parts);
      if part.col > format.lastcolumn {
        return;
      }
      x := Begin(part.col, x, parts[0]);
      var measured := IsMeasured(part, row, parts);
      if part.col < format.lastcolumn && measured {
        WriteDirectly(text);
        x := x + part.screenlen;
      } else if !format.ownLine || part.col != format.lastcolumn {
        if part.col == 0 {
          WriteInterjection(text, x);
        } else {
          WriteLast(text, x);
        }
      }
    }

    /** Prints the part that the iterator stands at behind those of `read`, and moves to the next one. */
    method PrintAndMove(part: LinePartIterator, x0: int, ghost row: seq<Byte>, ghost parts: seq<Part>,
                        ghost rows: seq<seq<Byte>>,
                        ghost read: seq<Part>, ghost s: Screen) returns (x: int, more: bool)
      requires Valid() && parts != [] && part.AtPart(row, parts) && part.InRow(row, parts[1..], rows)
      requires State(x0) == FirstPass(format, row, read, s)
      modifies part, w, last, last.lenbuf, last.datbuf, interjections, interjections.lenbuf, interjections.datbuf
      ensures Valid() && part.tablestart == old(part.tablestart)
      ensures State(x) == FirstPass(format, row, read + [parts[0]], s)
      ensures (more <==> parts[1..] != []) && part.InRow(row, if more then parts[1..][1..] else [], rows)
      ensures more ==> part.AtPart(row, parts[1..])
    {
      x := PrintPart(part, x0, row, parts);
      assert (read + [parts[0]])[..|read|] == read;
      more := part.Next(row, parts[1..], rows);
    }

    /** Prints the parts of a row but for a last column that goes on lines of its own. */
    method FirstPassOver(part: LinePartIterator, ghost row: seq<Byte>, ghost rows: seq<seq<Byte>>)
          returns (ghost x: int)
      requires Valid() && part.InRow(row, Grid(row), rows) && last.queue == [] && interjections.queue == []
      modifies part, w, last, last.lenbuf, last.datbuf, interjections, interjections.lenbuf, interjections.datbuf
      ensures Valid() && part.tablestart == old(part.tablestart) && part.InRow(row, [], rows)
      ensures State(x) == FirstPass(format, row, Grid(row), Screen(old(w.out), [], [], -1))
    {
      var x1 := -1;
      ghost var ahead, read, s := Grid(row), [], State(-1);
      var more := part.Next(row, ahead, rows);
      while more
        invariant Valid() && part.tablestart == old(part.tablestart)
        invariant (more <==> ahead != []) && part.InRow(row, if more then ahead[1..] else [], rows)
        invariant more ==> part.AtPart(row, ahead)
        invariant read + ahead == Grid(row) && State(x1) == FirstPass(format, row, read, s)
        decreases |ahead|
      {
        HeadMoves(read, ahead);
        x1, more := PrintAndMove(part, x1, row, ahead, rows, read, s);
        read, ahead := read + [ahead[0]], ahead[1..];
      }
      assert read + [] == read;
      x := x1;
    }

    /** Prints the part that the iterator stands at, in the second pass. */
    method PrintLast(part: LinePartIterator, ghost row: seq<Byte>, ghost parts: seq<Part>, ghost x: int)
      requires Valid() && format.ownLine && part.AtPart(row, parts)
      modifies w, last, last.lenbuf, last.datbuf
      ensures Valid() && parts != [] && State(x) == SecondShown(format, row, parts[0], old(State(x)))
    {
      var text := TextOf(part, row, parts);
      if part.col == format.lastcolumn {
        WriteNewline();
        var _ := IndentTo(0, format.margin);
        WriteLast(text, x);
      }
    }

    method PrintLastAndMove(part: LinePartIterator, ghost row: seq<Byte>, ghost parts: seq<Part>,
                            ghost rows: seq<seq<Byte>>,
                            ghost read: seq<Part>, ghost s: Screen, ghost x: int) returns (more: bool)
      requires Valid() && format.ownLine && parts != [] && part.AtPart(row, parts) && part.InRow(row, parts[1..], rows)
      requires State(x) == SecondPass(format, row, read, s)
      modifies part, w, last, last.lenbuf, last.datbuf
      ensures Valid() && part.tablestart == old(part.tablestart)
      ensures State(x) == SecondPass(format, row, read + [parts[0]], s)
      ensures (more <==> parts[1..] != []) && part.InRow(row, if more then parts[1..][1..] else [], rows)
      ensures more ==> part.AtPart(row, parts[1..])
    {
      PrintLast(part, row, parts, x);
      assert (read + [parts[0]])[..|read|] == read;
      more := part.Next(row, parts[1..], rows);
    }

    /** Prints the last column of a row, every part on a line of its own behind the margin. */
    method SecondPassOver(part: LinePartIterator, ghost row: seq<Byte>, ghost rows: seq<seq<Byte>>, ghost x: int)
      requires Valid() && format.ownLine && part.InRow(row, [], rows)
      modifies part, w, last, last.lenbuf, last.datbuf
      ensures Valid() && part.tablestart == old(part.tablestart) && part.InRow(row, [], rows)
      ensures State(x) == SecondPass(format, row, Grid(row), old(State(x)))
    {
      part.BeginAgain(row, [], rows);
      ghost var ahead, read, s := Grid(row), [], State(x);
      var more := part.Next(row, ahead, rows);
      while more
        invariant Valid() && part.tablestart == old(part.tablestart)
        invariant (more <==> ahead != []) && part.InRow(row, if more then ahead[1..] else [], rows)
        invariant more ==> part.AtPart(row, ahead)
        invariant read + ahead == Grid(row) && State(x) == SecondPass(format, row, read, s)
        decreases |ahead|
      {
        HeadMoves(read, ahead);
        more := PrintLastAndMove(part, row, ahead, rows, read, s, x);
        read, ahead := read + [ahead[0]], ahead[1..];
      }
      assert read + [] == read;
    }

    /** Prints a row; nothing of it stays queued. */
    method PrintRow(part: LinePartIterator, ghost row: seq<Byte>, ghost rows: seq<seq<Byte>>)
      requires Valid() && part.InRow(row, Grid(row), rows) && last.queue == [] && interjections.queue == []
      modifies part, w, last, last.lenbuf, last.datbuf, interjections, interjections.lenbuf, interjections.datbuf
      ensures Valid() && part.tablestart == old(part.tablestart) && part.Upcoming(rows)
      ensures last.queue == [] && interjections.queue == [] && w.out == RowShown(format, row, old(w.out)).out
    {
      ghost var x := FirstPassOver(part, row, rows);
      if format.ownLine {
        SecondPassOver(part, row, rows, x);
      }
      EndRow(x);
      part.BehindRow(row, [], rows);
    }

    /** Prints the first of the rows still to come, and moves to the next one. */
    method PrintRowAndMove(part: LinePartIterator, ghost rows: seq<seq<Byte>>) returns (more: bool)
      requires Valid() && rows != [] && part.InRow(rows[0], Grid(rows[0]), rows[1..])
      requires last.queue == [] && interjections.queue == []
      modifies part, w, last, last.lenbuf, last.datbuf, interjections, interjections.lenbuf, interjections.datbuf
      ensures Valid() && part.tablestart == old(part.tablestart)
      ensures last.queue == [] && interjections.queue == [] && w.out == RowShown(format, rows[0], old(w.out)).out
      ensures more <==> rows[1..] != []
      ensures if more then part.InRow(rows[1..][0], Grid(rows[1..][0]), rows[1..][1..]) else part.Upcoming([])
    {
      PrintRow(part, rows[0], rows[1..]);
      more := part.NextRow(rows[1..]);
    }

    /** Prints the rows of the table. */
    method PrintRows(part: LinePartIterator)
      requires Valid() && Readable(part.helps) && last.queue == [] && interjections.queue == []
      modifies part, w, last, last.lenbuf, last.datbuf, interjections, interjections.lenbuf, interjections.datbuf
      ensures Valid() && part.tablestart == old(part.tablestart) && part.Upcoming([])
      ensures w.out == RowsShown(format, Rows(part.helps, part.tablestart), old(w.out))
    {
      part.RestartTable();
      ghost var rows := Rows(part.helps, part.tablestart);
      var more := part.NextRow(rows);
      while more
        invariant Valid() && part.tablestart == old(part.tablestart)
        invariant more <==> rows != []
        invariant if more then part.InRow(rows[0], Grid(rows[0]), rows[1..]) else part.Upcoming([])
        invariant last.queue == [] && interjections.queue == []
        invariant RowsShown(format, rows, w.out) == RowsShown(format, Rows(part.helps, part.tablestart), old(w.out))
        decreases |rows|
      {
        more := PrintRowAndMove(part, rows);
        rows := rows[1..];
      }
    }
  }

  /** The format comes from the layout of the table that begins at descriptor `start`. */
  ghost predicate IsFormatOf(helps: Helps, start: nat, consoleWidth: int, minPercent: int, ownLinePercent: int,
                             f: Format) {
    var width := LineWidth(consoleWidth);
    && f.lineWidth == (if width < 2 then 2 else width)
    && exists threshold, rightwidth ::
         && LaidOut(Measured(Rows(helps, start)), width, threshold, PercentOf(width, minPercent),
                    OwnLineWidth(width, ownLinePercent), f.tabstop, f.lastcolumn, rightwidth, f.ownLine)
         && f.lastWidth == (if rightwidth < 2 then 2 else rightwidth) && f.margin == width - rightwidth
  }

  /** In the format that its layout gives it, every text of a table begins at the tab stop of its column. */
  lemma TextsAtTabStops(helps: Helps, start: nat, consoleWidth: int, minPercent: int, ownLinePercent: int, f: Format,
                        out: seq<Chunk>, r: nat, k: nat)
    requires f.Valid() && IsFormatOf(helps, start, consoleWidth, minPercent, ownLinePercent, f) && Cursor(out) == 0
    requires r < |Rows(helps, start)| && k < |Grid(Rows(helps, start)[r])|
    requires Grid(Rows(helps, start)[r])[k].column <= f.lastcolumn
    ensures var rows := Rows(helps, start);
            var s := FirstPass(f, rows[r], Grid(rows[r])[..k], Screen(RowsShown(f, rows[..r], out), [], [], -1));
            Cursor(Begun(f, Grid(rows[r])[k], s).out) == f.tabstop[Grid(rows[r])[k].column]
  {
    var width, rows := LineWidth(consoleWidth), Rows(helps, start);
    var threshold, rightwidth :| LaidOut(Measured(rows), width, threshold, PercentOf(width, minPercent),
                                         OwnLineWidth(width, ownLinePercent), f.tabstop, f.lastcolumn, rightwidth,
                                         f.ownLine);
    EveryTextAtItsTabStop(f, rows, width, threshold, PercentOf(width, minPercent), OwnLineWidth(width, ownLinePercent),
                          rightwidth, out, r, k);
  }

  /**
    In that format, every line of a table begins where it belongs, and if there
    are two columns of the screen to the right of the margin, nothing goes past
    the edge of the screen but what is too wide to be measured.
  */
  lemma LinesStayWithin(helps: Helps, start: nat, consoleWidth: int, minPercent: int, ownLinePercent: int, f: Format,
                        out: seq<Chunk>, threshold: nat)
    requires f.Valid() && IsFormatOf(helps, start, consoleWidth, minPercent, ownLinePercent, f) && Cursor(out) == 0
    requires f.margin >= 0 && BestThreshold(Measured(Rows(helps, start)), LineWidth(consoleWidth), threshold)
    ensures var width, rows := LineWidth(consoleWidth), Rows(helps, start);
            var shown := RowsShown(f, rows, out);
            && InPlace(f, rows, shown, |out|)
            && (width - f.margin >= 2 ==> WithinEdge(f, rows, width, threshold, shown, |out|))
  {
    var width, rows := LineWidth(consoleWidth), Rows(helps, start);
    var t: nat, rightwidth: int :| LaidOut(Measured(rows), width, t, PercentOf(width, minPercent),
                                           OwnLineWidth(width, ownLinePercent), f.tabstop, f.lastcolumn, rightwidth,
                                           f.ownLine)
                                   && f.lastWidth == (if rightwidth < 2 then 2 else rightwidth)
                                   && f.margin == width - rightwidth;
    assert t == threshold by {
      assert Key(0);
      BestIsUnique(Measured(rows), width, t, threshold);
    }
    EveryLineInItsPlace(f, rows, width, threshold, PercentOf(width, minPercent), OwnLineWidth(width, ownLinePercent),
                        rightwidth, out);
    if rightwidth >= 2 {
      NothingPastTheEdge(f, rows, width, threshold, PercentOf(width, minPercent), OwnLineWidth(width, ownLinePercent),
                         rightwidth, out);
    }
  }

  /**
    In that format, a line of a row's grid is a line of the screen: a part
    begins on the line of the first part of its line, as long as the texts
    between them are narrow enough to be measured.
  */
  lemma GridLinesStayTogether(helps: Helps, start: nat, consoleWidth: int, minPercent: int, ownLinePercent: int,
                              f: Format, out: seq<Chunk>, threshold: nat, r: nat, k: nat)
    requires f.Valid() && IsFormatOf(helps, start, consoleWidth, minPercent, ownLinePercent, f)
    requires BestThreshold(Measured(Rows(helps, start)), LineWidth(consoleWidth), threshold)
    requires r < |Rows(helps, start)| && k < |Grid(Rows(helps, start)[r])|
    requires var grid := Grid(Rows(helps, start)[r]); grid[k].column <= f.lastcolumn && NarrowLeft(grid, k, threshold)
    ensures var row, before := Rows(helps, start)[r], RowsShown(f, Rows(helps, start)[..r], out);
            var first := k - Grid(row)[k].column;
            && Grid(row)[first].column == 0
            && LineOfPart(f, row, before, k) == LineOfPart(f, row, before, first)
  {
    var width, rows := LineWidth(consoleWidth), Rows(helps, start);
    var t: nat, rightwidth: int :| LaidOut(Measured(rows), width, t, PercentOf(width, minPercent),
                                           OwnLineWidth(width, ownLinePercent), f.tabstop, f.lastcolumn, rightwidth,
                                           f.ownLine);
    assert t == threshold by {
      assert Key(0);
      BestIsUnique(Measured(rows), width, t, threshold);
    }
    StopsOfLayout(f, Measured(rows), width, threshold, PercentOf(width, minPercent),
                  OwnLineWidth(width, ownLinePercent), rightwidth);
    if !Interjection(rows[r]) {
      forall p | p in Grid(rows[r])
        ensures p in Measured(rows)
      {
        PartsAreMeasured(rows, rows[r], p);
      }
    }
    LinesStayTogether(f, Measured(rows), threshold, rows[r], RowsShown(f, rows[..r], out), k);
  }

  /** Lays a table out and prints it, row after row. */
  method PrintTable(part: LinePartIterator, w: Writer, consoleWidth: int, minPercent: int, ownLinePercent: int)
      returns (format: Format)
    requires Readable(part.helps)
    modifies part, w
    ensures part.tablestart == old(part.tablestart) && part.rowdesc != Nothing && format.Valid()
    ensures w.out == RowsShown(format, Rows(part.helps, part.tablestart), old(w.out))
    ensures IsFormatOf(part.helps, part.tablestart, consoleWidth, minPercent, ownLinePercent, format)
  {
    var tabstop, lastcolumn, rightwidth, ownLine, threshold := LayOut(part, consoleWidth, minPercent, ownLinePercent);
    var width := LineWidth(consoleWidth);
    format := Format(tabstop[..], lastcolumn, ownLine, if width < 2 then 2 else width,
                     if rightwidth < 2 then 2 else rightwidth, width - rightwidth);
    var printer := new Printer(w, format, width, rightwidth);
    printer.PrintRows(part);
    part.InSomeTable([]);
  }

  /** All tables, each in its own format. */
  function UsageShown(helps: Helps, starts: seq<nat>, formats: seq<Format>, out: seq<Chunk>): seq<Chunk>
    requires |formats| == |starts| && forall f :: f in formats ==> f.Valid()
  {
    if starts == [] then out else
      var n := |starts| - 1;
      RowsShown(formats[n], Rows(helps, starts[n]), UsageShown(helps, starts[..n], formats[..n], out))
  }

  lemma UsageShownMore(helps: Helps, starts: seq<nat>, formats: seq<Format>, start: nat, f: Format, out: seq<Chunk>)
    requires |formats| == |starts| && f.Valid() && forall f :: f in formats ==> f.Valid()
    ensures UsageShown(helps, starts + [start], formats + [f], out)
            == RowsShown(f, Rows(helps, start), UsageShown(helps, starts, formats, out))
  {
    assert (starts + [start])[..|starts|] == starts && (formats + [f])[..|formats|] == formats;
  }

  /** What is printed of all tables: table after table, and row after row in each. */
  ghost predicate PrintedTables(helps: Helps, starts: seq<nat>, formats: seq<Format>, printed: seq<seq<seq<seq<Byte>>>>)
    requires |formats| == |starts| && forall f :: f in formats ==> f.Valid()
  {
    |printed| == |starts|
    && forall i :: 0 <= i < |starts| ==> PrintedRows(formats[i], Rows(helps, starts[i]), printed[i])
  }

  /** The payload that is written: all texts of all tables in order, none of them lost or repeated. */
  lemma {:induction false} UsageIsPrinted(helps: Helps, starts: seq<nat>, formats: seq<Format>, out: seq<Chunk>)
      returns (printed: seq<seq<seq<seq<Byte>>>>)
    requires |formats| == |starts| && forall f :: f in formats ==> f.Valid()
    ensures PrintedTables(helps, starts, formats, printed)
    ensures Payloads(UsageShown(helps, starts, formats, out)) == Payloads(out) + Flat(Flat(printed))
  {
    if starts == [] {
      printed := [];
      assert Payloads(out) + [] == Payloads(out);
    } else {
      var n := |starts| - 1;
      var before := UsageIsPrinted(helps, starts[..n], formats[..n], out);
      var table := TableIsPrinted(formats[n], Rows(helps, starts[n]),
                                  UsageShown(helps, starts[..n], formats[..n], out));
      printed := before + [table];
      FlatMore(before, table);
      FlatJoin(Flat(before), table);
      Associative(Payloads(out), Flat(Flat(before)), Flat(table));
      OneMoreTable(helps, starts, formats, before, table);
    }
  }

  lemma OneMoreTable(helps: Helps, starts: seq<nat>, formats: seq<Format>, before: seq<seq<seq<seq<Byte>>>>,
                     table: seq<seq<seq<Byte>>>)
    requires |formats| == |starts| > 0 && forall f :: f in formats ==> f.Valid()
    requires PrintedTables(helps, starts[..|starts| - 1], formats[..|starts| - 1], before)
    requires PrintedRows(formats[|starts| - 1], Rows(helps, starts[|starts| - 1]), table)
    ensures PrintedTables(helps, starts, formats, before + [table])
  {
  }

  lemma {:induction false} FlatJoin<T>(a: seq<seq<T>>, b: seq<seq<T>>)
    ensures Flat(a + b) == Flat(a) + Flat(b)
  {
    if a == [] {
      assert a + b == b;
    } else {
      FlatJoin(a[1..], b);
      assert (a + b)[1..] == a[1..] + b;
      Associative(a[0], Flat(a[1..]), Flat(b));
    }
  }

  lemma FlatMore<T>(a: seq<seq<T>>, b: seq<T>)
    ensures Flat(a + [b]) == Flat(a) + b
  {
    FlatJoin(a, [b]);
    assert [b][1..] == [] && b + [] == b;
  }

  /** Every table has the format that its own layout gives it. */
  ghost predicate AreFormatsOf(helps: Helps, starts: seq<nat>, consoleWidth: int, minPercent: int, ownLinePercent: int,
                               formats: seq<Format>) {
    |formats| == |starts| && forall k {:trigger Key(k)} :: Key(k) ==>
      forall i :: 0 <= i < |formats| ==>
      IsFormatOf(helps, starts[i], consoleWidth, minPercent, ownLinePercent, formats[i])
  }

  lemma OneMoreFormat(helps: Helps, starts: seq<nat>, consoleWidth: int, minPercent: int, ownLinePercent: int,
                      formats: seq<Format>, start: nat, f: Format)
    requires AreFormatsOf(helps, starts, consoleWidth, minPercent, ownLinePercent, formats)
    requires IsFormatOf(helps, start, consoleWidth, minPercent, ownLinePercent, f)
    ensures AreFormatsOf(helps, starts + [start], consoleWidth, minPercent, ownLinePercent, formats + [f])
  {
    assert Key(0);
  }

  /** Prints all tables, one after the other. */
  method PrintUsage(helps: Helps, w: Writer, consoleWidth: int, minPercent: int, ownLinePercent: int)
        returns (formats: seq<Format>)
    requires Readable(helps)
    modifies w
    ensures |formats| == |Tables(helps, 0)| && forall f :: f in formats ==> f.Valid()
    ensures AreFormatsOf(helps, Tables(helps, 0), consoleWidth, minPercent, ownLinePercent, formats)
    ensures w.out == UsageShown(helps, Tables(helps, 0), formats, old(w.out))
  {
    var part := new LinePartIterator(helps);
    formats := [];
    ghost var starts: seq<nat>, from := [], 0;
    var more := part.NextTable();
    while more
      invariant part.helps == helps && AtTable(part, from, more) && fresh(part)
      invariant starts + Tables(helps, from) == Tables(helps, 0)
      invariant |formats| == |starts| && forall f :: f in formats ==> f.Valid()
      invariant AreFormatsOf(helps, starts, consoleWidth, minPercent, ownLinePercent, formats)
      invariant w.out == UsageShown(helps, starts, formats, old(w.out))
      decreases |helps| - part.tablestart
    {
      ghost var t := part.tablestart;
      var f;
      f, more := PrintTableAndMove(part, w, consoleWidth, minPercent, ownLinePercent, from);
      UsageShownMore(helps, starts, formats, t, f, old(w.out));
      OneMoreFormat(helps, starts, consoleWidth, minPercent, ownLinePercent, formats, t, f);
      ghost var next := NextWhere(helps, t, false);
      Associative(starts, [t], Tables(helps, next));
      starts, formats, from := starts + [t], formats + [f], next;
    }
    assert starts + [] == starts;
  }

  /** The iterator is at the first table from `from` on, or at the end. */
  ghost predicate AtTable(part: LinePartIterator, from: nat, more: bool)
    reads part
  {
    && from <= |part.helps| && part.tablestart == NextWhere(part.helps, from, true) && part.rowdesc != Nothing
    && (more <==> part.tablestart < |part.helps|)
  }

  /** Prints a table, and moves to the next one, which begins behind it. */
  method PrintTableAndMove(part: LinePartIterator, w: Writer, consoleWidth: int, minPercent: int, ownLinePercent: int,
                           ghost from: nat) returns (f: Format, more: bool)
    requires Readable(part.helps) && AtTable(part, from, true)
    modifies part, w
    ensures AtTable(part, NextWhere(part.helps, old(part.tablestart), false), more) && f.Valid()
    ensures IsFormatOf(part.helps, old(part.tablestart), consoleWidth, minPercent, ownLinePercent, f)
    ensures part.tablestart > old(part.tablestart)
    ensures w.out == RowsShown(f, Rows(part.helps, old(part.tablestart)), old(w.out))
  {
    f := PrintTable(part, w, consoleWidth, minPercent, ownLinePercent);
    more := part.NextTable();
  }
}
