/**
  The layout of a table of help texts: how wide its columns are, and where the
  last column goes.  Parts that are too wide are left out of the computation
  until the columns to the left of the last one fit on a line.
*/
module UsageLayout {
  import opened Basics
  import opened Utf8Width
  import opened HelpGrid
  import opened LineParts
  import opened Sequences

  const MAX_COLUMNS: nat := 8
  const NO_LIMIT: nat := 10000

  /** A row without separators, which does not take part in the table's layout. */
  predicate Interjection(row: seq<Byte>) {
    TAB !in row && VTAB !in row
  }

  /** The parts that take part in the layout. */
  function Measured(rows: seq<seq<Byte>>): (parts: seq<Part>) {
    if rows == [] then []
    else (if Interjection(rows[0]) then [] else Grid(rows[0])) + Measured(rows[1..])
  }

  /** The screen columns that a text takes (help texts are printable, so that there is always an answer). */
  function TextWidth(text: seq<Byte>): nat {
    if Printable(text) then Columns(text, 0, |text|) else 0
  }

  function ScreenWidth(p: Part): nat {
    TextWidth(p.text)
  }

  /** Whether a part says how wide `column` should be. */
  predicate Widens(p: Part, column: nat, threshold: nat) {
    p.column == column && ScreenWidth(p) < threshold
  }

  /** The width of a column: that of its widest part below the threshold. */
  function ColumnWidth(parts: seq<Part>, column: nat, threshold: nat): (w: nat) {
    if parts == [] then 0 else
      var n := |parts| - 1;
      var before := ColumnWidth(parts[..n], column, threshold);
      if Widens(parts[n], column, threshold) then Max(before, ScreenWidth(parts[n])) else before
  }

  /** All parts below the threshold fit their column, and one of them fills it. */
  lemma {:induction false} ColumnWidthIsLeast(parts: seq<Part>, column: nat, threshold: nat)
    ensures forall p :: p in parts && Widens(p, column, threshold) ==>
              ScreenWidth(p) <= ColumnWidth(parts, column, threshold)
    ensures var w := ColumnWidth(parts, column, threshold);
            w > 0 ==> exists p :: p in parts && Widens(p, column, threshold) && ScreenWidth(p) == w
    ensures threshold > 0 ==> ColumnWidth(parts, column, threshold) < threshold
  {
    if parts != [] {
      var n := |parts| - 1;
      ColumnWidthIsLeast(parts[..n], column, threshold);
      assert parts == parts[..n] + [parts[n]];
    }
  }

  /** The last column of the table, of those that are laid out at all. */
  function LastColumn(parts: seq<Part>): (c: nat)
    ensures c < MAX_COLUMNS
  {
    if parts == [] then 0 else
      var n := |parts| - 1;
      var before := LastColumn(parts[..n]);
      if parts[n].column < MAX_COLUMNS then Max(before, parts[n].column) else before
  }

  /** It is the greatest column that is laid out and has a part. */
  lemma {:induction false} LastColumnIsGreatest(parts: seq<Part>)
    ensures forall p :: p in parts && p.column < MAX_COLUMNS ==> p.column <= LastColumn(parts)
    ensures LastColumn(parts) > 0 ==> exists p :: p in parts && p.column == LastColumn(parts)
  {
    if parts != [] {
      var n := |parts| - 1;
      LastColumnIsGreatest(parts[..n]);
      assert parts == parts[..n] + [parts[n]];
    }
  }

  /** The first `n` columns side by side. */
  function SumWidths(parts: seq<Part>, n: nat, threshold: nat): (w: nat) {
    if n == 0 then 0 else SumWidths(parts, n - 1, threshold) + ColumnWidth(parts, n - 1, threshold)
  }

  function MaxWidth(parts: seq<Part>, n: nat, threshold: nat): (w: nat) {
    if n == 0 then 0 else Max(MaxWidth(parts, n - 1, threshold), ColumnWidth(parts, n - 1, threshold))
  }

  /** The columns to the left of the last one fit. */
  predicate ColumnsFit(parts: seq<Part>, width: nat, threshold: nat) {
    SumWidths(parts, LastColumn(parts), threshold) <= width
  }

  /** The largest threshold for which the columns fit: no more is ignored than necessary. */
  ghost predicate BestThreshold(parts: seq<Part>, width: nat, threshold: nat) {
    && threshold <= NO_LIMIT && ColumnsFit(parts, width, threshold)
    && forall t :: threshold < t <= NO_LIMIT ==> !ColumnsFit(parts, width, t)
  }

  /** Only one threshold is the best one. */
  lemma BestIsUnique(parts: seq<Part>, width: nat, t: nat, t': nat)
    requires BestThreshold(parts, width, t) && BestThreshold(parts, width, t')
    ensures t == t'
  {
  }

  /** A column that does not fit is not empty, and narrower than the threshold. */
  lemma {:induction false} NextThresholdIsSmaller(parts: seq<Part>, n: nat, threshold: nat)
    ensures threshold > 0 ==> MaxWidth(parts, n, threshold) < threshold
    ensures MaxWidth(parts, n, threshold) == 0 ==> SumWidths(parts, n, threshold) == 0
    ensures threshold == 0 ==> MaxWidth(parts, n, threshold) == 0
  {
    if n > 0 {
      NextThresholdIsSmaller(parts, n - 1, threshold);
      ColumnWidthIsLeast(parts, n - 1, threshold);
      if ColumnWidth(parts, n - 1, threshold) > 0 && threshold == 0 {
        assert false;
      }
    }
  }

  /** A threshold above all widths of the first `n` columns changes none of them. */
  lemma {:induction false} SameWidths(parts: seq<Part>, n: nat, threshold: nat, t: nat)
    requires MaxWidth(parts, n, threshold) < t <= threshold
    ensures SumWidths(parts, n, t) == SumWidths(parts, n, threshold)
  {
    if n > 0 {
      SameWidths(parts, n - 1, threshold, t);
      SameWidth(parts, n - 1, threshold, t);
    }
  }

  lemma {:induction false} SameWidth(parts: seq<Part>, column: nat, threshold: nat, t: nat)
    requires ColumnWidth(parts, column, threshold) < t <= threshold
    ensures ColumnWidth(parts, column, t) == ColumnWidth(parts, column, threshold)
  {
    if parts != [] {
      SameWidth(parts[..|parts| - 1], column, threshold, t);
    }
  }

  /** If the columns do not fit, nothing between the widest of them and the threshold helps. */
  lemma NothingBetween(parts: seq<Part>, width: nat, threshold: nat, next: nat)
    requires !ColumnsFit(parts, width, threshold) && next == MaxWidth(parts, LastColumn(parts), threshold)
    ensures next < threshold
    ensures forall t :: next < t <= threshold ==> !ColumnsFit(parts, width, t)
  {
    NextThresholdIsSmaller(parts, LastColumn(parts), threshold);
    forall t | next < t <= threshold
      ensures !ColumnsFit(parts, width, t)
    {
      SameWidths(parts, LastColumn(parts), threshold, t);
    }
  }

  // ---------- Which parts are measured ----------

  lemma SingleCell(row: seq<Byte>)
    ensures TAB !in row ==> Cells(row) == [row]
    ensures VTAB !in row ==> Parts(row) == [row]
    ensures |Cells(row)| == 1 ==> TAB !in row && Cells(row)[0] == row
    ensures |Parts(row)| == 1 ==> VTAB !in row
  {
    assert row[..|row|] == row;
    SplitJoins(row, TAB);
    SplitJoins(row, VTAB);
    if TAB !in row {
      FirstPiece(row, TAB, |row|);
      assert Cells(row) == [row];
    }
    if VTAB !in row {
      FirstPiece(row, VTAB, |row|);
      assert Parts(row) == [row];
    }
    if |Cells(row)| == 1 {
      assert Cells(row)[0] in Cells(row);
    }
    if |Parts(row)| == 1 {
      assert Parts(row)[0] in Parts(row);
    }
  }

  /** Such a row has one part, which is the row. */
  lemma InterjectionIsOnePart(row: seq<Byte>)
    requires Interjection(row)
    ensures |Cells(row)| == 1 && Height(row) == 1 && Grid(row) == [Part(0, 0, row)]
  {
    SingleCell(row);
    assert MaxBreaks([]) == 0;
    assert [row][..0] == [];
    assert Height(row) == 1;
    assert GridFrom(row, 0, 1) == GridFrom(row, 1, 0) == [];
  }

  /** The test for an interjection: column 0, line 0, and no separator behind the part. */
  lemma InterjectionTest(row: seq<Byte>, rest: seq<Byte>, k: Counters, len: nat, parts: seq<Part>)
    requires Found(row, rest, k, len, parts)
    requires forall i :: 0 <= i < |rest| ==> rest[i] in row
    ensures Interjection(row) <==> k.col == 0 && k.target == 0 && rest[len..] == []
  {
    if Interjection(row) {
      InterjectionIsOnePart(row);
      assert Key(0);
      PartEndsAtBreak(rest);
      assert k.col < |Cells(row)|;
      assert rest[len..] == [];
    }
    if k.col == 0 && k.target == 0 && rest[len..] == [] {
      assert Key(0);
      ReadPart(row, rest, 0, 0, len);
      CellEnds(row, [], 0, 0);
      SingleCell(row);
    }
  }

  lemma {:induction false} PartEndsAtBreak(rest: seq<Byte>)
    ensures AtBreak(rest[PartLength(rest)..])
  {
    if !AtBreak(rest) {
      PartEndsAtBreak(rest[1..]);
      assert rest[1..][PartLength(rest) - 1..] == rest[PartLength(rest)..];
    }
  }

  /** Behind a part of a row there is a separator, or the row ends. */
  lemma BehindPart(text: seq<Byte>, start: nat, from: nat, rest: seq<Byte>)
    requires Printable(text) && start <= |text| && start <= from <= RowEnd(text, start)
    requires rest == text[from..RowEnd(text, start)]
    ensures from + PartLength(rest) <= |text|
    ensures var behind := CharAt(text, from + PartLength(rest));
            && !IsContinuation(behind)
            && (behind == TAB || behind == VTAB <==> rest[PartLength(rest)..] != [])
  {
    RowEndIsLineFeed(text, start);
    PartEndsAtBreak(rest);
    var n := PartLength(rest);
    if rest[n..] != [] {
      assert rest[n..][0] == rest[n] == text[from + n];
    }
  }

  /** A part takes the same columns by itself as within its text. */
  lemma WidthWithin(text: seq<Byte>, start: nat, from: nat, rest: seq<Byte>)
    requires Printable(text) && start <= |text| && start <= from <= RowEnd(text, start)
    requires rest == text[from..RowEnd(text, start)]
    ensures from + PartLength(rest) <= |text|
    ensures Columns(text, from, from + PartLength(rest)) == TextWidth(rest[..PartLength(rest)])
  {
    var n := PartLength(rest);
    BehindPart(text, start, from, rest);
    SliceFront(text, from, n, RowEnd(text, start));
    WidthOfSlice(text, from, n);
  }

  /** The same for any text up to a boundary. */
  lemma WidthOfSlice(text: seq<Byte>, from: nat, n: nat)
    requires Printable(text) && from + n <= |text| && !IsContinuation(CharAt(text, from + n))
    ensures Columns(text, from, from + n) == TextWidth(text[from..from + n])
  {
    WholeBeforeStart(text, from, from + n);
    ColumnsOfPart(text, from, text[from..from + n], 0);
  }

  /** The iterator's position and what it has measured. */
  lemma PartFacts(part: LinePartIterator, row: seq<Byte>, parts: seq<Part>)
    requires part.AtPart(row, parts)
    ensures part.InText() && part.Row() == row && part.col >= 0
    ensures part.ptr.value + part.len <= |part.Text()| && part.len == PartLength(part.Behind())
    ensures part.screenlen == Columns(part.Text(), part.ptr.value, part.ptr.value + part.len)
    ensures parts != [] && parts[0] == Part(part.col, part.targetLineInBlock, part.Behind()[..part.len])
  {
    assert Key(0);
  }

  /** The test that the iterator's position allows. */
  lemma TestAtPart(part: LinePartIterator, row: seq<Byte>, parts: seq<Part>)
    requires part.AtPart(row, parts) && part.InText() && part.col >= 0 && part.len <= |part.Behind()|
    ensures Interjection(row) <==> part.col == 0 && part.targetLineInBlock == 0 && part.Behind()[part.len..] == []
  {
    var start, rest, k := part.rowstart.value, part.Behind(), part.Position();
    RestOfRow(part.Row(), rest, part.ptr.value - start, part.Text(), start, RowEnd(part.Text(), start));
    assert Found(row, rest, k, part.len, parts) && part.Row() == row by {
      assert Key(0);
    }
    InterjectionTest(row, rest, k, part.len, parts);
  }

  /** The width that the iterator has measured is that of the part's text. */
  lemma WidthOfPart(part: LinePartIterator, row: seq<Byte>, parts: seq<Part>)
    requires part.AtPart(row, parts)
    ensures parts != [] && part.col >= 0 && parts[0].column == part.col && part.screenlen == ScreenWidth(parts[0])
  {
    PartFacts(part, row, parts);
    WidthWithin(part.Text(), part.rowstart.value, part.ptr.value, part.Behind());
  }

  /** Whether the part that the iterator stands at takes part in the layout. */
  method IsMeasured(part: LinePartIterator, ghost row: seq<Byte>, ghost parts: seq<Part>) returns (b: bool)
    requires part.AtPart(row, parts)
    ensures b <==> !Interjection(row)
    ensures !b ==> part.col == 0
  {
    PartFacts(part, row, parts);
    var behind := CharAt(part.helps[part.rowdesc.value].value, part.ptr.value + part.len);
    assert behind == TAB || behind == VTAB <==> part.Behind()[part.len..] != [] by {
      BehindPart(part.Text(), part.rowstart.value, part.ptr.value, part.Behind());
    }
    TestAtPart(part, row, parts);
    b := part.col > 0 || part.targetLineInBlock > 0 || behind == TAB || behind == VTAB;
  }

  lemma RestOfRow(row: seq<Byte>, rest: seq<Byte>, off: nat, text: seq<Byte>, start: nat, end: nat)
    requires start + off <= end <= |text| && row == text[start..end] && rest == text[start + off..end]
    ensures forall i :: 0 <= i < |rest| ==> rest[i] in row
  {
    assert forall i :: 0 <= i < |rest| ==> rest[i] == row[off + i];
  }

  /** `widths` and `lastcolumn` are what the layout computes from `parts`. */
  ghost predicate Measures(widths: seq<nat>, lastcolumn: nat, parts: seq<Part>, threshold: nat) {
    && |widths| == MAX_COLUMNS && lastcolumn == LastColumn(parts)
    && forall c :: 0 <= c < MAX_COLUMNS ==> widths[c] == ColumnWidth(parts, c, threshold)
  }

  /** One more part. */
  lemma MeasuresStep(widths: seq<nat>, lastcolumn: nat, parts: seq<Part>, threshold: nat, p: Part)
    requires Measures(widths, lastcolumn, parts, threshold)
    ensures if p.column >= MAX_COLUMNS then Measures(widths, lastcolumn, parts + [p], threshold)
            else Measures(if ScreenWidth(p) < threshold then widths[p.column := Max(widths[p.column], ScreenWidth(p))]
                          else widths,
                          Max(lastcolumn, p.column), parts + [p], threshold)
  {
    assert (parts + [p])[..|parts|] == parts;
  }

  /** Takes the part that the iterator stands at into account. */
  method MeasureOne(part: LinePartIterator, colWidth: array<nat>, last: nat, threshold: nat,
                    ghost row: seq<Byte>, ghost parts: seq<Part>, ghost done: seq<Part>) returns (lastcolumn: nat)
    requires part.AtPart(row, parts) && Measures(colWidth[..], last, done, threshold)
    modifies colWidth
    ensures parts != []
    ensures Measures(colWidth[..], lastcolumn, if Interjection(row) then done else done + [parts[0]], threshold)
  {
    lastcolumn := last;
    WidthOfPart(part, row, parts);
    var measured := IsMeasured(part, row, parts);
    if part.col < MAX_COLUMNS {
      lastcolumn := Max(lastcolumn, part.col);
      if part.screenlen < threshold && measured {
        colWidth[part.col] := Max(colWidth[part.col], part.screenlen);
      }
    }
    if measured {
      MeasuresStep(old(colWidth[..]), last, done, threshold, parts[0]);
    }
  }

  /** Measures the parts of a row. */
  method MeasureRow(part: LinePartIterator, colWidth: array<nat>, last: nat, threshold: nat,
                    ghost row: seq<Byte>, ghost rows: seq<seq<Byte>>, ghost done: seq<Part>) returns (lastcolumn: nat)
    requires part.InRow(row, Grid(row), rows) && Measures(colWidth[..], last, done, threshold)
    modifies part, colWidth
    ensures part.tablestart == old(part.tablestart) && part.Upcoming(rows)
    ensures Measures(colWidth[..], lastcolumn, done + if Interjection(row) then [] else Grid(row), threshold)
  {
    lastcolumn := last;
    ghost var ahead, read := Grid(row), done;
    var more := part.Next(row, ahead, rows);
    while more
      invariant part.tablestart == old(part.tablestart)
      invariant more <==> ahead != []
      invariant part.InRow(row, if more then ahead[1..] else [], rows)
      invariant more ==> part.AtPart(row, ahead)
      invariant Measures(colWidth[..], lastcolumn, read, threshold)
      invariant read + (if Interjection(row) then [] else ahead) == done + (if Interjection(row) then [] else Grid(row))
      decreases |ahead|
    {
      lastcolumn := MeasureOne(part, colWidth, lastcolumn, threshold, row, ahead, read);
      HeadMoves(read, ahead);
      read, ahead := if Interjection(row) then read else read + [ahead[0]], ahead[1..];
      more := part.Next(row, ahead, rows);
    }
    assert read + [] == read && done + [] == done;
    part.BehindRow(row, [], rows);
  }

  /** Measures the whole table. */
  method MeasureTable(part: LinePartIterator, colWidth: array<nat>, threshold: nat) returns (lastcolumn: nat)
    requires Readable(part.helps) && colWidth.Length == MAX_COLUMNS
    modifies part, colWidth
    ensures part.tablestart == old(part.tablestart)
    ensures Measures(colWidth[..], lastcolumn, Measured(Rows(part.helps, part.tablestart)), threshold)
  {
    lastcolumn := 0;
    forall c | 0 <= c < MAX_COLUMNS {
      colWidth[c] := 0;
    }
    part.RestartTable();
    ghost var rows, read := Rows(part.helps, part.tablestart), [];
    var more := part.NextRow(rows);
    while more
      invariant part.tablestart == old(part.tablestart)
      invariant more <==> rows != []
      invariant more ==> part.InRow(rows[0], Grid(rows[0]), rows[1..])
      invariant Measures(colWidth[..], lastcolumn, read, threshold)
      invariant read + Measured(rows) == Measured(Rows(part.helps, part.tablestart))
      decreases |rows|
    {
      lastcolumn := MeasureRow(part, colWidth, lastcolumn, threshold, rows[0], rows[1..], read);
      ghost var parts := if Interjection(rows[0]) then [] else Grid(rows[0]);
      Associative(read, parts, Measured(rows[1..]));
      read, rows := read + parts, rows[1..];
      more := part.NextRow(rows);
    }
    assert read + [] == read;
  }

  // ---------- The layout ----------

  /** The columns to the left of the last one, side by side, and the widest of them. */
  method LeftColumns(colWidth: array<nat>, lastcolumn: nat, ghost parts: seq<Part>, ghost threshold: nat)
      returns (leftwidth: nat, widest: nat)
    requires Measures(colWidth[..], lastcolumn, parts, threshold)
    ensures leftwidth == SumWidths(parts, lastcolumn, threshold) && widest == MaxWidth(parts, lastcolumn, threshold)
  {
    leftwidth, widest := 0, 0;
    for i := 0 to lastcolumn
      invariant leftwidth == SumWidths(parts, i, threshold) && widest == MaxWidth(parts, i, threshold)
    {
      assert colWidth[i] == colWidth[..][i];
      leftwidth := leftwidth + colWidth[i];
      widest := Max(widest, colWidth[i]);
    }
  }

  /**
    Measures the table again and again, each time leaving out the widest parts,
    until the columns to the left of the last one fit.  This ends, and no part
    is left out that could have been kept.
  */
  method FitColumns(part: LinePartIterator, colWidth: array<nat>, width: nat)
      returns (lastcolumn: nat, ghost threshold: nat)
    requires Readable(part.helps) && colWidth.Length == MAX_COLUMNS
    modifies part, colWidth
    ensures part.tablestart == old(part.tablestart)
    ensures var parts := Measured(Rows(part.helps, part.tablestart));
            Measures(colWidth[..], lastcolumn, parts, threshold) && BestThreshold(parts, width, threshold)
  {
    ghost var parts := Measured(Rows(part.helps, part.tablestart));
    var overlong, fits := NO_LIMIT, false;
    lastcolumn, threshold := 0, NO_LIMIT;
    while !fits
      invariant part.tablestart == old(part.tablestart)
      invariant 0 <= overlong <= NO_LIMIT
      invariant !fits ==> forall t :: overlong < t <= NO_LIMIT ==> !ColumnsFit(parts, width, t)
      invariant fits ==> Measures(colWidth[..], lastcolumn, parts, threshold) && BestThreshold(parts, width, threshold)
      decreases !fits, overlong
    {
      threshold := overlong;
      lastcolumn := MeasureTable(part, colWidth, overlong);
      var leftwidth;
      leftwidth, overlong := LeftColumns(colWidth, lastcolumn, parts, threshold);
      fits := leftwidth <= width;
      if !fits {
        NothingBetween(parts, width, threshold, overlong);
      } else {
        NextThresholdIsSmaller(parts, lastcolumn, threshold);
      }
    }
  }

  /** Each column begins where the one before it ends. */
  method TabStops(colWidth: array<nat>, lastcolumn: nat, ghost parts: seq<Part>, ghost threshold: nat)
      returns (tabstop: array<nat>)
    requires Measures(colWidth[..], lastcolumn, parts, threshold)
    ensures fresh(tabstop) && tabstop.Length == MAX_COLUMNS
    ensures forall i :: 0 <= i < MAX_COLUMNS ==> tabstop[i] == SumWidths(parts, i, threshold)
  {
    tabstop := new nat[MAX_COLUMNS];
    tabstop[0] := 0;
    for i := 1 to MAX_COLUMNS
      invariant forall k :: 0 <= k < i ==> tabstop[k] == SumWidths(parts, k, threshold)
    {
      assert colWidth[i - 1] == colWidth[..][i - 1];
      tabstop[i] := tabstop[i - 1] + colWidth[i - 1];
    }
  }

  lemma {:induction false} SumsGrow(parts: seq<Part>, i: nat, j: nat, threshold: nat)
    requires i <= j
    ensures SumWidths(parts, i, threshold) <= SumWidths(parts, j, threshold)
  {
    if i < j {
      SumsGrow(parts, i, j - 1, threshold);
    }
  }

  /** Division as C has it: towards zero. */
  function CDivide(a: int, b: nat): (q: int)
    requires b > 0
    ensures a >= 0 ==> q == a / b
  {
    if a >= 0 then a / b else -(-a / b)
  }

  /** A percentage of the width, rounded. */
  function PercentOf(width: nat, percent: int): (n: int) {
    CDivide(width * percent + 50, 100)
  }

  /** It is off by half a column at most. */
  lemma PercentIsRounded(width: nat, percent: nat)
    ensures width * percent - 50 < 100 * PercentOf(width, percent) <= width * percent + 50
  {
    assert width * percent >= 0;
  }

  function LineWidth(width: int): (w: nat)
    ensures 1 <= w <= NO_LIMIT
  {
    if width < 1 then 80 else if width > NO_LIMIT then NO_LIMIT else width
  }

  function OwnLineWidth(width: nat, percent: int): (n: int)
    ensures n != 0
  {
    if PercentOf(width, percent) == 0 then 1 else PercentOf(width, percent)
  }

  lemma PercentOfIsPart(width: nat, percent: int)
    requires 0 <= percent <= 100
    ensures 0 <= PercentOf(width, percent) <= width
  {
    assert 0 <= width * percent <= width * 100;
  }

  lemma PercentOfAtMost(width: nat, percent: int)
    requires percent <= 100
    ensures PercentOf(width, percent) <= width
  {
    if percent >= 0 {
      PercentOfIsPart(width, percent);
    } else {
      assert width * percent <= 0;
    }
  }

  /**
    What the layout is for: the columns up to the last one begin within the
    line, one behind the other, and there is room left for the last one, which
    goes on a line of its own only if it neither has the room it should have
    nor fits.
  */
  ghost predicate LaidOut(parts: seq<Part>, width: nat, threshold: nat, minWidth: int, ownWidth: int,
                          tabstop: seq<nat>, lastcolumn: nat, rightwidth: int, ownLine: bool) {
    && |tabstop| == MAX_COLUMNS && lastcolumn == LastColumn(parts) && (ownLine ==> lastcolumn > 0)
    && forall k {:trigger Key(k)} :: Key(k) ==>
         && BestThreshold(parts, width, threshold) && tabstop[0] == 0
         && (forall i :: 1 <= i < MAX_COLUMNS ==> tabstop[i] == tabstop[i - 1] + ColumnWidth(parts, i - 1, threshold))
         && (forall i, j :: 0 <= i <= j < MAX_COLUMNS ==> tabstop[i] <= tabstop[j])
         && tabstop[lastcolumn] <= width
         && var room, last := width - tabstop[lastcolumn], ColumnWidth(parts, lastcolumn, threshold);
            var squeezed := room < minWidth && (last == 0 || room < last);
            && (ownLine <==> lastcolumn > 0 && squeezed)
            && rightwidth == if squeezed then ownWidth else room
  }

  method LayOut(part: LinePartIterator, consoleWidth: int, minPercent: int, ownLinePercent: int)
      returns (tabstop: array<nat>, lastcolumn: nat, rightwidth: int, ownLine: bool, ghost threshold: nat)
    requires Readable(part.helps)
    modifies part
    ensures part.tablestart == old(part.tablestart) && fresh(tabstop)
    ensures var width := LineWidth(consoleWidth);
            LaidOut(Measured(Rows(part.helps, part.tablestart)), width, threshold, PercentOf(width, minPercent),
                    OwnLineWidth(width, ownLinePercent), tabstop[..], lastcolumn, rightwidth, ownLine)
  {
    ghost var parts := Measured(Rows(part.helps, part.tablestart));
    var width := LineWidth(consoleWidth);
    var minWidth, ownWidth := PercentOf(width, minPercent), OwnLineWidth(width, ownLinePercent);
    var colWidth := new nat[MAX_COLUMNS];
    lastcolumn, threshold := FitColumns(part, colWidth, width);
    tabstop := TabStops(colWidth, lastcolumn, parts, threshold);
    assert colWidth[lastcolumn] == colWidth[..][lastcolumn];
    rightwidth := width - tabstop[lastcolumn];
    ownLine := false;
    if rightwidth < minWidth && (colWidth[lastcolumn] == 0 || rightwidth < colWidth[lastcolumn]) {
      ownLine := true;
      rightwidth := ownWidth;
    }
    if lastcolumn == 0 {
      ownLine := false;
    }
    StopsAreSums(parts, width, threshold, minWidth, ownWidth, tabstop[..], lastcolumn, rightwidth, ownLine);
  }

  /** Tab stops that are sums of widths make a layout. */
  lemma StopsAreSums(parts: seq<Part>, width: nat, threshold: nat, minWidth: int, ownWidth: int,
                     tabstop: seq<nat>, lastcolumn: nat, rightwidth: int, ownLine: bool)
    requires BestThreshold(parts, width, threshold) && lastcolumn == LastColumn(parts)
    requires |tabstop| == MAX_COLUMNS
             && forall i :: 0 <= i < MAX_COLUMNS ==> tabstop[i] == SumWidths(parts, i, threshold)
    requires var room, last := width - tabstop[lastcolumn], ColumnWidth(parts, lastcolumn, threshold);
             var squeezed := room < minWidth && (last == 0 || room < last);
             ownLine == (lastcolumn > 0 && squeezed) && rightwidth == if squeezed then ownWidth else room
    ensures LaidOut(parts, width, threshold, minWidth, ownWidth, tabstop, lastcolumn, rightwidth, ownLine)
  {
    forall i, j | 0 <= i <= j < MAX_COLUMNS
      ensures tabstop[i] <= tabstop[j]
    {
      SumsGrow(parts, i, j, threshold);
    }
  }

  /** A minimum and a line of its own within the line keep the last column within it. */
  lemma WithinTheLine(parts: seq<Part>, width: nat, threshold: nat, minWidth: int, ownWidth: int,
                      tabstop: seq<nat>, lastcolumn: nat, rightwidth: int, ownLine: bool)
    requires minWidth <= width && 0 <= ownWidth <= width
    requires LaidOut(parts, width, threshold, minWidth, ownWidth, tabstop, lastcolumn, rightwidth, ownLine)
    ensures 0 <= rightwidth <= width
    ensures lastcolumn == 0 ==> rightwidth == width && !ownLine
  {
    assert Key(0);
  }

  /**
    With percentages that are such, the last column has a width within the
    line; and a table of one column gets the whole line, so that switching its
    own line off is not needed.
  */
  lemma LastColumnIsWithinTheLine(parts: seq<Part>, width: nat, threshold: nat, minPercent: int, ownLinePercent: int,
                                  tabstop: seq<nat>, lastcolumn: nat, rightwidth: int, ownLine: bool)
    requires 1 <= width && minPercent <= 100 && 0 <= ownLinePercent <= 100
    requires LaidOut(parts, width, threshold, PercentOf(width, minPercent), OwnLineWidth(width, ownLinePercent),
                     tabstop, lastcolumn, rightwidth, ownLine)
    ensures 0 <= rightwidth <= width
    ensures lastcolumn == 0 ==> rightwidth == width && !ownLine
  {
    PercentOfIsPart(width, ownLinePercent);
    PercentOfAtMost(width, minPercent);
    WithinTheLine(parts, width, threshold, PercentOf(width, minPercent), OwnLineWidth(width, ownLinePercent),
                  tabstop, lastcolumn, rightwidth, ownLine);
  }
}
