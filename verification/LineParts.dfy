/**
  The iterator over the parts of a help text.  It keeps a pointer into the
  flat text and a few counters, and yields the grid of each row.
*/
module LineParts {
  import opened Basics
  import opened Utf8Width
  import opened HelpGrid
  import opened Sequences

  /** Whether the pointer stands at the end of a part: a separator, or the end of the row. */
  predicate AtBreak(rest: seq<Byte>) {
    rest == [] || rest[0] == TAB || rest[0] == VTAB
  }

  /** How many bytes the part at the beginning of `rest` takes. */
  function PartLength(rest: seq<Byte>): (n: nat)
    ensures n <= |rest|
  {
    if AtBreak(rest) then 0 else 1 + PartLength(rest[1..])
  }

  /** What of the current cell lies in front of `rest`. */
  function CellRest(rest: seq<Byte>): seq<Byte> {
    Cells(rest)[0]
  }

  /**
    Having read line `line` of cell `col` of the row as far as the beginning of
    `rest`: the later cells and the later lines of this cell are those of `rest`.
  */
  ghost predicate InLineOf(row: seq<Byte>, rest: seq<Byte>, col: nat, line: nat) {
    && col < |Cells(row)| && Cells(row)[col + 1..] == Cells(rest)[1..]
    && line < |Parts(Cells(row)[col])|
    && Parts(Cells(row)[col])[line + 1..] == Parts(CellRest(rest))[1..]
  }

  /** The beginning of `rest` is the beginning of line `line` of cell `col`. */
  ghost predicate Starting(row: seq<Byte>, rest: seq<Byte>, col: nat, line: nat) {
    InLineOf(row, rest, col, line) && Parts(Cells(row)[col])[line] == Parts(CellRest(rest))[0]
  }

  lemma StartsAtRow(row: seq<Byte>)
    ensures Starting(row, row, 0, 0)
  {
  }

  /** Moving over a byte that separates nothing. */
  lemma ReadByte(row: seq<Byte>, rest: seq<Byte>, col: nat, line: nat)
    requires InLineOf(row, rest, col, line) && !AtBreak(rest)
    ensures InLineOf(row, rest[1..], col, line)
  {
    assert CellRest(rest)[1..] == CellRest(rest[1..]);
  }

  /** Moving over a line break within the cell. */
  lemma ReadLineBreak(row: seq<Byte>, rest: seq<Byte>, col: nat, line: nat)
    requires InLineOf(row, rest, col, line) && rest != [] && rest[0] == VTAB
    ensures Starting(row, rest[1..], col, line + 1)
  {
  }

  /** At the end of a cell, the line is its last one. */
  lemma CellEnds(row: seq<Byte>, rest: seq<Byte>, col: nat, line: nat)
    requires InLineOf(row, rest, col, line) && (rest == [] || rest[0] == TAB)
    ensures |Parts(Cells(row)[col])| == line + 1
    ensures rest == [] <==> col + 1 == |Cells(row)|
  {
    assert CellRest(rest) == [];
  }

  /** Moving over a tab to the next cell. */
  lemma ReadTab(row: seq<Byte>, rest: seq<Byte>, col: nat, line: nat)
    requires InLineOf(row, rest, col, line) && rest != [] && rest[0] == TAB
    ensures Starting(row, rest[1..], col + 1, 0)
  {
  }

  /** Moving over a whole part. */
  lemma {:induction false} ReadPart(row: seq<Byte>, rest: seq<Byte>, col: nat, line: nat, n: nat)
    requires InLineOf(row, rest, col, line) && n <= PartLength(rest)
    ensures n <= |rest| && InLineOf(row, rest[n..], col, line)
  {
    if n > 0 {
      ReadByte(row, rest, col, line);
      ReadPart(row, rest[1..], col, line, n - 1);
      assert rest[1..][n - 1..] == rest[n..];
    }
  }

  /** The text of the part at the beginning of `rest`. */
  lemma {:induction false} PartAhead(rest: seq<Byte>)
    ensures Parts(CellRest(rest))[0] == rest[..PartLength(rest)]
  {
    if !AtBreak(rest) {
      PartAhead(rest[1..]);
      var n := PartLength(rest);
      assert CellRest(rest) == [rest[0]] + CellRest(rest[1..]);
      assert CellRest(rest)[1..] == CellRest(rest[1..]);
      assert rest[..n] == [rest[0]] + rest[1..][..n - 1];
    }
  }

  /** The line breaks seen so far in the first pass over a row. */
  ghost predicate CountsBreaks(row: seq<Byte>, col: nat, line: nat, target: nat, max: nat) {
    && col < |Cells(row)|
    && max == if target == 0 then Max(MaxBreaks(Cells(row)[..col]), line) else MaxBreaks(Cells(row))
  }

  /** When a pass over a cell ends, all its line breaks have been seen. */
  lemma AllBreaksSeen(row: seq<Byte>, col: nat, line: nat, target: nat, max: nat)
    requires CountsBreaks(row, col, line, target, max) && |Parts(Cells(row)[col])| == line + 1
    ensures col + 1 == |Cells(row)| ==> max == Height(row) - 1
    ensures col + 1 < |Cells(row)| ==> CountsBreaks(row, col + 1, 0, target, max)
  {
    OneMoreCell(Cells(row), col);
    assert Cells(row)[..|Cells(row)|] == Cells(row);
  }

  lemma OneMoreCell(cells: seq<seq<Byte>>, n: nat)
    requires n < |cells|
    ensures MaxBreaks(cells[..n + 1]) == Max(MaxBreaks(cells[..n]), |Parts(cells[n])| - 1)
  {
    assert cells[..n + 1][..n] == cells[..n];
  }

  /** The counters of the iterator: column, line, the line asked for, the breaks counted, and whether it was found. */
  datatype Counters = Counters(col: nat, line: nat, target: nat, max: nat, hit: bool)

  /** The line asked for has been passed in this cell. */
  ghost predicate Passed(rest: seq<Byte>, k: Counters) {
    k.line >= k.target || rest == [] || rest[0] == TAB
  }

  /** The counters agree with what has been read of the row. */
  ghost predicate Scanning(row: seq<Byte>, rest: seq<Byte>, k: Counters) {
    InLineOf(row, rest, k.col, k.line) && CountsBreaks(row, k.col, k.line, k.target, k.max)
  }

  /**
    The scan for the next part goes on: `goal` are the parts still to come.
    Either the part asked for last has been passed, or the part asked for now
    lies further on in the current cell.
  */
  ghost predicate Seeking(row: seq<Byte>, rest: seq<Byte>, k: Counters, goal: seq<Part>) {
    forall z {:trigger Key(z)} :: Key(z) ==>
      && Scanning(row, rest, k)
      && if k.hit then
           Passed(rest, k) && (rest != [] ==> k.target < Height(row)) && goal == GridFrom(row, k.target, k.col + 1)
         else k.line < k.target < Height(row) && goal == GridFrom(row, k.target, k.col)
  }

  /** The iterator stands at a part of `len` bytes; `ahead` are the parts behind it. */
  ghost predicate Placed(row: seq<Byte>, rest: seq<Byte>, k: Counters, len: nat, ahead: seq<Part>) {
    forall z {:trigger Key(z)} :: Key(z) ==>
      && Scanning(row, rest, k) && Passed(rest, k) && k.hit && len == PartLength(rest)
      && (rest != [] ==> k.target < Height(row)) && ahead == GridFrom(row, k.target, k.col + 1)
  }

  /** The scan has found the first part of `goal`. */
  ghost predicate Found(row: seq<Byte>, rest: seq<Byte>, k: Counters, len: nat, goal: seq<Part>) {
    && k.line <= k.target < Height(row) && len <= |rest| && goal != []
    && goal[0] == Part(k.col, k.target, rest[..len])
    && Placed(row, rest, k, len, goal[1..])
  }

  /** The text at the beginning of `rest` is the part asked for. */
  lemma TextHere(row: seq<Byte>, rest: seq<Byte>, col: nat, line: nat, target: nat)
    requires InLineOf(row, rest, col, line)
    requires if line == target then Starting(row, rest, col, line)
             else line < target && (rest == [] || rest[0] == TAB)
    ensures PartText(row, col, target) == rest[..PartLength(rest)]
  {
    PartAhead(rest);
    if line < target {
      CellEnds(row, rest, col, line);
    }
  }

  lemma GridGoesOn(row: seq<Byte>, line: nat, column: nat)
    requires line < Height(row) && column < |Cells(row)|
    ensures var grid := GridFrom(row, line, column);
            && grid != [] && grid[0] == Part(column, line, PartText(row, column, line))
            && grid[1..] == GridFrom(row, line, column + 1)
  {
  }

  /** At the part asked for, the scan has found it. */
  lemma FoundHere(row: seq<Byte>, rest: seq<Byte>, k: Counters, goal: seq<Part>)
    requires Scanning(row, rest, k) && k.target < Height(row) && goal == GridFrom(row, k.target, k.col)
    requires if k.line == k.target then Starting(row, rest, k.col, k.line)
             else k.line < k.target && (rest == [] || rest[0] == TAB)
    ensures Found(row, rest, k.(hit := true), PartLength(rest), goal)
  {
    FirstOfGoal(row, rest, k, goal);
    StandsHere(row, rest, k, goal[1..]);
  }

  lemma FirstOfGoal(row: seq<Byte>, rest: seq<Byte>, k: Counters, goal: seq<Part>)
    requires InLineOf(row, rest, k.col, k.line) && k.target < Height(row) && goal == GridFrom(row, k.target, k.col)
    requires if k.line == k.target then Starting(row, rest, k.col, k.line)
             else k.line < k.target && (rest == [] || rest[0] == TAB)
    ensures goal != [] && goal[0] == Part(k.col, k.target, rest[..PartLength(rest)])
    ensures goal[1..] == GridFrom(row, k.target, k.col + 1)
  {
    TextHere(row, rest, k.col, k.line, k.target);
    GridGoesOn(row, k.target, k.col);
  }

  lemma StandsHere(row: seq<Byte>, rest: seq<Byte>, k: Counters, ahead: seq<Part>)
    requires Scanning(row, rest, k) && Passed(rest, k) && k.target < Height(row)
    requires ahead == GridFrom(row, k.target, k.col + 1)
    ensures Placed(row, rest, k.(hit := true), PartLength(rest), ahead)
  {
  }

  /** From the part it stands at, the iterator begins to seek behind it. */
  lemma SeekBehind(row: seq<Byte>, rest: seq<Byte>, k: Counters, len: nat, ahead: seq<Part>)
    requires Placed(row, rest, k, len, ahead)
    ensures len <= |rest| && Seeking(row, rest[len..], k, ahead)
  {
    assert Key(0);
    ReadPart(row, rest, k.col, k.line, len);
  }

  lemma SeekOverByte(row: seq<Byte>, rest: seq<Byte>, k: Counters, goal: seq<Part>)
    requires Seeking(row, rest, k, goal) && !AtBreak(rest)
    ensures Seeking(row, rest[1..], k, goal)
  {
    assert Key(0);
    ReadByte(row, rest, k.col, k.line);
  }

  /** The next line of the cell begins. */
  lemma BreakRead(row: seq<Byte>, rest: seq<Byte>, k: Counters, k': Counters)
    requires Scanning(row, rest, k) && rest != [] && rest[0] == VTAB
    requires k' == k.(line := k.line + 1, max := Max(k.max, k.line + 1))
    ensures Scanning(row, rest[1..], k') && Starting(row, rest[1..], k'.col, k'.line)
  {
    ReadLineBreak(row, rest, k.col, k.line);
    assert Cells(row)[k.col] in Cells(row);
  }

  /** The break that begins the line asked for. */
  lemma LineBreakHits(row: seq<Byte>, rest: seq<Byte>, k: Counters, goal: seq<Part>, k': Counters)
    requires Seeking(row, rest, k, goal) && rest != [] && rest[0] == VTAB
    requires k' == k.(line := k.line + 1, max := Max(k.max, k.line + 1)) && k'.line == k'.target
    ensures Found(row, rest[1..], k'.(hit := true), PartLength(rest[1..]), goal)
  {
    assert Scanning(row, rest[1..], k') && Starting(row, rest[1..], k'.col, k'.line) && k'.target < Height(row)
        && goal == GridFrom(row, k'.target, k'.col) by {
      assert Key(0);
      BreakRead(row, rest, k, k');
    }
    FoundHere(row, rest[1..], k', goal);
  }

  /** A break that begins another line. */
  lemma LineBreakMisses(row: seq<Byte>, rest: seq<Byte>, k: Counters, goal: seq<Part>, k': Counters)
    requires Seeking(row, rest, k, goal) && rest != [] && rest[0] == VTAB
    requires k' == k.(line := k.line + 1, max := Max(k.max, k.line + 1)) && k'.line != k'.target
    ensures Seeking(row, rest[1..], k', goal)
  {
    assert Scanning(row, rest, k) && (k.hit || k.line < k.target) by {
      assert Key(0);
    }
    BreakRead(row, rest, k, k');
    StillSeeking(row, rest, k, rest[1..], k', goal);
  }

  /** In the same cell, on the way to the same part. */
  lemma StillSeeking(row: seq<Byte>, rest: seq<Byte>, k: Counters, rest': seq<Byte>, k': Counters, goal: seq<Part>)
    requires Seeking(row, rest, k, goal) && Scanning(row, rest', k')
    requires rest != [] && rest[0] != TAB && k'.hit == k.hit && k'.target == k.target && k'.col == k.col
    requires k.line <= k'.line && (!k.hit ==> k'.line < k'.target)
    ensures Seeking(row, rest', k', goal)
  {
    assert Key(0);
  }

  /** A line break: the next line of the cell begins, which may be the one asked for. */
  lemma SeekOverLineBreak(row: seq<Byte>, rest: seq<Byte>, k: Counters, goal: seq<Part>, k': Counters)
    requires Seeking(row, rest, k, goal) && rest != [] && rest[0] == VTAB
    requires k' == k.(line := k.line + 1, max := Max(k.max, k.line + 1))
    ensures if k'.line == k'.target then Found(row, rest[1..], k'.(hit := true), PartLength(rest[1..]), goal)
            else Seeking(row, rest[1..], k', goal)
  {
    if k'.line == k'.target {
      LineBreakHits(row, rest, k, goal, k');
    } else {
      LineBreakMisses(row, rest, k, goal, k');
    }
  }

  /** The end of a cell that does not have the line asked for: an empty part. */
  lemma SeekMisses(row: seq<Byte>, rest: seq<Byte>, k: Counters, goal: seq<Part>)
    requires Seeking(row, rest, k, goal) && (rest == [] || rest[0] == TAB) && !k.hit
    ensures Found(row, rest, k.(hit := true), PartLength(rest), goal)
  {
    assert Key(0);
    FoundHere(row, rest, k, goal);
  }

  /** A tab: the next cell begins, with its first line. */
  lemma TabBegins(row: seq<Byte>, rest: seq<Byte>, k: Counters, goal: seq<Part>, k': Counters)
    requires Seeking(row, rest, k, goal) && rest != [] && rest[0] == TAB && k.hit
    requires k' == k.(col := k.col + 1, line := 0, hit := false)
    ensures Scanning(row, rest[1..], k') && Starting(row, rest[1..], k'.col, 0)
    ensures k'.target < Height(row) && goal == GridFrom(row, k'.target, k'.col)
  {
    assert Key(0);
    CellEnds(row, rest, k.col, k.line);
    ReadTab(row, rest, k.col, k.line);
    AllBreaksSeen(row, k.col, k.line, k.target, k.max);
  }

  /** The first line of the cell may be the one asked for. */
  lemma SeekOverTab(row: seq<Byte>, rest: seq<Byte>, k: Counters, goal: seq<Part>, k': Counters)
    requires Seeking(row, rest, k, goal) && rest != [] && rest[0] == TAB && k.hit
    requires k' == k.(col := k.col + 1, line := 0, hit := false)
    ensures if k'.line == k'.target then Found(row, rest[1..], k'.(hit := true), PartLength(rest[1..]), goal)
            else Seeking(row, rest[1..], k', goal)
  {
    TabBegins(row, rest, k, goal, k');
    if k'.line == k'.target {
      FoundHere(row, rest[1..], k', goal);
    }
  }

  /** The end of the row: the next line begins, or the row is done. */
  lemma SeekOverRow(row: seq<Byte>, k: Counters, goal: seq<Part>, k': Counters)
    requires Seeking(row, [], k, goal) && k.hit
    requires k' == Counters(0, 0, k.target + 1, k.max, false)
    ensures if k'.target > k'.max then goal == [] && Placed(row, [], k.(target := k.target + 1), 0, [])
            else Seeking(row, row, k', goal)
  {
    assert Key(0);
    CellEnds(row, [], k.col, k.line);
    AllBreaksSeen(row, k.col, k.line, k.target, k.max);
    StartsAtRow(row);
    if k.target < Height(row) {
      assert goal == GridFrom(row, k.target + 1, 0);
    }
  }

  /** `text[from..end]` is the rest of a row. */
  ghost predicate RowTail(text: seq<Byte>, from: nat, end: nat) {
    from <= end <= |text| && (forall k :: from <= k < end ==> text[k] != LF) && (end < |text| ==> text[end] == LF)
  }

  /** The bytes from `from` to `i` belong to one part and take `columns` columns. */
  ghost predicate WithinPart(text: seq<Byte>, from: nat, i: nat, end: nat, columns: nat) {
    forall k {:trigger Key(k)} :: Key(k) ==>
      && Printable(text) && RowTail(text, from, end) && from <= i <= end
      && PartLength(text[from..end]) == i - from + PartLength(text[i..end])
      && Whole(text, from, i) && columns == Columns(text, from, i)
  }

  lemma PartBegins(text: seq<Byte>, from: nat, end: nat)
    requires Printable(text) && RowTail(text, from, end)
    ensures WithinPart(text, from, from, end, 0)
  {
  }

  lemma PartGoesOn(text: seq<Byte>, from: nat, i: nat, end: nat, columns: nat)
    requires WithinPart(text, from, i, end, columns)
    requires i < |text| && text[i] != VTAB && text[i] != TAB && text[i] != LF
    ensures Printable(text) && WithinPart(text, from, CharEnd(text, i), end, columns + CharColumns(text, i))
  {
    assert Key(0);
    var j := CharEnd(text, i);
    PartOverChar(text, i, j, end);
    WholeJoin(text, from, i, j);
  }

  lemma PartEnds(text: seq<Byte>, from: nat, i: nat, end: nat, columns: nat)
    requires WithinPart(text, from, i, end, columns)
    requires i < |text| ==> text[i] == VTAB || text[i] == TAB || text[i] == LF
    ensures from <= i <= end <= |text| && i - from == PartLength(text[from..end])
    ensures Printable(text) && columns == Columns(text, from, i)
  {
    assert Key(0);
    assert i < end ==> text[i] in text[from..end];
  }

  /** The bytes and the screen columns of the part of `text` at `from`; its row ends at `end`. */
  method MeasurePart(text: seq<Byte>, from: nat, ghost end: nat) returns (len: nat, screenlen: nat)
    requires Printable(text) && RowTail(text, from, end)
    ensures from + len <= |text| && len == PartLength(text[from..end])
    ensures screenlen == Columns(text, from, from + len)
  {
    screenlen := 0;
    var i := from;
    PartBegins(text, from, end);
    while i < |text| && text[i] != VTAB && text[i] != TAB && text[i] != LF
      invariant from <= i <= |text| && WithinPart(text, from, i, end, screenlen)
      decreases |text| - i
    {
      PartGoesOn(text, from, i, end, screenlen);
      var j, wide := DecodeChar(text, i);
      screenlen := screenlen + if wide then 2 else 1;
      i := j;
    }
    PartEnds(text, from, i, end, screenlen);
    len := i - from;
  }

  /** Continuation bytes separate nothing, so that a character belongs to one part. */
  lemma {:induction false} PartOverChar(text: seq<Byte>, i: nat, j: nat, end: nat)
    requires i < j <= |text| && i < end <= |text| && (end < |text| ==> text[end] == LF)
    requires text[i] != VTAB && text[i] != TAB
    requires forall k :: i < k < j ==> IsContinuation(text[k])
    ensures j <= end && PartLength(text[i..end]) == j - i + PartLength(text[j..end])
    decreases j - i
  {
    assert text[i..end][1..] == text[i + 1..end];
    if i + 1 < j {
      assert IsContinuation(text[i + 1]);
      PartOverChar(text, i + 1, j, end);
    }
  }

  /** Before anything is read, the iterator stands in front of the first part. */
  lemma FirstPart(row: seq<Byte>, goal: seq<Part>)
    requires goal == Grid(row)
    ensures Found(row, row, Counters(0, 0, 0, 0, true), PartLength(row), goal)
  {
    StartsAtRow(row);
    assert Cells(row)[..0] == [];
    FoundHere(row, row, Counters(0, 0, 0, 0, true), goal);
  }

  class LinePartIterator {
    const helps: Helps
    var tablestart: nat
    var rowdesc: Maybe<nat>
    var rowstart: Maybe<nat>
    var ptr: Maybe<nat>
    var col: int
    var len: nat
    var screenlen: nat
    var maxLineInBlock: nat
    var lineInBlock: nat
    var targetLineInBlock: nat
    var hitTargetLine: bool

    /** The help text that the pointers point into. */
    ghost predicate InText()
      reads `rowdesc, `rowstart, `ptr
    {
      && Readable(helps) && rowdesc.Just? && rowdesc.value < |helps| && helps[rowdesc.value].Just?
      && rowstart.Just? && ptr.Just? && rowstart.value <= |helps[rowdesc.value].value|
      && rowstart.value <= ptr.value <= RowEnd(helps[rowdesc.value].value, rowstart.value)
    }

    ghost function Text(): (s: seq<Byte>)
      requires InText()
      reads `rowdesc, `rowstart, `ptr
      ensures Printable(s)
    {
      helps[rowdesc.value].value
    }

    /** The current row. */
    ghost function Row(): (row: seq<Byte>)
      requires InText()
      reads `rowdesc, `rowstart, `ptr
    {
      Text()[rowstart.value..RowEnd(Text(), rowstart.value)]
    }

    /** What of the current row lies behind the pointer. */
    ghost function Behind(): (rest: seq<Byte>)
      requires InText()
      reads `rowdesc, `rowstart, `ptr
    {
      Text()[ptr.value..RowEnd(Text(), rowstart.value)]
    }

    ghost function Position(): (k: Counters)
      requires col >= 0
      reads `col, `lineInBlock, `targetLineInBlock, `maxLineInBlock, `hitTargetLine
    {
      Counters(col, lineInBlock, targetLineInBlock, maxLineInBlock, hitTargetLine)
    }

    /** No part of the row has been asked for yet. */
    ghost predicate AtStart()
      reads `rowstart, `ptr, `col, `maxLineInBlock, `lineInBlock, `targetLineInBlock, `hitTargetLine
    {
      && ptr == rowstart && col == -1
      && lineInBlock == 0 && targetLineInBlock == 0 && maxLineInBlock == 0 && hitTargetLine
    }

    /** The iterator is in a row, and `ahead` are the parts that are still to come. */
    ghost predicate Yields(ahead: seq<Part>)
      reads this
    {
      InText() &&
      if col == -1 then AtStart() && ahead == Grid(Row())
      else col >= 0 && Placed(Row(), Behind(), Position(), len, ahead)
    }

    /** The iterator stands at the first of `parts`, which it has measured, and the others are still to come. */
    ghost predicate StandsAt(parts: seq<Part>)
      reads this
    {
      && InText() && col >= 0 && Found(Row(), Behind(), Position(), len, parts)
      && ptr.value + len <= |Text()| && screenlen == Columns(Text(), ptr.value, ptr.value + len)
    }

    /** The inner loop is on its way to the first of `goal`. */
    ghost predicate Seeks(goal: seq<Part>)
      reads `rowdesc, `rowstart, `ptr, `col, `lineInBlock, `targetLineInBlock, `maxLineInBlock, `hitTargetLine
    {
      InText() && col >= 0 && Seeking(Row(), Behind(), Position(), goal)
    }

    /** Measures the part at the pointer. */
    method UpdateLength()
      requires InText()
      modifies `len, `screenlen
      ensures len == PartLength(Behind()) && ptr.value + len <= |Text()|
      ensures screenlen == Columns(Text(), ptr.value, ptr.value + len)
    {
      RowEndIsLineFeed(Text(), rowstart.value);
      len, screenlen := MeasurePart(helps[rowdesc.value].value, ptr.value, RowEnd(Text(), rowstart.value));
    }

    /** The pointer moves over bytes of the row. */
    method Advance(n: nat)
      requires InText() && n <= |Behind()|
      modifies `ptr
      ensures InText() && Row() == old(Row()) && Behind() == old(Behind())[n..]
    {
      SliceBehind(Text(), ptr.value, n, RowEnd(Text(), rowstart.value));
      ptr := Just(ptr.value + n);
    }

    /** The scan has found a part: measures it. */
    method Hit(ghost goal: seq<Part>)
      requires InText() && col >= 0 && Found(Row(), Behind(), Position().(hit := true), PartLength(Behind()), goal)
      modifies `len, `screenlen, `hitTargetLine
      ensures StandsAt(goal)
    {
      ghost var row, rest, k := Row(), Behind(), Position().(hit := true);
      hitTargetLine := true;
      UpdateLength();
      assert Row() == row && Behind() == rest && Position() == k;
    }

    method MeetLineBreak(ghost goal: seq<Part>) returns (found: bool)
      requires Seeks(goal) && Behind() != [] && Behind()[0] == VTAB
      modifies `ptr, `maxLineInBlock, `lineInBlock, `len, `screenlen, `hitTargetLine
      ensures if found then StandsAt(goal)
              else Seeks(goal) && Behind() == old(Behind())[1..] && hitTargetLine == old(hitTargetLine)
    {
      ghost var row, rest, k := Row(), Behind(), Position();
      lineInBlock := lineInBlock + 1;
      maxLineInBlock := Max(maxLineInBlock, lineInBlock);
      Advance(1);
      SeekOverLineBreak(row, rest, k, goal, Position());
      found := lineInBlock == targetLineInBlock;
      if found {
        Hit(goal);
      }
    }

    /** The cell ends without the line asked for: an empty part is inserted. */
    method Insert(ghost goal: seq<Part>)
      requires Seeks(goal) && (Behind() == [] || Behind()[0] == TAB) && !hitTargetLine
      modifies `len, `screenlen, `hitTargetLine
      ensures StandsAt(goal)
    {
      SeekMisses(Row(), Behind(), Position(), goal);
      Hit(goal);
    }

    method MeetTab(ghost goal: seq<Part>) returns (found: bool)
      requires Seeks(goal) && Behind() != [] && Behind()[0] == TAB
      modifies `ptr, `col, `lineInBlock, `len, `screenlen, `hitTargetLine
      ensures if found then StandsAt(goal) else Seeks(goal) && old(hitTargetLine) && !hitTargetLine
    {
      if !hitTargetLine {
        Insert(goal);
        return true;
      }
      ghost var row, rest, k := Row(), Behind(), Position();
      hitTargetLine := false;
      lineInBlock := 0;
      col := col + 1;
      Advance(1);
      SeekOverTab(row, rest, k, goal, Position());
      found := lineInBlock == targetLineInBlock;
      if found {
        Hit(goal);
      }
    }

    method MeetEnd(ghost goal: seq<Part>) returns (done: bool, found: bool)
      requires Seeks(goal) && Behind() == []
      modifies `ptr, `col, `lineInBlock, `targetLineInBlock, `len, `screenlen, `hitTargetLine
      ensures if found then done && StandsAt(goal)
              else if done then goal == [] && Yields([])
              else Seeks(goal) && old(hitTargetLine) && !hitTargetLine
    {
      if hitTargetLine {
        done := NextLine(goal);
        found := false;
      } else {
        Insert(goal);
        done, found := true, true;
      }
    }

    /** All cells have been passed for the line asked for: asks for the next one, from the start of the row. */
    method NextLine(ghost goal: seq<Part>) returns (done: bool)
      requires Seeks(goal) && Behind() == [] && hitTargetLine
      modifies `ptr, `col, `lineInBlock, `targetLineInBlock, `len, `screenlen, `hitTargetLine
      ensures if done then goal == [] && Yields([]) else Seeks(goal) && !hitTargetLine
    {
      ghost var k := Counters(0, 0, targetLineInBlock + 1, maxLineInBlock, false);
      SeekOverRow(Row(), Position(), goal, k);
      targetLineInBlock := targetLineInBlock + 1;
      done := targetLineInBlock > maxLineInBlock;
      if done {
        UpdateLength();
        assert Position() == old(Position()).(target := old(targetLineInBlock) + 1);
      } else {
        Rewind();
        assert Position() == k;
      }
    }

    method Rewind()
      requires InText()
      modifies `ptr, `col, `lineInBlock, `hitTargetLine
      ensures InText() && Row() == old(Row()) && Behind() == Row()
      ensures col == 0 && lineInBlock == 0 && !hitTargetLine
    {
      hitTargetLine := false;
      lineInBlock := 0;
      col := 0;
      ptr := rowstart;
    }

    /** One round of the inner loop. */
    method Round(ghost goal: seq<Part>) returns (done: bool, found: bool)
      requires Seeks(goal)
      modifies `ptr, `col, `maxLineInBlock, `lineInBlock, `targetLineInBlock, `len, `screenlen, `hitTargetLine
      ensures if found then StandsAt(goal)
              else if done then goal == [] && Yields([])
              else Seeks(goal) && if old(hitTargetLine) then !hitTargetLine || |Behind()| < |old(Behind())|
                                  else !hitTargetLine && |Behind()| < |old(Behind())|
    {
      var c := CharAt(helps[rowdesc.value].value, ptr.value);
      RowEndIsLineFeed(Text(), rowstart.value);
      done, found := false, false;
      if c == VTAB {
        found := MeetLineBreak(goal);
      } else if c == TAB {
        found := MeetTab(goal);
      } else if c == 0 || c == LF {
        done, found := MeetEnd(goal);
      } else {
        SeekOverByte(Row(), Behind(), Position(), goal);
        Advance(1);
      }
    }

    /** The inner loop ends because it passes the end of the row at most once. */
    method Seek(ghost goal: seq<Part>) returns (found: bool)
      requires Seeks(goal)
      modifies `ptr, `col, `maxLineInBlock, `lineInBlock, `targetLineInBlock, `len, `screenlen, `hitTargetLine
      ensures if found then StandsAt(goal) else goal == [] && Yields([])
    {
      while true
        invariant Seeks(goal)
        decreases hitTargetLine, |Behind()|
      {
        var done;
        done, found := Round(goal);
        if done || found {
          return;
        }
      }
    }

    /** The scan begins behind the part that the iterator stands at. */
    method Leave(ghost ahead: seq<Part>)
      requires Yields(ahead) && col >= 0
      modifies `ptr
      ensures Seeks(ahead)
    {
      SeekBehind(Row(), Behind(), Position(), len, ahead);
      Advance(len);
    }

    method Begin(ghost ahead: seq<Part>)
      requires Yields(ahead) && col == -1
      modifies `col, `len, `screenlen
      ensures StandsAt(ahead)
    {
      FirstPart(Row(), ahead);
      assert Behind() == Row();
      col := 0;
      UpdateLength();
      assert Position() == Counters(0, 0, 0, 0, true);
    }

    /** From a row on to the first of its parts that are still to come. */
    method Step(ghost ahead: seq<Part>) returns (r: bool)
      requires Yields(ahead)
      modifies `ptr, `col, `maxLineInBlock, `lineInBlock, `targetLineInBlock, `len, `screenlen, `hitTargetLine
      ensures r <==> ahead != []
      ensures if r then StandsAt(ahead) else Yields([])
    {
      if col == -1 {
        Begin(ahead);
        r := true;
      } else {
        Leave(ahead);
        r := Seek(ahead);
      }
    }

    /** The iterator has a row, `ahead` are its parts that are still to come, and `rows` the rows behind it. */
    ghost predicate InRow(row: seq<Byte>, ahead: seq<Part>, rows: seq<seq<Byte>>)
      reads this
    {
      ptr != Nothing && forall k {:trigger Key(k)} :: Key(k) ==>
        InText() && Row() == row && Yields(ahead) && rows == RowsBehind(helps, rowdesc.value, rowstart.value)
    }

    /** The iterator stands at the first of `parts`, which it has measured. */
    ghost predicate AtPart(row: seq<Byte>, parts: seq<Part>)
      reads this
    {
      forall k {:trigger Key(k)} :: Key(k) ==> StandsAt(parts) && Row() == row
    }

    /**
      Moves on to the first of the parts that are still to come; there is none
      behind the last one.  Without a row there is nothing to come.
    */
    method Next(ghost row: seq<Byte>, ghost ahead: seq<Part>, ghost rows: seq<seq<Byte>>) returns (r: bool)
      requires ptr != Nothing ==> InRow(row, ahead, rows)
      modifies `ptr, `col, `maxLineInBlock, `lineInBlock, `targetLineInBlock, `len, `screenlen, `hitTargetLine
      ensures if old(ptr) == Nothing then !r && unchanged(this)
              else (r <==> ahead != []) && InRow(row, if r then ahead[1..] else [], rows)
      ensures r ==> AtPart(row, ahead)
    {
      if ptr == Nothing {
        return false;
      }
      assert Key(0);
      r := Step(ahead);
    }

    // ---------- Rows and tables ----------

    constructor (helps: Helps)
      ensures this.helps == helps && tablestart == 0 && rowdesc == Nothing && ptr == Nothing
    {
      this.helps := helps;
      tablestart := 0;
      rowdesc, rowstart, ptr := Nothing, Nothing, Nothing;
      col, len, screenlen := -1, 0, 0;
      maxLineInBlock, lineInBlock, targetLineInBlock, hitTargetLine := 0, 0, 0, true;
    }

    /** The rows of the table that come behind the current one; all of them if there is no current one yet. */
    ghost predicate Upcoming(rows: seq<seq<Byte>>)
      reads `tablestart, `rowdesc, `rowstart, `ptr
    {
      forall k {:trigger Key(k)} :: Key(k) ==>
        if ptr == Nothing then
          && Readable(helps) && rowdesc == Just(tablestart) && rows == Rows(helps, tablestart)
          && rowstart == if HelpAt(helps, tablestart).Just? then Just(0) else Nothing
        else InText() && rows == RowsBehind(helps, rowdesc.value, rowstart.value)
    }

    lemma InSomeTable(rows: seq<seq<Byte>>)
      requires Upcoming(rows)
      ensures rowdesc != Nothing
    {
      assert Key(0);
    }

    lemma BehindRow(row: seq<Byte>, ahead: seq<Part>, rows: seq<seq<Byte>>)
      requires InRow(row, ahead, rows)
      ensures Upcoming(rows)
    {
      assert Key(0);
    }

    method RestartTable()
      requires Readable(helps)
      modifies `rowdesc, `rowstart, `ptr
      ensures ptr == Nothing && rowdesc != Nothing && (rowstart != Nothing <==> HelpAt(helps, tablestart).Just?)
      ensures Upcoming(Rows(helps, tablestart))
    {
      rowdesc := Just(tablestart);
      rowstart := if HelpAt(helps, tablestart).Just? then Just(0) else Nothing;
      ptr := Nothing;
    }

    /** Moves to the next table: behind the current one, if there is one, and behind what separates tables. */
    method NextTable() returns (r: bool)
      requires Readable(helps) && tablestart <= |helps|
      modifies `tablestart, `rowdesc, `rowstart, `ptr
      ensures var from := if old(rowdesc) == Nothing then old(tablestart) else NextWhere(helps, old(tablestart), false);
              tablestart == NextWhere(helps, from, true)
      ensures r <==> tablestart < |helps|
      ensures ptr == Nothing && rowdesc != Nothing && Upcoming(Rows(helps, tablestart))
    {
      if rowdesc != Nothing {
        while tablestart < |helps| && helps[tablestart].Just?
          invariant tablestart <= |helps|
                    && NextWhere(helps, tablestart, false) == NextWhere(helps, old(tablestart), false)
          decreases |helps| - tablestart
        {
          tablestart := tablestart + 1;
        }
      }
      ghost var from := tablestart;
      while tablestart < |helps| && helps[tablestart].Nothing?
        invariant tablestart <= |helps| && NextWhere(helps, tablestart, true) == NextWhere(helps, from, true)
        decreases |helps| - tablestart
      {
        tablestart := tablestart + 1;
      }
      RestartTable();
      r := rowstart != Nothing;
    }

    method RestartRow()
      modifies `ptr, `col, `len, `screenlen, `maxLineInBlock, `lineInBlock, `targetLineInBlock, `hitTargetLine
      ensures ptr == rowstart && AtStart()
    {
      ptr := rowstart;
      col := -1;
      len := 0;
      screenlen := 0;
      maxLineInBlock := 0;
      lineInBlock := 0;
      targetLineInBlock := 0;
      hitTargetLine := true;
    }

    /** Moves the pointer to the end of the row. */
    method SkipRow()
      requires InText()
      modifies `ptr
      ensures InText() && ptr.value == RowEnd(Text(), rowstart.value)
    {
      var text := helps[rowdesc.value].value;
      ghost var end := RowEnd(text, rowstart.value);
      RowEndIsLineFeed(text, rowstart.value);
      while CharAt(text, ptr.value) != 0 && CharAt(text, ptr.value) != LF
        invariant ptr.Just? && rowstart.value <= ptr.value <= end
        decreases |text| - ptr.value
      {
        ptr := Just(ptr.value + 1);
      }
    }

    /** Goes back to the first part of the row. */
    method BeginAgain(ghost row: seq<Byte>, ghost ahead: seq<Part>, ghost rows: seq<seq<Byte>>)
      requires InRow(row, ahead, rows)
      modifies `ptr, `col, `len, `screenlen, `maxLineInBlock, `lineInBlock, `targetLineInBlock, `hitTargetLine
      ensures InRow(row, Grid(row), rows)
    {
      assert Key(0);
      RestartRow();
    }

    /** Begins the row at `rowstart`. */
    method EnterRow(ghost rows: seq<seq<Byte>>)
      requires Readable(helps) && rowdesc.Just? && HelpAt(helps, rowdesc.value).Just?
      requires rowstart.Just? && rowstart.value <= |helps[rowdesc.value].value|
      requires rows == RowsAt(helps, rowdesc.value, rowstart.value)
      modifies `ptr, `col, `len, `screenlen, `maxLineInBlock, `lineInBlock, `targetLineInBlock, `hitTargetLine
      ensures InRow(rows[0], Grid(rows[0]), rows[1..])
    {
      RowsFrom(helps, rowdesc.value, rowstart.value);
      RestartRow();
      assert InText() && Row() == rows[0];
    }

    /** Moves to the next row of the table; there is none behind the last one. */
    method NextRow(ghost rows: seq<seq<Byte>>) returns (r: bool)
      requires Upcoming(rows)
      modifies `rowdesc, `rowstart, `ptr, `col, `len, `screenlen, `maxLineInBlock, `lineInBlock, `targetLineInBlock,
               `hitTargetLine
      ensures r <==> rows != []
      ensures if r then InRow(rows[0], Grid(rows[0]), rows[1..]) else Upcoming([])
    {
      assert Key(0);
      if ptr == Nothing {
        if rowstart != Nothing {
          RowsFromStart(helps, rowdesc.value);
          EnterRow(rows);
        } else {
          RestartRow();
        }
        return rowstart != Nothing;
      }
      RowsFrom(helps, rowdesc.value, rowstart.value);
      SkipRow();
      if CharAt(helps[rowdesc.value].value, ptr.value) == 0 {
        if HelpAt(helps, rowdesc.value + 1) == Nothing {
          return false;
        }
        rowdesc := Just(rowdesc.value + 1);
        rowstart := Just(0);
        RowsFromStart(helps, rowdesc.value);
      } else {
        rowstart := Just(ptr.value + 1);
      }
      EnterRow(rows);
      r := true;
    }
  }

  /** The row that begins at offset `from` of help text `d`, and those behind it. */
  ghost function RowsAt(helps: Helps, d: nat, from: nat): (rows: seq<seq<Byte>>)
    requires HelpAt(helps, d).Just? && from <= |helps[d].value|
    ensures rows != []
  {
    Split(helps[d].value[from..], LF) + Rows(helps, d + 1)
  }

  ghost function RowsBehind(helps: Helps, d: nat, from: nat): seq<seq<Byte>>
    requires HelpAt(helps, d).Just? && from <= |helps[d].value|
  {
    RowsAt(helps, d, from)[1..]
  }

  /**
    A row ends at a line feed, behind which the next one begins, or with its help
    text, and then the next text begins.
  */
  lemma RowsFrom(helps: Helps, d: nat, from: nat)
    requires HelpAt(helps, d).Just? && from <= |helps[d].value|
    ensures var text := helps[d].value;
            var end := RowEnd(text, from);
            && RowsAt(helps, d, from)[0] == text[from..end]
            && RowsBehind(helps, d, from) == if end == |text| then Rows(helps, d + 1) else RowsAt(helps, d, end + 1)
  {
    var text := helps[d].value;
    FirstRow(text, from);
    var first, more := Split(text[from..], LF), Rows(helps, d + 1);
    assert (first + more)[1..] == first[1..] + more;
  }

  lemma FirstRow(text: seq<Byte>, from: nat)
    requires from <= |text|
    ensures var end := RowEnd(text, from);
            var rows := Split(text[from..], LF);
            rows[0] == text[from..end] && rows[1..] == if end == |text| then [] else Split(text[end + 1..], LF)
  {
    var end := RowEnd(text, from);
    var rest, n := text[from..], end - from;
    RowEndIsLineFeed(text, from);
    assert rest[..n] == text[from..end];
    FirstPiece(rest, LF, n);
    if n < |rest| {
      SliceBehind(text, from, n + 1, |text|);
      assert text[from..|text|] == rest && text[end + 1..|text|] == text[end + 1..];
    }
  }

  lemma RowsFromStart(helps: Helps, d: nat)
    requires HelpAt(helps, d).Just?
    ensures RowsAt(helps, d, 0) == Rows(helps, d)
  {
    assert helps[d].value[0..] == helps[d].value;
  }

  /** The character of a C string at an offset: 0 at its end. */
  function CharAt(s: seq<Byte>, i: nat): Byte
    requires i <= |s|
  {
    if i < |s| then s[i] else 0
  }

  /** The end of the row that begins at `i`. */
  function RowEnd(s: seq<Byte>, i: nat): (j: nat)
    requires i <= |s|
    ensures i <= j <= |s|
    decreases |s| - i
  {
    if i == |s| || s[i] == LF then i else RowEnd(s, i + 1)
  }

  /** A row ends at the first line feed, or else with the text. */
  lemma {:induction false} RowEndIsLineFeed(s: seq<Byte>, i: nat)
    requires i <= |s|
    ensures RowTail(s, i, RowEnd(s, i))
    decreases |s| - i
  {
    if i < |s| && s[i] != LF {
      RowEndIsLineFeed(s, i + 1);
    }
  }
}
