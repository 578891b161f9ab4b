/**
  How a help text is a grid.  Rows are separated by line feeds, the cells of a
  row by tabs, the lines of a cell by vertical tabs.  A row is read line by
  line, and every line has a part for every cell, empty if the cell has fewer
  lines.
*/
module HelpGrid {
  import opened Basics
  import opened Sequences
  import opened Utf8Width

  const TAB: Byte := 0x09
  const VTAB: Byte := 0x0B
  const LF: Byte := 0x0A

  /** The pieces between separators; a text without separators is one piece. */
  function Split(s: seq<Byte>, sep: Byte): (pieces: seq<seq<Byte>>)
    ensures |pieces| >= 1
  {
    if s == [] then [[]]
    else if s[0] == sep then [[]] + Split(s[1..], sep)
    else
      var more := Split(s[1..], sep);
      [[s[0]] + more[0]] + more[1..]
  }

  /** The pieces joined by separators. */
  function Join(pieces: seq<seq<Byte>>, sep: Byte): (s: seq<Byte>)
    requires pieces != []
  {
    if |pieces| == 1 then pieces[0] else pieces[0] + [sep] + Join(pieces[1..], sep)
  }

  /** Splitting is the inverse of joining: the pieces hold no separator and make up the text. */
  lemma {:induction false} SplitJoins(s: seq<Byte>, sep: Byte)
    ensures Join(Split(s, sep), sep) == s
    ensures forall p :: p in Split(s, sep) ==> sep !in p
  {
    if s != [] {
      SplitJoins(s[1..], sep);
      var more := Split(s[1..], sep);
      if s[0] == sep {
        assert Split(s, sep)[1..] == more;
      } else {
        var first := [s[0]] + more[0];
        assert Split(s, sep) == [first] + more[1..];
        if |more| > 1 {
          assert Split(s, sep)[1..] == more[1..];
          assert [s[0]] + (more[0] + [sep] + Join(more[1..], sep)) == first + [sep] + Join(more[1..], sep);
        }
        forall p | p in Split(s, sep)
          ensures sep !in p
        {
          assert p == first || p in more;
          assert more[0] in more;
        }
      }
    }
  }

  /** Without the separator, a prefix up to a separator or the end is the first piece. */
  lemma {:induction false} FirstPiece(s: seq<Byte>, sep: Byte, n: nat)
    requires n <= |s| && sep !in s[..n] && (n < |s| ==> s[n] == sep)
    ensures Split(s, sep)[0] == s[..n]
    ensures n < |s| ==> Split(s, sep)[1..] == Split(s[n + 1..], sep)
    ensures n == |s| ==> Split(s, sep)[1..] == []
  {
    if n > 0 {
      assert s[0] == s[..n][0];
      assert s[1..][..n - 1] == s[..n][1..];
      FirstPiece(s[1..], sep, n - 1);
      assert s[..n] == [s[0]] + s[1..][..n - 1];
    }
  }

  /** And joining is the inverse of splitting, for pieces that hold no separator. */
  lemma {:induction false} JoinSplits(pieces: seq<seq<Byte>>, sep: Byte)
    requires pieces != [] && forall p :: p in pieces ==> sep !in p
    ensures Split(Join(pieces, sep), sep) == pieces
  {
    var s, first := Join(pieces, sep), pieces[0];
    assert s[..|first|] == first;
    FirstPiece(s, sep, |first|);
    if |pieces| > 1 {
      JoinSplits(pieces[1..], sep);
      assert s[|first| + 1..] == Join(pieces[1..], sep);
    }
    assert Split(s, sep) == [Split(s, sep)[0]] + Split(s, sep)[1..];
  }

  function Cells(row: seq<Byte>): (cells: seq<seq<Byte>>)
    ensures |cells| >= 1
  {
    Split(row, TAB)
  }

  function Parts(cell: seq<Byte>): (parts: seq<seq<Byte>>)
    ensures |parts| >= 1
  {
    Split(cell, VTAB)
  }

  function Max(a: nat, b: nat): nat {
    if a >= b then a else b
  }

  /** The largest number of line breaks within one cell. */
  function MaxBreaks(cells: seq<seq<Byte>>): (n: nat)
    ensures forall c :: c in cells ==> |Parts(c)| <= n + 1
    ensures n > 0 ==> exists c :: c in cells && |Parts(c)| == n + 1
  {
    if cells == [] then 0 else
      var n := |cells| - 1;
      Max(MaxBreaks(cells[..n]), |Parts(cells[n])| - 1)
  }

  function Height(row: seq<Byte>): (n: nat)
    ensures n >= 1
  {
    MaxBreaks(Cells(row)) + 1
  }

  /** One entry of the grid. */
  datatype Part = Part(column: nat, line: nat, text: seq<Byte>)

  function PartText(row: seq<Byte>, column: nat, line: nat): seq<Byte>
    requires column < |Cells(row)|
  {
    var parts := Parts(Cells(row)[column]);
    if line < |parts| then parts[line] else []
  }

  /** The rest of the grid of a row from a line and column on, line by line. */
  function GridFrom(row: seq<Byte>, line: nat, column: nat): (grid: seq<Part>)
    decreases Height(row) - line, |Cells(row)| - column
  {
    if line >= Height(row) then []
    else if column >= |Cells(row)| then GridFrom(row, line + 1, 0)
    else [Part(column, line, PartText(row, column, line))] + GridFrom(row, line, column + 1)
  }

  function Grid(row: seq<Byte>): seq<Part> {
    GridFrom(row, 0, 0)
  }

  /** Line `line` of a row from a column on: a part for every column. */
  function LineFrom(row: seq<Byte>, line: nat, column: nat): (parts: seq<Part>)
    requires column <= |Cells(row)|
    ensures |parts| == |Cells(row)| - column
    ensures forall k :: 0 <= k < |parts| ==> parts[k] == Part(column + k, line, PartText(row, column + k, line))
    decreases |Cells(row)| - column
  {
    if column == |Cells(row)| then [] else
      var more := LineFrom(row, line, column + 1);
      [Part(column, line, PartText(row, column, line))] + more
  }

  /** The grid is complete and in order: line after line, each with all its columns. */
  lemma {:induction false} GridLine(row: seq<Byte>, line: nat, column: nat)
    requires line < Height(row) && column <= |Cells(row)|
    ensures GridFrom(row, line, column) == LineFrom(row, line, column) + GridFrom(row, line + 1, 0)
    decreases |Cells(row)| - column
  {
    if column < |Cells(row)| {
      GridLine(row, line, column + 1);
      Associative([Part(column, line, PartText(row, column, line))], LineFrom(row, line, column + 1),
                  GridFrom(row, line + 1, 0));
    }
  }

  /** No part of a cell is lost: every line of every cell is an entry of the grid. */
  lemma {:induction false} GridHasEveryPart(row: seq<Byte>, from: nat, line: nat, column: nat)
    requires from <= line && column < |Cells(row)| && line < |Parts(Cells(row)[column])|
    ensures Part(column, line, Parts(Cells(row)[column])[line]) in GridFrom(row, from, 0)
    decreases line - from
  {
    var part := Part(column, line, Parts(Cells(row)[column])[line]);
    PartIsInLine(row, line, column);
    assert part in LineFrom(row, from, 0) || part in GridFrom(row, from + 1, 0) by {
      if from < line {
        GridHasEveryPart(row, from + 1, line, column);
      }
    }
    GridLine(row, from, 0);
    InEither(part, LineFrom(row, from, 0), GridFrom(row, from + 1, 0));
  }

  lemma PartIsInLine(row: seq<Byte>, line: nat, column: nat)
    requires column < |Cells(row)| && line < |Parts(Cells(row)[column])|
    ensures line < Height(row)
    ensures Part(column, line, Parts(Cells(row)[column])[line]) in LineFrom(row, line, 0)
  {
    assert Cells(row)[column] in Cells(row);
    assert LineFrom(row, line, 0)[column] == Part(column, line, Parts(Cells(row)[column])[line]);
  }

  // ---------- Tables ----------

  /** The help texts of a table of descriptors; a missing help text separates tables. */
  type Helps = seq<Maybe<seq<Byte>>>

  predicate Readable(helps: Helps) {
    forall h :: h in helps && h.Just? ==> Printable(h.value)
  }

  function HelpAt(helps: Helps, d: nat): Maybe<seq<Byte>> {
    if d < |helps| then helps[d] else Nothing
  }

  /** The rows of the descriptors from `d` up to the next table break. */
  function Rows(helps: Helps, d: nat): (rows: seq<seq<Byte>>)
    ensures rows == [] <==> HelpAt(helps, d).Nothing?
    decreases |helps| - d
  {
    if HelpAt(helps, d).Nothing? then [] else Split(helps[d].value, LF) + Rows(helps, d + 1)
  }

  /** The help texts of the descriptors from `d` up to the next table break. */
  function Texts(helps: Helps, d: nat): (texts: seq<seq<Byte>>)
    decreases |helps| - d
  {
    if HelpAt(helps, d).Nothing? then [] else [helps[d].value] + Texts(helps, d + 1)
  }

  lemma {:induction false} JoinOfBoth(a: seq<seq<Byte>>, b: seq<seq<Byte>>, sep: Byte)
    requires a != [] && b != []
    ensures Join(a + b, sep) == Join(a, sep) + [sep] + Join(b, sep)
  {
    if |a| == 1 {
      assert (a + b)[1..] == b;
    } else {
      JoinOfBoth(a[1..], b, sep);
      assert (a + b)[1..] == a[1..] + b;
      assert a[0] + [sep] + (Join(a[1..], sep) + [sep] + Join(b, sep))
          == (a[0] + [sep] + Join(a[1..], sep)) + [sep] + Join(b, sep);
    }
  }

  /** The rows of a table are the lines of its help texts, and nothing else. */
  lemma {:induction false} RowsAreTheLines(helps: Helps, d: nat)
    requires HelpAt(helps, d).Just?
    ensures Join(Rows(helps, d), LF) == Join(Texts(helps, d), LF)
    decreases |helps| - d
  {
    SplitJoins(helps[d].value, LF);
    var first, more := Split(helps[d].value, LF), Rows(helps, d + 1);
    if HelpAt(helps, d + 1).Just? {
      RowsAreTheLines(helps, d + 1);
      JoinOfBoth(first, more, LF);
      JoinOfBoth([helps[d].value], Texts(helps, d + 1), LF);
    } else {
      assert first + [] == first && [helps[d].value] + [] == [helps[d].value];
    }
  }

  /** The first descriptor from `d` on that belongs, or does not belong, to a table; the end if there is none. */
  function NextWhere(helps: Helps, d: nat, inTable: bool): (e: nat)
    requires d <= |helps|
    ensures d <= e <= |helps|
    ensures e < |helps| ==> helps[e].Just? == inTable
    ensures forall k :: d <= k < e ==> helps[k].Just? != inTable
    decreases |helps| - d
  {
    if d == |helps| || helps[d].Just? == inTable then d else NextWhere(helps, d + 1, inTable)
  }

  /** Where the tables from descriptor `d` on begin. */
  function Tables(helps: Helps, d: nat): (starts: seq<nat>)
    requires d <= |helps|
    ensures forall t :: t in starts ==> d <= t < |helps| && helps[t].Just?
    decreases |helps| - d
  {
    var t := NextWhere(helps, d, true);
    if t == |helps| then [] else [t] + Tables(helps, NextWhere(helps, t, false))
  }

  /** Every descriptor with a help text belongs to the table that begins last before it. */
  lemma {:induction false} TablesCover(helps: Helps, from: nat, d: nat)
    requires from <= d < |helps| && helps[d].Just?
    ensures exists t :: t in Tables(helps, from) && t <= d && forall k :: t <= k <= d ==> helps[k].Just?
    decreases |helps| - from
  {
    var t := NextWhere(helps, from, true);
    var e := NextWhere(helps, t, false);
    if d < e {
      assert t in Tables(helps, from);
    } else {
      TablesCover(helps, e, d);
      var u :| u in Tables(helps, e) && u <= d && forall k :: u <= k <= d ==> helps[k].Just?;
      InEither(u, [t], Tables(helps, e));
    }
  }
}
