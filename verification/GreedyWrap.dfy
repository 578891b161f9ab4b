/**
  Greedy line wrapping of a text, as a function: where each line ends, what
  the lines are, and that they are the text again.
*/
module GreedyWrap {
  import opened Utf8Width

  const SPACE: Byte := 0x20

  /** The end of the longest run of whole characters from `i` that fits `width` columns. */
  function FitEnd(s: seq<Byte>, i: nat, width: nat): (j: nat)
    requires i <= |s| && Printable(s)
    ensures i <= j <= |s|
    decreases |s| - i
  {
    if i == |s| || CharColumns(s, i) > width then i else FitEnd(s, CharEnd(s, i), width - CharColumns(s, i))
  }

  /** FitEnd fits, and no longer run of whole characters does. */
  lemma {:induction false} FitEndIsLongest(s: seq<Byte>, i: nat, width: nat, j: nat)
    requires i <= j <= |s| && Printable(s) && Whole(s, i, j)
    ensures Whole(s, i, FitEnd(s, i, width)) && Columns(s, i, FitEnd(s, i, width)) <= width
    ensures Columns(s, i, j) <= width <==> j <= FitEnd(s, i, width)
    decreases |s| - i
  {
    var end := FitEnd(s, i, width);
    if i < |s| && CharColumns(s, i) <= width {
      var n := CharEnd(s, i);
      if i < j {
        FitEndIsLongest(s, n, width - CharColumns(s, i), j);
      } else {
        FitEndIsLongest(s, n, width - CharColumns(s, i), n);
      }
    }
  }

  /** The last space at or before `j`, but not before `i`; `i - 1` if there is none. */
  function LastSpace(s: seq<Byte>, i: nat, j: nat): (k: int)
    requires i <= j < |s|
    ensures i - 1 <= k <= j
    ensures k >= i ==> s[k] == SPACE
    ensures forall l :: k < l <= j && i <= l ==> s[l] != SPACE
    decreases j
  {
    if s[j] == SPACE then j else if j == i then i - 1 else LastSpace(s, i, j - 1)
  }

  /** A line of the text: from `start` to `end`; the next one begins at `next`. */
  datatype Line = Line(start: nat, end: nat, next: nat)

  /** The line that begins at `i`. */
  function FirstLine(s: seq<Byte>, i: nat, width: nat): (l: Line)
    requires i < |s| && Printable(s) && width >= 2
    ensures i == l.start <= l.end <= l.next <= |s| && i < l.next
  {
    if Columns(s, i, |s|) <= width then Line(i, |s|, |s|)
    else
      TooLong(s, i, width);
      var fit := FitEnd(s, i, width);
      var space := LastSpace(s, i, fit);
      if space >= i then Line(i, space, space + 1) else Line(i, fit, fit)
  }

  /** If the rest of the text is too long, something fits, but not everything. */
  lemma TooLong(s: seq<Byte>, i: nat, width: nat)
    requires i < |s| && Printable(s) && width >= 2 && Columns(s, i, |s|) > width
    ensures i < FitEnd(s, i, width) < |s|
  {
    WholeBeforeStart(s, i, |s|);
    FitEndIsLongest(s, i, width, |s|);
  }

  /** All lines of the text from `i` on. */
  function Lines(s: seq<Byte>, i: nat, width: nat): (lines: seq<Line>)
    requires i <= |s| && Printable(s) && width >= 2
    ensures forall l :: l in lines ==> l.start <= l.end <= l.next <= |s|
    decreases |s| - i
  {
    if i == |s| then [] else
      var l := FirstLine(s, i, width);
      [l] + Lines(s, l.next, width)
  }

  function Text(s: seq<Byte>, l: Line): seq<Byte>
    requires l.start <= l.end <= |s|
  {
    s[l.start..l.end]
  }

  /** The pieces that the wrapper queues for a text. */
  function Wrap(s: seq<Byte>, i: nat, width: nat): (pieces: seq<seq<Byte>>)
    requires i <= |s| && Printable(s) && width >= 2
    decreases |s| - i
  {
    if i == |s| then [] else
      var l := FirstLine(s, i, width);
      [Text(s, l)] + Wrap(s, l.next, width)
  }

  /** The text that lines stand for: a line and, where it was cut at one, a space. */
  function Unwrap(s: seq<Byte>, lines: seq<Line>): (t: seq<Byte>)
    requires forall l :: l in lines ==> l.start <= l.end <= l.next <= |s|
  {
    if lines == [] then []
    else Text(s, lines[0]) + Gap(lines[0]) + Unwrap(s, lines[1..])
  }

  /** Every line fits, starts and ends between characters, and is cut at the last space that fits, if there is one. */
  ghost predicate Greedy(s: seq<Byte>, width: nat, l: Line)
    requires Printable(s)
  {
    && l.start <= l.end <= l.next <= |s|
    && Whole(s, l.start, l.end) && Columns(s, l.start, l.end) <= width
    && (l.next == l.end || (l.next == l.end + 1 && s[l.end] == SPACE))
    && if Columns(s, l.start, |s|) <= width then l.end == |s|
       else
         // no later cut at a space fits, and without any space no longer cut fits
         && (forall k :: l.end < k < |s| && s[k] == SPACE ==> Columns(s, l.start, k) > width)
         && (l.next == l.end ==>
              (forall k :: l.start <= k < |s| && s[k] == SPACE ==> Columns(s, l.start, k) > width)
              && forall k :: l.end < k <= |s| && Whole(s, l.start, k) ==> Columns(s, l.start, k) > width)
  }

  lemma FirstLineIsGreedy(s: seq<Byte>, i: nat, width: nat)
    requires i < |s| && Printable(s) && width >= 2
    ensures Greedy(s, width, FirstLine(s, i, width))
  {
    var l := FirstLine(s, i, width);
    WholeBeforeStart(s, i, |s|);
    if Columns(s, i, |s|) > width {
      TooLong(s, i, width);
      var fit := FitEnd(s, i, width);
      FitEndIsLongest(s, i, width, i);
      forall k | fit < k <= |s| && Whole(s, i, k)
        ensures Columns(s, i, k) > width
      {
        FitEndIsLongest(s, i, width, k);
      }
      forall k | i <= k < |s| && s[k] == SPACE
        ensures Whole(s, i, k)
        ensures k <= fit ==> Columns(s, i, k) <= width
      {
        WholeBeforeStart(s, i, k);
        FitEndIsLongest(s, i, width, k);
      }
    }
  }

  lemma {:induction false} LinesAreGreedy(s: seq<Byte>, i: nat, width: nat)
    requires i <= |s| && Printable(s) && width >= 2
    ensures forall l :: l in Lines(s, i, width) ==> Greedy(s, width, l)
    decreases |s| - i
  {
    if i < |s| {
      FirstLineIsGreedy(s, i, width);
      LinesAreGreedy(s, FirstLine(s, i, width).next, width);
    }
  }

  /** The space that a cut removes. */
  function Gap(l: Line): (g: seq<Byte>) {
    if l.next > l.end then [SPACE] else []
  }

  /** Joined again, with one space at each cut made at a space, the lines are the text. */
  lemma {:induction false} LinesAreTheText(s: seq<Byte>, i: nat, width: nat)
    requires i <= |s| && Printable(s) && width >= 2
    ensures Unwrap(s, Lines(s, i, width)) == s[i..]
    decreases |s| - i
  {
    if i < |s| {
      var l := FirstLine(s, i, width);
      var more := Lines(s, l.next, width);
      LinesAreTheText(s, l.next, width);
      FirstLineIsGreedy(s, i, width);
      LineAndRest(s, l);
      assert ([l] + more)[0] == l && ([l] + more)[1..] == more;
    }
  }

  lemma LineAndRest(s: seq<Byte>, l: Line)
    requires l.start <= l.end <= l.next <= |s|
    requires l.next == l.end || (l.next == l.end + 1 && s[l.end] == SPACE)
    ensures s[l.start..] == Text(s, l) + Gap(l) + s[l.next..]
  {
  }

  /** The pieces queued are the texts of the lines. */
  lemma {:induction false} WrapIsLines(s: seq<Byte>, i: nat, width: nat)
    requires i <= |s| && Printable(s) && width >= 2
    ensures |Wrap(s, i, width)| == |Lines(s, i, width)|
    ensures forall k :: 0 <= k < |Lines(s, i, width)| ==>
      Lines(s, i, width)[k].start <= Lines(s, i, width)[k].end <= |s|
      && Wrap(s, i, width)[k] == Text(s, Lines(s, i, width)[k])
    decreases |s| - i
  {
    if i < |s| {
      WrapIsLines(s, FirstLine(s, i, width).next, width);
    }
  }

  /** On its own, too, no piece takes more than `width` columns. */
  lemma {:induction false} PiecesFit(s: seq<Byte>, i: nat, width: nat)
    requires i <= |s| && Printable(s) && width >= 2
    ensures forall k :: 0 <= k < |Wrap(s, i, width)| ==>
      Printable(Wrap(s, i, width)[k]) && Columns(Wrap(s, i, width)[k], 0, |Wrap(s, i, width)[k]|) <= width
    decreases |s| - i
  {
    if i < |s| {
      var l := FirstLine(s, i, width);
      PieceFits(s, i, width);
      PiecesFit(s, l.next, width);
      assert Wrap(s, i, width) == [Text(s, l)] + Wrap(s, l.next, width);
    }
  }

  lemma PieceFits(s: seq<Byte>, i: nat, width: nat)
    requires i < |s| && Printable(s) && width >= 2
    ensures var piece := Text(s, FirstLine(s, i, width)); Printable(piece) && Columns(piece, 0, |piece|) <= width
  {
    var l := FirstLine(s, i, width);
    FirstLineIsGreedy(s, i, width);
    ColumnsOfPart(s, l.start, Text(s, l), 0);
  }

  // ---------- Greedy wrapping, and no other ----------

  /** One line begins where the one before it says, from `i` to the end of the text, and each takes something. */
  ghost predicate Consecutive(s: seq<Byte>, i: nat, lines: seq<Line>)
    decreases |lines|
  {
    if lines == [] then i == |s|
    else lines[0].start == i && i < lines[0].next && lines[0].next <= |s| && Consecutive(s, lines[0].next, lines[1..])
  }

  /** The pieces are the texts of consecutive greedy lines. */
  ghost predicate WrapsGreedily(s: seq<Byte>, i: nat, width: nat, pieces: seq<seq<Byte>>)
    requires Printable(s)
  {
    exists lines: seq<Line> :: AreLinesOf(s, i, width, lines, pieces)
  }

  ghost predicate AreLinesOf(s: seq<Byte>, i: nat, width: nat, lines: seq<Line>, pieces: seq<seq<Byte>>)
    requires Printable(s)
  {
    && Consecutive(s, i, lines) && |lines| == |pieces|
    && forall k :: 0 <= k < |lines| ==> Greedy(s, width, lines[k]) && pieces[k] == Text(s, lines[k])
  }

  lemma {:induction false} LinesAreConsecutive(s: seq<Byte>, i: nat, width: nat)
    requires i <= |s| && Printable(s) && width >= 2
    ensures Consecutive(s, i, Lines(s, i, width))
    decreases |s| - i
  {
    if i < |s| {
      var l := FirstLine(s, i, width);
      LinesAreConsecutive(s, l.next, width);
      assert Lines(s, i, width)[1..] == Lines(s, l.next, width);
    }
  }

  /** There is only one greedy line at each place. */
  lemma GreedyIsFirstLine(s: seq<Byte>, i: nat, width: nat, l: Line)
    requires i < |s| && Printable(s) && width >= 2 && Greedy(s, width, l) && l.start == i
    ensures l == FirstLine(s, i, width)
  {
    if Columns(s, i, |s|) > width {
      TooLong(s, i, width);
      var fit := FitEnd(s, i, width);
      FitEndIsLongest(s, i, width, l.end);
      var space := LastSpace(s, i, fit);
      if space >= i {
        WholeBeforeStart(s, i, space);
        FitEndIsLongest(s, i, width, space);
      }
    }
  }

  lemma {:induction false} GreedyLinesAreThese(s: seq<Byte>, i: nat, width: nat, lines: seq<Line>,
                                               pieces: seq<seq<Byte>>)
    requires i <= |s| && Printable(s) && width >= 2 && AreLinesOf(s, i, width, lines, pieces)
    ensures lines == Lines(s, i, width) && pieces == Wrap(s, i, width)
    decreases |s| - i
  {
    if lines != [] {
      GreedyIsFirstLine(s, i, width, lines[0]);
      FollowingLines(s, i, width, lines, pieces);
      GreedyLinesAreThese(s, lines[0].next, width, lines[1..], pieces[1..]);
      assert lines == [lines[0]] + lines[1..] && pieces == [pieces[0]] + pieces[1..];
    }
  }

  lemma FollowingLines(s: seq<Byte>, i: nat, width: nat, lines: seq<Line>, pieces: seq<seq<Byte>>)
    requires Printable(s) && AreLinesOf(s, i, width, lines, pieces) && lines != []
    ensures AreLinesOf(s, lines[0].next, width, lines[1..], pieces[1..])
    ensures i == lines[0].start < lines[0].next <= |s| && Greedy(s, width, lines[0]) && pieces[0] == Text(s, lines[0])
  {
  }

  /** A text can be wrapped greedily in one way only, and that is what the wrapper queues. */
  lemma WrapIsGreedy(s: seq<Byte>, i: nat, width: nat, pieces: seq<seq<Byte>>)
    requires i <= |s| && Printable(s) && width >= 2
    ensures WrapsGreedily(s, i, width, pieces) <==> pieces == Wrap(s, i, width)
  {
    if WrapsGreedily(s, i, width, pieces) {
      var lines :| AreLinesOf(s, i, width, lines, pieces);
      GreedyLinesAreThese(s, i, width, lines, pieces);
    }
    LinesAreConsecutive(s, i, width);
    LinesAreGreedy(s, i, width);
    WrapIsLines(s, i, width);
    assert AreLinesOf(s, i, width, Lines(s, i, width), Wrap(s, i, width));
  }
}
