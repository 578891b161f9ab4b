/**
  What the printer of help texts puts on the screen, as a function of the
  table's format and its rows; in which order the texts come out, and in which
  columns they land.
*/
module UsageScreen {
  import opened Basics
  import opened Utf8Width
  import opened HelpGrid
  import opened GreedyWrap
  import opened LineWrapper
  import opened Sequences
  import opened UsageLayout

  /** How a table is printed: where its columns begin, and how the last one is wrapped. */
  datatype Format = Format(
    tabstop: seq<nat>, lastcolumn: nat, ownLine: bool, lineWidth: nat, lastWidth: nat, margin: int)
  {
    predicate Valid() {
      && |tabstop| == MAX_COLUMNS && lastcolumn < MAX_COLUMNS && lineWidth >= 2 && lastWidth >= 2
      && (ownLine ==> lastcolumn > 0)
    }
  }

  /** The two passes over a row: the second one prints a last column that goes on lines of its own. */
  datatype Pass = FIRST | SECOND | BOTH

  predicate Takes(f: Format, pass: Pass, column: nat) {
    column <= f.lastcolumn
    && match pass
       case FIRST => !(f.ownLine && column == f.lastcolumn)
       case SECOND => f.ownLine && column == f.lastcolumn
       case BOTH => true
  }

  /** Whether a part is written as it is. */
  predicate Direct(f: Format, row: seq<Byte>, column: nat) {
    column < f.lastcolumn && !Interjection(row)
  }

  /** The pieces as which a part is printed. */
  function Pieces(f: Format, row: seq<Byte>, p: Part): seq<seq<Byte>>
    requires f.Valid()
  {
    if Direct(f, row, p.column) || !Printable(p.text) then [p.text]
    else Wrap(p.text, 0, if p.column == 0 then f.lineWidth else f.lastWidth)
  }

  // ---------- The screen ----------

  /** What has been written, what the two wrappers have queued, and where the cursor is believed to be. */
  datatype Screen = Screen(out: seq<Chunk>, last: seq<seq<Byte>>, between: seq<seq<Byte>>, x: int)

  function Shown(s: Screen, more: seq<Chunk>): Screen {
    s.(out := s.out + more)
  }

  function Indented(s: Screen, want: int): Screen {
    Shown(s, Indentation(s.x, want)).(x := Believed(s.x, want))
  }

  function IntoLast(s: Screen, pieces: seq<seq<Byte>>, margin: int): Screen {
    var all := s.last + pieces;
    Shown(s, Block(all[..Due(all)], margin)).(last := all[Due(all)..])
  }

  function IntoBetween(s: Screen, pieces: seq<seq<Byte>>): Screen {
    var all := s.between + pieces;
    Shown(s, Block(all[..Due(all)], 0)).(between := all[Due(all)..])
  }

  const BREAK: seq<Chunk> := [Layout([NEWLINE])]

  /** The cursor goes to the tab stop of the part's column; column 0 begins a new line. */
  function Begun(f: Format, p: Part, s: Screen): Screen
    requires f.Valid() && p.column <= f.lastcolumn
  {
    Indented(if p.column > 0 then s else Shown(s, if s.x >= 0 then BREAK else []).(x := 0), f.tabstop[p.column])
  }

  /** A part in the first pass. */
  function FirstShown(f: Format, row: seq<Byte>, p: Part, s: Screen): Screen
    requires f.Valid()
  {
    if p.column > f.lastcolumn then s
    else
      var begun := Begun(f, p, s);
      if Direct(f, row, p.column) then Shown(begun, [Payload(p.text)]).(x := begun.x + ScreenWidth(p))
      else if f.ownLine && p.column == f.lastcolumn then begun
      else if p.column == 0 then IntoBetween(begun, Pieces(f, row, p))
      else IntoLast(begun, Pieces(f, row, p), f.margin)
  }

  function FirstPass(f: Format, row: seq<Byte>, parts: seq<Part>, s: Screen): Screen
    requires f.Valid()
  {
    if parts == [] then s else
      var n := |parts| - 1;
      FirstShown(f, row, parts[n], FirstPass(f, row, parts[..n], s))
  }

  /** A part in the second pass, on a line of its own behind the margin. */
  function SecondShown(f: Format, row: seq<Byte>, p: Part, s: Screen): Screen
    requires f.Valid()
  {
    if p.column != f.lastcolumn then s
    else IntoLast(Shown(Shown(s, BREAK), Indentation(0, f.margin)), Pieces(f, row, p), f.margin)
  }

  function SecondPass(f: Format, row: seq<Byte>, parts: seq<Part>, s: Screen): Screen
    requires f.Valid()
  {
    if parts == [] then s else
      var n := |parts| - 1;
      SecondShown(f, row, parts[n], SecondPass(f, row, parts[..n], s))
  }

  /** The end of a row: a line break, and what is still queued. */
  function RowEnded(f: Format, s: Screen): Screen {
    Shown(Shown(Shown(s, BREAK), Flushed(s.last, f.margin)), Flushed(s.between, 0)).(last := [], between := [])
  }

  function RowShown(f: Format, row: seq<Byte>, out: seq<Chunk>): (s: Screen)
    requires f.Valid()
    ensures s.last == [] && s.between == []
  {
    var first := FirstPass(f, row, Grid(row), Screen(out, [], [], -1));
    RowEnded(f, if f.ownLine then SecondPass(f, row, Grid(row), first) else first)
  }

  function RowsShown(f: Format, rows: seq<seq<Byte>>, out: seq<Chunk>): seq<Chunk>
    requires f.Valid()
  {
    if rows == [] then out else RowsShown(f, rows[1..], RowShown(f, rows[0], out).out)
  }

  // ---------- In which order the texts come out ----------

  /** Which way a part goes to the screen. */
  datatype Route = DIRECT | LAST | BETWEEN | NOWHERE

  function RouteOf(f: Format, row: seq<Byte>, pass: Pass, column: nat): Route {
    if !Takes(f, pass, column) then NOWHERE
    else if Direct(f, row, column) then DIRECT
    else if column == 0 then BETWEEN
    else LAST
  }

  /** The pieces of the parts that go one way, in the order of the grid. */
  function Via(f: Format, row: seq<Byte>, parts: seq<Part>, pass: Pass, route: Route): (pieces: seq<seq<Byte>>)
    requires f.Valid()
  {
    if parts == [] then [] else
      var n := |parts| - 1;
      Via(f, row, parts[..n], pass, route)
      + if RouteOf(f, row, pass, parts[n].column) == route then Pieces(f, row, parts[n]) else []
  }

  /** `all` are the elements of three sequences, those of each in their order. */
  predicate Shuffled<T(==)>(all: seq<T>, a: seq<T>, b: seq<T>, c: seq<T>)
    decreases |all|
  {
    if all == [] then a == [] && b == [] && c == []
    else
      var n := |all| - 1;
      || (a != [] && a[|a| - 1] == all[n] && Shuffled(all[..n], a[..|a| - 1], b, c))
      || (b != [] && b[|b| - 1] == all[n] && Shuffled(all[..n], a, b[..|b| - 1], c))
      || (c != [] && c[|c| - 1] == all[n] && Shuffled(all[..n], a, b, c[..|c| - 1]))
  }

  /** A shuffle loses and repeats nothing. */
  lemma {:induction false} ShuffledKeepsAll<T>(all: seq<T>, a: seq<T>, b: seq<T>, c: seq<T>)
    requires Shuffled(all, a, b, c)
    ensures multiset(all) == multiset(a) + multiset(b) + multiset(c)
    decreases |all|
  {
    if all != [] {
      var n := |all| - 1;
      LastApart(all);
      if a != [] && a[|a| - 1] == all[n] && Shuffled(all[..n], a[..|a| - 1], b, c) {
        ShuffledKeepsAll(all[..n], a[..|a| - 1], b, c);
        LastApart(a);
      } else if b != [] && b[|b| - 1] == all[n] && Shuffled(all[..n], a, b[..|b| - 1], c) {
        ShuffledKeepsAll(all[..n], a, b[..|b| - 1], c);
        LastApart(b);
      } else {
        ShuffledKeepsAll(all[..n], a, b, c[..|c| - 1]);
        LastApart(c);
      }
    }
  }

  lemma LastApart<T>(s: seq<T>)
    requires s != []
    ensures multiset(s) == multiset(s[..|s| - 1]) + multiset{s[|s| - 1]}
  {
    assert s == s[..|s| - 1] + [s[|s| - 1]];
  }

  lemma ShuffledMoreA<T>(all: seq<T>, a: seq<T>, b: seq<T>, c: seq<T>, t: T)
    requires Shuffled(all, a, b, c)
    ensures Shuffled(all + [t], a + [t], b, c)
  {
    assert (all + [t])[..|all|] == all && (a + [t])[..|a|] == a;
  }

  lemma {:induction false} ShuffledMoreB<T>(all: seq<T>, a: seq<T>, b: seq<T>, c: seq<T>, more: seq<T>)
    requires Shuffled(all, a, b, c)
    ensures Shuffled(all + more, a, b + more, c)
    decreases |more|
  {
    if more == [] {
      assert all + more == all && b + more == b;
    } else {
      var n := |more| - 1;
      ShuffledMoreB(all, a, b, c, more[..n]);
      assert (all + more)[..|all| + n] == all + more[..n] && (b + more)[..|b| + n] == b + more[..n];
    }
  }

  lemma {:induction false} ShuffledMoreC<T>(all: seq<T>, a: seq<T>, b: seq<T>, c: seq<T>, more: seq<T>)
    requires Shuffled(all, a, b, c)
    ensures Shuffled(all + more, a, b, c + more)
    decreases |more|
  {
    if more == [] {
      assert all + more == all && c + more == c;
    } else {
      var n := |more| - 1;
      ShuffledMoreC(all, a, b, c, more[..n]);
      assert (all + more)[..|all| + n] == all + more[..n] && (c + more)[..|c| + n] == c + more[..n];
    }
  }

  /** Since `base`, the pieces given to each of the three ways have been written in order, but for those queued. */
  ghost predicate Printed(s: Screen, base: seq<seq<Byte>>, printed: seq<seq<Byte>>,
                          direct: seq<seq<Byte>>, last: seq<seq<Byte>>, between: seq<seq<Byte>>) {
    forall k {:trigger Key(k)} :: Key(k) ==>
      && Payloads(s.out) == base + printed && |s.last| <= |last| && |s.between| <= |between|
      && last[|last| - |s.last|..] == s.last && between[|between| - |s.between|..] == s.between
      && Shuffled(printed, direct, last[..|last| - |s.last|], between[..|between| - |s.between|])
  }

  lemma PrintedLayout(s: Screen, base: seq<seq<Byte>>, printed: seq<seq<Byte>>, direct: seq<seq<Byte>>,
                      last: seq<seq<Byte>>, between: seq<seq<Byte>>, layout: seq<Chunk>, x: int)
    requires Printed(s, base, printed, direct, last, between) && Payloads(layout) == []
    ensures Printed(Shown(s, layout).(x := x), base, printed, direct, last, between)
  {
    assert Key(0);
    PayloadsJoin(s.out, layout);
  }

  lemma PrintedDirect(s: Screen, base: seq<seq<Byte>>, printed: seq<seq<Byte>>, direct: seq<seq<Byte>>,
                      last: seq<seq<Byte>>, between: seq<seq<Byte>>, text: seq<Byte>, x: int)
    requires Printed(s, base, printed, direct, last, between)
    ensures Printed(Shown(s, [Payload(text)]).(x := x), base, printed + [text], direct + [text], last, between)
  {
    assert Key(0);
    PayloadsJoin(s.out, [Payload(text)]);
    assert Payloads([Payload(text)]) == [text];
    Associative(base, printed, [text]);
    ShuffledMoreA(printed, direct, last[..|last| - |s.last|], between[..|between| - |s.between|], text);
  }

  /** Where the queue ends and what is taken from its front. */
  lemma QueueMoves<T>(given: seq<T>, queue: seq<T>, more: seq<T>, n: nat)
    requires |queue| <= |given| && given[|given| - |queue|..] == queue && n <= |queue + more|
    ensures var queue' := (queue + more)[n..];
            && |queue'| <= |given + more| && (given + more)[|given + more| - |queue'|..] == queue'
            && (given + more)[..|given + more| - |queue'|] == given[..|given| - |queue|] + (queue + more)[..n]
  {
    assert given == given[..|given| - |queue|] + queue;
    Associative(given[..|given| - |queue|], queue, more);
  }

  lemma PrintedLast(s: Screen, base: seq<seq<Byte>>, printed: seq<seq<Byte>>, direct: seq<seq<Byte>>,
                    last: seq<seq<Byte>>, between: seq<seq<Byte>>, pieces: seq<seq<Byte>>, margin: int)
      returns (printed': seq<seq<Byte>>)
    requires Printed(s, base, printed, direct, last, between)
    ensures Printed(IntoLast(s, pieces, margin), base, printed', direct, last + pieces, between)
  {
    assert Key(0);
    var all := s.last + pieces;
    printed' := printed + all[..Due(all)];
    PayloadsOfBlock(all[..Due(all)], margin);
    PayloadsJoin(s.out, Block(all[..Due(all)], margin));
    Associative(base, printed, all[..Due(all)]);
    QueueMoves(last, s.last, pieces, Due(all));
    ShuffledMoreB(printed, direct, last[..|last| - |s.last|], between[..|between| - |s.between|], all[..Due(all)]);
  }

  lemma PrintedBetween(s: Screen, base: seq<seq<Byte>>, printed: seq<seq<Byte>>, direct: seq<seq<Byte>>,
                       last: seq<seq<Byte>>, between: seq<seq<Byte>>, pieces: seq<seq<Byte>>)
      returns (printed': seq<seq<Byte>>)
    requires Printed(s, base, printed, direct, last, between)
    ensures Printed(IntoBetween(s, pieces), base, printed', direct, last, between + pieces)
  {
    assert Key(0);
    var all := s.between + pieces;
    printed' := printed + all[..Due(all)];
    PayloadsOfBlock(all[..Due(all)], 0);
    PayloadsJoin(s.out, Block(all[..Due(all)], 0));
    Associative(base, printed, all[..Due(all)]);
    QueueMoves(between, s.between, pieces, Due(all));
    ShuffledMoreC(printed, direct, last[..|last| - |s.last|], between[..|between| - |s.between|], all[..Due(all)]);
  }

  lemma PayloadsOfIndentation(x0: int, want: int)
    ensures Payloads(Indentation(x0, want)) == []
  {
    var n := if want >= x0 then want - x0 else if want > 0 then want else 0;
    PayloadsOfSpaces(n);
    PayloadsJoin(if want < x0 then BREAK else [], Spaces(n));
    assert Payloads(BREAK) == [];
  }

  lemma PrintedBegun(f: Format, p: Part, s: Screen, base: seq<seq<Byte>>, printed: seq<seq<Byte>>,
                     direct: seq<seq<Byte>>, last: seq<seq<Byte>>, between: seq<seq<Byte>>)
    requires f.Valid() && p.column <= f.lastcolumn && Printed(s, base, printed, direct, last, between)
    ensures Printed(Begun(f, p, s), base, printed, direct, last, between)
  {
    var front: seq<Chunk> := if s.x >= 0 then BREAK else [];
    assert Payloads(front) == [];
    var s1 := if p.column > 0 then s else Shown(s, front).(x := 0);
    PrintedLayout(s, base, printed, direct, last, between, front, 0);
    PayloadsOfIndentation(s1.x, f.tabstop[p.column]);
    PrintedLayout(s1, base, printed, direct, last, between, Indentation(s1.x, f.tabstop[p.column]),
                  Believed(s1.x, f.tabstop[p.column]));
  }

  /** What a part adds to each of the three ways. */
  function Added(f: Format, row: seq<Byte>, p: Part, pass: Pass, route: Route): seq<seq<Byte>>
    requires f.Valid()
  {
    if RouteOf(f, row, pass, p.column) == route then Pieces(f, row, p) else []
  }

  lemma PrintedFirstShown(f: Format, row: seq<Byte>, p: Part, s: Screen, base: seq<seq<Byte>>, printed: seq<seq<Byte>>,
                         direct: seq<seq<Byte>>, last: seq<seq<Byte>>, between: seq<seq<Byte>>)
      returns (printed': seq<seq<Byte>>)
    requires f.Valid() && Printed(s, base, printed, direct, last, between)
    ensures Printed(FirstShown(f, row, p, s), base, printed', direct + Added(f, row, p, FIRST, DIRECT),
                    last + Added(f, row, p, FIRST, LAST), between + Added(f, row, p, FIRST, BETWEEN))
  {
    printed' := printed;
    assert direct + [] == direct && last + [] == last && between + [] == between;
    if p.column <= f.lastcolumn {
      var begun := Begun(f, p, s);
      PrintedBegun(f, p, s, base, printed, direct, last, between);
      if Direct(f, row, p.column) {
        PrintedDirect(begun, base, printed, direct, last, between, p.text, begun.x + ScreenWidth(p));
        printed' := printed + [p.text];
      } else if !(f.ownLine && p.column == f.lastcolumn) {
        if p.column == 0 {
          printed' := PrintedBetween(begun, base, printed, direct, last, between, Pieces(f, row, p));
        } else {
          printed' := PrintedLast(begun, base, printed, direct, last, between, Pieces(f, row, p), f.margin);
        }
      }
    }
  }

  lemma PrintedSecondShown(f: Format, row: seq<Byte>, p: Part, s: Screen, base: seq<seq<Byte>>, printed: seq<seq<Byte>>,
                          direct: seq<seq<Byte>>, last: seq<seq<Byte>>, between: seq<seq<Byte>>)
      returns (printed': seq<seq<Byte>>)
    requires f.Valid() && f.ownLine && Printed(s, base, printed, direct, last, between)
    ensures Printed(SecondShown(f, row, p, s), base, printed', direct, last + Added(f, row, p, SECOND, LAST), between)
  {
    printed' := printed;
    assert last + [] == last;
    if p.column == f.lastcolumn {
      assert Payloads(BREAK) == [];
      PrintedLayout(s, base, printed, direct, last, between, BREAK, s.x);
      PayloadsOfIndentation(0, f.margin);
      PrintedLayout(Shown(s, BREAK), base, printed, direct, last, between, Indentation(0, f.margin), s.x);
      printed' := PrintedLast(Shown(Shown(s, BREAK), Indentation(0, f.margin)), base, printed, direct, last, between,
                              Pieces(f, row, p), f.margin);
    }
  }

  lemma {:induction false} PrintedFirstPass(f: Format, row: seq<Byte>, parts: seq<Part>, out: seq<Chunk>)
      returns (printed: seq<seq<Byte>>)
    requires f.Valid()
    ensures Printed(FirstPass(f, row, parts, Screen(out, [], [], -1)), Payloads(out), printed,
                    Via(f, row, parts, FIRST, DIRECT), Via(f, row, parts, FIRST, LAST),
                    Via(f, row, parts, FIRST, BETWEEN))
  {
    if parts == [] {
      printed := [];
      assert Payloads(out) + [] == Payloads(out);
    } else {
      var n := |parts| - 1;
      printed := PrintedFirstPass(f, row, parts[..n], out);
      printed := PrintedFirstShown(f, row, parts[n], FirstPass(f, row, parts[..n], Screen(out, [], [], -1)),
                                  Payloads(out), printed, Via(f, row, parts[..n], FIRST, DIRECT),
                                  Via(f, row, parts[..n], FIRST, LAST), Via(f, row, parts[..n], FIRST, BETWEEN));
    }
  }

  lemma {:induction false} PrintedSecondPass(f: Format, row: seq<Byte>, parts: seq<Part>, s: Screen,
                                             base: seq<seq<Byte>>,
                                             printed0: seq<seq<Byte>>, direct: seq<seq<Byte>>, last: seq<seq<Byte>>,
                                             between: seq<seq<Byte>>)
      returns (printed: seq<seq<Byte>>)
    requires f.Valid() && f.ownLine && Printed(s, base, printed0, direct, last, between)
    ensures Printed(SecondPass(f, row, parts, s), base, printed, direct,
                    last + Via(f, row, parts, SECOND, LAST), between)
  {
    if parts == [] {
      printed := printed0;
      assert last + [] == last;
    } else {
      var n := |parts| - 1;
      printed := PrintedSecondPass(f, row, parts[..n], s, base, printed0, direct, last, between);
      printed := PrintedSecondShown(f, row, parts[n], SecondPass(f, row, parts[..n], s), base, printed, direct,
                                   last + Via(f, row, parts[..n], SECOND, LAST), between);
      Associative(last, Via(f, row, parts[..n], SECOND, LAST), Added(f, row, parts[n], SECOND, LAST));
    }
  }

  /** At the end of a row everything has been written. */
  lemma PrintedRowEnd(f: Format, s: Screen, base: seq<seq<Byte>>, printed: seq<seq<Byte>>,
                      direct: seq<seq<Byte>>, last: seq<seq<Byte>>, between: seq<seq<Byte>>)
      returns (printed': seq<seq<Byte>>)
    requires Printed(s, base, printed, direct, last, between)
    ensures Payloads(RowEnded(f, s).out) == base + printed' && Shuffled(printed', direct, last, between)
  {
    assert Key(0);
    var l, b := last[..|last| - |s.last|], between[..|between| - |s.between|];
    printed' := printed + s.last + s.between;
    RowEndPayloads(f, s);
    Associative(base, printed, s.last);
    Associative(base, printed + s.last, s.between);
    assert last == l + s.last && between == b + s.between;
    ShuffledMoreB(printed, direct, l, b, s.last);
    ShuffledMoreC(printed + s.last, direct, last, b, s.between);
  }

  lemma PayloadsOfBreak(out: seq<Chunk>)
    ensures Payloads(out + BREAK) == Payloads(out)
  {
    assert (out + BREAK)[..|out|] == out;
    assert Payloads(out) + [] == Payloads(out);
  }

  lemma RowEndPayloads(f: Format, s: Screen)
    ensures Payloads(RowEnded(f, s).out) == Payloads(s.out) + s.last + s.between
  {
    var broken := s.out + BREAK;
    PayloadsOfBreak(s.out);
    PayloadsOfFlushed(broken, s.last, f.margin);
    PayloadsOfFlushed(broken + Flushed(s.last, f.margin), s.between, 0);
  }

  lemma PayloadsOfFlushed(out: seq<Chunk>, queue: seq<seq<Byte>>, x: int)
    ensures Payloads(out + Flushed(queue, x)) == Payloads(out) + queue
  {
    if queue == [] {
      assert out + [] == out && Payloads(out) + [] == Payloads(out);
    } else {
      PayloadsOfFlush(out, queue, x);
      JoinedThrice(out, Margin(x), Block(queue, x), [Layout([NEWLINE])]);
    }
  }

  /** What goes which way does not depend on the passes. */
  lemma {:induction false} OnePassEach(f: Format, row: seq<Byte>, parts: seq<Part>)
    requires f.Valid() && (Interjection(row) ==> forall p :: p in parts ==> p.column == 0)
    ensures Via(f, row, parts, FIRST, DIRECT) == Via(f, row, parts, BOTH, DIRECT)
    ensures Via(f, row, parts, FIRST, BETWEEN) == Via(f, row, parts, BOTH, BETWEEN)
    ensures if f.ownLine then Via(f, row, parts, FIRST, LAST) == []
            && Via(f, row, parts, SECOND, LAST) == Via(f, row, parts, BOTH, LAST)
            else Via(f, row, parts, FIRST, LAST) == Via(f, row, parts, BOTH, LAST)
  {
    if parts != [] {
      OnePassEach(f, row, parts[..|parts| - 1]);
    }
  }

  /**
    What has been printed of a row: the parts written as they are, the last column
    and interjections, each in the order of the grid.
  */
  ghost predicate PrintedRow(f: Format, row: seq<Byte>, printed: seq<seq<Byte>>)
    requires f.Valid()
  {
    Shuffled(printed, Via(f, row, Grid(row), BOTH, DIRECT), Via(f, row, Grid(row), BOTH, LAST),
             Via(f, row, Grid(row), BOTH, BETWEEN))
  }

  /** A row has a last column or is an interjection, so that never more than one wrapper has something queued. */
  lemma {:induction false} OneWrapperOnly(f: Format, row: seq<Byte>, parts: seq<Part>)
    requires f.Valid() && (Interjection(row) ==> forall p :: p in parts ==> p.column == 0)
    ensures Via(f, row, parts, BOTH, if Interjection(row) || f.lastcolumn == 0 then LAST else BETWEEN) == []
  {
    if parts != [] {
      OneWrapperOnly(f, row, parts[..|parts| - 1]);
      assert parts[|parts| - 1] in parts;
    }
  }

  /** The pieces of all parts in the columns laid out. */
  function AllPieces(f: Format, row: seq<Byte>, parts: seq<Part>): seq<seq<Byte>>
    requires f.Valid()
  {
    if parts == [] then [] else
      var n := |parts| - 1;
      AllPieces(f, row, parts[..n]) + if parts[n].column <= f.lastcolumn then Pieces(f, row, parts[n]) else []
  }

  /** Every part in these columns goes one of the three ways. */
  lemma {:induction false} ThreeWays(f: Format, row: seq<Byte>, parts: seq<Part>)
    requires f.Valid()
    ensures multiset(Via(f, row, parts, BOTH, DIRECT)) + multiset(Via(f, row, parts, BOTH, LAST))
            + multiset(Via(f, row, parts, BOTH, BETWEEN)) == multiset(AllPieces(f, row, parts))
  {
    if parts != [] {
      ThreeWays(f, row, parts[..|parts| - 1]);
    }
  }

  /** Of a row, exactly the parts in the columns laid out are printed, and each once. */
  lemma EveryPartIsPrinted(f: Format, row: seq<Byte>, printed: seq<seq<Byte>>)
    requires f.Valid() && PrintedRow(f, row, printed)
    ensures multiset(printed) == multiset(AllPieces(f, row, Grid(row)))
  {
    ThreeWays(f, row, Grid(row));
    ShuffledKeepsAll(printed, Via(f, row, Grid(row), BOTH, DIRECT), Via(f, row, Grid(row), BOTH, LAST),
                     Via(f, row, Grid(row), BOTH, BETWEEN));
  }

  lemma RowIsPrinted(f: Format, row: seq<Byte>, out: seq<Chunk>) returns (printed: seq<seq<Byte>>)
    requires f.Valid()
    ensures Payloads(RowShown(f, row, out).out) == Payloads(out) + printed && PrintedRow(f, row, printed)
  {
    var parts := Grid(row);
    if Interjection(row) {
      InterjectionIsOnePart(row);
    }
    OnePassEach(f, row, parts);
    var first := FirstPass(f, row, parts, Screen(out, [], [], -1));
    var direct, last, between := Via(f, row, parts, BOTH, DIRECT), Via(f, row, parts, BOTH, LAST),
        Via(f, row, parts, BOTH, BETWEEN);
    printed := PrintedFirstPass(f, row, parts, out);
    if f.ownLine {
      printed := PrintedSecondPass(f, row, parts, first, Payloads(out), printed, direct, [], between);
      assert [] + last == last;
      printed := PrintedRowEnd(f, SecondPass(f, row, parts, first), Payloads(out), printed, direct, last, between);
    } else {
      printed := PrintedRowEnd(f, first, Payloads(out), printed, direct, last, between);
    }
  }

  /** Row after row. */
  ghost predicate PrintedRows(f: Format, rows: seq<seq<Byte>>, printed: seq<seq<seq<Byte>>>)
    requires f.Valid()
  {
    |printed| == |rows| && forall i :: 0 <= i < |rows| ==> PrintedRow(f, rows[i], printed[i])
  }

  function Flat<T>(s: seq<seq<T>>): (r: seq<T>) {
    if s == [] then [] else s[0] + Flat(s[1..])
  }

  /** The payload of a table is that of its rows, one after the other. */
  lemma {:induction false} TableIsPrinted(f: Format, rows: seq<seq<Byte>>, out: seq<Chunk>)
        returns (printed: seq<seq<seq<Byte>>>)
    requires f.Valid()
    ensures Payloads(RowsShown(f, rows, out)) == Payloads(out) + Flat(printed) && PrintedRows(f, rows, printed)
  {
    if rows == [] {
      printed := [];
      assert Payloads(out) + [] == Payloads(out);
    } else {
      var row := RowIsPrinted(f, rows[0], out);
      var more := TableIsPrinted(f, rows[1..], RowShown(f, rows[0], out).out);
      printed := [row] + more;
      assert printed[1..] == more;
      Associative(Payloads(out), row, Flat(more));
    }
  }
}
