/**
  The two entry points: `Stats` measures an argument vector, `Parser` stores
  what is in it.  Sizing the parser's arrays by the statistics is enough.
*/
module Parsing {
  import opened Basics
  import opened CStrings
  import opened Descriptors
  import opened Grammar
  import opened Reordering
  import opened CheckFunctions
  import opened OptionList
  import opened OptionTables
  import opened Actions
  import W = Workhorse

  // ---------- Messages ----------

  /** The check functions of a table only print messages when told to; they do not decide by it. */
  ghost predicate IgnoresMessages(usage: seq<Descriptor>) {
    forall d, name, arg :: 0 <= d < |usage| ==> usage[d].check(name, arg, true) == usage[d].check(name, arg, false)
  }

  lemma {:induction false} GroupIgnoresMessages(c: Config, group: CString, next: Maybe<CString>)
    requires IgnoresMessages(c.usage)
    ensures ReadShort(c.(msg := true), group, next) == ReadShort(c.(msg := false), group, next)
  {
    if group != "" {
      GroupIgnoresMessages(c, group[1..], next);
    }
  }

  lemma LongIgnoresMessages(c: Config, elem: CString, skip: nat, next: Maybe<CString>)
    requires IgnoresMessages(c.usage) && skip <= |elem|
    ensures ReadLong(c.(msg := true), elem, skip, next) == ReadLong(c.(msg := false), elem, skip, next)
  {
  }

  lemma ElementIgnoresMessages(c: Config, elem: CString, next: Maybe<CString>)
    requires IgnoresMessages(c.usage) && HoldsOptions(elem)
    ensures Read(c.(msg := true), elem, next) == Read(c.(msg := false), elem, next)
  {
    GroupIgnoresMessages(c, elem[1..], next);
    LongIgnoresMessages(c, elem, 1, next);
    LongIgnoresMessages(c, elem, 2, next);
  }

  lemma {:induction false} ParseIgnoresMessages(c: Config, gnu: bool, v: seq<CString>)
    requires IgnoresMessages(c.usage)
    ensures Parse(c.(msg := true), gnu, v) == Parse(c.(msg := false), gnu, v)
    decreases |v|
  {
    if v != [] && !Terminator(v[0]) {
      if HoldsOptions(v[0]) {
        ElementIgnoresMessages(c, v[0], Head(v[1..]));
        ParseIgnoresMessages(c, gnu, v[ElementsTaken(ReaderOf(c.(msg := true)), v)..]);
      } else {
        ParseIgnoresMessages(c, gnu, v[1..]);
      }
    }
  }

  // ---------- Stats ----------

  function Min(a: int, b: int): int {
    if a <= b then a else b
  }

  /** One more than the greatest index of the table, and one more for a sentinel, unless `before` is more. */
  ghost predicate Covers(usage: seq<Descriptor>, before: nat, optionsMax: nat) {
    && before <= optionsMax
    && (forall d :: 0 <= d < |usage| ==> usage[d].index + 1 < optionsMax)
    && (optionsMax == before || exists d :: 0 <= d < |usage| && optionsMax == usage[d].index + 2)
  }

  method MeasureOptions(stats: Stats, usage: seq<Descriptor>)
    modifies stats`optionsMax
    ensures Covers(usage, old(stats.optionsMax), stats.optionsMax)
  {
    var i := 0;
    while i < |usage|
      invariant 0 <= i <= |usage|
      invariant Covers(usage[..i], old(stats.optionsMax), stats.optionsMax)
    {
      if usage[i].index + 1 >= stats.optionsMax {
        stats.optionsMax := usage[i].index + 1 + 1;
        assert usage[..i + 1][i] == usage[i];
      }
      i := i + 1;
    }
    assert usage[..i] == usage;
  }

  /** Updates the statistics for a table and an argument vector. */
  method Add(stats: Stats, c: Config, gnu: bool, argc: int, args: Argv, ghost v: seq<CString>)
    requires !c.msg && stats.bufferMax.value <= INT_MAX
    requires W.Given(args, argc, v)
    modifies stats, stats.bufferMax, args
    ensures Covers(c.usage, old(stats.optionsMax), stats.optionsMax)
    ensures stats.bufferMax.value == Min(old(stats.bufferMax.value) + |Parse(c, gnu, v).options|, INT_MAX)
    ensures args != null ==> W.Rearranged(old(args[..]), args[..], if gnu then 1 else 0)
    ensures args != null && old(stats.bufferMax.value) + |Parse(c, gnu, v).options| <= INT_MAX ==>
              W.Leaves(Parse(c, gnu, v), old(args[..]), args[..], |v|)
  {
    MeasureOptions(stats, c.usage);
    var counter := new CountOptionsAction(stats.bufferMax);
    var action := Counting(counter);
    assert Key(0);
    assert args != null ==> args[..] == old(args[..]);
    var ok := W.Run(c, gnu, argc, args, action, v);
  }

  // ---------- Parser ----------

  /** What a parse adds to the options stored: those that fit a buffer of `bufmax` slots. */
  function Fitting(stored: seq<Parsed>, bufmax: int, found: seq<Parsed>): (kept: seq<Parsed>)
    ensures kept <= found
  {
    if bufmax < 0 then found[..Min(|found|, if |stored| <= INT_MAX then INT_MAX - |stored| else 0)]
    else found[..Min(|found|, if |stored| <= bufmax then bufmax - |stored| else 0)]
  }

  /** No more are kept than there is room for, and none is left out without need. */
  lemma FittingIsLongest(stored: seq<Parsed>, bufmax: int, found: seq<Parsed>, kept: seq<Parsed>)
    requires kept <= found
    ensures var room := if bufmax < 0 then INT_MAX else bufmax;
            kept == Fitting(stored, bufmax, found) <==>
            (kept == [] || |stored| + |kept| <= room) && (kept == found || |stored| + |kept| >= room)
  {
    assert kept == found[..|kept|];
  }

  /** What the storing action kept of the options it saw is what fits. */
  lemma KeptIsFitting(stored: seq<Parsed>, bufmax: int, out: Outcome, ok: bool, seen: seq<Parsed>, kept: nat)
    requires bufmax <= INT_MAX && (bufmax < 0 ==> |stored| <= INT_MAX)
    requires W.Achieves(out, if bufmax < 0 then Just(INT_MAX - |stored|) else Nothing, [], ok, seen)
    requires kept == if bufmax < 0 || |stored| + |seen| <= bufmax then |seen|
                     else if |stored| <= bufmax then bufmax - |stored| else 0
    ensures kept <= |seen| && seen[..kept] == Fitting(stored, bufmax, out.options)
    ensures ok == (out.legal && (bufmax >= 0 || |stored| + |out.options| <= INT_MAX))
  {
    assert [] + out.options == out.options;
  }

  /** Runs the parser with the storing action. */
  method RunStoring(parser: Parser, c: Config, gnu: bool, argc: int, args: Argv, options: seq<Option>,
                    buffer: seq<Option>,
                    bufmax: int, ghost v: seq<CString>, ghost stored: seq<Parsed>)
    returns (ok: bool)
    requires W.Given(args, argc, v)
    requires IndicesFit(c.usage, |options|) && TablesHold(c.usage, options, buffer, stored)
    requires bufmax <= |buffer| && bufmax <= INT_MAX
    requires bufmax < 0 ==> |stored| < |buffer| && |stored| <= INT_MAX
    requires bufmax < 0 ==> |stored| + |Parse(c, gnu, v).options| <= |buffer| || INT_MAX <= |buffer|
    modifies parser, args, (set o | o in options), (set o | o in buffer)
    ensures TablesHold(c.usage, options, buffer, stored + Fitting(stored, bufmax, Parse(c, gnu, v).options))
    ensures parser.opCount == if 0 <= bufmax < |stored| then bufmax
                              else |stored| + |Fitting(stored, bufmax, Parse(c, gnu, v).options)|
    ensures ok == (Parse(c, gnu, v).legal && (bufmax >= 0 || |stored| + |Parse(c, gnu, v).options| <= INT_MAX))
    ensures args != null && (bufmax >= 0 || |stored| + |Parse(c, gnu, v).options| <= INT_MAX) ==>
              W.Leaves(Parse(c, gnu, v), old(args[..]), args[..], |v|)
    ensures args != null ==> W.Rearranged(old(args[..]), args[..], if gnu then 1 else 0)
    ensures NonOptions(parser.nonopArgs, parser.nonopStart, parser.nonopCount)
            == if ok && W.Leftover(ReaderOf(c), gnu, argc, v) > 0
               then NonOptions(args, |Parse(c, gnu, v).front|, W.Leftover(ReaderOf(c), gnu, argc, v))
               else old(NonOptions(parser.nonopArgs, parser.nonopStart, parser.nonopCount))
  {
    var store := new StoreOptionAction(c.usage, parser, options, buffer, bufmax, stored);
    var action := Storing(store);
    assert action.Valid() by {
      assert Key(0);
    }
    assert args != null ==> args[..] == old(args[..]);
    ok := W.Run(c, gnu, argc, args, action, v);
    assert store.Valid() by {
      assert Key(0);
    }
    KeptIsFitting(stored, bufmax, Parse(c, gnu, v), ok, store.seen, store.KeptCount());
  }

  /**
    Parses an argument vector into two arrays that hold the options `stored`
    of earlier parses.
  */
  method ParseInto(parser: Parser, c: Config, gnu: bool, argc: int, args: Argv, options: seq<Option>,
                   buffer: seq<Option>,
                   bufmax: int, ghost v: seq<CString>, ghost stored: seq<Parsed>)
    requires c.msg && W.Given(args, argc, v)
    requires IndicesFit(c.usage, |options|) && TablesHold(c.usage, options, buffer, stored)
    requires bufmax <= |buffer| && bufmax <= INT_MAX
    requires bufmax < 0 ==> |stored| < |buffer| && |stored| <= INT_MAX
    requires bufmax < 0 ==> |stored| + |Parse(c, gnu, v).options| <= |buffer| || INT_MAX <= |buffer|
    modifies parser, args, (set o | o in options), (set o | o in buffer)
    ensures TablesHold(c.usage, options, buffer, stored + Fitting(stored, bufmax, Parse(c, gnu, v).options))
    ensures parser.opCount == if 0 <= bufmax < |stored| then bufmax
                              else |stored| + |Fitting(stored, bufmax, Parse(c, gnu, v).options)|
    ensures parser.err <==> !Parse(c, gnu, v).legal || (bufmax < 0 && |stored| + |Parse(c, gnu, v).options| > INT_MAX)
    ensures args != null && (bufmax >= 0 || |stored| + |Parse(c, gnu, v).options| <= INT_MAX) ==>
              W.Leaves(Parse(c, gnu, v), old(args[..]), args[..], |v|)
    ensures args != null ==> W.Rearranged(old(args[..]), args[..], if gnu then 1 else 0)
    ensures NonOptions(parser.nonopArgs, parser.nonopStart, parser.nonopCount)
            == if !parser.err && W.Leftover(ReaderOf(c), gnu, argc, v) > 0
               then NonOptions(args, |Parse(c, gnu, v).front|, W.Leftover(ReaderOf(c), gnu, argc, v))
               else old(NonOptions(parser.nonopArgs, parser.nonopStart, parser.nonopCount))
  {
    var ok := RunStoring(parser, c, gnu, argc, args, options, buffer, bufmax, v, stored);
    parser.err := !ok;
  }

  // ---------- Sizing ----------

  /** An array of unused options. */
  method NewOptions(n: nat) returns (nodes: seq<Option>)
    ensures |nodes| == n && Distinct(nodes)
    ensures forall o :: o in nodes ==> fresh(o) && IsRing([o]) && o.desc.Nothing?
  {
    nodes := [];
    while |nodes| < n
      invariant |nodes| <= n && Distinct(nodes)
      invariant forall o :: o in nodes ==> fresh(o) && IsRing([o]) && o.desc.Nothing?
    {
      var o := new Option();
      nodes := nodes + [o];
    }
  }

  lemma UnusedTablesHoldNothing(usage: seq<Descriptor>, options: seq<Option>, buffer: seq<Option>)
    requires Separate(options, buffer)
    requires forall o :: o in options || o in buffer ==> IsRing([o]) && o.desc.Nothing?
    ensures TablesHold(usage, options, buffer, [])
  {
  }

  /**
    What a program does that sizes both arrays by the statistics: the parser
    finds exactly the options counted, and the last slot of either array stays
    unused as a sentinel, unless the options are more than a signed int counts.
  */
  method MeasureThenParse(c: Config, argc: int, args: Argv, ghost v: seq<CString>)
    returns (stats: Stats, parser: Parser, options: seq<Option>, buffer: seq<Option>)
    requires W.Given(args, argc, v) && IgnoresMessages(c.usage)
    modifies args
    ensures |buffer| == stats.bufferMax.value > 0 && |options| == stats.optionsMax > 0
    ensures args != null ==> args[..] == old(args[..])
    ensures var found := Parse(c, false, v).options;
            && parser.opCount == Min(|found|, INT_MAX)
            && TablesHold(c.usage, options, buffer, found[..Min(|found|, INT_MAX)])
            && (stats.bufferMax.value - 1 == parser.opCount <==> |found| < INT_MAX)
            && (buffer[|buffer| - 1].desc.Nothing? <==> |found| < INT_MAX)
            && options[|options| - 1].desc.Nothing?
            && (parser.err <==> !Parse(c, false, v).legal || |found| > INT_MAX)
  {
    ParseIgnoresMessages(c, false, v);
    ghost var found := Parse(c.(msg := true), false, v).options;
    assert c == c.(msg := c.msg);
    stats := new Stats();
    Add(stats, c.(msg := false), false, argc, args, v);
    options := NewOptions(stats.optionsMax);
    buffer := NewOptions(stats.bufferMax.value);
    parser := new Parser();
    UnusedTablesHoldNothing(c.usage, options, buffer);
    ParseInto(parser, c.(msg := true), false, argc, args, options, buffer, -1, v, []);
    ghost var stored := found[..Min(|found|, INT_MAX)];
    assert [] + Fitting([], -1, found) == stored;
    SentinelSlots(c.usage, options, buffer, stored);
  }

  /** A vector that a parse has reordered is a vector again. */
  lemma GivenAgain(c: Config, gnu: bool, was: seq<Maybe<CString>>, a: seq<Maybe<CString>>, argc: int, v: seq<CString>)
    requires W.Holds(was, 0, argc, v) && W.Leaves(Parse(c, gnu, v), was, a, |v|)
    ensures W.Holds(a, 0, argc, Parse(c, gnu, v).Vector()) && |Parse(c, gnu, v).Vector()| == |v|
  {
    ParsePermutes(ReaderOf(c), gnu, v);
    assert |multiset(Parse(c, gnu, v).Vector())| == |multiset(v)|;
  }

  /** The POSIX parse of a vector that a GNU run has measured finds no more than was counted, and leaves it alone. */
  lemma ParsedAgain(c: Config, v: seq<CString>)
    requires PredictableTable(c)
    ensures var first := Parse(c, true, v);
            var again := Parse(c, false, first.Vector());
            && again == PosixAfterGnu(ReaderOf(c), first) && again.options <= first.options
            && again.Vector() == first.Vector()
  {
    PosixParseAfterGnu(c, v);
    PosixKeepsTheVector(ReaderOf(c), Parse(c, true, v).Vector());
  }

  /** Measures in GNU mode, which reorders the vector. */
  method MeasureGnu(c: Config, argc: int, args: Argv, ghost v: seq<CString>) returns (stats: Stats)
    requires !c.msg && W.Given(args, argc, v) && |Parse(c, true, v).options| < INT_MAX
    modifies args
    ensures fresh(stats) && fresh(stats.bufferMax)
    ensures stats.bufferMax.value == |Parse(c, true, v).options| + 1 && Covers(c.usage, 1, stats.optionsMax)
    ensures args != null ==> W.Leaves(Parse(c, true, v), old(args[..]), args[..], |v|)
    ensures W.Given(args, argc, Parse(c, true, v).Vector())
  {
    stats := new Stats();
    Add(stats, c, true, argc, args, v);
    if args != null {
      GivenAgain(c, true, old(args[..]), args[..], argc, v);
    }
  }

  /**
    The use that the documentation recommends: GNU mode when measuring, and the
    parser in its default mode.  What was counted is what is found, unless an
    argument is illegal; and that goes unnoticed if it is behind a non-option.
  */
  method ReorderThenParse(c: Config, argc: int, args: Argv, ghost v: seq<CString>)
    returns (stats: Stats, parser: Parser, options: seq<Option>, buffer: seq<Option>)
    requires W.Given(args, argc, v) && IgnoresMessages(c.usage) && PredictableTable(c.(msg := true))
    requires |Parse(c.(msg := true), true, v).options| < INT_MAX
    modifies args
    ensures |buffer| == stats.bufferMax.value > 0 && |options| == stats.optionsMax > 0
    ensures buffer[|buffer| - 1].desc.Nothing? && options[|options| - 1].desc.Nothing?
    ensures var first := Parse(c.(msg := true), true, v);
            var again := PosixAfterGnu(ReaderOf(c.(msg := true)), first);
            && TablesHold(c.usage, options, buffer, again.options) && parser.opCount == |again.options|
            && (first.legal ==> again.options == first.options)
            && (parser.err <==> !first.legal && first.nonOptions == [])
            && (args != null ==> W.Leaves(first, old(args[..]), args[..], |v|))
  {
    ParseIgnoresMessages(c, true, v);
    ParsedAgain(c.(msg := true), v);
    ghost var first := Parse(c.(msg := true), true, v);
    stats := MeasureGnu(c.(msg := false), argc, args, v);
    options := NewOptions(stats.optionsMax);
    buffer := NewOptions(stats.bufferMax.value);
    parser := new Parser();
    UnusedTablesHoldNothing(c.usage, options, buffer);
    ghost var before := if args == null then [] else args[..];
    ParseInto(parser, c.(msg := true), false, argc, args, options, buffer, -1, first.Vector(), []);
    ghost var again := Parse(c.(msg := true), false, first.Vector());
    assert [] + Fitting([], -1, again.options) == again.options;
    SentinelSlots(c.usage, options, buffer, again.options);
    if args != null {
      LeavesAlone(first, again, old(args[..]), before, args[..], |v|);
    }
  }

  lemma LeavesAlone(first: Outcome, again: Outcome, was: seq<Maybe<CString>>, a: seq<Maybe<CString>>,
                    b: seq<Maybe<CString>>, n: nat)
    requires W.Leaves(first, was, a, n) && |first.Vector()| == n
    requires again.Vector() == first.Vector() && W.Leaves(again, a, b, n)
    ensures W.Leaves(first, was, b, n)
  {
    assert a[n..] == was[n..];
  }

  /** The slots behind the stored options, and those of indices that did not occur, are unused. */
  lemma SentinelSlots(usage: seq<Descriptor>, options: seq<Option>, buffer: seq<Option>, stored: seq<Parsed>)
    requires TablesHold(usage, options, buffer, stored)
    requires |options| > 0 && forall d :: 0 <= d < |usage| ==> usage[d].index + 1 < |options|
    ensures options[|options| - 1].desc.Nothing?
    ensures forall k :: 0 <= k < |buffer| ==> (buffer[k].desc.Nothing? <==> k >= |stored|)
  {
    assert Key(0);
    SelectsNothing(usage, stored, |options| - 1);
    assert ListHolds(usage, options, buffer, stored, |options| - 1);
  }

  lemma {:induction false} SelectsNothing(usage: seq<Descriptor>, stored: seq<Parsed>, i: nat)
    requires forall p :: p in stored ==> p.desc < |usage|
    requires forall d :: 0 <= d < |usage| ==> usage[d].index != i
    ensures Selected(usage, stored, i) == []
  {
    if stored != [] {
      SelectsNothing(usage, stored[..|stored| - 1], i);
    }
  }
}
