/**
  The check functions of the library and of the example program, and what the
  check functions of a table must be like for reordering to be harmless.
*/
module CheckFunctions {
  import opened Basics
  import opened CStrings
  import opened Descriptors
  import opened Grammar
  import opened Reordering

  /** How many characters of `name` belong to the option name: one letter, or a long name up to its '='. */
  function NameLength(name: string): (n: nat)
    requires name != ""
    ensures 1 <= n <= |name|
  {
    if name[0] != '-' then 1 else 1 + |NamePart(name[1..])|
  }

  /** A long name goes up to its first '='. */
  lemma NameLengthMeans(name: string)
    requires name != ""
    ensures var n := NameLength(name);
            if name[0] == '-' then '=' !in name[..n] && (n == |name| || name[n] == '=') else n == 1
  {
    var n := NameLength(name);
    assert name[0] == '-' ==> name[..n] == [name[0]] + NamePart(name[1..]);
  }

  /** Nothing is attached to the name, so only a detached argument can be on offer. */
  predicate Bare(name: string) {
    name != "" && NameLength(name) == |name|
  }

  // ---------- Check functions ----------

  const NO_ARGUMENT: CheckArg := (_: string, _: Maybe<string>, _: bool) => ArgNone

  const OPTIONAL_ARGUMENT: CheckArg :=
    (name: string, arg: Maybe<string>, _: bool) =>
      if arg.Just? && name != "" && NameLength(name) < |name| then ArgOk else ArgIgnore

  const UNKNOWN_OPTION: CheckArg := (_: string, _: Maybe<string>, _: bool) => ArgIllegal

  const REQUIRED_ARGUMENT: CheckArg :=
    (_: string, arg: Maybe<string>, _: bool) => if arg.Just? && arg.value != "" then ArgOk else ArgIllegal

  const STRING_ARGUMENT: CheckArg := (_: string, arg: Maybe<string>, _: bool) => if arg.Just? then ArgOk else ArgIllegal

  /** `isNumber` says of which strings `strtol` consumes everything and something. */
  function NumericArgument(isNumber: string -> bool): CheckArg {
    (_: string, arg: Maybe<string>, _: bool) => if arg.Just? && isNumber(arg.value) then ArgOk else ArgIllegal
  }

  // ---------- Two kinds of check function ----------

  /** Never accepts a detached argument and does not depend on it. */
  ghost predicate IgnoresDetached(check: CheckArg, msg: bool) {
    forall name, arg :: Bare(name) ==>
      && check(name, arg, msg) != ArgOk
      && (check(name, arg, msg) == ArgIllegal <==> check(name, Nothing, msg) == ArgIllegal)
  }

  /** Accepts or rejects for good, and rejects a missing argument. */
  ghost predicate DemandsArgument(check: CheckArg, msg: bool) {
    forall name, arg :: Bare(name) ==>
      && (check(name, arg, msg) == ArgOk || check(name, arg, msg) == ArgIllegal)
      && check(name, Nothing, msg) == ArgIllegal
  }

  ghost predicate Predictable(check: CheckArg, msg: bool) {
    IgnoresDetached(check, msg) || DemandsArgument(check, msg)
  }

  lemma LibraryChecksArePredictable(isNumber: string -> bool, msg: bool)
    ensures IgnoresDetached(NO_ARGUMENT, msg)
    ensures IgnoresDetached(OPTIONAL_ARGUMENT, msg)
    ensures IgnoresDetached(UNKNOWN_OPTION, msg)
    ensures DemandsArgument(REQUIRED_ARGUMENT, msg)
    ensures DemandsArgument(STRING_ARGUMENT, msg)
    ensures DemandsArgument(NumericArgument(isNumber), msg)
  {
  }

  // ---------- Readings in front of different successors ----------

  /** Relates two readings of one element in front of `l` and of `l'`. */
  ghost predicate Alike(r: Reading, r': Reading, l: Maybe<CString>) {
    && (r.tookNext ==> l.Just?)
    && (Settled(r) && Settled(r') ==> r == r')
    && (Settled(r) && r'.tookNext ==> TakesInstead(r, r'))
  }

  /** An option with two different elements on offer, and nothing behind it. */
  lemma JudgedAlike(c: Config, d: nat, name: CString, l: Maybe<CString>, l': Maybe<CString>)
    requires d <= |c.usage|
    ensures Alike(Judged(c, d, name, l, true, NOTHING_FOUND), Judged(c, d, name, l', true, NOTHING_FOUND), l)
  {
  }

  /** An option with its own argument in front of what reads alike. */
  lemma JudgedBefore(c: Config, d: nat, name: CString, arg: Maybe<CString>, more: Reading, more': Reading,
                     l: Maybe<CString>)
    requires d <= |c.usage| && Alike(more, more', l)
    ensures Alike(Judged(c, d, name, arg, false, more), Judged(c, d, name, arg, false, more'), l)
  {
  }

  lemma {:induction false} GroupsAlike(c: Config, group: CString, l: Maybe<CString>, l': Maybe<CString>)
    ensures Alike(ReadShort(c, group, l), ReadShort(c, group, l'), l)
  {
    if |group| == 1 {
      assert group[1..] == "";
      assert ReadShort(c, "", l) == ReadShort(c, "", l') == NOTHING_FOUND;
      JudgedAlike(c, ShortEntry(c, group[0]), group, l, l');
    } else if group != "" {
      GroupsAlike(c, group[1..], l, l');
      JudgedBefore(c, ShortEntry(c, group[0]), group, Just(group[1..]), ReadShort(c, group[1..], l),
                   ReadShort(c, group[1..], l'), l);
    }
  }

  lemma LongOptionsAlike(c: Config, elem: CString, skip: nat, l: Maybe<CString>, l': Maybe<CString>)
    requires skip <= |elem|
    ensures Alike(ReadLong(c, elem, skip, l), ReadLong(c, elem, skip, l'), l)
  {
  }

  lemma ReaderIsCoherent(c: Config)
    ensures Coherent(ReaderOf(c))
  {
    forall elem: CString, l, l' | HoldsOptions(elem)
      ensures AlikeAt(ReaderOf(c), elem, l, l')
    {
      GroupsAlike(c, elem[1..], l, l');
      LongOptionsAlike(c, elem, 1, l, l');
      LongOptionsAlike(c, elem, 2, l, l');
    }
  }

  // ---------- Tables of predictable check functions ----------

  ghost predicate PredictableTable(c: Config) {
    forall d :: 0 <= d < |c.usage| ==> Predictable(c.usage[d].check, c.msg)
  }

  lemma {:induction false} GroupIsBlind(c: Config, group: CString, l: Maybe<CString>, l': Maybe<CString>)
    requires PredictableTable(c) && Settled(ReadShort(c, group, l))
    ensures Settled(ReadShort(c, group, l'))
  {
    if |group| == 1 {
      assert group[1..] == "";
      assert Bare(group);
      var d := ShortEntry(c, group[0]);
      if d < |c.usage| {
        PredictableAnswer(c.usage[d].check, c.msg, group, l, l');
      }
    } else if group != "" && !Settled(ReadShort(c, group[1..], l')) {
      if Settled(ReadShort(c, group[1..], l)) {
        GroupIsBlind(c, group[1..], l, l');
      }
    }
  }

  /** What a predictable check function answers once nothing is attached. */
  lemma PredictableAnswer(check: CheckArg, msg: bool, name: string, l: Maybe<string>, l': Maybe<string>)
    requires Predictable(check, msg) && Bare(name)
    requires check(name, l, msg) != ArgIllegal
    requires check(name, l, msg) == ArgOk ==> l.Nothing?
    ensures check(name, l', msg) == ArgNone || check(name, l', msg) == ArgIgnore
  {
  }

  lemma LongOptionIsBlind(c: Config, elem: CString, skip: nat, l: Maybe<CString>, l': Maybe<CString>)
    requires OptionLike(elem) && (skip == 1 || (skip == 2 && elem[1] == '-'))
    requires PredictableTable(c) && Settled(ReadLong(c, elem, skip, l))
    ensures Settled(ReadLong(c, elem, skip, l'))
  {
  }

  lemma PredictableTableIsSteadfast(c: Config)
    requires PredictableTable(c)
    ensures Steadfast(ReaderOf(c)) && BlindToReordering(ReaderOf(c))
  {
    forall elem: CString, l, l' | HoldsOptions(elem) && Settled(Read(c, elem, l))
      ensures Settled(Read(c, elem, l'))
    {
      if elem[1] == '-' {
        LongOptionIsBlind(c, elem, 2, l, l');
      } else if c.singleMinus && LongIndex(c.usage, elem[1..], c.minAbbrev) < |c.usage| {
        LongOptionIsBlind(c, elem, 1, l, l');
      } else {
        GroupIsBlind(c, elem[1..], l, l');
      }
    }
    SteadfastIsBlind(ReaderOf(c));
  }

  /**
    For such a table, a POSIX parse after a GNU parse finds the same, except
    that it does not find an illegal argument that is behind a non-option.
  */
  lemma PosixParseAfterGnu(c: Config, v: seq<CString>)
    requires PredictableTable(c)
    ensures var first := Parse(c, true, v);
            && Parse(c, false, first.Vector()) == PosixAfterGnu(ReaderOf(c), first)
            && (!Parse(c, false, first.Vector()).legal <==> !first.legal && first.nonOptions == [])
            && Parse(c, false, first.Vector()).options <= first.options
  {
    ReaderIsCoherent(c);
    PredictableTableIsSteadfast(c);
    GnuThenPosixAnyway(ReaderOf(c), v);
  }

  /** What a GNU parse promises, for every table whose check functions are predictable. */
  lemma GnuReorderingPreservesMeaning(c: Config, gnu: bool, v: seq<CString>)
    requires PredictableTable(c) && Parse(c, true, v).legal
    ensures var first := Parse(c, true, v);
            var again := Parse(c, gnu, first.Vector());
            && again.legal && again.options == first.options && again.nonOptions == first.nonOptions
            && again.Vector() == first.Vector()
  {
    ReaderIsCoherent(c);
    PredictableTableIsSteadfast(c);
    ReorderedOnceForAll(ReaderOf(c), gnu, v);
  }

  /** For every table and vector: a second parse means the same exactly if no option takes what is put behind it. */
  lemma GnuThenPosixForVector(c: Config, gnu: bool, v: seq<CString>)
    requires Parse(c, true, v).legal
    ensures SameAgain(ReaderOf(c), gnu, v) <==> Undisturbed(ReaderOf(c), v, [])
  {
    ReaderIsCoherent(c);
    GnuThenPosixHere(ReaderOf(c), gnu, v);
  }

  /** Exactly the tables that are blind to reordering mean the same after it. */
  lemma GnuThenPosixExactly(c: Config)
    ensures (forall v :: Parse(c, true, v).legal ==> SameAgain(ReaderOf(c), false, v))
            <==> BlindToReordering(ReaderOf(c))
  {
    ReaderIsCoherent(c);
    GnuThenPosix(ReaderOf(c));
  }

  /** Accepts whatever follows, but does not insist: neither of the two kinds. */
  const ANY_ARGUMENT: CheckArg := (_: string, arg: Maybe<string>, _: bool) => if arg.Just? then ArgOk else ArgIgnore

  const GREEDY_N: Config := Config([Descriptor(0, 0, "n", "", ANY_ARGUMENT)], false, 0, true)

  lemma GreedyReads(next: Maybe<CString>)
    ensures ReaderOf(GREEDY_N)("-n", next) == Reading([Parsed(0, "n", next)], next.Just?, true)
  {
    var elem: CString, group: CString := "-n", "n";
    assert elem[1..] == group && group[1..] == "";
    assert First(GREEDY_N.usage, Letter('n'), 0) == 0;
    assert ShortEntry(GREEDY_N, 'n') == 0;
    assert ReadShort(GREEDY_N, "", next) == NOTHING_FOUND;
    assert [Parsed(0, "n", Nothing)] + [] == [Parsed(0, "n", Nothing)];
  }

  /**
    With such a check function the documented claim fails: `x -n` is reordered
    to `-n x`, where `x` has become the argument of `-n`.
  */
  lemma ReorderingCanChangeMeaning()
    ensures var c := Config([Descriptor(0, 0, "n", "", ANY_ARGUMENT)], false, 0, true);
            var first := Parse(c, true, ["x", "-n"]);
            && first == Outcome([Parsed(0, "n", Nothing)], ["-n"], ["x"], [], true)
            && Parse(c, false, first.Vector()) == Outcome([Parsed(0, "n", Just("x"))], ["-n", "x"], [], [], true)
  {
    var read := ReaderOf(GREEDY_N);
    GreedyReads(Nothing);
    GreedyReads(Just("x"));
    var none: seq<CString> := [];
    var u: seq<CString> := ["-n"];
    var v: seq<CString> := ["x"] + u;
    var w: seq<CString> := u + ["x"];
    assert u[1..] == none && v[1..] == u && w[1..] == ["x"] && w[2..] == none;
    assert ReadHead(read, u) == Reading([Parsed(0, "n", Nothing)], false, true);
    assert ReadHead(read, w) == Reading([Parsed(0, "n", Just("x"))], true, true);
    assert ParseArgs(read, true, none) == ParseArgs(read, false, none) == Outcome([], [], [], [], true);
    assert ParseArgs(read, true, u) == Outcome([Parsed(0, "n", Nothing)], u, [], [], true);
    assert ParseArgs(read, true, v) == Outcome([Parsed(0, "n", Nothing)], u, ["x"], [], true);
    assert u + ["x"] + [] == w && w[..2] == w;
    assert ParseArgs(read, false, w) == Outcome([Parsed(0, "n", Just("x"))], w, [], [], true);
    assert v == ["x", "-n"] && w == ["-n", "x"];
  }

  /**
    An illegal argument behind a non-option: the GNU run refuses `x -b`, and
    the POSIX parse that follows it accepts what the run left.
  */
  lemma RefusalCanGoUnnoticed()
    ensures var c := Config([Descriptor(0, 0, "b", "", UNKNOWN_OPTION)], false, 0, true);
            var first := Parse(c, true, ["x", "-b"]);
            && PredictableTable(c) && first == Outcome([], [], ["x"], ["-b"], false)
            && Parse(c, false, first.Vector()) == Outcome([], [], ["x", "-b"], [], true)
  {
    var c := Config([Descriptor(0, 0, "b", "", UNKNOWN_OPTION)], false, 0, true);
    var read := ReaderOf(c);
    var minusB: CString, group: CString := "-b", "b";
    assert minusB[1..] == group && group[1..] == "";
    assert First(c.usage, Letter('b'), 0) == 0;
    assert ReadShort(c, group, Nothing) == Reading([], false, false) by {
      assert ShortEntry(c, 'b') == 0;
    }
    var none: seq<CString> := [];
    var u: seq<CString> := ["-b"];
    var v: seq<CString> := ["x"] + u;
    assert u[1..] == none && v[1..] == u;
    assert ReadHead(read, u) == Reading([], false, false);
    assert ParseArgs(read, true, u) == Outcome([], [], [], u, false);
    assert ParseArgs(read, true, v) == Outcome([], [], ["x"], u, false);
    assert [] + ["x"] + u == v == ["x", "-b"];
    LibraryChecksArePredictable(_ => true, true);
  }
}
