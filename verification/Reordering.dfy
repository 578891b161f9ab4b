/**
  What GNU-mode reordering does to an argument vector, and exactly when a
  reordered vector means the same to a second parse.
*/
module Reordering {
  import opened Basics
  import opened CStrings
  import opened Descriptors
  import opened Grammar
  import opened Sequences

  // ---------- The reordered vector ----------

  lemma PrefixedVector(whole: Outcome, more: Outcome, first: seq<CString>)
    requires whole.front == first + more.front && whole.nonOptions == more.nonOptions && whole.rest == more.rest
    ensures whole.Vector() == first + more.Vector()
  {
    assert (first + more.front) + more.nonOptions + more.rest == first + (more.front + more.nonOptions + more.rest);
  }

  lemma {:induction false} PosixKeepsTheVector(read: Reader, v: seq<CString>)
    ensures ParseArgs(read, false, v).Vector() == v
    decreases |v|
  {
    var out := ParseArgs(read, false, v);
    if v != [] && HoldsOptions(v[0]) && ReadHead(read, v).legal {
      var k := ElementsTaken(read, v);
      PosixKeepsTheVector(read, v[k..]);
      PrefixedVector(out, ParseArgs(read, false, v[k..]), v[..k]);
    } else {
      StopsAtHead(read, false, v);
    }
  }

  /** The elements of `v` that the mask marks, in order. */
  function Marked(v: seq<CString>, mask: seq<bool>): (r: seq<CString>)
    requires |v| == |mask|
  {
    if v == [] then [] else (if mask[0] then v[..1] else []) + Marked(v[1..], mask[1..])
  }

  function Flip(mask: seq<bool>): (r: seq<bool>)
    ensures |r| == |mask|
    ensures forall i :: 0 <= i < |mask| ==> r[i] == !mask[i]
  {
    seq(|mask|, i requires 0 <= i < |mask| => !mask[i])
  }

  /**
    The marked elements are options, their arguments and a terminator at `end`,
    unless the vector ends without one: everything unmarked before the
    terminator is a non-option, everything behind the terminator is unmarked,
    and a marked element before it that cannot hold options is the argument of
    the option in front of it.
  */
  ghost predicate MarksOptions(v: seq<CString>, mask: seq<bool>, end: nat)
  {
    && |v| == |mask| && end <= |v| && (end < |v| ==> mask[end] && Terminator(v[end]))
    && (forall i :: end < i < |v| ==> !mask[i])
    && (forall i :: 0 <= i < end && OptionLike(v[i]) ==> mask[i])
    && forall i :: 0 <= i < end && mask[i] && !HoldsOptions(v[i]) ==> i > 0 && mask[i - 1] && HoldsOptions(v[i - 1])
  }

  lemma {:induction false} MarkedPrepend(v: seq<CString>, w: seq<CString>, m: seq<bool>, n: seq<bool>)
    requires |v| == |m| && |w| == |n|
    ensures Marked(v + w, m + n) == Marked(v, m) + Marked(w, n)
  {
    if v == [] {
      assert v + w == w && m + n == n;
    } else {
      MarkedPrepend(v[1..], w, m[1..], n);
      assert (v + w)[1..] == v[1..] + w && (m + n)[1..] == m[1..] + n;
      assert (v + w)[..1] == v[..1] && (m + n)[0] == m[0];
      Associative(if m[0] then v[..1] else [], Marked(v[1..], m[1..]), Marked(w, n));
    }
  }

  lemma {:induction false} NothingMarked(v: seq<CString>, mask: seq<bool>)
    requires |v| == |mask| && forall i :: 0 <= i < |mask| ==> !mask[i]
    ensures Marked(v, mask) == [] && Marked(v, Flip(mask)) == v
  {
    if v != [] {
      NothingMarked(v[1..], mask[1..]);
      assert Flip(mask)[1..] == Flip(mask[1..]);
    }
  }

  lemma {:induction false} AllMarked(v: seq<CString>, mask: seq<bool>)
    requires |v| == |mask| && forall i :: 0 <= i < |mask| ==> mask[i]
    ensures Marked(v, mask) == v && Marked(v, Flip(mask)) == []
  {
    if v != [] {
      AllMarked(v[1..], mask[1..]);
      assert Flip(mask)[1..] == Flip(mask[1..]);
    }
  }

  /** Splits both selections of `head + tail`, whose masks are `m` and `n`. */
  lemma {:induction false} SplitMarks(head: seq<CString>, tail: seq<CString>, m: seq<bool>, n: seq<bool>)
    requires |head| == |m| && |tail| == |n|
    ensures Marked(head + tail, m + n) == Marked(head, m) + Marked(tail, n)
    ensures Marked(head + tail, Flip(m + n)) == Marked(head, Flip(m)) + Marked(tail, Flip(n))
  {
    MarkedPrepend(head, tail, m, n);
    MarkedPrepend(head, tail, Flip(m), Flip(n));
    assert Flip(m + n) == Flip(m) + Flip(n);
  }

  /** A vector with `k` elements of one kind in front of one that is marked already. */
  ghost predicate Extends(v: seq<CString>, k: nat, others: seq<bool>, mask: seq<bool>) {
    && 1 <= k <= 2 && k <= |v| && (k == 2 ==> HoldsOptions(v[0])) && |mask| == |v|
    && |others| == |v| - k && mask[k..] == others && forall i :: 0 <= i < k ==> mask[i] == OptionLike(v[0])
  }

  lemma ExtendedSelections(v: seq<CString>, k: nat, others: seq<bool>, mask: seq<bool>)
    requires Extends(v, k, others, mask)
    ensures Marked(v, mask) == (if OptionLike(v[0]) then v[..k] else []) + Marked(v[k..], others)
    ensures Marked(v, Flip(mask)) == (if OptionLike(v[0]) then [] else v[..k]) + Marked(v[k..], Flip(others))
  {
    assert v == v[..k] + v[k..] && mask == mask[..k] + others;
    SplitMarks(v[..k], v[k..], mask[..k], others);
    if OptionLike(v[0]) {
      AllMarked(v[..k], mask[..k]);
    } else {
      NothingMarked(v[..k], mask[..k]);
    }
  }

  lemma ExtendedMarks(v: seq<CString>, k: nat, others: seq<bool>, mask: seq<bool>, end: nat)
    requires Extends(v, k, others, mask) && !Terminator(v[0]) && MarksOptions(v[k..], others, end)
    ensures MarksOptions(v, mask, end + k)
  {
    forall i | k <= i < |v|
      ensures mask[i] == others[i - k] && v[i] == v[k..][i - k]
    {
      assert mask[k..][i - k] == mask[i];
    }
  }

  lemma TerminatorMarked(v: seq<CString>) returns (mask: seq<bool>)
    requires v != [] && Terminator(v[0])
    ensures MarksOptions(v, mask, 0) && Marked(v, mask) == v[..1] && Marked(v, Flip(mask)) == v[1..]
  {
    var others := seq(|v| - 1, _ => false);
    NothingMarked(v[1..], others);
    mask := [true] + others;
    ExtendedSelections(v, 1, others, mask);
  }

  /** A legal GNU parse is a stable partition: both blocks keep their original order. */
  lemma {:induction false} StablePartition(read: Reader, v: seq<CString>) returns (mask: seq<bool>, end: nat)
    requires ParseArgs(read, true, v).legal
    ensures MarksOptions(v, mask, end)
    ensures Marked(v, mask) == ParseArgs(read, true, v).front
    ensures Marked(v, Flip(mask)) == ParseArgs(read, true, v).nonOptions
    ensures ParseArgs(read, true, v).rest == []
    decreases |v|
  {
    if v == [] {
      mask, end := [], 0;
    } else if Terminator(v[0]) {
      mask := TerminatorMarked(v);
      end := 0;
    } else {
      var k := if OptionLike(v[0]) then ElementsTaken(read, v) else 1;
      var others, more := StablePartition(read, v[k..]);
      mask, end := seq(k, _ => OptionLike(v[0])) + others, more + k;
      ExtendedSelections(v, k, others, mask);
      ExtendedMarks(v, k, others, mask, more);
    }
  }

  lemma PermutesBehind(v: seq<CString>, k: nat, out: Outcome, more: Outcome)
    requires k <= |v| && multiset(more.Vector()) == multiset(v[k..])
    requires out.Vector() == v[..k] + more.Vector()
             || (out.Vector() == more.front + (v[..k] + more.nonOptions) + more.rest)
    ensures multiset(out.Vector()) == multiset(v)
  {
    MultisetOfInsertion(more.front, v[..k], more.nonOptions, more.rest);
    assert v == v[..k] + v[k..];
  }

  /** Legal or not, a parse only permutes the vector. */
  lemma {:induction false} ParsePermutes(read: Reader, gnu: bool, v: seq<CString>)
    ensures multiset(ParseArgs(read, gnu, v).Vector()) == multiset(v)
    decreases |v|
  {
    var out := ParseArgs(read, gnu, v);
    if v != [] && HoldsOptions(v[0]) && ReadHead(read, v).legal {
      var k := ElementsTaken(read, v);
      ParsePermutes(read, gnu, v[k..]);
      PrefixedVector(out, ParseArgs(read, gnu, v[k..]), v[..k]);
      PermutesBehind(v, k, out, ParseArgs(read, gnu, v[k..]));
    } else if v != [] && !OptionLike(v[0]) && gnu {
      ParsePermutes(read, gnu, v[1..]);
      PermutesBehind(v, 1, out, ParseArgs(read, gnu, v[1..]));
    } else {
      StopsAtHead(read, gnu, v);
    }
  }

  /** Where a parse stops, the vector stays as it is. */
  lemma StopsAtHead(read: Reader, gnu: bool, v: seq<CString>)
    requires v == [] || Terminator(v[0]) || (OptionLike(v[0]) && !ReadHead(read, v).legal)
             || (!OptionLike(v[0]) && !gnu)
    ensures ParseArgs(read, gnu, v).Vector() == v
  {
    if v != [] && Terminator(v[0]) {
      assert v[..1] + v[1..] + [] == v;
    }
  }

  // ---------- Reading the reordered vector again ----------

  /** The element was read to its end and did not take the next one. */
  predicate Settled(r: Reading) {
    r.legal && !r.tookNext
  }

  /**
    In front of an option that `l` followed, reordering can put `l'` instead:
    only non-options (or the end of the vector) make room, for another
    non-option or for an element that starts a vector GNU mode accepts.
  */
  ghost predicate CanReplace(read: Reader, l: Maybe<CString>, l': Maybe<CString>) {
    && (l.Just? ==> !OptionLike(l.value))
    && l'.Just?
    && (OptionLike(l'.value) ==> l.Just? && exists s: seq<CString> :: ParseArgs(read, true, [l'.value] + s).legal)
  }

  /** No element that left its successor alone changes its mind over a successor that reordering can bring. */
  ghost predicate BlindToReordering(read: Reader) {
    forall elem: CString, l, l' ::
      HoldsOptions(elem) && CanReplace(read, l, l') && Settled(read(elem, l)) ==> Settled(read(elem, l'))
  }

  /** A POSIX parse of what a legal GNU parse left behind finds the same options and non-options. */
  ghost predicate ReorderingIsFaithful(read: Reader) {
    forall v :: ParseArgs(read, true, v).legal ==> SameAgain(read, false, v)
  }

  ghost predicate SameAgain(read: Reader, gnu: bool, v: seq<CString>) {
    var first := ParseArgs(read, true, v);
    var again := ParseArgs(read, gnu, first.Vector());
    again.legal && again.options == first.options && again.nonOptions == first.nonOptions
  }

  /** An element settled under one successor and taking another differs in its last option's argument. */
  ghost predicate TakesInstead(r: Reading, r': Reading) {
    && r'.legal && |r.options| == |r'.options| > 0
    && r.options[|r.options| - 1].arg.Nothing?
    && r'.options[|r.options| - 1].arg.Just?
  }

  /** How the readings of one element in front of two successors are related. */
  ghost predicate AlikeAt(read: Reader, elem: CString, l: Maybe<CString>, l': Maybe<CString>) {
    && (read(elem, l).tookNext ==> l.Just?)
    && (Settled(read(elem, l)) && Settled(read(elem, l')) ==> read(elem, l) == read(elem, l'))
    && (Settled(read(elem, l)) && read(elem, l').tookNext ==> TakesInstead(read(elem, l), read(elem, l')))
  }

  ghost predicate Coherent(read: Reader) {
    forall elem: CString, l, l' :: HoldsOptions(elem) ==> AlikeAt(read, elem, l, l')
  }

  lemma {:induction false} NonOptionsOnly(read: Reader, gnu: bool, v: seq<CString>)
    requires forall e :: e in v ==> !OptionLike(e)
    ensures ParseArgs(read, gnu, v) == Outcome([], [], v, [], true)
  {
    if v != [] {
      NonOptionsOnly(read, gnu, v[1..]);
      assert v == v[..1] + v[1..];
    }
  }

  /** The option block of a legal parse begins with the vector's first element, unless that is a non-option. */
  lemma FrontComesFirst(read: Reader, v: seq<CString>)
    requires v != [] && ParseArgs(read, true, v).legal && OptionLike(v[0])
    ensures ParseArgs(read, true, v).front != [] && ParseArgs(read, true, v).front[0] == v[0]
  {
  }

  /** The next element in the vector that reordering leaves, seen from the element in front of `v`. */
  lemma WhatFollowsAfterwards(read: Reader, v: seq<CString>, passed: seq<CString>)
    requires ParseArgs(read, true, v).legal
    requires forall e :: e in passed ==> !OptionLike(e)
    ensures var out := ParseArgs(read, true, v);
            var now := Head(out.front + passed + out.nonOptions);
            now == Head(v) || CanReplace(read, Head(v), now)
  {
    var out := ParseArgs(read, true, v);
    var now := Head(out.front + passed + out.nonOptions);
    if v != [] && OptionLike(v[0]) {
      FrontComesFirst(read, v);
    } else if out.front != [] {
      FrontStartsAVector(read, v);
    } else if passed == [] && out.nonOptions != [] {
      PlainHead(read, v);
    }
  }

  lemma {:induction false} FrontStartsAVector(read: Reader, v: seq<CString>)
    requires ParseArgs(read, true, v).legal && ParseArgs(read, true, v).front != []
    ensures var first := ParseArgs(read, true, v).front[0];
            OptionLike(first) && exists s: seq<CString> :: ParseArgs(read, true, [first] + s).legal
    decreases |v|
  {
    if OptionLike(v[0]) {
      FrontComesFirst(read, v);
      assert [v[0]] + v[1..] == v;
    } else {
      FrontStartsAVector(read, v[1..]);
    }
  }

  lemma {:induction false} PlainHead(read: Reader, v: seq<CString>)
    requires ParseArgs(read, true, v).legal && ParseArgs(read, true, v).front == []
    ensures ParseArgs(read, true, v).nonOptions == v
    ensures forall e :: e in v ==> !OptionLike(e)
    decreases |v|
  {
    if v != [] {
      PlainHead(read, v[1..]);
      assert v == v[..1] + v[1..];
    }
  }

  /**
    No element of this vector that left its successor alone takes the one that
    reordering puts behind it: the next option element or, if there is none,
    the first non-option.  `passed` are the non-options in front of `v`.
  */
  predicate Undisturbed(read: Reader, v: seq<CString>, passed: seq<CString>)
    decreases |v|
  {
    if v == [] || Terminator(v[0]) then true
    else if !OptionLike(v[0]) then Undisturbed(read, v[1..], passed + v[..1])
    else
      var k := ElementsTaken(read, v);
      var tail := ParseArgs(read, true, v[k..]);
      && (k == 1 ==> Settled(read(v[0], Head(tail.front + passed + tail.nonOptions))))
      && Undisturbed(read, v[k..], passed)
  }

  /** Same options with the same arguments, and the non-options with those passed on the way in front. */
  predicate MeansTheSame(again: Outcome, first: Outcome, passed: seq<CString>) {
    again.legal && again.options == first.options && again.nonOptions == passed + first.nonOptions
  }

  /** What the first parse left behind, with the non-options passed on the way put back in, read in either mode. */
  function Reread(read: Reader, gnu: bool, v: seq<CString>, passed: seq<CString>): Outcome {
    var out := ParseArgs(read, true, v);
    ParseArgs(read, gnu, out.front + passed + out.nonOptions)
  }

  /** The second parse finds the same, and leaves the vector alone, if nothing is disturbed; otherwise it does not. */
  lemma {:induction false} ReadAgain(read: Reader, gnu: bool, v: seq<CString>, passed: seq<CString>)
    requires Coherent(read) && ParseArgs(read, true, v).legal
    requires forall e :: e in passed ==> !OptionLike(e)
    ensures var out := ParseArgs(read, true, v);
            if Undisturbed(read, v, passed)
            then Reread(read, gnu, v, passed) == Outcome(out.options, out.front, passed + out.nonOptions, [], true)
            else !MeansTheSame(Reread(read, gnu, v, passed), out, passed)
    decreases |v|
  {
    if v == [] {
      NonOptionsOnly(read, gnu, passed);
      assert [] + passed + [] == passed;
    } else if Terminator(v[0]) {
      TerminatorAgain(read, gnu, v, passed);
    } else if !OptionLike(v[0]) {
      ReadAgain(read, gnu, v[1..], passed + v[..1]);
      var tail := ParseArgs(read, true, v[1..]);
      Regrouped(tail.front, passed, v[..1], tail.nonOptions);
      Associative(passed, v[..1], tail.nonOptions);
    } else {
      ReadOptionAgain(read, gnu, v, passed);
    }
  }

  lemma TerminatorAgain(read: Reader, gnu: bool, v: seq<CString>, passed: seq<CString>)
    requires v != [] && Terminator(v[0])
    ensures ParseArgs(read, gnu, v[..1] + passed + v[1..]) == Outcome([], v[..1], passed + v[1..], [], true)
  {
    var w := v[..1] + passed + v[1..];
    assert w[..1] == v[..1] && w[1..] == passed + v[1..];
  }

  lemma {:induction false} ReadOptionAgain(read: Reader, gnu: bool, v: seq<CString>, passed: seq<CString>)
    requires Coherent(read) && ParseArgs(read, true, v).legal
    requires v != [] && HoldsOptions(v[0])
    requires forall e :: e in passed ==> !OptionLike(e)
    ensures var out := ParseArgs(read, true, v);
            if Undisturbed(read, v, passed)
            then Reread(read, gnu, v, passed) == Outcome(out.options, out.front, passed + out.nonOptions, [], true)
            else !MeansTheSame(Reread(read, gnu, v, passed), out, passed)
    decreases |v|, 0
  {
    var k := ElementsTaken(read, v);
    var tail := ParseArgs(read, true, v[k..]);
    var rest := tail.front + passed + tail.nonOptions;
    ReadAgain(read, gnu, v[k..], passed);
    assert AlikeAt(read, v[0], Head(v[1..]), Head(rest));
    assert tail.nonOptions == ParseArgs(read, true, v).nonOptions;
    assert ParseArgs(read, true, v).front + passed + tail.nonOptions == v[..k] + rest;
    if k == 1 && !Settled(read(v[0], Head(rest))) {
      OptionTakesMore(read, gnu, v[0], rest, ReadHead(read, v), tail.options);
      assert v[..1] == [v[0]];
    } else {
      OptionReadsTheSame(read, gnu, v, k, rest);
      SameTail(ReadHead(read, v).options, ParseArgs(read, gnu, rest).options, tail.options);
    }
  }

  lemma SameTail<T>(head: seq<T>, a: seq<T>, b: seq<T>)
    ensures head + a == head + b <==> a == b
  {
    assert (head + a)[|head|..] == a && (head + b)[|head|..] == b;
  }

  /** An option element that reads as before is read as before, with its argument. */
  lemma OptionReadsTheSame(read: Reader, gnu: bool, v: seq<CString>, k: nat, rest: seq<CString>)
    requires v != [] && HoldsOptions(v[0]) && ReadHead(read, v).legal && k == ElementsTaken(read, v)
    requires k == 1 ==> read(v[0], Head(rest)) == ReadHead(read, v) && !ReadHead(read, v).tookNext
    ensures var more := ParseArgs(read, gnu, rest);
            ParseArgs(read, gnu, v[..k] + rest)
            == more.(options := ReadHead(read, v).options + more.options, front := v[..k] + more.front)
  {
    var w := v[..k] + rest;
    assert w[0] == v[0] && w[..k] == v[..k] && w[k..] == rest;
    if k == 2 {
      assert w[1..][0] == w[1] == v[1] == v[1..][0];
    }
  }

  /** An option element that takes its new successor, or refuses it, shows in what is found. */
  lemma OptionTakesMore(read: Reader, gnu: bool, elem: CString, rest: seq<CString>, before: Reading,
                        others: seq<Parsed>)
    requires HoldsOptions(elem) && !Settled(read(elem, Head(rest)))
    requires read(elem, Head(rest)).tookNext ==> TakesInstead(before, read(elem, Head(rest)))
    ensures var again := ParseArgs(read, gnu, [elem] + rest);
            !(again.legal && again.options == before.options + others)
  {
    var w := [elem] + rest;
    var now := read(elem, Head(rest));
    assert w[1..] == rest && ReadHead(read, w) == now;
    if now.legal {
      var n := |before.options| - 1;
      var again := ParseArgs(read, gnu, w);
      assert again.options[n] == now.options[n];
      assert (before.options + others)[n] == before.options[n];
    }
  }

  /** If one element can change its mind, some vector is read differently the second time. */
  lemma ChangedMindShows(read: Reader, elem: CString, l: Maybe<CString>, l': Maybe<CString>)
    requires HoldsOptions(elem) && CanReplace(read, l, l') && AlikeAt(read, elem, l, l')
    requires Settled(read(elem, l)) && !Settled(read(elem, l'))
    ensures exists v :: ParseArgs(read, true, v).legal && !SameAgain(read, false, v)
  {
    var v := if OptionLike(l'.value) then VectorAroundAnOption(read, elem, l, l')
             else VectorAroundANonOption(read, elem, l, l'.value);
    var out := ParseArgs(read, true, v);
    var w := out.Vector();
    var n := |read(elem, l).options|;
    assert w[1..][0] == w[1];
    assert ReadHead(read, w) == read(elem, l');
    if read(elem, l').legal {
      var again := ParseArgs(read, false, w);
      assert again.options[..n] == read(elem, l').options;
      assert again.options[n - 1] == read(elem, l').options[n - 1];
      assert out.options[n - 1] == out.options[..n][n - 1] == read(elem, l).options[n - 1];
    }
    assert !SameAgain(read, false, v);
  }

  /** A legal vector whose reordering puts `l'` right behind `elem`, where `l` was. */
  ghost predicate Replaces(read: Reader, elem: CString, l: Maybe<CString>, l': CString, v: seq<CString>) {
    var out := ParseArgs(read, true, v);
    && out.legal && |out.Vector()| >= 2
    && out.Vector()[0] == elem && out.Vector()[1] == l'
    && read(elem, l).options <= out.options
  }

  function VectorAroundANonOption(read: Reader, elem: CString, l: Maybe<CString>, x: CString): (v: seq<CString>)
    requires HoldsOptions(elem) && !OptionLike(x) && (l.Just? ==> !OptionLike(l.value)) && Settled(read(elem, l))
    ensures Replaces(read, elem, l, x, v)
  {
    var behind: seq<CString> := if l.Nothing? then [] else [l.value];
    var between: seq<CString> := [elem] + behind;
    NonOptionsOnly(read, true, behind);
    assert between[1..] == behind;
    assert ParseArgs(read, true, between) == Outcome(read(elem, l).options + [], [elem] + [], behind, [], true);
    assert ([x] + between)[1..] == between;
    [x] + between
  }

  ghost function VectorAroundAnOption(read: Reader, elem: CString, l: Maybe<CString>,
                                      l': Maybe<CString>): (v: seq<CString>)
    requires HoldsOptions(elem) && CanReplace(read, l, l') && Settled(read(elem, l)) && OptionLike(l'.value)
    ensures Replaces(read, elem, l, l'.value, v)
  {
    var s: seq<CString> :| ParseArgs(read, true, [l'.value] + s).legal;
    var behind: seq<CString> := [l'.value] + s;
    var between: seq<CString> := [l.value] + behind;
    FrontComesFirst(read, behind);
    assert between[1..] == behind;
    var tail := ParseArgs(read, true, between);
    assert tail.legal && tail.front == ParseArgs(read, true, behind).front;
    var v: seq<CString> := [elem] + between;
    assert v[1..] == between;
    assert ParseArgs(read, true, v).front == v[..1] + tail.front;
    v
  }

  /** A configuration that is blind to reordering is disturbed by no vector. */
  lemma {:induction false} BlindIsUndisturbed(read: Reader, v: seq<CString>, passed: seq<CString>)
    requires Coherent(read) && BlindToReordering(read) && ParseArgs(read, true, v).legal
    requires forall e :: e in passed ==> !OptionLike(e)
    ensures Undisturbed(read, v, passed)
    decreases |v|
  {
    if v != [] && HoldsOptions(v[0]) {
      var k := ElementsTaken(read, v);
      BlindIsUndisturbed(read, v[k..], passed);
      if k == 1 {
        WhatFollowsAfterwards(read, v[1..], passed);
        assert AlikeAt(read, v[0], Head(v[1..]), Nothing);
      }
    } else if v != [] && !OptionLike(v[0]) {
      BlindIsUndisturbed(read, v[1..], passed + v[..1]);
    }
  }

  /** The documented claim holds of exactly the vectors that reordering does not disturb, whatever the second mode. */
  lemma GnuThenPosixHere(read: Reader, gnu: bool, v: seq<CString>)
    requires Coherent(read) && ParseArgs(read, true, v).legal
    ensures SameAgain(read, gnu, v) <==> Undisturbed(read, v, [])
    ensures SameAgain(read, gnu, v) ==>
            ParseArgs(read, gnu, ParseArgs(read, true, v).Vector()).Vector() == ParseArgs(read, true, v).Vector()
  {
    ReadAgain(read, gnu, v, []);
    var out := ParseArgs(read, true, v);
    assert out.rest == [] by {
      var _, _ := StablePartition(read, v);
    }
    assert out.front + [] + out.nonOptions == out.Vector();
    assert [] + out.nonOptions == out.nonOptions;
  }

  /** The documented claim holds of exactly the configurations that are blind to reordering. */
  lemma GnuThenPosix(read: Reader)
    requires Coherent(read)
    ensures ReorderingIsFaithful(read) <==> BlindToReordering(read)
  {
    if BlindToReordering(read) {
      forall v | ParseArgs(read, true, v).legal
        ensures SameAgain(read, false, v)
      {
        ReorderedOnceForAll(read, false, v);
      }
    } else {
      var elem: CString, l, l' :|
        HoldsOptions(elem) && CanReplace(read, l, l') && Settled(read(elem, l)) && !Settled(read(elem, l'));
      ChangedMindShows(read, elem, l, l');
    }
  }

  /** Once a vector is reordered, neither mode changes or rereads anything. */
  lemma ReorderedOnceForAll(read: Reader, gnu: bool, v: seq<CString>)
    requires Coherent(read) && BlindToReordering(read) && ParseArgs(read, true, v).legal
    ensures SameAgain(read, gnu, v)
    ensures ParseArgs(read, gnu, ParseArgs(read, true, v).Vector()).Vector() == ParseArgs(read, true, v).Vector()
  {
    BlindIsUndisturbed(read, v, []);
    GnuThenPosixHere(read, gnu, v);
  }

  // ---------- Vectors that a GNU parse refuses ----------

  /** An element that leaves its successor alone leaves every successor alone. */
  ghost predicate Steadfast(read: Reader) {
    forall elem: CString, l, l' :: HoldsOptions(elem) && Settled(read(elem, l)) ==> Settled(read(elem, l'))
  }

  lemma SteadfastIsBlind(read: Reader)
    requires Steadfast(read)
    ensures BlindToReordering(read)
  {
  }

  /** The options in front of the element that a parse refuses. */
  function BeforeRefusal(read: Reader, out: Outcome): (options: seq<Parsed>) {
    if out.rest == [] then out.options
    else out.options[..Max0(|out.options| - |ReadHead(read, out.rest).options|)]
  }

  function Max0(n: int): (m: nat)
    ensures m == n || (n < 0 && m == 0)
  {
    if n < 0 then 0 else n
  }

  /** What a POSIX parse makes of the vector that a GNU parse left: a refused element may be behind a non-option now. */
  function PosixAfterGnu(read: Reader, first: Outcome): Outcome {
    if first.legal || first.nonOptions == [] then first
    else Outcome(BeforeRefusal(read, first), first.front, first.nonOptions + first.rest, [], true)
  }

  /** The same, with the non-options passed on the way put back in. */
  function RefusedBehind(read: Reader, out: Outcome, passed: seq<CString>): Outcome {
    if passed + out.nonOptions == [] then out
    else Outcome(BeforeRefusal(read, out), out.front, passed + out.nonOptions + out.rest, [], true)
  }

  ghost predicate ReadsAsRefused(read: Reader, out: Outcome, passed: seq<CString>) {
    && out.rest != [] && |ReadHead(read, out.rest).options| <= |out.options|
    && ParseArgs(read, false, out.front + passed + out.nonOptions + out.rest) == RefusedBehind(read, out, passed)
  }

  lemma RefusedFurther(read: Reader, options: seq<Parsed>, front: seq<CString>, tail: Outcome, passed: seq<CString>)
    requires tail.rest != [] && |ReadHead(read, tail.rest).options| <= |tail.options|
    ensures var more := RefusedBehind(read, tail, passed);
            RefusedBehind(read, tail.(options := options + tail.options, front := front + tail.front), passed)
            == more.(options := options + more.options, front := front + more.front)
  {
    var n := |ReadHead(read, tail.rest).options|;
    assert (options + tail.options)[..|options| + |tail.options| - n] == options + tail.options[..|tail.options| - n];
  }

  lemma {:induction false} RefusedAgain(read: Reader, v: seq<CString>, passed: seq<CString>)
    requires Coherent(read) && Steadfast(read) && !ParseArgs(read, true, v).legal
    requires forall e :: e in passed ==> !OptionLike(e)
    ensures ReadsAsRefused(read, ParseArgs(read, true, v), passed)
    decreases |v|
  {
    var out := ParseArgs(read, true, v);
    if !OptionLike(v[0]) {
      RefusedAgain(read, v[1..], passed + v[..1]);
      var tail := ParseArgs(read, true, v[1..]);
      Regrouped(tail.front, passed, v[..1], tail.nonOptions);
      Associative(passed, v[..1], tail.nonOptions);
      assert RefusedBehind(read, out, passed) == RefusedBehind(read, tail, passed + v[..1]);
    } else if !ReadHead(read, v).legal {
      RefusedHere(read, v, passed);
    } else {
      RefusedBehindOption(read, v, passed);
    }
  }

  lemma RefusedHere(read: Reader, v: seq<CString>, passed: seq<CString>)
    requires v != [] && HoldsOptions(v[0]) && !ReadHead(read, v).legal
    requires forall e :: e in passed ==> !OptionLike(e)
    ensures ReadsAsRefused(read, ParseArgs(read, true, v), passed)
  {
    var out := ParseArgs(read, true, v);
    var w := passed + v;
    assert out == Outcome(ReadHead(read, v).options, [], [], v, false);
    NothingAround(out.front, passed, out.nonOptions, out.rest);
    if passed == [] {
      assert w == v;
    } else {
      assert w[0] == passed[0] && !OptionLike(passed[0]);
      assert ParseArgs(read, false, w) == Outcome([], [], w, [], true);
      assert out.options[..0] == [];
    }
  }

  lemma {:induction false} RefusedBehindOption(read: Reader, v: seq<CString>, passed: seq<CString>)
    requires Coherent(read) && Steadfast(read) && !ParseArgs(read, true, v).legal
    requires HoldsOptions(v[0]) && ReadHead(read, v).legal
    requires forall e :: e in passed ==> !OptionLike(e)
    ensures ReadsAsRefused(read, ParseArgs(read, true, v), passed)
    decreases |v|, 0
  {
    var out := ParseArgs(read, true, v);
    var k := ElementsTaken(read, v);
    var tail := ParseArgs(read, true, v[k..]);
    var rest := tail.front + passed + tail.nonOptions + tail.rest;
    RefusedAgain(read, v[k..], passed);
    assert AlikeAt(read, v[0], Head(v[1..]), Head(rest));
    OptionReadsTheSame(read, false, v, k, rest);
    PrefixedFour(v[..k], tail.front, passed, tail.nonOptions, tail.rest);
    assert out == tail.(options := ReadHead(read, v).options + tail.options, front := v[..k] + tail.front);
    RefusedFurther(read, ReadHead(read, v).options, v[..k], tail, passed);
  }

  /** Legal or not, what a POSIX parse makes of what a GNU parse left. */
  lemma GnuThenPosixAnyway(read: Reader, v: seq<CString>)
    requires Coherent(read) && Steadfast(read)
    ensures var first := ParseArgs(read, true, v);
            ParseArgs(read, false, first.Vector()) == PosixAfterGnu(read, first)
  {
    var first := ParseArgs(read, true, v);
    if first.legal {
      LegalAnyway(read, v);
    } else {
      RefusedAgain(read, v, []);
      assert first.front + [] + first.nonOptions + first.rest == first.Vector();
      assert [] + first.nonOptions == first.nonOptions;
    }
  }

  lemma LegalAnyway(read: Reader, v: seq<CString>)
    requires Coherent(read) && Steadfast(read) && ParseArgs(read, true, v).legal
    ensures var first := ParseArgs(read, true, v);
            first.rest == [] && ParseArgs(read, false, first.Vector()) == first
  {
    var first := ParseArgs(read, true, v);
    SteadfastIsBlind(read);
    BlindIsUndisturbed(read, v, []);
    ReadAgain(read, false, v, []);
    assert first.rest == [] by {
      var _, _ := StablePartition(read, v);
    }
    assert first.front + [] + first.nonOptions == first.Vector();
    assert [] + first.nonOptions == first.nonOptions;
  }
}
