/**
  The loop that walks an argument vector in place.  It is proved against the
  grammar: the options performed, the vector left behind and the non-options
  reported are those of `Parse`, for counted and for NULL-terminated vectors.
*/
module Workhorse {
  import opened Basics
  import opened CStrings
  import opened Descriptors
  import opened Grammar
  import opened Actions
  import opened Sequences

  /** From `pos` on, the vector holds exactly `rest`: up to the count, or up to the first NULL. */
  ghost predicate Holds(a: seq<Maybe<CString>>, pos: nat, numargs: int, rest: seq<CString>) {
    && pos + |rest| <= |a|
    && (forall i :: 0 <= i < |rest| ==> a[pos + i] == Just(rest[i]))
    && (numargs >= 0 ==> |rest| <= numargs)
    && (|rest| == numargs || (pos + |rest| < |a| && a[pos + |rest|].Nothing?))
  }

  /** `b` is `a` with element `hi` moved in front of element `lo`. */
  ghost predicate Rotated<T>(a: seq<T>, lo: nat, hi: nat, b: seq<T>) {
    forall k {:trigger Key(k)} :: Key(k) ==>
      && lo <= hi < |a| && |b| == |a| && b[lo] == a[hi]
      && (forall i :: lo < i <= hi ==> b[i] == a[i - 1])
      && (forall i :: 0 <= i < lo ==> b[i] == a[i])
      && (forall i :: hi < i < |a| ==> b[i] == a[i])
  }

  /** The vector is permuted, and not touched if there is nothing to move an element over. */
  ghost predicate Rearranged<T>(was: seq<T>, a: seq<T>, nonops: nat) {
    multiset(a) == multiset(was) && (nonops == 0 ==> a == was)
  }

  lemma RotatedSlices<T>(a: seq<T>, lo: nat, hi: nat, b: seq<T>)
    requires Rotated(a, lo, hi, b)
    ensures lo <= hi < |a| == |b|
    ensures b == a[..lo] + [a[hi]] + a[lo..hi] + a[hi + 1..]
    ensures forall i :: hi < i < |a| ==> b[i] == a[i]
  {
    assert Key(0);
  }

  lemma ExchangePermutes<T>(front: seq<T>, block: seq<T>, x: T, rest: seq<T>)
    ensures multiset(front + [x] + block + rest) == multiset(front + block + [x] + rest)
  {
  }

  lemma RotationPermutes<T>(a: seq<T>, lo: nat, hi: nat, b: seq<T>)
    requires Rotated(a, lo, hi, b)
    ensures lo <= hi && Rearranged(a, b, hi - lo)
  {
    RotatedSlices(a, lo, hi, b);
    InFour(a, lo, hi);
    ExchangePermutes(a[..lo], a[lo..hi], a[hi], a[hi + 1..]);
    if lo == hi {
      RotationOfOne(a, lo, b);
    }
  }

  lemma InFour<T>(a: seq<T>, lo: nat, hi: nat)
    requires lo <= hi < |a|
    ensures a == a[..lo] + a[lo..hi] + [a[hi]] + a[hi + 1..]
  {
  }

  lemma RotationOfOne<T>(a: seq<T>, at: nat, b: seq<T>)
    requires Rotated(a, at, at, b)
    ensures b == a
  {
    assert Key(0);
  }

  lemma RotatedElements<T>(a: seq<T>, lo: nat, hi: nat, b: seq<T>)
    requires lo <= hi < |a| == |b| && b[lo] == a[hi]
    requires forall i :: lo < i <= hi ==> b[i] == a[i - 1]
    requires forall i :: 0 <= i < lo || hi < i < |a| ==> b[i] == a[i]
    ensures Rotated(a, lo, hi, b) && Rearranged(a, b, hi - lo)
  {
    assert Rotated(a, lo, hi, b);
    RotationPermutes(a, lo, hi, b);
  }

  /** Rotates `args[pos - count .. pos]` to the right by one. */
  method Shift(args: array<Maybe<CString>>, pos: nat, count: nat)
    requires count <= pos < args.Length
    modifies args
    ensures Rotated(old(args[..]), pos - count, pos, args[..])
    ensures Rearranged(old(args[..]), args[..], count)
  {
    ghost var was := args[..];
    var i := pos;
    while i > pos - count
      invariant pos - count <= i <= pos
      invariant forall k :: 0 <= k < i ==> args[k] == was[k]
      invariant args[i] == was[pos]
      invariant forall k :: i < k <= pos ==> args[k] == was[k - 1]
      invariant forall k :: pos < k < args.Length ==> args[k] == was[k]
    {
      var temp := args[i];
      args[i] := args[i - 1];
      args[i - 1] := temp;
      i := i - 1;
    }
    RotatedElements(was, pos - count, pos, args[..]);
  }

  /** What is left of the action's patience allows `n` more options. */
  ghost predicate Patient(limit: Maybe<nat>, seen: nat, n: nat) {
    limit.Nothing? || seen + n <= limit.value
  }

  /** The vector and the cursor after an element's options took, or did not take, the next element. */
  ghost predicate Moved(was: seq<Maybe<CString>>, pos0: nat, numargs0: int, nonops: nat, took: bool,
                        a: seq<Maybe<CString>>, pos: nat, numargs: int)
    requires nonops <= pos0 < |was|
  {
    if took then
      && Rotated(was, pos0 - nonops, pos0, a) && pos == pos0 + 1
      && numargs == if numargs0 > 0 then numargs0 - 1 else numargs0
    else a == was && pos == pos0 && numargs == numargs0
  }

  /**
    Lets the check function judge one option, skips a detached argument that
    it accepted, and performs the option.  `separate` says that the argument on
    offer is the next element of the vector; `pending` is what the element
    reads as from this option on, and `more` what it reads as behind it.
  */
  method JudgeOption(c: Config, args: array<Maybe<CString>>, pos0: nat, numargs0: int, nonops: nat, action: Action,
                     d: nat, name: CString, optarg: Maybe<CString>, separate: bool, haveMore: bool,
                     ghost more: Reading, ghost pending: Reading)
    returns (ok: bool, stop: bool, pos: nat, numargs: int, ghost performed: seq<Parsed>, ghost took: bool)
    requires d < |c.usage| && name != "" && nonops <= pos0 < args.Length
    requires pending == Judged(c, d, name, optarg, separate, more) && (separate && optarg.Just? ==> haveMore)
    requires action.Valid() && action.Knows(c.usage) && args !in action.Repr()
    requires action.HasRoom(|action.Seen()| + |pending.options|)
    modifies args, action.Repr()
    ensures action.Valid() && action.Limit() == old(action.Limit()) && action.Rest() == old(action.Rest())
    ensures ok ==> action.Seen() == old(action.Seen()) + performed
    ensures ok ==> Patient(action.Limit(), |old(action.Seen())|, |performed|)
    ensures ok ==> if stop then pending == Reading(performed, took, true)
                   else pending == Preceded(performed, more) && !took
    ensures ok ==> Moved(old(args[..]), pos0, numargs0, nonops, took, args[..], pos, numargs)
    ensures !ok ==> Rejected(action.Limit(), action.Seen(), pending) && action.Seen() == old(action.Seen())
    ensures !ok && pending == Reading([], false, false) ==>
              Moved(old(args[..]), pos0, numargs0, nonops, false, args[..], pos, numargs)
    ensures Rearranged(old(args[..]), args[..], nonops)
  {
    pos, numargs, stop, took, performed := pos0, numargs0, false, false, [];
    var p := Parsed(d, name, optarg);
    match c.usage[d].check(name, optarg, c.msg) {
      case ArgIllegal =>
        ok := false;
        return;
      case ArgOk =>
        if optarg.Just? && haveMore && separate {
          Shift(args, pos, nonops);
          if numargs > 0 {
            numargs := numargs - 1;
          }
          pos, took := pos + 1, true;
        }
        stop := true;
      case ArgIgnore =>
        p := p.(arg := Nothing);
      case ArgNone =>
        p := p.(arg := Nothing);
    }
    ok := action.Perform(p, c.usage);
    performed := [p];
  }

  /** Why a round fails: an illegal argument, or an action that has no patience left for another option. */
  ghost predicate Rejected(limit: Maybe<nat>, seen: seq<Parsed>, pending: Reading) {
    pending == Reading([], false, false) || (pending.options != [] && limit == Just(|seen|))
  }

  /** The element behind the one at `pos`, as far as the parser may look at it. */
  method Peek(args: array<Maybe<CString>>, pos: nat, numargs: int, ghost rest: seq<CString>)
    returns (next: Maybe<CString>, haveMore: bool)
    requires rest != [] && Holds(args[..], pos, numargs, rest)
    ensures next == Head(rest[1..]) && (next.Just? ==> haveMore)
  {
    haveMore := numargs > 1 || numargs < 0;
    next := if haveMore then args[pos + 1] else Nothing;
    assert |rest| > 1 ==> args[..][pos + 1] == Just(rest[1]);
  }

  lemma PrecededTwice(done: seq<Parsed>, performed: seq<Parsed>, r: Reading)
    ensures Preceded(done, Preceded(performed, r)) == Preceded(done + performed, r)
  {
    assert done + (performed + r.options) == (done + performed) + r.options;
  }

  /** Looks up the long option whose name starts at `skip` and finds the argument on offer. */
  method LongCandidate(c: Config, elem: CString, skip: nat, next: Maybe<CString>)
    returns (idx: nat, optarg: Maybe<CString>, separate: bool)
    requires skip <= |elem|
    ensures idx == LongIndex(c.usage, elem[skip..], c.minAbbrev)
    ensures separate ==> optarg == next
    ensures ReadLong(c, elem, skip, next) == Judged(c, Resolve(c.usage, idx), elem, optarg, separate, NOTHING_FOUND)
  {
    var name := elem[skip..];
    idx := FindLong(c.usage, name, c.minAbbrev);
    var i := 0;
    while At(name, i) != '\0' && At(name, i) != '='
      invariant i <= |name| && '=' !in name[..i]
      decreases |name| - i
    {
      i := i + 1;
    }
    NamePartUnique(name, name[..i]);
    if At(name, i) == '=' {
      optarg, separate := Just(name[i + 1..]), false;
    } else {
      optarg, separate := next, true;
    }
  }

  /** Looks up the first option of a group and finds the argument on offer. */
  method ShortCandidate(c: Config, group: CString, next: Maybe<CString>)
    returns (idx: nat, optarg: Maybe<CString>, separate: bool)
    requires group != ""
    ensures idx <= |c.usage| && (separate ==> optarg == next)
    ensures ReadShort(c, group, next)
            == Judged(c, Resolve(c.usage, idx), group, optarg, separate, ReadShort(c, group[1..], next))
  {
    idx := Scan(c.usage, Letter(At(group, 0)), 0);
    if At(group, 1) == '\0' {
      optarg, separate := next, true;
    } else {
      optarg, separate := Just(group[1..]), false;
    }
  }

  /**
    `whole` is what `elem` reads as, and `todo(p)` what a group in it reads as
    behind position `p`.  These values, and the triggers, keep the grammar out
    of the proofs that only pass them on.
  */
  ghost predicate ReadsAs(c: Config, elem: CString, next: Maybe<CString>, whole: Reading, todo: nat -> Reading) {
    && HoldsOptions(elem)
    && (forall n {:trigger Read(c, elem, n)} :: n == next ==> whole == Read(c, elem, n))
    && forall p: nat {:trigger ReadShort(c, elem[p + 1..], next)} ::
         p < |elem| ==> todo(p) == ReadShort(c, elem[p + 1..], next)
  }

  /**
    Finds the next option of the element, which starts at `p`, with the entry
    it selects and the argument on offer; there is none behind the last option
    of a group.  In the first round the element may hold a long option.
  */
  method NextOption(c: Config, elem: CString, next: Maybe<CString>, first: bool, p0: nat,
                    ghost whole: Reading, ghost todo: nat -> Reading, ghost pending: Reading)
    returns (end: bool, idx: nat, optarg: Maybe<CString>, separate: bool, handleShort: bool, p: nat)
    requires ReadsAs(c, elem, next, whole, todo) && p0 < |elem|
    requires if first then p0 == 0 && pending == whole else pending == todo(p0)
    ensures end ==> pending == NOTHING_FOUND
    ensures !end ==> p0 <= p < |elem| && idx <= |c.usage| && (handleShort ==> p0 < p)
    ensures !end ==>
              pending == Judged(c, idx, elem[p..], optarg, separate, if handleShort then todo(p) else NOTHING_FOUND)
    ensures !end ==> (separate ==> optarg == next)
  {
    end, idx, optarg, separate, p := false, 0, Nothing, false, p0;
    handleShort := !first || At(elem, 1) != '-';
    assert first ==> pending == Read(c, elem, next);
    if first && (!handleShort || c.singleMinus) {
      idx, optarg, separate := LongCandidate(c, elem, if handleShort then 1 else 2, next);
      if idx < |c.usage| {
        handleShort := false;
      }
    }
    if handleShort {
      assert pending == ReadShort(c, elem[p + 1..], next);
      p := p + 1;
      if At(elem, p) == '\0' {
        end := true;
        return;
      }
      idx, optarg, separate := ShortCandidate(c, elem[p..], next);
      assert elem[p..][1..] == elem[p + 1..];
      assert todo(p) == ReadShort(c, elem[p + 1..], next);
    }
    if idx == |c.usage| {
      idx := Scan(c.usage, Dummy, 0);
    }
  }

  /** Adds options found earlier in the same element. */
  function Preceded(done: seq<Parsed>, r: Reading): Reading {
    r.(options := done + r.options)
  }

  /**
    One round of the loop over an element: finds its next option, judges and
    performs it.  `performed` is what it performed (nothing for a dropped
    option).
  */
  method Round(c: Config, args: array<Maybe<CString>>, pos0: nat, numargs0: int, nonops: nat, action: Action,
               elem: CString, next: Maybe<CString>, haveMore: bool, first: bool, p0: nat,
               ghost whole: Reading, ghost todo: nat -> Reading, ghost pending: Reading)
    returns (ok: bool, again: bool, pos: nat, numargs: int, p: nat, ghost performed: seq<Parsed>, ghost took: bool)
    requires ReadsAs(c, elem, next, whole, todo) && p0 < |elem|
    requires if first then p0 == 0 && pending == whole else pending == todo(p0)
    requires nonops <= pos0 < args.Length && (next.Just? ==> haveMore)
    requires action.Valid() && action.Knows(c.usage) && args !in action.Repr()
    requires action.HasRoom(|action.Seen()| + |pending.options|)
    modifies args, action.Repr()
    ensures action.Valid() && action.Limit() == old(action.Limit()) && action.Rest() == old(action.Rest())
    ensures ok ==> action.Seen() == old(action.Seen()) + performed
    ensures ok ==> Patient(action.Limit(), |old(action.Seen())|, |performed|)
    ensures ok && again ==> !took && p0 < p < |elem| && pending == Preceded(performed, todo(p))
    ensures ok && !again ==> pending == Reading(performed, took, true)
    ensures ok ==> Moved(old(args[..]), pos0, numargs0, nonops, took, args[..], pos, numargs)
    ensures !ok ==> Rejected(action.Limit(), action.Seen(), pending) && action.Seen() == old(action.Seen())
    ensures !ok && pending == Reading([], false, false) ==>
              Moved(old(args[..]), pos0, numargs0, nonops, false, args[..], pos, numargs)
    ensures Rearranged(old(args[..]), args[..], nonops)
  {
    var end, idx, optarg, separate, handleShort;
    end, idx, optarg, separate, handleShort, p := NextOption(c, elem, next, first, p0, whole, todo, pending);
    ok, again, pos, numargs, performed, took := true, false, pos0, numargs0, [], false;
    if end {
      return;
    }
    ghost var more := if handleShort then todo(p) else NOTHING_FOUND;
    if idx < |c.usage| {
      var stop;
      ok, stop, pos, numargs, performed, took :=
        JudgeOption(c, args, pos0, numargs0, nonops, action, idx, elem[p..], optarg, separate, haveMore, more, pending);
      if !ok {
        return;
      }
      if stop {
        handleShort := false;
      }
    }
    again := handleShort;
  }

  /** How the reading `r` of an element ends when `done` has been performed of it and `left` has not. */
  ghost predicate Ends(r: Reading, done: seq<Parsed>, took: bool, left: Reading, ok: bool, limit: Maybe<nat>,
                       seen: nat) {
    if ok then r == Reading(done, took, true) && Patient(limit, seen, |done|)
    else
      && r == Preceded(done, left) && !took && Patient(limit, seen, |done|)
      && (left == Reading([], false, false) || (left.options != [] && limit == Just(seen + |done|)))
  }

  /** The rounds of the loop over one element, until it ends or something in it is not acceptable. */
  method ReadRounds(c: Config, args: array<Maybe<CString>>, pos0: nat, numargs0: int, nonops: nat, action: Action,
                    elem: CString, next: Maybe<CString>, haveMore: bool, ghost todo: nat -> Reading, ghost r: Reading)
    returns (ok: bool, pos: nat, numargs: int, ghost done: seq<Parsed>, ghost took: bool, ghost left: Reading)
    requires ReadsAs(c, elem, next, r, todo)
    requires nonops <= pos0 < args.Length && (next.Just? ==> haveMore)
    requires action.Valid() && action.Knows(c.usage) && args !in action.Repr()
    requires action.HasRoom(|action.Seen()| + |r.options|)
    modifies args, action.Repr()
    ensures action.Valid() && action.Limit() == old(action.Limit()) && action.Rest() == old(action.Rest())
    ensures action.Seen() == old(action.Seen()) + done
    ensures Ends(r, done, took, left, ok, action.Limit(), |old(action.Seen())|)
    ensures ok || left == Reading([], false, false) ==>
              Moved(old(args[..]), pos0, numargs0, nonops, took, args[..], pos, numargs)
    ensures Rearranged(old(args[..]), args[..], nonops)
  {
    ghost var seen, limit, was := action.Seen(), action.Limit(), args[..];
    done, took, left := [], false, r;
    pos, numargs := pos0, numargs0;
    var p := 0;
    var again, first := true, true;
    while again
      invariant action.Valid() && action.Limit() == limit && action.Rest() == old(action.Rest())
      invariant action.Seen() == seen + done && Patient(limit, |seen|, |done|)
      invariant again ==> args[..] == was && pos == pos0 && numargs == numargs0
      invariant !again ==> Moved(was, pos0, numargs0, nonops, took, args[..], pos, numargs)
      invariant Rearranged(was, args[..], nonops)
      invariant again ==> p < |elem| && !took && (if first then p == 0 && left == r else left == todo(p))
      invariant again ==> r == Preceded(done, left)
      invariant !again ==> r == Reading(done, took, true)
      decreases again, |elem| - p
    {
      ghost var performed;
      ok, again, pos, numargs, p, performed, took :=
        Round(c, args, pos, numargs, nonops, action, elem, next, haveMore, first, p, r, todo, left);
      if !ok {
        took := false;
        return;
      }
      first := false;
      left := if again then todo(p) else NOTHING_FOUND;
      PrecededTwice(done, performed, left);
      Associative(seen, done, performed);
      done := done + performed;
    }
    ok := true;
  }

  /** Either everything was performed, or the action's patience ended in the middle. */
  lemma EndsMeans(r: Reading, done: seq<Parsed>, took: bool, left: Reading, ok: bool, limit: Maybe<nat>, seen: nat)
    requires Ends(r, done, took, left, ok, limit, seen)
    ensures if Patient(limit, seen, |r.options|) then
              done == r.options && ok == r.legal && took == r.tookNext && (!ok ==> left == Reading([], false, false))
            else !ok && done == r.options[..limit.value - seen]
  {
    assert r.options[..|done|] == done;
  }

  method ReadElement(c: Config, args: array<Maybe<CString>>, pos0: nat, numargs0: int, nonops: nat, action: Action,
                     ghost rest: seq<CString>, ghost r: Reading)
    returns (ok: bool, pos: nat, numargs: int)
    requires nonops <= pos0 && Holds(args[..], pos0, numargs0, rest)
    requires rest != [] && HoldsOptions(rest[0]) && r == ReadHead(ReaderOf(c), rest)
    requires action.Valid() && action.Knows(c.usage) && args !in action.Repr()
    requires action.HasRoom(|action.Seen()| + |r.options|)
    modifies args, action.Repr()
    ensures action.Valid() && action.Limit() == old(action.Limit()) && action.Rest() == old(action.Rest())
    ensures var seen := old(action.Seen());
            if Patient(action.Limit(), |seen|, |r.options|) then
              && ok == r.legal && action.Seen() == seen + r.options
              && Moved(old(args[..]), pos0, numargs0, nonops, ok && r.tookNext, args[..], pos, numargs)
            else
              !ok && action.Seen() == seen + r.options[..action.Limit().value - |seen|]
    ensures Rearranged(old(args[..]), args[..], nonops)
  {
    assert args[..][pos0] == Just(rest[0]);
    var elem := args[pos0].value;
    var next, haveMore := Peek(args, pos0, numargs0, rest);
    ghost var todo := GroupTail(c, elem, next);
    ghost var done, took, left;
    ok, pos, numargs, done, took, left :=
      ReadRounds(c, args, pos0, numargs0, nonops, action, elem, next, haveMore, todo, r);
    EndsMeans(r, done, took, left, ok, action.Limit(), |old(action.Seen())|);
  }

  ghost function GroupTail(c: Config, elem: CString, next: Maybe<CString>): (todo: nat -> Reading)
    requires HoldsOptions(elem)
    ensures ReadsAs(c, elem, next, ReaderOf(c)(elem, next), todo)
  {
    var todo := (p: nat) => ReadTail(c, elem, next, p);
    assert forall p: nat {:trigger todo(p)} :: todo(p) == ReadTail(c, elem, next, p);
    todo
  }

  function ReadTail(c: Config, elem: CString, next: Maybe<CString>, p: nat): Reading {
    if p < |elem| then ReadShort(c, elem[p + 1..], next) else NOTHING_FOUND
  }

  // ---------- The vector ----------

  /** An outcome with what was found in front of its vector. */
  function Resumed(done: seq<Parsed>, front: seq<CString>, passed: seq<CString>, out: Outcome): Outcome {
    Outcome(done + out.options, front + out.front, passed + out.nonOptions, out.rest, out.legal)
  }

  lemma ResumeBehindNonOption(read: Reader, done: seq<Parsed>, front: seq<CString>, passed: seq<CString>,
                              v: seq<CString>)
    requires v != [] && !OptionLike(v[0])
    ensures Resumed(done, front, passed, ParseArgs(read, true, v))
            == Resumed(done, front, passed + v[..1], ParseArgs(read, true, v[1..]))
  {
    var out := ParseArgs(read, true, v[1..]);
    assert passed + (v[..1] + out.nonOptions) == passed + v[..1] + out.nonOptions;
  }

  lemma ResumeBehindOptions(
    read: Reader, gnu: bool, done: seq<Parsed>, front: seq<CString>, passed: seq<CString>, v: seq<CString>)
    requires v != [] && HoldsOptions(v[0]) && ReadHead(read, v).legal
    ensures var k := ElementsTaken(read, v);
            Resumed(done, front, passed, ParseArgs(read, gnu, v))
            == Resumed(done + ReadHead(read, v).options, front + v[..k], passed, ParseArgs(read, gnu, v[k..]))
  {
  }

  /** The vector, in C's terms: non-null pointers to the strings. */
  function Boxed(v: seq<CString>): (a: seq<Maybe<CString>>)
    ensures |a| == |v|
  {
    seq(|v|, i requires 0 <= i < |v| => Just(v[i]))
  }

  lemma BoxedJoin(v: seq<CString>, w: seq<CString>)
    ensures Boxed(v + w) == Boxed(v) + Boxed(w)
  {
  }

  lemma HoldsBehind(a: seq<Maybe<CString>>, pos: nat, numargs: int, rest: seq<CString>, k: nat)
    requires Holds(a, pos, numargs, rest) && k <= |rest|
    ensures Holds(a, pos + k, if numargs > 0 then numargs - k else numargs, rest[k..])
  {
  }

  /** The progress of a walk: options performed, option block, non-options passed, elements not looked at. */
  datatype Trail = Trail(done: seq<Parsed>, front: seq<CString>, passed: seq<CString>, rest: seq<CString>)

  /** What is in the vector, block by block. */
  ghost predicate Arranged(t: Trail, tail: seq<Maybe<CString>>, a: seq<Maybe<CString>>) {
    forall k {:trigger Key(k)} :: Key(k) ==>
      a == Boxed(t.front) + Boxed(t.passed) + (Boxed(t.rest) + tail)
  }

  /** What is in the vector and where the cursor stands. */
  ghost predicate Standing(t: Trail, tail: seq<Maybe<CString>>, a: seq<Maybe<CString>>, pos: nat, numargs: int,
                           nonops: nat) {
    && Arranged(t, tail, a)
    && pos == |t.front| + |t.passed| && nonops == |t.passed|
    && Holds(a, pos, numargs, t.rest)
  }

  /** The vector means what the walk has found so far, followed by what is left to parse. */
  ghost predicate OnTrack(read: Reader, gnu: bool, v: seq<CString>, t: Trail) {
    forall k {:trigger Key(k)} :: Key(k) ==>
      && ParseArgs(read, gnu, v) == Resumed(t.done, t.front, t.passed, ParseArgs(read, gnu, t.rest))
      && Unread(read, gnu, v) == Unread(read, gnu, t.rest)
  }

  function CountDown(numargs: int): (n: int) {
    if numargs > 0 then numargs - 1 else numargs
  }

  /** By how much a count exceeds the elements left; -1 if they are not counted. */
  function Excess(numargs: int, left: nat): (n: int) {
    if numargs < 0 then -1 else numargs - left
  }

  /** The first unread element joins the non-options passed. */
  lemma LayoutPassed(t: Trail, tail: seq<Maybe<CString>>, a: seq<Maybe<CString>>)
    requires Arranged(t, tail, a) && t.rest != []
    ensures Arranged(t.(passed := t.passed + t.rest[..1], rest := t.rest[1..]), tail, a)
  {
  }

  /** The first unread element, moved over the non-options passed, joins the option block. */
  lemma LayoutShifted(t: Trail, tail: seq<Maybe<CString>>, a: seq<Maybe<CString>>, b: seq<Maybe<CString>>)
    requires Arranged(t, tail, a) && t.rest != []
    requires Rotated(a, |t.front|, |t.front| + |t.passed|, b)
    ensures Arranged(t.(front := t.front + t.rest[..1], rest := t.rest[1..]), tail, b)
  {
  }

  /** The cursor moves over a non-option. */
  lemma PassNonOption(t: Trail, tail: seq<Maybe<CString>>, a: seq<Maybe<CString>>, pos: nat, numargs: int, nonops: nat)
    requires Standing(t, tail, a, pos, numargs, nonops) && t.rest != []
    ensures Standing(t.(passed := t.passed + t.rest[..1], rest := t.rest[1..]), tail, a, pos + 1,
                     CountDown(numargs), nonops + 1)
  {
    LayoutPassed(t, tail, a);
    HoldsBehind(a, pos, numargs, t.rest, 1);
  }

  /** The first unread element moves over the non-options passed, into the option block. */
  lemma PassShifted(t: Trail, tail: seq<Maybe<CString>>, a: seq<Maybe<CString>>, pos: nat, numargs: int, nonops: nat,
                    b: seq<Maybe<CString>>)
    requires Standing(t, tail, a, pos, numargs, nonops) && t.rest != []
    requires Rotated(a, pos - nonops, pos, b)
    ensures Standing(t.(front := t.front + t.rest[..1], rest := t.rest[1..]), tail, b, pos + 1,
                     CountDown(numargs), nonops)
  {
    assert Holds(b, pos + 1, CountDown(numargs), t.rest[1..]) by {
      HoldsBehind(a, pos, numargs, t.rest, 1);
      RotatedSlices(a, pos - nonops, pos, b);
      HoldsAlike(a, b, pos + 1, CountDown(numargs), t.rest[1..]);
    }
    assert Arranged(t.(front := t.front + t.rest[..1], rest := t.rest[1..]), tail, b) by {
      LayoutShifted(t, tail, a, b);
    }
  }

  lemma HoldsAlike(a: seq<Maybe<CString>>, b: seq<Maybe<CString>>, pos: nat, numargs: int, rest: seq<CString>)
    requires Holds(a, pos, numargs, rest) && |a| == |b|
    requires forall i :: pos <= i < |a| ==> b[i] == a[i]
    ensures Holds(b, pos, numargs, rest)
  {
  }

  lemma TrackNonOption(read: Reader, v: seq<CString>, t: Trail)
    requires OnTrack(read, true, v, t) && t.rest != [] && !OptionLike(t.rest[0])
    ensures OnTrack(read, true, v, t.(passed := t.passed + t.rest[..1], rest := t.rest[1..]))
  {
    assert Key(0);
    ResumeBehindNonOption(read, t.done, t.front, t.passed, t.rest);
  }

  /** The trail behind an element with options and the argument they took. */
  function BehindOptions(read: Reader, t: Trail): Trail
    requires t.rest != []
  {
    var k := ElementsTaken(read, t.rest);
    Trail(t.done + ReadHead(read, t.rest).options, t.front + t.rest[..k], t.passed, t.rest[k..])
  }

  lemma TrackOptions(read: Reader, gnu: bool, v: seq<CString>, t: Trail)
    requires OnTrack(read, gnu, v, t) && t.rest != [] && HoldsOptions(t.rest[0]) && ReadHead(read, t.rest).legal
    ensures OnTrack(read, gnu, v, BehindOptions(read, t))
  {
    assert Key(0);
    ResumeBehindOptions(read, gnu, t.done, t.front, t.passed, t.rest);
  }

  /** The options of an element, and what they took, move into the option block one by one. */
  lemma PassOptions(read: Reader, t: Trail, tail: seq<Maybe<CString>>, a: seq<Maybe<CString>>, pos: nat, numargs: int,
                    nonops: nat, b: seq<Maybe<CString>>, pos': nat, numargs': int, d: seq<Maybe<CString>>)
    requires Standing(t, tail, a, pos, numargs, nonops) && t.rest != []
    requires ReadHead(read, t.rest).tookNext ==> |t.rest| > 1
    requires Moved(a, pos, numargs, nonops, ReadHead(read, t.rest).tookNext, b, pos', numargs')
    requires nonops <= pos' && Rotated(b, pos' - nonops, pos', d)
    ensures Standing(BehindOptions(read, t), tail, d, pos' + 1, CountDown(numargs'), nonops)
  {
    if ReadHead(read, t.rest).tookNext {
      var t1 := t.(front := t.front + t.rest[..1], rest := t.rest[1..]);
      PassShifted(t, tail, a, pos, numargs, nonops, b);
      PassShifted(t1, tail, b, pos', numargs', nonops, d);
      assert t.front + t.rest[..1] + t.rest[1..][..1] == t.front + t.rest[..2];
      assert t.rest[1..][1..] == t.rest[2..];
    } else {
      PassShifted(t, tail, a, pos, numargs, nonops, d);
    }
  }

  /** The cursor is still inside the vector when an element's options have taken what they take. */
  lemma StillInside(read: Reader, t: Trail, tail: seq<Maybe<CString>>, a: seq<Maybe<CString>>, pos: nat, numargs: int,
                    nonops: nat, b: seq<Maybe<CString>>, pos': nat, numargs': int)
    requires Standing(t, tail, a, pos, numargs, nonops) && t.rest != []
    requires ReadHead(read, t.rest).tookNext ==> |t.rest| > 1
    requires Moved(a, pos, numargs, nonops, ReadHead(read, t.rest).tookNext, b, pos', numargs')
    ensures nonops <= pos' < |b|
  {
    assert Key(0);
  }

  /** Where the loop ends: at the vector's end, behind a terminator, or in POSIX mode at a non-option. */
  ghost predicate AtEnd(read: Reader, gnu: bool, v: seq<CString>, t: Trail) {
    forall k {:trigger Key(k)} :: Key(k) ==>
      && ParseArgs(read, gnu, v) == Outcome(t.done, t.front, t.passed + t.rest, [], true)
      && Unread(read, gnu, v) == t.rest
  }

  lemma EndsHere(read: Reader, gnu: bool, v: seq<CString>, t: Trail)
    requires OnTrack(read, gnu, v, t)
    requires t.rest == [] || (!gnu && !OptionLike(t.rest[0]))
    ensures AtEnd(read, gnu, v, t)
  {
    assert Key(0);
    assert t.done + [] == t.done && t.front + [] == t.front;
  }

  lemma EndsBehindTerminator(read: Reader, gnu: bool, v: seq<CString>, t: Trail)
    requires OnTrack(read, gnu, v, t) && t.rest != [] && Terminator(t.rest[0])
    ensures AtEnd(read, gnu, v, t.(front := t.front + t.rest[..1], rest := t.rest[1..]))
  {
    assert Key(0);
    assert t.done + [] == t.done;
  }

  /** What one round adds to what the action saw. */
  ghost predicate Adds(limit: Maybe<nat>, seen: seq<Parsed>, now: seq<Parsed>, t0: Trail, t: Trail) {
    && t0.done <= t.done && now == seen + t.done[|t0.done|..]
    && Patient(limit, |seen|, |t.done| - |t0.done|)
  }

  /** Why a round ends the parse: an element with an illegal argument, or an action without patience. */
  ghost predicate Aborts(limit: Maybe<nat>, seen: seq<Parsed>, now: seq<Parsed>, r: Reading) {
    if Patient(limit, |seen|, |r.options|) then !r.legal && now == seen + r.options
    else |seen| <= limit.value && now == seen + r.options[..limit.value - |seen|]
  }

  /** Moves the last element of an option with its argument over the non-options passed. */
  method MoveOptions(c: Config, args: array<Maybe<CString>>, pos: nat, numargs: int, nonops: nat,
                     ghost was: seq<Maybe<CString>>, ghost pos0: nat, ghost numargs0: int,
                     ghost gnu: bool, ghost v: seq<CString>, ghost tail: seq<Maybe<CString>>, ghost t0: Trail)
    returns (numargs': int, ghost t: Trail)
    requires Standing(t0, tail, was, pos0, numargs0, nonops) && OnTrack(ReaderOf(c), gnu, v, t0)
    requires t0.rest != [] && HoldsOptions(t0.rest[0]) && ReadHead(ReaderOf(c), t0.rest).legal
    requires Moved(was, pos0, numargs0, nonops, ReadHead(ReaderOf(c), t0.rest).tookNext, args[..], pos, numargs)
    modifies args
    ensures Standing(t, tail, args[..], pos + 1, numargs', nonops) && OnTrack(ReaderOf(c), gnu, v, t)
    ensures Excess(numargs', |t.rest|) == Excess(numargs0, |t0.rest|)
    ensures t == BehindOptions(ReaderOf(c), t0)
    ensures Rearranged(old(args[..]), args[..], nonops)
  {
    TakesOnlyWhatIsThere(c, t0.rest[0], Head(t0.rest[1..]));
    ghost var between := args[..];
    StillInside(ReaderOf(c), t0, tail, was, pos0, numargs0, nonops, between, pos, numargs);
    Shift(args, pos, nonops);
    PassOptions(ReaderOf(c), t0, tail, was, pos0, numargs0, nonops, between, pos, numargs, args[..]);
    TrackOptions(ReaderOf(c), gnu, v, t0);
    numargs' := CountDown(numargs);
    t := BehindOptions(ReaderOf(c), t0);
  }

  /** The same, which the action does not notice. */
  method MoveBesides(c: Config, args: array<Maybe<CString>>, pos: nat, numargs: int, nonops: nat,
                     ghost action: Action, ghost was: seq<Maybe<CString>>, ghost pos0: nat, ghost numargs0: int,
                     ghost gnu: bool, ghost v: seq<CString>, ghost tail: seq<Maybe<CString>>, ghost t0: Trail)
    returns (numargs': int, ghost t: Trail)
    requires Standing(t0, tail, was, pos0, numargs0, nonops) && OnTrack(ReaderOf(c), gnu, v, t0)
    requires t0.rest != [] && HoldsOptions(t0.rest[0]) && ReadHead(ReaderOf(c), t0.rest).legal
    requires Moved(was, pos0, numargs0, nonops, ReadHead(ReaderOf(c), t0.rest).tookNext, args[..], pos, numargs)
    requires action.Valid() && args !in action.Repr()
    modifies args
    ensures Standing(t, tail, args[..], pos + 1, numargs', nonops) && OnTrack(ReaderOf(c), gnu, v, t)
    ensures Excess(numargs', |t.rest|) == Excess(numargs0, |t0.rest|)
    ensures t == BehindOptions(ReaderOf(c), t0)
    ensures Rearranged(old(args[..]), args[..], nonops)
    ensures action.Valid() && action.Limit() == old(action.Limit()) && action.Rest() == old(action.Rest())
    ensures action.Seen() == old(action.Seen())
  {
    numargs', t := MoveOptions(c, args, pos, numargs, nonops, was, pos0, numargs0, gnu, v, tail, t0);
    assert unchanged(action.Repr());
  }

  /** A round of the loop at an element with options. */
  method WalkOptions(c: Config, gnu: bool, args: array<Maybe<CString>>, pos0: nat, numargs0: int, nonops: nat,
                     action: Action, ghost v: seq<CString>, ghost tail: seq<Maybe<CString>>, ghost t0: Trail)
    returns (ok: bool, pos: nat, numargs: int, ghost t: Trail)
    requires Standing(t0, tail, args[..], pos0, numargs0, nonops) && OnTrack(ReaderOf(c), gnu, v, t0)
    requires t0.rest != [] && HoldsOptions(t0.rest[0])
    requires action.Valid() && action.Knows(c.usage) && args !in action.Repr()
    requires action.HasRoom(|action.Seen()| + |ReadHead(ReaderOf(c), t0.rest).options|)
    modifies args, action.Repr()
    ensures action.Valid() && action.Limit() == old(action.Limit()) && action.Rest() == old(action.Rest())
    ensures ok ==> Standing(t, tail, args[..], pos, numargs, nonops) && OnTrack(ReaderOf(c), gnu, v, t)
    ensures ok ==> |t.rest| < |t0.rest| && t.passed == t0.passed
    ensures ok ==> Adds(action.Limit(), old(action.Seen()), action.Seen(), t0, t)
    ensures ok ==> Excess(numargs, |t.rest|) == Excess(numargs0, |t0.rest|)
    ensures !ok ==> Aborts(action.Limit(), old(action.Seen()), action.Seen(), ReadHead(ReaderOf(c), t0.rest))
    ensures !ok && Patient(action.Limit(), |old(action.Seen())|, |ReadHead(ReaderOf(c), t0.rest).options|) ==>
              args[..] == old(args[..])
    ensures Rearranged(old(args[..]), args[..], nonops)
  {
    ghost var was := args[..];
    ghost var r := ReadHead(ReaderOf(c), t0.rest);
    ok, pos, numargs := ReadElement(c, args, pos0, numargs0, nonops, action, t0.rest, r);
    t := t0;
    if ok {
      numargs, t := MoveBesides(c, args, pos, numargs, nonops, action, was, pos0, numargs0, gnu, v, tail, t0);
      pos := pos + 1;
    }
  }

  /** A round of the loop at a non-option, in GNU mode. */
  lemma WalkNonOption(read: Reader, v: seq<CString>, t0: Trail, tail: seq<Maybe<CString>>, a: seq<Maybe<CString>>,
                      pos: nat, numargs: int, nonops: nat)
    returns (t: Trail)
    requires Standing(t0, tail, a, pos, numargs, nonops) && OnTrack(read, true, v, t0)
    requires t0.rest != [] && !OptionLike(t0.rest[0])
    ensures Standing(t, tail, a, pos + 1, CountDown(numargs), nonops + 1) && OnTrack(read, true, v, t)
    ensures t.done == t0.done && |t.rest| == |t0.rest| - 1
  {
    PassNonOption(t0, tail, a, pos, numargs, nonops);
    TrackNonOption(read, v, t0);
    t := t0.(passed := t0.passed + t0.rest[..1], rest := t0.rest[1..]);
  }

  /** A round of the loop at a terminator. */
  method WalkTerminator(args: array<Maybe<CString>>, pos: nat, ghost numargs: int, nonops: nat, ghost action: Action,
                        ghost read: Reader, ghost gnu: bool, ghost v: seq<CString>,
                        ghost tail: seq<Maybe<CString>>, ghost t0: Trail)
    returns (ghost t: Trail)
    requires Standing(t0, tail, args[..], pos, numargs, nonops) && OnTrack(read, gnu, v, t0)
    requires t0.rest != [] && Terminator(t0.rest[0]) && action.Valid() && args !in action.Repr()
    modifies args
    ensures action.Valid() && action.Limit() == old(action.Limit()) && action.Rest() == old(action.Rest())
    ensures Adds(action.Limit(), old(action.Seen()), action.Seen(), t0, t)
    ensures Standing(t, tail, args[..], pos + 1, CountDown(numargs), nonops) && AtEnd(read, gnu, v, t)
    ensures t.done == t0.done && t.passed == t0.passed
    ensures Excess(CountDown(numargs), |t.rest|) == Excess(numargs, |t0.rest|)
    ensures Rearranged(old(args[..]), args[..], nonops)
  {
    ghost var was := args[..];
    Shift(args, pos, nonops);
    PassShifted(t0, tail, was, pos, numargs, nonops, args[..]);
    EndsBehindTerminator(read, gnu, v, t0);
    t := t0.(front := t0.front + t0.rest[..1], rest := t0.rest[1..]);
    assert unchanged(action.Repr());
  }

  /** A round of the loop at a non-option, which ends the walk in POSIX mode. */
  method WalkPlain(gnu: bool, pos0: nat, numargs0: int, nonops0: nat, ghost action: Action, ghost read: Reader,
                   ghost v: seq<CString>, ghost tail: seq<Maybe<CString>>, ghost a: seq<Maybe<CString>>,
                   ghost t0: Trail)
    returns (stop: bool, pos: nat, numargs: int, nonops: nat, ghost t: Trail)
    requires Standing(t0, tail, a, pos0, numargs0, nonops0) && OnTrack(read, gnu, v, t0)
    requires t0.rest != [] && !OptionLike(t0.rest[0]) && action.Valid()
    ensures Standing(t, tail, a, pos, numargs, nonops)
    ensures Adds(action.Limit(), action.Seen(), action.Seen(), t0, t) && Rearranged(a, a, nonops0)
    ensures if stop then AtEnd(read, gnu, v, t) else OnTrack(read, gnu, v, t) && |t.rest| < |t0.rest|
    ensures Excess(numargs, |t.rest|) == Excess(numargs0, |t0.rest|)
    ensures !gnu ==> t.passed == t0.passed
  {
    if gnu {
      t := WalkNonOption(read, v, t0, tail, a, pos0, numargs0, nonops0);
      stop, nonops, pos, numargs := false, nonops0 + 1, pos0 + 1, CountDown(numargs0);
    } else {
      EndsHere(read, gnu, v, t0);
      stop, pos, numargs, nonops, t := true, pos0, numargs0, nonops0, t0;
    }
  }

  /** One round of the loop over the vector. */
  method WalkStep(c: Config, gnu: bool, args: array<Maybe<CString>>, pos0: nat, numargs0: int, nonops0: nat,
                  action: Action,
                  ghost v: seq<CString>, ghost tail: seq<Maybe<CString>>, ghost t0: Trail)
    returns (ok: bool, stop: bool, pos: nat, numargs: int, nonops: nat, ghost t: Trail)
    requires Standing(t0, tail, args[..], pos0, numargs0, nonops0) && OnTrack(ReaderOf(c), gnu, v, t0)
    requires t0.rest != []
    requires action.Valid() && action.Knows(c.usage) && args !in action.Repr()
    requires HoldsOptions(t0.rest[0]) ==> action.HasRoom(|action.Seen()| + |ReadHead(ReaderOf(c), t0.rest).options|)
    modifies args, action.Repr()
    ensures action.Valid() && action.Limit() == old(action.Limit()) && action.Rest() == old(action.Rest())
    ensures ok ==> Standing(t, tail, args[..], pos, numargs, nonops)
    ensures ok ==> if stop then AtEnd(ReaderOf(c), gnu, v, t)
                   else OnTrack(ReaderOf(c), gnu, v, t) && |t.rest| < |t0.rest|
    ensures ok ==> Adds(action.Limit(), old(action.Seen()), action.Seen(), t0, t)
    ensures ok ==> Excess(numargs, |t.rest|) == Excess(numargs0, |t0.rest|)
    ensures ok && !gnu ==> t.passed == t0.passed
    ensures !ok ==> HoldsOptions(t0.rest[0])
    ensures !ok ==> Aborts(action.Limit(), old(action.Seen()), action.Seen(), ReadHead(ReaderOf(c), t0.rest))
    ensures !ok && Patient(action.Limit(), |old(action.Seen())|, |ReadHead(ReaderOf(c), t0.rest).options|) ==>
              args[..] == old(args[..])
    ensures Rearranged(old(args[..]), args[..], nonops0)
  {
    assert args[..][pos0] == Just(t0.rest[0]);
    var param := args[pos0].value;
    ok, stop, pos, numargs, nonops, t := true, false, pos0, numargs0, nonops0, t0;
    if At(param, 0) != '-' || At(param, 1) == '\0' {
      stop, pos, numargs, nonops, t := WalkPlain(gnu, pos0, numargs0, nonops0, action, ReaderOf(c), v, tail, args[..],
                                                     t0);
    } else if At(param, 1) == '-' && At(param, 2) == '\0' {
      t := WalkTerminator(args, pos0, numargs0, nonops0, action, ReaderOf(c), gnu, v, tail, t0);
      pos, numargs, stop := pos0 + 1, CountDown(numargs0), true;
    } else {
      ok, pos, numargs, t := WalkOptions(c, gnu, args, pos0, numargs0, nonops0, action, v, tail, t0);
    }
  }

  // ---------- The whole walk ----------

  /** What a run achieves, given what the action saw before and after it. */
  ghost predicate Achieves(out: Outcome, limit: Maybe<nat>, seen: seq<Parsed>, ok: bool, now: seq<Parsed>) {
    if Patient(limit, |seen|, |out.options|) then ok == out.legal && now == seen + out.options
    else !ok && |seen| <= limit.value && now == seen + out.options[..limit.value - |seen|]
  }

  /** A run that was not cut short leaves the vector in the order the outcome says; `n` is the vector's length. */
  ghost predicate Leaves(out: Outcome, was: seq<Maybe<CString>>, a: seq<Maybe<CString>>, n: nat) {
    n <= |was| && a == Boxed(out.Vector()) + was[n..]
  }

  /** The options of a vector begin with those of its first element. */
  lemma HeadOptionsFirst(read: Reader, gnu: bool, v: seq<CString>)
    requires v != [] && HoldsOptions(v[0])
    ensures ReadHead(read, v).options <= ParseArgs(read, gnu, v).options
    ensures !ReadHead(read, v).legal ==> ParseArgs(read, gnu, v) == Outcome(ReadHead(read, v).options, [], [], v, false)
  {
  }

  /** Cutting `done + head + more` within `head`. */
  lemma CutWithin<T>(done: seq<T>, head: seq<T>, all: seq<T>, n: nat)
    requires head <= all && n <= |head|
    ensures (done + all)[..|done| + n] == done + head[..n]
  {
    assert all[..n] == head[..n];
  }

  /** When an element ends the parse, the action has seen exactly what the outcome says, up to its limit. */
  lemma AbortMeans(read: Reader, gnu: bool, v: seq<CString>, t: Trail, limit: Maybe<nat>, seen: seq<Parsed>,
                   before: seq<Parsed>, now: seq<Parsed>)
    requires OnTrack(read, gnu, v, t) && t.rest != [] && HoldsOptions(t.rest[0])
    requires before == seen + t.done && Patient(limit, |seen|, |t.done|)
    requires Aborts(limit, before, now, ReadHead(read, t.rest))
    ensures Achieves(ParseArgs(read, gnu, v), limit, seen, false, now)
  {
    assert Key(0);
    var r, all := ReadHead(read, t.rest).options, ParseArgs(read, gnu, t.rest).options;
    HeadOptionsFirst(read, gnu, t.rest);
    assert ParseArgs(read, gnu, v).options == t.done + all;
    if Patient(limit, |before|, |r|) {
      Associative(seen, t.done, r);
    } else {
      var n := limit.value - |before|;
      CutWithin(t.done, r, all, n);
      Associative(seen, t.done, r[..n]);
    }
  }

  /** An illegal argument leaves the vector as it is. */
  lemma AbortLeaves(read: Reader, gnu: bool, v: seq<CString>, t: Trail, tail: seq<Maybe<CString>>,
                    a: seq<Maybe<CString>>)
    requires OnTrack(read, gnu, v, t) && t.rest != [] && HoldsOptions(t.rest[0]) && !ReadHead(read, t.rest).legal
    requires Arranged(t, tail, a)
    ensures a == Boxed(ParseArgs(read, gnu, v).Vector()) + tail
  {
    assert Key(0);
    LaidOutVector(t, tail, a);
    assert (t.front + []) + (t.passed + []) + t.rest == t.front + t.passed + t.rest;
  }

  lemma LaidOutVector(t: Trail, tail: seq<Maybe<CString>>, a: seq<Maybe<CString>>)
    requires Arranged(t, tail, a)
    ensures a == Boxed(t.front + t.passed + t.rest) + tail
  {
    assert Key(0);
    BoxedJoin(t.front + t.passed, t.rest);
    BoxedJoin(t.front, t.passed);
  }

  /** How much patience the rest of a walk needs: no more than the whole vector. */
  lemma RoomForRest(read: Reader, gnu: bool, v: seq<CString>, t: Trail)
    requires OnTrack(read, gnu, v, t) && t.rest != [] && HoldsOptions(t.rest[0])
    ensures |t.done| + |ReadHead(read, t.rest).options| <= |ParseArgs(read, gnu, v).options|
  {
    assert Key(0);
  }

  /** What stays fixed during a walk. */
  datatype Journey = Journey(
    read: Reader, gnu: bool, argc: int, v: seq<CString>, was: seq<Maybe<CString>>, limit: Maybe<nat>, seen: seq<Parsed>)
  {
    ghost function Tail(): seq<Maybe<CString>>
      requires |v| <= |was|
    {
      was[|v|..]
    }

    ghost function Out(): Outcome {
      ParseArgs(read, gnu, v)
    }
  }

  /** The invariant of the loop over the vector. */
  ghost predicate Under(j: Journey, stop: bool, t: Trail, now: seq<Parsed>,
                        a: seq<Maybe<CString>>, pos: nat, numargs: int, nonops: nat)
  {
    && |j.v| <= |j.was|
    && Standing(t, j.Tail(), a, pos, numargs, nonops)
    && (if stop then AtEnd(j.read, j.gnu, j.v, t) else OnTrack(j.read, j.gnu, j.v, t))
    && now == j.seen + t.done && Patient(j.limit, |j.seen|, |t.done|)
    && Rearranged(j.was, a, if j.gnu then 1 else 0) && (!j.gnu ==> t.passed == [])
    && Excess(numargs, |t.rest|) == Excess(j.argc, |j.v|)
  }

  /** What is known when the walk was aborted. */
  ghost predicate Aborted(j: Journey, now: seq<Parsed>, a: seq<Maybe<CString>>) {
    && Achieves(j.Out(), j.limit, j.seen, false, now)
    && (Patient(j.limit, |j.seen|, |j.Out().options|) ==> Leaves(j.Out(), j.was, a, |j.v|))
    && Rearranged(j.was, a, if j.gnu then 1 else 0)
  }

  /** A round that goes on keeps the invariant. */
  lemma RoundKeeps(j: Journey, t0: Trail, now0: seq<Parsed>, a0: seq<Maybe<CString>>, pos0: nat, numargs0: int,
                   nonops0: nat,
                   stop: bool, t: Trail, now: seq<Parsed>, a: seq<Maybe<CString>>, pos: nat, numargs: int, nonops: nat)
    requires Under(j, false, t0, now0, a0, pos0, numargs0, nonops0)
    requires Standing(t, j.Tail(), a, pos, numargs, nonops)
    requires if stop then AtEnd(j.read, j.gnu, j.v, t) else OnTrack(j.read, j.gnu, j.v, t)
    requires Adds(j.limit, now0, now, t0, t) && Excess(numargs, |t.rest|) == Excess(numargs0, |t0.rest|)
    requires !j.gnu ==> t.passed == t0.passed
    requires Rearranged(a0, a, nonops0)
    ensures Under(j, stop, t, now, a, pos, numargs, nonops)
  {
    assert j.seen + t0.done + t.done[|t0.done|..] == j.seen + t.done;
  }

  /** A round that aborts the parse leaves what the outcome says. */
  lemma RoundAborts(j: Journey, t0: Trail, now0: seq<Parsed>, a0: seq<Maybe<CString>>, pos0: nat, numargs0: int,
                    nonops0: nat,
                    now: seq<Parsed>, a: seq<Maybe<CString>>)
    requires Under(j, false, t0, now0, a0, pos0, numargs0, nonops0)
    requires t0.rest != [] && HoldsOptions(t0.rest[0])
    requires Aborts(j.limit, now0, now, ReadHead(j.read, t0.rest))
    requires Patient(j.limit, |now0|, |ReadHead(j.read, t0.rest).options|) ==> a == a0
    requires Rearranged(a0, a, nonops0)
    ensures Aborted(j, now, a)
  {
    AbortMeans(j.read, j.gnu, j.v, t0, j.limit, j.seen, now0, now);
    RoomForRest(j.read, j.gnu, j.v, t0);
    if Patient(j.limit, |j.seen|, |j.Out().options|) {
      AbortLeaves(j.read, j.gnu, j.v, t0, j.Tail(), a);
    }
  }

  lemma EndMeans(j: Journey, stop: bool, t: Trail, now: seq<Parsed>,
                 a: seq<Maybe<CString>>, pos: nat, numargs: int, nonops: nat)
    requires Under(j, stop, t, now, a, pos, numargs, nonops)
    requires !stop ==> t.rest == []
    ensures Achieves(j.Out(), j.limit, j.seen, true, now) && Leaves(j.Out(), j.was, a, |j.v|)
    ensures Rearranged(j.was, a, if j.gnu then 1 else 0) && Arrived(j, a, pos, numargs, nonops)
  {
    if !stop {
      EndsHere(j.read, j.gnu, j.v, t);
    }
    assert Key(0);
    EndLeaves(j, t, a);
  }

  lemma EndLeaves(j: Journey, t: Trail, a: seq<Maybe<CString>>)
    requires |j.v| <= |j.was| && Arranged(t, j.Tail(), a) && AtEnd(j.read, j.gnu, j.v, t)
    ensures Leaves(j.Out(), j.was, a, |j.v|)
  {
    assert Key(0);
    LaidOutVector(t, j.Tail(), a);
    assert t.front + (t.passed + t.rest) + [] == t.front + t.passed + t.rest;
  }

  method WalkRound(c: Config, args: array<Maybe<CString>>, pos0: nat, numargs0: int, nonops0: nat, action: Action,
                   gnu: bool, ghost j: Journey, ghost t0: Trail)
    returns (ok: bool, stop: bool, pos: nat, numargs: int, nonops: nat, ghost t: Trail)
    requires j.read == ReaderOf(c) && j.gnu == gnu
    requires action.Valid() && action.Knows(c.usage) && args !in action.Repr() && action.Limit() == j.limit
    requires Under(j, false, t0, action.Seen(), args[..], pos0, numargs0, nonops0) && t0.rest != []
    requires action.HasRoom(|j.seen| + |j.Out().options|)
    modifies args, action.Repr()
    ensures action.Valid() && action.Limit() == old(action.Limit()) && action.Rest() == old(action.Rest())
    ensures ok ==> Under(j, stop, t, action.Seen(), args[..], pos, numargs, nonops)
    ensures ok && !stop ==> |t.rest| < |t0.rest|
    ensures !ok ==> Aborted(j, action.Seen(), args[..])
  {
    ghost var now0, a0 := action.Seen(), args[..];
    if HoldsOptions(t0.rest[0]) {
      RoomForRest(j.read, gnu, j.v, t0);
    }
    ok, stop, pos, numargs, nonops, t := WalkStep(c, gnu, args, pos0, numargs0, nonops0, action, j.v, j.Tail(), t0);
    if ok {
      RoundKeeps(j, t0, now0, a0, pos0, numargs0, nonops0, stop, t, action.Seen(), args[..], pos, numargs, nonops);
    } else {
      RoundAborts(j, t0, now0, a0, pos0, numargs0, nonops0, action.Seen(), args[..]);
    }
  }

  /** The loop over the vector. */
  method Walk(c: Config, gnu: bool, argc: int, args: array<Maybe<CString>>, action: Action, ghost j: Journey)
    returns (ok: bool, pos: nat, numargs: int, nonops: nat)
    requires action.Valid() && action.Knows(c.usage) && args !in action.Repr()
    requires j == Journey(ReaderOf(c), gnu, argc, j.v, args[..], action.Limit(), action.Seen())
    requires Holds(args[..], 0, argc, j.v)
    requires action.HasRoom(|action.Seen()| + |j.Out().options|)
    modifies args, action.Repr()
    ensures action.Valid() && action.Limit() == old(action.Limit()) && action.Rest() == old(action.Rest())
    ensures if ok then
              && Achieves(j.Out(), j.limit, j.seen, true, action.Seen())
              && Leaves(j.Out(), j.was, args[..], |j.v|)
              && Rearranged(j.was, args[..], if j.gnu then 1 else 0)
            else Aborted(j, action.Seen(), args[..])
    ensures ok ==> Arrived(j, args[..], pos, numargs, nonops)
  {
    ghost var t := Trail([], [], [], j.v);
    pos, numargs, nonops := 0, argc, 0;
    var stop := false;
    BeginsHere(j, action.Seen());
    while !stop && numargs != 0 && args[pos] != Nothing
      invariant action.Valid() && action.Limit() == j.limit && action.Rest() == old(action.Rest())
      invariant Under(j, stop, t, action.Seen(), args[..], pos, numargs, nonops)
      decreases !stop, |t.rest|
    {
      ok, stop, pos, numargs, nonops, t := WalkRound(c, args, pos, numargs, nonops, action, gnu, j, t);
      if !ok {
        return;
      }
    }
    assert t.rest != [] && numargs != 0 ==> args[..][pos] == Just(t.rest[0]);
    EndMeans(j, stop, t, action.Seen(), args[..], pos, numargs, nonops);
    ok := true;
  }

  /** Where the cursor stands at the end: behind the option block and the non-options passed. */
  ghost predicate Arrived(j: Journey, a: seq<Maybe<CString>>, pos: nat, numargs: int, nonops: nat) {
    var unread := Unread(j.read, j.gnu, j.v);
    && nonops <= pos && pos - nonops == |j.Out().front|
    && nonops + |unread| == |j.Out().nonOptions|
    && Holds(a, pos, numargs, unread)
    && Excess(numargs, |unread|) == Excess(j.argc, |j.v|)
  }

  lemma BeginsHere(j: Journey, now: seq<Parsed>)
    requires Holds(j.was, 0, j.argc, j.v) && now == j.seen && Patient(j.limit, |now|, 0)
    ensures Under(j, false, Trail([], [], [], j.v), now, j.was, 0, j.argc, 0)
  {
  }

  /**
    How many non-options the parser reports.  A count that exceeds the vector
    is corrected only if the walk comes to the vector's end.
  */
  function Leftover(read: Reader, gnu: bool, argc: int, v: seq<CString>): (n: int) {
    |ParseArgs(read, gnu, v).nonOptions| + if argc < 0 || Unread(read, gnu, v) == [] then 0 else argc - |v|
  }

  /**
    If the count is that of the vector, or there is none, what is reported at
    the end of a legal parse are the non-options, all of them.
  */
  lemma ReportedAreTheNonOptions(read: Reader, gnu: bool, argc: int, v: seq<CString>)
    requires argc < 0 || argc == |v|
    ensures var out, n := ParseArgs(read, gnu, v), Leftover(read, gnu, argc, v);
            n == |out.nonOptions| && out.Vector()[|out.front|..|out.front| + n] == out.nonOptions
  {
  }

  /** The vector that the parser is given, in C's terms; a null vector is empty. */
  ghost predicate Given(args: Argv, argc: int, v: seq<CString>)
    reads args
  {
    if args == null then v == [] else Holds(args[..], 0, argc, v)
  }

  /** Counts the arguments that are left, if nobody knows how many there are. */
  method CountRest(args: array<Maybe<CString>>, pos: nat, numargs0: int, ghost rest: seq<CString>)
        returns (numargs: nat)
    requires Holds(args[..], pos, numargs0, rest)
    ensures numargs == if numargs0 < 0 || rest == [] then |rest| else numargs0
  {
    assert forall i :: pos <= i < pos + |rest| ==> args[..][i] == Just(rest[i - pos]);
    var n := numargs0;
    if n > 0 && args[pos] == Nothing {
      n := 0;
    }
    if n < 0 {
      n := 0;
      while args[pos + n] != Nothing
        invariant 0 <= n <= |rest|
        decreases |rest| - n
      {
        n := n + 1;
      }
    }
    numargs := n;
  }

  /** What a run leaves in the vector, if it is not cut short. */
  ghost predicate Finishes(out: Outcome, limit: Maybe<nat>, seen: nat, was: seq<Maybe<CString>>, a: seq<Maybe<CString>>,
                           n: nat, gnu: bool)
  {
    && (Patient(limit, seen, |out.options|) ==> Leaves(out, was, a, n))
    && Rearranged(was, a, if gnu then 1 else 0)
  }

  /** Counts the non-options and reports where they are. */
  method Report(args: array<Maybe<CString>>, pos: nat, numargs0: int, nonops: nat, action: Action, ghost j: Journey)
    requires action.Valid() && args !in action.Repr()
    requires Arrived(j, args[..], pos, numargs0, nonops) && (j.argc >= 0 ==> |j.v| <= j.argc)
    modifies action.Repr()
    ensures action.Valid() && action.Limit() == old(action.Limit()) && action.Seen() == old(action.Seen())
    ensures action.Rest() == (
              if action.Storing? && Leftover(j.read, j.gnu, j.argc, j.v) > 0
              then NonOptions(args, |j.Out().front|, Leftover(j.read, j.gnu, j.argc, j.v))
              else old(action.Rest()))
  {
    var numargs := CountRest(args, pos, numargs0, Unread(j.read, j.gnu, j.v));
    action.Finished(numargs + nonops, args, pos - nonops);
  }

  /** The walk and the report of the non-options, for a vector that is not null. */
  method WalkAndReport(c: Config, gnu: bool, argc: int, args: array<Maybe<CString>>, action: Action,
                       ghost v: seq<CString>)
    returns (ok: bool)
    requires Holds(args[..], 0, argc, v)
    requires action.Valid() && action.Knows(c.usage) && args !in action.Repr()
    requires action.HasRoom(|action.Seen()| + |Parse(c, gnu, v).options|)
    modifies args, action.Repr()
    ensures action.Valid() && action.Limit() == old(action.Limit())
    ensures Achieves(Parse(c, gnu, v), action.Limit(), old(action.Seen()), ok, action.Seen())
    ensures Finishes(Parse(c, gnu, v), action.Limit(), |old(action.Seen())|, old(args[..]), args[..], |v|, gnu)
    ensures action.Rest() == (
              if ok && action.Storing? && Leftover(ReaderOf(c), gnu, argc, v) > 0
              then NonOptions(args, |Parse(c, gnu, v).front|, Leftover(ReaderOf(c), gnu, argc, v))
              else old(action.Rest()))
  {
    ghost var j := Journey(ReaderOf(c), gnu, argc, v, args[..], action.Limit(), action.Seen());
    var pos, numargs, nonops;
    ok, pos, numargs, nonops := Walk(c, gnu, argc, args, action, j);
    if ok {
      Report(args, pos, numargs, nonops, action, j);
    }
  }

  /**
    Parses an argument vector in place.  The action sees the options of the
    grammar, the vector ends up in the grammar's order, and the non-options
    are reported where they are now.
  */
  method Run(c: Config, gnu: bool, argc: int, args: Argv, action: Action, ghost v: seq<CString>) returns (ok: bool)
    requires Given(args, argc, v)
    requires action.Valid() && action.Knows(c.usage) && args !in action.Repr()
    requires action.HasRoom(|action.Seen()| + |Parse(c, gnu, v).options|)
    modifies args, action.Repr()
    ensures action.Valid() && action.Limit() == old(action.Limit())
    ensures Achieves(Parse(c, gnu, v), action.Limit(), old(action.Seen()), ok, action.Seen())
    ensures args != null ==>
              Finishes(Parse(c, gnu, v), action.Limit(), |old(action.Seen())|, old(args[..]), args[..], |v|, gnu)
    ensures action.Rest() == (
              if ok && action.Storing? && Leftover(ReaderOf(c), gnu, argc, v) > 0
              then NonOptions(args, |Parse(c, gnu, v).front|, Leftover(ReaderOf(c), gnu, argc, v))
              else old(action.Rest()))
  {
    if args == null {
      action.Finished(0, null, 0);
      ok := true;
    } else {
      ok := WalkAndReport(c, gnu, argc, args, action, v);
    }
  }
}
