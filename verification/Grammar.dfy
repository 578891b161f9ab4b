/**
  The command-line syntax as a recursive grammar over sequences of strings:
  what one option element means, and what a whole argument vector means in
  POSIX and in GNU mode.  No flags, no positions, no vector that changes.
*/
module Grammar {
  import opened Basics
  import opened CStrings
  import opened Descriptors

  /** The table and the switches of one parse; `msg` lets check functions print. */
  datatype Config = Config(usage: seq<Descriptor>, singleMinus: bool, minAbbrev: int, msg: bool)

  /** An option handed to the action: the entry of the table, the name as typed, the accepted argument. */
  datatype Parsed = Parsed(desc: nat, name: CString, arg: Maybe<CString>)

  /** The options found in one element, whether they took the next element, and whether all were legal. */
  datatype Reading = Reading(options: seq<Parsed>, tookNext: bool, legal: bool)

  /** Unknown options go to the first dummy entry, if the table has one. */
  function Resolve(usage: seq<Descriptor>, found: nat): (d: nat)
    ensures d <= |usage|
  {
    if found < |usage| then found else First(usage, Dummy, 0)
  }

  function ShortEntry(c: Config, ch: char): (d: nat)
    ensures d <= |c.usage|
  {
    Resolve(c.usage, First(c.usage, Letter(ch), 0))
  }

  function LongEntry(c: Config, name: CString): (d: nat)
    ensures d <= |c.usage|
  {
    Resolve(c.usage, LongIndex(c.usage, name, c.minAbbrev))
  }

  const NOTHING_FOUND: Reading := Reading([], false, true)

  /**
    The check function of entry `d` judges an option; `separate` says that the
    argument on offer is the next vector element, and `more` is what the rest
    of the element reads as if the option leaves it alone.  Without an entry
    the option is dropped.
  */
  function Judged(c: Config, d: nat, name: CString, candidate: Maybe<CString>, separate: bool, more: Reading): Reading
    requires d <= |c.usage|
  {
    if d == |c.usage| then more
    else
      match c.usage[d].check(name, candidate, c.msg)
      case ArgIllegal => Reading([], false, false)
      case ArgOk => Reading([Parsed(d, name, candidate)], separate && candidate.Just?, true)
      case _ => more.(options := [Parsed(d, name, Nothing)] + more.options)
  }

  /** A group of short options, without the minus; `next` is the vector element behind the group. */
  function ReadShort(c: Config, group: CString, next: Maybe<CString>): Reading {
    if group == "" then NOTHING_FOUND
    else
      var last := |group| == 1;
      Judged(c, ShortEntry(c, group[0]), group, if last then next else Just(group[1..]), last,
             ReadShort(c, group[1..], next))
  }

  /** A long option: `elem` is the whole element and its long name starts at `skip`. */
  function ReadLong(c: Config, elem: CString, skip: nat, next: Maybe<CString>): Reading
    requires skip <= |elem|
  {
    var attached := AttachedPart(elem[skip..]);
    Judged(c, LongEntry(c, elem[skip..]), elem, if attached.Just? then attached else next,
           attached.Nothing?, NOTHING_FOUND)
  }

  predicate OptionLike(elem: string) {
    |elem| >= 2 && elem[0] == '-'
  }

  predicate Terminator(elem: string) {
    elem == "--"
  }

  /** An element that holds one long option or a group of short ones. */
  predicate HoldsOptions(elem: string) {
    OptionLike(elem) && !Terminator(elem)
  }

  function Read(c: Config, elem: CString, next: Maybe<CString>): Reading
    requires HoldsOptions(elem)
  {
    if elem[1] == '-' then ReadLong(c, elem, 2, next)
    else if c.singleMinus && LongIndex(c.usage, elem[1..], c.minAbbrev) < |c.usage| then ReadLong(c, elem, 1, next)
    else ReadShort(c, elem[1..], next)
  }

  /**
    The meaning of a vector: the options in order, and the elements split into
    option elements with their arguments, non-options, and (only after an
    illegal argument) the elements not looked at.
  */
  datatype Outcome = Outcome(
    options: seq<Parsed>, front: seq<CString>, nonOptions: seq<CString>, rest: seq<CString>, legal: bool)
  {
    /** The argument vector as the parse leaves it. */
    function Vector(): seq<CString> {
      front + nonOptions + rest
    }
  }

  function Head(v: seq<CString>): (m: Maybe<CString>) {
    if v == [] then Nothing else Just(v[0])
  }

  /** Says how one element reads in front of a given successor. */
  type Reader = (CString, Maybe<CString>) -> Reading

  function ReaderOf(c: Config): Reader {
    (elem: CString, next: Maybe<CString>) =>
      if HoldsOptions(elem) then Read(c, elem, next) else Reading([], false, true)
  }

  function ReadHead(read: Reader, v: seq<CString>): Reading
    requires v != []
  {
    read(v[0], Head(v[1..]))
  }

  /** How many elements the options in the first element use up: one, or two with a detached argument. */
  function ElementsTaken(read: Reader, v: seq<CString>): (k: nat)
    requires v != []
    ensures 1 <= k <= 2 && k <= |v|
  {
    if ReadHead(read, v).tookNext && |v| > 1 then 2 else 1
  }

  function ParseArgs(read: Reader, gnu: bool, v: seq<CString>): Outcome
    decreases |v|
  {
    if v == [] then Outcome([], [], [], [], true)
    else if Terminator(v[0]) then Outcome([], v[..1], v[1..], [], true)
    else if !OptionLike(v[0]) then
      if gnu then
        var more := ParseArgs(read, gnu, v[1..]);
        more.(nonOptions := v[..1] + more.nonOptions)
      else Outcome([], [], v, [], true)
    else if !ReadHead(read, v).legal then Outcome(ReadHead(read, v).options, [], [], v, false)
    else
      var k := ElementsTaken(read, v);
      var more := ParseArgs(read, gnu, v[k..]);
      more.(options := ReadHead(read, v).options + more.options, front := v[..k] + more.front)
  }

  /** The elements a parse never looks at: those behind a terminator, behind the last option it accepts, or all. */
  function Unread(read: Reader, gnu: bool, v: seq<CString>): (rest: seq<CString>)
    decreases |v|
  {
    if v == [] then []
    else if Terminator(v[0]) then v[1..]
    else if !OptionLike(v[0]) then if gnu then Unread(read, gnu, v[1..]) else v
    else if !ReadHead(read, v).legal then v
    else Unread(read, gnu, v[ElementsTaken(read, v)..])
  }

  /** The meaning of a whole vector under a configuration. */
  function Parse(c: Config, gnu: bool, v: seq<CString>): Outcome {
    ParseArgs(ReaderOf(c), gnu, v)
  }

  lemma TakesOnlyWhatIsThere(c: Config, elem: CString, next: Maybe<CString>)
    requires HoldsOptions(elem)
    ensures Read(c, elem, next).tookNext ==> next.Just?
  {
    if elem[1] == '-' {
      LongTakesOnlyWhatIsThere(c, elem, 2, next);
    } else if c.singleMinus && LongIndex(c.usage, elem[1..], c.minAbbrev) < |c.usage| {
      LongTakesOnlyWhatIsThere(c, elem, 1, next);
    } else {
      ShortTakesOnlyWhatIsThere(c, elem[1..], next);
    }
  }

  lemma LongTakesOnlyWhatIsThere(c: Config, elem: CString, skip: nat, next: Maybe<CString>)
    requires skip <= |elem|
    ensures ReadLong(c, elem, skip, next).tookNext ==> next.Just?
  {
  }

  lemma {:induction false} ShortTakesOnlyWhatIsThere(c: Config, group: CString, next: Maybe<CString>)
    ensures ReadShort(c, group, next).tookNext ==> next.Just?
  {
    if group != "" {
      ShortTakesOnlyWhatIsThere(c, group[1..], next);
    }
  }
}
