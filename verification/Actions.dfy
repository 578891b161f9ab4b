/**
  What the parser does with each option it finds: count it, or store it.  The
  two actions of the library are dispatched through one interface, as the
  virtual functions of their common base are.
*/
module Actions {
  import opened Basics
  import opened CStrings
  import opened Descriptors
  import opened Grammar
  import opened OptionList
  import opened OptionTables
  import opened Sequences

  const INT_MAX: nat := 0x7fff_ffff

  type Argv = array?<Maybe<CString>>

  /** A counter that somebody else holds a pointer to. */
  class Counter {
    var value: nat

    constructor (value: nat)
      ensures this.value == value
    {
      this.value := value;
    }
  }

  class Stats {
    const bufferMax: Counter
    var optionsMax: nat

    constructor ()
      ensures bufferMax.value == 1 && optionsMax == 1 && fresh(bufferMax)
    {
      bufferMax := new Counter(1);
      optionsMax := 1;
    }
  }

  class Parser {
    var opCount: nat
    var nonopCount: nat
    var nonopArgs: Argv
    var nonopStart: nat
    var err: bool

    constructor ()
      ensures opCount == nonopCount == 0 && nonopArgs == null && !err
    {
      opCount := 0;
      nonopCount := 0;
      nonopArgs := null;
      nonopStart := 0;
      err := false;
    }
  }

  /** Counts options, as long as the count fits a signed int. */
  class CountOptionsAction {
    const bufferMax: Counter
    ghost const start: nat
    ghost var seen: seq<Parsed>

    ghost predicate Valid()
      reads this, bufferMax
    {
      bufferMax.value == start + |seen| <= INT_MAX
    }

    constructor (bufferMax: Counter)
      requires bufferMax.value <= INT_MAX
      ensures this.bufferMax == bufferMax && start == bufferMax.value && seen == []
      ensures Valid()
    {
      this.bufferMax := bufferMax;
      start := bufferMax.value;
      seen := [];
    }

    method Perform(p: Parsed) returns (ok: bool)
      requires Valid()
      modifies this`seen, bufferMax
      ensures Valid()
      ensures ok <==> old(bufferMax.value) < INT_MAX
      ensures seen == if ok then old(seen) + [p] else old(seen)
    {
      if bufferMax.value == INT_MAX {
        return false;
      }
      bufferMax.value := bufferMax.value + 1;
      seen := seen + [p];
      ok := true;
    }
  }

  /** Every index that an entry of the table can select has a slot. */
  ghost predicate IndicesFit(usage: seq<Descriptor>, slots: nat) {
    forall d :: 0 <= d < |usage| ==> usage[d].index < slots
  }

  /** Stores options in the two arrays; `bufmax < 0` stands for a buffer that is large enough. */
  class StoreOptionAction {
    const usage: seq<Descriptor>
    const parser: Parser
    const options: seq<Option>
    const buffer: seq<Option>
    const bufmax: int
    ghost const base: seq<Parsed>
    ghost var seen: seq<Parsed>

    /** How many of the options seen were kept; the others found the buffer full. */
    ghost function KeptCount(): (k: nat)
      reads this
      ensures k <= |seen|
    {
      if bufmax < 0 || |base| + |seen| <= bufmax then |seen| else if |base| <= bufmax then bufmax - |base| else 0
    }

    ghost function Stored(): seq<Parsed>
      reads this
    {
      base + seen[..KeptCount()]
    }

    /** Before the buffer is full, everything seen is stored. */
    lemma StoresAll()
      requires KeptCount() == |seen|
      ensures Stored() == base + seen
    {
      assert seen[..KeptCount()] == seen;
    }

    ghost function Nodes(): set<object> {
      (set o | o in options) + (set o | o in buffer)
    }

    ghost predicate Valid()
      reads this, parser, set o | o in options, set o | o in buffer
    {
      && IndicesFit(usage, |options|)
      && bufmax <= |buffer| && bufmax <= INT_MAX
      && parser.opCount == (if 0 <= bufmax < |base| then bufmax else |Stored()|) <= INT_MAX
      && |Stored()| <= |buffer| && TablesHold(usage, options, buffer, Stored())
    }

    /** Finds the first unused slot of the buffer. */
    constructor (usage: seq<Descriptor>, parser: Parser, options: seq<Option>, buffer: seq<Option>, bufmax: int,
                 ghost base: seq<Parsed>)
      requires IndicesFit(usage, |options|) && TablesHold(usage, options, buffer, base)
      requires bufmax <= |buffer| && bufmax <= INT_MAX
      requires bufmax < 0 ==> |base| < |buffer| && |base| <= INT_MAX
      modifies parser`opCount
      ensures Valid()
      ensures this.usage == usage && this.parser == parser && this.options == options && this.buffer == buffer
      ensures this.bufmax == bufmax && this.base == base && seen == []
    {
      this.usage := usage;
      this.parser := parser;
      this.options := options;
      this.buffer := buffer;
      this.bufmax := bufmax;
      this.base := base;
      seen := [];
      new;
      assert Key(0);
      var bufidx := 0;
      while (bufmax < 0 || bufidx < bufmax) && buffer[bufidx].desc.Just?
        invariant bufidx <= |base| && (bufmax >= 0 ==> bufidx <= bufmax)
        decreases |base| - bufidx
      {
        bufidx := bufidx + 1;
      }
      parser.opCount := bufidx;
      assert base + seen[..KeptCount()] == base;
    }

    /** The buffer is as large as seeing `n` options takes. */
    ghost predicate HasRoom(n: nat) {
      bufmax < 0 ==> |base| + n <= |buffer| || INT_MAX <= |buffer|
    }

    method Perform(p: Parsed) returns (ok: bool)
      requires Valid() && HasRoom(|seen| + 1)
      requires p.desc < |usage| && p.name != ""
      modifies this`seen, parser`opCount, Nodes()
      ensures Valid()
      ensures ok <==> bufmax >= 0 || old(parser.opCount) < INT_MAX
      ensures seen == if ok then old(seen) + [p] else old(seen)
    {
      if bufmax < 0 || parser.opCount < bufmax {
        if parser.opCount == INT_MAX {
          return false;
        }
        Keep(p);
      } else {
        Drop(p);
      }
      ok := true;
    }

    /** Stores an option in the next slot. */
    method Keep(p: Parsed)
      requires Valid() && HasRoom(|seen| + 1) && (bufmax < 0 || parser.opCount < bufmax) && parser.opCount < INT_MAX
      requires p.desc < |usage| && p.name != ""
      modifies this`seen, parser`opCount, Nodes()
      ensures Valid() && seen == old(seen) + [p]
    {
      StoresAll();
      ghost var stored := Stored();
      Store(usage, options, buffer, parser.opCount, p, stored);
      label stored:
      parser.opCount := parser.opCount + 1;
      seen := seen + [p];
      assert unchanged@stored(set o | o in options, set o | o in buffer);
      Associative(base, old(seen), [p]);
      StoresAll();
      assert Stored() == stored + [p];
    }

    /** An option that finds the buffer full is not stored; that is no error. */
    ghost method Drop(p: Parsed)
      requires Valid() && 0 <= bufmax <= parser.opCount
      modifies this`seen
      ensures Valid() && seen == old(seen) + [p]
    {
      ghost var before := Stored();
      seen := seen + [p];
      assert seen[..KeptCount()] == old(seen)[..KeptCount()];
    }

    /** Replaces the list of non-options, unless there is none to replace it with. */
    method Finished(numargs: nat, args: Argv, start: nat)
      requires Valid()
      modifies parser`nonopCount, parser`nonopArgs, parser`nonopStart
      ensures Valid()
      ensures if numargs > 0 then parser.nonopCount == numargs && parser.nonopArgs == args && parser.nonopStart == start
              else unchanged(parser)
    {
      if numargs > 0 {
        parser.nonopCount := numargs;
        parser.nonopArgs := args;
        parser.nonopStart := start;
      }
    }
  }

  /** The non-options that the parser reports: a part of an argument vector. */
  datatype NonOptions = NonOptions(args: Argv, start: nat, count: nat)

  datatype Action = Counting(count: CountOptionsAction) | Storing(store: StoreOptionAction) {
    ghost function Repr(): set<object> {
      match this
      case Counting(c) => {c, c.bufferMax}
      case Storing(s) => {s, s.parser} + s.Nodes()
    }

    ghost predicate Valid()
      reads Repr()
    {
      forall k {:trigger Key(k)} :: Key(k) ==>
        match this
        case Counting(c) => c.Valid()
        case Storing(s) => s.Valid()
    }

    /** The options performed so far, in order. */
    ghost function Seen(): seq<Parsed>
      reads Repr()
    {
      match this
      case Counting(c) => c.seen
      case Storing(s) => s.seen
    }

    /** How many options the action can see before it gives up. */
    ghost function Limit(): (limit: Maybe<nat>)
      requires Valid()
      reads Repr()
      ensures limit.Just? ==> |Seen()| <= limit.value
    {
      assert Key(0);
      match this
      case Counting(c) => Just(INT_MAX - c.start)
      case Storing(s) => if s.bufmax < 0 then Just(INT_MAX - |s.base|) else Nothing
    }

    ghost predicate HasRoom(n: nat) {
      match this
      case Counting(_) => true
      case Storing(s) => s.HasRoom(n)
    }

    ghost predicate Knows(usage: seq<Descriptor>) {
      Storing? ==> store.usage == usage
    }

    ghost function Rest(): NonOptions
      reads Repr()
    {
      match this
      case Counting(_) => NonOptions(null, 0, 0)
      case Storing(s) => NonOptions(s.parser.nonopArgs, s.parser.nonopStart, s.parser.nonopCount)
    }

    method Perform(p: Parsed, ghost usage: seq<Descriptor>) returns (ok: bool)
      requires Valid() && HasRoom(|Seen()| + 1) && Knows(usage)
      requires p.desc < |usage| && p.name != ""
      modifies Repr()
      ensures Valid() && Limit() == old(Limit()) && Rest() == old(Rest())
      ensures ok <==> old(Limit().Nothing? || |Seen()| < Limit().value)
      ensures Seen() == if ok then old(Seen()) + [p] else old(Seen())
    {
      assert Key(0);
      match this
      case Counting(c) => ok := c.Perform(p);
      case Storing(s) => ok := s.Perform(p);
    }

    method Finished(numargs: nat, args: Argv, start: nat)
      requires Valid()
      modifies Repr()
      ensures Valid() && Limit() == old(Limit()) && Seen() == old(Seen())
      ensures Rest() == if Storing? && numargs > 0 then NonOptions(args, start, numargs) else old(Rest())
    {
      assert Key(0);
      match this
      case Counting(_) =>
      case Storing(s) => s.Finished(numargs, args, start);
    }
  }
}
