/**
  The option table (an array of descriptors) and every way the parser looks an
  option up in it: by long name, by abbreviated long name, by letter, and as
  the dummy entry that stands for unknown options.
*/
module Descriptors {
  import opened Basics
  import opened CStrings

  datatype ArgStatus = ArgNone | ArgOk | ArgIgnore | ArgIllegal

  /**
    A check function sees the name as found on the command line, the argument
    on offer and whether it may print messages.
  */
  type CheckArg = (string, Maybe<string>, bool) -> ArgStatus

  /** An index must fit the signed variable that the parser copies it to. */
  type Index = i: nat | i < 0x7fff_ffff

  datatype Descriptor = Descriptor(index: Index, kind: int, shortopt: CString, longopt: CString, check: CheckArg)

  /** `st1` is the name part of `st2`, with or without an attached argument. */
  predicate NameMatches(st1: string, st2: string) {
    st1 <= st2 && (|st1| == |st2| || st2[|st1|] == '=')
  }

  /** Like NameMatches, except that `st2` may cut the name short after `min` characters. */
  predicate AbbreviationMatches(st1: string, st2: string, min: int) {
    var k := CommonPrefix(st1, st2);
    && (k == |st1| || (min > 0 && k >= min))
    && (k == |st2| || st2[k] == '=')
  }

  /** A common prefix of `k` characters with the properties that the documentation asks for. */
  predicate DocumentedPrefix(st1: string, st2: string, min: int, k: nat) {
    && k <= |st1| && k <= |st2| && st1[..k] == st2[..k]
    && (if min > 0 then k >= min || k == |st1| else k == |st1|)
    && (k == |st2| || st2[k] == '=')
  }

  /** The abbreviation test as it is documented: some common prefix has the properties, not only the longest. */
  ghost predicate Documented(st1: string, st2: string, min: int) {
    exists k: nat :: DocumentedPrefix(st1, st2, min, k)
  }

  /** The name goes on with '=' where both strings are still the same, behind enough characters. */
  ghost predicate NameHidesAssignment(st1: string, st2: string, min: int) {
    min > 0 && exists k :: min <= k < CommonPrefix(st1, st2) && st1[k] == '='
  }

  /** The code accepts whatever is documented, except where the long name itself contains '='. */
  lemma DocumentedExactly(st1: string, st2: string, min: int)
    ensures Documented(st1, st2, min) <==> AbbreviationMatches(st1, st2, min) || NameHidesAssignment(st1, st2, min)
  {
    var longest := CommonPrefix(st1, st2);
    if Documented(st1, st2, min) {
      var k: nat :| DocumentedPrefix(st1, st2, min, k);
      CommonPrefixIsLongest(st1, st2, k);
      if k < longest {
        assert st1[..longest][k] == st2[..longest][k];
      }
    }
    if AbbreviationMatches(st1, st2, min) {
      assert DocumentedPrefix(st1, st2, min, longest);
    } else if NameHidesAssignment(st1, st2, min) {
      var k :| min <= k < longest && st1[k] == '=';
      assert st1[..longest][k] == st2[..longest][k];
      assert st1[..k] == st1[..longest][..k] == st2[..longest][..k] == st2[..k];
      assert DocumentedPrefix(st1, st2, min, k);
    }
  }

  /** Says what the tests mean for long names without '=', in terms of the name part alone. */
  lemma MatchingByNamePart(st1: string, st2: string, min: int)
    requires '=' !in st1
    ensures NameMatches(st1, st2) <==> NamePart(st2) == st1
    ensures AbbreviationMatches(st1, st2, min) <==>
            NamePart(st2) <= st1 && (NamePart(st2) == st1 || (min > 0 && |NamePart(st2)| >= min))
  {
  }

  /** For such names the code does as documented. */
  lemma DocumentedWithoutEquals(st1: string, st2: string, min: int)
    requires '=' !in st1
    ensures AbbreviationMatches(st1, st2, min) <==> Documented(st1, st2, min)
  {
    DocumentedExactly(st1, st2, min);
  }

  /** Documented, but not what the code does: `a=bc` for an option whose long name is `a=b`. */
  lemma DocumentedButRefused()
    ensures Documented("a=b", "a=bc", 1) && !AbbreviationMatches("a=b", "a=bc", 1)
  {
    assert DocumentedPrefix("a=b", "a=bc", 1, 1);
    CommonPrefixUnique("a=b", "a=bc", 3);
  }

  method Streq(st1: CString, st2: CString) returns (b: bool)
    ensures b == NameMatches(st1, st2)
  {
    var i := 0;
    while At(st1, i) != '\0'
      invariant i <= |st1| && i <= |st2|
      invariant st1[..i] == st2[..i]
      decreases |st1| - i
    {
      if At(st1, i) != At(st2, i) {
        return false;
      }
      i := i + 1;
    }
    b := At(st2, i) == '\0' || At(st2, i) == '=';
  }

  method StreqAbbr(st1: CString, st2: CString, min: int) returns (b: bool)
    ensures b == AbbreviationMatches(st1, st2, min)
  {
    var i := 0;
    while At(st1, i) != '\0' && At(st1, i) == At(st2, i)
      invariant i <= |st1| && i <= |st2|
      invariant st1[..i] == st2[..i]
      decreases |st1| - i
    {
      i := i + 1;
    }
    CommonPrefixUnique(st1, st2, i);
    b := (At(st1, i) == '\0' || (min > 0 && i >= min)) && (At(st2, i) == '\0' || At(st2, i) == '=');
  }

  method Instr(ch: char, st: CString) returns (b: bool)
    ensures b <==> ch in st || ch == '\0'
  {
    var i := 0;
    while At(st, i) != '\0' && At(st, i) != ch
      invariant i <= |st|
      invariant ch !in st[..i]
      decreases |st| - i
    {
      i := i + 1;
    }
    b := At(st, i) == ch;
  }

  /** The four tests that the parser scans the table with. */
  datatype Criterion = Exactly(name: CString) | Abbreviated(name: CString, min: int) | Letter(ch: char) | Dummy

  predicate Meets(d: Descriptor, q: Criterion) {
    match q
    case Exactly(name) => NameMatches(d.longopt, name)
    case Abbreviated(name, min) => AbbreviationMatches(d.longopt, name, min)
    case Letter(ch) => ch in d.shortopt || ch == '\0'
    case Dummy => d.shortopt == "" && d.longopt == ""
  }

  /** The first entry at or after `from` that fits, or the table's end. */
  function First(usage: seq<Descriptor>, q: Criterion, from: nat): (i: nat)
    requires from <= |usage|
    ensures from <= i <= |usage|
    ensures i < |usage| ==> Meets(usage[i], q)
    ensures forall j :: from <= j < i ==> !Meets(usage[j], q)
    decreases |usage| - from
  {
    if from == |usage| || Meets(usage[from], q) then from else First(usage, q, from + 1)
  }

  method Scan(usage: seq<Descriptor>, q: Criterion, from: nat) returns (i: nat)
    requires from <= |usage|
    ensures i == First(usage, q, from)
  {
    i := from;
    while i < |usage|
      invariant from <= i <= |usage|
      invariant First(usage, q, from) == First(usage, q, i)
    {
      var fits;
      match q {
        case Exactly(name) => fits := Streq(usage[i].longopt, name);
        case Abbreviated(name, min) => fits := StreqAbbr(usage[i].longopt, name, min);
        case Letter(ch) => fits := Instr(ch, usage[i].shortopt);
        case Dummy => fits := At(usage[i].shortopt, 0) == '\0' && At(usage[i].longopt, 0) == '\0';
      }
      if fits {
        return;
      }
      i := i + 1;
    }
  }

  /** Which entry a long option selects; `|usage|` for none. */
  function LongIndex(usage: seq<Descriptor>, name: CString, minAbbrev: int): (i: nat)
    ensures i <= |usage|
  {
    var exact := First(usage, Exactly(name), 0);
    if exact < |usage| || minAbbrev <= 0 then exact
    else
      var i1 := First(usage, Abbreviated(name, minAbbrev), 0);
      if i1 < |usage| && First(usage, Abbreviated(name, minAbbrev), i1 + 1) == |usage| then i1 else |usage|
  }

  ghost predicate FirstExact(usage: seq<Descriptor>, name: CString, i: nat) {
    && i < |usage| && Meets(usage[i], Exactly(name))
    && forall j :: 0 <= j < i ==> !Meets(usage[j], Exactly(name))
  }

  ghost predicate OnlyAbbreviation(usage: seq<Descriptor>, name: CString, min: int, i: nat) {
    && min > 0 && i < |usage| && Meets(usage[i], Abbreviated(name, min))
    && (forall j :: 0 <= j < |usage| ==> !Meets(usage[j], Exactly(name)))
    && forall j :: 0 <= j < |usage| && j != i ==> !Meets(usage[j], Abbreviated(name, min))
  }

  /**
    The first exact match wins; failing that, the one entry the abbreviation
    matches; none or several matching entries select nothing.
  */
  lemma LongLookupMeaning(usage: seq<Descriptor>, name: CString, min: int, i: nat)
    requires i < |usage|
    ensures LongIndex(usage, name, min) == i <==> FirstExact(usage, name, i) || OnlyAbbreviation(usage, name, min, i)
  {
  }

  method FindLong(usage: seq<Descriptor>, name: CString, minAbbrev: int) returns (idx: nat)
    ensures idx == LongIndex(usage, name, minAbbrev)
  {
    idx := Scan(usage, Exactly(name), 0);
    if idx == |usage| && minAbbrev > 0 {
      var i1 := Scan(usage, Abbreviated(name, minAbbrev), 0);
      if i1 != |usage| {
        var i2 := Scan(usage, Abbreviated(name, minAbbrev), i1 + 1);
        if i2 == |usage| {
          idx := i1;
        }
      }
    }
  }
}
