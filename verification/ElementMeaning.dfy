/**
  What one option element means, said letter by letter and without the grammar:
  which entry each option selects, what argument is on offer, which options are
  reached, and where the element ends.
*/
module ElementMeaning {
  import opened Basics
  import opened CStrings
  import opened Descriptors
  import opened Grammar

  /** The first entry that is meant for unknown options; the end of the table if there is none. */
  ghost predicate FirstDummy(usage: seq<Descriptor>, d: nat) {
    && d <= |usage| && (d < |usage| ==> usage[d].shortopt == "" && usage[d].longopt == "")
    && forall j :: 0 <= j < d ==> usage[j].shortopt != "" || usage[j].longopt != ""
  }

  /** The first entry that has the letter, or else that for unknown options. */
  ghost predicate LetterSelects(usage: seq<Descriptor>, ch: char, d: nat) {
    if exists j :: 0 <= j < |usage| && ch in usage[j].shortopt then
      d < |usage| && ch in usage[d].shortopt && forall j :: 0 <= j < d ==> ch !in usage[j].shortopt
    else FirstDummy(usage, d)
  }

  /** The first exact match, or else the only abbreviation. */
  ghost predicate NameFinds(usage: seq<Descriptor>, name: CString, min: int, d: nat) {
    FirstExact(usage, name, d) || OnlyAbbreviation(usage, name, min, d)
  }

  /** Failing that, the entry for unknown options. */
  ghost predicate NameSelects(usage: seq<Descriptor>, name: CString, min: int, d: nat) {
    if exists j :: NameFinds(usage, name, min, j) then NameFinds(usage, name, min, d) else FirstDummy(usage, d)
  }

  /** The argument on offer to the first letter of `t`: what follows it in the element, or the next element. */
  ghost predicate OfferedToLetter(t: CString, next: Maybe<CString>, offer: Maybe<CString>) {
    if |t| == 1 then offer == next else offer.Just? && |t| > 1 && t == t[..1] + offer.value
  }

  /** The argument on offer to a long option: what follows the first `=`, or the next element. */
  ghost predicate OfferedToName(name: CString, next: Maybe<CString>, offer: Maybe<CString>) {
    if '=' in name then
      offer.Just? && exists before: string :: '=' !in before && name == before + "=" + offer.value
    else offer == next
  }

  /** The letter at the beginning of `t` selects an entry, whose check function answers `a` to what is on offer. */
  ghost predicate Answers(c: Config, t: CString, next: Maybe<CString>, d: nat, offer: Maybe<CString>, a: ArgStatus) {
    && t != "" && LetterSelects(c.usage, t[0], d) && d < |c.usage| && OfferedToLetter(t, next, offer)
    && a == c.usage[d].check(t, offer, c.msg)
  }

  /** No letter behind this one is looked at. */
  ghost predicate Stops(c: Config, t: CString, next: Maybe<CString>) {
    exists d, offer, a :: Answers(c, t, next, d, offer, a) && (a == ArgOk || a == ArgIllegal)
  }

  predicate Suffix(t: string, s: string) {
    |t| <= |s| && t == s[|s| - |t|..]
  }

  /** The letters of a group from `t` on: all letters in front of them have let the group go on. */
  ghost predicate Reached(c: Config, group: CString, next: Maybe<CString>, t: CString) {
    t != "" && Suffix(t, group) && forall u: CString :: Suffix(u, group) && |u| > |t| ==> !Stops(c, u, next)
  }

  /** What an answer makes of an option. */
  ghost predicate Becomes(p: Parsed, d: nat, name: CString, offer: Maybe<CString>, a: ArgStatus) {
    a != ArgIllegal && p.desc == d && p.name == name && p.arg == if a == ArgOk then offer else Nothing
  }

  ghost predicate IsLetterOf(c: Config, group: CString, next: Maybe<CString>, p: Parsed) {
    && Reached(c, group, next, p.name)
    && exists offer, a :: Answers(c, p.name, next, p.desc, offer, a) && Becomes(p, p.desc, p.name, offer, a)
  }

  /** All options are letters that are reached. */
  ghost predicate AreLetters(c: Config, group: CString, next: Maybe<CString>, options: seq<Parsed>) {
    forall p :: p in options ==> IsLetterOf(c, group, next, p)
  }

  /** All letters that are reached and select an entry are options, unless they are refused. */
  ghost predicate HasLetters(c: Config, group: CString, next: Maybe<CString>, options: seq<Parsed>) {
    forall t, d, offer, a ::
      Reached(c, group, next, t) && Answers(c, t, next, d, offer, a) && a != ArgIllegal ==>
        Parsed(d, t, if a == ArgOk then offer else Nothing) in options
  }

  ghost predicate InTurn(options: seq<Parsed>) {
    forall i, j :: 0 <= i < j < |options| ==> |options[i].name| > |options[j].name|
  }

  ghost predicate IsRefused(c: Config, group: CString, next: Maybe<CString>) {
    exists t, d, offer :: Reached(c, group, next, t) && Answers(c, t, next, d, offer, ArgIllegal)
  }

  /** The last letter has taken the next element. */
  ghost predicate TakesNext(c: Config, group: CString, next: Maybe<CString>) {
    exists t, d, offer ::
      Reached(c, group, next, t) && Answers(c, t, next, d, offer, ArgOk) && |t| == 1 && offer.Just?
  }

  /**
    What a group of letters means: the letters that are reached and select an
    entry are its options, in order, up to one that is refused.
  */
  ghost predicate GroupMeans(c: Config, group: CString, next: Maybe<CString>, r: Reading) {
    && AreLetters(c, group, next, r.options) && HasLetters(c, group, next, r.options) && InTurn(r.options)
    && (!r.legal <==> IsRefused(c, group, next)) && (r.tookNext <==> TakesNext(c, group, next))
  }

  // ---------- Letters ----------

  lemma FirstDummyIs(usage: seq<Descriptor>, d: nat)
    ensures FirstDummy(usage, d) <==> d == First(usage, Dummy, 0)
  {
  }

  lemma LetterSelectsIs(c: Config, ch: char, d: nat)
    requires ch != '\0'
    ensures LetterSelects(c.usage, ch, d) <==> d == ShortEntry(c, ch)
  {
    var first := First(c.usage, Letter(ch), 0);
    FirstDummyIs(c.usage, d);
    forall j | 0 <= j < |c.usage|
      ensures Meets(c.usage[j], Letter(ch)) <==> ch in c.usage[j].shortopt
    {
    }
    if first < |c.usage| {
      assert ch in c.usage[first].shortopt;
    }
  }

  lemma OfferedToLetterIs(t: CString, next: Maybe<CString>, offer: Maybe<CString>)
    requires t != ""
    ensures OfferedToLetter(t, next, offer) <==> offer == if |t| == 1 then next else Just(t[1..])
  {
    if |t| > 1 && OfferedToLetter(t, next, offer) {
      assert t[1..] == (t[..1] + offer.value)[1..] == offer.value;
    }
    assert t == t[..1] + t[1..];
  }

  /** There is one answer to a letter, or none if it selects no entry. */
  lemma AnswerIs(c: Config, t: CString, next: Maybe<CString>, d: nat, offer: Maybe<CString>, a: ArgStatus)
    requires t != ""
    ensures Answers(c, t, next, d, offer, a) <==>
            && d == ShortEntry(c, t[0]) < |c.usage| && offer == (if |t| == 1 then next else Just(t[1..]))
            && a == c.usage[d].check(t, offer, c.msg)
  {
    LetterSelectsIs(c, t[0], d);
    OfferedToLetterIs(t, next, offer);
  }

  lemma SuffixOfRest(t: string, s: string)
    requires s != ""
    ensures Suffix(t, s) <==> t == s || Suffix(t, s[1..])
  {
    if |t| < |s| {
      assert s[1..][|s| - 1 - |t|..] == s[|s| - |t|..];
    }
  }

  /** Behind the first letter, those are reached that are reached in the rest, if it goes on. */
  lemma ReachedInRest(c: Config, group: CString, next: Maybe<CString>, t: CString)
    requires group != ""
    ensures Reached(c, group, next, t) <==> t == group || (!Stops(c, group, next) && Reached(c, group[1..], next, t))
  {
    SuffixOfRest(t, group);
    forall u: CString
      ensures Suffix(u, group) <==> u == group || Suffix(u, group[1..])
    {
      SuffixOfRest(u, group);
    }
  }

  lemma StopsIs(c: Config, t: CString, next: Maybe<CString>)
    requires t != ""
    ensures var d, offer := ShortEntry(c, t[0]), if |t| == 1 then next else Just(t[1..]);
            Stops(c, t, next) <==>
            d < |c.usage| && c.usage[d].check(t, offer, c.msg) in {ArgOk, ArgIllegal}
  {
    var d, offer := ShortEntry(c, t[0]), if |t| == 1 then next else Just(t[1..]);
    if d < |c.usage| {
      AnswerIs(c, t, next, d, offer, c.usage[d].check(t, offer, c.msg));
    }
    if Stops(c, t, next) {
      var d', offer', a :| Answers(c, t, next, d', offer', a) && (a == ArgOk || a == ArgIllegal);
      AnswerIs(c, t, next, d', offer', a);
    }
  }

  /** If the group ends with its first letter, that is the only one reached. */
  lemma OnlyFirstReached(c: Config, group: CString, next: Maybe<CString>)
    requires group != "" && Stops(c, group, next)
    ensures forall t: CString :: Reached(c, group, next, t) <==> t == group
  {
    forall t: CString
      ensures Reached(c, group, next, t) <==> t == group
    {
      ReachedInRest(c, group, next, t);
    }
  }

  lemma GroupEnds(c: Config, group: CString, next: Maybe<CString>)
    requires group != "" && Stops(c, group, next)
    ensures GroupMeans(c, group, next, ReadShort(c, group, next))
  {
    OnlyFirstReached(c, group, next);
    StopsIs(c, group, next);
    var d, offer := ShortEntry(c, group[0]), if |group| == 1 then next else Just(group[1..]);
    var a := c.usage[d].check(group, offer, c.msg);
    AnswerIs(c, group, next, d, offer, a);
    forall d': nat, offer': Maybe<CString>, a' | Answers(c, group, next, d', offer', a')
      ensures d' == d && offer' == offer && a' == a
    {
      AnswerIs(c, group, next, d', offer', a');
    }
    assert Reached(c, group, next, group) && Answers(c, group, next, d, offer, a);
  }

  /** If the group goes on behind its first letter, the others are those of the rest. */
  lemma OthersReached(c: Config, group: CString, next: Maybe<CString>)
    requires group != "" && !Stops(c, group, next)
    ensures forall t: CString :: Reached(c, group, next, t) <==> t == group || Reached(c, group[1..], next, t)
    ensures !Reached(c, group[1..], next, group)
  {
    forall t: CString
      ensures Reached(c, group, next, t) <==> t == group || Reached(c, group[1..], next, t)
    {
      ReachedInRest(c, group, next, t);
    }
  }

  /** The first letter selects no entry, or one that takes no argument. */
  lemma FirstGoesOn(c: Config, group: CString, next: Maybe<CString>)
    requires group != "" && !Stops(c, group, next)
    ensures var d, rest := ShortEntry(c, group[0]), ReadShort(c, group[1..], next);
            && ReadShort(c, group, next)
               == rest.(options := (if d < |c.usage| then [Parsed(d, group, Nothing)] else []) + rest.options)
            && (d < |c.usage| ==> IsLetterOf(c, group, next, Parsed(d, group, Nothing)))
            && forall d': nat, offer: Maybe<CString>, a :: Answers(c, group, next, d', offer, a) ==>
                 d' == d < |c.usage| && a != ArgOk && a != ArgIllegal
  {
    StopsIs(c, group, next);
    ReachedInRest(c, group, next, group);
    var d, offer := ShortEntry(c, group[0]), if |group| == 1 then next else Just(group[1..]);
    forall d': nat, offer': Maybe<CString>, a' | Answers(c, group, next, d', offer', a')
      ensures d' == d < |c.usage| && a' == c.usage[d].check(group, offer, c.msg)
    {
      AnswerIs(c, group, next, d', offer', a');
    }
    if d < |c.usage| {
      var a := c.usage[d].check(group, offer, c.msg);
      AnswerIs(c, group, next, d, offer, a);
      assert Becomes(Parsed(d, group, Nothing), d, group, offer, a);
    } else {
      var rest := ReadShort(c, group[1..], next);
      assert [] + rest.options == rest.options;
    }
  }

  lemma OneMoreInTurn(p: Parsed, options: seq<Parsed>)
    requires InTurn(options) && forall q :: q in options ==> |q.name| < |p.name|
    ensures InTurn([p] + options)
  {
    forall i, j | 0 <= i < j < |[p] + options|
      ensures |([p] + options)[i].name| > |([p] + options)[j].name|
    {
      assert ([p] + options)[j] == options[j - 1];
    }
  }

  lemma GroupGoesOn(c: Config, group: CString, next: Maybe<CString>)
    requires group != "" && !Stops(c, group, next)
    requires GroupMeans(c, group[1..], next, ReadShort(c, group[1..], next))
    ensures GroupMeans(c, group, next, ReadShort(c, group, next))
  {
    var d, rest, r := ShortEntry(c, group[0]), ReadShort(c, group[1..], next), ReadShort(c, group, next);
    OthersReached(c, group, next);
    FirstGoesOn(c, group, next);
    assert AreLetters(c, group, next, r.options);
    if d < |c.usage| {
      OneMoreInTurn(Parsed(d, group, Nothing), rest.options);
    } else {
      assert [] + rest.options == rest.options;
    }
    assert HasLetters(c, group, next, r.options);
    assert IsRefused(c, group, next) <==> IsRefused(c, group[1..], next);
    assert TakesNext(c, group, next) <==> TakesNext(c, group[1..], next);
  }

  /** The grammar of a group is what its letters mean one by one. */
  lemma {:induction false} GroupMeaning(c: Config, group: CString, next: Maybe<CString>)
    ensures GroupMeans(c, group, next, ReadShort(c, group, next))
  {
    if group != "" {
      if Stops(c, group, next) {
        GroupEnds(c, group, next);
      } else {
        GroupMeaning(c, group[1..], next);
        GroupGoesOn(c, group, next);
      }
    }
  }

  // ---------- Long options ----------

  lemma NameFindsOne(usage: seq<Descriptor>, name: CString, min: int)
    ensures forall j: nat :: NameFinds(usage, name, min, j) <==> j == LongIndex(usage, name, min) < |usage|
  {
    forall j: nat
      ensures NameFinds(usage, name, min, j) <==> j == LongIndex(usage, name, min) < |usage|
    {
      if j < |usage| {
        LongLookupMeaning(usage, name, min, j);
      }
    }
  }

  lemma NameSelectsIs(c: Config, name: CString, d: nat)
    ensures NameSelects(c.usage, name, c.minAbbrev, d) <==> d == LongEntry(c, name)
  {
    NameFindsOne(c.usage, name, c.minAbbrev);
    FirstDummyIs(c.usage, d);
    var i := LongIndex(c.usage, name, c.minAbbrev);
    assert NameFinds(c.usage, name, c.minAbbrev, i) <==> i < |c.usage|;
  }

  lemma OfferedToNameIs(name: CString, next: Maybe<CString>, offer: Maybe<CString>)
    ensures OfferedToName(name, next, offer) <==>
            offer == if AttachedPart(name).Just? then AttachedPart(name) else next
  {
    if '=' in name {
      var n := NamePart(name);
      assert name == n + "=" + AttachedPart(name).value;
      if OfferedToName(name, next, offer) {
        var before: string :| '=' !in before && name == before + "=" + offer.value;
        NamePartUnique(name, before);
        assert offer.value == name[|before| + 1..];
      }
    }
  }

  /** The long option's name selects an entry, whose check function answers `a` to what is on offer. */
  ghost predicate AnswersName(c: Config, elem: CString, name: CString, next: Maybe<CString>, d: nat,
                              offer: Maybe<CString>, a: ArgStatus) {
    && NameSelects(c.usage, name, c.minAbbrev, d) && d < |c.usage| && OfferedToName(name, next, offer)
    && a == c.usage[d].check(elem, offer, c.msg)
  }

  ghost predicate IsNamed(c: Config, elem: CString, name: CString, next: Maybe<CString>, p: Parsed) {
    exists offer, a :: AnswersName(c, elem, name, next, p.desc, offer, a) && Becomes(p, p.desc, elem, offer, a)
  }

  /** What an element with a long option means: the option, unless no entry is selected or it is refused. */
  ghost predicate LongMeans(c: Config, elem: CString, name: CString, next: Maybe<CString>, r: Reading) {
    && |r.options| <= 1 && (forall p :: p in r.options ==> IsNamed(c, elem, name, next, p))
    && (forall d, offer, a :: AnswersName(c, elem, name, next, d, offer, a) && a != ArgIllegal ==>
          Parsed(d, elem, if a == ArgOk then offer else Nothing) in r.options)
    && (!r.legal <==> exists d, offer :: AnswersName(c, elem, name, next, d, offer, ArgIllegal))
    && (r.tookNext <==> '=' !in name && next.Just?
                        && exists d :: AnswersName(c, elem, name, next, d, next, ArgOk))
  }

  lemma AnswerToNameIs(c: Config, elem: CString, name: CString, next: Maybe<CString>, d: nat, offer: Maybe<CString>,
                       a: ArgStatus)
    ensures AnswersName(c, elem, name, next, d, offer, a) <==>
            && d == LongEntry(c, name) < |c.usage|
            && offer == (if AttachedPart(name).Just? then AttachedPart(name) else next)
            && a == c.usage[d].check(elem, offer, c.msg)
  {
    NameSelectsIs(c, name, d);
    OfferedToNameIs(name, next, offer);
  }

  lemma OneAnswerToName(c: Config, elem: CString, name: CString, next: Maybe<CString>)
    ensures var d, offer := LongEntry(c, name), if AttachedPart(name).Just? then AttachedPart(name) else next;
            forall d': nat, offer': Maybe<CString>, a :: AnswersName(c, elem, name, next, d', offer', a) <==>
              d' == d < |c.usage| && offer' == offer && a == c.usage[d].check(elem, offer, c.msg)
  {
    var d, offer := LongEntry(c, name), if AttachedPart(name).Just? then AttachedPart(name) else next;
    forall d': nat, offer': Maybe<CString>, a
      ensures AnswersName(c, elem, name, next, d', offer', a) <==>
              && d' == d < |c.usage| && offer' == offer && a == c.usage[d].check(elem, offer, c.msg)
    {
      AnswerToNameIs(c, elem, name, next, d', offer', a);
    }
  }

  lemma LongMeaning(c: Config, elem: CString, skip: nat, next: Maybe<CString>)
    requires skip <= |elem|
    ensures LongMeans(c, elem, elem[skip..], next, ReadLong(c, elem, skip, next))
  {
    var name := elem[skip..];
    var d, offer := LongEntry(c, name), if AttachedPart(name).Just? then AttachedPart(name) else next;
    OneAnswerToName(c, elem, name, next);
    if d < |c.usage| {
      var a := c.usage[d].check(elem, offer, c.msg);
      assert AnswersName(c, elem, name, next, d, offer, a);
      var p := Parsed(d, elem, if a == ArgOk then offer else Nothing);
      assert a != ArgIllegal ==> Becomes(p, d, elem, offer, a);
    }
  }

  // ---------- Elements ----------

  /**
    What an element means: behind two minuses, or behind one where that is
    allowed and the name selects an entry by itself, a long option; else a group.
  */
  ghost predicate ElementMeans(c: Config, elem: CString, next: Maybe<CString>, r: Reading)
    requires HoldsOptions(elem)
  {
    if "--" <= elem then LongMeans(c, elem, elem[2..], next, r)
    else if c.singleMinus && exists j :: NameFinds(c.usage, elem[1..], c.minAbbrev, j) then
      LongMeans(c, elem, elem[1..], next, r)
    else GroupMeans(c, elem[1..], next, r)
  }

  lemma ReadMeaning(c: Config, elem: CString, next: Maybe<CString>)
    requires HoldsOptions(elem)
    ensures ElementMeans(c, elem, next, Read(c, elem, next))
  {
    assert "--" <= elem <==> elem[1] == '-';
    NameFindsOne(c.usage, elem[1..], c.minAbbrev);
    var i := LongIndex(c.usage, elem[1..], c.minAbbrev);
    assert NameFinds(c.usage, elem[1..], c.minAbbrev, i) <==> i < |c.usage|;
    if elem[1] == '-' {
      LongMeaning(c, elem, 2, next);
    } else if c.singleMinus && i < |c.usage| {
      LongMeaning(c, elem, 1, next);
    } else {
      GroupMeaning(c, elem[1..], next);
    }
  }
}
