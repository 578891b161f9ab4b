/**
  What an argument vector means, said element by element: which role each of
  them has, by a rule about it and its neighbours, and what the outcome of a
  parse is in terms of the roles.
*/
module VectorMeaning {
  import opened Basics
  import opened CStrings
  import opened Descriptors
  import opened Grammar
  import opened Sequences

  datatype Role = OPTIONS | ARGUMENT | PLAIN | END | REFUSED | UNREAD

  function After(v: seq<CString>, i: nat): Maybe<CString>
    requires i < |v|
  {
    if i + 1 < |v| then Just(v[i + 1]) else Nothing
  }

  /** The rule for one element. */
  ghost predicate RoleFits(read: Reader, gnu: bool, v: seq<CString>, roles: seq<Role>, i: nat)
    requires i < |v| && i < |roles|
  {
    if i > 0 && roles[i - 1] in {END, REFUSED, UNREAD} then roles[i] == UNREAD
    else if i > 0 && roles[i - 1] == OPTIONS && read(v[i - 1], Just(v[i])).tookNext then roles[i] == ARGUMENT
    else if v[i] == "--" then roles[i] == END
    else if |v[i]| < 2 || v[i][0] != '-' then roles[i] == if gnu then PLAIN else UNREAD
    else roles[i] == if read(v[i], After(v, i)).legal then OPTIONS else REFUSED
  }

  ghost predicate RolesFit(read: Reader, gnu: bool, v: seq<CString>, roles: seq<Role>) {
    |v| == |roles| && forall i :: 0 <= i < |v| ==> RoleFits(read, gnu, v, roles, i)
  }

  /** The elements with certain roles, in order. */
  function Chosen(v: seq<CString>, roles: seq<Role>, which: set<Role>): (r: seq<CString>)
    requires |v| == |roles|
  {
    if v == [] then [] else (if roles[0] in which then v[..1] else []) + Chosen(v[1..], roles[1..], which)
  }

  /** The options of the elements that hold options, in order. */
  function OptionsOf(read: Reader, v: seq<CString>, roles: seq<Role>): (r: seq<Parsed>)
    requires |v| == |roles|
  {
    if v == [] then []
    else (if roles[0] in {OPTIONS, REFUSED} then read(v[0], After(v, 0)).options else [])
         + OptionsOf(read, v[1..], roles[1..])
  }

  /** An outcome in terms of the roles. */
  ghost predicate Amounts(read: Reader, v: seq<CString>, roles: seq<Role>, out: Outcome, unread: seq<CString>)
    requires |v| == |roles|
  {
    && out.options == OptionsOf(read, v, roles) && (out.legal <==> REFUSED !in roles)
    && out.front == Chosen(v, roles, {OPTIONS, ARGUMENT, END})
    && out.nonOptions == Chosen(v, roles, {PLAIN}) + (if out.legal then Chosen(v, roles, {UNREAD}) else [])
    && out.rest == (if out.legal then [] else Chosen(v, roles, {REFUSED, UNREAD}))
    && unread == Chosen(v, roles, {REFUSED, UNREAD})
  }

  lemma {:induction false} AllUnread(read: Reader, v: seq<CString>, roles: seq<Role>)
    requires |v| == |roles| && forall i :: 0 <= i < |v| ==> roles[i] == UNREAD
    ensures Chosen(v, roles, {UNREAD}) == v && Chosen(v, roles, {REFUSED, UNREAD}) == v
    ensures Chosen(v, roles, {PLAIN}) == [] && Chosen(v, roles, {OPTIONS, ARGUMENT, END}) == []
    ensures OptionsOf(read, v, roles) == []
  {
    if v != [] {
      AllUnread(read, v[1..], roles[1..]);
    }
  }

  /** Behind an element that ends the parse, no element is read. */
  lemma {:induction false} UnreadBehind(read: Reader, gnu: bool, v: seq<CString>, roles: seq<Role>, i: nat)
    requires RolesFit(read, gnu, v, roles) && i < |v| && roles[i] in {END, REFUSED, UNREAD}
    ensures forall j :: i < j < |v| ==> roles[j] == UNREAD
    decreases |v| - i
  {
    if i + 1 < |v| {
      assert RoleFits(read, gnu, v, roles, i + 1);
      UnreadBehind(read, gnu, v, roles, i + 1);
    }
  }

  /** The rules are the same for a vector that begins behind a whole option or a non-option. */
  lemma RolesBehind(read: Reader, gnu: bool, v: seq<CString>, roles: seq<Role>, k: nat)
    requires RolesFit(read, gnu, v, roles) && 1 <= k <= |v|
    requires roles[k - 1] in {ARGUMENT, PLAIN}
             || (roles[k - 1] == OPTIONS && (k < |v| ==> !read(v[k - 1], Just(v[k])).tookNext))
    ensures RolesFit(read, gnu, v[k..], roles[k..])
  {
    forall i | 0 <= i < |v[k..]|
      ensures RoleFits(read, gnu, v[k..], roles[k..], i)
    {
      assert RoleFits(read, gnu, v, roles, k + i);
    }
  }

  lemma RefusedFirst(roles: seq<Role>)
    requires roles != [] && forall i :: 0 < i < |roles| ==> roles[i] == UNREAD
    ensures REFUSED in roles <==> roles[0] == REFUSED
  {
  }

  /** What is chosen: the first element or not, and what is chosen of the rest. */
  lemma ChosenBehind(v: seq<CString>, roles: seq<Role>, which: set<Role>)
    requires |v| == |roles| > 0
    ensures Chosen(v, roles, which) == (if roles[0] in which then v[..1] else []) + Chosen(v[1..], roles[1..], which)
  {
  }

  lemma AllChosenBehind(v: seq<CString>, roles: seq<Role>)
    requires |v| == |roles| > 0
    ensures var head, w, others := v[..1], v[1..], roles[1..];
            && Chosen(v, roles, {OPTIONS, ARGUMENT, END})
               == (if roles[0] in {OPTIONS, ARGUMENT, END} then head else [])
                  + Chosen(w, others, {OPTIONS, ARGUMENT, END})
            && Chosen(v, roles, {PLAIN}) == (if roles[0] == PLAIN then head else []) + Chosen(w, others, {PLAIN})
            && Chosen(v, roles, {UNREAD}) == (if roles[0] == UNREAD then head else []) + Chosen(w, others, {UNREAD})
            && Chosen(v, roles, {REFUSED, UNREAD})
               == (if roles[0] in {REFUSED, UNREAD} then head else []) + Chosen(w, others, {REFUSED, UNREAD})
  {
    ChosenBehind(v, roles, {OPTIONS, ARGUMENT, END});
    ChosenBehind(v, roles, {PLAIN});
    ChosenBehind(v, roles, {UNREAD});
    ChosenBehind(v, roles, {REFUSED, UNREAD});
  }

  lemma OptionsBehind(read: Reader, v: seq<CString>, roles: seq<Role>)
    requires |v| == |roles| > 0
    ensures OptionsOf(read, v, roles)
            == (if roles[0] in {OPTIONS, REFUSED} then read(v[0], After(v, 0)).options else [])
               + OptionsOf(read, v[1..], roles[1..])
  {
  }

  /** What the roles amount to if no element behind the first one is read. */
  lemma NothingMoreRead(read: Reader, v: seq<CString>, roles: seq<Role>)
    requires |v| == |roles| > 0 && roles[0] in {END, REFUSED, UNREAD}
    requires forall i :: 0 < i < |v| ==> roles[i] == UNREAD
    ensures Amounts(read, v, roles,
                    match roles[0]
                    case END => Outcome([], v[..1], v[1..], [], true)
                    case REFUSED => Outcome(read(v[0], After(v, 0)).options, [], [], v, false)
                    case _ => Outcome([], [], v, [], true),
                    if roles[0] == END then v[1..] else v)
  {
    RefusedFirst(roles);
    AllUnread(read, v[1..], roles[1..]);
    assert v[..1] + v[1..] == v && [] + v[1..] == v[1..];
    AllChosenBehind(v, roles);
    OptionsBehind(read, v, roles);
  }

  /** Where the first element ends the parse, with nothing or something in it read. */
  lemma EndsAtOnce(read: Reader, gnu: bool, v: seq<CString>, roles: seq<Role>)
    requires RolesFit(read, gnu, v, roles) && v != [] && roles[0] in {END, REFUSED, UNREAD}
    ensures Amounts(read, v, roles, ParseArgs(read, gnu, v), Unread(read, gnu, v))
  {
    assert RoleFits(read, gnu, v, roles, 0);
    UnreadBehind(read, gnu, v, roles, 0);
    NothingMoreRead(read, v, roles);
  }

  lemma RefusedBehind(roles: seq<Role>)
    requires roles != [] && roles[0] != REFUSED
    ensures REFUSED in roles <==> REFUSED in roles[1..]
  {
    assert roles == roles[..1] + roles[1..];
  }

  /** What a non-option in front adds. */
  lemma PlainInFront(read: Reader, v: seq<CString>, roles: seq<Role>, more: Outcome, unread: seq<CString>)
    requires |v| == |roles| > 0 && roles[0] == PLAIN && Amounts(read, v[1..], roles[1..], more, unread)
    ensures Amounts(read, v, roles, more.(nonOptions := v[..1] + more.nonOptions), unread)
  {
    RefusedBehind(roles);
    Associative(v[..1], Chosen(v[1..], roles[1..], {PLAIN}),
                if more.legal then Chosen(v[1..], roles[1..], {UNREAD}) else []);
    AllChosenBehind(v, roles);
    OptionsBehind(read, v, roles);
  }

  /** What an element with options in front adds. */
  lemma OptionsInFront(read: Reader, v: seq<CString>, roles: seq<Role>, more: Outcome, unread: seq<CString>)
    requires |v| == |roles| > 0 && roles[0] == OPTIONS && Amounts(read, v[1..], roles[1..], more, unread)
    ensures Amounts(read, v, roles,
                    more.(options := read(v[0], After(v, 0)).options + more.options, front := v[..1] + more.front),
                    unread)
  {
    RefusedBehind(roles);
    AllChosenBehind(v, roles);
    OptionsBehind(read, v, roles);
  }

  /** What an argument in front adds. */
  lemma ArgumentInFront(read: Reader, v: seq<CString>, roles: seq<Role>, more: Outcome, unread: seq<CString>)
    requires |v| == |roles| > 0 && roles[0] == ARGUMENT && Amounts(read, v[1..], roles[1..], more, unread)
    ensures Amounts(read, v, roles, more.(front := v[..1] + more.front), unread)
  {
    RefusedBehind(roles);
    AllChosenBehind(v, roles);
    OptionsBehind(read, v, roles);
  }

  /** An element with options, and the argument that it takes. */
  lemma WithArgument(read: Reader, v: seq<CString>, roles: seq<Role>, more: Outcome, unread: seq<CString>)
    requires |v| == |roles| > 1 && roles[0] == OPTIONS && roles[1] == ARGUMENT
    requires Amounts(read, v[2..], roles[2..], more, unread)
    ensures Amounts(read, v, roles,
                    more.(options := read(v[0], After(v, 0)).options + more.options, front := v[..2] + more.front),
                    unread)
  {
    assert v[1..][1..] == v[2..] && roles[1..][1..] == roles[2..] && v[..2] == v[..1] + v[1..][..1];
    ArgumentInFront(read, v[1..], roles[1..], more, unread);
    OptionsInFront(read, v, roles, more.(front := v[1..][..1] + more.front), unread);
    Associative(v[..1], v[1..][..1], more.front);
  }

  /** The outcome of a parse is what the roles of the elements amount to. */
  lemma {:induction false} ParseMeaning(read: Reader, gnu: bool, v: seq<CString>, roles: seq<Role>)
    requires RolesFit(read, gnu, v, roles)
    ensures Amounts(read, v, roles, ParseArgs(read, gnu, v), Unread(read, gnu, v))
    decreases |v|, 1
  {
    if v != [] {
      assert RoleFits(read, gnu, v, roles, 0);
      if roles[0] == PLAIN {
        RolesBehind(read, gnu, v, roles, 1);
        ParseMeaning(read, gnu, v[1..], roles[1..]);
        PlainInFront(read, v, roles, ParseArgs(read, gnu, v[1..]), Unread(read, gnu, v[1..]));
      } else if roles[0] == OPTIONS {
        OptionMeaning(read, gnu, v, roles);
      } else {
        EndsAtOnce(read, gnu, v, roles);
      }
    }
  }

  lemma {:induction false} OptionMeaning(read: Reader, gnu: bool, v: seq<CString>, roles: seq<Role>)
    requires RolesFit(read, gnu, v, roles) && v != [] && roles[0] == OPTIONS && HoldsOptions(v[0])
             && ReadHead(read, v).legal
    ensures Amounts(read, v, roles, ParseArgs(read, gnu, v), Unread(read, gnu, v))
    decreases |v|, 0
  {
    var k := ElementsTaken(read, v);
    if |v| > 1 {
      assert RoleFits(read, gnu, v, roles, 1);
    }
    RolesBehind(read, gnu, v, roles, k);
    ParseMeaning(read, gnu, v[k..], roles[k..]);
    if k == 1 {
      OptionsInFront(read, v, roles, ParseArgs(read, gnu, v[1..]), Unread(read, gnu, v[1..]));
    } else {
      WithArgument(read, v, roles, ParseArgs(read, gnu, v[2..]), Unread(read, gnu, v[2..]));
    }
  }

  /** Every element has a role. */
  lemma EveryElementHasARole(read: Reader, gnu: bool, v: seq<CString>) returns (roles: seq<Role>)
    ensures RolesFit(read, gnu, v, roles)
  {
    roles := [];
    for i := 0 to |v|
      invariant |roles| == i && forall j :: 0 <= j < i ==> RoleFits(read, gnu, v, roles, j)
    {
      var role := if i > 0 && roles[i - 1] in {END, REFUSED, UNREAD} then UNREAD
                  else if i > 0 && roles[i - 1] == OPTIONS && read(v[i - 1], Just(v[i])).tookNext then ARGUMENT
                  else if v[i] == "--" then END
                  else if |v[i]| < 2 || v[i][0] != '-' then if gnu then PLAIN else UNREAD
                  else if read(v[i], After(v, i)).legal then OPTIONS else REFUSED;
      ghost var before := roles;
      roles := roles + [role];
      assert forall j :: 0 <= j < i ==> RoleFits(read, gnu, v, before, j) ==> RoleFits(read, gnu, v, roles, j);
    }
  }

  /** There is one way only to follow the rules. */
  lemma {:induction false} RolesAreUnique(read: Reader, gnu: bool, v: seq<CString>, roles: seq<Role>,
                                          others: seq<Role>, n: nat)
    requires RolesFit(read, gnu, v, roles) && RolesFit(read, gnu, v, others) && n <= |v|
    ensures roles[..n] == others[..n]
    decreases n
  {
    if n > 0 {
      RolesAreUnique(read, gnu, v, roles, others, n - 1);
      assert RoleFits(read, gnu, v, roles, n - 1) && RoleFits(read, gnu, v, others, n - 1);
      assert n > 1 ==> roles[..n - 1][n - 2] == others[..n - 1][n - 2];
      assert roles[..n] == roles[..n - 1] + [roles[n - 1]] && others[..n] == others[..n - 1] + [others[n - 1]];
    }
  }
}
