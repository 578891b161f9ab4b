/**
  The two arrays a parser fills: `buffer` holds every parsed option in
  command-line order, and `options[i]` starts the list of those with index i.
  Only the first node of such a list lies in `options`; the others are the
  nodes of `buffer` themselves.
*/
module OptionTables {
  import opened Basics
  import opened CStrings
  import opened Descriptors
  import opened Grammar
  import opened OptionList
  import opened Sequences

  function IndexOf(usage: seq<Descriptor>, p: Parsed): Index
    requires p.desc < |usage|
  {
    usage[p.desc].index
  }

  /** Options that the table knows, whose index has a slot in `options`. */
  ghost predicate Storable(usage: seq<Descriptor>, slots: nat, stored: seq<Parsed>) {
    forall p :: p in stored ==> p.desc < |usage| && IndexOf(usage, p) < slots && p.name != ""
  }

  /** The parsed options with index `i`, in order. */
  function Selected(usage: seq<Descriptor>, stored: seq<Parsed>, i: nat): (sel: seq<Parsed>)
    requires forall p :: p in stored ==> p.desc < |usage|
  {
    if stored == [] then [] else
      var n := |stored| - 1;
      Selected(usage, stored[..n], i) + if IndexOf(usage, stored[n]) == i then [stored[n]] else []
  }

  /** The nodes of list `i`: its slot in `options`, then the buffer nodes of its later occurrences. */
  ghost function Chain(usage: seq<Descriptor>, options: seq<Option>, buffer: seq<Option>, stored: seq<Parsed>, i: nat)
      : (nodes: seq<Option>)
    requires i < |options| && |stored| <= |buffer|
    requires forall p :: p in stored ==> p.desc < |usage|
    ensures nodes != [] && nodes[0] == options[i]
    ensures forall o :: o in nodes ==> o == options[i] || o in buffer[..|stored|]
    ensures forall o :: o in nodes ==> o in options || o in buffer
  {
    if stored == [] then [options[i]] else
      var n := |stored| - 1;
      var nodes := Chain(usage, options, buffer, stored[..n], i);
      if IndexOf(usage, stored[n]) == i && Selected(usage, stored[..n], i) != [] then nodes + [buffer[n]] else nodes
  }

  /** The nodes form one list that carries the given options in order; an empty list is one unused node. */
  ghost predicate CarryAll(nodes: seq<Option>, sel: seq<Parsed>)
    reads set o | o in nodes
  {
    && IsRing(nodes)
    && if sel == [] then |nodes| == 1 && nodes[0].desc.Nothing?
       else |nodes| == |sel| && forall k :: 0 <= k < |sel| ==> nodes[k].Carries(sel[k])
  }

  ghost predicate Distinct(nodes: seq<Option>) {
    forall i, j :: 0 <= i < j < |nodes| ==> nodes[i] != nodes[j]
  }

  /** The buffer holds `stored` and nothing else. */
  ghost predicate BufferHolds(buffer: seq<Option>, stored: seq<Parsed>)
    reads set o | o in buffer
  {
    && |stored| <= |buffer|
    && (forall k :: 0 <= k < |stored| ==> buffer[k].Carries(stored[k]))
    && forall k :: |stored| <= k < |buffer| ==> buffer[k].desc.Nothing?
  }

  /** List `i` holds the stored options with index `i`, in order. */
  ghost predicate ListHolds(
    usage: seq<Descriptor>, options: seq<Option>, buffer: seq<Option>, stored: seq<Parsed>, i: nat)
    requires i < |options| && |stored| <= |buffer|
    requires forall p :: p in stored ==> p.desc < |usage|
    reads set o | o in options, set o | o in buffer
  {
    var nodes := Chain(usage, options, buffer, stored, i);
    assert forall o :: o in nodes ==> o in options || o in buffer;
    CarryAll(nodes, Selected(usage, stored, i))
  }

  ghost predicate Separate(options: seq<Option>, buffer: seq<Option>) {
    && Distinct(options) && Distinct(buffer)
    && forall o :: o in options ==> o !in buffer
  }

  ghost predicate Tables(usage: seq<Descriptor>, options: seq<Option>, buffer: seq<Option>, stored: seq<Parsed>)
    reads set o | o in options, set o | o in buffer
  {
    && Separate(options, buffer)
    && Storable(usage, |options|, stored)
    && BufferHolds(buffer, stored)
    && forall i :: 0 <= i < |options| ==> ListHolds(usage, options, buffer, stored, i)
  }

  /** The arrays hold exactly the options `stored`. */
  ghost predicate TablesHold(usage: seq<Descriptor>, options: seq<Option>, buffer: seq<Option>, stored: seq<Parsed>)
    reads set o | o in options, set o | o in buffer
  {
    forall k {:trigger Key(k)} :: Key(k) ==> Tables(usage, options, buffer, stored)
  }

  lemma {:induction false} ChainMembers(
    usage: seq<Descriptor>, options: seq<Option>, buffer: seq<Option>, stored: seq<Parsed>, i: nat)
    requires i < |options| && |stored| <= |buffer|
    requires forall p :: p in stored ==> p.desc < |usage|
    ensures forall o :: o in Chain(usage, options, buffer, stored, i) ==>
      o == options[i] || exists k :: 0 <= k < |stored| && IndexOf(usage, stored[k]) == i && o == buffer[k]
  {
    if stored != [] {
      var n := |stored| - 1;
      ChainMembers(usage, options, buffer, stored[..n], i);
      forall o | o in Chain(usage, options, buffer, stored, i) && o != options[i]
        ensures exists k :: 0 <= k < |stored| && IndexOf(usage, stored[k]) == i && o == buffer[k]
      {
        if o in Chain(usage, options, buffer, stored[..n], i) {
          var k :| 0 <= k < n && IndexOf(usage, stored[..n][k]) == i && o == buffer[k];
          assert stored[k] == stored[..n][k];
        } else {
          assert o == buffer[n];
        }
      }
    }
  }

  /** Lists of different indices share no node. */
  lemma ListsAreDisjoint(
    usage: seq<Descriptor>, options: seq<Option>, buffer: seq<Option>, stored: seq<Parsed>, i: nat, j: nat)
    requires Tables(usage, options, buffer, stored)
    requires i < |options| && j < |options| && i != j
    ensures forall o :: o in Chain(usage, options, buffer, stored, i) ==> o !in Chain(usage, options, buffer, stored, j)
  {
    ChainMembers(usage, options, buffer, stored, i);
    ChainMembers(usage, options, buffer, stored, j);
    forall o | o in Chain(usage, options, buffer, stored, i)
      ensures o !in Chain(usage, options, buffer, stored, j)
    {
      if o != options[i] {
        var k :| 0 <= k < |stored| && IndexOf(usage, stored[k]) == i && o == buffer[k];
        assert o in buffer;
      } else {
        assert o in options;
      }
    }
  }

  /** The rest of the buffer lies outside list `i`, and its used part outside the heads of the lists. */
  lemma BufferOutside(
    usage: seq<Descriptor>, options: seq<Option>, buffer: seq<Option>, stored: seq<Parsed>, i: nat)
    requires Tables(usage, options, buffer, stored) && i < |options|
    ensures forall k :: |stored| <= k < |buffer| ==> buffer[k] !in Chain(usage, options, buffer, stored, i)
    ensures forall k :: 0 <= k < |buffer| ==> buffer[k] != options[i]
  {
    forall k | 0 <= k < |buffer|
      ensures buffer[k] != options[i]
      ensures |stored| <= k ==> buffer[k] !in Chain(usage, options, buffer, stored, i)
    {
      assert buffer[k] in buffer && options[i] in options;
    }
  }

  ghost function Lists(usage: seq<Descriptor>, options: seq<Option>, buffer: seq<Option>, stored: seq<Parsed>)
      : (lists: seq<seq<Option>>)
    requires |stored| <= |buffer| && forall p :: p in stored ==> p.desc < |usage|
  {
    seq(|options|, i requires 0 <= i < |options| => Chain(usage, options, buffer, stored, i))
  }

  ghost function Selections(usage: seq<Descriptor>, slots: nat, stored: seq<Parsed>): (sels: seq<seq<Parsed>>)
    requires forall p :: p in stored ==> p.desc < |usage|
  {
    seq(slots, i requires 0 <= i < slots => Selected(usage, stored, i))
  }

  lemma StoreListsApart(
    usage: seq<Descriptor>, options: seq<Option>, buffer: seq<Option>, stored: seq<Parsed>, idx: nat)
    requires Tables(usage, options, buffer, stored) && |stored| < |buffer| && idx < |options|
    ensures AllCarry(Lists(usage, options, buffer, stored), Selections(usage, |options|, stored))
    ensures Unshared(Lists(usage, options, buffer, stored), idx, buffer[|stored|])
  {
    forall i | 0 <= i < |options|
      ensures CarryAll(Chain(usage, options, buffer, stored, i), Selected(usage, stored, i))
      ensures buffer[|stored|] !in Chain(usage, options, buffer, stored, i)
      ensures i != idx ==> forall o :: o in Chain(usage, options, buffer, stored, i) ==>
                             o !in Chain(usage, options, buffer, stored, idx)
    {
      assert ListHolds(usage, options, buffer, stored, i);
      BufferOutside(usage, options, buffer, stored, i);
      if i != idx {
        ListsAreDisjoint(usage, options, buffer, stored, i, idx);
      }
    }
  }

  /** One more option makes the list of its index longer and no other. */
  lemma MoreLists(usage: seq<Descriptor>, options: seq<Option>, buffer: seq<Option>, stored: seq<Parsed>, p: Parsed)
    requires Storable(usage, |options|, stored + [p]) && |stored| < |buffer|
    ensures forall q :: q in stored + [p] ==> q.desc < |usage|
    ensures p.desc < |usage| && IndexOf(usage, p) < |options|
    ensures var idx := IndexOf(usage, p);
            var lists, sels := Lists(usage, options, buffer, stored), Selections(usage, |options|, stored);
            && Lists(usage, options, buffer, stored + [p])
               == lists[idx := if sels[idx] == [] then lists[idx] else lists[idx] + [buffer[|stored|]]]
            && Selections(usage, |options|, stored + [p]) == sels[idx := sels[idx] + [p]]
  {
    assert p in stored + [p];
    var more := stored + [p];
    assert more[..|stored|] == stored;
    var idx := IndexOf(usage, p);
    var lists, sels := Lists(usage, options, buffer, stored), Selections(usage, |options|, stored);
    forall i | 0 <= i < |options|
      ensures Selected(usage, more, i) == if i == idx then sels[i] + [p] else sels[i]
      ensures Chain(usage, options, buffer, more, i)
              == if i == idx && sels[i] != [] then lists[i] + [buffer[|stored|]] else lists[i]
    {
    }
  }

  /** Copies `p` to the unused node `slot` and makes it the last element of the list that `head` starts. */
  method Link(head: Option, slot: Option, p: Parsed, ghost nodes: seq<Option>, ghost sel: seq<Parsed>)
    requires CarryAll(nodes, sel) && nodes[0] == head && slot !in nodes && p.name != ""
    modifies slot, head, set o | o in nodes :: o`next, set o | o in nodes :: o`prev
    ensures CarryAll(if sel == [] then nodes else nodes + [slot], sel + [p])
    ensures slot.Carries(p)
  {
    slot.Init(p);
    if head.desc.Just? {
      head.Append(slot, nodes);
    } else {
      assert nodes == [head];
      head.Init(p);
    }
  }

  /** All lists side by side; `Link` at one of them leaves the others alone. */
  ghost predicate AllCarry(lists: seq<seq<Option>>, sels: seq<seq<Parsed>>)
    reads set i, o | 0 <= i < |lists| && o in lists[i] :: o
  {
    && |lists| == |sels|
    && forall i :: 0 <= i < |lists| ==> CarryAll(lists[i], sels[i])
  }

  /** The nodes that storing at list `idx` touches belong to no other list. */
  ghost predicate Unshared(lists: seq<seq<Option>>, idx: nat, slot: Option)
    requires idx < |lists|
  {
    forall i :: 0 <= i < |lists| ==>
      slot !in lists[i] && (i != idx ==> forall o :: o in lists[i] ==> o !in lists[idx])
  }

  method LinkAmong(head: Option, slot: Option, p: Parsed, ghost idx: nat,
                   ghost lists: seq<seq<Option>>, ghost sels: seq<seq<Parsed>>)
    requires AllCarry(lists, sels) && idx < |lists| && Unshared(lists, idx, slot)
    requires lists[idx][0] == head && p.name != ""
    modifies slot, head, set o | o in lists[idx] :: o`next, set o | o in lists[idx] :: o`prev
    ensures AllCarry(lists[idx := if sels[idx] == [] then lists[idx] else lists[idx] + [slot]],
                     sels[idx := sels[idx] + [p]])
    ensures slot.Carries(p)
  {
    Link(head, slot, p, lists[idx], sels[idx]);
  }

  lemma ListsHold(usage: seq<Descriptor>, options: seq<Option>, buffer: seq<Option>, stored: seq<Parsed>)
    requires |stored| <= |buffer| && forall p :: p in stored ==> p.desc < |usage|
    requires AllCarry(Lists(usage, options, buffer, stored), Selections(usage, |options|, stored))
    ensures forall i :: 0 <= i < |options| ==> ListHolds(usage, options, buffer, stored, i)
  {
    forall i | 0 <= i < |options|
      ensures ListHolds(usage, options, buffer, stored, i)
    {
      assert CarryAll(Lists(usage, options, buffer, stored)[i], Selections(usage, |options|, stored)[i]);
    }
  }

  /** Stores one more option: copies it into the buffer and into or behind the list of its index. */
  method Store(usage: seq<Descriptor>, options: seq<Option>, buffer: seq<Option>, n: nat, p: Parsed,
               ghost stored: seq<Parsed>)
    requires TablesHold(usage, options, buffer, stored)
    requires n == |stored| < |buffer| && Storable(usage, |options|, [p])
    modifies (set o | o in options), (set o | o in buffer)
    ensures TablesHold(usage, options, buffer, stored + [p])
  {
    assert Key(0);
    assert p in [p];
    var idx := IndexOf(usage, p);
    ghost var lists, sels := Lists(usage, options, buffer, stored), Selections(usage, |options|, stored);
    StoreListsApart(usage, options, buffer, stored, idx);
    BufferOutside(usage, options, buffer, stored, idx);
    LinkAmong(options[idx], buffer[n], p, idx, lists, sels);
    MoreLists(usage, options, buffer, stored, p);
    ListsHold(usage, options, buffer, stored + [p]);
  }

  /** How often the options of index `i` occurred, asked of any node of its list. */
  method Occurrences(
    usage: seq<Descriptor>, options: seq<Option>, buffer: seq<Option>, i: nat, ghost stored: seq<Parsed>)
    returns (count: nat)
    requires Tables(usage, options, buffer, stored) && i < |options|
    ensures count == |Selected(usage, stored, i)|
  {
    ghost var nodes := Chain(usage, options, buffer, stored, i);
    assert ListHolds(usage, options, buffer, stored, i);
    count := options[i].Count(nodes);
  }

  // ---------- What the lists are, place by place ----------

  /** The option's entry has index `i`. */
  predicate HasIndex(usage: seq<Descriptor>, p: Parsed, i: nat) {
    p.desc < |usage| && usage[p.desc].index == i
  }

  /** `ks` are the places of the stored options whose entry has index `i`, all of them and in order. */
  ghost predicate ArePlaces(usage: seq<Descriptor>, stored: seq<Parsed>, i: nat, ks: seq<nat>) {
    && (forall m, n :: 0 <= m < n < |ks| ==> ks[m] < ks[n])
    && (forall k :: k in ks ==> k < |stored| && HasIndex(usage, stored[k], i))
    && forall k :: 0 <= k < |stored| && HasIndex(usage, stored[k], i) ==> k in ks
  }

  /** One more place, or not. */
  lemma PlacesMore(usage: seq<Descriptor>, stored: seq<Parsed>, p: Parsed, i: nat, ks: seq<nat>)
    requires ArePlaces(usage, stored, i, ks)
    ensures ArePlaces(usage, stored + [p], i, if HasIndex(usage, p, i) then ks + [|stored|] else ks)
  {
    var more := if HasIndex(usage, p, i) then ks + [|stored|] else ks;
    forall k | 0 <= k < |stored + [p]| && HasIndex(usage, (stored + [p])[k], i)
      ensures k in more
    {
      if k < |stored| {
        assert (stored + [p])[k] == stored[k];
      }
    }
    forall m, n | 0 <= m < n < |more|
      ensures more[m] < more[n]
    {
      assert more[m] in ks;
    }
  }

  /** The options at these places. */
  ghost predicate TakenFrom(stored: seq<Parsed>, ks: seq<nat>, sel: seq<Parsed>) {
    |sel| == |ks| && forall m :: 0 <= m < |ks| ==> ks[m] < |stored| && sel[m] == stored[ks[m]]
  }

  /** The first node is `head`, the others are the nodes at these places. */
  ghost predicate TakenBehind(head: Option, buffer: seq<Option>, ks: seq<nat>, nodes: seq<Option>) {
    && |nodes| == (if ks == [] then 1 else |ks|) && nodes[0] == head
    && forall m :: 1 <= m < |ks| ==> ks[m] < |buffer| && nodes[m] == buffer[ks[m]]
  }

  lemma TakenMore(stored: seq<Parsed>, p: Parsed, ks: seq<nat>, sel: seq<Parsed>)
    requires TakenFrom(stored, ks, sel)
    ensures TakenFrom(stored + [p], ks, sel) && TakenFrom(stored + [p], ks + [|stored|], sel + [p])
  {
  }

  lemma TakenBehindMore(head: Option, buffer: seq<Option>, ks: seq<nat>, nodes: seq<Option>, n: nat)
    requires TakenBehind(head, buffer, ks, nodes) && n < |buffer|
    ensures TakenBehind(head, buffer, ks + [n], if ks == [] then nodes else nodes + [buffer[n]])
  {
  }

  /** What the last option adds to its list. */
  lemma LastInChain(usage: seq<Descriptor>, options: seq<Option>, buffer: seq<Option>, stored: seq<Parsed>, i: nat)
    requires i < |options| && |stored| <= |buffer| && stored != [] && (forall p :: p in stored ==> p.desc < |usage|)
    ensures var n := |stored| - 1;
            var sel, nodes := Selected(usage, stored[..n], i), Chain(usage, options, buffer, stored[..n], i);
            && Selected(usage, stored, i) == (if HasIndex(usage, stored[n], i) then sel + [stored[n]] else sel)
            && Chain(usage, options, buffer, stored, i)
               == if HasIndex(usage, stored[n], i) && sel != [] then nodes + [buffer[n]] else nodes
  {
  }

  /** Where the options and the nodes of list `i` come from. */
  lemma {:induction false} PlacesOf(usage: seq<Descriptor>, options: seq<Option>, buffer: seq<Option>,
                                    stored: seq<Parsed>, i: nat, sel: seq<Parsed>, nodes: seq<Option>)
      returns (ks: seq<nat>)
    requires i < |options| && |stored| <= |buffer| && (forall p :: p in stored ==> p.desc < |usage|)
    requires sel == Selected(usage, stored, i) && nodes == Chain(usage, options, buffer, stored, i)
    ensures ArePlaces(usage, stored, i, ks) && TakenFrom(stored, ks, sel) && TakenBehind(options[i], buffer, ks, nodes)
    decreases |stored|
  {
    ks := [];
    if stored != [] {
      var n := |stored| - 1;
      var sel0, nodes0 := Selected(usage, stored[..n], i), Chain(usage, options, buffer, stored[..n], i);
      LastBehind(stored);
      LastInChain(usage, options, buffer, stored, i);
      ks := PlacesOf(usage, options, buffer, stored[..n], i, sel0, nodes0);
      PlacesMore(usage, stored[..n], stored[n], i, ks);
      TakenMore(stored[..n], stored[n], ks, sel0);
      TakenBehindMore(options[i], buffer, ks, nodes0, n);
      if HasIndex(usage, stored[n], i) {
        ks := ks + [n];
      }
    }
  }

  /**
    What the arrays hold: from the slot of each index starts the list of the
    options whose entries have that index, in the order in which they were
    stored, each of which carries its option; the later nodes are those of the
    buffer.  Without such an option the slot is unused.
  */
  lemma ListOfItsIndex(usage: seq<Descriptor>, options: seq<Option>, buffer: seq<Option>, stored: seq<Parsed>, i: nat)
      returns (ks: seq<nat>, nodes: seq<Option>)
    requires Tables(usage, options, buffer, stored) && i < |options|
    ensures ArePlaces(usage, stored, i, ks)
    ensures IsRing(nodes) && nodes[0] == options[i] && (ks == [] ==> |nodes| == 1 && options[i].desc.Nothing?)
    ensures ks != [] ==> |nodes| == |ks|
    ensures forall m :: 0 <= m < |ks| ==> ks[m] < |stored| && nodes[m].Carries(stored[ks[m]])
    ensures forall m :: 1 <= m < |ks| ==> ks[m] < |stored| && nodes[m] == buffer[ks[m]]
    ensures forall o :: o in nodes && o.desc.Just? ==> o.desc.value < |usage| && usage[o.desc.value].index == i
  {
    nodes := Chain(usage, options, buffer, stored, i);
    ks := PlacesOf(usage, options, buffer, stored, i, Selected(usage, stored, i), nodes);
    assert ListHolds(usage, options, buffer, stored, i);
    forall o | o in nodes && o.desc.Just?
      ensures o.desc.value < |usage| && usage[o.desc.value].index == i
    {
      var m :| 0 <= m < |nodes| && nodes[m] == o;
      assert ks[m] in ks && nodes[m].Carries(stored[ks[m]]);
    }
  }
}
