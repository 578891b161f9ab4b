/**
  Parsed options as nodes of circular doubly linked lists.  The link that
  leaves the list at either end is tagged, so a list needs no header node and
  no flag: the first node is the one whose `prev` is tagged, the last the one
  whose `next` is.
*/
module OptionList {
  import opened Basics
  import opened CStrings
  import opened Grammar
  import opened CheckFunctions

  datatype Link = Plain(node: Option) | Tagged(node: Option)

  class Option {
    var next: Link
    var prev: Link
    var desc: Maybe<nat>
    var name: Maybe<CString>
    var arg: Maybe<CString>
    var nameLen: nat

    /** An unused option: a one-element list without a descriptor. */
    constructor ()
      ensures IsRing([this]) && desc.Nothing? && name.Nothing? && arg.Nothing? && nameLen == 0
    {
      next := Tagged(this);
      prev := Tagged(this);
      desc := Nothing;
      name := Nothing;
      arg := Nothing;
      nameLen := 0;
    }

    /** This node carries the parsed option `p`. */
    ghost predicate Carries(p: Parsed)
      reads `desc, `name, `arg, `nameLen
    {
      && desc == Just(p.desc) && name == Just(p.name) && arg == p.arg
      && p.name != "" && nameLen == NameLength(p.name)
    }

    /** Becomes a copy of `p` that is a list of its own. */
    method Init(p: Parsed)
      requires p.name != ""
      modifies this
      ensures IsRing([this]) && Carries(p)
    {
      desc := Just(p.desc);
      name := Just(p.name);
      arg := p.arg;
      prev := Tagged(this);
      next := Tagged(this);
      var n := 1;
      if At(p.name, 0) == '-' {
        while At(p.name, n) != '\0' && At(p.name, n) != '='
          invariant 1 <= n <= |p.name|
          invariant '=' !in p.name[1..n]
          decreases |p.name| - n
        {
          n := n + 1;
        }
        assert p.name[1..][..n - 1] == p.name[1..n];
        NamePartUnique(p.name[1..], p.name[1..n]);
      }
      nameLen := n;
    }

    method IsFirst() returns (b: bool)
      ensures b == prev.Tagged?
    {
      b := prev.Tagged?;
    }

    method IsLast() returns (b: bool)
      ensures b == next.Tagged?
    {
      b := next.Tagged?;
    }

    /** Goes back to the first option, from any node of a ring. */
    method First(ghost ring: seq<Option>) returns (p: Option)
      requires IsRing(ring) && this in ring
      ensures p == ring[0]
    {
      p := this;
      ghost var i: nat :| i < |ring| && ring[i] == this;
      var first := p.IsFirst();
      while !first
        invariant i < |ring| && p == ring[i] && first == p.prev.Tagged?
        decreases i
      {
        p := p.prev.node;
        i := i - 1;
        first := p.IsFirst();
      }
    }

    /** The last option of the ring: where the first one's tagged link leads. */
    method Last(ghost ring: seq<Option>) returns (p: Option)
      requires IsRing(ring) && this in ring
      ensures p == ring[|ring| - 1]
    {
      var f := First(ring);
      p := f.PrevWrap(ring, 0);
    }

    method Prev(ghost ring: seq<Option>, ghost i: nat) returns (p: Maybe<Option>)
      requires IsRing(ring) && i < |ring| && ring[i] == this
      ensures p == if i == 0 then Nothing else Just(ring[i - 1])
    {
      p := if prev.Tagged? then Nothing else Just(prev.node);
    }

    method PrevWrap(ghost ring: seq<Option>, ghost i: nat) returns (p: Option)
      requires IsRing(ring) && i < |ring| && ring[i] == this
      ensures p == ring[if i == 0 then |ring| - 1 else i - 1]
    {
      p := prev.node;
    }

    method Next(ghost ring: seq<Option>, ghost i: nat) returns (p: Maybe<Option>)
      requires IsRing(ring) && i < |ring| && ring[i] == this
      ensures p == if i + 1 == |ring| then Nothing else Just(ring[i + 1])
    {
      p := if next.Tagged? then Nothing else Just(next.node);
    }

    method NextWrap(ghost ring: seq<Option>, ghost i: nat) returns (p: Option)
      requires IsRing(ring) && i < |ring| && ring[i] == this
      ensures p == ring[if i + 1 == |ring| then 0 else i + 1]
    {
      p := next.node;
    }

    /** How often the option occurs: the size of its ring, or 0 for an unused option. */
    method Count(ghost ring: seq<Option>) returns (c: nat)
      requires IsRing(ring) && this in ring
      requires desc.Nothing? ==> |ring| == 1
      ensures c == if desc.Nothing? then 0 else |ring|
    {
      c := if desc.Nothing? then 0 else 1;
      var p := First(ring);
      ghost var i := 0;
      var last := p.IsLast();
      while !last
        invariant i < |ring| && p == ring[i] && last == p.next.Tagged?
        invariant c == i + if desc.Nothing? then 0 else 1
        decreases |ring| - i
      {
        c := c + 1;
        p := p.next.node;
        i := i + 1;
        last := p.IsLast();
      }
    }

    /** Chains a node that is not in the ring behind the ring's last node, called on any node. */
    method Append(newLast: Option, ghost ring: seq<Option>)
      requires IsRing(ring) && this in ring && newLast !in ring
      modifies set o | o in ring :: o`next, set o | o in ring :: o`prev, newLast`next, newLast`prev
      ensures IsRing(ring + [newLast])
    {
      var p := Last(ring);
      var f := First(ring);
      assert p in ring && f in ring;
      p.next := Plain(newLast);
      newLast.prev := Plain(p);
      newLast.next := Tagged(f);
      f.prev := Tagged(newLast);
    }
  }

  /** The nodes, in order, are linked to one circular list. */
  ghost predicate IsRing(nodes: seq<Option>)
    reads set o | o in nodes
  {
    && nodes != []
    && (forall i, j :: 0 <= i < j < |nodes| ==> nodes[i] != nodes[j])
    && (forall i {:trigger nodes[i].next} :: 0 <= i < |nodes| ==>
          nodes[i].next == if i + 1 < |nodes| then Plain(nodes[i + 1]) else Tagged(nodes[0]))
    && (forall i {:trigger nodes[i].prev} :: 0 <= i < |nodes| ==>
          nodes[i].prev == if i > 0 then Plain(nodes[i - 1]) else Tagged(nodes[|nodes| - 1]))
  }
}
