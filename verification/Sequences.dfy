/** Facts about concatenation that the solver is better told than left to find. */
module Sequences {
  lemma Associative<T>(a: seq<T>, b: seq<T>, c: seq<T>)
    ensures a + b + c == a + (b + c)
  {
  }

  lemma Regrouped<T>(a: seq<T>, b: seq<T>, x: seq<T>, c: seq<T>)
    ensures a + (b + x) + c == a + b + (x + c)
  {
  }

  /** A block moved to the front of the middle changes no multiplicity. */
  lemma MultisetOfInsertion<T>(front: seq<T>, x: seq<T>, middle: seq<T>, rest: seq<T>)
    ensures multiset(front + (x + middle) + rest) == multiset(x) + multiset(front + middle + rest)
  {
  }

  lemma LastBehind<T>(s: seq<T>)
    requires s != []
    ensures s[..|s| - 1] + [s[|s| - 1]] == s
  {
  }

  lemma SliceBehind<T>(s: seq<T>, from: nat, n: nat, end: nat)
    requires from + n <= end <= |s|
    ensures s[from..end][n..] == s[from + n..end]
  {
  }

  lemma HeadMoves<T>(written: seq<T>, queue: seq<T>)
    requires queue != []
    ensures written + [queue[0]] + queue[1..] == written + queue
  {
    assert [queue[0]] + queue[1..] == queue;
    Associative(written, [queue[0]], queue[1..]);
  }

  lemma SliceFront<T>(s: seq<T>, from: nat, n: nat, end: nat)
    requires from + n <= end <= |s|
    ensures s[from..end][..n] == s[from..from + n]
  {
  }

  lemma InEither<T>(x: T, a: seq<T>, b: seq<T>)
    requires x in a || x in b
    ensures x in a + b
  {
  }

  /** One more of different elements. */
  lemma TakenNext<T>(s: seq<T>, i: nat)
    requires i < |s| && forall j, k :: 0 <= j < k < |s| ==> s[j] != s[k]
    ensures s[i] !in s[..i]
    ensures forall x :: x in s[..i + 1] <==> x in s[..i] || x == s[i]
  {
    assert s[..i + 1] == s[..i] + [s[i]];
  }

  lemma PrefixedFour<T>(x: seq<T>, a: seq<T>, b: seq<T>, c: seq<T>, d: seq<T>)
    ensures (x + a) + b + c + d == x + (a + b + c + d)
  {
  }

  lemma NothingAround<T>(a: seq<T>, b: seq<T>, c: seq<T>, d: seq<T>)
    requires a == [] && c == []
    ensures a + b + c + d == b + d && b + c == b
  {
  }

  lemma JoinedThrice<T>(a: seq<T>, b: seq<T>, c: seq<T>, d: seq<T>)
    ensures a + b + c + d == a + (b + c + d)
  {
  }
}
