/**
  The counters that tell a listener how many entities of a kind have been
  discovered, and how that has changed since it was last told.
*/
module DiscoveryStatus {
  datatype Change = DISCOVERY | UNDISCOVERY | UPDATE

  /** What a listener is told. */
  datatype Counts = Counts(total: int, totalChange: int, current: int, currentChange: int)

  // ---------- What the counters mean ----------

  function Discoveries(events: seq<Change>): (n: nat) {
    if events == [] then 0 else
      var n := |events| - 1;
      Discoveries(events[..n]) + if events[n] == DISCOVERY then 1 else 0
  }

  /** Discoveries minus undiscoveries. */
  function Balance(events: seq<Change>): int {
    if events == [] then 0 else
      var n := |events| - 1;
      Balance(events[..n]) + match events[n] case DISCOVERY => 1 case UNDISCOVERY => -1 case UPDATE => 0
  }

  /** The entities that are there: an undiscovery of what is not there does not count. */
  function Present(events: seq<Change>): (n: nat)
    ensures n <= Discoveries(events)
  {
    if events == [] then 0 else
      var n := |events| - 1;
      var before := Present(events[..n]);
      match events[n]
      case DISCOVERY => before + 1
      case UNDISCOVERY => if before > 0 then before - 1 else 0
      case UPDATE => before
  }

  /** The clamped counter in closed form: the largest balance of a suffix, the empty one included. */
  lemma {:induction false} PresentIsLargestSuffix(events: seq<Change>)
    ensures forall i :: 0 <= i <= |events| ==> Balance(events[i..]) <= Present(events)
    ensures exists i :: 0 <= i <= |events| && Balance(events[i..]) == Present(events)
  {
    if events == [] {
      assert Balance(events[0..]) == Present(events);
    } else {
      var n := |events| - 1;
      PresentIsLargestSuffix(events[..n]);
      forall i | 0 <= i <= n
        ensures Balance(events[i..]) == Balance(events[..n][i..]) + Balance([events[n]])
      {
        BalanceOfSuffix(events, i);
      }
      assert events[|events|..] == [];
      forall i | 0 <= i <= |events|
        ensures Balance(events[i..]) <= Present(events)
      {
        assert i <= n ==> Balance(events[..n][i..]) <= Present(events[..n]);
      }
      var k :| 0 <= k <= n && Balance(events[..n][k..]) == Present(events[..n]);
      var best := if events[n] == UNDISCOVERY && Present(events[..n]) == 0 then |events| else k;
      assert Balance(events[best..]) == Present(events);
    }
  }

  lemma BalanceOfSuffix(events: seq<Change>, i: nat)
    requires i < |events|
    ensures Balance(events[i..]) == Balance(events[..|events| - 1][i..]) + Balance([events[|events| - 1]])
  {
    var n := |events| - 1;
    assert events[i..][..n - i] == events[..n][i..];
    assert [events[n]][..0] == [];
  }

  /** The smallest balance of a prefix, the empty one included. */
  function LowestPoint(events: seq<Change>): (m: int)
    ensures m <= 0
  {
    if events == [] then 0 else
      var before := LowestPoint(events[..|events| - 1]);
      if Balance(events) < before then Balance(events) else before
  }

  lemma {:induction false} LowestPointIsLowest(events: seq<Change>)
    ensures forall i :: 0 <= i <= |events| ==> LowestPoint(events) <= Balance(events[..i])
    ensures exists i :: 0 <= i <= |events| && LowestPoint(events) == Balance(events[..i])
  {
    if events == [] {
      assert Balance(events[..0]) == 0;
    } else {
      var n := |events| - 1;
      LowestPointIsLowest(events[..n]);
      assert events[..|events|] == events;
      forall i | 0 <= i <= |events|
        ensures LowestPoint(events) <= Balance(events[..i])
      {
        assert i <= n ==> events[..n][..i] == events[..i];
      }
      var k :| 0 <= k <= n && LowestPoint(events[..n]) == Balance(events[..n][..k]);
      assert events[..n][..k] == events[..k];
      var low := if Balance(events) < LowestPoint(events[..n]) then |events| else k;
      assert LowestPoint(events) == Balance(events[..low]);
    }
  }

  /** What was clamped away is the lowest point. */
  lemma {:induction false} PresentAboveLowestPoint(events: seq<Change>)
    ensures Present(events) == Balance(events) - LowestPoint(events)
  {
    if events != [] {
      PresentAboveLowestPoint(events[..|events| - 1]);
    }
  }

  /** The counter is the plain difference exactly if undiscoveries never got ahead. */
  lemma PresentIsPlainDifference(events: seq<Change>)
    ensures Present(events) == Balance(events) <==> forall i :: 0 <= i <= |events| ==> Balance(events[..i]) >= 0
  {
    PresentAboveLowestPoint(events);
    LowestPointIsLowest(events);
  }

  // ---------- The counters ----------

  function SumOfTotalChanges(told: seq<Counts>): int {
    if told == [] then 0 else SumOfTotalChanges(told[..|told| - 1]) + told[|told| - 1].totalChange
  }

  function SumOfCurrentChanges(told: seq<Counts>): int {
    if told == [] then 0 else SumOfCurrentChanges(told[..|told| - 1]) + told[|told| - 1].currentChange
  }

  /** The counters after a change. */
  function Applied(c: Counts, d: Change): (r: Counts)
    ensures c.current >= 0 ==> r.current >= 0
    ensures r.total - c.total == r.totalChange - c.totalChange
            && r.current - c.current == r.currentChange - c.currentChange
  {
    match d
    case DISCOVERY => Counts(c.total + 1, c.totalChange + 1, c.current + 1, c.currentChange + 1)
    case UNDISCOVERY => if c.current > 0 then c.(current := c.current - 1, currentChange := c.currentChange - 1) else c
    case UPDATE => c
  }

  class Status {
    var totalCount: int
    var totalCountChange: int
    var currentCount: int
    var currentCountChange: int
    // what happened to the status since it was created, and what it was read as
    ghost var events: seq<Change>
    ghost var told: seq<Counts>

    /** The counters follow from what happened, and the changes told and still to be told add up to them. */
    ghost predicate Valid()
      reads this
    {
      && totalCount == Discoveries(events) && currentCount == Present(events)
      && SumOfTotalChanges(told) + totalCountChange == totalCount
      && SumOfCurrentChanges(told) + currentCountChange == currentCount
      && totalCountChange >= 0 && (forall c :: c in told ==> c.totalChange >= 0)
    }

    function Value(): Counts
      reads this
    {
      Counts(totalCount, totalCountChange, currentCount, currentCountChange)
    }

    constructor ()
      ensures Valid() && events == [] && told == [] && Value() == Counts(0, 0, 0, 0)
    {
      totalCount, totalCountChange, currentCount, currentCountChange := 0, 0, 0, 0;
      events, told := [], [];
    }

    method OnInstanceDiscovered()
      requires Valid()
      modifies this
      ensures Valid() && events == old(events) + [DISCOVERY] && told == old(told)
      ensures Value() == Applied(old(Value()), DISCOVERY)
    {
      totalCount := totalCount + 1;
      totalCountChange := totalCountChange + 1;
      currentCount := currentCount + 1;
      currentCountChange := currentCountChange + 1;
      events := events + [DISCOVERY];
    }

    method OnInstanceUndiscovered()
      requires Valid()
      modifies this
      ensures Valid() && events == old(events) + [UNDISCOVERY] && told == old(told)
      ensures Value() == Applied(old(Value()), UNDISCOVERY)
    {
      if currentCount > 0 {
        currentCount := currentCount - 1;
        currentCountChange := currentCountChange - 1;
      }
      events := events + [UNDISCOVERY];
    }

    /** The listener has been told. */
    method OnStatusRead()
      requires Valid()
      modifies this
      ensures Valid() && events == old(events) && told == old(told + [Value()])
      ensures Value() == old(Value()).(totalChange := 0, currentChange := 0)
    {
      told := told + [Value()];
      currentCountChange := 0;
      totalCountChange := 0;
    }
  }
}
