/**
  Several monitors side by side: what is done to one of them does not concern
  the others, and every object that exists is accounted for.
*/
module MonitorOrder {
  import opened Basics
  import opened DdsStore
  import opened MonitorEntities
  import opened MonitorRelease
  import opened MonitorSpies
  import opened Monitors

  type Views = map<EntityId, Entities>

  /** Every monitor is complete and on its own, and no two of them share an object. */
  ghost predicate Order(live: Live, views: Views) {
    forall k {:trigger OuterKey(k)} :: OuterKey(k) ==>
      && (forall i :: i in views ==> Owned(live, views[i]))
      && forall i, j :: i in views && j in views && i != j ==> Recorded(views[i]) !! Recorded(views[j])
  }

  lemma OrderOf(live: Live, views: Views, id: EntityId)
    requires Order(live, views) && id in views
    ensures Owned(live, views[id])
  {
    assert OuterKey(0);
  }

  lemma NoOrder(live: Live)
    ensures Order(live, map[])
  {
  }

  /** One monitor has changed, from pointing at `part` to pointing at `part'`. */
  ghost predicate Changed(live: Live, live': Live, part: set<Handle>, part': set<Handle>) {
    && Closed(live) && Closed(live') && Only(live, live', part) && Isolated(live', part')
    && (forall h :: h in live' ==> h in live || h in part')
    && forall h :: h in part' ==> h in part || h !in live
  }

  /** The other monitors are as they were. */
  lemma OtherOwned(live: Live, live': Live, part: set<Handle>, part': set<Handle>, e: Entities)
    requires Changed(live, live', part, part') && Owned(live, e) && part !! Recorded(e)
    ensures Owned(live', e) && part' !! Recorded(e)
  {
    assert Key(0);
    assert Recorded(e) <= live.Keys;
    OthersUnconcerned(live, live', part, part', e);
    OwnedFrom(live', e);
  }

  lemma OrderChanges(live: Live, live': Live, views: Views, id: EntityId, e: Entities)
    requires Order(live, views) && id in views && Owned(live', e)
    requires Changed(live, live', Recorded(views[id]), Recorded(e))
    ensures Order(live', views[id := e])
  {
    assert Order(live', views - {id}) && Clear(views - {id}, Recorded(e)) by {
      OrderLess(live, views, id);
      OthersInOrder(live, live', views - {id}, Recorded(views[id]), Recorded(e));
    }
    OrderMore(live', views - {id}, id, e);
    assert (views - {id})[id := e] == views[id := e];
  }

  lemma OrderShrinks(live: Live, live': Live, views: Views, id: EntityId)
    requires Order(live, views) && id in views
    requires Changed(live, live', Recorded(views[id]), {})
    ensures Order(live', views - {id})
  {
    OrderLess(live, views, id);
    OthersInOrder(live, live', views - {id}, Recorded(views[id]), {});
  }

  lemma OrderGrows(live: Live, live': Live, views: Views, id: EntityId, e: Entities)
    requires Order(live, views) && id !in views && Owned(live', e)
    requires Changed(live, live', {}, Recorded(e))
    ensures Order(live', views[id := e])
  {
    NothingClear(views);
    OthersInOrder(live, live', views, {}, Recorded(e));
    OrderMore(live', views, id, e);
  }

  /** None of the monitors points at any of the objects `part`. */
  ghost predicate Clear(views: Views, part: set<Handle>) {
    forall k {:trigger OuterKey(k)} :: OuterKey(k) ==> forall i :: i in views ==> Recorded(views[i]) !! part
  }

  lemma NothingClear(views: Views)
    ensures Clear(views, {})
  {
  }

  lemma OthersInOrder(live: Live, live': Live, views: Views, part: set<Handle>, part': set<Handle>)
    requires Order(live, views) && Clear(views, part) && Changed(live, live', part, part')
    ensures Order(live', views) && Clear(views, part')
  {
    assert OuterKey(0);
    forall i | i in views
      ensures Owned(live', views[i]) && Recorded(views[i]) !! part'
    {
      OtherOwned(live, live', part, part', views[i]);
    }
  }

  lemma OrderLess(live: Live, views: Views, id: EntityId)
    requires Order(live, views) && id in views
    ensures Order(live, views - {id}) && Clear(views - {id}, Recorded(views[id]))
  {
    assert OuterKey(0);
  }

  lemma OrderMore(live: Live, views: Views, id: EntityId, e: Entities)
    requires Order(live, views) && id !in views && Owned(live, e) && Clear(views, Recorded(e))
    ensures Order(live, views[id := e])
  {
    assert OuterKey(0);
  }

  // ---------- What no monitor points at ----------

  /** No monitor points at `h`. */
  ghost predicate Nobodys(views: Views, h: Handle) {
    forall k {:trigger OuterKey(k)} :: OuterKey(k) ==> forall i :: i in views ==> h !in Recorded(views[i])
  }

  lemma PointsAt(views: Views, h: Handle) returns (id: EntityId)
    requires !Nobodys(views, h)
    ensures id in views && h in Recorded(views[id])
  {
    id :| id in views && h in Recorded(views[id]);
  }

  /** What exists although no monitor points at it, apart from what existed beforehand. */
  ghost function Leaked(base: Live, live: Live, views: Views): set<Handle> {
    set h | h in live && h !in base && Nobodys(views, h)
  }

  ghost predicate AreSpyListeners(live: Live, part: set<Handle>) {
    forall h :: h in part ==> h in live && live[h].Listener? && live[h].role.SpyListener?
  }

  /** What existed beforehand is still as it was and concerns no monitor, and nothing but spy listeners has leaked. */
  ghost predicate Accounted(base: Live, live: Live, views: Views) {
    forall k {:trigger OuterKey(k)} :: OuterKey(k) ==>
      && Closed(base) && (forall h :: h in base ==> h in live && live[h] == base[h] && Nobodys(views, h))
      && AreSpyListeners(live, Leaked(base, live, views))
  }

  /** `views` has one monitor more than `rest`, which points at `part`, or none if that is empty. */
  ghost predicate Joined(views: Views, rest: Views, part: set<Handle>) {
    forall h {:trigger Nobodys(views, h)} :: Nobodys(views, h) <==> Nobodys(rest, h) && h !in part
  }

  lemma JoinedBy(views: Views, id: EntityId)
    requires id in views
    ensures Joined(views, views - {id}, Recorded(views[id]))
  {
    forall h
      ensures Nobodys(views, h) <==> Nobodys(views - {id}, h) && h !in Recorded(views[id])
    {
      NobodysBut(views, id, h);
    }
  }

  lemma NobodysBut(views: Views, id: EntityId, h: Handle)
    requires id in views
    ensures Nobodys(views, h) <==> Nobodys(views - {id}, h) && h !in Recorded(views[id])
  {
    assert OuterKey(0);
    if !Nobodys(views, h) {
      var i := PointsAt(views, h);
      assert i != id ==> i in views - {id} && (views - {id})[i] == views[i];
    } else {
      assert forall i :: i in views - {id} ==> (views - {id})[i] == views[i];
    }
  }

  lemma JoinedByNone(views: Views)
    ensures Joined(views, views, {})
  {
  }

  lemma ClearOne(views: Views, part: set<Handle>, h: Handle)
    requires Clear(views, part) && h in part
    ensures Nobodys(views, h)
  {
    assert OuterKey(0);
  }

  /** One monitor pointed at `part`, and points at `part'` now. */
  lemma AccountedAfter(base: Live, live: Live, live': Live, views: Views, views': Views, rest: Views,
                       part: set<Handle>, part': set<Handle>, left: set<Handle>)
    requires Accounted(base, live, views) && Changed(live, live', part, part')
    requires Joined(views, rest, part) && Joined(views', rest, part') && Clear(rest, part) && Clear(rest, part')
    requires left == part * live'.Keys - part' && AreSpyListeners(live', left)
    ensures Accounted(base, live', views') && Leaked(base, live', views') == Leaked(base, live, views) + left
  {
    forall h | h in part + part'
      ensures Nobodys(rest, h)
    {
      ClearOne(rest, if h in part then part else part', h);
    }
    AccountedFacts(base, live, views);
    LeakedAfter(base, live, live', views, views', rest, part, part', left);
    BaseAfter(base, live, live', views, views', rest, part, part');
    AccountedFrom(base, live', views');
  }

  lemma AccountedFacts(base: Live, live: Live, views: Views)
    requires Accounted(base, live, views)
    ensures Closed(base) && (forall h :: h in base ==> h in live && live[h] == base[h] && Nobodys(views, h))
    ensures AreSpyListeners(live, Leaked(base, live, views))
  {
    assert OuterKey(0);
  }

  lemma AccountedFrom(base: Live, live: Live, views: Views)
    requires Closed(base) && forall h :: h in base ==> h in live && live[h] == base[h] && Nobodys(views, h)
    requires AreSpyListeners(live, Leaked(base, live, views))
    ensures Accounted(base, live, views)
  {
  }

  lemma BaseAfter(base: Live, live: Live, live': Live, views: Views, views': Views, rest: Views,
                  part: set<Handle>, part': set<Handle>)
    requires Changed(live, live', part, part') && Joined(views, rest, part) && Joined(views', rest, part')
    requires forall h :: h in base ==> h in live && live[h] == base[h] && Nobodys(views, h)
    ensures forall h :: h in base ==> h in live' && live'[h] == base[h] && Nobodys(views', h)
  {
    forall h | h in base
      ensures h in live' && live'[h] == base[h] && Nobodys(views', h)
    {
      assert Nobodys(views, h);
      assert Nobodys(views', h) <==> Nobodys(rest, h) && h !in part';
    }
  }

  lemma LeakedAfter(base: Live, live: Live, live': Live, views: Views, views': Views, rest: Views,
                    part: set<Handle>, part': set<Handle>, left: set<Handle>)
    requires Changed(live, live', part, part') && Joined(views, rest, part) && Joined(views', rest, part')
    requires forall h :: h in part + part' ==> Nobodys(rest, h)
    requires forall h :: h in base ==> h in live && Nobodys(views, h)
    requires left == part * live'.Keys - part'
    ensures Leaked(base, live', views') == Leaked(base, live, views) + left
  {
    forall h | h in live'
      ensures h in Leaked(base, live', views') <==> h in Leaked(base, live, views) + left
    {
      assert Nobodys(views, h) <==> Nobodys(rest, h) && h !in part;
      assert Nobodys(views', h) <==> Nobodys(rest, h) && h !in part';
    }
    forall h | h in Leaked(base, live, views) + left
      ensures h in live'
    {
      assert Nobodys(views, h) <==> Nobodys(rest, h) && h !in part;
    }
  }

  lemma AccountedChanges(base: Live, live: Live, live': Live, views: Views, id: EntityId, e: Entities,
                         left: set<Handle>)
    requires Order(live, views) && id in views && Order(live', views[id := e])
    requires Changed(live, live', Recorded(views[id]), Recorded(e)) && Accounted(base, live, views)
    requires left == Recorded(views[id]) * live'.Keys - Recorded(e) && AreSpyListeners(live', left)
    ensures Accounted(base, live', views[id := e])
    ensures Leaked(base, live', views[id := e]) == Leaked(base, live, views) + left
  {
    var views', rest := views[id := e], views - {id};
    assert views' - {id} == rest;
    OrderLess(live, views, id);
    OrderLess(live', views', id);
    JoinedBy(views, id);
    JoinedBy(views', id);
    AccountedAfter(base, live, live', views, views', rest, Recorded(views[id]), Recorded(e), left);
  }

  lemma AccountedShrinks(base: Live, live: Live, live': Live, views: Views, id: EntityId)
    requires Order(live, views) && id in views && Accounted(base, live, views)
    requires Changed(live, live', Recorded(views[id]), {}) && Recorded(views[id]) * live'.Keys == {}
    ensures Accounted(base, live', views - {id}) && Leaked(base, live', views - {id}) == Leaked(base, live, views)
  {
    var rest := views - {id};
    OrderLess(live, views, id);
    JoinedBy(views, id);
    JoinedByNone(rest);
    NothingClear(rest);
    AccountedAfter(base, live, live', views, rest, rest, Recorded(views[id]), {}, {});
  }

  lemma AccountedGrows(base: Live, live: Live, live': Live, views: Views, id: EntityId, e: Entities)
    requires id !in views && Order(live', views[id := e]) && Accounted(base, live, views)
    requires Changed(live, live', {}, Recorded(e))
    ensures Accounted(base, live', views[id := e]) && Leaked(base, live', views[id := e]) == Leaked(base, live, views)
  {
    var views' := views[id := e];
    assert views' - {id} == views;
    OrderLess(live', views', id);
    JoinedBy(views', id);
    JoinedByNone(views);
    NothingClear(views);
    AccountedAfter(base, live, live', views, views', views, {}, Recorded(e), {});
  }

  /**
    Every spy listener that was there beforehand, or that has not leaked, is entered
    under its topic's name in one monitor.
  */
  lemma SpyListenerIsFound(base: Live, s: Store, views: Views, h: Handle, name: string) returns (id: EntityId)
    requires InOrder(base, s, views) && h in s.live && s.live[h] == Listener(SpyListener(name))
    requires h !in base && h !in Leaked(base, s.live, views)
    ensures id in views && name in views[id].spyListeners && views[id].spyListeners[name] == h
    ensures forall i :: i in views && h in Recorded(views[i]) ==> i == id
  {
    id := PointsAt(views, h);
    OrderOf(s.live, views, id);
    RecordedUnderName(s.live, views[id], h, name);
    assert OuterKey(0);
  }

  lemma RecordedUnderName(live: Live, e: Entities, h: Handle, name: string)
    requires Owned(live, e) && h in Recorded(e) && h in live && live[h] == Listener(SpyListener(name))
    ensures name in e.spyListeners && e.spyListeners[name] == h
  {
    assert Running(live, e) by {
      assert Key(0);
    }
    RecordedOther(live, e, h);
    var k :| k in e.spyListeners && e.spyListeners[k] == h;
  }

  /** A listener that has leaked is not called by anybody. */
  lemma LeakedIsUnused(base: Live, s: Store, views: Views, h: Handle)
    requires InOrder(base, s, views) && h in Leaked(base, s.live, views)
    ensures h in s.live && s.live[h].Listener? && !InUse(s.live, h)
  {
    assert OuterKey(0);
    forall x | x in s.live
      ensures h !in Uses(s.live[x])
    {
      if x in base {
        assert Fits(base, base[x]);
      } else if !Nobodys(views, x) {
        var i := PointsAt(views, x);
        UsesRecorded(s.live, views[i], x);
        assert h !in Recorded(views[i]);
      } else {
        assert x in Leaked(base, s.live, views);
      }
    }
  }

  lemma UsesRecorded(live: Live, e: Entities, x: Handle)
    requires Owned(live, e) && x in Recorded(e)
    ensures x in live && Uses(live[x]) <= Recorded(e)
  {
    assert Key(0);
  }

  // ---------- The changes there are ----------

  /** The monitors are complete and share nothing, and all other objects are accounted for. */
  ghost predicate InOrder(base: Live, s: Store, views: Views) {
    s.Valid() && Order(s.live, views) && Accounted(base, s.live, views)
  }

  lemma NothingYet(s: Store)
    requires s.Valid()
    ensures InOrder(s.live, s, map[]) && Leaked(s.live, s.live, map[]) == {}
  {
    NoOrder(s.live);
  }

  lemma SteppedChanges(s0: Store, e0: Entities, s: Store, e: Entities, left: set<Handle>)
    requires s0.Valid() && Owned(s0.live, e0) && Stepped(s0, e0, s, e, left)
    ensures Changed(s0.live, s.live, Recorded(e0), Recorded(e))
    ensures left == Recorded(e0) * s.live.Keys - Recorded(e)
    ensures forall h :: h in left ==> h in s0.live && s.live[h] == s0.live[h]
  {
    assert Key(0);
    ExtendedChanges(s0, Recorded(e0), s, Recorded(e));
  }

  lemma ExtendedChanges(s0: Store, part0: set<Handle>, s: Store, part: set<Handle>)
    requires s0.Valid() && s.Valid() && part0 <= s0.live.Keys && Extended(s0, part0, s, part) && Isolated(s.live, part)
    ensures Changed(s0.live, s.live, part0, part) && part0 - part == part0 * s.live.Keys - part
    ensures forall h :: h in part0 - part ==> h in s0.live && s.live[h] == s0.live[h]
  {
  }

  /** A spy has been started, or it has been tried. */
  lemma AfterStep(base: Live, s0: Store, s: Store, views: Views, id: EntityId, e: Entities, left: set<Handle>)
    requires InOrder(base, s0, views) && id in views && Stepped(s0, views[id], s, e, left)
    requires AreSpyListeners(s0.live, left)
    ensures InOrder(base, s, views[id := e])
    ensures Leaked(base, s.live, views[id := e]) == Leaked(base, s0.live, views) + left
  {
    OrderOf(s0.live, views, id);
    SteppedChanges(s0, views[id], s, e, left);
    OrderChanges(s0.live, s.live, views, id, e);
    AccountedChanges(base, s0.live, s.live, views, id, e, left);
  }

  lemma RemovedChanges(live: Live, part: set<Handle>, gone: set<Handle>)
    requires Closed(live) && Closed(live - gone) && Isolated(live, part) && gone <= part
    ensures Changed(live, live - gone, part, part - gone)
    ensures part * (live - gone).Keys - (part - gone) == {}
  {
  }

  lemma ExitChanges(live: Live, live': Live, e: Entities, name: string)
    requires Owned(live, e) && Closed(live') && name in e.spyReaders && name in e.spyListeners && name in e.spyTopics
    requires e.spyTopics[name].Just? && live' == live - SpiedOn(e, name)
    ensures Changed(live, live', Recorded(e), Recorded(SpyExit(e, name)))
    ensures Recorded(e) * live'.Keys - Recorded(SpyExit(e, name)) == {}
  {
    SpiedOnFacts(live, e, name);
    assert Key(0);
    RecordedExit(live, e, name);
    RemovedChanges(live, Recorded(e), SpiedOn(e, name));
  }

  /** A spy has been stopped. */
  lemma AfterExit(base: Live, s0: Store, s: Store, views: Views, id: EntityId, name: string)
    requires InOrder(base, s0, views) && s.Valid() && id in views
    requires name in views[id].spyReaders && name in views[id].spyListeners && name in views[id].spyTopics
    requires views[id].spyTopics[name].Just? && s.live == s0.live - SpiedOn(views[id], name)
    requires Owned(s.live, SpyExit(views[id], name))
    ensures InOrder(base, s, views[id := SpyExit(views[id], name)])
    ensures Leaked(base, s.live, views[id := SpyExit(views[id], name)]) == Leaked(base, s0.live, views)
  {
    var e := SpyExit(views[id], name);
    OrderOf(s0.live, views, id);
    ExitChanges(s0.live, s.live, views[id], name);
    OrderChanges(s0.live, s.live, views, id, e);
    AccountedChanges(base, s0.live, s.live, views, id, e, {});
  }

  /** A monitor has been taken down. */
  lemma AfterRelease(base: Live, s0: Store, s: Store, views: Views, id: EntityId)
    requires InOrder(base, s0, views) && s.Valid() && id in views
    requires s.live == s0.live - Recorded(views[id])
    ensures InOrder(base, s, views - {id})
    ensures Leaked(base, s.live, views - {id}) == Leaked(base, s0.live, views)
  {
    assert Changed(s0.live, s.live, Recorded(views[id]), {});
    OrderShrinks(s0.live, s.live, views, id);
    AccountedShrinks(base, s0.live, s.live, views, id);
  }

  /** A monitor has been completed. */
  lemma AfterBuild(base: Live, s0: Store, s: Store, views: Views, id: EntityId, e: Entities)
    requires InOrder(base, s0, views) && s.Valid() && id !in views && Completed(s0, s, e)
    ensures InOrder(base, s, views[id := e])
    ensures Leaked(base, s.live, views[id := e]) == Leaked(base, s0.live, views)
  {
    assert Changed(s0.live, s.live, {}, Recorded(e)) && Owned(s.live, e) by {
      assert Key(0);
      GrownIsIsolated(s0, s.live, e);
      OwnedFrom(s.live, e);
    }
    OrderGrows(s0.live, s.live, views, id, e);
    AccountedGrows(base, s0.live, s.live, views, id, e);
  }

  /** Without monitors, there is what existed beforehand, and what has leaked. */
  lemma Afterwards(base: Live, s: Store)
    requires InOrder(base, s, map[])
    ensures s.live.Keys == base.Keys + Leaked(base, s.live, map[])
    ensures Leaked(base, s.live, map[]) == {} ==> s.live == base
  {
    assert OuterKey(0);
    forall h | h in s.live && h !in base
      ensures h in Leaked(base, s.live, map[])
    {
    }
  }

  /** The attempt to complete one has left nothing. */
  lemma AfterFailure(base: Live, s0: Store, s: Store, views: Views)
    requires InOrder(base, s0, views) && s.Valid() && s.live == s0.live
    ensures InOrder(base, s, views)
  {
  }

  // ---------- All objects of all monitors ----------

  function RecordedBy(views: Views): set<Handle> {
    set i, h | i in views && h in Recorded(views[i]) :: h
  }

  /** Some of the monitors. */
  function Some(views: Views, ids: set<EntityId>): Views {
    map i | i in views && i in ids :: views[i]
  }

  lemma NobodyRecorded(views: Views)
    ensures RecordedBy(Some(views, {})) == {}
  {
  }

  lemma AllRecorded(views: Views)
    ensures Some(views, views.Keys) == views
  {
  }

  lemma DifferenceOfUnion(live: Live, a: set<Handle>, b: set<Handle>)
    ensures live - a - b == live - (a + b)
  {
  }

  /** Taking down one more monitor removes its objects. */
  lemma RecordedByOneMore(views: Views, gone: set<EntityId>, id: EntityId)
    requires id in views && id !in gone
    ensures RecordedBy(Some(views, gone + {id})) == RecordedBy(Some(views, gone)) + Recorded(views[id])
  {
    var before, after := Some(views, gone), Some(views, gone + {id});
    forall h | h in RecordedBy(before) + Recorded(views[id])
      ensures h in RecordedBy(after)
    {
      if h in RecordedBy(before) {
        var i :| i in before && h in Recorded(before[i]);
        assert i in after && after[i] == before[i];
      } else {
        assert id in after && after[id] == views[id];
      }
    }
    forall h | h in RecordedBy(after)
      ensures h in RecordedBy(before) + Recorded(views[id])
    {
      var i :| i in after && h in Recorded(after[i]);
      assert i != id ==> i in before && before[i] == after[i];
    }
  }
}
