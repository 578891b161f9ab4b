/**
  The backend's data: its monitors, the listeners of the user's, and the
  counters of what has been discovered.
*/
module Backend {
  import opened Basics
  import opened DdsStore
  import opened MonitorEntities
  import opened MonitorRelease
  import opened MonitorSpies
  import opened MonitorOrder
  import opened Monitors
  import opened DiscoveryStatus

  datatype EntityKind =
    | INVALID | HOST | USER | PROCESS | DOMAIN | TOPIC | PARTICIPANT | DATAWRITER | DATAREADER | LOCATOR

  /** A call of a listener: of something discovered, as `counts` of the `status` that was reported, or of data. */
  datatype Call =
    | Discovered(to: UserListener, callback: CallbackKind, domain: Maybe<EntityId>, entity: EntityId, status: Status,
                 counts: Counts)
    | DataAvailable(to: UserListener, domain: Maybe<EntityId>, entity: EntityId, kind: DataKind)

  /** What the calls have told of a status. */
  function Told(calls: seq<Call>, s: Status): seq<Counts> {
    if calls == [] then [] else
      var n := |calls| - 1;
      Told(calls[..n], s) + if calls[n].Discovered? && calls[n].status == s then [calls[n].counts] else []
  }

  lemma ToldOnce(calls: seq<Call>, c: Call, s: Status)
    ensures Told(calls + [c], s) == Told(calls, s) + if c.Discovered? && c.status == s then [c.counts] else []
  {
    assert (calls + [c])[..|calls|] == calls;
  }

  lemma {:induction false} NeverTold(calls: seq<Call>, s: Status)
    requires forall c :: c in calls && c.Discovered? ==> c.status != s
    ensures Told(calls, s) == []
  {
    if calls != [] {
      NeverTold(calls[..|calls| - 1], s);
    }
  }

  /** What the calls have told of one kind of entity, in one domain or of the physical ones. */
  function ToldOf(calls: seq<Call>, domain: Maybe<EntityId>, callback: CallbackKind): seq<Counts> {
    if calls == [] then [] else
      var n := |calls| - 1;
      ToldOf(calls[..n], domain, callback)
      + if calls[n].Discovered? && calls[n].domain == domain && calls[n].callback == callback then [calls[n].counts]
        else []
  }

  lemma ToldOfOnce(calls: seq<Call>, c: Call, domain: Maybe<EntityId>, callback: CallbackKind)
    ensures ToldOf(calls + [c], domain, callback)
            == ToldOf(calls, domain, callback)
               + if c.Discovered? && c.domain == domain && c.callback == callback then [c.counts] else []
  {
    assert (calls + [c])[..|calls|] == calls;
  }

  lemma {:induction false} NeverToldOf(calls: seq<Call>, domain: Maybe<EntityId>, callback: CallbackKind)
    requires forall c :: c in calls && c.Discovered? ==> c.domain != domain
    ensures ToldOf(calls, domain, callback) == []
  {
    if calls != [] {
      NeverToldOf(calls[..|calls| - 1], domain, callback);
    }
  }

  /** Something has happened to an entity of a kind that is counted, in a domain or, without one, physically. */
  datatype Event = Event(domain: Maybe<EntityId>, kind: EntityKind, change: Change)

  /** What has happened to entities of one kind; an update changes no counter. */
  function Happened(history: seq<Event>, domain: Maybe<EntityId>, kind: EntityKind): seq<Change> {
    if history == [] then [] else
      var n := |history| - 1;
      Happened(history[..n], domain, kind)
      + if history[n].domain == domain && history[n].kind == kind && history[n].change != UPDATE
        then [history[n].change] else []
  }

  lemma HappenedOnce(history: seq<Event>, e: Event, domain: Maybe<EntityId>, kind: EntityKind)
    ensures Happened(history + [e], domain, kind)
            == Happened(history, domain, kind)
               + if e.domain == domain && e.kind == kind && e.change != UPDATE then [e.change] else []
  {
    assert (history + [e])[..|history|] == history;
  }

  lemma {:induction false} NeverHappened(history: seq<Event>, domain: Maybe<EntityId>, kind: EntityKind)
    requires forall e :: e in history ==> e.domain != domain
    ensures Happened(history, domain, kind) == []
  {
    if history != [] {
      NeverHappened(history[..|history| - 1], domain, kind);
    }
  }

  /** What a change, of which somebody has been told or not, means for a kind with its status and callback. */
  lemma OneMoreEvent(history: seq<Event>, calls: seq<Call>, e: Event, s: Status, callback: CallbackKind,
                     told: seq<Call>, d: Maybe<EntityId>, k: EntityKind, s': Status, callback': CallbackKind)
    requires |told| <= 1 && forall c :: c in told ==>
               c.Discovered? && c.status == s && c.domain == e.domain && c.callback == callback
    requires s' == s <==> d == e.domain && k == e.kind
    requires s' == s <==> d == e.domain && callback' == callback
    requires Told(calls, s') == ToldOf(calls, d, callback')
    ensures Happened(history + [e], d, k)
            == Happened(history, d, k) + if s' == s && e.change != UPDATE then [e.change] else []
    ensures Told(calls + told, s') == ToldOf(calls + told, d, callback')
  {
    HappenedOnce(history, e, d, k);
    if told == [] {
      assert calls + told == calls;
    } else {
      assert told == [told[0]];
      ToldOnce(calls, told[0], s');
      ToldOfOnce(calls, told[0], d, callback');
    }
  }

  /** Keys of their own, for what is known of the statuses, of the monitors and of what has leaked. */
  predicate CountKey(k: int) {
    true
  }

  predicate ViewKey(k: int) {
    true
  }

  predicate TightKey(k: int) {
    true
  }

  predicate ApartKey(k: int) {
    true
  }

  predicate HistoryKey(k: int) {
    true
  }

  datatype Lookup<T> = Found(value: T) | BadParameter

  /** A monitor of a domain with its listener, as it is before it is registered. */
  method MonitorOf(domain: EntityId, listener: UserListener?, callbacks: set<CallbackKind>, data: set<DataKind>)
      returns (m: Monitor)
    ensures fresh(m) && fresh(m.Statuses()) && m.id == domain && m.View() == BLANK && !m.readerFailed
    ensures m.StatusesApart() && forall s :: s in m.Statuses() ==> s.Valid() && s.events == [] && s.told == []
    ensures m.domainListener == listener && m.domainCallbackMask == callbacks && m.dataMask == data
  {
    m := new Monitor();
    m.id := domain;
    m.SetListener(listener, callbacks, data);
  }

  class StatisticsBackendData {
    var monitors: map<EntityId, Monitor>
    var store: Store
    // the domains that the database has an entity for
    var entities: set<EntityId>
    var physicalListener: UserListener?
    var physicalCallbackMask: set<CallbackKind>
    var physicalDataMask: set<DataKind>
    const hostStatus: Status
    const userStatus: Status
    const processStatus: Status
    const locatorStatus: Status
    // all statuses and monitors that there have been, and all calls of listeners
    ghost var statuses: set<Status>
    ghost var known: set<Monitor>
    ghost var calls: seq<Call>
    // what has happened to the entities that are counted
    ghost var history: seq<Event>
    // what the monitors point at, and what existed before the first of them
    ghost var views: Views
    ghost const base: Live
    // whether an attempt to spy on a topic has ever got no reader
    ghost var readerFailed: bool

    constructor (store: Store)
      requires store.Valid()
      ensures monitors == map[] && this.store == store && base == store.live && calls == [] && history == []
              && !readerFailed && Valid()
    {
      monitors, this.store, entities := map[], store, {};
      physicalListener, physicalCallbackMask, physicalDataMask := null, {}, {};
      hostStatus := new Status();
      userStatus := new Status();
      processStatus := new Status();
      locatorStatus := new Status();
      statuses, known, calls, history, views, base, readerFailed := {}, {}, [], [], map[], store.live, false;
      new;
      statuses := {hostStatus, userStatus, processStatus, locatorStatus};
      NothingYet(store);
      NothingHappened();
      NothingCounted();
    }

    // ---------- Counters and listeners ----------

    /**
      Every status is consistent with what happened, and what listeners have
      been told of it is what it has been read as.
    */
    ghost predicate Counted()
      reads `statuses, `calls, statuses
    {
      forall k {:trigger CountKey(k)} :: CountKey(k) ==>
        && (forall s :: s in statuses ==> s.Valid() && s.told == Told(calls, s))
        && forall c :: c in calls && c.Discovered? ==> c.status in statuses
    }

    /** The statuses of the monitors and the physical ones are among them. */
    ghost predicate Registered()
      reads `monitors, `statuses
    {
      && (forall id :: id in monitors ==> monitors[id].Statuses() <= statuses)
      && {hostStatus, userStatus, processStatus, locatorStatus} <= statuses
    }

    /** The status and the callback for entities of a kind that a domain has. */
    ghost function DomainStatus(m: Monitor, kind: EntityKind): Maybe<(Status, CallbackKind)> {
      match kind
      case PARTICIPANT => Just((m.participantStatus, ON_PARTICIPANT_DISCOVERY))
      case TOPIC => Just((m.topicStatus, ON_TOPIC_DISCOVERY))
      case DATAWRITER => Just((m.datawriterStatus, ON_DATAWRITER_DISCOVERY))
      case DATAREADER => Just((m.datareaderStatus, ON_DATAREADER_DISCOVERY))
      case _ => Nothing
    }

    ghost function PhysicalStatus(kind: EntityKind): Maybe<(Status, CallbackKind)> {
      match kind
      case HOST => Just((hostStatus, ON_HOST_DISCOVERY))
      case USER => Just((userStatus, ON_USER_DISCOVERY))
      case PROCESS => Just((processStatus, ON_PROCESS_DISCOVERY))
      case LOCATOR => Just((locatorStatus, ON_LOCATOR_DISCOVERY))
      case _ => Nothing
    }

    /** Each kind has its own status and callback. */
    lemma KindsAndCallbacks(m: Monitor)
      ensures DomainStatus(m, EntityKind.PARTICIPANT) == Just((m.participantStatus, ON_PARTICIPANT_DISCOVERY))
              && DomainStatus(m, EntityKind.TOPIC) == Just((m.topicStatus, ON_TOPIC_DISCOVERY))
              && DomainStatus(m, EntityKind.DATAWRITER) == Just((m.datawriterStatus, ON_DATAWRITER_DISCOVERY))
              && DomainStatus(m, EntityKind.DATAREADER) == Just((m.datareaderStatus, ON_DATAREADER_DISCOVERY))
      ensures PhysicalStatus(EntityKind.HOST) == Just((hostStatus, ON_HOST_DISCOVERY))
              && PhysicalStatus(EntityKind.USER) == Just((userStatus, ON_USER_DISCOVERY))
              && PhysicalStatus(EntityKind.PROCESS) == Just((processStatus, ON_PROCESS_DISCOVERY))
              && PhysicalStatus(EntityKind.LOCATOR) == Just((locatorStatus, ON_LOCATOR_DISCOVERY))
    {
    }

    /** The status of one kind of entity, in a domain or of the physical ones, and its callback. */
    ghost function StatusOf(domain: Maybe<EntityId>, kind: EntityKind): Maybe<(Status, CallbackKind)>
      reads `monitors
    {
      if domain.Nothing? then PhysicalStatus(kind)
      else if domain.value in monitors then DomainStatus(monitors[domain.value], kind)
      else Nothing
    }

    /** Different kinds have different statuses, and so have different domains. */
    ghost predicate KindsApart()
      reads `monitors
    {
      forall k {:trigger ApartKey(k)} :: ApartKey(k) ==>
        forall d, kind, d', kind' ::
          StatusOf(d, kind).Just? && StatusOf(d', kind').Just?
          && StatusOf(d, kind).value.0 == StatusOf(d', kind').value.0 ==>
            d == d' && kind == kind'
    }

    /** The status of each kind has seen exactly what has happened to that kind, and so have the listeners. */
    ghost predicate Chronicled()
      reads `monitors, `statuses, `calls, `history, `entities, statuses
    {
      forall k {:trigger HistoryKey(k)} :: HistoryKey(k) ==>
        && (forall d, kind :: StatusOf(d, kind).Just? ==> Follows(d, kind))
        && (forall e :: e in history && e.domain.Just? ==> e.domain.value in entities)
        && forall c :: c in calls && c.Discovered? && c.domain.Just? ==> c.domain.value in entities
    }

    ghost predicate Follows(d: Maybe<EntityId>, kind: EntityKind)
      requires StatusOf(d, kind).Just?
      reads `monitors, `statuses, `calls, `history, statuses
    {
      && StatusOf(d, kind).value.0 in statuses && StatusOf(d, kind).value.0.events == Happened(history, d, kind)
      && Told(calls, StatusOf(d, kind).value.0) == ToldOf(calls, d, StatusOf(d, kind).value.1)
    }

    lemma NothingCounted()
      requires calls == [] && forall s :: s in statuses ==> s.Valid() && s.told == []
      ensures Counted()
    {
    }

    lemma NothingHappened()
      requires monitors == map[] && calls == [] && history == []
      requires {hostStatus, userStatus, processStatus, locatorStatus} <= statuses
      requires hostStatus !in {userStatus, processStatus, locatorStatus}
      requires userStatus !in {processStatus, locatorStatus} && processStatus != locatorStatus
      requires hostStatus.events == userStatus.events == processStatus.events == locatorStatus.events == []
      ensures KindsApart() && Chronicled()
    {
    }

    /**
      Over any run, for each kind of entity in each domain, and each physical
      kind: the total is the number of its discoveries, the current count is
      what is there of it, and the changes that listeners have been told of it
      and the change still to be told add up to them.
    */
    lemma Conservation(domain: Maybe<EntityId>, kind: EntityKind)
      requires Counted() && Chronicled() && StatusOf(domain, kind).Just?
      ensures var (s, callback) := StatusOf(domain, kind).value;
              var happened := Happened(history, domain, kind);
              && s.totalCount == Discoveries(happened) && s.currentCount == Present(happened)
              && SumOfTotalChanges(ToldOf(calls, domain, callback)) + s.totalCountChange == s.totalCount
              && SumOfCurrentChanges(ToldOf(calls, domain, callback)) + s.currentCountChange == s.currentCount
              && 0 <= s.currentCount <= s.totalCount
    {
      assert HistoryKey(0);
      assert Follows(domain, kind);
      assert CountKey(0);
    }

    predicate ShouldCallDomainListener(m: Monitor, callback: CallbackKind, data: DataKind)
      reads m`domainListener, m`domainCallbackMask, m`dataMask
    {
      m.domainListener != null && callback in m.domainCallbackMask && (data == DataKind.INVALID || data in m.dataMask)
    }

    predicate ShouldCallPhysicalListener(callback: CallbackKind, data: DataKind)
      reads `physicalListener, `physicalCallbackMask, `physicalDataMask
    {
      physicalListener != null && callback in physicalCallbackMask
      && (data == DataKind.INVALID || data in physicalDataMask)
    }

    /** Who is called: the listener of the domain, or else the physical listener, or nobody. */
    ghost function Target(m: Monitor, callback: CallbackKind, data: DataKind): UserListener?
      reads m`domainListener, m`domainCallbackMask, m`dataMask, `physicalListener, `physicalCallbackMask,
            `physicalDataMask
    {
      if ShouldCallDomainListener(m, callback, data) then m.domainListener
      else PhysicalTarget(callback, data)
    }

    ghost function PhysicalTarget(callback: CallbackKind, data: DataKind): UserListener?
      reads `physicalListener, `physicalCallbackMask, `physicalDataMask
    {
      if ShouldCallPhysicalListener(callback, data) then physicalListener else null
    }

    /**
      Of a monitor's calls this listener is told, as far as both masks let it;
      the others are left to the physical listener.
    */
    ghost predicate Hears(m: Monitor, listener: UserListener?, callbacks: set<CallbackKind>, data: set<DataKind>)
      reads m`domainListener, m`domainCallbackMask, m`dataMask, `physicalListener, `physicalCallbackMask,
            `physicalDataMask
    {
      forall callback, kind :: Target(m, callback, kind)
        == if listener != null && callback in callbacks && (kind == DataKind.INVALID || kind in data) then listener
           else PhysicalTarget(callback, kind)
    }

    lemma HearsNow(m: Monitor)
      ensures Hears(m, m.domainListener, m.domainCallbackMask, m.dataMask)
    {
    }

    /** Replaces whoever is told of what no listener of a domain takes; changes that are pending stay so. */
    method SetPhysicalListener(listener: UserListener?, callbacks: set<CallbackKind>, data: set<DataKind>)
      requires Valid()
      modifies `physicalListener, `physicalCallbackMask, `physicalDataMask
      ensures Valid() && NothingReported()
      ensures forall callback, kind ::
                PhysicalTarget(callback, kind)
                == if callback in callbacks && (kind == DataKind.INVALID || kind in data) then listener else null
    {
      physicalListener, physicalCallbackMask, physicalDataMask := listener, callbacks, data;
      BooksAsBefore();
      StillViewed();
      TightAsBefore();
    }

    /** The status has changed. */
    method PrepareEntityDiscoveryStatus(change: Change, s: Status)
      requires Counted() && s in statuses
      modifies s
      ensures Counted() && s.Value() == Applied(old(s.Value()), change)
      ensures s.events == old(s.events) + if change == UPDATE then [] else [change]
    {
      assert CountKey(0);
      match change
      case DISCOVERY => s.OnInstanceDiscovered();
      case UNDISCOVERY => s.OnInstanceUndiscovered();
      case UPDATE =>
    }

    /** Calls a listener, after which the changes count from 0 again. */
    method Tell(to: UserListener, callback: CallbackKind, domain: Maybe<EntityId>, entity: EntityId, s: Status)
      requires Counted() && s in statuses
      modifies `calls, s
      ensures Counted() && s.events == old(s.events)
      ensures calls == old(calls + [Discovered(to, callback, domain, entity, s, s.Value())])
      ensures s.Value() == old(s.Value()).(totalChange := 0, currentChange := 0)
    {
      assert CountKey(0);
      ghost var c := Discovered(to, callback, domain, entity, s, s.Value());
      forall x | x in statuses
        ensures Told(calls + [c], x) == Told(calls, x) + if x == s then [c.counts] else []
      {
        ToldOnce(calls, c, x);
      }
      calls := calls + [c];
      s.OnStatusRead();
    }

    /** A change of status `s` has been recorded, and `target` has been told of it, if anybody. */
    twostate predicate Reported(s: Status, target: UserListener?, callback: CallbackKind,
                                domain: Maybe<EntityId>, entity: EntityId, change: Change)
      reads `calls, `statuses, statuses, s
    {
      forall k {:trigger Key(k)} :: Key(k) ==>
        && s.events == old(s.events) + (if change == UPDATE then [] else [change])
        && (if target == null then calls == old(calls) && s.Value() == Applied(old(s.Value()), change)
            else calls == old(calls)
                          + [Discovered(target, callback, domain, entity, s, Applied(old(s.Value()), change))]
                 && s.Value() == Applied(old(s.Value()), change).(totalChange := 0, currentChange := 0))
        && statuses == old(statuses) && forall x :: x in statuses && x != s ==> unchanged(x)
    }

    /** What happens to entities of a kind that is counted goes down in history, and concerns nothing else. */
    twostate predicate Happens(domain: Maybe<EntityId>, kind: EntityKind, change: Change)
      reads `monitors, `history, `statuses, statuses
    {
      && history == old(history) + (if StatusOf(domain, kind).Just? then [Event(domain, kind, change)] else [])
      && statuses == old(statuses)
      && forall d, k ::
           StatusOf(d, k).Just? && !(d == domain && k == kind) && StatusOf(d, k).value.0 in old(statuses) ==>
             unchanged(StatusOf(d, k).value.0)
    }

    /** A status, or a domain and a callback, tell which kind of entity it is. */
    lemma SlotsAgree(d: Maybe<EntityId>, k: EntityKind, d': Maybe<EntityId>, k': EntityKind)
      requires KindsApart() && StatusOf(d, k).Just? && StatusOf(d', k').Just?
      ensures d == d' && k == k' <==> StatusOf(d, k).value.0 == StatusOf(d', k').value.0
      ensures d == d' && k == k' <==> d == d' && StatusOf(d, k).value.1 == StatusOf(d', k').value.1
    {
      assert ApartKey(0);
    }

    /** A change that has been reported is the only one. */
    twostate lemma HappensTo(new domain: Maybe<EntityId>, new kind: EntityKind, target: UserListener?,
                             new entity: EntityId, new change: Change)
      requires old(Valid()) && KindsApart() && monitors == old(monitors) && entities == old(entities)
      requires store == old(store) && views == old(views) && known == old(known) && readerFailed == old(readerFailed)
      requires Counted() && forall x :: x in known ==> unchanged(x)
      requires StatusOf(domain, kind).Just? && StatusOf(domain, kind).value.0 in old(statuses)
      requires history == old(history) + [Event(domain, kind, change)]
      requires domain.Just? ==> domain.value in entities
      requires Reported(StatusOf(domain, kind).value.0, target, StatusOf(domain, kind).value.1, domain, entity, change)
      ensures Valid() && Happens(domain, kind, change)
    {
      StillViewed();
      TightAsBefore();
      ChronicledFurther(domain, kind, target, entity, change);
    }

    twostate lemma ChronicledFurther(new domain: Maybe<EntityId>, new kind: EntityKind, target: UserListener?,
                                     new entity: EntityId, new change: Change)
      requires old(Chronicled()) && KindsApart() && monitors == old(monitors) && entities == old(entities)
      requires StatusOf(domain, kind).Just? && StatusOf(domain, kind).value.0 in old(statuses)
      requires history == old(history) + [Event(domain, kind, change)]
      requires domain.Just? ==> domain.value in entities
      requires Reported(StatusOf(domain, kind).value.0, target, StatusOf(domain, kind).value.1, domain, entity, change)
      ensures Chronicled() && Happens(domain, kind, change) && statuses == old(statuses)
    {
      var s, callback := StatusOf(domain, kind).value.0, StatusOf(domain, kind).value.1;
      assert HistoryKey(0) && Key(0);
      ConcernsOnly(domain, kind, change);
      var told := if target == null then []
                  else [Discovered(target, callback, domain, entity, s, Applied(old(s.Value()), change))];
      assert calls == old(calls) + told;
      forall d, k | StatusOf(d, k).Just?
        ensures Follows(d, k)
      {
        assert old(Follows(d, k));
        SlotsAgree(domain, kind, d, k);
        OneMoreEvent(old(history), old(calls), Event(domain, kind, change), s, callback, told, d, k,
                     StatusOf(d, k).value.0, StatusOf(d, k).value.1);
      }
    }

    twostate lemma ConcernsOnly(new domain: Maybe<EntityId>, new kind: EntityKind, new change: Change)
      requires KindsApart() && monitors == old(monitors) && statuses == old(statuses) && StatusOf(domain, kind).Just?
      requires history == old(history) + [Event(domain, kind, change)]
      requires forall x :: x in statuses && x != StatusOf(domain, kind).value.0 ==> unchanged(x)
      ensures Happens(domain, kind, change)
    {
      forall d, k | StatusOf(d, k).Just?
        ensures d == domain && k == kind <==> StatusOf(d, k).value.0 == StatusOf(domain, kind).value.0
      {
        SlotsAgree(d, k, domain, kind);
      }
    }

    /** Records a change in a domain, and tells the domain's listener, or else the physical one. */
    method ReportDomain(m: Monitor, s: Status, callback: CallbackKind, domain: EntityId, entity: EntityId,
                        change: Change)
      requires Counted() && s in statuses
      modifies `calls, s
      ensures Counted() && Reported(s, Target(m, callback, DataKind.INVALID), callback, Just(domain), entity, change)
    {
      PrepareEntityDiscoveryStatus(change, s);
      if ShouldCallDomainListener(m, callback, DataKind.INVALID) {
        Tell(m.domainListener, callback, Just(domain), entity, s);
      } else if ShouldCallPhysicalListener(callback, DataKind.INVALID) {
        Tell(physicalListener, callback, Just(domain), entity, s);
      }
    }

    /** The same, for the status of a kind. */
    method ReportKind(m: Monitor, s: Status, callback: CallbackKind, domain: EntityId, entity: EntityId,
                      ghost kind: EntityKind, change: Change)
      requires Valid() && domain in entities && StatusOf(Just(domain), kind) == Just((s, callback))
      modifies `calls, `history, s
      ensures Valid() && Happens(Just(domain), kind, change)
      ensures Reported(s, Target(m, callback, DataKind.INVALID), callback, Just(domain), entity, change)
    {
      SlotIsRegistered(Just(domain), kind);
      ghost var target := Target(m, callback, DataKind.INVALID);
      history := history + [Event(Just(domain), kind, change)];
      ReportDomain(m, s, callback, domain, entity, change);
      HappensTo(Just(domain), kind, target, entity, change);
    }

    /**
      An entity of a domain has come or gone.  The status of its kind in that
      domain is concerned and no other, and the domain's listener is told of it,
      or else the physical one.
    */
    method OnDomainEntityDiscovery(domain: EntityId, entity: EntityId, kind: EntityKind, change: Change)
      requires Valid()
      modifies `calls, `history, statuses
      ensures Valid() && Happens(Just(domain), kind, change)
      ensures if StatusOf(Just(domain), kind).Just? then
                var (s, callback) := StatusOf(Just(domain), kind).value;
                Reported(s, Target(monitors[domain], callback, DataKind.INVALID), callback, Just(domain), entity,
                         change)
              else calls == old(calls)
    {
      if domain in monitors {
        var m := monitors[domain];
        match kind
        case PARTICIPANT => ReportKind(m, m.participantStatus, ON_PARTICIPANT_DISCOVERY, domain, entity, kind, change);
        case TOPIC => ReportKind(m, m.topicStatus, ON_TOPIC_DISCOVERY, domain, entity, kind, change);
        case DATAWRITER => ReportKind(m, m.datawriterStatus, ON_DATAWRITER_DISCOVERY, domain, entity, kind, change);
        case DATAREADER => ReportKind(m, m.datareaderStatus, ON_DATAREADER_DISCOVERY, domain, entity, kind, change);
        case _ =>
      }
    }

    /** Records a change of the physical entities, and tells the physical listener. */
    method ReportPhysical(s: Status, callback: CallbackKind, entity: EntityId, change: Change)
      requires Counted() && s in statuses
      modifies `calls, s
      ensures Counted() && Reported(s, PhysicalTarget(callback, DataKind.INVALID), callback, Nothing, entity, change)
    {
      PrepareEntityDiscoveryStatus(change, s);
      if ShouldCallPhysicalListener(callback, DataKind.INVALID) {
        Tell(physicalListener, callback, Nothing, entity, s);
      }
    }

    /** The same, for the status of a kind. */
    method ReportPhysicalKind(s: Status, callback: CallbackKind, entity: EntityId, ghost kind: EntityKind,
                              change: Change)
      requires Valid() && StatusOf(Nothing, kind) == Just((s, callback))
      modifies `calls, `history, s
      ensures Valid() && Happens(Nothing, kind, change)
      ensures Reported(s, PhysicalTarget(callback, DataKind.INVALID), callback, Nothing, entity, change)
    {
      SlotIsRegistered(Nothing, kind);
      history := history + [Event(Nothing, kind, change)];
      ReportPhysical(s, callback, entity, change);
      HappensTo(Nothing, kind, PhysicalTarget(callback, DataKind.INVALID), entity, change);
    }

    /** Physical entities come and go, but are never updated. */
    method OnPhysicalEntityDiscovery(entity: EntityId, kind: EntityKind, change: Change)
      requires Valid()
      modifies `calls, `history, statuses
      ensures Valid() && if change == UPDATE then history == old(history) else Happens(Nothing, kind, change)
      ensures if change != UPDATE && StatusOf(Nothing, kind).Just? then
                var (s, callback) := StatusOf(Nothing, kind).value;
                Reported(s, PhysicalTarget(callback, DataKind.INVALID), callback, Nothing, entity, change)
              else calls == old(calls) && forall s :: s in statuses ==> unchanged(s)
    {
      if change != UPDATE {
        match kind
        case HOST => ReportPhysicalKind(hostStatus, ON_HOST_DISCOVERY, entity, kind, change);
        case USER => ReportPhysicalKind(userStatus, ON_USER_DISCOVERY, entity, kind, change);
        case PROCESS => ReportPhysicalKind(processStatus, ON_PROCESS_DISCOVERY, entity, kind, change);
        case LOCATOR => ReportPhysicalKind(locatorStatus, ON_LOCATOR_DISCOVERY, entity, kind, change);
        case _ =>
      }
    }

    /** Tells of data; listeners may have excluded its kind. */
    method OnDataAvailable(domain: EntityId, entity: EntityId, data: DataKind)
      requires Valid()
      modifies `calls
      ensures Valid()
      ensures var target := if domain in monitors then Target(monitors[domain], ON_DATA_AVAILABLE, data) else null;
              calls == old(calls) + if target == null then [] else [DataAvailable(target, Just(domain), entity, data)]
    {
      if domain in monitors {
        var m := monitors[domain];
        ghost var to := Target(m, ON_DATA_AVAILABLE, data);
        if ShouldCallDomainListener(m, ON_DATA_AVAILABLE, data) || ShouldCallPhysicalListener(ON_DATA_AVAILABLE, data) {
          TellOfData(to, domain, entity, data);
        }
      }
    }

    ghost method TellOfData(to: UserListener, domain: EntityId, entity: EntityId, data: DataKind)
      requires Valid()
      modifies `calls
      ensures Valid() && calls == old(calls) + [DataAvailable(to, Just(domain), entity, data)]
    {
      calls := calls + [DataAvailable(to, Just(domain), entity, data)];
      CountedWithData(calls[|calls| - 1]);
      ChronicledWithData(calls[|calls| - 1]);
    }

    /** Data is not counted. */
    twostate lemma CountedWithData(c: Call)
      requires old(Counted()) && c.DataAvailable? && calls == old(calls) + [c]
      requires statuses == old(statuses) && forall s :: s in statuses ==> unchanged(s)
      ensures Counted()
    {
      assert CountKey(0);
      forall s | s in statuses
        ensures Told(calls, s) == Told(old(calls), s)
      {
        ToldOnce(old(calls), c, s);
      }
    }

    twostate lemma ChronicledWithData(c: Call)
      requires old(Chronicled()) && monitors == old(monitors) && entities == old(entities) && history == old(history)
      requires c.DataAvailable? && calls == old(calls) + [c]
      requires statuses == old(statuses) && forall s :: s in statuses ==> unchanged(s)
      ensures Chronicled()
    {
      assert HistoryKey(0);
      forall d, k | StatusOf(d, k).Just?
        ensures Follows(d, k)
      {
        assert old(Follows(d, k));
        ToldOnce(old(calls), c, StatusOf(d, k).value.0);
        ToldOfOnce(old(calls), c, d, StatusOf(d, k).value.1);
      }
    }

    // ---------- Monitors ----------

    /** `views` is what the monitors point at; every monitor knows its own key, and is tidy unless a reader fails. */
    ghost predicate Viewed()
      reads `monitors, `known, `views, `entities, `readerFailed, known
    {
      && views.Keys == monitors.Keys <= entities
      && forall k {:trigger ViewKey(k)} :: ViewKey(k) ==> forall id :: id in monitors ==>
           && monitors[id] in known && monitors[id].id == id && monitors[id].Shows(views[id])
           && (monitors[id].readerFailed ==> readerFailed)
    }

    lemma DistinctMonitors()
      requires Viewed()
      ensures forall i, j :: i in monitors && j in monitors && monitors[i] == monitors[j] ==> i == j
    {
      assert ViewKey(0);
    }

    lemma ViewOf(id: EntityId)
      requires Viewed() && id in monitors
      ensures monitors[id] in known && monitors[id].id == id && monitors[id].View() == views[id] && monitors[id].Tidy()
    {
      assert ViewKey(0);
      monitors[id].ShowsFacts(views[id]);
    }

    /** The monitors are complete and share nothing, and everything else that exists is accounted for. */
    ghost predicate Ordered()
      reads `store, `views
    {
      InOrder(base, store, views)
    }

    /** The listeners that exist although nothing points at them. */
    ghost function Leaks(): set<Handle>
      reads `store, `views
    {
      Leaked(base, store.live, views)
    }

    /** As long as no reader has failed, nothing has leaked. */
    ghost predicate Tight()
      reads `readerFailed, `store, `views
    {
      forall k {:trigger TightKey(k)} :: TightKey(k) ==> !readerFailed ==> Leaks() == {}
    }

    lemma TightFacts()
      requires Tight()
      ensures !readerFailed ==> Leaks() == {}
    {
      assert TightKey(0);
    }

    ghost predicate Valid()
      reads `monitors, `known, `views, `entities, `readerFailed, known, `store, `statuses, `calls, `history, statuses
    {
      Viewed() && Ordered() && Tight() && Counted() && Registered() && KindsApart() && Chronicled()
    }

    // ---------- What one step leaves as it was ----------

    /** Of the monitors there have been, at most `m` has changed, and as much is known of them as before. */
    twostate predicate OnlyConcerns(m: Monitor)
      reads `known, `entities, known
    {
      && m in known && known == old(known) && entities == old(entities)
      && forall x :: x in known && x != m ==> unchanged(x)
    }

    /** Nothing has been counted, and nobody has been told. */
    twostate predicate NothingReported()
      reads `statuses, `calls, `history, statuses
    {
      && statuses == old(statuses) && calls == old(calls) && history == old(history)
      && forall s :: s in statuses ==> unchanged(s)
    }

    twostate lemma CountedAsBefore()
      requires old(Counted()) && NothingReported()
      ensures Counted()
    {
      assert CountKey(0);
    }

    twostate lemma TightAsBefore()
      requires old(Tight()) && readerFailed == old(readerFailed) && Leaks() == old(Leaks())
      ensures Tight()
    {
      assert TightKey(0);
    }

    twostate lemma TightAfterStep(left: set<Handle>)
      requires old(Tight()) && Leaks() == old(Leaks()) + left
      requires !readerFailed ==> !old(readerFailed) && left == {}
      ensures Tight()
    {
      assert TightKey(0);
    }

    twostate lemma ViewedAfterStep(m: Monitor)
      requires old(Viewed()) && OnlyConcerns(m) && monitors == old(monitors) && m.id in monitors && monitors[m.id] == m
      requires m.Tidy() && views == old(views)[m.id := m.View()]
      requires readerFailed == (old(readerFailed) || m.readerFailed)
      ensures Viewed()
    {
      assert ViewKey(0);
    }

    twostate lemma ViewedWithout(id: EntityId)
      requires old(Viewed()) && monitors == old(monitors) - {id} && views == old(views) - {id}
      requires known == old(known) && entities == old(entities) && forall x :: x in known ==> unchanged(x)
      requires readerFailed == old(readerFailed)
      ensures Viewed()
    {
      assert ViewKey(0);
    }

    twostate lemma RegisteredWithout(id: EntityId)
      requires old(Registered()) && monitors == old(monitors) - {id} && statuses == old(statuses)
      ensures Registered()
    {
      assert ViewKey(0);
    }

    /** Nothing is known of the statuses of a new monitor, nor of its domain. */
    ghost predicate Untold(m: Monitor)
      reads m`id, `monitors, `history, `calls, m.Statuses()
    {
      forall k {:trigger HistoryKey(k)} :: HistoryKey(k) ==>
        && m.StatusesApart()
        && (forall d, kind :: StatusOf(d, kind).Just? ==> StatusOf(d, kind).value.0 !in m.Statuses())
        && (forall s :: s in m.Statuses() ==> s.events == [] && Told(calls, s) == [])
        && (forall kind :: Happened(history, Just(m.id), kind) == [])
        && forall callback :: ToldOf(calls, Just(m.id), callback) == []
    }

    twostate lemma ChronicledWithout(id: EntityId)
      requires old(Chronicled()) && old(KindsApart()) && monitors == old(monitors) - {id}
      requires entities == old(entities) && NothingReported()
      ensures Chronicled() && KindsApart()
    {
      assert HistoryKey(0) && ApartKey(0);
      forall d, kind | StatusOf(d, kind).Just?
        ensures StatusOf(d, kind) == old(StatusOf(d, kind)) && Follows(d, kind)
      {
        assert old(Follows(d, kind));
      }
    }

    twostate lemma ChronicledWith(m: Monitor)
      requires old(Chronicled()) && old(KindsApart()) && old(Untold(m)) && m.id == old(m.id) && m.Statuses() <= statuses
      requires monitors == old(monitors)[m.id := m] && entities == old(entities) && NothingReported()
      ensures Chronicled() && KindsApart()
    {
      assert HistoryKey(0) && ApartKey(0);
      forall d, kind | StatusOf(d, kind).Just?
        ensures if d == Just(m.id) then StatusOf(d, kind) == DomainStatus(m, kind)
                else StatusOf(d, kind) == old(StatusOf(d, kind))
        ensures Follows(d, kind)
      {
        assert d != Just(m.id) ==> old(Follows(d, kind));
      }
    }

    twostate lemma ChronicledAsBefore()
      requires old(Chronicled()) && monitors == old(monitors) && old(entities) <= entities
      requires history == old(history) && calls == old(calls)
      requires old(statuses) <= statuses && forall s :: s in old(statuses) ==> unchanged(s)
      ensures Chronicled()
    {
      assert HistoryKey(0);
      forall d, kind | StatusOf(d, kind).Just?
        ensures Follows(d, kind)
      {
        assert old(Follows(d, kind));
      }
    }

    twostate lemma BooksAsBefore()
      requires old(Counted() && Registered() && KindsApart() && Chronicled()) && NothingReported()
      requires monitors == old(monitors) && old(entities) <= entities
      ensures Counted() && Registered() && KindsApart() && Chronicled()
    {
      CountedAsBefore();
      ChronicledAsBefore();
    }

    twostate lemma ViewedWith(m: Monitor)
      requires old(Viewed()) && old(Registrable(m)) && OnlyConcerns(m) && m.id == old(m.id)
      requires monitors == old(monitors)[m.id := m] && views == old(views)[m.id := m.View()] && m.Tidy()
               && !m.readerFailed
      requires readerFailed == old(readerFailed)
      ensures Viewed()
    {
      assert ViewKey(0);
    }

    twostate lemma RegisteredWith(m: Monitor)
      requires old(Registered()) && old(Registrable(m)) && m.id == old(m.id)
      requires monitors == old(monitors)[m.id := m] && statuses == old(statuses)
      ensures Registered()
    {
      assert ViewKey(0);
    }

    twostate lemma InOrderWith(m: Monitor)
      requires old(Valid()) && old(Registrable(m)) && OnlyConcerns(m) && m.id == old(m.id) && NothingReported()
      requires monitors == old(monitors)[m.id := m] && views == old(views)[m.id := m.View()] && m.Tidy()
               && !m.readerFailed
      requires readerFailed == old(readerFailed) && Completed(old(store), store, m.View())
      ensures Valid() && Leaks() == old(Leaks())
    {
      assert ViewKey(0);
      ChronicledWith(m);
      AfterBuild(base, old(store), store, old(views), m.id, m.View());
      ViewedWith(m);
      RegisteredWith(m);
      TightAsBefore();
      CountedAsBefore();
    }

    twostate lemma ViewedBeside(m: Monitor)
      requires old(Viewed()) && old(Registrable(m)) && OnlyConcerns(m)
      requires monitors == old(monitors) && views == old(views) && readerFailed == old(readerFailed)
      ensures Viewed()
    {
      assert ViewKey(0);
    }

    lemma FailureOf(id: EntityId)
      requires Viewed() && id in monitors
      ensures monitors[id].readerFailed ==> readerFailed
    {
      assert ViewKey(0);
    }

    /**
      In every state: no spying reader is without its listener, no spy listener
      without its topic; as long as no reader could not be created, there are
      as many of each.
    */
    lemma SpiesAreNested(id: EntityId)
      requires Valid() && id in monitors
      ensures monitors[id].spyReaders.Keys <= monitors[id].spyListeners.Keys <= monitors[id].spyTopics.Keys
      ensures !monitors[id].readerFailed ==>
                monitors[id].spyReaders.Keys == monitors[id].spyListeners.Keys == monitors[id].spyTopics.Keys
    {
      ViewOf(id);
      OrderOf(store.live, views, id);
      SpyKeys(store.live, views[id]);
    }

    /**
      In every state: a spy listener that was created for a monitor and exists
      is entered under its topic in that monitor and no other, or it has leaked;
      as long as no reader could not be created, none has.
    */
    lemma NoListenerIsLost(h: Handle, name: string) returns (id: EntityId)
      requires Valid() && h in store.live && h !in base && store.live[h] == Listener(SpyListener(name))
      ensures h !in Leaks() ==> id in monitors && name in monitors[id].spyListeners
                                && monitors[id].spyListeners[name] == h
      ensures h !in Leaks() ==> forall i :: i in monitors && h in monitors[i].spyListeners.Values ==> i == id
      ensures h in Leaks() ==> forall i :: i in monitors ==> h !in monitors[i].spyListeners.Values
      ensures !readerFailed ==> h !in Leaks()
    {
      id := 0;
      TightFacts();
      if h !in Leaks() {
        id := SpyListenerIsFound(base, store, views, h, name);
        ViewOf(id);
      }
      forall i | i in monitors && h in monitors[i].spyListeners.Values
        ensures h in Recorded(views[i]) && !Nobodys(views, h)
      {
        ViewOf(i);
        assert OuterKey(0);
      }
    }

    /** A listener that has leaked is called by nobody, so that freeing it would do no harm. */
    lemma LeaksAreUnused(h: Handle)
      requires Valid() && h in Leaks()
      ensures h in store.live && store.live[h].Listener? && !InUse(store.live, h)
    {
      LeakedIsUnused(base, store, views, h);
    }

    /** What an attempt abandons has not leaked before. */
    lemma AbandonedIsNoLeak(id: EntityId, name: string)
      requires Viewed() && Ordered() && id in monitors
      ensures Abandoned(views[id], name) !! Leaks()
    {
      ViewOf(id);
      OrderOf(store.live, views, id);
      AbandonedIsListener(store.live, views[id], name);
      assert OuterKey(0);
      assert forall h :: h in Recorded(views[id]) ==> !Nobodys(views, h);
    }

    /**
      After an attempt that got no reader, its listener is entered and has not
      leaked, and the next attempt for the topic leaks it and nothing else.
    */
    lemma FailedAttemptLeaks(id: EntityId, name: string, typeName: Maybe<string>, before: Entities)
      requires Valid() && id in monitors && SpyOutcome(before, name, typeName, READER_ERROR, monitors[id].View())
      ensures name in monitors[id].spyListeners && monitors[id].spyListeners[name] !in Leaks()
      ensures Abandoned(views[id], name) == {monitors[id].spyListeners[name]}
    {
      ViewOf(id);
      NextAttemptAbandons(before, name, typeName, views[id]);
      AbandonedIsNoLeak(id, name);
    }

    method SetDomainListener(id: EntityId, listener: UserListener?, callbacks: set<CallbackKind>, data: set<DataKind>)
        returns (found: bool)
      requires Valid()
      modifies if id in monitors then {monitors[id]} else {}
      ensures Valid() && (found <==> id in monitors)
      ensures found ==> monitors[id].domainListener == listener && monitors[id].domainCallbackMask == callbacks
                        && monitors[id].dataMask == data && Hears(monitors[id], listener, callbacks, data)
      ensures forall i :: i in monitors && i != id ==> unchanged(monitors[i])
    {
      found := id in monitors;
      if found {
        DistinctMonitors();
        monitors[id].SetListener(listener, callbacks, data);
        HearsNow(monitors[id]);
      }
    }

    /**
      Creates a monitor for a domain for which the database has just made the
      entity `domain`, which it keeps in any case.  If the monitor cannot be
      completed, nothing else remains of it.
    */
    method CreateAndRegisterMonitor(domain: EntityId, listener: UserListener?, callbacks: set<CallbackKind>,
                                    data: set<DataKind>,
                                    topics: seq<string>, typeOf: string -> string) returns (r: Result<EntityId>)
      requires Valid() && domain !in entities
      requires forall i, j :: 0 <= i < j < |topics| ==> topics[i] != topics[j]
      modifies `monitors, `store, `entities, `statuses, `known, `views
      ensures Valid() && entities == old(entities) + {domain} && store.refused == old(store.refused)
      ensures r.Error? ==> monitors == old(monitors) && store.live == old(store.live) && views == old(views)
      ensures Leaks() == old(Leaks())
      ensures r.Ok? ==> r.value == domain && domain in monitors && fresh(monitors[domain])
                        && monitors == old(monitors)[domain := monitors[domain]]
                        && views == old(views)[domain := views[domain]]
                        && Completed(old(store), store, views[domain])
                        && Typed(store.live, views[domain].topics, typeOf)
      ensures r.Ok? ==> monitors[domain].domainListener == listener && monitors[domain].domainCallbackMask == callbacks
                        && monitors[domain].dataMask == data && Hears(monitors[domain], listener, callbacks, data)
                        && forall n :: n in views[domain].topics <==> n in topics
    {
      var m := NewMonitor(domain, listener, callbacks, data);
      var ok := Complete(m, topics, typeOf);
      r := if ok then Ok(domain) else Error;
      HearsNow(m);
    }

    /** A new monitor with its listener, for a new domain of the database. */
    method NewMonitor(domain: EntityId, listener: UserListener?, callbacks: set<CallbackKind>, data: set<DataKind>)
        returns (m: Monitor)
      requires Valid() && domain !in entities
      modifies `entities, `statuses, `known
      ensures Valid() && fresh(m) && entities == old(entities) + {domain} && known == old(known) + {m}
              && m.Statuses() <= statuses
      ensures m.id == domain && Registrable(m)
      ensures m.domainListener == listener && m.domainCallbackMask == callbacks && m.dataMask == data
    {
      NothingYetOf(domain);
      entities := entities + {domain};
      m := MonitorOf(domain, listener, callbacks, data);
      ChronicledAsBefore();
      Welcome(m);
    }

    lemma NothingYetOf(domain: EntityId)
      requires Chronicled() && domain !in entities
      ensures forall kind :: Happened(history, Just(domain), kind) == []
      ensures forall callback :: ToldOf(calls, Just(domain), callback) == []
    {
      assert HistoryKey(0);
      forall kind
        ensures Happened(history, Just(domain), kind) == []
      {
        NeverHappened(history, Just(domain), kind);
      }
      forall callback
        ensures ToldOf(calls, Just(domain), callback) == []
      {
        NeverToldOf(calls, Just(domain), callback);
      }
    }

    /** A new monitor is one that there has been. */
    ghost method Welcome(m: Monitor)
      requires Valid() && m !in known && m.Statuses() !! statuses
      requires forall s :: s in m.Statuses() ==> s.Valid() && s.told == [] && s.events == []
      requires m.StatusesApart()
      requires forall kind :: Happened(history, Just(m.id), kind) == []
      requires forall callback :: ToldOf(calls, Just(m.id), callback) == []
      modifies `statuses, `known
      ensures Valid() && known == old(known) + {m} && m.Statuses() <= statuses && Untold(m)
    {
      NobodyTold(m);
      RegisterStatuses(m);
      known := known + {m};
      StillViewed();
      ChronicledAsBefore();
    }

    lemma NobodyTold(m: Monitor)
      requires Counted() && Registered() && m.Statuses() !! statuses
      requires forall s :: s in m.Statuses() ==> s.events == []
      requires m.StatusesApart()
      requires forall kind :: Happened(history, Just(m.id), kind) == []
      requires forall callback :: ToldOf(calls, Just(m.id), callback) == []
      ensures Untold(m)
    {
      assert CountKey(0);
      forall s | s in m.Statuses()
        ensures Told(calls, s) == []
      {
        NeverTold(calls, s);
      }
      forall d, kind | StatusOf(d, kind).Just?
        ensures StatusOf(d, kind).value.0 in statuses
      {
        SlotIsRegistered(d, kind);
      }
    }

    lemma StatusesRegistered(id: EntityId)
      requires Registered() && id in monitors
      ensures monitors[id].Statuses() <= statuses
    {
    }

    lemma SlotIsRegistered(d: Maybe<EntityId>, kind: EntityKind)
      requires Registered() && StatusOf(d, kind).Just?
      ensures StatusOf(d, kind).value.0 in statuses
    {
      if d.Just? {
        StatusesRegistered(d.value);
        assert StatusOf(d, kind).value.0 in monitors[d.value].Statuses();
      } else {
        assert StatusOf(d, kind).value.0 in {hostStatus, userStatus, processStatus, locatorStatus};
      }
    }

    twostate lemma StillViewed()
      requires old(Viewed()) && monitors == old(monitors) && views == old(views) && entities == old(entities)
      requires old(known) <= known && readerFailed == old(readerFailed) && forall x :: x in old(known) ==> unchanged(x)
      ensures Viewed()
    {
      assert ViewKey(0);
    }

    /** What it takes for a monitor to be registered. */
    ghost predicate Registrable(m: Monitor)
      reads `monitors, `known, `statuses, `entities, m, `history, `calls, m.Statuses()
    {
      forall k {:trigger ViewKey(k)} :: ViewKey(k) ==>
        && Untold(m) && m in known && m.Statuses() <= statuses && m.View() == BLANK && !m.readerFailed && m.Tidy()
        && m.id in entities && m.id !in monitors && forall i :: i in monitors ==> monitors[i] != m
    }

    lemma RegistrableFacts(m: Monitor)
      requires Registrable(m)
      ensures Untold(m) && m in known && m.View() == BLANK && !m.readerFailed && m.Tidy() && m.id !in monitors
    {
      assert ViewKey(0);
    }

    /** Registers the monitor and creates what belongs to it; if that fails, the monitor is removed again. */
    method Complete(m: Monitor, topics: seq<string>, typeOf: string -> string) returns (ok: bool)
      requires Valid() && Registrable(m)
      requires forall i, j :: 0 <= i < j < |topics| ==> topics[i] != topics[j]
      modifies `monitors, `store, `views,
               m`spyParticipant, m`participantListener, m`statisticsReaderListener, m`participant, m`subscriber,
               m`spySubscriber,
               m`statisticsTopics, m`statisticsReaders
      ensures Valid() && store.refused == old(store.refused)
      ensures monitors == if ok then old(monitors)[m.id := m] else old(monitors)
      ensures views == if ok then old(views)[m.id := m.View()] else old(views)
      ensures if ok then Completed(old(store), store, m.View()) && Typed(store.live, m.View().topics, typeOf)
                         && forall n :: n in m.View().topics <==> n in topics
              else store.live == old(store.live)
      ensures Leaks() == old(Leaks())
    {
      RegistrableFacts(m);
      monitors := monitors[m.id := m];
      store, ok := m.Build(store, topics, typeOf);
      if ok {
        views := views[m.id := m.View()];
        InOrderWith(m);
      } else {
        monitors := monitors - {m.id};
        InOrderBeside(m);
      }
    }

    /** An attempt that has left nothing changes nothing. */
    twostate lemma InOrderBeside(m: Monitor)
      requires old(Valid()) && old(Registrable(m)) && OnlyConcerns(m) && NothingReported()
      requires m.id == old(m.id) && monitors == old(monitors)[m.id := m] - {m.id}
      requires views == old(views) && readerFailed == old(readerFailed)
      requires store.Valid() && store.live == old(store.live)
      ensures monitors == old(monitors) && Valid() && Leaks() == old(Leaks())
    {
      assert ViewKey(0);
      AddedAndRemoved(old(monitors), m.id, m);
      ChronicledAsBefore();
      AfterFailure(base, old(store), store, views);
      ViewedBeside(m);
      TightAsBefore();
      CountedAsBefore();
    }

    /** Nobody has been told of the statuses of a new monitor. */
    ghost method RegisterStatuses(m: Monitor)
      requires Counted() && Registered() && m.Statuses() !! statuses
      requires forall s :: s in m.Statuses() ==> s.Valid() && s.told == []
      modifies `statuses
      ensures Counted() && Registered() && statuses == old(statuses) + m.Statuses()
    {
      assert CountKey(0);
      forall s | s in m.Statuses()
        ensures Told(calls, s) == []
      {
        NeverTold(calls, s);
      }
      statuses := statuses + m.Statuses();
    }

    /** Takes a monitor down and forgets it. */
    method StopMonitor(id: EntityId) returns (found: bool)
      requires Valid()
      modifies `monitors, `store, `views
      ensures Valid() && (found <==> id in old(monitors))
      ensures monitors == old(monitors) - {id} && views == old(views) - {id}
      ensures store == if found then Store(old(store.live - Recorded(views[id])), old(store.next), old(store.refused))
              else old(store)
      ensures Leaks() == old(Leaks())
    {
      found := id in monitors;
      if found {
        ViewOf(id);
        OrderOf(store.live, views, id);
        store := monitors[id].Release(store);
        AfterRelease(base, old(store), store, views, id);
        monitors := monitors - {id};
        views := views - {id};
        ViewedWithout(id);
        RegisteredWithout(id);
        ChronicledWithout(id);
        TightAsBefore();
      }
    }

    /** Of the monitors `all` there were, those of `gone` have been taken down. */
    ghost predicate Remaining(all: Views, before: Store, gone: set<EntityId>)
      reads `store, `views
    {
      && gone !! views.Keys && gone + views.Keys == all.Keys && (forall i :: i in views ==> views[i] == all[i])
      && store == Store(before.live - RecordedBy(Some(all, gone)), before.next, before.refused)
    }

    /** Takes down some monitor, by the key that it knows itself. */
    method StopFirst(ghost all: Views, ghost before: Store, ghost gone: set<EntityId>) returns (key: EntityId)
      requires Valid() && Remaining(all, before, gone) && monitors != map[]
      modifies `monitors, `store, `views
      ensures Valid() && key in old(monitors) && monitors == old(monitors) - {key}
              && Remaining(all, before, gone + {key})
      ensures Leaks() == old(Leaks())
    {
      var items := monitors.Items;
      var item :| item in items;
      key := item.0;
      ViewOf(key);
      RecordedByOneMore(all, gone, key);
      DifferenceOfUnion(before.live, RecordedBy(Some(all, gone)), Recorded(views[key]));
      var found := StopMonitor(item.1.id);
    }

    /**
      Takes down all monitors.  What remains is what existed before there were
      any, and the listeners that have leaked: if no reader ever failed, nothing.
    */
    method Destroy()
      requires Valid()
      modifies `monitors, `store, `views
      ensures Valid() && monitors == map[]
      ensures store == Store(old(store.live - RecordedBy(views)), old(store.next), old(store.refused))
      ensures Leaks() == old(Leaks()) && store.live.Keys == base.Keys + Leaks()
      ensures !readerFailed ==> store.live == base
    {
      ghost var gone: set<EntityId> := {};
      NobodyRecorded(views);
      while monitors != map[]
        invariant Valid() && Remaining(old(views), old(store), gone) && Leaks() == old(Leaks())
        decreases monitors.Keys
      {
        var key := StopFirst(old(views), old(store), gone);
        gone := gone + {key};
      }
      AllTakenDown(old(views), old(store), gone);
    }

    lemma AllTakenDown(all: Views, before: Store, gone: set<EntityId>)
      requires Viewed() && Ordered() && Tight() && monitors == map[] && Remaining(all, before, gone)
      ensures store == Store(before.live - RecordedBy(all), before.next, before.refused)
      ensures store.live.Keys == base.Keys + Leaks() && (!readerFailed ==> store.live == base)
    {
      AllRecorded(all);
      assert views == map[] && Some(all, gone) == all;
      Afterwards(base, store);
      TightFacts();
    }

    /** What starting a spy on one monitor means for the whole. */
    method StartSpyOf(m: Monitor, name: string, typeName: Maybe<string>) returns (result: SpyResult)
      requires Valid() && m.id in monitors && monitors[m.id] == m
      modifies `store, `views, `readerFailed, m`spyTopics, m`spyReaders, m`spyListeners, m`readerFailed
      ensures Valid() && views == old(views)[m.id := m.View()]
      ensures Stepped(old(store), old(views[m.id]), store, m.View(), Abandoned(old(views[m.id]), name))
      ensures SpyOutcome(old(views[m.id]), name, typeName, result, m.View())
      ensures if Attached(result) then NewlyTyped(old(views[m.id]), name, typeName, store.live, m.View())
              else store == old(store)
      ensures readerFailed == (old(readerFailed) || result == READER_ERROR)
      ensures Leaks() == old(Leaks()) + Abandoned(old(views[m.id]), name)
    {
      ViewOf(m.id);
      FailureOf(m.id);
      OrderOf(store.live, views, m.id);
      store, result := m.StartTopicSpy(store, name, typeName);
      views := views[m.id := m.View()];
      readerFailed := readerFailed || m.readerFailed;
      AfterAttempt(m, name);
    }

    /** An attempt keeps everything in order, and loses what it abandons. */
    twostate lemma AfterAttempt(m: Monitor, new name: string)
      requires old(Valid()) && OnlyConcerns(m) && NothingReported()
      requires m.id == old(m.id) && m.id in monitors && monitors[m.id] == m && monitors == old(monitors) && m.Tidy()
      requires Stepped(old(store), old(views[m.id]), store, m.View(), Abandoned(old(views[m.id]), name))
      requires views == old(views)[m.id := m.View()] && readerFailed == (old(readerFailed) || m.readerFailed)
      requires !readerFailed ==> Abandoned(old(views[m.id]), name) == {}
      ensures Valid() && Leaks() == old(Leaks()) + Abandoned(old(views[m.id]), name)
    {
      var e0 := old(views[m.id]);
      OrderOf(old(store.live), old(views), m.id);
      AbandonedIsListener(old(store.live), e0, name);
      AfterStep(base, old(store), store, old(views), m.id, m.View(), Abandoned(e0, name));
      ViewedAfterStep(m);
      TightAfterStep(Abandoned(e0, name));
      BooksAsBefore();
    }

    /**
      Begins to spy on a topic of a monitor.  All other monitors stay as they
      are.  A listener leaks exactly if one is entered for the topic and no
      reader, and it is that listener.
    */
    method StartTopicSpy(id: EntityId, name: string, typeName: Maybe<string>) returns (r: Lookup<SpyResult>)
      requires Valid()
      modifies `store, `views, `readerFailed, if id in monitors then {monitors[id]} else {}
      ensures Valid() && (r.Found? <==> id in monitors)
      ensures readerFailed == (old(readerFailed) || r == Found(READER_ERROR))
      ensures if r.Found? then
                && views == old(views)[id := views[id]]
                && SpyOutcome(old(views[id]), name, typeName, r.value, views[id])
                && Stepped(old(store), old(views[id]), store, views[id], Abandoned(old(views[id]), name))
                && Leaks() == old(Leaks()) + Abandoned(old(views[id]), name)
                && Abandoned(old(views[id]), name) !! old(Leaks())
                && (if Attached(r.value) then NewlyTyped(old(views[id]), name, typeName, store.live, views[id])
                    else store == old(store))
              else store == old(store) && views == old(views)
    {
      if id in monitors {
        ViewOf(id);
        AbandonedIsNoLeak(id, name);
        var result := StartSpyOf(monitors[id], name, typeName);
        r := Found(result);
      } else {
        r := BadParameter;
      }
    }

    /** What stopping a spy on one monitor means for the whole. */
    method StopSpyOf(m: Monitor, name: string) returns (result: StopResult)
      requires Valid() && m.id in monitors && monitors[m.id] == m
      modifies `store, `views, m`spyTopics, m`spyReaders, m`spyListeners
      ensures Valid() && Leaks() == old(Leaks())
      ensures result == UNKNOWN_TOPIC <==> name !in old(views[m.id].spyTopics)
      ensures result == STOPPED <==> name in old(views[m.id].spyReaders)
      ensures if result == STOPPED then SpyStopped(old(store), old(views), m.id, name)
              else store == old(store) && views == old(views)
    {
      ViewOf(m.id);
      FailureOf(m.id);
      OrderOf(store.live, views, m.id);
      store, result := m.StopTopicSpy(store, name);
      if result == STOPPED {
        views := views[m.id := m.View()];
        AfterStop(m, name);
      } else {
        StillViewed();
        BooksAsBefore();
      }
    }

    /** No longer spying keeps everything in order. */
    twostate lemma AfterStop(m: Monitor, new name: string)
      requires old(Valid()) && OnlyConcerns(m) && NothingReported()
      requires m.id == old(m.id) && m.id in monitors && monitors[m.id] == m && monitors == old(monitors) && m.Tidy()
      requires SpyStopped(old(store), old(views), m.id, name) && store.Valid() && Owned(store.live, m.View())
      requires views[m.id] == m.View() && readerFailed == old(readerFailed) && (m.readerFailed ==> readerFailed)
      ensures Valid() && Leaks() == old(Leaks())
    {
      AfterExit(base, old(store), store, old(views), m.id, name);
      ViewedAfterStep(m);
      TightAsBefore();
      BooksAsBefore();
    }

    /** Exactly the reader, the topic and the listener are gone, and one monitor no longer points at them. */
    ghost predicate SpyStopped(before: Store, all: Views, id: EntityId, name: string)
      reads `store, `views
    {
      && id in all && name in all[id].spyReaders && name in all[id].spyListeners && name in all[id].spyTopics
      && all[id].spyTopics[name].Just?
      && views == all[id := SpyExit(all[id], name)]
      && store == Store(before.live - SpiedOn(all[id], name), before.next, before.refused)
    }

    /** No longer spies on a topic of a monitor. */
    method StopTopicSpy(id: EntityId, name: string) returns (r: Lookup<StopResult>)
      requires Valid()
      modifies `store, `views, if id in monitors then {monitors[id]} else {}
      ensures Valid() && (r.Found? <==> id in monitors) && Leaks() == old(Leaks())
      ensures r.Found? ==> (r.value == UNKNOWN_TOPIC <==> name !in old(views[id].spyTopics))
                           && (r.value == STOPPED <==> name in old(views[id].spyReaders))
      ensures if r.Found? && r.value == STOPPED then SpyStopped(old(store), old(views), id, name)
              else store == old(store) && views == old(views)
    {
      if id in monitors {
        ViewOf(id);
        var result := StopSpyOf(monitors[id], name);
        r := Found(result);
      } else {
        r := BadParameter;
      }
    }
  }
}
