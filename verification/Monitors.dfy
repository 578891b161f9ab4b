/**
  A monitor: how its DDS objects are created, with all that has been created
  deleted again if something fails, how user data topics are spied on, and how
  the monitor is taken down.
*/
module Monitors {
  import opened Basics
  import opened DdsStore
  import opened MonitorEntities
  import opened MonitorRelease
  import opened MonitorSpies
  import opened DiscoveryStatus
  import opened Sequences

  // ---------- Deleting what is kept under names ----------

  function PointeesOf(m: map<string, Maybe<Handle>>, names: set<string>): set<Handle> {
    set n | n in names && n in m && m[n].Just? :: m[n].value
  }

  lemma PointeesOfAll(m: map<string, Maybe<Handle>>)
    ensures PointeesOf(m, m.Keys) == Pointees(m) && PointeesOf(m, {}) == {}
  {
  }

  lemma PointeesOfMore(m: map<string, Maybe<Handle>>, names: set<string>, n: string)
    requires n in m
    ensures PointeesOf(m, names + {n}) == PointeesOf(m, names) + Pointee(m[n])
  {
  }

  /** Deletes the entities of `parent` that `m` points at, where it is not null. */
  method DeleteAll(s: Store, parent: Handle, m: map<string, Maybe<Handle>>) returns (r: Store)
    requires s.Valid() && Separate(m)
    requires forall h :: h in Pointees(m) ==> Deletable(s.live, Just(parent), h)
    ensures r == Store(s.live - Pointees(m), s.next, s.refused) && r.Valid()
  {
    r := s;
    var todo := m.Keys;
    ghost var done := {};
    PointeesOfAll(m);
    while todo != {}
      invariant done + todo == m.Keys && done !! todo
      invariant r == Store(s.live - PointeesOf(m, done), s.next, s.refused) && r.Valid()
      decreases todo
    {
      var n :| n in todo;
      if m[n] != Nothing {
        assert m[n].value in Pointees(m);
        assert m[n].value !in PointeesOf(m, done);
        UnusedInPart(s.live, r.live, m[n].value);
        r := r.Delete(Just(parent), m[n].value);
      }
      PointeesOfMore(m, done, n);
      todo, done := todo - {n}, done + {n};
    }
  }

  lemma UnusedInPart(live: Live, part: Live, h: Handle)
    requires !InUse(live, h) && forall x :: x in part ==> x in live && part[x] == live[x]
    ensures !InUse(part, h)
  {
  }

  /** When the readers are gone, the topics are not in use. */
  lemma TopicsUnused(live: Live, topics: set<Handle>, readers: set<Handle>, h: Handle)
    requires Closed(live) && Closed(live - (topics + readers)) && h in topics
    requires forall t :: t in topics ==> t in live && live[t].Topic?
    ensures !InUse(live - readers, h)
  {
    var left, rest := live - readers, live - (topics + readers);
    forall x | x in left
      ensures h !in Uses(left[x])
    {
      assert Fits(live, live[x]);
      if x in rest {
        assert Fits(rest, rest[x]);
      }
    }
  }

  /** Exactly the topics of these names have been entered, each with its reader. */
  ghost predicate Served(topics: map<string, Maybe<Handle>>, readers: map<string, Maybe<Handle>>, names: seq<string>) {
    forall k {:trigger Key(k)} :: Key(k) ==>
      && (forall n :: n in topics <==> n in names)
      && readers.Keys == topics.Keys && forall n :: n in readers ==> readers[n].Just?
  }

  lemma NotYetServed(topics: map<string, Maybe<Handle>>, readers: map<string, Maybe<Handle>>, names: seq<string>,
                     i: nat)
    requires i < |names| && forall j, k :: 0 <= j < k < |names| ==> names[j] != names[k]
    requires Served(topics, readers, names[..i])
    ensures names[i] !in topics && names[i] !in readers
  {
    assert Key(0);
    TakenNext(names, i);
  }

  lemma ServedNext(topics: map<string, Maybe<Handle>>, readers: map<string, Maybe<Handle>>, names: seq<string>, i: nat,
                   t: Maybe<Handle>, r: Maybe<Handle>)
    requires i < |names| && forall j, k :: 0 <= j < k < |names| ==> names[j] != names[k]
    requires Served(topics, readers, names[..i]) && r.Just?
    ensures Served(topics[names[i] := t], readers[names[i] := r], names[..i + 1])
  {
    assert Key(0);
    TakenNext(names, i);
  }

  /** The readers, and then the topics. */
  method DeleteReadersAndTopics(s: Store, ghost e: Entities, participant: Handle, subscriber: Handle,
                                readers: map<string, Maybe<Handle>>, topics: map<string, Maybe<Handle>>)
      returns (r: Store)
    requires s.Valid() && Subscribed(s.live, e) && e.participant == Just(participant)
             && e.subscriber == Just(subscriber)
    requires e.readers == readers && e.topics == topics
    requires Closed(s.live - Guarded(e, TOPICS_AND_READERS))
    ensures r == Store(s.live - Guarded(e, TOPICS_AND_READERS), s.next, s.refused) && r.Valid()
  {
    NamesSeparate(s.live, e);
    forall h | h in Pointees(readers)
      ensures Deletable(s.live, Just(subscriber), h)
    {
      ReaderUnused(s.live, h);
    }
    r := DeleteAll(s, subscriber, readers);
    forall h | h in Pointees(topics)
      ensures Deletable(r.live, Just(participant), h)
    {
      TopicsUnused(s.live, Pointees(topics), Pointees(readers), h);
    }
    r := DeleteAll(r, participant, topics);
    assert s.live - Pointees(readers) - Pointees(topics) == s.live - (Pointees(topics) + Pointees(readers));
  }

  /** The object of a guard is not in use once the later guards have run. */
  lemma GuardedUnused(live: Live, base: Live, e: Entities, guards: seq<Guard>, g: Guard, h: Handle)
    requires Stacked(live, base, e, guards + [g]) && Guarded(e, g) == {h} && g != TOPICS_AND_READERS
    ensures h in live && Armed(live, e, g) && !InUse(live, h) && Stacked(live - {h}, base, e, guards)
  {
    assert (guards + [g])[..|guards|] == guards;
    RemovalClosed(live, h);
  }

  datatype CallbackKind =
    | ON_TOPIC_DISCOVERY | ON_PARTICIPANT_DISCOVERY | ON_DATAWRITER_DISCOVERY | ON_DATAREADER_DISCOVERY
    | ON_HOST_DISCOVERY | ON_USER_DISCOVERY | ON_PROCESS_DISCOVERY | ON_LOCATOR_DISCOVERY
    | ON_DATA_AVAILABLE | ON_DOMAIN_VIEW_GRAPH_UPDATE | ON_STATUS_REPORTED | ON_ALERT_TRIGGERED | ON_ALERT_TIMEOUT

  datatype DataKind =
    | INVALID | FASTDDS_LATENCY | NETWORK_LATENCY | PUBLICATION_THROUGHPUT | SUBSCRIPTION_THROUGHPUT
    | RTPS_PACKETS_SENT | RTPS_BYTES_SENT | RTPS_PACKETS_LOST | RTPS_BYTES_LOST | RESENT_DATA | HEARTBEAT_COUNT
    | ACKNACK_COUNT | NACKFRAG_COUNT | GAP_COUNT | DATA_COUNT | PDP_PACKETS | EDP_PACKETS | DISCOVERY_TIME
    | SAMPLE_DATAS

  type EntityId = int

  /** A listener of the user's. */
  class UserListener {
    constructor () {}
  }

  class Monitor {
    var id: EntityId
    var domainListener: UserListener?
    var domainCallbackMask: set<CallbackKind>
    var dataMask: set<DataKind>
    var participant: Maybe<Handle>
    var participantListener: Maybe<Handle>
    var subscriber: Maybe<Handle>
    var statisticsTopics: map<string, Maybe<Handle>>
    var statisticsReaders: map<string, Maybe<Handle>>
    var statisticsReaderListener: Maybe<Handle>
    var spyTopics: map<string, Maybe<Handle>>
    var spyReaders: map<string, Handle>
    var spyListeners: map<string, Handle>
    var spyParticipant: Maybe<Handle>
    var spySubscriber: Maybe<Handle>
    // whether the creation of a reader for a spied topic has ever failed
    ghost var readerFailed: bool
    const participantStatus: Status
    const topicStatus: Status
    const datareaderStatus: Status
    const datawriterStatus: Status

    ghost function View(): Entities
      reads `participant, `participantListener, `subscriber, `statisticsTopics, `statisticsReaders,
            `statisticsReaderListener,
            `spyTopics, `spyReaders, `spyListeners, `spyParticipant, `spySubscriber
    {
      Entities(spyParticipant, participantListener, statisticsReaderListener, participant, subscriber, spySubscriber,
               statisticsTopics, statisticsReaders, spyTopics, spyReaders, spyListeners)
    }

    /** The monitor points at `e`, and is tidy. */
    ghost predicate Shows(e: Entities)
      reads `participant, `participantListener, `subscriber, `statisticsTopics, `statisticsReaders,
            `statisticsReaderListener,
            `spyTopics, `spyReaders, `spyListeners, `spyParticipant, `spySubscriber, `readerFailed
    {
      forall k {:trigger Key(k)} :: Key(k) ==> View() == e && Tidy()
    }

    lemma ShowsFacts(e: Entities)
      requires Shows(e)
      ensures View() == e && Tidy()
    {
      assert Key(0);
    }

    ghost function Statuses(): set<Status> {
      {participantStatus, topicStatus, datareaderStatus, datawriterStatus}
    }

    ghost predicate StatusesApart() {
      && participantStatus !in {topicStatus, datareaderStatus, datawriterStatus}
      && topicStatus !in {datareaderStatus, datawriterStatus} && datareaderStatus != datawriterStatus
    }

    constructor ()
      ensures View() == BLANK && domainListener == null && !readerFailed
      ensures fresh(Statuses()) && forall s :: s in Statuses() ==> s.Valid() && s.events == [] && s.told == []
      ensures StatusesApart()
    {
      id, domainListener, domainCallbackMask, dataMask := 0, null, {}, {};
      participant, participantListener, subscriber := Nothing, Nothing, Nothing;
      statisticsTopics, statisticsReaders, statisticsReaderListener := map[], map[], Nothing;
      spyTopics, spyReaders, spyListeners := map[], map[], map[];
      spyParticipant, spySubscriber := Nothing, Nothing;
      readerFailed := false;
      participantStatus := new Status();
      topicStatus := new Status();
      datareaderStatus := new Status();
      datawriterStatus := new Status();
    }

    method SetListener(listener: UserListener?, callbacks: set<CallbackKind>, data: set<DataKind>)
      modifies `domainListener, `domainCallbackMask, `dataMask
      ensures domainListener == listener && domainCallbackMask == callbacks && dataMask == data
    {
      domainListener, domainCallbackMask, dataMask := listener, callbacks, data;
    }

    // ---------- Creation ----------

    /** What a scope guard does at the end of its scope. */
    method Undo(s: Store, g: Guard, ghost base: Live, ghost guards: seq<Guard>) returns (r: Store)
      requires s.Valid() && Stacked(s.live, base, View(), guards + [g])
      ensures r.Valid() && r == Store(s.live - Guarded(View(), g), s.next, s.refused)
              && Stacked(r.live, base, View(), guards)
    {
      assert (guards + [g])[..|guards|] == guards;
      if g != TOPICS_AND_READERS {
        ghost var h :| Guarded(View(), g) == {h};
        GuardedUnused(s.live, base, View(), guards, g, h);
      }
      match g
      case SPY_PARTICIPANT => r := s.Delete(Nothing, spyParticipant.value);
      case PARTICIPANT_LISTENER => r := s.Free(participantListener.value);
      case READER_LISTENER => r := s.Free(statisticsReaderListener.value);
      case PARTICIPANT => r := s.Delete(Nothing, participant.value);
      case SUBSCRIBER => r := s.Delete(participant, subscriber.value);
      case TOPICS_AND_READERS =>
        r := DeleteReadersAndTopics(s, View(), participant.value, subscriber.value, statisticsReaders,
                                    statisticsTopics);
      case SPY_SUBSCRIBER => r := s.Delete(spyParticipant, spySubscriber.value);
    }

    /** All guards, the last one first. */
    method Unwind(s: Store, guards: seq<Guard>, ghost base: Live) returns (r: Store)
      requires s.Valid() && Stacked(s.live, base, View(), guards)
      ensures r.Valid() && r == Store(base, s.next, s.refused)
    {
      r := s;
      var n := |guards|;
      assert guards[..n] == guards;
      while n > 0
        invariant 0 <= n <= |guards|
        invariant r.Valid() && r == Store(r.live, s.next, s.refused) && Stacked(r.live, base, View(), guards[..n])
      {
        n := n - 1;
        assert guards[..n + 1] == guards[..n] + [guards[n]];
        r := Undo(r, guards[n], base, guards[..n]);
      }
    }

    method CreateSpyParticipant(s0: Store) returns (s: Store, ok: bool)
      requires s0.Valid() && View() == BLANK
      modifies `spyParticipant
      ensures View() == BLANK.(spyParticipant := spyParticipant)
      ensures ok ==> At(s.live, spyParticipant, Participant(Nothing))
      ensures Progress(s0, s, View(), if ok then [SPY_PARTICIPANT] else [])
    {
      s, spyParticipant := TryCreate(s0, Participant(Nothing));
      ok := spyParticipant.Just?;
      ProgressBegins(s0);
      if ok {
        ProgressGoesOn(s0, s0, BLANK, View(), [], SPY_PARTICIPANT, Participant(Nothing));
      }
    }

    method CreateListeners(s0: Store, ghost base: Store) returns (s: Store)
      requires Progress(base, s0, View(), ALL_GUARDS[..1]) && View() == BLANK.(spyParticipant := spyParticipant)
      requires At(s0.live, spyParticipant, Participant(Nothing))
      modifies `participantListener, `statisticsReaderListener
      ensures Progress(base, s, View(), ALL_GUARDS[..3])
      ensures View() == old(View()).(participantListener := participantListener,
                                     readerListener := statisticsReaderListener)
      ensures At(s.live, spyParticipant, Participant(Nothing))
      ensures At(s.live, participantListener, Listener(ParticipantListener))
      ensures At(s.live, statisticsReaderListener, Listener(ReaderListener))
    {
      ghost var e := View();
      participantListener := Just(s0.next);
      s := s0.With(Listener(ParticipantListener));
      ProgressGoesOn(base, s0, e, View(), ALL_GUARDS[..1], PARTICIPANT_LISTENER, Listener(ParticipantListener));
      assert ALL_GUARDS[..1] + [PARTICIPANT_LISTENER] == ALL_GUARDS[..2];
      ghost var e', s' := View(), s;
      statisticsReaderListener := Just(s.next);
      s := s.With(Listener(ReaderListener));
      ProgressGoesOn(base, s', e', View(), ALL_GUARDS[..2], READER_LISTENER, Listener(ReaderListener));
      assert ALL_GUARDS[..2] + [READER_LISTENER] == ALL_GUARDS[..3];
    }

    method CreateParticipant(s0: Store, ghost base: Store) returns (s: Store, ok: bool)
      requires Progress(base, s0, View(), ALL_GUARDS[..3])
               && At(s0.live, participantListener, Listener(ParticipantListener))
      requires participant == Nothing && subscriber == Nothing && spySubscriber == Nothing
      requires statisticsTopics == map[] && statisticsReaders == map[]
      modifies `participant
      ensures View() == old(View()).(participant := participant)
      ensures if ok then s == s0.With(Participant(participantListener))
              && At(s.live, participant, Participant(participantListener))
              else s == s0 && View() == old(View())
      ensures Progress(base, s, View(), ALL_GUARDS[..if ok then 4 else 3])
    {
      ghost var e := View();
      s, participant := TryCreate(s0, Participant(participantListener));
      ok := participant.Just?;
      if ok {
        ProgressGoesOn(base, s0, e, View(), ALL_GUARDS[..3], PARTICIPANT, Participant(participantListener));
        assert ALL_GUARDS[..3] + [PARTICIPANT] == ALL_GUARDS[..4];
      }
    }

    /** The subscriber, and the guard for what is created next. */
    method CreateSubscriber(s0: Store, ghost base: Store) returns (s: Store, ok: bool)
      requires Progress(base, s0, View(), ALL_GUARDS[..4]) && At(s0.live, participant, Participant(participantListener))
      requires subscriber == Nothing && spySubscriber == Nothing && statisticsReaderListener.Just?
      requires statisticsTopics == map[] && statisticsReaders == map[]
      modifies `subscriber
      ensures View() == old(View()).(subscriber := subscriber)
      ensures if ok then s == s0.With(Subscriber(participant.value))
              && At(s.live, subscriber, Subscriber(participant.value))
              else s == s0 && View() == old(View())
      ensures Progress(base, s, View(), ALL_GUARDS[..if ok then 6 else 4])
    {
      ghost var e := View();
      s, subscriber := TryCreate(s0, Subscriber(participant.value));
      ok := subscriber.Just?;
      if ok {
        ProgressGoesOn(base, s0, e, View(), ALL_GUARDS[..4], SUBSCRIBER, Subscriber(participant.value));
        assert ALL_GUARDS[..4] + [SUBSCRIBER] == ALL_GUARDS[..5];
        ProgressGuards(base, s, View(), ALL_GUARDS[..5]);
        assert ALL_GUARDS[..5] + [TOPICS_AND_READERS] == ALL_GUARDS[..6];
      }
    }

    method CreateSpySubscriber(s0: Store, ghost base: Store) returns (s: Store, ok: bool)
      requires Progress(base, s0, View(), ALL_GUARDS[..6]) && At(s0.live, spyParticipant, Participant(Nothing))
      requires spySubscriber == Nothing
      modifies `spySubscriber
      ensures View() == old(View()).(spySubscriber := spySubscriber)
      ensures if ok then s == s0.With(Subscriber(spyParticipant.value))
              && At(s.live, spySubscriber, Subscriber(spyParticipant.value))
              else s == s0 && View() == old(View())
      ensures Progress(base, s, View(), ALL_GUARDS[..if ok then 7 else 6])
    {
      ghost var e := View();
      s, spySubscriber := TryCreate(s0, Subscriber(spyParticipant.value));
      ok := spySubscriber.Just?;
      if ok {
        ProgressGoesOn(base, s0, e, View(), ALL_GUARDS[..6], SPY_SUBSCRIBER, Subscriber(spyParticipant.value));
        assert ALL_GUARDS[..6] + [SPY_SUBSCRIBER] == ALL_GUARDS[..7];
      }
    }

    /** Everything but the topics and readers exists, as far as the scope guards reach. */
    ghost predicate Complete(base: Store, s: Store)
      reads `participant, `participantListener, `subscriber, `statisticsTopics, `statisticsReaders,
            `statisticsReaderListener,
            `spyTopics, `spyReaders, `spyListeners, `spyParticipant, `spySubscriber
    {
      && Progress(base, s, View(), ALL_GUARDS) && Founded(s.live, View()) && Subscribed(s.live, View())
      && spyTopics == map[] && spyReaders == map[] && spyListeners == map[]
    }

    /** The participant and subscriber that receive statistics. */
    method CreateReceivers(s0: Store, ghost base: Store) returns (s: Store, guards: seq<Guard>, ok: bool)
      requires Progress(base, s0, View(), ALL_GUARDS[..3])
      requires View() == BLANK.(spyParticipant := spyParticipant, participantListener := participantListener,
                                readerListener := statisticsReaderListener)
      requires At(s0.live, spyParticipant, Participant(Nothing))
      requires At(s0.live, participantListener, Listener(ParticipantListener))
      requires At(s0.live, statisticsReaderListener, Listener(ReaderListener))
      modifies `participant, `subscriber
      ensures Progress(base, s, View(), guards)
      ensures View() == old(View()).(participant := participant, subscriber := subscriber)
      ensures ok ==> guards == ALL_GUARDS[..6] && participant.Just?
                     && At(s.live, participant, Participant(participantListener))
                     && At(s.live, subscriber, Subscriber(participant.value))
      ensures ok ==> At(s.live, spyParticipant, Participant(Nothing))
                     && At(s.live, participantListener, Listener(ParticipantListener))
                     && At(s.live, statisticsReaderListener, Listener(ReaderListener))
    {
      guards := ALL_GUARDS[..3];
      s, ok := CreateParticipant(s0, base);
      if !ok {
        return;
      }
      guards := ALL_GUARDS[..4];
      s, ok := CreateSubscriber(s, base);
      if ok {
        guards := ALL_GUARDS[..6];
      }
    }

    /** What exists before the topics are registered. */
    method CreateFoundation(s0: Store) returns (s: Store, guards: seq<Guard>, ok: bool)
      requires s0.Valid() && View() == BLANK
      modifies `spyParticipant, `participantListener, `statisticsReaderListener, `participant, `subscriber,
               `spySubscriber
      ensures Progress(s0, s, View(), guards)
      ensures ok ==> guards == ALL_GUARDS && Complete(s0, s) && statisticsTopics == map[] && statisticsReaders == map[]
    {
      guards := [];
      s, ok := CreateSpyParticipant(s0);
      if !ok {
        return;
      }
      guards := [SPY_PARTICIPANT];
      assert guards == ALL_GUARDS[..1];
      s := CreateListeners(s, s0);
      s, guards, ok := CreateReceivers(s, s0);
      if !ok {
        return;
      }
      s, ok := CreateSpySubscriber(s, s0);
      if ok {
        guards := ALL_GUARDS;
        assert ALL_GUARDS[..7] == ALL_GUARDS;
      }
    }

    /** Registers a topic of the statistics. */
    method EnterTopic(s0: Store, name: string, typeName: string, ghost base: Store) returns (s: Store, ok: bool)
      requires Complete(base, s0) && name !in statisticsTopics && name !in statisticsReaders
      modifies `statisticsTopics
      ensures Complete(base, s) && Grows(s0.live, s.live)
      ensures ok ==> name in statisticsTopics && HasType(s.live, statisticsTopics[name], typeName)
                     && statisticsTopics == old(statisticsTopics)[name := statisticsTopics[name]]
    {
      ghost var e := View();
      forall h
        ensures !IsTopicOf(s0.live, h, participant.value, name)
      {
        NoOtherTopic(base, s0, e, ALL_GUARDS, h, name);
      }
      var t;
      s, t := FindOrCreateTopic(s0, participant.value, name, typeName);
      ok := t.Ok?;
      if ok {
        TopicEntered(base, s0, e, name, t.value, if t.value.Just? then Just(Topic(participant.value, name, typeName))
                     else Nothing);
        statisticsTopics := statisticsTopics[name := t.value];
      }
    }

    /** Creates the reader for a topic; without a topic, or if that fails, it is a null pointer. */
    method EnterReader(s0: Store, name: string, ghost base: Store) returns (s: Store, ok: bool)
      requires Complete(base, s0) && name in statisticsTopics && name !in statisticsReaders
      modifies `statisticsReaders
      ensures Complete(base, s) && Grows(s0.live, s.live)
      ensures name in statisticsReaders && ok == statisticsReaders[name].Just?
              && statisticsReaders == old(statisticsReaders)[name := statisticsReaders[name]]
    {
      ghost var e := View();
      var t, r: Maybe<Handle> := statisticsTopics[name], Nothing;
      s := s0;
      if t.Just? {
        s, r := TryCreate(s0, Reader(subscriber.value, t.value, statisticsReaderListener.value));
      }
      ReaderEntered(base, s0, e, name, r,
                    if r.Just? then Just(Reader(subscriber.value, t.value, statisticsReaderListener.value))
                    else Nothing);
      statisticsReaders := statisticsReaders[name := r];
      ok := r.Just?;
    }

    /** Registers a topic and creates its reader. */
    method CreateReader(s0: Store, name: string, typeName: string, ghost base: Store) returns (s: Store, ok: bool)
      requires Complete(base, s0) && name !in statisticsTopics && name !in statisticsReaders
      modifies `statisticsTopics, `statisticsReaders
      ensures Complete(base, s) && Grows(s0.live, s.live)
      ensures ok ==> name in statisticsTopics && HasType(s.live, statisticsTopics[name], typeName)
                     && statisticsTopics == old(statisticsTopics)[name := statisticsTopics[name]]
      ensures ok ==> name in statisticsReaders && statisticsReaders[name].Just?
                     && statisticsReaders == old(statisticsReaders)[name := statisticsReaders[name]]
    {
      s, ok := EnterTopic(s0, name, typeName, base);
      if ok {
        ghost var s1 := s;
        s, ok := EnterReader(s, name, base);
        GrowsFurther(s0.live, s1.live, s.live, statisticsTopics[name], typeName);
      }
    }

    /** The topics of the statistics, each with its reader. */
    method CreateReaders(s0: Store, topics: seq<string>, typeOf: string -> string, ghost base: Store)
          returns (s: Store, ok: bool)
      requires Complete(base, s0) && statisticsTopics == map[] && statisticsReaders == map[]
      requires forall i, j :: 0 <= i < j < |topics| ==> topics[i] != topics[j]
      modifies `statisticsTopics, `statisticsReaders
      ensures Complete(base, s)
      ensures ok ==> Served(statisticsTopics, statisticsReaders, topics) && Typed(s.live, statisticsTopics, typeOf)
    {
      s, ok := s0, true;
      var i := 0;
      while i < |topics|
        invariant 0 <= i <= |topics| && Complete(base, s)
        invariant Served(statisticsTopics, statisticsReaders, topics[..i])
        invariant Typed(s.live, statisticsTopics, typeOf)
      {
        NotYetServed(statisticsTopics, statisticsReaders, topics, i);
        ghost var t, r, live := statisticsTopics, statisticsReaders, s.live;
        s, ok := CreateReader(s, topics[i], typeOf(topics[i]), base);
        if !ok {
          return;
        }
        TypedNext(live, s.live, t, typeOf, topics[i], statisticsTopics[topics[i]]);
        ServedNext(t, r, topics, i, statisticsTopics[topics[i]], statisticsReaders[topics[i]]);
        i := i + 1;
      }
      assert topics[..i] == topics;
      ok := true;
    }

    /**
      Creates all that belongs to a monitor.  If anything fails, be it at the
      last topic, the scope guards run, and everything that has been created is
      deleted again: each object once, and none that something else still needs.
    */
    method Build(s0: Store, topics: seq<string>, typeOf: string -> string) returns (s: Store, ok: bool)
      requires s0.Valid() && View() == BLANK
      requires forall i, j :: 0 <= i < j < |topics| ==> topics[i] != topics[j]
      modifies `spyParticipant, `participantListener, `statisticsReaderListener, `participant, `subscriber,
               `spySubscriber,
               `statisticsTopics, `statisticsReaders
      ensures s.Valid() && s.refused == s0.refused && s.next >= s0.next
      ensures !ok ==> s.live == s0.live
      ensures ok ==> Completed(s0, s, View()) && View().spyTopics == map[]
                     && Typed(s.live, View().topics, typeOf) && forall n :: n in View().topics <==> n in topics
    {
      var guards;
      s, guards, ok := CreateFoundation(s0);
      if ok {
        s, ok := CreateReaders(s, topics, typeOf, s0);
      }
      ProgressFacts(s0, s, View(), guards);
      if ok {
        assert Key(0);
        CompletedFrom(s0, s, View(), guards);
      } else {
        s := Unwind(s, guards, s0.live);
      }
    }

    // ---------- Release ----------

    /** Deletes the statistics side: readers, subscriber, topics, participant. */
    method ReleaseReceivers(s0: Store) returns (s: Store)
      requires s0.Valid() && Owned(s0.live, View())
      ensures s.Valid() && s == Store(s0.live - Receivers(View()), s0.next, s0.refused)
    {
      ghost var e, live := View(), s0.live;
      ReadersDeletable(live, e);
      s := DeleteAll(s0, subscriber.value, statisticsReaders);
      SubscriberDeletable(live, e);
      s := s.Delete(participant, subscriber.value);
      TopicsDeletable(live, e);
      s := DeleteAll(s, participant.value, statisticsTopics);
      ParticipantDeletable(live, e);
      s := s.Delete(Nothing, participant.value);
      assert s.live == live - Receivers(e);
    }

    /** Deletes the spy participant with everything that it contains. */
    method ReleaseSpies(s0: Store, ghost live: Live) returns (s: Store)
      requires s0.Valid() && Owned(live, View()) && s0.live == live - Receivers(View())
      ensures s.Valid() && s == Store(s0.live - Spies(View()), s0.next, s0.refused)
    {
      SpiesDeletable(live, View(), s0.live);
      s := s0.DeleteContained(spyParticipant.value);
      s := s.Delete(Nothing, spyParticipant.value);
    }

    /** Frees the listeners. */
    method ReleaseListeners(s0: Store, ghost live: Live) returns (s: Store)
      requires s0.Valid() && Owned(live, View()) && s0.live == live - Receivers(View()) - Spies(View())
      ensures s.Valid() && s == Store(s0.live - Listeners(View()), s0.next, s0.refused)
    {
      ghost var e := View();
      ListenersFree(live, e, s0.live);
      s := s0.Free(statisticsReaderListener.value);
      var todo := spyListeners.Keys;
      ghost var done: set<string> := {};
      while todo != {}
        invariant done + todo == spyListeners.Keys && done !! todo
        invariant s.Valid()
        invariant s == Store(s0.live - {statisticsReaderListener.value} - ValuesOf(spyListeners, done), s0.next,
                             s0.refused)
        decreases todo
      {
        var n :| n in todo;
        assert spyListeners[n] in spyListeners.Values;
        assert spyListeners[n] !in ValuesOf(spyListeners, done);
        UnusedInPart(s0.live, s.live, spyListeners[n]);
        s := s.Free(spyListeners[n]);
        FreedOneMore(s0.live - {statisticsReaderListener.value}, spyListeners, done, n);
        todo, done := todo - {n}, done + {n};
      }
      assert ValuesOf(spyListeners, spyListeners.Keys) == spyListeners.Values;
      UnusedInPart(s0.live, s.live, participantListener.value);
      s := s.Free(participantListener.value);
      FreedAll(s0.live, e);
    }

    /** Takes the monitor down: all its objects are deleted, each once, and none that is still in use. */
    method Release(s0: Store) returns (s: Store)
      requires s0.Valid() && Owned(s0.live, View())
      ensures s.Valid() && s == Store(s0.live - Recorded(View()), s0.next, s0.refused)
    {
      s := ReleaseReceivers(s0);
      s := ReleaseSpies(s, s0.live);
      s := ReleaseListeners(s, s0.live);
      RecordedInOrder(View());
    }

    // ---------- Spies ----------

    /** As long as no reader has failed, every spied topic has its listener and reader. */
    ghost predicate Tidy()
      reads `spyTopics, `spyReaders, `spyListeners, `readerFailed
    {
      !readerFailed ==> spyReaders.Keys == spyListeners.Keys == spyTopics.Keys
    }

    /** Finds or creates the topic to spy on; a topic that cannot be created is kept as a null pointer. */
    method FindSpyTopic(s0: Store, name: string, typeName: string) returns (s: Store, ok: bool)
      requires s0.Valid() && Owned(s0.live, View()) && name !in spyTopics
      modifies `spyTopics
      ensures Stepped(s0, old(View()), s, View(), {})
      ensures if ok then name in spyTopics && spyTopics == old(spyTopics)[name := spyTopics[name]]
                         && HasType(s.live, spyTopics[name], typeName)
              else spyTopics == old(spyTopics) && s == s0
    {
      ghost var e := View();
      NoSpyTopicYet(s0.live, e, name);
      var t;
      s, t := FindOrCreateTopic(s0, spyParticipant.value, name, typeName);
      ok := t.Ok?;
      if ok {
        SpyTopicEntered(s0, e, name, t.value, if t.value.Just? then Just(Topic(spyParticipant.value, name, typeName))
                        else Nothing);
        spyTopics := spyTopics[name := t.value];
      } else {
        NotStepped(s0, e);
      }
    }

    /** A new listener for the topic. */
    method AttachListener(s0: Store, name: string) returns (s: Store)
      requires s0.Valid() && Owned(s0.live, View()) && name in spyTopics && name !in spyReaders
      modifies `spyListeners
      ensures s == s0.With(Listener(SpyListener(name))) && View() == SpyListenerEntry(old(View()), name, s0.next)
      ensures Stepped(s0, old(View()), s, View(), old(Overwritten(View(), name)))
    {
      SpyListenerEntered(s0, View(), name);
      s := s0.With(Listener(SpyListener(name)));
      spyListeners := spyListeners[name := s0.next];
    }

    /** A reader for the topic and its listener, if one can be created; without a topic, it cannot. */
    method AttachReader(s0: Store, name: string) returns (s: Store, ok: bool)
      requires s0.Valid() && Owned(s0.live, View()) && name in spyTopics && name in spyListeners && name !in spyReaders
      modifies `spyReaders, `readerFailed
      ensures Stepped(s0, old(View()), s, View(), {})
      ensures View() == if ok then SpyReaderEntry(old(View()), name, s0.next) else old(View())
      ensures spyTopics[name] == Nothing ==> !ok
      ensures readerFailed == (old(readerFailed) || !ok)
    {
      var r: Maybe<Handle> := Nothing;
      s := s0;
      if spyTopics[name].Just? {
        OwnedFacts(s0.live, View());
        SpyReaderEntered(s0, View(), name);
        s, r := TryCreate(s0, Reader(spySubscriber.value, spyTopics[name].value, spyListeners[name]));
      }
      ok := r.Just?;
      if ok {
        spyReaders := spyReaders[name := r.value];
      } else {
        readerFailed := true;
        NotStepped(s0, View());
      }
    }

    /** A listener and a reader for the topic; the listener stays behind if there is no reader. */
    method SpyOn(s0: Store, name: string) returns (s: Store, ok: bool)
      requires s0.Valid() && Owned(s0.live, View()) && name in spyTopics && name !in spyReaders
      modifies `spyReaders, `spyListeners, `readerFailed
      ensures Stepped(s0, old(View()), s, View(), old(Overwritten(View(), name)))
      ensures View() == if ok then SpyReaderEntry(SpyListenerEntry(old(View()), name, s0.next), name, s0.next + 1)
                        else SpyListenerEntry(old(View()), name, s0.next)
      ensures spyTopics[name] == Nothing ==> !ok
      ensures readerFailed == (old(readerFailed) || !ok)
    {
      ghost var e0 := View();
      OverwrittenIsLive(s0.live, e0, name);
      s := AttachListener(s0, name);
      ghost var s1, e1 := s, View();
      s, ok := AttachReader(s, name);
      SteppedBefore(s0, e0, s1, e1, s, View(), Overwritten(e0, name));
    }

    /** The topic that is recorded, or a new one. */
    method EnsureSpyTopic(s0: Store, name: string, typeName: Maybe<string>) returns (s: Store, ok: bool)
      requires s0.Valid() && Owned(s0.live, View()) && (name in spyTopics || typeName.Just?)
      modifies `spyTopics
      ensures Stepped(s0, old(View()), s, View(), {})
      ensures if ok then name in spyTopics && spyTopics == if name in old(spyTopics) then old(spyTopics)
                                                           else old(spyTopics)[name := spyTopics[name]]
              else name !in spyTopics && spyTopics == old(spyTopics) && s == s0
      ensures ok && name !in old(spyTopics) ==> HasType(s.live, spyTopics[name], typeName.value)
    {
      if name in spyTopics {
        NotStepped(s0, View());
        s, ok := s0, true;
      } else {
        s, ok := FindSpyTopic(s0, name, typeName.value);
      }
    }

    /** Goes on to spy on a topic that exists, or whose type is known. */
    method AttemptSpy(s0: Store, name: string, typeName: Maybe<string>) returns (s: Store, result: SpyResult)
      requires s0.Valid() && Owned(s0.live, View()) && name !in spyReaders && (name in spyTopics || typeName.Just?)
      modifies `spyTopics, `spyReaders, `spyListeners, `readerFailed
      ensures Stepped(s0, old(View()), s, View(), Abandoned(old(View()), name))
      ensures SpyOutcome(old(View()), name, typeName, result, View())
      ensures !Attached(result) ==> s == s0
      ensures readerFailed == (old(readerFailed) || result == READER_ERROR)
      ensures Attached(result) ==> NewlyTyped(old(View()), name, typeName, s.live, View())
    {
      ghost var e0 := View();
      SpyKeys(s0.live, e0);
      var ok;
      s, ok := EnsureSpyTopic(s0, name, typeName);
      if !ok {
        return s, TOPIC_ERROR;
      }
      ghost var s1, e1 := s, View();
      s, ok := SpyOn(s, name);
      EnteredBy(e0, e1, View(), name, ok, s1.next, s1.next + 1);
      OutcomeOfAttempt(e0, name, typeName, ok, View());
      result := if ok then STARTED else READER_ERROR;
      OverwrittenIsLive(s0.live, e0, name);
      assert Abandoned(e0, name) == Overwritten(e1, name);
      SteppedFurther(s0, e0, s1, e1, s, View(), Abandoned(e0, name));
      StepKeepsType(s1, e1, s, View(), Overwritten(e1, name), spyTopics[name], typeName);
    }

    /**
      Begins to spy on a topic of a known type.  If the reader cannot be
      created, the listener that was created for it stays behind, and the next
      attempt abandons it.
    */
    method StartTopicSpy(s0: Store, name: string, typeName: Maybe<string>) returns (s: Store, result: SpyResult)
      requires s0.Valid() && Owned(s0.live, View()) && Tidy()
      modifies `spyTopics, `spyReaders, `spyListeners, `readerFailed
      ensures Tidy() && Stepped(s0, old(View()), s, View(), Abandoned(old(View()), name))
      ensures SpyOutcome(old(View()), name, typeName, result, View())
      ensures !Attached(result) ==> s == s0
      ensures readerFailed == (old(readerFailed) || result == READER_ERROR)
      ensures Attached(result) ==> NewlyTyped(old(View()), name, typeName, s.live, View())
      // only a reader that could not be created makes a later attempt abandon a listener
      ensures !old(readerFailed) ==> Abandoned(old(View()), name) == {}
    {
      SpyKeys(s0.live, View());
      AbandonsNothing(View(), name);
      NotStepped(s0, View());
      s := s0;
      if name in spyReaders {
        OutcomeWithoutAttempt(View(), name, typeName);
        return s, ALREADY_SPIED;
      }
      if name !in spyTopics && typeName == Nothing {
        OutcomeWithoutAttempt(View(), name, typeName);
        return s, NO_TYPE;
      }
      ghost var e0 := View();
      s, result := AttemptSpy(s0, name, typeName);
      OutcomeIsTidy(e0, name, typeName, result, View());
    }

    /** Deletes the reader, then the topic, then the listener. */
    method DeleteSpy(s0: Store, name: string) returns (s: Store)
      requires s0.Valid() && Owned(s0.live, View()) && name in spyReaders
      modifies `spyTopics, `spyReaders, `spyListeners
      ensures name in old(spyListeners) && name in old(spyTopics) && old(spyTopics)[name].Just?
      ensures View() == SpyExit(old(View()), name)
      ensures s == Store(s0.live - old(SpiedOn(View(), name)), s0.next, s0.refused) && s.Valid()
    {
      ghost var e := View();
      SpiedOnDeletable(s0.live, e, name);
      s := s0.Delete(spySubscriber, spyReaders[name]);
      s := s.Delete(spyParticipant, spyTopics[name].value);
      spyReaders := spyReaders - {name};
      spyTopics := spyTopics - {name};
      s := s.Free(spyListeners[name]);
      spyListeners := spyListeners - {name};
      assert s.live == s0.live - SpiedOn(e, name);
    }

    /** No longer spies on a topic: deletes its reader, the topic, and the listener. */
    method StopTopicSpy(s0: Store, name: string) returns (s: Store, result: StopResult)
      requires s0.Valid() && Owned(s0.live, View()) && Tidy()
      modifies `spyTopics, `spyReaders, `spyListeners
      ensures s.Valid() && Owned(s.live, View()) && Tidy()
      ensures result == UNKNOWN_TOPIC <==> name !in old(spyTopics)
      ensures result == STOPPED <==> name in old(spyReaders)
      ensures if result == STOPPED then View() == SpyExit(old(View()), name) else s == s0 && unchanged(this)
      ensures result == STOPPED ==> name in old(spyListeners) && name in old(spyTopics) && old(spyTopics)[name].Just?
                                    && s == Store(s0.live - old(SpiedOn(View(), name)), s0.next, s0.refused)
    {
      SpyKeys(s0.live, View());
      s := s0;
      if name !in spyTopics {
        return s, UNKNOWN_TOPIC;
      }
      if name !in spyReaders {
        return s, NOT_SPIED;
      }
      ghost var e := View();
      s := DeleteSpy(s0, name);
      SpyExited(s0.live, e, name);
      ExitKeys(e, name);
      result := STOPPED;
    }
  }

  datatype StopResult = STOPPED | UNKNOWN_TOPIC | NOT_SPIED

  datatype SpyResult = STARTED | ALREADY_SPIED | NO_TYPE | TOPIC_ERROR | READER_ERROR

  /** The attempt has got as far as a listener. */
  predicate Attached(result: SpyResult) {
    result == STARTED || result == READER_ERROR
  }

  /** The listener that an attempt leaves without a pointer to it: that of an earlier attempt which got no reader. */
  function Abandoned(e: Entities, name: string): set<Handle> {
    if name in e.spyListeners && name !in e.spyReaders then {e.spyListeners[name]} else {}
  }

  lemma AbandonedIsListener(live: Live, e: Entities, name: string)
    requires Owned(live, e)
    ensures forall h :: h in Abandoned(e, name) ==> h in live && live[h] == Listener(SpyListener(name))
    ensures Abandoned(e, name) <= Recorded(e)
  {
    assert Key(0);
    if name in e.spyListeners {
      assert e.spyListeners[name] in e.spyListeners.Values;
    }
  }

  /** A topic that is newly spied on has the type that was given. */
  predicate NewlyTyped(e0: Entities, name: string, typeName: Maybe<string>, live: Live, e: Entities) {
    name !in e0.spyTopics ==> name in e.spyTopics && typeName.Just? && HasType(live, e.spyTopics[name], typeName.value)
  }

  lemma StepKeepsType(s0: Store, e0: Entities, s: Store, e: Entities, left: set<Handle>, t: Maybe<Handle>,
                      typeName: Maybe<string>)
    requires Stepped(s0, e0, s, e, left)
    ensures typeName.Just? && HasType(s0.live, t, typeName.value) ==> HasType(s.live, t, typeName.value)
  {
    assert Key(0);
  }

  /** Having got no reader, the listener that was created is the one that the next attempt abandons. */
  lemma NextAttemptAbandons(e0: Entities, name: string, typeName: Maybe<string>, e: Entities)
    requires SpyOutcome(e0, name, typeName, READER_ERROR, e)
    ensures name in e.spyListeners && Abandoned(e, name) == {e.spyListeners[name]}
  {
    assert Key(0);
  }

  /**
    What an attempt to spy on a topic answers, and what it enters under the
    topic's name: nothing, or a listener that may lack its reader.  A topic that
    could not be created can never be spied on.
  */
  ghost predicate SpyOutcome(e0: Entities, name: string, typeName: Maybe<string>, result: SpyResult, e: Entities) {
    forall k {:trigger Key(k)} :: Key(k) ==>
      && (result == ALREADY_SPIED <==> name in e0.spyReaders)
      && (result == NO_TYPE <==> name !in e0.spyTopics && typeName == Nothing)
      && (result == TOPIC_ERROR ==> name !in e0.spyTopics)
      && (name in e0.spyTopics && e0.spyTopics[name] == Nothing && name !in e0.spyReaders ==> result == READER_ERROR)
      && if Attached(result) then SpyEntered(e0, name, result == STARTED, e) else e == e0
  }

  /**
    Under the name there are a topic and a new listener, and a new reader if it was
    `started`; no other name changes.
  */
  predicate SpyEntered(e0: Entities, name: string, started: bool, e: Entities) {
    && name in e.spyTopics && name in e.spyListeners && (started ==> name in e.spyReaders)
    && e == e0.(spyTopics := if name in e0.spyTopics then e0.spyTopics else e0.spyTopics[name := e.spyTopics[name]],
                spyListeners := e0.spyListeners[name := e.spyListeners[name]],
                spyReaders := if started then e0.spyReaders[name := e.spyReaders[name]] else e0.spyReaders)
  }

  lemma EnteredBy(e0: Entities, e1: Entities, e: Entities, name: string, started: bool, l: Handle, r: Handle)
    requires e1 == e0.(spyTopics := e1.spyTopics) && name in e1.spyTopics
    requires e1.spyTopics == if name in e0.spyTopics then e0.spyTopics else e0.spyTopics[name := e1.spyTopics[name]]
    requires e == if started then SpyReaderEntry(SpyListenerEntry(e1, name, l), name, r)
             else SpyListenerEntry(e1, name, l)
    ensures SpyEntered(e0, name, started, e)
  {
  }

  /** Without a failure, there remain as many topics as listeners and readers. */
  lemma OutcomeIsTidy(e0: Entities, name: string, typeName: Maybe<string>, result: SpyResult, e: Entities)
    requires SpyOutcome(e0, name, typeName, result, e)
    ensures result != READER_ERROR && e0.spyReaders.Keys == e0.spyListeners.Keys == e0.spyTopics.Keys ==>
              e.spyReaders.Keys == e.spyListeners.Keys == e.spyTopics.Keys
  {
    assert Key(0);
  }

  lemma AbandonsNothing(e: Entities, name: string)
    requires e.spyReaders.Keys <= e.spyListeners.Keys <= e.spyTopics.Keys
    ensures e.spyReaders.Keys == e.spyListeners.Keys ==> Abandoned(e, name) == {}
    ensures name in e.spyReaders || name !in e.spyTopics ==> Abandoned(e, name) == {}
  {
  }

  lemma OutcomeWithoutAttempt(e: Entities, name: string, typeName: Maybe<string>)
    requires e.spyReaders.Keys <= e.spyTopics.Keys
    requires name in e.spyReaders || (name !in e.spyTopics && typeName == Nothing)
    ensures SpyOutcome(e, name, typeName, if name in e.spyReaders then ALREADY_SPIED else NO_TYPE, e)
  {
  }

  lemma OutcomeOfAttempt(e0: Entities, name: string, typeName: Maybe<string>, started: bool, e: Entities)
    requires name !in e0.spyReaders && (name in e0.spyTopics || typeName.Just?)
    requires SpyEntered(e0, name, started, e) && (e.spyTopics[name] == Nothing ==> !started)
    ensures SpyOutcome(e0, name, typeName, if started then STARTED else READER_ERROR, e)
  {
  }

  function ValuesOf(m: map<string, Handle>, names: set<string>): set<Handle> {
    set n | n in names && n in m :: m[n]
  }

  lemma ValuesOfMore(m: map<string, Handle>, names: set<string>, n: string)
    requires n in m
    ensures ValuesOf(m, names + {n}) == ValuesOf(m, names) + {m[n]}
  {
  }

  lemma FreedOneMore(live: Live, m: map<string, Handle>, names: set<string>, n: string)
    requires n in m
    ensures live - ValuesOf(m, names) - {m[n]} == live - ValuesOf(m, names + {n})
  {
    ValuesOfMore(m, names, n);
  }

  lemma FreedAll(live: Live, e: Entities)
    requires e.readerListener.Just? && e.participantListener.Just?
    ensures live - {e.readerListener.value} - e.spyListeners.Values - {e.participantListener.value}
            == live - Listeners(e)
  {
  }
}
