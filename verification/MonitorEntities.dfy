/**
  What a monitor holds of the DDS objects that exist: which of them are its
  own, how they hang together, and how they are taken down again when the
  monitor cannot be completed.
*/
module MonitorEntities {
  import opened Basics
  import opened DdsStore

  /** The pointers of a monitor, as values. */
  datatype Entities = Entities(
    spyParticipant: Maybe<Handle>,
    participantListener: Maybe<Handle>,
    readerListener: Maybe<Handle>,
    participant: Maybe<Handle>,
    subscriber: Maybe<Handle>,
    spySubscriber: Maybe<Handle>,
    topics: map<string, Maybe<Handle>>,
    readers: map<string, Maybe<Handle>>,
    spyTopics: map<string, Maybe<Handle>>,
    spyReaders: map<string, Handle>,
    spyListeners: map<string, Handle>)

  const BLANK: Entities :=
    Entities(Nothing, Nothing, Nothing, Nothing, Nothing, Nothing, map[], map[], map[], map[], map[])

  function Pointee(h: Maybe<Handle>): set<Handle> {
    if h.Just? then {h.value} else {}
  }

  function Pointees(m: map<string, Maybe<Handle>>): set<Handle> {
    set n | n in m && m[n].Just? :: m[n].value
  }

  /** All objects that the monitor points at. */
  function Recorded(e: Entities): set<Handle> {
    Foundation(e) + (Pointees(e.topics) + Pointees(e.readers)) + Spied(e)
  }

  function Foundation(e: Entities): set<Handle> {
    Pointee(e.spyParticipant) + Pointee(e.participantListener) + Pointee(e.readerListener) + Pointee(e.participant)
    + Pointee(e.subscriber) + Pointee(e.spySubscriber)
  }

  function Spied(e: Entities): set<Handle> {
    Pointees(e.spyTopics) + e.spyReaders.Values + e.spyListeners.Values
  }

  predicate At(live: Live, h: Maybe<Handle>, o: Object) {
    h.Just? && h.value in live && live[h.value] == o
  }

  /** The two participants with their subscribers and listeners. */
  predicate Founded(live: Live, e: Entities) {
    && At(live, e.spyParticipant, Participant(Nothing))
    && At(live, e.participantListener, Listener(ParticipantListener))
    && At(live, e.readerListener, Listener(ReaderListener))
    && e.participantListener.Just? && At(live, e.participant, Participant(e.participantListener))
    && At(live, e.subscriber, Subscriber(e.participant.value))
    && At(live, e.spySubscriber, Subscriber(e.spyParticipant.value))
  }

  /** Topics and readers under their names; a pointer is null where an entity could not be created. */
  ghost predicate Subscribed(live: Live, e: Entities) {
    && e.participant.Just? && e.subscriber.Just? && e.readerListener.Just?
    && (forall n :: n in e.topics && e.topics[n].Just? ==> IsTopicOf(live, e.topics[n].value, e.participant.value, n))
    && (forall n :: n in e.readers && e.readers[n].Just? ==>
          && n in e.topics && e.topics[n].Just?
          && At(live, e.readers[n], Reader(e.subscriber.value, e.topics[n].value, e.readerListener.value)))
  }

  /** The topics have the types that belong to their names. */
  ghost predicate Typed(live: Live, topics: map<string, Maybe<Handle>>, typeOf: string -> string) {
    forall n :: n in topics ==> HasType(live, topics[n], typeOf(n))
  }

  lemma TypedNext(live: Live, live': Live, topics: map<string, Maybe<Handle>>, typeOf: string -> string, name: string,
                  t: Maybe<Handle>)
    requires Typed(live, topics, typeOf) && Grows(live, live') && HasType(live', t, typeOf(name))
    ensures Typed(live', topics[name := t], typeOf)
  {
  }

  /** No reader without its listener, no listener without its topic. */
  ghost predicate Spying(live: Live, e: Entities) {
    && e.spyParticipant.Just? && e.spySubscriber.Just?
    && e.spyReaders.Keys <= e.spyListeners.Keys <= e.spyTopics.Keys
    && SpyTopics(live, e.spyTopics, e.spyParticipant.value)
    && SpyListeners(live, e.spyListeners)
    && SpyReaders(live, e.spyReaders, e.spyTopics, e.spyListeners, e.spySubscriber.value)
  }

  ghost predicate SpyTopics(live: Live, topics: map<string, Maybe<Handle>>, participant: Handle) {
    forall n :: n in topics && topics[n].Just? ==> IsTopicOf(live, topics[n].value, participant, n)
  }

  ghost predicate SpyListeners(live: Live, listeners: map<string, Handle>) {
    forall n :: n in listeners ==> At(live, Just(listeners[n]), Listener(SpyListener(n)))
  }

  ghost predicate SpyReaders(live: Live, readers: map<string, Handle>, topics: map<string, Maybe<Handle>>,
                             listeners: map<string, Handle>, subscriber: Handle)
    requires readers.Keys <= listeners.Keys <= topics.Keys
  {
    forall n :: n in readers ==>
      topics[n].Just? && At(live, Just(readers[n]), Reader(subscriber, topics[n].value, listeners[n]))
  }

  /** A monitor that has been completed. */
  ghost predicate Running(live: Live, e: Entities) {
    && Founded(live, e) && Subscribed(live, e) && Spying(live, e)
    && e.readers.Keys == e.topics.Keys && forall n :: n in e.readers ==> e.readers[n].Just?
  }

  /** Nothing inside depends on anything outside, or the other way round. */
  ghost predicate Isolated(live: Live, part: set<Handle>) {
    && part <= live.Keys
    && forall h :: h in live ==> if h in part then Uses(live[h]) <= part else Uses(live[h]) !! part
  }

  // ---------- Scope guards ----------

  /** What is to be undone at the end of the scope. */
  datatype Guard =
    SPY_PARTICIPANT | PARTICIPANT_LISTENER | READER_LISTENER | PARTICIPANT | SUBSCRIBER | TOPICS_AND_READERS
    | SPY_SUBSCRIBER

  function Guarded(e: Entities, g: Guard): set<Handle> {
    match g
    case SPY_PARTICIPANT => Pointee(e.spyParticipant)
    case PARTICIPANT_LISTENER => Pointee(e.participantListener)
    case READER_LISTENER => Pointee(e.readerListener)
    case PARTICIPANT => Pointee(e.participant)
    case SUBSCRIBER => Pointee(e.subscriber)
    case TOPICS_AND_READERS => Pointees(e.topics) + Pointees(e.readers)
    case SPY_SUBSCRIBER => Pointee(e.spySubscriber)
  }

  /** The guard can do its work: what it deletes exists. */
  ghost predicate Armed(live: Live, e: Entities, g: Guard) {
    match g
    case SPY_PARTICIPANT => At(live, e.spyParticipant, Participant(Nothing))
    case PARTICIPANT_LISTENER => At(live, e.participantListener, Listener(ParticipantListener))
    case READER_LISTENER => At(live, e.readerListener, Listener(ReaderListener))
    case PARTICIPANT => At(live, e.participant, Participant(e.participantListener))
    case SUBSCRIBER => e.participant.Just? && At(live, e.subscriber, Subscriber(e.participant.value))
    case TOPICS_AND_READERS => Subscribed(live, e)
    case SPY_SUBSCRIBER => e.spyParticipant.Just? && At(live, e.spySubscriber, Subscriber(e.spyParticipant.value))
  }

  /**
    The guards, run from the last to the first, lead back to `base`: each of
    them finds what it deletes, and when it has run nothing is left that lacks
    what it depends on.
  */
  ghost predicate Stacked(live: Live, base: Live, e: Entities, guards: seq<Guard>) {
    Closed(live) &&
    if guards == [] then live == base
    else
      var n := |guards| - 1;
      Armed(live, e, guards[n]) && Stacked(live - Guarded(e, guards[n]), base, e, guards[..n])
  }

  /** What a guard looks at is the same. */
  predicate SameFor(e: Entities, e': Entities, g: Guard) {
    match g
    case SPY_PARTICIPANT => e.spyParticipant == e'.spyParticipant
    case PARTICIPANT_LISTENER => e.participantListener == e'.participantListener
    case READER_LISTENER => e.readerListener == e'.readerListener
    case PARTICIPANT => e.participant == e'.participant && e.participantListener == e'.participantListener
    case SUBSCRIBER => e.subscriber == e'.subscriber && e.participant == e'.participant
    case TOPICS_AND_READERS =>
      && e.topics == e'.topics && e.readers == e'.readers
      && e.participant == e'.participant && e.subscriber == e'.subscriber && e.readerListener == e'.readerListener
    case SPY_SUBSCRIBER => e.spySubscriber == e'.spySubscriber && e.spyParticipant == e'.spyParticipant
  }

  lemma {:induction false} StackedSame(live: Live, base: Live, e: Entities, e': Entities, guards: seq<Guard>)
    requires Stacked(live, base, e, guards) && forall g :: g in guards ==> SameFor(e, e', g)
    ensures Stacked(live, base, e', guards)
  {
    if guards != [] {
      var n := |guards| - 1;
      assert SameFor(e, e', guards[n]);
      StackedSame(live - Guarded(e, guards[n]), base, e, e', guards[..n]);
    }
  }

  /** A new object, guarded by a new guard. */
  lemma Push(s: Store, base: Live, e: Entities, e': Entities, guards: seq<Guard>, g: Guard, o: Object)
    requires s.Valid() && Stacked(s.live, base, e, guards) && Fits(s.live, o)
    requires forall x :: x in guards ==> SameFor(e, e', x)
    requires Guarded(e', g) == {s.next} && Armed(s.With(o).live, e', g)
    ensures Stacked(s.With(o).live, base, e', guards + [g])
  {
    StackedSame(s.live, base, e, e', guards);
    assert (guards + [g])[..|guards|] == guards;
    assert s.With(o).live - {s.next} == s.live;
  }

  /** The guard for topics and readers is armed before there are any. */
  lemma PushTopics(live: Live, base: Live, e: Entities, guards: seq<Guard>)
    requires Stacked(live, base, e, guards) && e.topics == map[] && e.readers == map[]
    requires e.participant.Just? && e.subscriber.Just? && e.readerListener.Just?
    ensures Stacked(live, base, e, guards + [TOPICS_AND_READERS])
  {
    assert (guards + [TOPICS_AND_READERS])[..|guards|] == guards;
    assert Guarded(e, TOPICS_AND_READERS) == {};
    assert live - {} == live;
  }

  const ALL_GUARDS: seq<Guard> :=
    [SPY_PARTICIPANT, PARTICIPANT_LISTENER, READER_LISTENER, PARTICIPANT, SUBSCRIBER, TOPICS_AND_READERS,
     SPY_SUBSCRIBER]

  /** `live'` has the objects of `live`, and `more`. */
  predicate Enlarges(live: Live, live': Live, more: set<Handle>) {
    && live'.Keys == live.Keys + more && more !! live.Keys
    && forall h :: h in live ==> live'[h] == live[h]
  }

  lemma ClosedWithout(live: Live, live': Live, more: set<Handle>, gone: set<Handle>)
    requires Enlarges(live, live', more) && Closed(live') && Closed(live - gone) && gone <= live.Keys
    requires forall h :: h in more ==> Uses(live'[h]) !! gone
    ensures Closed(live' - gone)
  {
    var left, before := live' - gone, live - gone;
    forall h | h in left
      ensures Fits(left, left[h])
    {
      assert Fits(live', live'[h]);
      if h in before {
        assert Fits(before, before[h]);
      }
    }
  }

  lemma WithoutAll(live: Live, live': Live, more: set<Handle>, gone: set<Handle>, part: set<Handle>)
    requires Enlarges(live, live', more) && gone <= live.Keys
    ensures live' - gone - (part + more) == live - gone - part
  {
  }

  /** One more topic or reader, or the knowledge that there is none: the guards are still good for it. */
  lemma PushedBelow(live: Live, live': Live, base: Live, e: Entities, e': Entities, more: set<Handle>)
    requires Stacked(live, base, e, ALL_GUARDS) && Enlarges(live, live', more) && Closed(live')
    requires e' == e.(topics := e'.topics, readers := e'.readers)
    requires Guarded(e', TOPICS_AND_READERS) == Guarded(e, TOPICS_AND_READERS) + more
    requires forall h :: h in more ==> Uses(live'[h]) !! Guarded(e, SPY_SUBSCRIBER)
    requires Subscribed(live' - Guarded(e, SPY_SUBSCRIBER), e')
    ensures Stacked(live', base, e', ALL_GUARDS)
  {
    var ss, part, six := Guarded(e, SPY_SUBSCRIBER), Guarded(e, TOPICS_AND_READERS), ALL_GUARDS[..6];
    assert six[..5] == ALL_GUARDS[..5];
    assert Armed(live, e, SPY_SUBSCRIBER) && Stacked(live - ss, base, e, six);
    assert Stacked(live - ss - part, base, e, ALL_GUARDS[..5]);
    ClosedWithout(live, live', more, ss);
    WithoutAll(live, live', more, ss, part);
    StackedSame(live - ss - part, base, e, e', ALL_GUARDS[..5]);
    assert Stacked(live' - ss, base, e', six);
  }

  // ---------- Isolation ----------

  /** Since `base`, exactly the objects `part` have been added. */
  ghost predicate Grown(base: Store, live: Live, part: set<Handle>) {
    && live.Keys == base.live.Keys + part
    && (forall h :: h in base.live ==> live[h] == base.live[h])
    && forall h :: h in part ==> h >= base.next
  }

  /** From `base` on, a monitor has been completed, and nothing else has changed. */
  ghost predicate Completed(base: Store, s: Store, e: Entities) {
    s.Valid() && forall k {:trigger Key(k)} :: Key(k) ==> Running(s.live, e) && Grown(base, s.live, Recorded(e))
  }

  /** Its topics and readers depend on a monitor's own objects only, and so do the others. */
  lemma SubscribedOwn(live: Live, e: Entities)
    requires Subscribed(live, e)
    ensures forall h :: h in Pointees(e.topics) + Pointees(e.readers) ==>
              h in live && Uses(live[h]) <= Pointee(e.participant) + Pointee(e.subscriber) + Pointee(e.readerListener)
              + Pointees(e.topics)
  {
    assert forall n :: n in e.topics && e.topics[n].Just? ==> e.topics[n].value in Pointees(e.topics);
  }

  lemma SpyingOwn(live: Live, e: Entities)
    requires Spying(live, e)
    ensures forall h :: h in Pointees(e.spyTopics) + e.spyReaders.Values + e.spyListeners.Values ==>
              h in live && Uses(live[h]) <= Pointee(e.spyParticipant) + Pointee(e.spySubscriber)
                                            + Pointees(e.spyTopics) + e.spyListeners.Values
  {
    assert forall n :: n in e.spyTopics && e.spyTopics[n].Just? ==> e.spyTopics[n].value in Pointees(e.spyTopics);
    assert forall n :: n in e.spyListeners ==> e.spyListeners[n] in e.spyListeners.Values;
  }

  /** All of `part` exists, and depends on nothing but `whole`. */
  ghost predicate Within(live: Live, part: set<Handle>, whole: set<Handle>) {
    forall h :: h in part ==> h in live && Uses(live[h]) <= whole
  }

  lemma FoundationOwn(live: Live, e: Entities)
    requires Founded(live, e)
    ensures Within(live, Foundation(e), Foundation(e))
  {
  }

  lemma SubscribedWithin(live: Live, e: Entities)
    requires Subscribed(live, e)
    ensures var receiving := Pointees(e.topics) + Pointees(e.readers);
            Within(live, receiving, Foundation(e) + receiving)
  {
    SubscribedOwn(live, e);
  }

  lemma SpyingWithin(live: Live, e: Entities)
    requires Spying(live, e)
    ensures Within(live, Spied(e), Foundation(e) + Spied(e))
  {
    SpyingOwn(live, e);
  }

  lemma WithinUnion(live: Live, a: set<Handle>, b: set<Handle>, c: set<Handle>)
    requires Within(live, a, a) && Within(live, b, a + b) && Within(live, c, a + c)
    ensures Within(live, a + b + c, a + b + c)
  {
  }

  lemma RunningOwn(live: Live, e: Entities)
    requires Running(live, e)
    ensures Within(live, Recorded(e), Recorded(e))
  {
    FoundationOwn(live, e);
    SubscribedWithin(live, e);
    SpyingWithin(live, e);
    WithinUnion(live, Foundation(e), Pointees(e.topics) + Pointees(e.readers), Spied(e));
  }

  /** A completed monitor that has been added as a whole is on its own. */
  lemma GrownIsIsolated(base: Store, live: Live, e: Entities)
    requires base.Valid() && Grown(base, live, Recorded(e)) && Running(live, e)
    ensures Isolated(live, Recorded(e))
  {
    RunningOwn(live, e);
    PartIsIsolated(base, live, Recorded(e));
  }

  lemma PartIsIsolated(base: Store, live: Live, part: set<Handle>)
    requires base.Valid() && Grown(base, live, part) && Within(live, part, part)
    ensures Isolated(live, part)
  {
    forall h | h in live && h !in part
      ensures Uses(live[h]) !! part
    {
      assert Fits(base.live, base.live[h]);
    }
  }

  /** Outside of the objects `part`, everything that existed is as it was. */
  ghost predicate Only(live: Live, live': Live, part: set<Handle>) {
    && (forall h :: h in live && h !in part ==> h in live')
    && forall h :: h in live && h in live' ==> live'[h] == live[h]
  }

  /** What is done to one monitor's objects does not concern another monitor. */
  lemma OthersUnconcerned(live: Live, live': Live, part: set<Handle>, part': set<Handle>, e: Entities)
    requires Running(live, e) && Isolated(live, Recorded(e))
    requires Only(live, live', part) && part !! Recorded(e)
    requires part' !! Recorded(e) && Isolated(live', part')
    requires forall h :: h in live' ==> h in live || h in part'
    ensures Running(live', e) && Isolated(live', Recorded(e))
  {
    IsolatedElsewhere(live, live', part, part', Recorded(e));
    RunningElsewhere(live, live', e);
  }

  lemma IsolatedElsewhere(live: Live, live': Live, part: set<Handle>, part': set<Handle>, mine: set<Handle>)
    requires Isolated(live, mine) && Only(live, live', part) && part !! mine
    requires part' !! mine && Isolated(live', part')
    requires forall h :: h in live' ==> h in live || h in part'
    ensures Isolated(live', mine) && Kept(live, live', mine)
  {
  }

  /** The objects `part` are the same. */
  ghost predicate Kept(live: Live, live': Live, part: set<Handle>) {
    forall h :: h in part ==> h in live && h in live' && live'[h] == live[h]
  }

  lemma SubscribedElsewhere(live: Live, live': Live, e: Entities)
    requires Subscribed(live, e) && Kept(live, live', Pointees(e.topics)) && Kept(live, live', Pointees(e.readers))
    ensures Subscribed(live', e)
  {
  }

  lemma SpyingElsewhere(live: Live, live': Live, e: Entities)
    requires Spying(live, e) && Kept(live, live', Pointees(e.spyTopics))
    requires Kept(live, live', e.spyReaders.Values) && Kept(live, live', e.spyListeners.Values)
    ensures Spying(live', e)
  {
  }

  lemma RunningElsewhere(live: Live, live': Live, e: Entities)
    requires Running(live, e) && Kept(live, live', Recorded(e))
    ensures Running(live', e)
  {
    SubscribedElsewhere(live, live', e);
    SpyingElsewhere(live, live', e);
  }

  // ---------- Creation ----------

  /** On the way from `base` to a monitor: no deletion has been refused, and the guards lead back. */
  ghost predicate Progress(base: Store, s: Store, e: Entities, guards: seq<Guard>) {
    s.Valid() && forall k {:trigger Key(k)} :: Key(k) ==>
      && base.Valid() && base.next <= s.next && s.refused == base.refused
      && Stacked(s.live, base.live, e, guards) && Grown(base, s.live, Recorded(e))
  }

  lemma ProgressBegins(base: Store)
    requires base.Valid()
    ensures Progress(base, base, BLANK, [])
  {
  }

  /** Only the foundation has changed. */
  predicate FoundedFurther(e: Entities, e': Entities) {
    && e'.topics == e.topics && e'.readers == e.readers
    && e'.spyTopics == e.spyTopics && e'.spyReaders == e.spyReaders && e'.spyListeners == e.spyListeners
  }

  lemma RecordedFoundation(e: Entities, e': Entities, more: set<Handle>)
    requires FoundedFurther(e, e') && Foundation(e') == Foundation(e) + more
    ensures Recorded(e') == Recorded(e) + more
  {
    var f, g, spied := Foundation(e), Pointees(e.topics) + Pointees(e.readers), Spied(e);
    assert f + more + g + spied == f + g + spied + more;
  }

  /** One more object with its guard. */
  lemma ProgressGoesOn(base: Store, s: Store, e: Entities, e': Entities, guards: seq<Guard>, g: Guard, o: Object)
    requires Progress(base, s, e, guards) && Fits(s.live, o)
    requires forall x :: x in guards ==> SameFor(e, e', x)
    requires Guarded(e', g) == {s.next} && Armed(s.With(o).live, e', g)
    requires FoundedFurther(e, e') && Foundation(e') == Foundation(e) + {s.next}
    ensures Progress(base, s.With(o), e', guards + [g])
  {
    var r := s.With(o);
    RecordedFoundation(e, e', {s.next});
    assert base.Valid() && base.next <= s.next && s.refused == base.refused && Grown(base, s.live, Recorded(e)) by {
      assert Key(0);
    }
    assert Stacked(r.live, base.live, e', guards + [g]) by {
      assert Key(0);
      Push(s, base.live, e, e', guards, g, o);
    }
    GrownMore(base, s, Recorded(e), o);
  }

  lemma GrownMore(base: Store, s: Store, part: set<Handle>, o: Object)
    requires base.Valid() && s.Valid() && base.next <= s.next && Grown(base, s.live, part) && Fits(s.live, o)
    ensures Grown(base, s.With(o).live, part + {s.next})
  {
  }

  /** The guard for topics and readers, which guards nothing yet. */
  lemma ProgressGuards(base: Store, s: Store, e: Entities, guards: seq<Guard>)
    requires Progress(base, s, e, guards) && e.topics == map[] && e.readers == map[]
    requires e.participant.Just? && e.subscriber.Just? && e.readerListener.Just?
    ensures Progress(base, s, e, guards + [TOPICS_AND_READERS])
  {
    assert Key(0);
    PushTopics(s.live, base.live, e, guards);
  }

  function Plus(s: Store, o: Maybe<Object>): Store
    requires s.Valid() && (o.Just? ==> Fits(s.live, o.value))
  {
    if o.Just? then s.With(o.value) else s
  }

  function NewIn(s: Store, o: Maybe<Object>): set<Handle> {
    if o.Just? then {s.next} else {}
  }

  /** One more topic or reader, if it could be created: the guard that is already there guards it. */
  lemma ProgressBelow(base: Store, s: Store, e: Entities, e': Entities, o: Maybe<Object>)
    requires Progress(base, s, e, ALL_GUARDS) && Founded(s.live, e) && (o.Just? ==> Fits(s.live, o.value))
    requires e' == e.(topics := e'.topics, readers := e'.readers) && Subscribed(Plus(s, o).live, e')
    requires Guarded(e', TOPICS_AND_READERS) == Guarded(e, TOPICS_AND_READERS) + NewIn(s, o)
    requires Recorded(e') == Recorded(e) + NewIn(s, o)
    requires o.Just? ==> Uses(o.value) !! Guarded(e, SPY_SUBSCRIBER)
    ensures Progress(base, Plus(s, o), e', ALL_GUARDS)
  {
    var r, more := Plus(s, o), NewIn(s, o);
    assert base.Valid() && base.next <= s.next && s.refused == base.refused && Grown(base, s.live, Recorded(e)) by {
      assert Key(0);
    }
    assert Stacked(s.live, base.live, e, ALL_GUARDS) by {
      assert Key(0);
    }
    PlusExtends(s, o);
    SubscribedWithout(r.live, e', Guarded(e, SPY_SUBSCRIBER));
    PushedBelow(s.live, r.live, base.live, e, e', more);
    GrownPlus(base, s, Recorded(e), o);
    ProgressMade(base, r, e', ALL_GUARDS);
  }

  lemma ProgressMade(base: Store, s: Store, e: Entities, guards: seq<Guard>)
    requires s.Valid() && base.Valid() && base.next <= s.next && s.refused == base.refused
    requires Stacked(s.live, base.live, e, guards) && Grown(base, s.live, Recorded(e))
    ensures Progress(base, s, e, guards)
  {
  }

  lemma GrownPlus(base: Store, s: Store, part: set<Handle>, o: Maybe<Object>)
    requires base.Valid() && s.Valid() && base.next <= s.next && Grown(base, s.live, part)
    requires o.Just? ==> Fits(s.live, o.value)
    ensures Grown(base, Plus(s, o).live, part + NewIn(s, o))
  {
  }

  lemma PlusExtends(s: Store, o: Maybe<Object>)
    requires s.Valid() && (o.Just? ==> Fits(s.live, o.value))
    ensures Plus(s, o).Valid() && Enlarges(s.live, Plus(s, o).live, NewIn(s, o))
    ensures forall h :: h in NewIn(s, o) ==> Just(Plus(s, o).live[h]) == o
  {
  }

  lemma SubscribedWithout(live: Live, e: Entities, gone: set<Handle>)
    requires Subscribed(live, e) && forall h :: h in gone ==> h in live && live[h].Subscriber?
    ensures Subscribed(live - gone, e)
  {
  }

  /** The participant has no topic that the monitor does not know of. */
  lemma NoOtherTopic(base: Store, s: Store, e: Entities, guards: seq<Guard>, h: Handle, name: string)
    requires Progress(base, s, e, guards) && Founded(s.live, e) && Subscribed(s.live, e)
    requires e.spyTopics == map[] && e.spyReaders == map[] && e.spyListeners == map[]
    requires name !in e.topics
    ensures !IsTopicOf(s.live, h, e.participant.value, name)
  {
    assert Key(0);
    if h in base.live {
      assert Fits(base.live, base.live[h]);
    }
  }

  lemma PointeesAdded(m: map<string, Maybe<Handle>>, n: string, h: Maybe<Handle>)
    requires n !in m
    ensures Pointees(m[n := h]) == Pointees(m) + Pointee(h)
  {
    var m' := m[n := h];
    forall x | x in Pointees(m) + Pointee(h)
      ensures x in Pointees(m')
    {
      if x in Pointees(m) {
        var k :| k in m && m[k].Just? && m[k].value == x;
        assert k in m' && m'[k] == m[k];
      } else {
        assert n in m' && m'[n] == h;
      }
    }
  }

  /** The statistics side does not depend on the spy subscriber. */
  lemma ApartFromSpies(live: Live, e: Entities)
    requires Founded(live, e)
    ensures {e.participant.value, e.subscriber.value, e.readerListener.value} !! Guarded(e, SPY_SUBSCRIBER)
    ensures forall h :: h in live && live[h].Topic? ==> h !in Guarded(e, SPY_SUBSCRIBER)
  {
  }

  lemma RecordedAdded(e: Entities, e': Entities, more: set<Handle>)
    requires e' == e.(topics := e'.topics, readers := e'.readers)
    requires Guarded(e', TOPICS_AND_READERS) == Guarded(e, TOPICS_AND_READERS) + more
    ensures Recorded(e') == Recorded(e) + more
  {
    var f, g, spied := Foundation(e), Guarded(e, TOPICS_AND_READERS), Spied(e);
    assert f + (g + more) + spied == f + g + spied + more;
  }

  lemma SubscribedMore(s: Store, e: Entities, e': Entities, name: string, o: Maybe<Object>)
    requires s.Valid() && Subscribed(s.live, e) && (o.Just? ==> Fits(s.live, o.value))
    requires e' == e.(topics := e'.topics, readers := e'.readers)
    requires name !in e.readers && (forall n :: n in e.topics ==> n in e'.topics && e'.topics[n] == e.topics[n])
    requires forall n :: n in e'.topics && n !in e.topics ==>
               e'.topics[n].Just? ==> IsTopicOf(Plus(s, o).live, e'.topics[n].value, e.participant.value, n)
    requires forall n :: n in e'.readers ==> n == name || (n in e.readers && e'.readers[n] == e.readers[n])
    requires name in e'.readers && e'.readers[name].Just? ==>
               && name in e'.topics && e'.topics[name].Just?
               && At(Plus(s, o).live, e'.readers[name],
                     Reader(e.subscriber.value, e'.topics[name].value, e.readerListener.value))
    ensures Subscribed(Plus(s, o).live, e')
  {
  }

  /** A topic is entered under its name, or a null pointer. */
  lemma TopicEntered(base: Store, s: Store, e: Entities, name: string, t: Maybe<Handle>, o: Maybe<Object>)
    requires Progress(base, s, e, ALL_GUARDS) && Founded(s.live, e) && Subscribed(s.live, e)
    requires name !in e.topics && name !in e.readers
    requires if o.Just? then Fits(s.live, o.value) && t == Just(s.next) && o.value.Topic?
                             && o.value.owner == e.participant.value && o.value.name == name
             else t == Nothing
    ensures var e' := e.(topics := e.topics[name := t]);
            Progress(base, Plus(s, o), e', ALL_GUARDS) && Founded(Plus(s, o).live, e')
            && Subscribed(Plus(s, o).live, e')
  {
    var e' := e.(topics := e.topics[name := t]);
    PointeesAdded(e.topics, name, t);
    assert Guarded(e', TOPICS_AND_READERS) == Guarded(e, TOPICS_AND_READERS) + NewIn(s, o);
    RecordedAdded(e, e', NewIn(s, o));
    ApartFromSpies(s.live, e);
    SubscribedMore(s, e, e', name, o);
    ProgressBelow(base, s, e, e', o);
  }

  /** A reader is entered under the name of its topic, or a null pointer. */
  lemma ReaderEntered(base: Store, s: Store, e: Entities, name: string, h: Maybe<Handle>, o: Maybe<Object>)
    requires Progress(base, s, e, ALL_GUARDS) && Founded(s.live, e) && Subscribed(s.live, e)
    requires name in e.topics && name !in e.readers
    requires if o.Just? then Fits(s.live, o.value) && h == Just(s.next) && e.topics[name].Just?
                             && o.value == Reader(e.subscriber.value, e.topics[name].value, e.readerListener.value)
             else h == Nothing
    ensures var e' := e.(readers := e.readers[name := h]);
            Progress(base, Plus(s, o), e', ALL_GUARDS) && Founded(Plus(s, o).live, e')
            && Subscribed(Plus(s, o).live, e')
  {
    var e' := e.(readers := e.readers[name := h]);
    PointeesAdded(e.readers, name, h);
    assert Guarded(e', TOPICS_AND_READERS) == Guarded(e, TOPICS_AND_READERS) + NewIn(s, o);
    RecordedAdded(e, e', NewIn(s, o));
    ApartFromSpies(s.live, e);
    SubscribedMore(s, e, e', name, o);
    ProgressBelow(base, s, e, e', o);
  }

  lemma ProgressFacts(base: Store, s: Store, e: Entities, guards: seq<Guard>)
    requires Progress(base, s, e, guards)
    ensures s.Valid() && s.next >= base.next && s.refused == base.refused && Stacked(s.live, base.live, e, guards)
  {
    assert Key(0);
  }

  lemma CompletedFrom(base: Store, s: Store, e: Entities, guards: seq<Guard>)
    requires Progress(base, s, e, guards) && Founded(s.live, e) && Subscribed(s.live, e)
    requires e.spyTopics == map[] && e.spyReaders == map[] && e.spyListeners == map[]
    requires e.readers.Keys == e.topics.Keys && forall n :: n in e.readers ==> e.readers[n].Just?
    ensures Completed(base, s, e)
  {
    assert Grown(base, s.live, Recorded(e)) by {
      assert Key(0);
    }
  }
}
