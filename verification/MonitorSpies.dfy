/**
  Why spying on a topic, and no longer doing so, keeps a monitor in order.
*/
module MonitorSpies {
  import opened Basics
  import opened DdsStore
  import opened MonitorEntities
  import opened MonitorRelease

  /** Objects have been added to a part, and some may have left it; nothing has been deleted. */
  ghost predicate Extended(s0: Store, part0: set<Handle>, s: Store, part: set<Handle>) {
    && s.next >= s0.next && s.refused == s0.refused
    && (forall h :: h in s0.live ==> h in s.live && s.live[h] == s0.live[h])
    && (forall h :: h in s.live ==> h in s0.live || h in part)
    && forall h :: h in part ==> h in part0 || h >= s0.next
  }

  /** A monitor has gone on, in order; `left` are the objects that it no longer points at. */
  ghost predicate Stepped(s0: Store, e0: Entities, s: Store, e: Entities, left: set<Handle>) {
    s.Valid() && Owned(s.live, e) && forall k {:trigger Key(k)} :: Key(k) ==>
      Extended(s0, Recorded(e0), s, Recorded(e)) && Recorded(e0) - Recorded(e) == left
  }

  lemma SpyKeys(live: Live, e: Entities)
    requires Owned(live, e)
    ensures e.spyReaders.Keys <= e.spyListeners.Keys <= e.spyTopics.Keys
    ensures forall n :: n in e.spyReaders ==> e.spyTopics[n].Just?
  {
    assert Key(0);
  }

  lemma NotStepped(s: Store, e: Entities)
    requires s.Valid() && Owned(s.live, e)
    ensures Stepped(s, e, s, e, {})
  {
    OwnedFacts(s.live, e);
  }

  /** Two steps are one, if what the second one leaves was there before the first. */
  lemma SteppedTwice(s0: Store, e0: Entities, s1: Store, e1: Entities, s: Store, e: Entities,
                     left1: set<Handle>, left: set<Handle>)
    requires s0.Valid() && Stepped(s0, e0, s1, e1, left1) && Stepped(s1, e1, s, e, left)
    requires left1 + left <= s0.live.Keys
    ensures Stepped(s0, e0, s, e, left1 + left)
  {
    assert Key(0);
    LeftInAll(s0, Recorded(e0), s1, Recorded(e1), s, Recorded(e));
  }

  /** The same, if the first step leaves nothing. */
  lemma SteppedFurther(s0: Store, e0: Entities, s1: Store, e1: Entities, s: Store, e: Entities, left: set<Handle>)
    requires s0.Valid() && Stepped(s0, e0, s1, e1, {}) && Stepped(s1, e1, s, e, left) && left <= s0.live.Keys
    ensures Stepped(s0, e0, s, e, left)
  {
    SteppedTwice(s0, e0, s1, e1, s, e, {}, left);
    assert {} + left == left;
  }

  /** The same, if the second one leaves nothing. */
  lemma SteppedBefore(s0: Store, e0: Entities, s1: Store, e1: Entities, s: Store, e: Entities, left: set<Handle>)
    requires s0.Valid() && Stepped(s0, e0, s1, e1, left) && Stepped(s1, e1, s, e, {}) && left <= s0.live.Keys
    ensures Stepped(s0, e0, s, e, left)
  {
    SteppedTwice(s0, e0, s1, e1, s, e, left, {});
    assert left + {} == left;
  }

  lemma LeftInAll(s0: Store, part0: set<Handle>, s1: Store, part1: set<Handle>, s: Store, part: set<Handle>)
    requires s0.Valid() && Extended(s0, part0, s1, part1) && Extended(s1, part1, s, part)
    requires (part0 - part1) + (part1 - part) <= s0.live.Keys
    ensures part0 - part == (part0 - part1) + (part1 - part)
    ensures Extended(s0, part0, s, part)
  {
  }

  /** The spy participant has no topic that the monitor does not know of. */
  lemma NoOtherSpyTopic(live: Live, e: Entities, h: Handle, name: string)
    requires Owned(live, e) && name !in e.spyTopics
    ensures e.spyParticipant.Just? && !IsTopicOf(live, h, e.spyParticipant.value, name)
  {
    assert Key(0);
    if IsTopicOf(live, h, e.spyParticipant.value, name) {
      UserOf(live, e, h, e.spyParticipant.value);
      RecordedTopic(live, e, h);
      Apart(live, e);
      assert false;
    }
  }

  lemma NoSpyTopicYet(live: Live, e: Entities, name: string)
    requires Owned(live, e) && name !in e.spyTopics
    ensures e.spyParticipant.Just? && e.spyParticipant.value in live && live[e.spyParticipant.value].Participant?
    ensures forall h :: !IsTopicOf(live, h, e.spyParticipant.value, name)
  {
    OwnedFacts(live, e);
    forall h
      ensures !IsTopicOf(live, h, e.spyParticipant.value, name)
    {
      NoOtherSpyTopic(live, e, h, name);
    }
  }

  /** A new object that depends on the part belongs to it; objects that nothing in the part depends on may leave it. */
  lemma IsolatedMore(s: Store, part: set<Handle>, gone: set<Handle>, o: Maybe<Object>)
    requires s.Valid() && Isolated(s.live, part) && gone <= part
    requires o.Just? ==> Fits(s.live, o.value) && Uses(o.value) <= part - gone
    requires forall h :: h in part - gone ==> Uses(s.live[h]) !! gone
    requires forall h :: h in gone ==> Uses(s.live[h]) == {}
    ensures Isolated(Plus(s, o).live, part - gone + NewIn(s, o))
  {
  }

  /** A new object, if there is one, after which the spies are still in order. */
  lemma OwnedStep(s: Store, e: Entities, e': Entities, o: Maybe<Object>, gone: set<Handle>)
    requires s.Valid() && Owned(s.live, e) && (o.Just? ==> Fits(s.live, o.value))
    requires e' == e.(spyTopics := e'.spyTopics, spyReaders := e'.spyReaders, spyListeners := e'.spyListeners)
    requires Spying(Plus(s, o).live, e') && Recorded(e') == Recorded(e) - gone + NewIn(s, o) && gone <= Recorded(e)
    requires o.Just? ==> Uses(o.value) <= Recorded(e) - gone
    requires forall h :: h in Recorded(e) - gone ==> h in s.live && Uses(s.live[h]) !! gone
    requires forall h :: h in gone ==> h in s.live && Uses(s.live[h]) == {}
    ensures Stepped(s, e, Plus(s, o), e', gone)
  {
    assert Key(0);
    var r := Plus(s, o);
    PlusExtends(s, o);
    KeptBy(s.live, r.live, e);
    SubscribedElsewhere(s.live, r.live, e);
    SubscribedSame(r.live, e, e');
    IsolatedMore(s, Recorded(e), gone, o);
    OwnedFrom(r.live, e');
    ExtendedByOne(s, Recorded(e), o, gone);
    SteppedFrom(s, e, r, e', gone);
  }

  lemma SteppedFrom(s0: Store, e0: Entities, s: Store, e: Entities, left: set<Handle>)
    requires s.Valid() && Owned(s.live, e)
    requires Extended(s0, Recorded(e0), s, Recorded(e)) && Recorded(e0) - Recorded(e) == left
    ensures Stepped(s0, e0, s, e, left)
  {
  }

  lemma ExtendedByOne(s: Store, part: set<Handle>, o: Maybe<Object>, gone: set<Handle>)
    requires s.Valid() && (o.Just? ==> Fits(s.live, o.value))
    ensures Extended(s, part, Plus(s, o), part - gone + NewIn(s, o))
  {
  }

  lemma KeptBy(live: Live, live': Live, e: Entities)
    requires Subscribed(live, e) && forall h :: h in live ==> h in live' && live'[h] == live[h]
    ensures Kept(live, live', Pointees(e.topics)) && Kept(live, live', Pointees(e.readers))
  {
  }

  lemma SubscribedSame(live: Live, e: Entities, e': Entities)
    requires Subscribed(live, e)
    requires e' == e.(spyTopics := e'.spyTopics, spyReaders := e'.spyReaders, spyListeners := e'.spyListeners)
    ensures Subscribed(live, e')
  {
  }

  lemma OwnedFrom(live: Live, e: Entities)
    requires Closed(live) && Running(live, e) && Isolated(live, Recorded(e))
    ensures Owned(live, e)
  {
  }

  function SpyTopicEntry(e: Entities, name: string, t: Maybe<Handle>): Entities {
    e.(spyTopics := e.spyTopics[name := t])
  }

  /** A topic, or a null pointer. */
  lemma SpyTopicEntered(s: Store, e: Entities, name: string, t: Maybe<Handle>, o: Maybe<Object>)
    requires s.Valid() && Owned(s.live, e) && name !in e.spyTopics && (o.Just? ==> Fits(s.live, o.value))
    requires e.spyParticipant.Just?
    requires if t.Just? then t.value == s.next && o.Just? && o.value.Topic?
                             && o.value.owner == e.spyParticipant.value && o.value.name == name
             else o.Nothing?
    ensures Stepped(s, e, Plus(s, o), SpyTopicEntry(e, name, t), {})
  {
    var e' := SpyTopicEntry(e, name, t);
    PointeesAdded(e.spyTopics, name, t);
    SpiedMore(e, e', NewIn(s, o));
    OwnedFacts(s.live, e);
    SpyingWithTopic(s, e, name, t, o);
    OwnedStep(s, e, e', o, {});
  }

  lemma OwnedFacts(live: Live, e: Entities)
    requires Owned(live, e)
    ensures Spying(live, e) && (forall h :: h in Recorded(e) ==> h in live)
    ensures e.spyParticipant.value in Recorded(e) && e.spySubscriber.value in Recorded(e)
    ensures live[e.spyParticipant.value].Participant?
            && live[e.spySubscriber.value] == Subscriber(e.spyParticipant.value)
  {
    assert Key(0);
  }

  lemma SpyingWithTopic(s: Store, e: Entities, name: string, t: Maybe<Handle>, o: Maybe<Object>)
    requires s.Valid() && Spying(s.live, e) && name !in e.spyTopics && (o.Just? ==> Fits(s.live, o.value))
    requires t.Just? ==> IsTopicOf(Plus(s, o).live, t.value, e.spyParticipant.value, name)
    ensures Spying(Plus(s, o).live, SpyTopicEntry(e, name, t))
  {
  }

  lemma SpiedMore(e: Entities, e': Entities, more: set<Handle>)
    requires e' == e.(spyTopics := e'.spyTopics, spyReaders := e'.spyReaders, spyListeners := e'.spyListeners)
    requires Spied(e') == Spied(e) + more
    ensures Recorded(e') == Recorded(e) - {} + more
  {
    var f := Foundation(e) + (Pointees(e.topics) + Pointees(e.readers));
    assert f + (Spied(e) + more) == f + Spied(e) - {} + more;
  }

  // ---------- Listeners ----------

  function SpyListenerEntry(e: Entities, name: string, l: Handle): Entities {
    e.(spyListeners := e.spyListeners[name := l])
  }

  /** The listener whose pointer is overwritten. */
  function Overwritten(e: Entities, name: string): set<Handle> {
    if name in e.spyListeners then {e.spyListeners[name]} else {}
  }

  /** A listener is recorded as the listener of one topic only. */
  lemma ListenerOnlyThere(live: Live, e: Entities, name: string)
    requires Running(live, e) && name in e.spyListeners
    ensures var x := e.spyListeners[name];
            && x in live && live[x] == Listener(SpyListener(name))
            && x !in Foundation(e) + (Pointees(e.topics) + Pointees(e.readers))
            && x !in Pointees(e.spyTopics) && x !in e.spyReaders.Values
            && forall k :: k in e.spyListeners && k != name ==> e.spyListeners[k] != x
  {
  }

  /** Only the reader of the topic calls the listener. */
  lemma OnlyReaderCalls(live: Live, e: Entities, name: string, x: Handle)
    requires Owned(live, e) && name in e.spyListeners && x in live && e.spyListeners[name] in Uses(live[x])
    ensures name in e.spyReaders && e.spyReaders[name] == x
  {
    assert Key(0);
    var l := e.spyListeners[name];
    assert l in e.spyListeners.Values;
    ListenerOnlyThere(live, e, name);
    UserOf(live, e, x, l);
    if live[x].Participant? {
      RecordedOther(live, e, x);
      assert false;
    } else {
      CallerIsSpy(live, e, x);
      var k :| k in e.spyReaders && e.spyReaders[k] == x;
    }
  }

  lemma CallerIsSpy(live: Live, e: Entities, x: Handle)
    requires Running(live, e) && x in Recorded(e) && x in live && live[x].Reader?
             && live[x].attached != e.readerListener.value
    ensures x in e.spyReaders.Values
  {
    RecordedReader(live, e, x);
  }

  lemma RecordedListener(live: Live, e: Entities, name: string, l: Handle)
    requires Running(live, e)
    ensures Recorded(SpyListenerEntry(e, name, l)) == Recorded(e) - Overwritten(e, name) + {l}
  {
    var e', gone := SpyListenerEntry(e, name, l), Overwritten(e, name);
    var f := Foundation(e) + (Pointees(e.topics) + Pointees(e.readers));
    if name in e.spyListeners {
      ListenerOnlyThere(live, e, name);
    }
    assert e'.spyListeners.Values == e.spyListeners.Values - gone + {l} by {
      ValuesReplaced(e.spyListeners, name, l);
    }
    WithoutFromLast(f, Pointees(e.spyTopics), e.spyReaders.Values, e.spyListeners.Values, gone, {l});
  }

  /** Replacing elements of the last of four sets. */
  lemma WithoutFromLast(f: set<Handle>, a: set<Handle>, b: set<Handle>, c: set<Handle>, gone: set<Handle>,
                        more: set<Handle>)
    requires gone !! f + a + b
    ensures f + (a + b + (c - gone + more)) == f + (a + b + c) - gone + more
  {
  }

  lemma ValuesReplaced(m: map<string, Handle>, name: string, l: Handle)
    requires forall k :: k in m && k != name && name in m ==> m[k] != m[name]
    ensures m[name := l].Values == m.Values - (if name in m then {m[name]} else {}) + {l}
  {
    var m' := m[name := l];
    forall x | x in m.Values - (if name in m then {m[name]} else {}) + {l}
      ensures x in m'.Values
    {
      if x == l {
        assert m'[name] == l;
      } else {
        var k :| k in m && m[k] == x;
        assert m'[k] == x;
      }
    }
  }

  lemma OverwrittenIsLive(live: Live, e: Entities, name: string)
    requires Owned(live, e)
    ensures Overwritten(e, name) <= live.Keys
  {
    assert Key(0);
  }

  /** A new listener; if there was one already, its pointer is lost. */
  lemma SpyListenerEntered(s: Store, e: Entities, name: string)
    requires s.Valid() && Owned(s.live, e) && name in e.spyTopics && name !in e.spyReaders
    ensures Stepped(s, e, s.With(Listener(SpyListener(name))), SpyListenerEntry(e, name, s.next), Overwritten(e, name))
  {
    var o, e', gone := Just(Listener(SpyListener(name))), SpyListenerEntry(e, name, s.next), Overwritten(e, name);
    OwnedFacts(s.live, e);
    assert Recorded(e') == Recorded(e) - gone + NewIn(s, o) by {
      assert Key(0);
      RecordedListener(s.live, e, name, s.next);
    }
    forall h | h in Recorded(e) - gone
      ensures h in s.live && Uses(s.live[h]) !! gone
    {
      if name in e.spyListeners && e.spyListeners[name] in Uses(s.live[h]) {
        OnlyReaderCalls(s.live, e, name, h);
        assert false;
      }
    }
    SpyingWithListener(s, e, name);
    if name in e.spyListeners {
      assert e.spyListeners[name] in e.spyListeners.Values;
    }
    OwnedStep(s, e, e', o, gone);
  }

  lemma SpyingWithListener(s: Store, e: Entities, name: string)
    requires s.Valid() && Spying(s.live, e) && name in e.spyTopics && name !in e.spyReaders
    ensures Spying(s.With(Listener(SpyListener(name))).live, SpyListenerEntry(e, name, s.next))
  {
    var o := Listener(SpyListener(name));
    SpyTopicsStay(s, e.spyTopics, e.spyParticipant.value, o);
    SpyListenersStay(s, e.spyListeners, o);
    SpyReadersStay(s, e, o);
    ListenersWith(s.With(o).live, e.spyListeners, name, s.next);
    ReadersUnder(s.With(o).live, e, SpyListenerEntry(e, name, s.next));
  }

  lemma ListenersWith(live: Live, listeners: map<string, Handle>, name: string, l: Handle)
    requires SpyListeners(live, listeners) && At(live, Just(l), Listener(SpyListener(name)))
    ensures SpyListeners(live, listeners[name := l])
  {
  }

  /** Readers are not concerned by entries under other names. */
  lemma ReadersUnder(live: Live, e: Entities, e': Entities)
    requires e.spyReaders.Keys <= e.spyListeners.Keys <= e.spyTopics.Keys && e.spySubscriber.Just?
    requires SpyReaders(live, e.spyReaders, e.spyTopics, e.spyListeners, e.spySubscriber.value)
    requires e.spyReaders.Keys <= e'.spyListeners.Keys <= e'.spyTopics.Keys
    requires forall n :: n in e.spyReaders ==>
               e'.spyTopics[n] == e.spyTopics[n] && e'.spyListeners[n] == e.spyListeners[n]
    ensures SpyReaders(live, e.spyReaders, e'.spyTopics, e'.spyListeners, e.spySubscriber.value)
  {
  }

  // ---------- A new object changes nothing that exists ----------

  lemma SpyTopicsStay(s: Store, topics: map<string, Maybe<Handle>>, participant: Handle, o: Object)
    requires s.Valid() && Fits(s.live, o) && SpyTopics(s.live, topics, participant)
    ensures SpyTopics(s.With(o).live, topics, participant)
  {
  }

  lemma SpyListenersStay(s: Store, listeners: map<string, Handle>, o: Object)
    requires s.Valid() && Fits(s.live, o) && SpyListeners(s.live, listeners)
    ensures SpyListeners(s.With(o).live, listeners)
  {
  }

  lemma SpyReadersStay(s: Store, e: Entities, o: Object)
    requires s.Valid() && Fits(s.live, o) && Spying(s.live, e)
    ensures SpyReaders(s.With(o).live, e.spyReaders, e.spyTopics, e.spyListeners, e.spySubscriber.value)
  {
  }

  // ---------- Readers ----------

  function SpyReaderEntry(e: Entities, name: string, r: Handle): Entities {
    e.(spyReaders := e.spyReaders[name := r])
  }

  /** A reader for the topic and its listener. */
  lemma SpyReaderEntered(s: Store, e: Entities, name: string)
    requires s.Valid() && Owned(s.live, e)
    requires name !in e.spyReaders && name in e.spyListeners && name in e.spyTopics && e.spyTopics[name].Just?
             && e.spySubscriber.Just?
    ensures var o := Reader(e.spySubscriber.value, e.spyTopics[name].value, e.spyListeners[name]);
            Fits(s.live, o) && Stepped(s, e, s.With(o), SpyReaderEntry(e, name, s.next), {})
  {
    var x, e' := Reader(e.spySubscriber.value, e.spyTopics[name].value, e.spyListeners[name]),
        SpyReaderEntry(e, name, s.next);
    OwnedFacts(s.live, e);
    ValuesReplaced(e.spyReaders, name, s.next);
    SpiedMore(e, e', NewIn(s, Just(x)));
    SpyingWithReader(s, e, name);
    ReaderUsesOwn(e, name);
    OwnedStep(s, e, e', Just(x), {});
  }

  lemma ReaderUsesOwn(e: Entities, name: string)
    requires name in e.spyListeners && name in e.spyTopics && e.spyTopics[name].Just? && e.spySubscriber.Just?
    ensures {e.spySubscriber.value, e.spyTopics[name].value, e.spyListeners[name]} <= Recorded(e)
  {
    assert e.spyTopics[name].value in Pointees(e.spyTopics) && e.spyListeners[name] in e.spyListeners.Values;
  }

  lemma SpyingWithReader(s: Store, e: Entities, name: string)
    requires s.Valid() && Spying(s.live, e) && e.spySubscriber.value in s.live
             && s.live[e.spySubscriber.value].Subscriber?
    requires name !in e.spyReaders && name in e.spyListeners && e.spyTopics[name].Just?
    ensures var o := Reader(e.spySubscriber.value, e.spyTopics[name].value, e.spyListeners[name]);
            Fits(s.live, o) && Spying(s.With(o).live, SpyReaderEntry(e, name, s.next))
  {
    var o := Reader(e.spySubscriber.value, e.spyTopics[name].value, e.spyListeners[name]);
    assert Fits(s.live, o);
    SpyTopicsStay(s, e.spyTopics, e.spyParticipant.value, o);
    SpyListenersStay(s, e.spyListeners, o);
    SpyReadersStay(s, e, o);
    ReadersWith(s.With(o).live, e, name, s.next);
  }

  lemma ReadersWith(live: Live, e: Entities, name: string, r: Handle)
    requires e.spyReaders.Keys <= e.spyListeners.Keys <= e.spyTopics.Keys && e.spySubscriber.Just?
    requires SpyReaders(live, e.spyReaders, e.spyTopics, e.spyListeners, e.spySubscriber.value)
    requires name in e.spyListeners && e.spyTopics[name].Just?
    requires At(live, Just(r), Reader(e.spySubscriber.value, e.spyTopics[name].value, e.spyListeners[name]))
    ensures SpyReaders(live, e.spyReaders[name := r], e.spyTopics, e.spyListeners, e.spySubscriber.value)
  {
  }

  // ---------- Stopping ----------

  function SpyExit(e: Entities, name: string): Entities {
    e.(spyReaders := e.spyReaders - {name}, spyTopics := e.spyTopics - {name}, spyListeners := e.spyListeners - {name})
  }

  lemma ExitKeys(e: Entities, name: string)
    ensures SpyExit(e, name).spyReaders.Keys == e.spyReaders.Keys - {name}
    ensures SpyExit(e, name).spyTopics.Keys == e.spyTopics.Keys - {name}
    ensures SpyExit(e, name).spyListeners.Keys == e.spyListeners.Keys - {name}
  {
  }

  /** The reader, topic and listener of a topic that is spied on. */
  function SpiedOn(e: Entities, name: string): set<Handle>
    requires name in e.spyReaders && name in e.spyListeners && name in e.spyTopics && e.spyTopics[name].Just?
  {
    {e.spyReaders[name], e.spyTopics[name].value, e.spyListeners[name]}
  }

  lemma SpiedOnFacts(live: Live, e: Entities, name: string)
    requires Owned(live, e) && name in e.spyReaders
    ensures name in e.spyListeners && name in e.spyTopics && e.spyTopics[name].Just? && e.spySubscriber.Just?
            && e.spyParticipant.Just?
    ensures At(live, Just(e.spyReaders[name]),
               Reader(e.spySubscriber.value, e.spyTopics[name].value, e.spyListeners[name]))
    ensures IsTopicOf(live, e.spyTopics[name].value, e.spyParticipant.value, name)
    ensures At(live, Just(e.spyListeners[name]), Listener(SpyListener(name)))
    ensures SpiedOn(e, name) <= Recorded(e)
  {
    assert Key(0);
    assert e.spyReaders[name] in e.spyReaders.Values && e.spyListeners[name] in e.spyListeners.Values;
    assert e.spyTopics[name].value in Pointees(e.spyTopics);
  }

  /** Only the reader of a spied topic depends on the topic. */
  lemma OnlyReaderOfTopic(live: Live, e: Entities, name: string, x: Handle)
    requires Owned(live, e) && name in e.spyTopics && e.spyTopics[name].Just?
    requires x in live && e.spyTopics[name].value in Uses(live[x])
    ensures name in e.spyReaders && e.spyReaders[name] == x
  {
    assert Key(0);
    var t := e.spyTopics[name].value;
    assert t in Pointees(e.spyTopics) && t in Spies(e) && t in Recorded(e);
    UserOf(live, e, x, t);
    Apart(live, e);
    assert live[x].Reader? && live[x].topic == t;
    assert t !in Pointees(e.topics);
    RecordedReader(live, e, x);
    var k :| k in e.spyReaders && e.spyReaders[k] == x;
    assert e.spyTopics[k].value == t;
  }

  /** The order in which they are deleted is right. */
  lemma SpiedOnDeletable(live: Live, e: Entities, name: string)
    requires Owned(live, e) && name in e.spyReaders
    ensures e.spySubscriber.Just? && Deletable(live, e.spySubscriber, e.spyReaders[name])
    ensures e.spyParticipant.Just? && name in e.spyTopics && e.spyTopics[name].Just?
    ensures Deletable(live - {e.spyReaders[name]}, e.spyParticipant, e.spyTopics[name].value)
    ensures name in e.spyListeners
    ensures var left := live - {e.spyReaders[name]} - {e.spyTopics[name].value};
            e.spyListeners[name] in left && left[e.spyListeners[name]].Listener? && !InUse(left, e.spyListeners[name])
  {
    SpiedOnFacts(live, e, name);
    var r, t, l := e.spyReaders[name], e.spyTopics[name].value, e.spyListeners[name];
    assert Closed(live) by {
      assert Key(0);
    }
    ReaderUnused(live, r);
    forall x | x in live && x != r
      ensures t !in Uses(live[x]) && l !in Uses(live[x])
    {
      if t in Uses(live[x]) {
        OnlyReaderOfTopic(live, e, name, x);
        assert false;
      }
      if l in Uses(live[x]) {
        OnlyReaderCalls(live, e, name, x);
        assert false;
      }
    }
  }

  /** What is removed is gone, and everything else is recorded as before. */
  lemma RecordedExit(live: Live, e: Entities, name: string)
    requires Running(live, e) && name in e.spyReaders
    ensures Recorded(SpyExit(e, name)) == Recorded(e) - SpiedOn(e, name)
  {
    var e', gone := SpyExit(e, name), SpiedOn(e, name);
    var r, t, l := e.spyReaders[name], e.spyTopics[name].value, e.spyListeners[name];
    ListenerOnlyThere(live, e, name);
    SpiedOnlyThere(live, e, name);
    assert e'.spyListeners.Values == e.spyListeners.Values - {l} by {
      ValuesRemoved(e.spyListeners, name);
    }
    assert e'.spyReaders.Values == e.spyReaders.Values - {r} by {
      ValuesRemoved(e.spyReaders, name);
    }
    assert Pointees(e'.spyTopics) == Pointees(e.spyTopics) - {t} by {
      PointeesRemoved(e.spyTopics, name);
    }
    var f := Foundation(e) + (Pointees(e.topics) + Pointees(e.readers));
    WithoutOneEach(f, Pointees(e.spyTopics), e.spyReaders.Values, e.spyListeners.Values, t, r, l);
  }

  /** Taking one element from each of three sets. */
  lemma WithoutOneEach(f: set<Handle>, a: set<Handle>, b: set<Handle>, c: set<Handle>, x: Handle, y: Handle, z: Handle)
    requires x !in f + b + c && y !in f + a + c && z !in f + a + b
    ensures f + ((a - {x}) + (b - {y}) + (c - {z})) == f + (a + b + c) - {y, x, z}
  {
  }

  lemma SpiedOnlyThere(live: Live, e: Entities, name: string)
    requires Running(live, e) && name in e.spyReaders
    ensures var r, t := e.spyReaders[name], e.spyTopics[name].value;
            && r !in Foundation(e) + (Pointees(e.topics) + Pointees(e.readers)) + Pointees(e.spyTopics)
               + e.spyListeners.Values
            && t !in Foundation(e) + (Pointees(e.topics) + Pointees(e.readers)) + e.spyReaders.Values
               + e.spyListeners.Values
            && (forall k :: k in e.spyReaders && k != name ==> e.spyReaders[k] != r)
            && (forall k :: k in e.spyTopics && k != name ==> e.spyTopics[k] != Just(t))
  {
    assert e.spyReaders[name] in e.spyReaders.Values && e.spyTopics[name].value in Pointees(e.spyTopics);
    Apart(live, e);
    SpyReaderOnlyThere(live, e, name);
    SpyTopicOnlyThere(live, e, name);
  }

  lemma SpyReaderOnlyThere(live: Live, e: Entities, name: string)
    requires Running(live, e) && name in e.spyReaders && e.spyReaders[name] !in Receivers(e)
    ensures var r := e.spyReaders[name];
            && r !in Foundation(e) + (Pointees(e.topics) + Pointees(e.readers)) + Pointees(e.spyTopics)
               + e.spyListeners.Values
            && (forall k :: k in e.spyReaders && k != name ==> e.spyReaders[k] != r)
  {
    SpyReadersDiffer(live, e, name);
  }

  /** Readers of different topics are different. */
  lemma SpyReadersDiffer(live: Live, e: Entities, name: string)
    requires Spying(live, e) && name in e.spyReaders
    ensures forall k :: k in e.spyReaders && k != name ==> e.spyReaders[k] != e.spyReaders[name]
  {
  }

  lemma SpyTopicOnlyThere(live: Live, e: Entities, name: string)
    requires Running(live, e) && name in e.spyReaders && e.spyTopics[name].value !in Receivers(e)
    ensures var t := e.spyTopics[name].value;
            && t !in Foundation(e) + (Pointees(e.topics) + Pointees(e.readers)) + e.spyReaders.Values
               + e.spyListeners.Values
            && (forall k :: k in e.spyTopics && k != name ==> e.spyTopics[k] != Just(t))
  {
  }

  lemma ValuesRemoved(m: map<string, Handle>, name: string)
    requires name in m && forall k :: k in m && k != name ==> m[k] != m[name]
    ensures (m - {name}).Values == m.Values - {m[name]}
  {
    var m' := m - {name};
    forall x | x in m.Values - {m[name]}
      ensures x in m'.Values
    {
      var k :| k in m && m[k] == x;
      assert k in m' && m'[k] == x;
    }
  }

  lemma PointeesRemoved(m: map<string, Maybe<Handle>>, name: string)
    requires name in m && m[name].Just? && forall k :: k in m && k != name ==> m[k] != m[name]
    ensures Pointees(m - {name}) == Pointees(m) - {m[name].value}
  {
    var m' := m - {name};
    forall x | x in Pointees(m) - {m[name].value}
      ensures x in Pointees(m')
    {
      var k :| k in m && m[k].Just? && m[k].value == x;
      assert k in m' && m'[k] == m[k];
    }
  }

  lemma SpyingWithout(live: Live, e: Entities, name: string)
    requires Running(live, e) && name in e.spyReaders
    ensures Spying(live - SpiedOn(e, name), SpyExit(e, name))
  {
    ListenerOnlyThere(live, e, name);
    SpiedOnlyThere(live, e, name);
    var e', gone := SpyExit(e, name), SpiedOn(e, name);
    forall k | k in e'.spyTopics && e'.spyTopics[k].Just?
      ensures e.spyTopics[k].value !in gone
    {
      assert e.spyTopics[k].value in Pointees(e.spyTopics);
    }
    forall k | k in e'.spyListeners
      ensures e.spyListeners[k] !in gone
    {
      assert e.spyListeners[k] in e.spyListeners.Values;
    }
    forall k | k in e'.spyReaders
      ensures e.spyReaders[k] !in gone
    {
      assert e.spyReaders[k] in e.spyReaders.Values;
    }
  }

  lemma IsolatedLess(live: Live, part: set<Handle>, gone: set<Handle>)
    requires Isolated(live, part) && Closed(live - gone) && gone <= part
    ensures Isolated(live - gone, part - gone)
  {
  }

  /** When they are deleted, the monitor is in order without them. */
  lemma SpyExited(live: Live, e: Entities, name: string)
    requires Owned(live, e) && name in e.spyReaders
    requires name in e.spyListeners && name in e.spyTopics && e.spyTopics[name].Just?
    requires Closed(live - SpiedOn(e, name))
    ensures Owned(live - SpiedOn(e, name), SpyExit(e, name))
  {
    SpiedOnFacts(live, e, name);
    assert Key(0);
    var e', gone := SpyExit(e, name), SpiedOn(e, name);
    RecordedExit(live, e, name);
    IsolatedLess(live, Recorded(e), gone);
    SpyingWithout(live, e, name);
    SpiedOnlyThere(live, e, name);
    ListenerOnlyThere(live, e, name);
    ReceivingWithout(live, e, gone);
    SubscribedSame(live - gone, e, e');
    OwnedFrom(live - gone, e');
  }

  lemma ReceivingWithout(live: Live, e: Entities, gone: set<Handle>)
    requires Founded(live, e) && Subscribed(live, e)
             && gone !! Foundation(e) + (Pointees(e.topics) + Pointees(e.readers))
    ensures Founded(live - gone, e) && Subscribed(live - gone, e)
  {
    SubscribedOwn(live, e);
    SubscribedElsewhere(live, live - gone, e);
  }
}
