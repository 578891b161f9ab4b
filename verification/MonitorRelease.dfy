/**
  Why a monitor can be taken down: in the order in which its objects are
  deleted, none of them is still in use.
*/
module MonitorRelease {
  import opened Basics
  import opened DdsStore
  import opened MonitorEntities

  /** The objects that receive statistics. */
  function Receivers(e: Entities): set<Handle> {
    Pointees(e.readers) + Pointee(e.subscriber) + Pointees(e.topics) + Pointee(e.participant)
  }

  /** The spy participant and the objects that it contains. */
  function Spies(e: Entities): set<Handle> {
    e.spyReaders.Values + Pointee(e.spySubscriber) + Pointees(e.spyTopics) + Pointee(e.spyParticipant)
  }

  function Listeners(e: Entities): set<Handle> {
    Pointee(e.readerListener) + e.spyListeners.Values + Pointee(e.participantListener)
  }

  lemma RecordedInOrder(e: Entities)
    ensures Recorded(e) == Receivers(e) + Spies(e) + Listeners(e)
  {
  }

  /** A completed monitor on its own. */
  ghost predicate Owned(live: Live, e: Entities) {
    forall k {:trigger Key(k)} :: Key(k) ==> Closed(live) && Running(live, e) && Isolated(live, Recorded(e))
  }

  // ---------- What a recorded object of some kind is ----------

  lemma RecordedReader(live: Live, e: Entities, x: Handle)
    requires Running(live, e) && x in Recorded(e) && x in live && live[x].Reader?
    ensures x in Pointees(e.readers) || (x in e.spyReaders.Values && live[x].subscriber == e.spySubscriber.value
                                        && live[x].topic in Pointees(e.spyTopics)
                                        && live[x].attached in e.spyListeners.Values)
  {
  }

  lemma RecordedTopic(live: Live, e: Entities, x: Handle)
    requires Running(live, e) && x in Recorded(e) && x in live && live[x].Topic?
    ensures x in Pointees(e.topics) || (x in Pointees(e.spyTopics) && live[x].owner == e.spyParticipant.value)
  {
  }

  lemma RecordedOther(live: Live, e: Entities, x: Handle)
    requires Running(live, e) && x in Recorded(e) && x in live
    ensures live[x].Subscriber? ==> x == e.subscriber.value || x == e.spySubscriber.value
    ensures live[x].Participant? ==> x == e.participant.value || x == e.spyParticipant.value
    ensures live[x].Listener? ==> x in Listeners(e)
  {
    if live[x].Listener? {
      RecordedCallee(live, e, x);
    }
  }

  lemma RecordedCallee(live: Live, e: Entities, x: Handle)
    requires Running(live, e) && x in Recorded(e) && x in live && live[x].Listener?
    ensures x in Listeners(e)
  {
  }

  lemma ReceiverIs(live: Live, e: Entities, x: Handle)
    requires Running(live, e) && x in Receivers(e)
    ensures x in live
    ensures match live[x]
            case Reader(s, _, _) => s == e.subscriber.value
            case Subscriber(p) => p == e.participant.value
            case Topic(p, _, _) => p == e.participant.value
            case Participant(l) => l.Just?
            case Listener(_) => false
  {
  }

  lemma SpyIs(live: Live, e: Entities, x: Handle)
    requires Running(live, e) && x in Spies(e)
    ensures x in live
    ensures match live[x]
            case Reader(s, t, _) => s == e.spySubscriber.value && t in Pointees(e.spyTopics)
            case Subscriber(p) => p == e.spyParticipant.value
            case Topic(p, _, _) => p == e.spyParticipant.value
            case Participant(l) => x == e.spyParticipant.value && l.Nothing?
            case Listener(_) => false
  {
  }

  lemma Apart(live: Live, e: Entities)
    requires Running(live, e)
    ensures e.participant != e.spyParticipant && e.subscriber != e.spySubscriber
    ensures Receivers(e) !! Spies(e)
  {
    assert e.participant != e.spyParticipant && e.subscriber != e.spySubscriber;
    forall x | x in Receivers(e)
      ensures x !in Spies(e)
    {
      ReceiverIs(live, e, x);
      if x in Spies(e) {
        SpyIs(live, e, x);
        assert false;
      }
    }
  }

  /** What is known of a user of one of the monitor's objects. */
  lemma UserOf(live: Live, e: Entities, x: Handle, h: Handle)
    requires Owned(live, e) && x in live && h in Recorded(e) && h in Uses(live[x])
    ensures x in Recorded(e) && Fits(live, live[x])
  {
    assert Key(0);
  }

  // ---------- The statistics side ----------

  /** Different names, different objects. */
  predicate Separate(m: map<string, Maybe<Handle>>) {
    forall n, k :: n in m && k in m && m[n].Just? && m[n] == m[k] ==> n == k
  }

  lemma NamesSeparate(live: Live, e: Entities)
    requires Subscribed(live, e)
    ensures Separate(e.topics) && Separate(e.readers)
  {
  }

  lemma ReaderUnused(live: Live, h: Handle)
    requires Closed(live) && h in live && live[h].Reader?
    ensures !InUse(live, h)
  {
  }

  /** `h` can be deleted by asking `parent`. */
  ghost predicate Deletable(live: Live, parent: Maybe<Handle>, h: Handle) {
    h in live && !live[h].Listener? && Parent(live[h]) == parent && !InUse(live, h)
  }

  lemma ReadersDeletable(live: Live, e: Entities)
    requires Owned(live, e)
    ensures e.subscriber.Just? && Separate(e.readers)
    ensures forall h :: h in Pointees(e.readers) ==> Deletable(live, e.subscriber, h)
  {
    assert Key(0);
    NamesSeparate(live, e);
    forall h | h in Pointees(e.readers)
      ensures Deletable(live, e.subscriber, h)
    {
      ReaderUnused(live, h);
    }
  }

  lemma SubscriberDeletable(live: Live, e: Entities)
    requires Owned(live, e)
    ensures e.subscriber.Just? && Deletable(live - Pointees(e.readers), e.participant, e.subscriber.value)
  {
    assert Key(0);
    var s := e.subscriber.value;
    forall x | x in live && x !in Pointees(e.readers)
      ensures s !in Uses(live[x])
    {
      if s in Uses(live[x]) {
        UserOf(live, e, x, s);
        RecordedReader(live, e, x);
        assert false;
      }
    }
  }

  lemma UserOfTopic(live: Live, e: Entities, t: Handle, x: Handle)
    requires Owned(live, e) && t in Pointees(e.topics) && x in live && t in Uses(live[x])
    ensures x in Pointees(e.readers)
  {
    TopicIs(live, e, t);
    UserOf(live, e, x, t);
    assert live[x].Reader? && live[x].topic == t;
    ReaderOfWhat(live, e, x);
  }

  lemma ReaderOfWhat(live: Live, e: Entities, x: Handle)
    requires Owned(live, e) && x in Recorded(e) && x in live && live[x].Reader?
    ensures x in Pointees(e.readers) || live[x].topic in Pointees(e.spyTopics)
  {
    assert Key(0);
    RecordedReader(live, e, x);
  }

  lemma TopicIs(live: Live, e: Entities, t: Handle)
    requires Owned(live, e) && t in Pointees(e.topics)
    ensures t in Recorded(e) && t in live && live[t].Topic? && t !in Pointees(e.spyTopics)
  {
    assert Key(0);
    Apart(live, e);
    assert t in Receivers(e) && Pointees(e.spyTopics) <= Spies(e);
  }

  lemma TopicUnused(live: Live, e: Entities, t: Handle)
    requires Owned(live, e) && t in Pointees(e.topics)
    ensures forall x :: x in live && x !in Pointees(e.readers) ==> t !in Uses(live[x])
  {
    forall x | x in live && x !in Pointees(e.readers)
      ensures t !in Uses(live[x])
    {
      if t in Uses(live[x]) {
        UserOfTopic(live, e, t, x);
        assert false;
      }
    }
  }

  lemma TopicsDeletable(live: Live, e: Entities)
    requires Owned(live, e)
    ensures e.participant.Just? && Separate(e.topics)
    ensures forall h :: h in Pointees(e.topics) ==>
              Deletable(live - Pointees(e.readers) - Pointee(e.subscriber), e.participant, h)
  {
    assert Key(0);
    NamesSeparate(live, e);
    forall h | h in Pointees(e.topics)
      ensures Deletable(live - Pointees(e.readers) - Pointee(e.subscriber), e.participant, h)
    {
      TopicUnused(live, e, h);
    }
  }

  lemma UserOfParticipant(live: Live, e: Entities, x: Handle)
    requires Owned(live, e) && e.participant.Just? && x in live && e.participant.value in Uses(live[x])
    ensures x in Pointee(e.subscriber) || x in Pointees(e.topics)
  {
    assert Key(0);
    UserOf(live, e, x, e.participant.value);
    Apart(live, e);
    if live[x].Topic? {
      RecordedTopic(live, e, x);
    } else {
      RecordedOther(live, e, x);
    }
  }

  lemma ParticipantDeletable(live: Live, e: Entities)
    requires Owned(live, e)
    ensures e.participant.Just?
    ensures Deletable(live - Pointees(e.readers) - Pointee(e.subscriber) - Pointees(e.topics), Nothing,
                      e.participant.value)
  {
    ReceiversBegin(live, e);
    var p, left := e.participant.value, live - Pointees(e.readers) - Pointee(e.subscriber) - Pointees(e.topics);
    forall x | x in left
      ensures p !in Uses(left[x])
    {
      if p in Uses(live[x]) {
        UserOfParticipant(live, e, x);
        assert false;
      }
    }
  }

  /** The participant is none of what is deleted before it. */
  lemma ReceiversBegin(live: Live, e: Entities)
    requires Owned(live, e)
    ensures e.participant.Just? && e.participant.value in live && live[e.participant.value].Participant?
    ensures e.participant.value !in Pointees(e.readers) + Pointee(e.subscriber) + Pointees(e.topics)
  {
    assert Key(0);
  }

  // ---------- The spies ----------

  lemma ContainedRecorded(live: Live, e: Entities, left: Live, x: Handle)
    requires Owned(live, e) && e.spyParticipant.Just?
    requires left == live - Receivers(e) && x in Contained(left, e.spyParticipant.value)
    ensures x in Spies(e) && x != e.spyParticipant.value
  {
    assert Key(0);
    var sp := e.spyParticipant.value;
    if live[x].Reader? {
      var c := if BelongsTo(left, live[x].subscriber, sp) then live[x].subscriber else live[x].topic;
      assert sp in Uses(live[c]);
      UserOf(live, e, c, sp);
      UserOf(live, e, x, c);
      RecordedReader(live, e, x);
    } else {
      assert sp in Uses(live[x]);
      UserOf(live, e, x, sp);
      if live[x].Topic? {
        RecordedTopic(live, e, x);
      } else {
        RecordedOther(live, e, x);
      }
    }
  }

  lemma RecordedContained(live: Live, e: Entities, left: Live, x: Handle)
    requires Owned(live, e) && e.spyParticipant.Just?
    requires left == live - Receivers(e) && x in Spies(e) && x != e.spyParticipant.value
    ensures x in Contained(left, e.spyParticipant.value)
  {
    assert Key(0);
    Apart(live, e);
    SpyIs(live, e, x);
    assert e.spySubscriber.value in Spies(e);
  }

  /** What the spy participant contains is what is recorded of it; without that, it can be deleted. */
  lemma SpiesDeletable(live: Live, e: Entities, left: Live)
    requires Owned(live, e) && left == live - Receivers(e)
    ensures e.spyParticipant.Just?
    ensures var sp := e.spyParticipant.value;
            && Contained(left, sp) == Spies(e) - {sp} && sp in Spies(e)
            && Deletable(left - Contained(left, sp), Nothing, sp)
  {
    SpyParticipantStays(live, e, left);
    var sp := e.spyParticipant.value;
    forall x | x in Contained(left, sp)
      ensures x in Spies(e) - {sp}
    {
      ContainedRecorded(live, e, left, x);
    }
    forall x | x in Spies(e) - {sp}
      ensures x in Contained(left, sp)
    {
      RecordedContained(live, e, left, x);
    }
    assert Contained(left, sp) == Spies(e) - {sp};
    NobodyBut(left, sp);
  }

  lemma SpyParticipantStays(live: Live, e: Entities, left: Live)
    requires Owned(live, e) && left == live - Receivers(e)
    ensures e.spyParticipant.Just? && e.spyParticipant.value in Spies(e) && e.spyParticipant.value in left
    ensures left[e.spyParticipant.value].Participant?
    ensures forall x :: x in left && e.spyParticipant.value in Uses(left[x]) ==>
              BelongsTo(left, x, e.spyParticipant.value)
  {
    assert Running(live, e) && Closed(live) by {
      assert Key(0);
    }
    Apart(live, e);
    forall x | x in left && e.spyParticipant.value in Uses(left[x])
      ensures BelongsTo(left, x, e.spyParticipant.value)
    {
      assert Fits(live, live[x]);
    }
  }

  /** Only what a participant contains depends on it. */
  lemma NobodyBut(live: Live, p: Handle)
    requires p in live && live[p].Participant?
    requires forall x :: x in live && p in Uses(live[x]) ==> BelongsTo(live, x, p)
    ensures !InUse(live - Contained(live, p), p)
  {
  }

  // ---------- The listeners ----------

  /** When the readers and participants are gone, nobody calls the listeners. */
  lemma ListenerUnused(live: Live, e: Entities, h: Handle)
    requires Closed(live) && Running(live, e) && Isolated(live, Recorded(e)) && h in Listeners(e)
    ensures h in live && live[h].Listener? && !InUse(live - Receivers(e) - Spies(e), h)
  {
    assert h in Recorded(e);
    forall x | x in live && x !in Receivers(e) && x !in Spies(e)
      ensures h !in Uses(live[x])
    {
      if h in Uses(live[x]) {
        UserOf(live, e, x, h);
        if live[x].Reader? {
          RecordedReader(live, e, x);
        } else {
          RecordedOther(live, e, x);
        }
        assert false;
      }
    }
  }

  /** The listeners can be freed, and they are different ones. */
  lemma ListenersFree(live: Live, e: Entities, left: Live)
    requires Owned(live, e) && left == live - Receivers(e) - Spies(e)
    ensures e.readerListener.Just? && e.participantListener.Just?
    ensures forall h :: h in Listeners(e) ==> h in left && left[h].Listener? && !InUse(left, h)
    ensures forall n, k :: n in e.spyListeners && k in e.spyListeners && e.spyListeners[n] == e.spyListeners[k] ==>
              n == k
    ensures e.readerListener.value !in e.spyListeners.Values && e.participantListener.value !in e.spyListeners.Values
    ensures e.readerListener != e.participantListener
  {
    assert Key(0);
    forall h | h in Listeners(e)
      ensures h in left && left[h].Listener? && !InUse(left, h)
    {
      ListenerUnused(live, e, h);
      if h in Receivers(e) {
        ReceiverIs(live, e, h);
        assert false;
      }
      if h in Spies(e) {
        SpyIs(live, e, h);
        assert false;
      }
    }
  }
}
