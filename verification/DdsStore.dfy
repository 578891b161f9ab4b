/**
  The DDS objects that exist, and the listeners attached to them.  Creating an
  entity may fail; deleting one is refused as long as something that exists
  depends on it (sections 2.2.2.2.2.2 and 2.2.2.2.1 of OMG DDS 1.4).
*/
module DdsStore {
  import opened Basics

  type Handle = nat

  datatype Role = ParticipantListener | ReaderListener | SpyListener(topic: string)

  datatype Object =
    | Listener(role: Role)
    | Participant(listener: Maybe<Handle>)
    | Subscriber(participant: Handle)
    | Topic(owner: Handle, name: string, typeName: string)
    | Reader(subscriber: Handle, topic: Handle, attached: Handle)

  /** The entity through which `o` is created and deleted; participants have the factory. */
  function Parent(o: Object): Maybe<Handle> {
    match o
    case Listener(_) => Nothing
    case Participant(_) => Nothing
    case Subscriber(p) => Just(p)
    case Topic(p, _, _) => Just(p)
    case Reader(s, _, _) => Just(s)
  }

  type Live = map<Handle, Object>

  /** The objects without which `o` must not exist. */
  function Uses(o: Object): set<Handle> {
    match o
    case Listener(_) => {}
    case Participant(l) => if l.Just? then {l.value} else {}
    case Subscriber(p) => {p}
    case Topic(p, _, _) => {p}
    case Reader(s, t, l) => {s, t, l}
  }

  /** What `o` depends on exists, and is what it should be. */
  predicate Fits(live: Live, o: Object) {
    && Uses(o) <= live.Keys
    && match o
       case Listener(_) => true
       case Participant(l) => l.Just? ==> live[l.value].Listener?
       case Subscriber(p) => live[p].Participant?
       case Topic(p, _, _) => live[p].Participant?
       case Reader(s, t, l) => live[s].Subscriber? && live[t].Topic? && live[l].Listener?
  }

  /** Nothing that exists lacks what it depends on. */
  ghost predicate Closed(live: Live) {
    forall h :: h in live ==> Fits(live, live[h])
  }

  predicate InUse(live: Live, h: Handle) {
    exists x :: x in live && h in Uses(live[x])
  }

  /** What is in use: a participant's listener, what topics and subscribers belong to, and all that a reader has. */
  lemma InUseMeans(live: Live, h: Handle)
    ensures InUse(live, h) <==> exists x :: x in live && NeedsIt(live[x], h)
  {
  }

  predicate NeedsIt(o: Object, h: Handle) {
    || o == Participant(Just(h)) || o == Subscriber(h) || (o.Topic? && o.owner == h)
    || (o.Reader? && (h == o.subscriber || h == o.topic || h == o.attached))
  }

  /** Handles are never used again; `refused` counts the deletions that were refused. */
  datatype Store = Store(live: Live, next: Handle, refused: nat) {
    ghost predicate Valid() {
      Closed(live) && forall h :: h in live ==> h < next
    }

    function With(o: Object): (s: Store)
      requires Valid() && Fits(live, o)
      ensures s.Valid()
    {
      Store(live[next := o], next + 1, refused)
    }

    /** Asks `parent` to delete an entity: it must be the parent's own, and nothing may depend on it. */
    function Delete(parent: Maybe<Handle>, h: Handle): (s: Store)
      requires Valid()
      ensures s.Valid()
    {
      if h in live && !live[h].Listener? && Parent(live[h]) == parent && !InUse(live, h) then
        Store(live - {h}, next, refused)
      else Store(live, next, refused + 1)
    }

    /** Frees a listener: it must exist, and nobody may call it any more. */
    function Free(h: Handle): (s: Store)
      requires Valid() && h in live && live[h].Listener? && !InUse(live, h)
      ensures s.Valid()
    {
      Store(live - {h}, next, refused)
    }

    /** Deletes all that a participant contains. */
    function DeleteContained(p: Handle): (s: Store)
      requires Valid()
      ensures s.Valid()
    {
      Store(live - Contained(live, p), next, refused)
    }
  }

  /** The subscribers and topics of a participant, and all readers of either. */
  function Contained(live: Live, p: Handle): (hs: set<Handle>)
    ensures hs <= live.Keys
  {
    set h | h in live && match live[h]
                         case Listener(_) => false
                         case Participant(_) => false
                         case Subscriber(q) => q == p
                         case Topic(q, _, _) => q == p
                         case Reader(s, t, _) => BelongsTo(live, s, p) || BelongsTo(live, t, p)
  }

  predicate BelongsTo(live: Live, h: Handle, p: Handle) {
    h in live && (live[h] == Subscriber(p) || (live[h].Topic? && live[h].owner == p))
  }

  /** Creating an entity may fail; if it does not, the entity has a new handle. */
  method TryCreate(s: Store, o: Object) returns (r: Store, h: Maybe<Handle>)
    requires s.Valid() && Fits(s.live, o)
    ensures if h.Just? then h.value == s.next && r == s.With(o) else r == s
    ensures Grows(s.live, r.live)
  {
    var fails: bool := *;
    if fails {
      r, h := s, Nothing;
    } else {
      r, h := s.With(o), Just(s.next);
    }
  }

  /** What is left after a deletion lacks nothing exactly if the deleted object was not in use. */
  lemma RemovalClosed(live: Live, h: Handle)
    requires Closed(live) && h in live
    ensures InUse(live, h) <==> !Closed(live - {h})
  {
    var left := live - {h};
    if InUse(live, h) {
      var x :| x in live && h in Uses(live[x]);
      assert Fits(live, live[x]);
      assert x in left && left[x] == live[x];
    } else {
      forall x | x in left
        ensures Fits(left, left[x])
      {
        assert Fits(live, live[x]);
      }
    }
  }

  /** Nothing has been deleted or replaced. */
  ghost predicate Grows(live: Live, live': Live) {
    forall h :: h in live ==> h in live' && live'[h] == live[h]
  }

  lemma GrowsFurther(live: Live, more: Live, live': Live, t: Maybe<Handle>, typeName: string)
    requires Grows(live, more) && Grows(more, live') && HasType(more, t, typeName)
    ensures Grows(live, live') && HasType(live', t, typeName)
  {
  }

  datatype Result<T> = Ok(value: T) | Error

  /** The topic of a participant with a given name. */
  predicate IsTopicOf(live: Live, h: Handle, p: Handle, name: string) {
    h in live && live[h].Topic? && live[h].owner == p && live[h].name == name
  }

  /** The topic that a pointer leads to, if any, has a given type. */
  predicate HasType(live: Live, t: Maybe<Handle>, typeName: string) {
    t.Just? ==> t.value in live && live[t.value].Topic? && live[t.value].typeName == typeName
  }

  /**
    Finds the topic of a participant, or registers its type and creates it.
    An existing topic of another type is an error, and so is a type that cannot
    be registered; a topic that cannot be created is a null pointer.
  */
  method FindOrCreateTopic(s: Store, p: Handle, name: string, typeName: string)
        returns (r: Store, t: Result<Maybe<Handle>>)
    requires s.Valid() && p in s.live && s.live[p].Participant?
    ensures r.Valid() && Grows(s.live, r.live) && (t.Ok? ==> HasType(r.live, t.value, typeName))
    ensures t.Ok? && t.value.Just? ==>
              IsTopicOf(r.live, t.value.value, p, name) && r.live[t.value.value].typeName == typeName
              && (t.value.value in s.live || t.value.value == s.next)
    ensures (t.Ok? && t.value.Just? && t.value.value !in s.live && r == s.With(Topic(p, name, typeName))) || r == s
    ensures (exists h :: IsTopicOf(s.live, h, p, name)) ==> r == s && !(t.Ok? && t.value.Nothing?)
    ensures t.Error? && (exists h :: IsTopicOf(s.live, h, p, name)) ==>
              exists h :: IsTopicOf(s.live, h, p, name) && s.live[h].typeName != typeName
  {
    if h :| h in s.live && IsTopicOf(s.live, h, p, name) {
      if s.live[h].typeName != typeName {
        return s, Error;
      }
      return s, Ok(Just(h));
    } else {
      var inUse: bool := *;
      if inUse {
        return s, Error;
      }
      var h;
      r, h := TryCreate(s, Topic(p, name, typeName));
      t := Ok(h);
    }
  }
}
