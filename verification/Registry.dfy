/** The in-memory skill registry: registry/skills/in_memory_registry.go. */
module Registry {
  import opened Values
  import MapStores

  datatype ChangeEvent = Registered(id: string) | Unregistered(id: string)

  datatype Skill = Skill(id: string, valid: bool)

  datatype RegistryError = NilSkill | EmptyId | InvalidSkill | AlreadyExists | NotFound

  // ---------------------------------------------------------------------------------------
  // What a sequence of events says about the store
  // ---------------------------------------------------------------------------------------

  /** The identifiers registered after the events, from `base`; None if an identifier is registered
      while present or unregistered while absent. */
  function Replay(base: set<string>, events: seq<ChangeEvent>): Option<set<string>> {
    if events == [] then Some(base)
    else match Replay(base, events[..|events| - 1])
      case None => None
      case Some(ids) => match events[|events| - 1]
        case Registered(id) => if id in ids then None else Some(ids + {id})
        case Unregistered(id) => if id in ids then Some(ids - {id}) else None
  }

  /** The events about one identifier. */
  function About(events: seq<ChangeEvent>, id: string): seq<ChangeEvent> {
    if events == [] then []
    else
      var last := events[|events| - 1];
      About(events[..|events| - 1], id) + if last.id == id then [last] else []
  }

  ghost predicate Alternates(events: seq<ChangeEvent>) {
    forall i | 0 < i < |events| :: events[i].Registered? <==> events[i - 1].Unregistered?
  }

  /** Events that replay alternate, per identifier, and end with a registration iff it is present. */
  lemma {:induction false} ReplayableEventsAlternate(base: set<string>, events: seq<ChangeEvent>, id: string)
    requires Replay(base, events).Some?
    ensures var es := About(events, id);
      && Alternates(es)
      && (es != [] ==> (es[0].Registered? <==> id !in base))
      && (id in Replay(base, events).value <==> if es == [] then id in base else es[|es| - 1].Registered?)
  {
    if events != [] {
      ReplayableEventsAlternate(base, events[..|events| - 1], id);
    }
  }

  // ---------------------------------------------------------------------------------------
  // The registry, used by one goroutine at a time
  // ---------------------------------------------------------------------------------------

  /** A callback, with the events it has received and the identifiers present when it subscribed. */
  class Subscriber {
    var events: seq<ChangeEvent>
    ghost const base: set<string>

    constructor (ghost base: set<string>)
      ensures this.base == base && events == []
    {
      this.base := base;
      events := [];
    }
  }

  class InMemoryRegistry {
    const store: MapStores.MapStore<Skill>
    var callbacks: seq<Subscriber>

    /** Every subscriber's events replay from what it first saw to what is stored now. */
    ghost predicate Valid()
      reads this, store, callbacks
    {
      && Distinct(callbacks)
      && (forall id | id in store.data :: id != "" && store.data[id] == Skill(id, true))
      && forall c | c in callbacks :: Replay(c.base, c.events) == Some(store.data.Keys)
    }

    constructor ()
      ensures Valid() && store.data == map[] && callbacks == [] && fresh(store)
    {
      store := new MapStores.MapStore<Skill>();
      callbacks := [];
    }

    method Subscribe() returns (c: Subscriber)
      requires Valid()
      modifies this
      ensures Valid() && fresh(c) && callbacks == old(callbacks) + [c]
    {
      c := new Subscriber(store.data.Keys);
      callbacks := callbacks + [c];
    }

    /** A callback that panics is recovered from, so every callback is called once. */
    method FireCallbacks(cbs: seq<Subscriber>, event: ChangeEvent)
      requires Distinct(cbs)
      modifies cbs
      ensures forall c | c in cbs :: c.events == old(c.events) + [event]
    {
      for i := 0 to |cbs|
        invariant forall j | 0 <= j < i :: cbs[j].events == old(cbs[j].events) + [event]
        invariant forall j | i <= j < |cbs| :: cbs[j].events == old(cbs[j].events)
      {
        cbs[i].events := cbs[i].events + [event];
      }
    }

    method Register(skill: Option<Skill>) returns (err: Option<RegistryError>)
      requires Valid()
      modifies this, store, callbacks
      ensures Valid() && callbacks == old(callbacks)
      ensures err == if skill.None? then Some(NilSkill)
                     else if skill.value.id == "" then Some(EmptyId)
                     else if !skill.value.valid then Some(InvalidSkill)
                     else if skill.value.id in old(store.data) then Some(AlreadyExists)
                     else None
      ensures store.data == if err.None? then old(store.data)[skill.value.id := skill.value] else old(store.data)
      ensures forall c | c in callbacks ::
        c.events == old(c.events) + if err.None? then [Registered(skill.value.id)] else []
    {
      if skill.None? {
        return Some(NilSkill);
      }
      var id := skill.value.id;
      if id == "" {
        return Some(EmptyId);
      }
      if !skill.value.valid {
        return Some(InvalidSkill);
      }
      var ok := store.PutIfAbsent(id, skill.value);
      if !ok {
        return Some(AlreadyExists);
      }
      FireCallbacks(callbacks, Registered(id));
      assert store.data.Keys == old(store.data.Keys) + {id};
      forall c | c in callbacks ensures Replay(c.base, c.events) == Some(store.data.Keys) {
        ReplayOneMore(c.base, old(c.events), Registered(id));
      }
      err := None;
    }

    method Unregister(id: string) returns (err: Option<RegistryError>)
      requires Valid()
      modifies this, store, callbacks
      ensures Valid() && callbacks == old(callbacks)
      ensures err == if id in old(store.data) then None else Some(NotFound)
      ensures store.data == old(store.data) - {id}
      ensures forall c | c in callbacks :: c.events == old(c.events) + if err.None? then [Unregistered(id)] else []
    {
      var ok := store.DeleteIfExists(id);
      if !ok {
        assert store.data == old(store.data);
        return Some(NotFound);
      }
      FireCallbacks(callbacks, Unregistered(id));
      assert store.data.Keys == old(store.data.Keys) - {id};
      forall c | c in callbacks ensures Replay(c.base, c.events) == Some(store.data.Keys) {
        ReplayOneMore(c.base, old(c.events), Unregistered(id));
      }
      err := None;
    }
  }

  lemma ReplayOneMore(base: set<string>, events: seq<ChangeEvent>, e: ChangeEvent)
    requires Replay(base, events).Some?
    ensures Replay(base, events + [e]) ==
      (var ids := Replay(base, events).value;
       match e
       case Registered(id) => if id in ids then None else Some(ids + {id})
       case Unregistered(id) => if id in ids then Some(ids - {id}) else None)
  {
    assert (events + [e])[..|events|] == events;
  }
}
