/**
 The registry of ui/packages/app/lib/streaming/zombie-stream-registry.ts in its own form: entries are
 objects whose fields are updated in place, and the handlers of sources and timers work on the object they
 captured when they were made, whatever has been registered since. Every method is tied to the state machine
 of StreamRegistry, which knows entries by id only; that the two never part, because no handler outlives its
 entry, is what the lifecycle invariant gives.
 */
module RegistryObjects {
  import opened Wrappers
  import opened Timeline
  import opened StreamRegistry

  /** An entry, shared by reference between the registry and whoever works on it. */
  class EntryObject {
    ghost const zombieId: string
    const workspaceId: string
    var snapshot: nat
    var events: seq<Row>
    var status: ConnectionStatus
    var listeners: seq<Listener>
    var refCount: int
    var eventSource: Option<Handle>
    var reconnectTimer: Option<Handle>
    var reconnectAttempts: nat
    var idleTimer: Option<Handle>
    var tempCounter: nat

    constructor (ghost zombieId: string, workspaceId: string, initial: seq<BackfillRow>)
      ensures this.zombieId == zombieId && Data() == CreateEntry(workspaceId, initial)
    {
      this.zombieId, this.workspaceId := zombieId, workspaceId;
      snapshot, events, status := 0, MergeBackfill([], initial), Connecting;
      listeners, refCount, eventSource := [], 0, None;
      reconnectTimer, reconnectAttempts, idleTimer, tempCounter := None, 0, None, 0;
    }

    ghost function Data(): Entry
      reads this
    {
      Entry(workspaceId, snapshot, events, status, listeners, refCount, eventSource, reconnectTimer,
            reconnectAttempts, idleTimer, tempCounter)
    }

    method Join(l: Listener)
      modifies this
      ensures Data() == Joined(old(Data()), l)
    {
      idleTimer := None;
      refCount := refCount + 1;
      listeners := AddListener(listeners, l);
    }

    method Leave(l: Listener)
      modifies this
      ensures Data() == Left(old(Data()), l)
    {
      listeners := RemoveListener(listeners, l);
      refCount := refCount - 1;
    }
  }

  type Objects = map<string, EntryObject>
  type Captures = map<Handle, EntryObject>

  /** Every handler that can still run captured the object that is registered under its id now. */
  ghost predicate Bound(registry: Objects, w: World, captured: Captures) {
    && Bounded(w)
    && (forall h :: h in w.open ==> h in captured && w.open[h] in registry && captured[h] == registry[w.open[h]])
    && (forall h :: h in w.timers ==>
          h in captured && w.timers[h].id in registry && captured[h] == registry[w.timers[h].id])
  }

  /** `v` has the handlers of `w` at most, and perhaps the next handle for `id`. */
  predicate NewHandlerAtMost(w: World, v: World, id: string) {
    && v.next >= w.next
    && (forall h :: h in v.open ==>
          (h in w.open && v.open[h] == w.open[h]) || (h == w.next < v.next && v.open[h] == id))
    && (forall h :: h in v.timers ==>
          (h in w.timers && v.timers[h] == w.timers[h]) || (h == w.next < v.next && v.timers[h].id == id))
  }

  lemma StaysBound(registry: Objects, w: World, captured: Captures, v: World, id: string)
    requires Bound(registry, w, captured) && id in registry && NewHandlerAtMost(w, v, id)
    ensures v.next == w.next ==> Bound(registry, v, captured)
    ensures Bound(registry, v, captured[w.next := registry[id]])
  {
  }

  lemma RegisteredStaysBound(registry: Objects, w: World, captured: Captures, id: string, entry: EntryObject, e: Entry)
    requires Bound(registry, w, captured) && id !in registry && e.source.None?
    ensures Bound(registry[id := entry], StreamRegistry.StartEventSource(w, id, e), captured[w.next := entry])
  {
  }

  lemma ReconnectedStaysBound(registry: Objects, w: World, captured: Captures, h: Handle)
    requires Bound(registry, w, captured)
    requires h in w.timers && w.timers[h].Reconnect? && w.timers[h].id in w.entries && w.timers[h].id in registry
    ensures var v, id := Fire(w, h), w.timers[h].id;
            Bound(registry, v, if v.next == w.next then captured else captured[w.next := registry[id]])
  {
    StaysBound(registry, w, captured, Fire(w, h), w.timers[h].id);
  }

  /** Here the lifecycle invariant is needed: no other handler of the id is left when its object goes. */
  lemma TornDownStaysBound(registry: Objects, w: World, captured: Captures, h: Handle)
    requires Bound(registry, w, captured) && Inv(w)
    requires h in w.timers && w.timers[h].Idle? && w.timers[h].id in w.entries && w.timers[h].id in registry
    ensures Bound(registry - {w.timers[h].id}, Fire(w, h), captured)
  {
    TeardownKeepsInv(w, h);
    var v, id := Fire(w, h), w.timers[h].id;
    assert InvAt(v, id);
    assert NewHandlerAtMost(w, v, id);
  }

  class Registry {
    var registry: map<string, EntryObject>
    var open: map<Handle, string>
    var timers: map<Handle, Timer>
    var next: Handle
    var calls: seq<Listener>
    /** The entry object captured by the handlers of each source and timer ever made; `open` has their ids. */
    var captured: map<Handle, EntryObject>
    /** The state of the state machine. */
    ghost var world: World

    constructor ()
      ensures Valid() && world == EMPTY
    {
      registry, open, timers, next, calls, captured, world := map[], map[], map[], 0, [], map[], EMPTY;
      new;
      EmptyKeepsInv();
    }

    /** It is what the fields and the entry objects hold, each object registered under its own id. */
    ghost predicate Represents()
      reads this, registry.Values
    {
      && world == World(world.entries, open, timers, next, calls)
      && registry.Keys == world.entries.Keys
      && (forall id :: id in registry ==> registry[id].zombieId == id && registry[id].Data() == world.entries[id])
    }

    /** Represents, but for an entry that is being worked on. */
    ghost predicate RepresentsBut(entry: EntryObject)
      reads this, registry.Values
    {
      && world == World(world.entries, open, timers, next, calls)
      && registry.Keys == world.entries.Keys
      && (forall id :: id in registry ==> registry[id].zombieId == id)
      && (forall id :: id in registry && registry[id] != entry ==> registry[id].Data() == world.entries[id])
    }

    ghost predicate Linked()
      reads this, registry.Values
    {
      Represents() && Bound(registry, world, captured)
    }

    ghost predicate Valid()
      reads this, registry.Values
    {
      Linked() && Inv(world)
    }

    // ---------------------------------------------------------------- timers, sources and listeners

    method ClearTimer(h: Option<Handle>)
      modifies this`timers
      ensures timers == Without(old(timers), h)
    {
      if h.Some? {
        timers := timers - {h.value};
      }
    }

    method SetTimer(t: Timer, entry: EntryObject) returns (h: Handle)
      modifies this`timers, this`next, this`captured
      ensures h == old(next) && next == h + 1
      ensures timers == old(timers)[h := t] && captured == old(captured)[h := entry]
    {
      h := next;
      timers := timers[h := t];
      captured := captured[h := entry];
      next := next + 1;
    }

    method CloseSource(h: Option<Handle>)
      modifies this`open
      ensures open == Without(old(open), h)
    {
      if h.Some? {
        open := open - {h.value};
      }
    }

    method Notify(entry: EntryObject)
      modifies this`calls
      ensures calls == old(calls) + entry.listeners
    {
      for i := 0 to |entry.listeners|
        invariant calls == old(calls) + entry.listeners[..i]
      {
        calls := calls + [entry.listeners[i]];
      }
      assert entry.listeners[..|entry.listeners|] == entry.listeners;
    }

    method PatchSnapshot(entry: EntryObject, status: ConnectionStatus)
      modifies this`calls, entry
      ensures entry.Data() == Renewed(old(entry.Data()).(status := status)) && calls == old(calls) + entry.listeners
    {
      entry.status := status;
      entry.snapshot := entry.snapshot + 1;
      Notify(entry);
    }

    method SetEvents(entry: EntryObject, events: seq<Row>)
      modifies this`calls, entry
      ensures entry.Data() == Renewed(old(entry.Data()).(events := events)) && calls == old(calls) + entry.listeners
    {
      entry.events := events;
      entry.snapshot := entry.snapshot + 1;
      Notify(entry);
    }

    method StartEventSource(id: string, entry: EntryObject)
      modifies this`open, this`next, this`captured, entry
      ensures if old(entry.eventSource).Some? then
                open == old(open) && next == old(next) && captured == old(captured) && entry.Data() == old(entry.Data())
              else
                && open == old(open)[old(next) := id] && next == old(next) + 1
                && captured == old(captured)[old(next) := entry]
                && entry.Data() == old(entry.Data()).(source := Some(old(next)))
    {
      if entry.eventSource.Some? {
        return;
      }
      open := open[next := id];
      captured := captured[next := entry];
      entry.eventSource := Some(next);
      next := next + 1;
    }

    // ---------------------------------------------------------------- subscriptions

    /** Whatever the state: the step of the state machine; in a valid one, valid again exactly for a new listener. */
    method Subscribe(workspaceId: string, id: string, initial: seq<BackfillRow>, l: Listener)
      requires Linked()
      modifies this, registry.Values
      ensures Linked() && world == StreamRegistry.Subscribe(old(world), workspaceId, id, initial, l)
      ensures old(Valid()) ==> (Valid() <==> !(id in old(world.entries) && l in old(world.entries[id]).listeners))
    {
      ghost var w := world;
      if id !in registry {
        CreateAndStart(workspaceId, id, initial);
      }
      ghost var started := world;
      AddSubscriber(id, registry[id], l);
      StaysBound(registry, started, captured, world, id);
      if Inv(w) {
        SubscribeKeepsInv(w, workspaceId, id, initial, l);
      }
    }

    method CreateAndStart(workspaceId: string, id: string, initial: seq<BackfillRow>)
      requires Linked() && id !in registry
      modifies this
      ensures Linked() && fresh(registry.Values - old(registry).Values)
      ensures world == StreamRegistry.StartEventSource(old(world), id, CreateEntry(workspaceId, initial))
    {
      var created := new EntryObject(id, workspaceId, initial);
      RegisteredStaysBound(registry, world, captured, id, created, CreateEntry(workspaceId, initial));
      Register(workspaceId, id, initial, created);
    }

    method Register(ghost workspaceId: string, id: string, ghost initial: seq<BackfillRow>, created: EntryObject)
      requires Represents() && id !in registry && created !in registry.Values && created.zombieId == id
      requires created.Data() == CreateEntry(workspaceId, initial)
      modifies this`registry, this`open, this`next, this`captured, this`world, created
      ensures Represents() && registry == old(registry)[id := created]
      ensures captured == old(captured)[old(next) := created]
      ensures world == StreamRegistry.StartEventSource(old(world), id, CreateEntry(workspaceId, initial))
    {
      registry := registry[id := created];
      StartEventSource(id, created);
      world := StreamRegistry.StartEventSource(world, id, CreateEntry(workspaceId, initial));
    }

    method AddSubscriber(id: string, entry: EntryObject, l: Listener)
      requires Represents() && id in registry && registry[id] == entry
      modifies this`timers, this`world, entry
      ensures Represents() && world == Attach(old(world), id, l)
    {
      ClearTimer(entry.idleTimer);
      entry.Join(l);
      world := Attach(world, id, l);
    }

    /** Whatever the state: the step of the state machine; in a valid one, valid again exactly for a first release. */
    method ReleaseSubscriber(id: string, l: Listener)
      requires Linked()
      modifies this, registry.Values
      ensures Linked() && world == Release(old(world), id, l)
      ensures old(Valid()) ==> (Valid() <==> (id in old(world.entries) ==> l in old(world.entries[id]).listeners))
    {
      ghost var w, c := world, captured;
      if id in registry {
        RemoveSubscriber(id, registry[id], l);
        StaysBound(registry, w, c, world, id);
      }
      if Inv(w) {
        ReleaseKeepsInv(w, id, l);
      }
    }

    method RemoveSubscriber(id: string, entry: EntryObject, l: Listener)
      requires Represents() && id in registry && registry[id] == entry
      modifies this`timers, this`next, this`captured, this`world, entry
      ensures Represents() && world == Release(old(world), id, l)
      ensures captured == if next == old(next) then old(captured) else old(captured)[old(next) := entry]
    {
      entry.Leave(l);
      if entry.refCount > 0 {
        world := Release(world, id, l);
        return;
      }
      GoIdle(id, entry, Left(world.entries[id], l));
    }

    method GoIdle(id: string, entry: EntryObject, ghost data: Entry)
      requires RepresentsBut(entry) && id in registry && registry[id] == entry && entry.Data() == data
      modifies this`timers, this`next, this`captured, this`world, entry`idleTimer
      ensures Represents() && world == Idled(old(world), id, data)
      ensures captured == old(captured)[old(next) := entry]
    {
      StartIdleTimer(id, entry);
      world := Idled(world, id, data);
    }

    method StartIdleTimer(id: string, entry: EntryObject)
      modifies this`timers, this`next, this`captured, entry`idleTimer
      ensures entry.Data() == old(entry.Data()).(idleTimer := Some(old(next))) && next == old(next) + 1
      ensures timers == old(timers)[old(next) := Idle(id, IDLE_RELEASE_MS)]
      ensures captured == old(captured)[old(next) := entry]
    {
      var h := SetTimer(Idle(id, IDLE_RELEASE_MS), entry);
      entry.idleTimer := Some(h);
    }

    // ---------------------------------------------------------------- the event source

    method OnOpen(h: Handle)
      requires Valid() && h in open
      modifies this, registry.Values
      ensures Valid() && world == Opened(old(world), old(open[h]))
    {
      ghost var w, id := world, open[h];
      Reopen(id, captured[h]);
      StaysBound(registry, w, captured, world, id);
      NotifyKeepsInv(w, id, Reopened(w.entries[id]));
    }

    method Reopen(ghost id: string, entry: EntryObject)
      requires Represents() && id in registry && registry[id] == entry
      modifies this`calls, this`world, entry
      ensures Represents() && world == Opened(old(world), id)
    {
      entry.reconnectAttempts := 0;
      PatchSnapshot(entry, Live);
      world := Opened(world, id);
    }

    method OnMessage(h: Handle, frame: Option<Frame>)
      requires Valid() && h in open
      modifies this, registry.Values
      ensures Valid()
      ensures world == if frame.None? then old(world) else OnFrame(old(world), old(open[h]), frame.value)
    {
      if frame.None? {
        return;
      }
      ghost var id := open[h];
      var entry := captured[h];
      ReplaceEvents(id, entry, ApplyLiveFrame(entry.events, frame.value));
    }

    method ReplaceEvents(ghost id: string, entry: EntryObject, events: seq<Row>)
      requires Linked() && id in registry && registry[id] == entry
      modifies this`calls, this`world, entry
      ensures Linked() && world == StreamRegistry.SetEvents(old(world), id, events)
      ensures old(Valid()) ==> Valid()
    {
      ghost var w := world;
      PutEvents(id, entry, events);
      StaysBound(registry, w, captured, world, id);
      if Inv(w) {
        NotifyKeepsInv(w, id, w.entries[id].(events := events));
      }
    }

    method PutEvents(ghost id: string, entry: EntryObject, events: seq<Row>)
      requires Represents() && id in registry && registry[id] == entry
      modifies this`calls, this`world, entry
      ensures Represents() && world == StreamRegistry.SetEvents(old(world), id, events)
    {
      SetEvents(entry, events);
      world := StreamRegistry.SetEvents(world, id, events);
    }

    method OnError(h: Handle)
      requires Valid() && h in open
      modifies this, registry.Values
      ensures Valid() && world == Errored(old(world), old(open[h]))
    {
      ghost var w, c := world, captured;
      var id := open[h];
      LoseSource(id, captured[h]);
      StaysBound(registry, w, c, world, id);
      assert InvAt(w, id);
      ErroredKeepsInv(w, id);
    }

    method LoseSource(id: string, entry: EntryObject)
      requires Represents() && id in registry && registry[id] == entry
      modifies this`open, this`timers, this`next, this`calls, this`captured, this`world, entry
      ensures Represents() && world == Errored(old(world), id) && captured == old(captured)[old(next) := entry]
    {
      Disconnect(id, entry);
      world := Errored(world, id);
    }

    method Disconnect(id: string, entry: EntryObject)
      modifies this`open, this`timers, this`next, this`calls, this`captured, entry
      ensures entry.Data() == Renewed(Lost(old(entry.Data()), old(next))) && calls == old(calls) + entry.listeners
      ensures open == Without(old(open), old(entry.eventSource)) && next == old(next) + 1
      ensures timers == old(timers)[old(next) := Reconnect(id, ReconnectDelay(old(entry.reconnectAttempts) + 1))]
      ensures captured == old(captured)[old(next) := entry]
    {
      CloseSource(entry.eventSource);
      entry.eventSource := None;
      PatchSnapshot(entry, Reconnecting);
      entry.reconnectAttempts := entry.reconnectAttempts + 1;
      var timer := SetTimer(Reconnect(id, ReconnectDelay(entry.reconnectAttempts)), entry);
      entry.reconnectTimer := Some(timer);
    }

    // ---------------------------------------------------------------- timers

    method TimerFires(h: Handle)
      requires Valid() && h in timers
      modifies this, registry.Values
      ensures Valid() && world == Fire(old(world), h)
    {
      if timers[h].Reconnect? {
        OnReconnectTimer(h);
      } else {
        OnIdleTimer(h);
      }
    }

    method OnReconnectTimer(h: Handle)
      requires Valid() && h in timers && timers[h].Reconnect?
      modifies this, registry.Values
      ensures Valid() && world == Fire(old(world), h)
    {
      assert InvAt(world, timers[h].id);
      ReconnectKeepsInv(world, h);
      ReconnectedStaysBound(registry, world, captured, h);
      var id := timers[h].id;
      Expire(h);
      Restart(id, captured[h]);
    }

    method OnIdleTimer(h: Handle)
      requires Valid() && h in timers && timers[h].Idle?
      modifies this, registry.Values
      ensures Valid() && world == Fire(old(world), h)
    {
      TeardownKeepsInv(world, h);
      TornDownStaysBound(registry, world, captured, h);
      var id := timers[h].id;
      Expire(h);
      TearDown(id, captured[h]);
    }

    /** A timer that fires is no longer scheduled. */
    method Expire(h: Handle)
      requires Represents() && h in timers
      modifies this`timers, this`world
      ensures Represents() && world == old(world).(timers := old(world).timers - {h})
    {
      ClearTimer(Some(h));
      world := world.(timers := world.timers - {h});
    }

    method Restart(id: string, entry: EntryObject)
      requires Represents() && id in registry && registry[id] == entry && entry.eventSource.None?
      modifies this`open, this`next, this`captured, this`world, entry
      ensures Represents() && world == Reconnected(old(world), id)
      ensures captured == old(captured)[old(next) := entry]
    {
      entry.reconnectTimer := None;
      StartEventSource(id, entry);
      world := Reconnected(world, id);
    }

    method TearDown(id: string, entry: EntryObject)
      requires Represents() && id in registry && registry[id] == entry
      modifies this`timers, this`open, this`registry, this`world
      ensures Represents() && world == Teardown(old(world), id) && registry == old(registry) - {id}
    {
      ClearTimer(entry.reconnectTimer);
      ClearTimer(entry.idleTimer);
      CloseSource(entry.eventSource);
      registry := registry - {id};
      world := Teardown(world, id);
    }

    // ---------------------------------------------------------------- optimistic rows

    method AppendOptimistic(id: string, text: string, actor: string, now: int) returns (tempId: string)
      requires Linked()
      modifies this, registry.Values
      ensures Linked() && (world, tempId) == StreamRegistry.AppendOptimistic(old(world), id, text, actor, now)
      ensures old(Valid()) ==> Valid()
    {
      if id !in registry {
        return "";
      }
      ghost var w := world;
      tempId := AppendTo(id, registry[id], text, actor, now);
      StaysBound(registry, w, captured, world, id);
      if Inv(w) {
        NotifyKeepsInv(w, id, WithOptimistic(w.entries[id], text, actor, now));
      }
    }

    method AppendTo(ghost id: string, entry: EntryObject, text: string, actor: string, now: int)
      returns (tempId: string)
      requires Represents() && id in registry && registry[id] == entry
      modifies this`calls, this`world, entry
      ensures Represents() && (world, tempId) == StreamRegistry.AppendOptimistic(old(world), id, text, actor, now)
    {
      tempId := AppendRow(entry, text, actor, now);
      world := StreamRegistry.AppendOptimistic(world, id, text, actor, now).0;
    }

    method AppendRow(entry: EntryObject, text: string, actor: string, now: int) returns (tempId: string)
      modifies this`calls, entry
      ensures entry.Data() == Renewed(WithOptimistic(old(entry.Data()), text, actor, now))
      ensures tempId == TempId(entry.tempCounter) && calls == old(calls) + entry.listeners
    {
      entry.tempCounter := entry.tempCounter + 1;
      tempId := TempId(entry.tempCounter);
      SetEvents(entry, entry.events + [OptimisticRow(entry.tempCounter, text, actor, now)]);
    }

    method ReconcileOptimistic(id: string, tempId: string, realId: string)
      requires Linked()
      modifies this, registry.Values
      ensures Linked() && world == StreamRegistry.ReconcileOptimistic(old(world), id, tempId, realId)
      ensures old(Valid()) ==> Valid()
    {
      if id !in registry {
        return;
      }
      var entry := registry[id];
      ReplaceEvents(id, entry, RenameRows(entry.events, tempId, realId));
    }

    method MarkOptimisticFailed(id: string, tempId: string)
      requires Linked()
      modifies this, registry.Values
      ensures Linked() && world == StreamRegistry.MarkOptimisticFailed(old(world), id, tempId)
      ensures old(Valid()) ==> Valid()
    {
      if id !in registry {
        return;
      }
      var entry := registry[id];
      ReplaceEvents(id, entry, FailRows(entry.events, tempId));
    }
  }
}
