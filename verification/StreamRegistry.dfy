/**
 Model of ui/packages/app/lib/streaming/zombie-stream-registry.ts as a state machine: one entry per
 zombie id, shared by counted subscriptions, with an event source that reconnects and an idle timer
 that tears the entry down. The browser's part, which sources are open and which timers are
 scheduled, is part of the state, so that nothing left behind goes unseen.
 */
module StreamRegistry {
  import opened Wrappers
  import opened Sequences
  import opened Timeline
  import Decimal

  type Listener = nat
  type Handle = nat

  datatype ConnectionStatus = Connecting | Live | Reconnecting

  /** `snapshot` counts the snapshot objects made so far: it changes exactly when a new one is put in place. */
  datatype Entry = Entry(
    workspaceId: string, snapshot: nat, events: seq<Row>, status: ConnectionStatus, listeners: seq<Listener>,
    refCount: int, source: Option<Handle>, reconnectTimer: Option<Handle>, reconnectAttempts: nat,
    idleTimer: Option<Handle>, tempCounter: nat)

  /** A scheduled callback and the zombie id of the entry it captured. */
  datatype Timer = Reconnect(id: string, delay: nat) | Idle(id: string, delay: nat)

  /** `calls` is the log of listener calls. */
  datatype World = World(entries: map<string, Entry>, open: map<Handle, string>, timers: map<Handle, Timer>,
                         next: Handle, calls: seq<Listener>)

  const EMPTY := World(map[], map[], map[], 0, [])

  const IDLE_RELEASE_MS := 30_000
  const RECONNECT_BACKOFF_BASE_MS := 1_000
  const RECONNECT_BACKOFF_CAP_MS := 15_000
  const RECONNECT_MAX_BACKOFF_ATTEMPTS := 5

  function Min(a: nat, b: nat): nat {
    if a < b then a else b
  }

  function Pow2(n: nat): nat {
    if n == 0 then 1 else 2 * Pow2(n - 1)
  }

  function ReconnectDelay(attempts: nat): nat {
    Min(RECONNECT_BACKOFF_BASE_MS * Pow2(Min(attempts, RECONNECT_MAX_BACKOFF_ATTEMPTS)), RECONNECT_BACKOFF_CAP_MS)
  }

  // ---------------------------------------------------------------- operations

  function CreateEntry(workspaceId: string, initial: seq<BackfillRow>): Entry {
    Entry(workspaceId, 0, MergeBackfill([], initial), Connecting, [], 0, None, None, 0, None, 0)
  }

  function Without<T>(m: map<Handle, T>, h: Option<Handle>): map<Handle, T> {
    if h.Some? then m - {h.value} else m
  }

  function Renewed(e: Entry): Entry {
    e.(snapshot := e.snapshot + 1)
  }

  /** A new snapshot, and one call to each listener. */
  function Notify(w: World, id: string, e: Entry): World {
    w.(entries := w.entries[id := Renewed(e)], calls := w.calls + e.listeners)
  }

  /** Puts `e` in place as the entry of `id`, with an open source. */
  function StartEventSource(w: World, id: string, e: Entry): World {
    if e.source.Some? then w.(entries := w.entries[id := e])
    else w.(entries := w.entries[id := e.(source := Some(w.next))], open := w.open[w.next := id], next := w.next + 1)
  }

  function AddListener(ls: seq<Listener>, l: Listener): seq<Listener> {
    if l in ls then ls else ls + [l]
  }

  function RemoveListener(ls: seq<Listener>, l: Listener): seq<Listener> {
    if ls == [] then []
    else if ls[0] == l then ls[1..]
    else [ls[0]] + RemoveListener(ls[1..], l)
  }

  function Subscribe(w: World, workspaceId: string, id: string, initial: seq<BackfillRow>, l: Listener): World {
    Attach(if id in w.entries then w else StartEventSource(w, id, CreateEntry(workspaceId, initial)), id, l)
  }

  function Attach(w: World, id: string, l: Listener): World
    requires id in w.entries
  {
    var e := w.entries[id];
    w.(timers := Without(w.timers, e.idleTimer), entries := w.entries[id := Joined(e, l)])
  }

  function Joined(e: Entry, l: Listener): Entry {
    e.(idleTimer := None, refCount := e.refCount + 1, listeners := AddListener(e.listeners, l))
  }

  function Release(w: World, id: string, l: Listener): World {
    if id !in w.entries then w
    else
      var e1 := Left(w.entries[id], l);
      if e1.refCount > 0 then w.(entries := w.entries[id := e1])
      else Idled(w, id, e1)
  }

  /** Puts `e` in place as the entry of `id`, to be torn down when the idle timer fires. */
  function Idled(w: World, id: string, e: Entry): World {
    w.(entries := w.entries[id := e.(idleTimer := Some(w.next))],
       timers := w.timers[w.next := Idle(id, IDLE_RELEASE_MS)], next := w.next + 1)
  }

  function Left(e: Entry, l: Listener): Entry {
    e.(listeners := RemoveListener(e.listeners, l), refCount := e.refCount - 1)
  }

  function Opened(w: World, id: string): World
    requires id in w.entries
  {
    Notify(w, id, Reopened(w.entries[id]))
  }

  function Reopened(e: Entry): Entry {
    e.(reconnectAttempts := 0, status := Live)
  }

  function Errored(w: World, id: string): World
    requires id in w.entries
  {
    Disconnected(w, id, ReconnectDelay(w.entries[id].reconnectAttempts + 1))
  }

  function Disconnected(w: World, id: string, delay: nat): World
    requires id in w.entries
  {
    var e := w.entries[id];
    Notify(w.(open := Without(w.open, e.source), timers := w.timers[w.next := Reconnect(id, delay)],
              next := w.next + 1),
           id,
           Lost(e, w.next))
  }

  /** `e` without its source, waiting for timer `h` to bring it back. */
  function Lost(e: Entry, h: Handle): Entry {
    e.(source := None, status := Reconnecting, reconnectAttempts := e.reconnectAttempts + 1, reconnectTimer := Some(h))
  }

  /** The reconnect callback; its timer has already left the schedule. */
  function Reconnected(w: World, id: string): World
    requires id in w.entries
  {
    StartEventSource(w, id, w.entries[id].(reconnectTimer := None))
  }

  function Teardown(w: World, id: string): World
    requires id in w.entries
  {
    var e := w.entries[id];
    w.(timers := Without(Without(w.timers, e.reconnectTimer), e.idleTimer), open := Without(w.open, e.source),
       entries := w.entries - {id})
  }

  function Fire(w: World, h: Handle): World
    requires h in w.timers && w.timers[h].id in w.entries
  {
    var w1 := w.(timers := w.timers - {h});
    match w.timers[h]
    case Reconnect(id, _) => Reconnected(w1, id)
    case Idle(id, _) => Teardown(w1, id)
  }

  function SetEvents(w: World, id: string, events: seq<Row>): World
    requires id in w.entries
  {
    Notify(w, id, w.entries[id].(events := events))
  }

  function OnFrame(w: World, id: string, f: Frame): World
    requires id in w.entries
  {
    SetEvents(w, id, ApplyLiveFrame(w.entries[id].events, f))
  }

  function TempId(n: nat): string {
    "optim-" + Decimal.Numeral(n)
  }

  function OptimisticRow(n: nat, text: string, actor: string, now: int): Row {
    Row(TempId(n), User, actor, text, now, "optimistic", None)
  }

  /** The new state and the id handed to the caller, "" when there is no entry. */
  function AppendOptimistic(w: World, id: string, text: string, actor: string, now: int): (World, string) {
    if id !in w.entries then (w, "")
    else
      var e := WithOptimistic(w.entries[id], text, actor, now);
      (Notify(w, id, e), TempId(e.tempCounter))
  }

  function WithOptimistic(e: Entry, text: string, actor: string, now: int): Entry {
    var n := e.tempCounter + 1;
    e.(tempCounter := n, events := e.events + [OptimisticRow(n, text, actor, now)])
  }

  function RenameRow(r: Row, tempId: string, realId: string): Row {
    if r.id == tempId then r.(id := realId, status := "received") else r
  }

  function FailRow(r: Row, tempId: string): Row {
    if r.id == tempId then r.(status := "failed") else r
  }

  function RenameRows(rows: seq<Row>, tempId: string, realId: string): seq<Row> {
    seq(|rows|, i requires 0 <= i < |rows| => RenameRow(rows[i], tempId, realId))
  }

  function FailRows(rows: seq<Row>, tempId: string): seq<Row> {
    seq(|rows|, i requires 0 <= i < |rows| => FailRow(rows[i], tempId))
  }

  function ReconcileOptimistic(w: World, id: string, tempId: string, realId: string): World {
    if id !in w.entries then w else SetEvents(w, id, RenameRows(w.entries[id].events, tempId, realId))
  }

  function MarkOptimisticFailed(w: World, id: string, tempId: string): World {
    if id !in w.entries then w else SetEvents(w, id, FailRows(w.entries[id].events, tempId))
  }

  // ---------------------------------------------------------------- the lifecycle invariant

  predicate NoDuplicates(ls: seq<Listener>) {
    forall i, j :: 0 <= i < j < |ls| ==> ls[i] != ls[j]
  }

  /** One of source and reconnect timer; one count per listener; idle timer exactly when nobody subscribes. */
  predicate EntryOk(e: Entry) {
    && (e.source.Some? <==> e.reconnectTimer.None?)
    && e.refCount == |e.listeners| && NoDuplicates(e.listeners)
    && (e.idleTimer.Some? <==> e.refCount == 0)
  }

  /** What an entry holds is open or scheduled, under its id. */
  predicate Holds(w: World, id: string)
    requires id in w.entries
  {
    var e := w.entries[id];
    && (e.source.Some? ==> e.source.value in w.open && w.open[e.source.value] == id)
    && (e.reconnectTimer.Some? ==> e.reconnectTimer.value in w.timers
                                   && w.timers[e.reconnectTimer.value].Reconnect?
                                   && w.timers[e.reconnectTimer.value].id == id)
    && (e.idleTimer.Some? ==> e.idleTimer.value in w.timers
                              && w.timers[e.idleTimer.value].Idle?
                              && w.timers[e.idleTimer.value].id == id)
  }

  /** Every open source of the id is the one its entry holds; likewise every scheduled timer. */
  ghost predicate NothingLeftBehind(w: World, id: string) {
    && (forall h :: h in w.open && w.open[h] == id ==> id in w.entries && w.entries[id].source == Some(h))
    && (forall h :: h in w.timers && w.timers[h].id == id ==>
                      && id in w.entries
                      && (if w.timers[h].Reconnect? then w.entries[id].reconnectTimer == Some(h)
                          else w.entries[id].idleTimer == Some(h)))
  }

  ghost predicate InvAt(w: World, id: string) {
    (id in w.entries ==> EntryOk(w.entries[id]) && Holds(w, id)) && NothingLeftBehind(w, id)
  }

  /** Handles are given out once. */
  ghost predicate Bounded(w: World) {
    (forall h :: h in w.open ==> h < w.next) && (forall h :: h in w.timers ==> h < w.next)
  }

  ghost predicate Inv(w: World) {
    Bounded(w) && forall id :: InvAt(w, id)
  }

  /** `v` differs from `w` in what concerns `id` at most. */
  ghost predicate OnlyAt(w: World, v: World, id: string) {
    && (forall x :: x != id ==> (x in w.entries <==> x in v.entries))
    && (forall x :: x != id && x in w.entries ==> v.entries[x] == w.entries[x])
    && (forall h :: h in w.open && w.open[h] != id ==> h in v.open && v.open[h] == w.open[h])
    && (forall h :: h in v.open && v.open[h] != id ==> h in w.open && v.open[h] == w.open[h])
    && (forall h :: h in w.timers && w.timers[h].id != id ==> h in v.timers && v.timers[h] == w.timers[h])
    && (forall h :: h in v.timers && v.timers[h].id != id ==> h in w.timers && v.timers[h] == w.timers[h])
  }

  lemma Locality(w: World, v: World, id: string)
    requires Inv(w) && OnlyAt(w, v, id) && Bounded(v)
    ensures Inv(v) <==> InvAt(v, id)
  {
    forall x | x != id ensures InvAt(v, x) {
      assert InvAt(w, x);
    }
  }

  lemma EmptyKeepsInv()
    ensures Inv(EMPTY)
  {
  }

  lemma {:induction false} RemoveListenerIs(ls: seq<Listener>, l: Listener)
    requires NoDuplicates(ls)
    ensures var r := RemoveListener(ls, l);
            && |r| == |ls| - (if l in ls then 1 else 0)
            && (forall x :: x in r <==> x in ls && x != l)
            && NoDuplicates(r)
  {
    if ls != [] {
      assert ls == [ls[0]] + ls[1..];
      if ls[0] != l {
        RemoveListenerIs(ls[1..], l);
        var rest := RemoveListener(ls[1..], l);
        forall j | 0 <= j < |rest| ensures rest[j] != ls[0] {
          assert rest[j] in ls[1..];
        }
      }
    }
  }

  // Each operation keeps the invariant; those that rely on their caller keep it exactly when the
  // caller does its part.

  lemma FirstSubscribeKeepsInv(w: World, workspaceId: string, id: string, initial: seq<BackfillRow>, l: Listener)
    requires Inv(w) && id !in w.entries
    ensures Inv(Subscribe(w, workspaceId, id, initial, l))
  {
    var v := Subscribe(w, workspaceId, id, initial, l);
    assert InvAt(w, id);
    assert OnlyAt(w, v, id);
    Locality(w, v, id);
    assert EntryOk(v.entries[id]) && Holds(v, id) && NothingLeftBehind(v, id);
  }

  lemma AttachKeepsInv(w: World, id: string, l: Listener)
    requires Inv(w) && id in w.entries
    ensures Inv(Attach(w, id, l)) <==> l !in w.entries[id].listeners
  {
    var v := Attach(w, id, l);
    assert InvAt(w, id);
    assert OnlyAt(w, v, id);
    Locality(w, v, id);
    if l in w.entries[id].listeners {
      assert !EntryOk(v.entries[id]);
    } else {
      assert EntryOk(v.entries[id]) && Holds(v, id) && NothingLeftBehind(v, id);
    }
  }

  lemma SubscribeKeepsInv(w: World, workspaceId: string, id: string, initial: seq<BackfillRow>, l: Listener)
    requires Inv(w)
    ensures Inv(Subscribe(w, workspaceId, id, initial, l)) <==> !(id in w.entries && l in w.entries[id].listeners)
  {
    if id in w.entries {
      AttachKeepsInv(w, id, l);
    } else {
      FirstSubscribeKeepsInv(w, workspaceId, id, initial, l);
    }
  }

  lemma ReleaseKeepsInv(w: World, id: string, l: Listener)
    requires Inv(w)
    ensures Inv(Release(w, id, l)) <==> (id in w.entries ==> l in w.entries[id].listeners)
  {
    if id in w.entries {
      assert InvAt(w, id);
      RemoveListenerIs(w.entries[id].listeners, l);
      if l in w.entries[id].listeners {
        if w.entries[id].refCount == 1 {
          LastReleaseKeepsInv(w, id, l);
        } else {
          EarlierReleaseKeepsInv(w, id, l);
        }
      } else {
        assert !InvAt(Release(w, id, l), id);
      }
    }
  }

  lemma EarlierReleaseKeepsInv(w: World, id: string, l: Listener)
    requires Inv(w) && id in w.entries && l in w.entries[id].listeners && w.entries[id].refCount > 1
    ensures Inv(Release(w, id, l))
  {
    var v := Release(w, id, l);
    assert InvAt(w, id);
    assert OnlyAt(w, v, id);
    Locality(w, v, id);
    RemoveListenerIs(w.entries[id].listeners, l);
    assert EntryOk(v.entries[id]) && Holds(v, id) && NothingLeftBehind(v, id);
  }

  lemma LastReleaseKeepsInv(w: World, id: string, l: Listener)
    requires Inv(w) && id in w.entries && l in w.entries[id].listeners && w.entries[id].refCount == 1
    ensures Inv(Release(w, id, l))
  {
    var v := Release(w, id, l);
    assert InvAt(w, id);
    assert OnlyAt(w, v, id);
    Locality(w, v, id);
    RemoveListenerIs(w.entries[id].listeners, l);
    assert EntryOk(v.entries[id]) && Holds(v, id) && NothingLeftBehind(v, id);
  }

  lemma ErroredKeepsInv(w: World, id: string)
    requires Inv(w) && id in w.entries
    ensures Inv(Errored(w, id)) <==> w.entries[id].source.Some?
  {
    var v := Errored(w, id);
    assert InvAt(w, id);
    assert OnlyAt(w, v, id);
    Locality(w, v, id);
    if w.entries[id].source.None? {
      var h := w.entries[id].reconnectTimer.value;
      assert h in v.timers && v.timers[h].id == id;
      assert !NothingLeftBehind(v, id);
    }
  }

  lemma NotifyKeepsInv(w: World, id: string, e: Entry)
    requires Inv(w) && id in w.entries
    requires e == w.entries[id].(snapshot := e.snapshot, events := e.events, status := e.status,
                                 reconnectAttempts := e.reconnectAttempts, tempCounter := e.tempCounter)
    ensures Inv(Notify(w, id, e))
  {
    var v := Notify(w, id, e);
    assert InvAt(w, id);
    assert OnlyAt(w, v, id);
    Locality(w, v, id);
  }

  lemma FireKeepsInv(w: World, h: Handle)
    requires Inv(w) && h in w.timers && w.timers[h].id in w.entries
    ensures Inv(Fire(w, h))
  {
    if w.timers[h].Reconnect? {
      ReconnectKeepsInv(w, h);
    } else {
      TeardownKeepsInv(w, h);
    }
  }

  lemma ReconnectKeepsInv(w: World, h: Handle)
    requires Inv(w) && h in w.timers && w.timers[h].Reconnect? && w.timers[h].id in w.entries
    ensures Inv(Fire(w, h))
  {
    var id := w.timers[h].id;
    var v := Fire(w, h);
    assert InvAt(w, id);
    assert OnlyAt(w, v, id);
    Locality(w, v, id);
  }

  lemma TeardownIsLocal(w: World, h: Handle)
    requires Inv(w) && h in w.timers && w.timers[h].Idle? && w.timers[h].id in w.entries
    ensures OnlyAt(w, Fire(w, h), w.timers[h].id) && Bounded(Fire(w, h))
  {
    assert InvAt(w, w.timers[h].id);
  }

  lemma TeardownKeepsInv(w: World, h: Handle)
    requires Inv(w) && h in w.timers && w.timers[h].Idle? && w.timers[h].id in w.entries
    ensures Inv(Fire(w, h))
  {
    var id := w.timers[h].id;
    assert InvAt(w, id);
    TeardownIsLocal(w, h);
    Locality(w, Fire(w, h), id);
  }

  // ---------------------------------------------------------------- runs

  /** What can happen. A payload that is no JSON object with a string kind is a frame of None. */
  datatype Event =
    | Subscribed(workspaceId: string, id: string, initial: seq<BackfillRow>, l: Listener)
    | Released(id: string, l: Listener)
    | SourceOpened(h: Handle)
    | SourceErrored(h: Handle)
    | MessageArrived(h: Handle, frame: Option<Frame>)
    | TimerFired(h: Handle)
    | Appended(id: string, text: string, actor: string, now: int)
    | Reconciled(id: string, tempId: string, realId: string)
    | MarkedFailed(id: string, tempId: string)

  /** The registry and the subscriptions whose release closure has not been called. */
  datatype Page = Page(w: World, outstanding: set<(string, Listener)>)

  const INITIAL := Page(EMPTY, {})

  /**
   The browser delivers events of open sources and fires scheduled timers only; a subscriber brings a
   listener it is not already subscribed with and calls its release closure once.
   */
  predicate Possible(s: Page, ev: Event) {
    match ev
    case Subscribed(_, id, _, l) => (id, l) !in s.outstanding
    case Released(id, l) => (id, l) in s.outstanding
    case SourceOpened(h) => h in s.w.open && s.w.open[h] in s.w.entries
    case SourceErrored(h) => h in s.w.open && s.w.open[h] in s.w.entries
    case MessageArrived(h, _) => h in s.w.open && s.w.open[h] in s.w.entries
    case TimerFired(h) => h in s.w.timers && s.w.timers[h].id in s.w.entries
    case _ => true
  }

  function Step(s: Page, ev: Event): Page
    requires Possible(s, ev)
  {
    match ev
    case Subscribed(ws, id, initial, l) => Page(Subscribe(s.w, ws, id, initial, l), s.outstanding + {(id, l)})
    case Released(id, l) => Page(Release(s.w, id, l), s.outstanding - {(id, l)})
    case SourceOpened(h) => s.(w := Opened(s.w, s.w.open[h]))
    case SourceErrored(h) => s.(w := Errored(s.w, s.w.open[h]))
    case MessageArrived(h, frame) => if frame.None? then s else s.(w := OnFrame(s.w, s.w.open[h], frame.value))
    case TimerFired(h) => s.(w := Fire(s.w, h))
    case Appended(id, text, actor, now) => s.(w := AppendOptimistic(s.w, id, text, actor, now).0)
    case Reconciled(id, tempId, realId) => s.(w := ReconcileOptimistic(s.w, id, tempId, realId))
    case MarkedFailed(id, tempId) => s.(w := MarkOptimisticFailed(s.w, id, tempId))
  }

  ghost predicate IsRun(states: seq<Page>, events: seq<Event>) {
    && |states| == |events| + 1 && states[0] == INITIAL
    && forall i :: 0 <= i < |events| ==> Possible(states[i], events[i]) && states[i + 1] == Step(states[i], events[i])
  }

  /** The outstanding subscriptions are the listeners of the entries. */
  ghost predicate Counted(s: Page) {
    forall id: string, l: Listener ::
      (id, l) in s.outstanding <==> id in s.w.entries && l in s.w.entries[id].listeners
  }

  ghost predicate PageInv(s: Page) {
    Inv(s.w) && Counted(s)
  }

  lemma SubscribedKeepsCount(s: Page, ev: Event)
    requires PageInv(s) && ev.Subscribed? && Possible(s, ev)
    ensures Counted(Step(s, ev))
  {
  }

  lemma ReleasedKeepsCount(s: Page, ev: Event)
    requires PageInv(s) && ev.Released? && Possible(s, ev)
    ensures Counted(Step(s, ev))
  {
    assert InvAt(s.w, ev.id);
    RemoveListenerIs(s.w.entries[ev.id].listeners, ev.l);
  }

  /** An entry is torn down only when nobody is subscribed. */
  lemma FiredKeepsCount(s: Page, ev: Event)
    requires PageInv(s) && ev.TimerFired? && Possible(s, ev)
    ensures Counted(Step(s, ev))
  {
    var id := s.w.timers[ev.h].id;
    assert InvAt(s.w, id);
  }

  lemma StepKeepsInv(s: Page, ev: Event)
    requires PageInv(s) && Possible(s, ev)
    ensures PageInv(Step(s, ev))
  {
    var w := s.w;
    match ev {
      case Subscribed(ws, id, initial, l) =>
        SubscribeKeepsInv(w, ws, id, initial, l);
        SubscribedKeepsCount(s, ev);
      case Released(id, l) =>
        ReleaseKeepsInv(w, id, l);
        ReleasedKeepsCount(s, ev);
      case SourceOpened(h) =>
        NotifyKeepsInv(w, w.open[h], Reopened(w.entries[w.open[h]]));
      case SourceErrored(h) =>
        assert InvAt(w, w.open[h]);
        ErroredKeepsInv(w, w.open[h]);
      case MessageArrived(h, frame) =>
        if frame.Some? {
          var e := w.entries[w.open[h]];
          NotifyKeepsInv(w, w.open[h], e.(events := ApplyLiveFrame(e.events, frame.value)));
        }
      case TimerFired(h) =>
        FireKeepsInv(w, h);
        FiredKeepsCount(s, ev);
      case Appended(id, text, actor, now) =>
        if id in w.entries {
          NotifyKeepsInv(w, id, WithOptimistic(w.entries[id], text, actor, now));
        }
      case Reconciled(id, tempId, realId) =>
        if id in w.entries {
          var e := w.entries[id];
          NotifyKeepsInv(w, id, e.(events := RenameRows(e.events, tempId, realId)));
        }
      case MarkedFailed(id, tempId) =>
        if id in w.entries {
          var e := w.entries[id];
          NotifyKeepsInv(w, id, e.(events := FailRows(e.events, tempId)));
        }
    }
  }

  /** The invariant holds in every state of every run. */
  lemma {:induction false} RunsKeepInv(states: seq<Page>, events: seq<Event>, k: nat)
    requires IsRun(states, events) && k < |states|
    ensures PageInv(states[k])
  {
    if k > 0 {
      RunsKeepInv(states, events, k - 1);
      var i := k - 1;
      assert Possible(states[i], events[i]) && states[i + 1] == Step(states[i], events[i]);
      StepKeepsInv(states[k - 1], events[k - 1]);
    }
  }

  /**
   In every state of every run an open source, and a scheduled timer, belongs to the entry its id now
   names: a handler never runs for an entry that has been torn down or replaced.
   */
  lemma HandlersFindTheirEntry(states: seq<Page>, events: seq<Event>, k: nat, h: Handle)
    requires IsRun(states, events) && k < |states|
    ensures var w := states[k].w;
            && (h in w.open ==> Possible(states[k], SourceErrored(h)) && w.entries[w.open[h]].source == Some(h))
            && (h in w.timers ==>
                  && Possible(states[k], TimerFired(h))
                  && var e := w.entries[w.timers[h].id];
                     Some(h) == if w.timers[h].Reconnect? then e.reconnectTimer else e.idleTimer)
  {
    RunsKeepInv(states, events, k);
    var w := states[k].w;
    if h in w.open {
      assert InvAt(w, w.open[h]);
    }
    if h in w.timers {
      assert InvAt(w, w.timers[h].id);
    }
  }

  function SubscribersOf(s: Page, id: string): set<Listener> {
    set p | p in s.outstanding && p.0 == id :: p.1
  }

  lemma {:induction false} SizeOfDistinct(ls: seq<Listener>, members: set<Listener>)
    requires NoDuplicates(ls) && forall l :: l in ls <==> l in members
    ensures |members| == |ls|
  {
    if ls == [] {
      assert members == {};
    } else {
      assert ls == [ls[0]] + ls[1..];
      SizeOfDistinct(ls[1..], members - {ls[0]});
    }
  }

  lemma ListenersAreSubscribers(s: Page, id: string)
    requires Counted(s) && id in s.w.entries
    ensures forall l :: l in s.w.entries[id].listeners <==> l in SubscribersOf(s, id)
  {
    forall l ensures l in s.w.entries[id].listeners <==> l in SubscribersOf(s, id) {
      assert (id, l) in s.outstanding <==> l in s.w.entries[id].listeners;
    }
  }

  /**
   In every state of every run a zombie with an outstanding subscription has its entry, counting
   exactly its subscriptions; its source is open or its reconnect is scheduled, not both; and no timer
   that would tear it down is scheduled.
   */
  lemma SubscribersAreServed(states: seq<Page>, events: seq<Event>, k: nat, id: string)
    requires IsRun(states, events) && k < |states|
    requires SubscribersOf(states[k], id) != {}
    ensures var w := states[k].w;
            && id in w.entries
            && w.entries[id].refCount == |SubscribersOf(states[k], id)|
            && ((exists h :: h in w.open && w.open[h] == id)
                <==> !exists h :: h in w.timers && w.timers[h].Reconnect? && w.timers[h].id == id)
            && (forall h :: h in w.timers && w.timers[h].id == id ==> w.timers[h].Reconnect?)
  {
    RunsKeepInv(states, events, k);
    var w := states[k].w;
    var p :| p in states[k].outstanding && p.0 == id;
    assert (id, p.1) in states[k].outstanding;
    assert InvAt(w, id);
    ListenersAreSubscribers(states[k], id);
    SizeOfDistinct(w.entries[id].listeners, SubscribersOf(states[k], id));
  }

  /** An entry nobody subscribes to is scheduled for teardown, and when that fires nothing of it remains. */
  lemma UnsubscribedEntriesEnd(states: seq<Page>, events: seq<Event>, k: nat, id: string)
    requires IsRun(states, events) && k < |states|
    requires SubscribersOf(states[k], id) == {} && id in states[k].w.entries
    ensures exists h :: h in states[k].w.timers && states[k].w.timers[h].Idle? && states[k].w.timers[h].id == id
    ensures forall h :: h in states[k].w.timers && states[k].w.timers[h].Idle? && states[k].w.timers[h].id == id ==>
              var w := Fire(states[k].w, h);
              && id !in w.entries
              && (forall g :: g in w.open ==> w.open[g] != id)
              && (forall g :: g in w.timers ==> w.timers[g].id != id)
  {
    RunsKeepInv(states, events, k);
    var w := states[k].w;
    assert InvAt(w, id);
    ListenersAreSubscribers(states[k], id);
    SizeOfDistinct(w.entries[id].listeners, {});
    forall h | h in w.timers && w.timers[h].Idle? && w.timers[h].id == id
      ensures id !in Fire(w, h).entries && InvAt(Fire(w, h), id)
    {
      FireKeepsInv(w, h);
    }
  }

  /** A release closure called a second time breaks the count for good. */
  lemma SecondReleaseBreaksTheCount(w: World, id: string, l: Listener)
    requires Inv(w) && id in w.entries && l in w.entries[id].listeners
    ensures Inv(Release(w, id, l)) && !Inv(Release(Release(w, id, l), id, l))
  {
    assert InvAt(w, id);
    RemoveListenerIs(w.entries[id].listeners, l);
    ReleaseKeepsInv(w, id, l);
    ReleaseKeepsInv(Release(w, id, l), id, l);
  }

  // ---------------------------------------------------------------- notifications

  /** A new snapshot has been announced to each listener once, in order; without one rows and status are as before. */
  ghost predicate Announced(w: World, v: World, id: string)
    requires id in w.entries && id in v.entries
  {
    var e, f := w.entries[id], v.entries[id];
    && (e.events != f.events || e.status != f.status ==> e.snapshot != f.snapshot)
    && (e.snapshot != f.snapshot ==> v.calls == w.calls + e.listeners)
  }

  lemma LifecycleAnnounces(s: Page, ev: Event, id: string)
    requires Possible(s, ev) && TouchesNoRows(ev)
    requires id in s.w.entries && id in Step(s, ev).w.entries
    ensures Announced(s.w, Step(s, ev).w, id)
  {
  }

  lemma RowsAnnounce(s: Page, ev: Event, id: string)
    requires Possible(s, ev) && !TouchesNoRows(ev)
    requires id in s.w.entries && id in Step(s, ev).w.entries
    ensures Announced(s.w, Step(s, ev).w, id)
  {
  }

  /**
   Every step that puts a new snapshot in place calls each listener of that entry once, in order, and
   calls nobody else; a step that changes rows or status puts a new snapshot in place.
   */
  lemma NewSnapshotsAreAnnounced(s: Page, ev: Event, id: string)
    requires PageInv(s) && Possible(s, ev)
    requires id in s.w.entries && id in Step(s, ev).w.entries
    ensures Announced(s.w, Step(s, ev).w, id) && NoDuplicates(s.w.entries[id].listeners)
  {
    assert InvAt(s.w, id);
    if TouchesNoRows(ev) {
      LifecycleAnnounces(s, ev, id);
    } else {
      RowsAnnounce(s, ev, id);
    }
  }

  lemma NoSnapshotNoCall(s: Page, ev: Event)
    requires PageInv(s) && Possible(s, ev)
    requires forall id :: id in s.w.entries && id in Step(s, ev).w.entries ==>
               Step(s, ev).w.entries[id].snapshot == s.w.entries[id].snapshot
    ensures Step(s, ev).w.calls == s.w.calls
  {
  }

  // ---------------------------------------------------------------- timelines

  const TEMP_PREFIX := "optim-"

  predicate LooksTemporary(id: string) {
    TEMP_PREFIX <= id
  }

  lemma TempIdIsInjective(m: nat, n: nat)
    requires TempId(m) == TempId(n)
    ensures m == n
  {
    assert TempId(m)[6..] == Decimal.Numeral(m) && TempId(n)[6..] == Decimal.Numeral(n);
    Decimal.NumeralIsInjective(m, n);
  }

  /** Ids are pairwise distinct, and one that looks temporary was handed out by this entry. */
  ghost predicate TimelineOk(e: Entry) {
    && DistinctIds(e.events)
    && forall i :: 0 <= i < |e.events| && LooksTemporary(e.events[i].id) ==>
         exists n: nat :: 1 <= n <= e.tempCounter && e.events[i].id == TempId(n)
  }

  lemma AppendKeepsDistinct(rows: seq<Row>, r: Row)
    requires DistinctIds(rows)
    ensures DistinctIds(rows + [r]) <==> !HasId(rows, r.id)
  {
    if HasId(rows, r.id) {
      var i :| 0 <= i < |rows| && rows[i].id == r.id;
      assert (rows + [r])[i].id == (rows + [r])[|rows|].id;
    }
  }

  /** Renaming an optimistic row keeps ids distinct unless the real id is already on another row. */
  lemma ReconcileKeepsDistinct(rows: seq<Row>, tempId: string, realId: string)
    requires DistinctIds(rows)
    ensures DistinctIds(RenameRows(rows, tempId, realId))
            <==> !(tempId != realId && HasId(rows, tempId) && HasId(rows, realId))
  {
    var after := RenameRows(rows, tempId, realId);
    if tempId != realId && HasId(rows, tempId) && HasId(rows, realId) {
      var i :| 0 <= i < |rows| && rows[i].id == tempId;
      var j :| 0 <= j < |rows| && rows[j].id == realId;
      assert after[i].id == after[j].id == realId;
    } else if HasId(rows, tempId) {
      forall i, j | 0 <= i < j < |after| ensures after[i].id != after[j].id {
        assert tempId == realId || (rows[i].id != realId && rows[j].id != realId);
      }
    } else {
      assert forall i :: 0 <= i < |rows| ==> rows[i].id != tempId;
    }
  }

  /** The frame that announces an event before the optimistic row is reconciled leaves two rows of one id. */
  lemma EarlyEventDuplicates(rows: seq<Row>, tempId: string, realId: string, actor: string, now: int)
    requires DistinctIds(rows) && HasId(rows, tempId) && tempId != realId
    ensures !DistinctIds(RenameRows(ApplyLiveFrame(rows, EventReceived(realId, actor, now)), tempId, realId))
  {
    var f := EventReceived(realId, actor, now);
    var seen := ApplyLiveFrame(rows, f);
    FrameGrows(rows, f);
    var i :| 0 <= i < |rows| && rows[i].id == tempId;
    assert seen[i].id == tempId;
    assert HasId(seen, realId) by {
      if !HasId(rows, realId) {
        assert seen[|rows|].id == realId;
      }
    }
    ReconcileKeepsDistinct(seen, tempId, realId);
  }

  predicate DistinctBackfill(rows: seq<BackfillRow>) {
    forall i, j :: 0 <= i < j < |rows| ==> rows[i].id != rows[j].id
  }

  /** The ids of every timeline are pairwise distinct. */
  ghost predicate AllDistinct(w: World) {
    forall id :: id in w.entries ==> DistinctIds(w.entries[id].events)
  }

  /**
   What a step must meet to keep them so: an entry is created from rows of distinct ids, an optimistic row's id
   is on no row, and a reconciled row's real id is on no other row.
   */
  predicate MeetsIds(s: Page, ev: Event) {
    match ev
    case Subscribed(_, id, initial, _) => id in s.w.entries || DistinctBackfill(initial)
    case Appended(id, _, _, _) =>
      id in s.w.entries ==> !HasId(s.w.entries[id].events, TempId(s.w.entries[id].tempCounter + 1))
    case Reconciled(id, tempId, realId) =>
      id in s.w.entries && tempId != realId && HasId(s.w.entries[id].events, tempId) ==>
        !HasId(s.w.entries[id].events, realId)
    case _ => true
  }

  lemma CreatedIsDistinctExactlyWhen(workspaceId: string, initial: seq<BackfillRow>)
    ensures DistinctIds(CreateEntry(workspaceId, initial).events) <==> DistinctBackfill(initial)
  {
    FreshOfNone(initial);
    MergeIsSortedAndIdempotent([], initial);
    var seeded, merged := Fresh([], initial), MergeBackfill([], initial);
    assert seeded + [] == seeded;
    if DistinctIds(merged) {
      DistinctOfPermutation(merged, seeded);
      forall i, j | 0 <= i < j < |initial| ensures initial[i].id != initial[j].id {
        assert seeded[i].id != seeded[j].id;
      }
    }
    if DistinctBackfill(initial) {
      DistinctOfPermutation(seeded, merged);
    }
  }

  /** `v` has the rows of `w` but for those of `id`, if it is an entry. */
  ghost predicate OnlyRowsOf(w: World, v: World, id: string) {
    && w.entries.Keys == v.entries.Keys
    && forall x :: x in w.entries && x != id ==> v.entries[x].events == w.entries[x].events
  }

  lemma DistinctElsewhere(w: World, v: World, id: string)
    requires AllDistinct(w) && OnlyRowsOf(w, v, id)
    ensures AllDistinct(v) <==> (id in v.entries ==> DistinctIds(v.entries[id].events))
  {
  }

  lemma LifecycleKeepsDistinct(s: Page, ev: Event)
    requires AllDistinct(s.w) && Possible(s, ev) && TouchesNoRows(ev)
    ensures AllDistinct(Step(s, ev).w) <==> MeetsIds(s, ev)
  {
    var v := Step(s, ev).w;
    if ev.Subscribed? && ev.id !in s.w.entries {
      CreatedIsDistinctExactlyWhen(ev.workspaceId, ev.initial);
      assert v.entries[ev.id].events == CreateEntry(ev.workspaceId, ev.initial).events;
    }
    forall id | id in v.entries && id in s.w.entries ensures DistinctIds(v.entries[id].events) {
      LifecycleKeepsRows(s, ev, id);
    }
    assert forall id :: id in v.entries && id !in s.w.entries ==> ev.Subscribed? && id == ev.id;
  }

  lemma FramesKeepDistinct(s: Page, ev: Event)
    requires AllDistinct(s.w) && Possible(s, ev) && ev.MessageArrived?
    ensures AllDistinct(Step(s, ev).w)
  {
    if ev.frame.Some? {
      var id := s.w.open[ev.h];
      FrameGrows(s.w.entries[id].events, ev.frame.value);
      DistinctElsewhere(s.w, Step(s, ev).w, id);
    }
  }

  lemma AppendedKeepsDistinct(s: Page, ev: Event)
    requires AllDistinct(s.w) && Possible(s, ev) && ev.Appended?
    ensures AllDistinct(Step(s, ev).w) <==> MeetsIds(s, ev)
  {
    if ev.id in s.w.entries {
      var e := s.w.entries[ev.id];
      AppendKeepsDistinct(e.events, OptimisticRow(e.tempCounter + 1, ev.text, ev.actor, ev.now));
      DistinctElsewhere(s.w, Step(s, ev).w, ev.id);
    }
  }

  lemma ReconciledKeepsDistinct(s: Page, ev: Event)
    requires AllDistinct(s.w) && Possible(s, ev) && ev.Reconciled?
    ensures AllDistinct(Step(s, ev).w) <==> MeetsIds(s, ev)
  {
    if ev.id in s.w.entries {
      ReconcileKeepsDistinct(s.w.entries[ev.id].events, ev.tempId, ev.realId);
      DistinctElsewhere(s.w, Step(s, ev).w, ev.id);
    }
  }

  lemma MarkedFailedKeepsDistinct(s: Page, ev: Event)
    requires AllDistinct(s.w) && Possible(s, ev) && ev.MarkedFailed?
    ensures AllDistinct(Step(s, ev).w)
  {
    if ev.id in s.w.entries {
      var rows := s.w.entries[ev.id].events;
      assert forall i :: 0 <= i < |rows| ==> FailRows(rows, ev.tempId)[i].id == rows[i].id;
      DistinctElsewhere(s.w, Step(s, ev).w, ev.id);
    }
  }

  /** Every event of every kind: distinct ids stay so exactly if the step meets its condition. */
  lemma StepKeepsDistinctExactlyWhen(s: Page, ev: Event)
    requires AllDistinct(s.w) && Possible(s, ev)
    ensures AllDistinct(Step(s, ev).w) <==> MeetsIds(s, ev)
  {
    if TouchesNoRows(ev) {
      LifecycleKeepsDistinct(s, ev);
    } else if ev.MessageArrived? {
      FramesKeepDistinct(s, ev);
    } else if ev.Appended? {
      AppendedKeepsDistinct(s, ev);
    } else if ev.Reconciled? {
      ReconciledKeepsDistinct(s, ev);
    } else {
      MarkedFailedKeepsDistinct(s, ev);
    }
  }

  ghost predicate DistinctUpTo(states: seq<Page>, n: nat)
    requires n < |states|
  {
    forall k :: 0 <= k <= n ==> AllDistinct(states[k].w)
  }

  ghost predicate AllMeetIds(states: seq<Page>, events: seq<Event>, n: nat)
    requires n <= |events| && |states| == |events| + 1
  {
    forall k :: 0 <= k < n ==> MeetsIds(states[k], events[k])
  }

  /** For every run: all timelines have had distinct ids so far exactly if every step so far met its condition. */
  lemma {:induction false} RunsStayDistinctExactlyWhen(states: seq<Page>, events: seq<Event>, n: nat)
    requires IsRun(states, events) && n < |states|
    ensures DistinctUpTo(states, n) <==> AllMeetIds(states, events, n)
  {
    if n > 0 {
      var k := n - 1;
      RunsStayDistinctExactlyWhen(states, events, k);
      assert Possible(states[k], events[k]) && states[k + 1] == Step(states[k], events[k]);
      if DistinctUpTo(states, k) {
        StepKeepsDistinctExactlyWhen(states[k], events[k]);
        assert DistinctUpTo(states, n) <==> AllDistinct(states[n].w);
        assert AllMeetIds(states, events, n) <==> MeetsIds(states[k], events[k]);
      } else {
        assert !DistinctUpTo(states, n);
        assert !AllMeetIds(states, events, n);
      }
    }
  }

  /** Rendered rows that share an id do so on the timeline of the first subscriber. */
  lemma SharedBackfillDuplicates(ws: string, id: string, row: BackfillRow, l: Listener)
    ensures var ev := Subscribed(ws, id, [row, row], l);
            Possible(INITIAL, ev) && !AllDistinct(Step(INITIAL, ev).w)
  {
    var ev := Subscribed(ws, id, [row, row], l);
    assert [row, row][0].id == [row, row][1].id;
    assert !DistinctBackfill([row, row]);
    StepKeepsDistinctExactlyWhen(INITIAL, ev);
  }

  /** A frame of the next temporary id makes the next optimistic row share it. */
  lemma ServerTempIdDuplicates(s: Page, h: Handle, frameActor: string, text: string, actor: string, now: int)
    requires AllDistinct(s.w) && h in s.w.open && s.w.open[h] in s.w.entries
    ensures var id := s.w.open[h];
            var tempId := TempId(s.w.entries[id].tempCounter + 1);
            var arrived := MessageArrived(h, Some(EventReceived(tempId, frameActor, now)));
            var appended := Appended(id, text, actor, now);
            && Possible(s, arrived) && Possible(Step(s, arrived), appended)
            && AllDistinct(Step(s, arrived).w) && !AllDistinct(Step(Step(s, arrived), appended).w)
  {
    var id := s.w.open[h];
    var rows, tempId := s.w.entries[id].events, TempId(s.w.entries[id].tempCounter + 1);
    var f := EventReceived(tempId, frameActor, now);
    var arrived := MessageArrived(h, Some(f));
    FrameGrows(rows, f);
    assert HasId(ApplyLiveFrame(rows, f), tempId) by {
      if !HasId(rows, tempId) {
        assert ApplyLiveFrame(rows, f)[|rows|].id == tempId;
      }
    }
    StepKeepsDistinctExactlyWhen(s, arrived);
    StepKeepsDistinctExactlyWhen(Step(s, arrived), Appended(id, text, actor, now));
  }

  /** The server never uses temporary ids, renders each event once, and names an event not yet on the timeline. */
  predicate Polite(s: Page, ev: Event) {
    match ev
    case Subscribed(_, _, initial, _) =>
      DistinctBackfill(initial) && forall i :: 0 <= i < |initial| ==> !LooksTemporary(initial[i].id)
    case MessageArrived(_, frame) => frame.Some? ==> !LooksTemporary(frame.value.id)
    case Reconciled(id, tempId, realId) =>
      && !LooksTemporary(realId)
      && (id in s.w.entries && HasId(s.w.entries[id].events, tempId) ==> !HasId(s.w.entries[id].events, realId))
    case _ => true
  }

  lemma {:induction false} FreshOfNone(rows: seq<BackfillRow>)
    ensures |Fresh([], rows)| == |rows| && forall i :: 0 <= i < |rows| ==> Fresh([], rows)[i].id == rows[i].id
  {
    if rows != [] {
      FreshOfNone(rows[1..]);
    }
  }

  lemma {:induction false} DistinctOfPermutation(a: seq<Row>, b: seq<Row>)
    requires multiset(a) == multiset(b) && DistinctIds(a)
    ensures DistinctIds(b)
  {
    forall i, j | 0 <= i < j < |b| ensures b[i].id != b[j].id {
      if b[i].id == b[j].id {
        assert b[i] in multiset(a) && b[j] in multiset(a);
        var m :| 0 <= m < |a| && a[m] == b[i];
        var n :| 0 <= n < |a| && a[n] == b[j];
        assert m == n && b[i] == b[j];
        CountOfDistinct(a, b[i]);
        CountOfTwo(b, i, j);
        assert false;
      }
    }
  }

  lemma {:induction false} CountOfDistinct(a: seq<Row>, r: Row)
    requires DistinctIds(a)
    ensures multiset(a)[r] <= 1
  {
    if a != [] {
      assert a == [a[0]] + a[1..];
      CountOfDistinct(a[1..], r);
      if r == a[0] {
        assert r !in a[1..];
        assert multiset(a[1..])[r] == 0;
      }
    }
  }

  lemma CreatedTimelineOk(workspaceId: string, initial: seq<BackfillRow>)
    requires DistinctBackfill(initial) && forall i :: 0 <= i < |initial| ==> !LooksTemporary(initial[i].id)
    ensures TimelineOk(CreateEntry(workspaceId, initial))
  {
    FreshOfNone(initial);
    MergeIsSortedAndIdempotent([], initial);
    var seeded := Fresh([], initial);
    var merged := MergeBackfill([], initial);
    assert seeded + [] == seeded;
    DistinctOfPermutation(seeded, merged);
    forall i | 0 <= i < |merged| ensures !LooksTemporary(merged[i].id) {
      assert merged[i] in multiset(seeded);
    }
  }

  /** An optimistic row's id is new to its entry: temporary ids are never handed out twice. */
  lemma TempIdIsNew(e: Entry)
    requires TimelineOk(e)
    ensures !HasId(e.events, TempId(e.tempCounter + 1))
  {
    if HasId(e.events, TempId(e.tempCounter + 1)) {
      var i :| 0 <= i < |e.events| && e.events[i].id == TempId(e.tempCounter + 1);
      assert LooksTemporary(e.events[i].id);
      var n: nat :| 1 <= n <= e.tempCounter && e.events[i].id == TempId(n);
      TempIdIsInjective(n, e.tempCounter + 1);
    }
  }

  ghost predicate TimelinesOk(w: World) {
    forall id :: id in w.entries ==> TimelineOk(w.entries[id])
  }

  lemma FrameKeepsTimeline(e: Entry, f: Frame)
    requires TimelineOk(e) && !LooksTemporary(f.id)
    ensures TimelineOk(e.(events := ApplyLiveFrame(e.events, f)))
  {
    FrameGrows(e.events, f);
    var next := ApplyLiveFrame(e.events, f);
    forall i | 0 <= i < |next| && LooksTemporary(next[i].id)
      ensures exists n: nat :: 1 <= n <= e.tempCounter && next[i].id == TempId(n)
    {
      assert i < |e.events| && next[i].id == e.events[i].id;
    }
  }

  lemma AppendKeepsTimeline(e: Entry, text: string, actor: string, now: int)
    requires TimelineOk(e)
    ensures TimelineOk(WithOptimistic(e, text, actor, now))
  {
    TempIdIsNew(e);
    AppendKeepsDistinct(e.events, OptimisticRow(e.tempCounter + 1, text, actor, now));
  }

  lemma ReconcileKeepsTimeline(e: Entry, tempId: string, realId: string)
    requires TimelineOk(e) && !LooksTemporary(realId)
    requires HasId(e.events, tempId) ==> !HasId(e.events, realId)
    ensures TimelineOk(e.(events := RenameRows(e.events, tempId, realId)))
  {
    ReconcileKeepsDistinct(e.events, tempId, realId);
  }

  predicate TouchesNoRows(ev: Event) {
    ev.Subscribed? || ev.Released? || ev.SourceOpened? || ev.SourceErrored? || ev.TimerFired?
  }

  lemma LifecycleKeepsRows(s: Page, ev: Event, id: string)
    requires Possible(s, ev) && TouchesNoRows(ev)
    requires id in s.w.entries && id in Step(s, ev).w.entries
    ensures var e, f := s.w.entries[id], Step(s, ev).w.entries[id];
            f.events == e.events && f.tempCounter == e.tempCounter
  {
  }

  lemma LifecycleKeepsTimelines(s: Page, ev: Event)
    requires TimelinesOk(s.w) && Possible(s, ev) && Polite(s, ev) && TouchesNoRows(ev)
    ensures TimelinesOk(Step(s, ev).w)
  {
    var w := Step(s, ev).w;
    forall id | id in w.entries ensures TimelineOk(w.entries[id]) {
      if id in s.w.entries {
        LifecycleKeepsRows(s, ev, id);
        assert TimelineOk(s.w.entries[id]);
      } else {
        CreatedTimelineOk(ev.workspaceId, ev.initial);
      }
    }
  }

  lemma StepKeepsTimelines(s: Page, ev: Event)
    requires TimelinesOk(s.w) && Possible(s, ev) && Polite(s, ev)
    ensures TimelinesOk(Step(s, ev).w)
  {
    var w := s.w;
    match ev {
      case MessageArrived(h, frame) =>
        if frame.Some? {
          FrameKeepsTimeline(w.entries[w.open[h]], frame.value);
        }
      case Appended(id, text, actor, now) =>
        if id in w.entries {
          AppendKeepsTimeline(w.entries[id], text, actor, now);
        }
      case Reconciled(id, tempId, realId) =>
        if id in w.entries {
          ReconcileKeepsTimeline(w.entries[id], tempId, realId);
        }
      case MarkedFailed(id, tempId) =>
      case _ =>
        LifecycleKeepsTimelines(s, ev);
    }
  }

  /** In every state of every polite run the ids of every timeline are pairwise distinct. */
  lemma {:induction false} RunsKeepTimelines(states: seq<Page>, events: seq<Event>, k: nat)
    requires IsRun(states, events) && k < |states|
    requires forall i :: 0 <= i < |events| ==> Polite(states[i], events[i])
    ensures TimelinesOk(states[k].w)
  {
    if k > 0 {
      RunsKeepTimelines(states, events, k - 1);
      var i := k - 1;
      assert Possible(states[i], events[i]) && states[i + 1] == Step(states[i], events[i]);
      StepKeepsTimelines(states[i], events[i]);
    }
  }

  /** The id a row has after a step: a reconciliation may give an optimistic row its real one. */
  function IdAfter(ev: Event, id: string, rowId: string): string {
    if ev.Reconciled? && ev.id == id && ev.tempId == rowId then ev.realId else rowId
  }

  ghost predicate RowsKept(ev: Event, id: string, e: Entry, f: Entry) {
    && |e.events| <= |f.events|
    && forall i :: 0 <= i < |e.events| ==>
         f.events[i].id == IdAfter(ev, id, e.events[i].id) && Continues(e.events[i], f.events[i])
  }

  lemma RenameKeepsRows(ev: Event, id: string, e: Entry)
    requires ev.Reconciled? && ev.id == id
    ensures RowsKept(ev, id, e, e.(events := RenameRows(e.events, ev.tempId, ev.realId)))
  {
  }

  lemma OtherChangesKeepRows(ev: Event, id: string, e: Entry, next: seq<Row>, tempCounter: nat)
    requires !ev.Reconciled? && Grows(e.events, next)
    ensures RowsKept(ev, id, e, e.(events := next, tempCounter := tempCounter))
  {
  }

  lemma FailGrows(rows: seq<Row>, tempId: string)
    ensures Grows(rows, FailRows(rows, tempId))
  {
  }

  ghost predicate RowsSurvive(s: Page, ev: Event, id: string)
    requires Possible(s, ev)
    requires id in s.w.entries && id in Step(s, ev).w.entries
  {
    var e, f := s.w.entries[id], Step(s, ev).w.entries[id];
    && RowsKept(ev, id, e, f)
    && f.tempCounter == e.tempCounter + if ev.Appended? && ev.id == id then 1 else 0
  }

  lemma MessageKeepsRows(s: Page, ev: Event, id: string)
    requires Possible(s, ev) && ev.MessageArrived?
    requires id in s.w.entries && id in Step(s, ev).w.entries
    ensures RowsSurvive(s, ev, id)
  {
    var e := s.w.entries[id];
    if ev.frame.Some? && id == s.w.open[ev.h] {
      FrameGrows(e.events, ev.frame.value);
      OtherChangesKeepRows(ev, id, e, ApplyLiveFrame(e.events, ev.frame.value), e.tempCounter);
    }
  }

  lemma OptimisticStepKeepsRows(s: Page, ev: Event, id: string)
    requires Possible(s, ev) && (ev.Appended? || ev.Reconciled? || ev.MarkedFailed?)
    requires id in s.w.entries && id in Step(s, ev).w.entries
    ensures RowsSurvive(s, ev, id)
  {
    var e := s.w.entries[id];
    if ev.id == id {
      match ev {
        case Appended(_, text, actor, now) =>
          var n := e.tempCounter + 1;
          OtherChangesKeepRows(ev, id, e, e.events + [OptimisticRow(n, text, actor, now)], n);
        case Reconciled(_, _, _) =>
          RenameKeepsRows(ev, id, e);
        case MarkedFailed(_, tempId) =>
          FailGrows(e.events, tempId);
          OtherChangesKeepRows(ev, id, e, FailRows(e.events, tempId), e.tempCounter);
      }
    }
  }

  /** No step on a surviving entry drops or reorders a row, or takes text away; temporary ids only advance. */
  lemma StepsKeepRows(s: Page, ev: Event, id: string)
    requires Possible(s, ev)
    requires id in s.w.entries && id in Step(s, ev).w.entries
    ensures RowsSurvive(s, ev, id)
  {
    if TouchesNoRows(ev) {
      LifecycleKeepsRows(s, ev, id);
    } else if ev.MessageArrived? {
      MessageKeepsRows(s, ev, id);
    } else {
      OptimisticStepKeepsRows(s, ev, id);
    }
  }

  /** The id an append hands to its caller. */
  function HandedOut(s: Page, ev: Event): string
    requires ev.Appended?
  {
    AppendOptimistic(s.w, ev.id, ev.text, ev.actor, ev.now).1
  }

  ghost predicate Survives(states: seq<Page>, i: nat, j: nat, id: string) {
    forall k :: i <= k <= j && k < |states| ==> id in states[k].w.entries
  }

  lemma {:induction false} CounterNeverFalls(states: seq<Page>, events: seq<Event>, i: nat, j: nat, id: string)
    requires IsRun(states, events) && i <= j < |states| && Survives(states, i, j, id)
    ensures states[i].w.entries[id].tempCounter <= states[j].w.entries[id].tempCounter
    decreases j
  {
    if i < j {
      var k := j - 1;
      CounterNeverFalls(states, events, i, k, id);
      assert Possible(states[k], events[k]) && states[k + 1] == Step(states[k], events[k]);
      StepsKeepRows(states[k], events[k], id);
    }
  }

  /** While an entry lives, no two of its appends ever hand out the same id, whatever happens in between. */
  lemma TempIdsAreNeverReused(states: seq<Page>, events: seq<Event>, i: nat, j: nat, id: string)
    requires IsRun(states, events) && i < j < |events| && Survives(states, i, j, id)
    requires events[i].Appended? && events[i].id == id && events[j].Appended? && events[j].id == id
    ensures HandedOut(states[i], events[i]) != HandedOut(states[j], events[j])
  {
    assert Possible(states[i], events[i]) && states[i + 1] == Step(states[i], events[i]);
    StepsKeepRows(states[i], events[i], id);
    CounterNeverFalls(states, events, i + 1, j, id);
    var m, n := states[i].w.entries[id].tempCounter + 1, states[j].w.entries[id].tempCounter + 1;
    if TempId(m) == TempId(n) {
      TempIdIsInjective(m, n);
    }
  }

  /** The appends to `id` since the entry it had in state `k` was created. */
  ghost function AppendsSinceCreated(states: seq<Page>, events: seq<Event>, k: nat, id: string): nat
    requires |states| == |events| + 1 && k < |states|
  {
    if k == 0 || id !in states[k - 1].w.entries then 0
    else AppendsSinceCreated(states, events, k - 1, id)
         + if events[k - 1].Appended? && events[k - 1].id == id then 1 else 0
  }

  lemma NewEntriesCountFromZero(s: Page, ev: Event, id: string)
    requires Possible(s, ev) && id !in s.w.entries && id in Step(s, ev).w.entries
    ensures Step(s, ev).w.entries[id].tempCounter == 0
  {
  }

  lemma {:induction false} CounterIsAppends(states: seq<Page>, events: seq<Event>, k: nat, id: string)
    requires IsRun(states, events) && k < |states| && id in states[k].w.entries
    ensures states[k].w.entries[id].tempCounter == AppendsSinceCreated(states, events, k, id)
  {
    var i := k - 1;
    assert k > 0 && Possible(states[i], events[i]) && states[i + 1] == Step(states[i], events[i]);
    if id in states[i].w.entries {
      CounterIsAppends(states, events, i, id);
      StepsKeepRows(states[i], events[i], id);
    } else {
      NewEntriesCountFromZero(states[i], events[i], id);
    }
  }

  /**
   Over every run: two appends to a zombie hand out the same id exactly if as many appends came before them
   since the entry each of them found was created.
   */
  lemma SameTempIdExactlyWhen(states: seq<Page>, events: seq<Event>, i: nat, j: nat, id: string)
    requires IsRun(states, events) && i < |events| && j < |events|
    requires events[i].Appended? && events[i].id == id && id in states[i].w.entries
    requires events[j].Appended? && events[j].id == id && id in states[j].w.entries
    ensures HandedOut(states[i], events[i]) == HandedOut(states[j], events[j])
            <==> AppendsSinceCreated(states, events, i, id) == AppendsSinceCreated(states, events, j, id)
  {
    CounterIsAppends(states, events, i, id);
    CounterIsAppends(states, events, j, id);
    var m, n := states[i].w.entries[id].tempCounter + 1, states[j].w.entries[id].tempCounter + 1;
    if TempId(m) == TempId(n) {
      TempIdIsInjective(m, n);
    }
  }

  /** A torn-down zombie starts counting again: its next optimistic row takes an id used before. */
  lemma TempIdsRestartAfterTeardown(w: World, ws: string, id: string, initial: seq<BackfillRow>, l: Listener,
                                    text: string, actor: string, now: int)
    requires id in w.entries
    ensures AppendOptimistic(Subscribe(Teardown(w, id), ws, id, initial, l), id, text, actor, now).1 == "optim-1"
  {
    assert Decimal.Numeral(1) == "1";
  }

  /** Once a source has opened, the next loss of it is waited out from the shortest delay again. */
  lemma BackoffRestartsOnOpen(w: World, id: string)
    requires id in w.entries
    ensures var v := Errored(Opened(w, id), id);
            v.entries[id].reconnectTimer == Some(w.next) && v.timers[w.next] == Reconnect(id, 2_000)
    ensures var v := Errored(w, id);
            && v.timers[w.next] == Reconnect(id, ReconnectDelay(w.entries[id].reconnectAttempts + 1))
            && v.entries[id].reconnectAttempts == w.entries[id].reconnectAttempts + 1
  {
    ReconnectDelays(1);
  }

  /** The wait before a reconnect: two, four and eight seconds, then fifteen for good. */
  lemma ReconnectDelays(attempts: nat)
    ensures ReconnectDelay(1) == 2_000 && ReconnectDelay(2) == 4_000 && ReconnectDelay(3) == 8_000
    ensures attempts >= 4 ==> ReconnectDelay(attempts) == 15_000
    ensures attempts >= 1 ==> 2_000 <= ReconnectDelay(attempts) <= ReconnectDelay(attempts + 1) <= 15_000
  {
    assert Pow2(1) == 2 && Pow2(2) == 4 && Pow2(3) == 8 && Pow2(4) == 16 && Pow2(5) == 32;
  }
}
