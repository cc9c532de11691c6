/**
 What a page shows of ui/packages/app/lib/streaming/zombie-stream-registry.ts: the rows an optimistic
 message adds, renames and marks, field by field, how long they stay as they are, and the status of
 the stream.
 */
module RegistryRows {
  import opened Wrappers
  import opened Timeline
  import opened StreamRegistry
  import Decimal

  // ---------------------------------------------------------------- one step

  /** The zombie a step is about, if it finds an entry to work on or makes one. */
  function ZombieOf(s: Page, ev: Event): string
    requires Possible(s, ev)
  {
    match ev
    case Subscribed(_, id, _, _) => id
    case Released(id, _) => id
    case SourceOpened(h) => s.w.open[h]
    case SourceErrored(h) => s.w.open[h]
    case MessageArrived(h, _) => s.w.open[h]
    case TimerFired(h) => s.w.timers[h].id
    case Appended(id, _, _, _) => id
    case Reconciled(id, _, _) => id
    case MarkedFailed(id, _) => id
  }

  /** No other zombie notices. */
  lemma OtherZombiesAreUntouched(s: Page, ev: Event, id: string)
    requires Possible(s, ev) && id != ZombieOf(s, ev)
    ensures var v := Step(s, ev).w;
            (id in v.entries <==> id in s.w.entries) && (id in v.entries ==> v.entries[id] == s.w.entries[id])
  {
  }

  /** Between two entries at most the rows, the snapshot and the count of temporary ids differ. */
  predicate OnlyRowsDiffer(e: Entry, f: Entry) {
    f == e.(events := f.events, snapshot := e.snapshot + 1, tempCounter := f.tempCounter)
  }

  /** An append adds one row at the end, with the text, the actor and the time it was given, and hands out its id. */
  lemma AppendedShows(s: Page, ev: Event)
    requires Possible(s, ev) && ev.Appended? && ev.id in s.w.entries && ev.id in Step(s, ev).w.entries
    ensures var e, f := s.w.entries[ev.id], Step(s, ev).w.entries[ev.id];
            && |f.events| == |e.events| + 1 && f.events[..|e.events|] == e.events
            && f.tempCounter == e.tempCounter + 1 && OnlyRowsDiffer(e, f)
    ensures var f := Step(s, ev).w.entries[ev.id];
            var row := f.events[|f.events| - 1];
            && row.id == HandedOut(s, ev) == "optim-" + Decimal.Numeral(f.tempCounter)
            && row.text == ev.text && row.actor == ev.actor && row.createdAt == ev.now
            && row.role == User && row.status == "optimistic" && row.custom == None
  {
  }

  /** A reconciliation gives the rows of the temporary id, and no others, the real id and the status "received". */
  lemma ReconciledShows(s: Page, ev: Event)
    requires Possible(s, ev) && ev.Reconciled? && ev.id in s.w.entries && ev.id in Step(s, ev).w.entries
    ensures var e, f := s.w.entries[ev.id], Step(s, ev).w.entries[ev.id];
            && |f.events| == |e.events| && f.tempCounter == e.tempCounter && OnlyRowsDiffer(e, f)
            && forall k :: 0 <= k < |e.events| ==>
                 f.events[k] == if e.events[k].id == ev.tempId
                                then e.events[k].(id := ev.realId, status := "received") else e.events[k]
  {
  }

  /** A failure gives the rows of the temporary id, and no others, the status "failed". */
  lemma MarkedFailedShows(s: Page, ev: Event)
    requires Possible(s, ev) && ev.MarkedFailed? && ev.id in s.w.entries && ev.id in Step(s, ev).w.entries
    ensures var e, f := s.w.entries[ev.id], Step(s, ev).w.entries[ev.id];
            && |f.events| == |e.events| && f.tempCounter == e.tempCounter && OnlyRowsDiffer(e, f)
            && forall k :: 0 <= k < |e.events| ==>
                 f.events[k] == if e.events[k].id == ev.tempId then e.events[k].(status := "failed") else e.events[k]
  {
  }

  /** Without an entry nothing happens, and the id handed out is the empty one. */
  lemma WithoutEntryNothingHappens(s: Page, ev: Event)
    requires Possible(s, ev) && (ev.Appended? || ev.Reconciled? || ev.MarkedFailed?) && ev.id !in s.w.entries
    ensures Step(s, ev) == s && (ev.Appended? ==> HandedOut(s, ev) == "")
  {
  }

  // ---------------------------------------------------------------- a row over runs

  /** A frame of the row's id arrives for the zombie, or its optimistic message is reconciled or fails. */
  predicate Touches(s: Page, ev: Event, id: string, rowId: string)
    requires Possible(s, ev)
  {
    match ev
    case MessageArrived(h, frame) => s.w.open[h] == id && frame.Some? && frame.value.id == rowId
    case Reconciled(x, tempId, _) => x == id && tempId == rowId
    case MarkedFailed(x, tempId) => x == id && tempId == rowId
    case _ => false
  }

  lemma UntouchedRowStays(s: Page, ev: Event, id: string, k: nat)
    requires Possible(s, ev) && id in s.w.entries && id in Step(s, ev).w.entries
    requires k < |s.w.entries[id].events| && !Touches(s, ev, id, s.w.entries[id].events[k].id)
    ensures k < |Step(s, ev).w.entries[id].events|
    ensures Step(s, ev).w.entries[id].events[k] == s.w.entries[id].events[k]
  {
    if id != ZombieOf(s, ev) {
      OtherZombiesAreUntouched(s, ev, id);
    } else if TouchesNoRows(ev) {
      LifecycleKeepsRows(s, ev, id);
    } else if ev.MessageArrived? && ev.frame.Some? {
      OtherRowsStay(s.w.entries[id].events, ev.frame.value, k);
    }
  }

  /** No event of the row's own happens from state `i` to state `j`. */
  ghost predicate LeftAlone(states: seq<Page>, events: seq<Event>, i: nat, j: nat, id: string, rowId: string)
    requires IsRun(states, events) && j < |states|
  {
    forall m :: i <= m < j ==> Possible(states[m], events[m]) && !Touches(states[m], events[m], id, rowId)
  }

  /** Over every run: while only other rows' events happen, a row stays where it is and as it is. */
  lemma {:induction false} RowStays(states: seq<Page>, events: seq<Event>, i: nat, j: nat, id: string, k: nat)
    requires IsRun(states, events) && i <= j < |states| && Survives(states, i, j, id)
    requires k < |states[i].w.entries[id].events|
    requires LeftAlone(states, events, i, j, id, states[i].w.entries[id].events[k].id)
    ensures k < |states[j].w.entries[id].events|
    ensures states[j].w.entries[id].events[k] == states[i].w.entries[id].events[k]
    decreases j
  {
    if i < j {
      var m := j - 1;
      RowStays(states, events, i, m, id, k);
      assert Possible(states[m], events[m]) && states[m + 1] == Step(states[m], events[m]);
      UntouchedRowStays(states[m], events[m], id, k);
    }
  }

  /** An appended message is shown with its text, actor and time until an event of its own happens. */
  lemma AppendedRowStays(states: seq<Page>, events: seq<Event>, i: nat, j: nat, id: string)
    requires IsRun(states, events) && i < j < |states| && Survives(states, i, j, id)
    requires events[i].Appended? && events[i].id == id
    requires LeftAlone(states, events, i + 1, j, id, HandedOut(states[i], events[i]))
    ensures var k := |states[i].w.entries[id].events|;
            && k < |states[j].w.entries[id].events|
            && var row := states[j].w.entries[id].events[k];
               && row.id == HandedOut(states[i], events[i]) && row.text == events[i].text
               && row.actor == events[i].actor && row.createdAt == events[i].now
               && row.role == User && row.status == "optimistic"
  {
    assert Possible(states[i], events[i]) && states[i + 1] == Step(states[i], events[i]);
    AppendedShows(states[i], events[i]);
    RowStays(states, events, i + 1, j, id, |states[i].w.entries[id].events|);
  }

  lemma {:induction false} RowContinues(states: seq<Page>, events: seq<Event>, i: nat, j: nat, id: string, k: nat)
    requires IsRun(states, events) && i <= j < |states| && Survives(states, i, j, id)
    requires k < |states[i].w.entries[id].events|
    ensures k < |states[j].w.entries[id].events|
    ensures Continues(states[i].w.entries[id].events[k], states[j].w.entries[id].events[k])
    decreases j
  {
    if i < j {
      var m := j - 1;
      RowContinues(states, events, i, m, id, k);
      assert Possible(states[m], events[m]) && states[m + 1] == Step(states[m], events[m]);
      StepsKeepRows(states[m], events[m], id);
    }
  }

  /** And whatever happens it stays at its place, the user's, of that actor and time, beginning with that text. */
  lemma AppendedTextIsKept(states: seq<Page>, events: seq<Event>, i: nat, j: nat, id: string)
    requires IsRun(states, events) && i < j < |states| && Survives(states, i, j, id)
    requires events[i].Appended? && events[i].id == id
    ensures var k := |states[i].w.entries[id].events|;
            && k < |states[j].w.entries[id].events|
            && var row := states[j].w.entries[id].events[k];
               && row.role == User && row.actor == events[i].actor && row.createdAt == events[i].now
               && events[i].text <= row.text
  {
    assert Possible(states[i], events[i]) && states[i + 1] == Step(states[i], events[i]);
    AppendedShows(states[i], events[i]);
    RowContinues(states, events, i + 1, j, id, |states[i].w.entries[id].events|);
  }

  // ---------------------------------------------------------------- status and timers

  /** A new entry is connecting; its source opening makes it live and its source failing sends it reconnecting. */
  lemma StatusFollowsTheSource(s: Page, ev: Event, id: string)
    requires Possible(s, ev) && id in Step(s, ev).w.entries
    ensures Step(s, ev).w.entries[id].status
         == if id !in s.w.entries then Connecting
            else if ev.SourceOpened? && s.w.open[ev.h] == id then Live
            else if ev.SourceErrored? && s.w.open[ev.h] == id then Reconnecting
            else s.w.entries[id].status
  {
  }

  /** Reconnecting says that the source has failed since it last opened; without a source nothing else is shown. */
  predicate StatusOkOf(e: Entry) {
    (e.status == Reconnecting <==> e.reconnectAttempts > 0) && (e.source.None? ==> e.status == Reconnecting)
  }

  ghost predicate StatusOk(w: World) {
    forall id :: id in w.entries ==> StatusOkOf(w.entries[id])
  }

  lemma {:induction false} RunsKeepStatus(states: seq<Page>, events: seq<Event>, k: nat)
    requires IsRun(states, events) && k < |states|
    ensures StatusOk(states[k].w)
  {
    if k > 0 {
      var i := k - 1;
      RunsKeepStatus(states, events, i);
      RunsKeepInv(states, events, i);
      assert Possible(states[i], events[i]) && states[i + 1] == Step(states[i], events[i]);
      StepKeepsStatus(states[i], events[i]);
    }
  }

  lemma StepKeepsStatus(s: Page, ev: Event)
    requires PageInv(s) && StatusOk(s.w) && Possible(s, ev)
    ensures StatusOk(Step(s, ev).w)
  {
    var v := Step(s, ev).w;
    var id := ZombieOf(s, ev);
    assert InvAt(s.w, id);
    forall x | x != id && x in v.entries ensures StatusOkOf(v.entries[x]) {
      OtherZombiesAreUntouched(s, ev, x);
      assert StatusOkOf(s.w.entries[x]);
    }
    if id in v.entries {
      StepKeepsOwnStatus(s, ev);
    }
  }

  lemma StepKeepsOwnStatus(s: Page, ev: Event)
    requires PageInv(s) && Possible(s, ev) && ZombieOf(s, ev) in Step(s, ev).w.entries
    requires ZombieOf(s, ev) in s.w.entries ==> StatusOkOf(s.w.entries[ZombieOf(s, ev)])
    ensures StatusOkOf(Step(s, ev).w.entries[ZombieOf(s, ev)])
  {
    assert InvAt(s.w, ZombieOf(s, ev));
  }

  /** The first subscription makes an entry of its own workspace, with its rows, one listener and an open source. */
  lemma FirstSubscriptionCreates(s: Page, ev: Event)
    requires Possible(s, ev) && ev.Subscribed? && ev.id !in s.w.entries
    ensures var v := Step(s, ev).w;
            && ev.id in v.entries && s.w.next in v.open && v.open[s.w.next] == ev.id && v.timers == s.w.timers
            && var e := v.entries[ev.id];
               && e.workspaceId == ev.workspaceId && e.events == MergeBackfill([], ev.initial)
               && e.listeners == [ev.l] && e.refCount == 1 && e.source == Some(s.w.next)
               && e.idleTimer.None? && e.reconnectTimer.None? && e.reconnectAttempts == e.tempCounter == 0
  {
  }

  /** A later one joins it: its rows and workspace do not count, and the entry is no longer waiting to end. */
  lemma LaterSubscriptionJoins(s: Page, ev: Event)
    requires PageInv(s) && Possible(s, ev) && ev.Subscribed? && ev.id in s.w.entries
    ensures var e, v := s.w.entries[ev.id], Step(s, ev).w;
            && ev.id in v.entries && v.open == s.w.open
            && v.entries[ev.id] == e.(idleTimer := None, refCount := e.refCount + 1, listeners := e.listeners + [ev.l])
            && forall h :: h in v.timers <==> h in s.w.timers && e.idleTimer != Some(h)
  {
    assert InvAt(s.w, ev.id);
  }

  /** Only the last release sets a timer: thirty seconds to the end of the entry. */
  lemma LastReleaseWaits(s: Page, ev: Event)
    requires PageInv(s) && Possible(s, ev) && ev.Released?
    ensures ev.id in s.w.entries && ev.id in Step(s, ev).w.entries
    ensures var e, v := s.w.entries[ev.id], Step(s, ev).w;
            if e.listeners == [ev.l]
            then v.timers == s.w.timers[s.w.next := Idle(ev.id, 30_000)] && v.entries[ev.id].idleTimer == Some(s.w.next)
            else v.timers == s.w.timers && v.entries[ev.id].idleTimer == e.idleTimer
  {
    var e := s.w.entries[ev.id];
    assert InvAt(s.w, ev.id);
    RemoveListenerIs(e.listeners, ev.l);
    if |e.listeners| == 1 {
      assert e.listeners == [ev.l];
    }
  }
}
