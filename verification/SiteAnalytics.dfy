/**
 Model of ui/packages/website/src/analytics/posthog.ts: events tracked before the analytics module has
 loaded wait in a queue that is flushed when it lands.
 */
module SiteAnalytics {

  datatype Value = Text(text: string) | Number(n: int) | Flag(b: bool)

  type Props = seq<(string, Value)>

  datatype Tracked = Tracked(event: string, props: Props)

  const MAX_TEXT := 256

  predicate Allowed(key: string) {
    key in {"source", "surface", "mode", "target", "path", "component", "page", "cta_id", "plan_interest", "status",
            "utm_source", "utm_medium", "utm_campaign"}
  }

  function Shorten(v: Value): Value {
    if v.Text? && |v.text| > MAX_TEXT then Text(v.text[..MAX_TEXT]) else v
  }

  function Sanitize(props: Props): Props {
    if props == [] then []
    else if Allowed(props[0].0) then [(props[0].0, Shorten(props[0].1))] + Sanitize(props[1..])
    else Sanitize(props[1..])
  }

  /** Only allowed keys get out, no text longer than the limit, and a second pass changes nothing. */
  lemma {:induction false} SanitizedProps(props: Props)
    ensures forall i :: 0 <= i < |Sanitize(props)| ==>
              && Allowed(Sanitize(props)[i].0)
              && (Sanitize(props)[i].1.Text? ==> |Sanitize(props)[i].1.text| <= MAX_TEXT)
    ensures Sanitize(Sanitize(props)) == Sanitize(props)
  {
    if props != [] {
      SanitizedProps(props[1..]);
      if Allowed(props[0].0) {
        var rest := Sanitize(props[1..]);
        assert ([(props[0].0, Shorten(props[0].1))] + rest)[1..] == rest;
      }
    }
  }

  lemma {:induction false} SanitizeAppend(a: Props, b: Props)
    ensures Sanitize(a + b) == Sanitize(a) + Sanitize(b)
    decreases |a|
  {
    if a == [] {
      assert a + b == b;
    } else {
      assert (a + b)[1..] == a[1..] + b;
      SanitizeAppend(a[1..], b);
    }
  }

  /** Every allowed property gets out, a text cut to its first 256 characters and anything else whole. */
  lemma SanitizedOne(key: string, v: Value)
    ensures var listed := ["source", "surface", "mode", "target", "path", "component", "page", "cta_id",
                           "plan_interest", "status", "utm_source", "utm_medium", "utm_campaign"];
            |Sanitize([(key, v)])| == if key in listed then 1 else 0
    ensures |Sanitize([(key, v)])| == 1 ==>
      && var (k, w) := Sanitize([(key, v)])[0];
      && k == key
      && (v.Text? && |v.text| > 256 ==> w.Text? && |w.text| == 256 && w.text <= v.text)
      && (!(v.Text? && |v.text| > 256) ==> w == v)
  {
    assert [(key, v)][1..] == [];
  }

  // ---------------------------------------------------------------- the machine

  /** The loader: not started, under way, with its module in place, or without one for good. */
  datatype Loader = NotStarted | Pending | Loaded | Broken

  /**
   How loading ends: the import fails; the module's `init` throws; its `capture` throws on the event at `at`
   while the queue is drained; or the queue is drained.
   */
  datatype Settled = ImportFails | InitThrows | CaptureThrows(at: nat) | Drains

  datatype State = State(initialized: bool, enabled: bool, idle: bool, loader: Loader, starts: nat,
                         pending: seq<Tracked>, captured: seq<Tracked>)

  const FRESH := State(false, false, false, NotStarted, 0, [], [])

  /** What can happen; a `bool` named for a configuration is whether it is enabled when it is read. */
  datatype Op =
    | Init(config: bool)
    | Track(event: string, props: Props, config: bool, configAtLoad: bool)
    | IdleFires
    | LoadSettles(how: Settled)

  function EnsureLoader(s: State, config: bool): State {
    if s.loader != NotStarted || !config then s else s.(loader := Pending, starts := s.starts + 1)
  }

  function InitAnalytics(s: State, config: bool): State {
    if s.initialized then s else s.(initialized := true, enabled := config, idle := s.idle || config)
  }

  function TrackEvent(s: State, event: string, props: Props, config: bool, configAtLoad: bool): State {
    var s1 := InitAnalytics(s, config);
    var t := Tracked(event, Sanitize(props));
    if !s1.enabled then s1
    else if s1.loader == Loaded then s1.(captured := s1.captured + [t])
    else EnsureLoader(s1.(pending := s1.pending + [t]), configAtLoad)
  }

  predicate Possible(s: State, op: Op) {
    match op
    case IdleFires => s.idle
    case LoadSettles(how) => s.loader == Pending && (how.CaptureThrows? ==> how.at < |s.pending|)
    case _ => true
  }

  function Step(s: State, op: Op): State
    requires Possible(s, op)
  {
    match op
    case Init(config) => InitAnalytics(s, config)
    case Track(event, props, config, configAtLoad) => TrackEvent(s, event, props, config, configAtLoad)
    case IdleFires => EnsureLoader(s.(idle := false), true)
    case LoadSettles(how) => Settle(s, how)
  }

  /** The module is in place before `init` is called, and the queue is emptied before it is drained. */
  function Settle(s: State, how: Settled): State
    requires how.CaptureThrows? ==> how.at < |s.pending|
  {
    match how
    case ImportFails => s.(loader := Broken)
    case InitThrows => s.(loader := Loaded)
    case CaptureThrows(at) => s.(loader := Loaded, captured := s.captured + s.pending[..at], pending := [])
    case Drains => s.(loader := Loaded, captured := s.captured + s.pending, pending := [])
  }

  /** The states of a run, each step possible in the state it is made in. */
  ghost predicate IsRun(states: seq<State>, ops: seq<Op>) {
    && |states| == |ops| + 1 && states[0] == FRESH
    && forall i :: 0 <= i < |ops| ==> Possible(states[i], ops[i]) && states[i + 1] == Step(states[i], ops[i])
  }

  // ---------------------------------------------------------------- what should be recorded

  /** The first configuration anyone reads decides for good. */
  function Decision(ops: seq<Op>): bool {
    if ops == [] then false
    else
      match ops[0]
      case Init(config) => config
      case Track(_, _, config, _) => config
      case _ => Decision(ops[1..])
  }

  function Decided(ops: seq<Op>): bool {
    exists i :: 0 <= i < |ops| && (ops[i].Init? || ops[i].Track?)
  }

  /** All tracks in call order, sanitised. */
  function AllTracks(ops: seq<Op>): seq<Tracked> {
    if ops == [] then []
    else
      var last := ops[|ops| - 1];
      AllTracks(ops[..|ops| - 1]) + if last.Track? then [Tracked(last.event, Sanitize(last.props))] else []
  }

  function Recorded(ops: seq<Op>): seq<Tracked> {
    if Decision(ops) then AllTracks(ops) else []
  }

  lemma {:induction false} DecisionIsFinal(ops: seq<Op>, op: Op)
    ensures Decision(ops + [op]) == if Decided(ops) then Decision(ops) else Decision([op])
    ensures Decided(ops + [op]) <==> Decided(ops) || op.Init? || op.Track?
    ensures !Decided(ops) ==> !Decision(ops) && AllTracks(ops) == []
    decreases |ops|
  {
    var all := ops + [op];
    assert all[|ops|] == op;
    if op.Init? || op.Track? {
      assert all[|ops|].Init? || all[|ops|].Track?;
    }
    if Decided(ops) {
      var i :| 0 <= i < |ops| && (ops[i].Init? || ops[i].Track?);
      assert all[i] == ops[i];
    }
    if Decided(all) {
      var i :| 0 <= i < |all| && (all[i].Init? || all[i].Track?);
      assert i < |ops| ==> all[i] == ops[i];
    }
    if ops == [] {
      assert all == [op];
    } else {
      DecisionIsFinal(ops[1..], op);
      assert all[1..] == ops[1..] + [op];
      DecidedCons(ops);
      if !Decided(ops) {
        NothingTracked(ops);
      }
    }
  }

  lemma DecidedCons(ops: seq<Op>)
    requires ops != []
    ensures Decided(ops) <==> ops[0].Init? || ops[0].Track? || Decided(ops[1..])
  {
    if Decided(ops[1..]) {
      var i :| 0 <= i < |ops[1..]| && (ops[1..][i].Init? || ops[1..][i].Track?);
      assert ops[i + 1] == ops[1..][i];
    }
    if Decided(ops) {
      var i :| 0 <= i < |ops| && (ops[i].Init? || ops[i].Track?);
      assert i > 0 ==> ops[1..][i - 1] == ops[i];
    }
  }

  lemma {:induction false} NothingTracked(ops: seq<Op>)
    requires !Decided(ops)
    ensures AllTracks(ops) == []
    decreases |ops|
  {
    if ops != [] {
      var before := ops[..|ops| - 1];
      assert forall i :: 0 <= i < |before| ==> before[i] == ops[i];
      NothingTracked(before);
    }
  }

  /** The queue invariant, against the calls made so far. */
  ghost predicate Inv(s: State, ops: seq<Op>) {
    && s.initialized == Decided(ops)
    && s.enabled == Decision(ops)
    && s.captured + s.pending == Recorded(ops)
    && (if s.loader == Loaded then s.pending == [] else s.captured == [])
    && s.starts == (if s.loader == NotStarted then 0 else 1)
    && (s.idle || s.loader != NotStarted ==> s.enabled)
    && (s.enabled && s.loader == NotStarted ==> s.idle)
  }

  /** Loading ends without throwing anything away: `init` may throw as long as nothing is waiting. */
  predicate Harmless(s: State, op: Op) {
    op.LoadSettles? ==> !op.how.CaptureThrows? && (op.how.InitThrows? ==> s.pending == [])
  }

  lemma StepKeepsInv(s: State, ops: seq<Op>, op: Op)
    requires Inv(s, ops) && Possible(s, op)
    ensures Inv(Step(s, op), ops + [op]) <==> Harmless(s, op)
  {
    DecisionIsFinal(ops, op);
    var all := ops + [op];
    assert all[..|all| - 1] == ops && all[|all| - 1] == op;
    match op {
      case Track(event, props, config, configAtLoad) =>
        var t := [Tracked(event, Sanitize(props))];
        assert AllTracks(all) == AllTracks(ops) + t;
        assert (s.captured + s.pending) + t == s.captured + (s.pending + t);
      case LoadSettles(how) =>
        assert AllTracks(all) == AllTracks(ops) + [];
        SettleKeepsQueue(s, how);
      case _ =>
        assert AllTracks(all) == AllTracks(ops) + [];
        assert s.captured + s.pending + [] == s.captured + s.pending;
    }
  }

  /** A drain cut short loses the event it stopped at and all after it. */
  lemma SettleKeepsQueue(s: State, how: Settled)
    requires s.captured == [] && (how.CaptureThrows? ==> how.at < |s.pending|)
    ensures var v := Settle(s, how);
            && (how.CaptureThrows? ==> v.captured + v.pending == s.pending[..how.at])
            && (!how.CaptureThrows? ==> v.captured + v.pending == s.pending)
  {
    var v := Settle(s, how);
    assert how.CaptureThrows? ==> [] + s.pending[..how.at] + [] == s.pending[..how.at];
    assert [] + s.pending + [] == s.pending;
  }

  /** The page has loaded with events left waiting for good, or with fewer captured than tracked. */
  ghost predicate Damaged(s: State, ops: seq<Op>) {
    && s.loader == Loaded && s.initialized && s.enabled && Decided(ops) && Decision(ops)
    && (s.pending != [] || |s.captured| < |AllTracks(ops)|)
  }

  lemma HarmfulStepDamages(s: State, ops: seq<Op>, op: Op)
    requires Inv(s, ops) && Possible(s, op) && !Harmless(s, op)
    ensures Damaged(Step(s, op), ops + [op])
  {
    DecisionIsFinal(ops, op);
    var all := ops + [op];
    assert all[..|all| - 1] == ops && all[|all| - 1] == op;
    assert AllTracks(all) == AllTracks(ops) + [];
    assert |s.captured + s.pending| == |s.pending|;
  }

  lemma DamageStays(s: State, ops: seq<Op>, op: Op)
    requires Damaged(s, ops) && Possible(s, op)
    ensures Damaged(Step(s, op), ops + [op])
  {
    DecisionIsFinal(ops, op);
    var all := ops + [op];
    assert all[..|all| - 1] == ops && all[|all| - 1] == op;
  }

  lemma DamagedIsNotIntact(s: State, ops: seq<Op>)
    requires Damaged(s, ops)
    ensures !Inv(s, ops)
  {
    assert |s.captured + s.pending| == |s.captured| + |s.pending|;
  }

  lemma IntactAfterExactlyWhen(s: State, ops: seq<Op>, op: Op)
    requires Possible(s, op) && (Inv(s, ops) || Damaged(s, ops))
    ensures Inv(Step(s, op), ops + [op]) <==> Inv(s, ops) && Harmless(s, op)
    ensures Inv(Step(s, op), ops + [op]) || Damaged(Step(s, op), ops + [op])
  {
    if Damaged(s, ops) {
      DamagedIsNotIntact(s, ops);
      DamageStays(s, ops, op);
      DamagedIsNotIntact(Step(s, op), ops + [op]);
    } else {
      StepKeepsInv(s, ops, op);
      if !Harmless(s, op) {
        HarmfulStepDamages(s, ops, op);
      }
    }
  }

  ghost predicate AllHarmless(states: seq<State>, ops: seq<Op>, k: nat)
    requires k <= |ops| && |states| == |ops| + 1
  {
    forall i :: 0 <= i < k ==> Harmless(states[i], ops[i])
  }

  /**
   For every run and every state of it: what has been captured, followed by what is pending, is every track
   made so far in call order, sanitised, if the first configuration read was enabled, and nothing otherwise,
   the loader has started once at most, and while it has not, an enabled page has it scheduled: all this
   exactly if no load so far has thrown events away. After one that has, events stay waiting for good or
   fewer are captured than were tracked.
   */
  lemma {:induction false} RunsKeepQueue(states: seq<State>, ops: seq<Op>, k: nat)
    requires IsRun(states, ops) && k < |states|
    ensures Inv(states[k], ops[..k]) <==> AllHarmless(states, ops, k)
    ensures Inv(states[k], ops[..k]) || Damaged(states[k], ops[..k])
  {
    if k > 0 {
      var i := k - 1;
      RunsKeepQueue(states, ops, i);
      assert Possible(states[i], ops[i]) && states[i + 1] == Step(states[i], ops[i]);
      assert ops[..k] == ops[..i] + [ops[i]];
      IntactAfterExactlyWhen(states[i], ops[..i], ops[i]);
    }
  }

  /** One such run: the module throws on the only event, which is then neither captured nor waiting. */
  lemma ThrownAwayEvent()
    ensures var ops := [Track("e", [], true, true), LoadSettles(CaptureThrows(0))];
            var tracked := Step(FRESH, ops[0]);
            && Possible(tracked, ops[1]) && IsRun([FRESH, tracked, Step(tracked, ops[1])], ops)
            && Step(tracked, ops[1]).captured == Step(tracked, ops[1]).pending == []
            && Recorded(ops) == [Tracked("e", [])]
  {
    var ops := [Track("e", [], true, true), LoadSettles(CaptureThrows(0))];
    var tracked := Step(FRESH, ops[0]);
    assert [] + [Tracked("e", [])] == [Tracked("e", [])];
    var states := [FRESH, tracked, Step(tracked, ops[1])];
    forall i | 0 <= i < |ops| ensures Possible(states[i], ops[i]) && states[i + 1] == Step(states[i], ops[i]) {
      assert i == 0 || i == 1;
    }
    assert ops[..1] == [ops[0]] && [ops[0]][..0] == [];
    assert AllTracks([ops[0]]) == [] + [Tracked("e", [])];
    assert AllTracks(ops) == AllTracks(ops[..1]) + [];
  }

  /** A loaded page has captured every track so far, in order, exactly if no load threw events away. */
  lemma LoadedPagesRecordEverything(states: seq<State>, ops: seq<Op>, k: nat)
    requires IsRun(states, ops) && k < |states| && states[k].loader == Loaded
    ensures states[k].captured == AllTracks(ops[..k]) && states[k].pending == [] <==> AllHarmless(states, ops, k)
  {
    RunsKeepQueue(states, ops, k);
    assert states[k].captured + [] == states[k].captured;
  }

  // ---------------------------------------------------------------- the module's variables

  class Tracker {
    var initialized: bool
    var enabled: bool
    var idle: bool
    var loader: Loader
    ghost var starts: nat
    var pending: seq<Tracked>
    var captured: seq<Tracked>

    constructor ()
      ensures Current() == FRESH
    {
      initialized, enabled, idle, loader, starts, pending, captured := false, false, false, NotStarted, 0, [], [];
    }

    ghost function Current(): State
      reads this
    {
      State(initialized, enabled, idle, loader, starts, pending, captured)
    }

    method StartLoader(config: bool)
      modifies this
      ensures Current() == EnsureLoader(old(Current()), config)
    {
      if loader != NotStarted || !config { return; }
      loader := Pending;
      starts := starts + 1;
    }

    method Initialize(config: bool)
      modifies this
      ensures Current() == InitAnalytics(old(Current()), config)
    {
      if initialized { return; }
      initialized := true;
      enabled := config;
      if !config { return; }
      idle := true;
    }

    method SanitizeProps(props: Props) returns (out: Props)
      ensures out == Sanitize(props)
    {
      out := [];
      for i := 0 to |props|
        invariant Sanitize(props) == out + Sanitize(props[i..])
      {
        var (key, value) := props[i];
        if !Allowed(key) { continue; }
        if value.Text? && |value.text| > MAX_TEXT {
          out := out + [(key, Text(value.text[..MAX_TEXT]))];
          continue;
        }
        out := out + [(key, value)];
      }
    }

    method TrackOne(event: string, props: Props, config: bool, configAtLoad: bool)
      modifies this
      ensures Current() == TrackEvent(old(Current()), event, props, config, configAtLoad)
    {
      if !initialized {
        Initialize(config);
      }
      if !enabled { return; }
      var sanitized := SanitizeProps(props);
      if loader == Loaded {
        captured := captured + [Tracked(event, sanitized)];
        return;
      }
      pending := pending + [Tracked(event, sanitized)];
      StartLoader(configAtLoad);
    }

    method IdleCallback()
      requires idle
      modifies this
      ensures Current() == Step(old(Current()), IdleFires)
    {
      idle := false;
      StartLoader(true);
    }

    method FinishLoad(how: Settled)
      requires loader == Pending && (how.CaptureThrows? ==> how.at < |pending|)
      modifies this
      ensures Current() == Step(old(Current()), LoadSettles(how))
    {
      if how.ImportFails? {
        loader := Broken;
        return;
      }
      loader := Loaded;
      if how.InitThrows? { return; }
      var queue := pending;
      pending := [];
      var end := if how.CaptureThrows? then how.at else |queue|;
      for i := 0 to end
        invariant captured == old(captured) + queue[..i]
        invariant Current() == old(Current()).(loader := Loaded, pending := [], captured := captured)
      {
        captured := captured + [queue[i]];
      }
      assert queue[..|queue|] == queue;
    }
  }
}
