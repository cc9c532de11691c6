/**
 Model of ui/packages/app/lib/analytics/posthog.ts: sign-ins and sign-outs that race the loading of the
 analytics client are deferred and replayed once it lands. The immediate machine, the same calls on a
 client that has already loaded, is what the deferral is measured against.
 */
module AppAnalytics {
  import opened Wrappers
  import Text

  datatype User = User(id: string, email: Option<string>)

  /** What the client knows about its visitor. */
  datatype Identity = Anonymous | Identified(id: string, userId: Option<string>, email: Option<string>)

  /** posthog-js as far as it is used here; both calls are optional in its type. */
  datatype Client = Client(canIdentify: bool, canReset: bool, identity: Identity)

  /** localStorage: absent or throwing, or holding the marker, where a write may be refused (full quota). */
  datatype Store = NoStore | Store(marker: bool, writable: bool)

  datatype State = State(enabled: bool, configured: bool, initialized: bool, client: Option<Client>,
                         identified: Option<string>, pendingIdentify: Option<User>, pendingReset: bool, store: Store)

  /** An allowed property: trimmed, and dropped when nothing is left. */
  function SafeValue(v: Option<string>): Option<string> {
    if v.Some? && Text.Trim(v.value) != "" then Some(Text.Trim(v.value)) else None
  }

  function AsIdentity(u: User): Identity {
    Identified(u.id, SafeValue(Some(u.id)), SafeValue(u.email))
  }

  function SetMarker(store: Store): Store {
    if store.Store? && store.writable then store.(marker := true) else store
  }

  function RemoveMarker(store: Store): Store {
    if store.Store? then store.(marker := false) else store
  }

  const FRESH_PAGE := State(false, false, false, None, None, None, false, NoStore)

  // ---------------------------------------------------------------- operations

  function Identify(s: State, u: User): State {
    if !s.enabled then s
    else if s.client.None? then s.(pendingIdentify := Some(u))
    else if !s.client.value.canIdentify || s.identified == Some(u.id) then s
    else s.(client := Some(s.client.value.(identity := AsIdentity(u))), identified := Some(u.id),
            store := SetMarker(s.store))
  }

  function Reset(s: State): State {
    var s1 := s.(identified := None, pendingIdentify := None);
    if s.configured && s.client.None? then s1.(pendingReset := true)
    else
      var s2 := s1.(pendingReset := false, store := RemoveMarker(s1.store));
      if !s.enabled || s.client.None? || !s.client.value.canReset then s2
      else s2.(client := Some(s.client.value.(identity := Anonymous)))
  }

  /** initAnalytics up to its await: `enabled` and `hasKey` come from the environment. */
  function StartInit(s: State, hasWindow: bool, enabled: bool, hasKey: bool): State {
    if s.initialized then s
    else if !hasWindow then s.(initialized := true)
    else s.(initialized := true, enabled := enabled, configured := s.configured || (enabled && hasKey))
  }

  /** The rest of it, when the chunk has loaded. */
  function LoadSucceeded(s: State, c: Client): State {
    var s1 := s.(client := Some(c), pendingIdentify := None);
    var s2 := if s1.pendingReset then Reset(s1) else s1;
    if s.pendingIdentify.Some? then Identify(s2, s.pendingIdentify.value) else s2
  }

  /** The chunk does not load; or the client it brings throws in `init`, before it is put in place. */
  datatype Failure = ImportFails | InitThrows

  function LoadFailed(s: State, how: Failure): State {
    match how
    case ImportFails => s.(enabled := false)
    case InitThrows => s
  }

  datatype Settled = Landed(client: Client) | Failed(how: Failure)

  predicate HasStaleIdentity(s: State) {
    s.identified.Some? || (s.store.Store? && s.store.marker)
  }

  // ---------------------------------------------------------------- runs

  datatype Op = SignIn(user: User) | SignOut

  function Do(s: State, op: Op): State {
    match op
    case SignIn(u) => Identify(s, u)
    case SignOut => Reset(s)
  }

  function Run(s: State, ops: seq<Op>): State {
    if ops == [] then s else Do(Run(s, ops[..|ops| - 1]), ops[|ops| - 1])
  }

  /** The client is on its way and nothing has been asked for yet. */
  predicate Loading(s: State) {
    s.enabled && s.configured && s.client.None? && s.identified.None? && s.pendingIdentify.None? && !s.pendingReset
  }

  /** Calls before initAnalytics leave nothing pending, so a load always begins like this. */
  lemma {:induction false} LoadingBeginsClean(store: Store, ops: seq<Op>)
    ensures var s := Run(FRESH_PAGE.(store := store), ops);
            && !s.enabled && !s.configured && !s.initialized && s.client.None?
            && Loading(StartInit(s, true, true, true))
  {
    if ops != [] {
      LoadingBeginsClean(store, ops[..|ops| - 1]);
    }
  }

  // ---------------------------------------------------------------- who is signed in

  /** The sign-in the deferral keeps: the last one since the last sign-out. */
  function Survivor(ops: seq<Op>): Option<User> {
    if ops == [] then None
    else if ops[|ops| - 1].SignIn? then Some(ops[|ops| - 1].user)
    else None
  }

  /** The sign-in a loaded client is told: repeats of the same id are not passed on. */
  function Winner(ops: seq<Op>): Option<User> {
    if ops == [] then None
    else
      var before := Winner(ops[..|ops| - 1]);
      match ops[|ops| - 1]
      case SignOut => None
      case SignIn(u) => if before.Some? && before.value.id == u.id then before else Some(u)
  }

  predicate SomeSignIn(ops: seq<Op>) {
    exists i :: 0 <= i < |ops| && ops[i].SignIn?
  }

  predicate SomeSignOut(ops: seq<Op>) {
    exists i :: 0 <= i < |ops| && ops[i].SignOut?
  }

  lemma SplitLast(ops: seq<Op>)
    requires ops != []
    ensures SomeSignIn(ops) <==> SomeSignIn(ops[..|ops| - 1]) || ops[|ops| - 1].SignIn?
    ensures SomeSignOut(ops) <==> SomeSignOut(ops[..|ops| - 1]) || ops[|ops| - 1].SignOut?
  {
    var before := ops[..|ops| - 1];
    if i :| 0 <= i < |before| && before[i].SignIn? {
      assert ops[i].SignIn?;
    }
    if i :| 0 <= i < |before| && before[i].SignOut? {
      assert ops[i].SignOut?;
    }
    if i :| 0 <= i < |ops| && ops[i].SignIn? {
      assert i < |before| ==> before[i].SignIn?;
    }
    if i :| 0 <= i < |ops| && ops[i].SignOut? {
      assert i < |before| ==> before[i].SignOut?;
    }
  }

  /** While loading, only the two pending notes change. */
  lemma {:induction false} LoadingRun(s: State, ops: seq<Op>)
    requires Loading(s)
    ensures Run(s, ops) == s.(pendingIdentify := Survivor(ops), pendingReset := SomeSignOut(ops))
  {
    if ops != [] {
      LoadingRun(s, ops[..|ops| - 1]);
      SplitLast(ops);
    }
  }

  lemma {:induction false} WinnerIsSurvivor(ops: seq<Op>)
    ensures Winner(ops).Some? <==> Survivor(ops).Some?
    ensures Winner(ops).Some? ==> Winner(ops).value.id == Survivor(ops).value.id
    ensures Survivor(ops).Some? ==> SomeSignIn(ops)
    ensures SomeSignIn(ops) ==> Survivor(ops).Some? || SomeSignOut(ops)
  {
    if ops != [] {
      WinnerIsSurvivor(ops[..|ops| - 1]);
      SplitLast(ops);
    }
  }

  /** The marker after the calls, whoever executes them. */
  function MarkerAfter(store: Store, c: Client, ops: seq<Op>): Store {
    var swept := if SomeSignOut(ops) then RemoveMarker(store) else store;
    if Survivor(ops).Some? && c.canIdentify then SetMarker(swept) else swept
  }

  /** The visitor after the calls on a loaded client; only a client that cannot reset shows its history. */
  function Told(c: Client, ops: seq<Op>): Identity {
    if ops == [] then c.identity
    else
      var before := ops[..|ops| - 1];
      match ops[|ops| - 1]
      case SignOut => if c.canReset then Anonymous else Told(c, before)
      case SignIn(u) =>
        if !c.canIdentify then Told(c, before)
        else if Winner(before).Some? && Winner(before).value.id == u.id then Told(c, before)
        else AsIdentity(u)
  }

  lemma {:induction false} ImmediateRun(s: State, c: Client, ops: seq<Op>)
    requires Loading(s)
    ensures Run(LoadSucceeded(s, c), ops)
         == s.(client := Some(c.(identity := Told(c, ops))),
               identified := if c.canIdentify && Winner(ops).Some? then Some(Winner(ops).value.id) else None,
               store := MarkerAfter(s.store, c, ops))
  {
    if ops != [] {
      ImmediateRun(s, c, ops[..|ops| - 1]);
      WinnerIsSurvivor(ops[..|ops| - 1]);
      SplitLast(ops);
    }
  }

  /** What the client has been told once the deferred calls are replayed. */
  function Replayed(c: Client, ops: seq<Op>): Identity {
    if Survivor(ops).Some? && c.canIdentify then AsIdentity(Survivor(ops).value)
    else if SomeSignOut(ops) && c.canReset then Anonymous
    else c.identity
  }

  lemma DeferredRun(s: State, c: Client, ops: seq<Op>)
    requires Loading(s)
    ensures LoadSucceeded(Run(s, ops), c)
         == s.(client := Some(c.(identity := Replayed(c, ops))),
               identified := if c.canIdentify && Survivor(ops).Some? then Some(Survivor(ops).value.id) else None,
               store := MarkerAfter(s.store, c, ops))
  {
    LoadingRun(s, ops);
  }

  /**
   For every sequence of calls made while the client loads: once the client has landed, the cached user,
   the marker and the pending notes are those of making the calls on a loaded client.
   */
  lemma DeferralRefinesImmediate(s: State, c: Client, ops: seq<Op>)
    requires Loading(s)
    ensures var deferred, immediate := LoadSucceeded(Run(s, ops), c), Run(LoadSucceeded(s, c), ops);
            && deferred.identified == immediate.identified
            && deferred.store == immediate.store
            && deferred.pendingIdentify == immediate.pendingIdentify == None
            && deferred.pendingReset == immediate.pendingReset == false
            && HasStaleIdentity(deferred) == HasStaleIdentity(immediate)
  {
    DeferredRun(s, c, ops);
    ImmediateRun(s, c, ops);
    WinnerIsSurvivor(ops);
  }

  // What the deferral and the immediate machine leave, said without their operations.

  predicate EndsSignedIn(ops: seq<Op>) {
    ops != [] && ops[|ops| - 1].SignIn?
  }

  /** The sign-in, or sign-out, that a store, a client and a marker set before leave behind. */
  predicate MarkerLeft(marker: bool, writable: bool, c: Client, ops: seq<Op>) {
    || (EndsSignedIn(ops) && c.canIdentify && writable)
    || (marker && forall i :: 0 <= i < |ops| ==> ops[i].SignIn?)
  }

  lemma SignOutFree(ops: seq<Op>)
    ensures SomeSignOut(ops) <==> !forall i :: 0 <= i < |ops| ==> ops[i].SignIn?
  {
    if !(forall i :: 0 <= i < |ops| ==> ops[i].SignIn?) {
      var i :| 0 <= i < |ops| && !ops[i].SignIn?;
      assert ops[i].SignOut?;
    }
  }

  /**
   For every sequence of calls, made while loading or on a loaded client: the marker is set at the end exactly
   if the last call is a sign-in that could be made and written down, or it was set before and nobody signed
   out; and an identity lingers exactly if the marker is set or the last call is a sign-in that could be made.
   */
  lemma MarkerExactlyWhen(s: State, c: Client, ops: seq<Op>, end: State)
    requires Loading(s) && (end == LoadSucceeded(Run(s, ops), c) || end == Run(LoadSucceeded(s, c), ops))
    ensures s.store.NoStore? ==> end.store == NoStore
    ensures s.store.Store? ==>
              end.store == Store(MarkerLeft(s.store.marker, s.store.writable, c, ops), s.store.writable)
    ensures HasStaleIdentity(end)
            <==> || (EndsSignedIn(ops) && c.canIdentify)
                 || (s.store.Store? && MarkerLeft(s.store.marker, s.store.writable, c, ops))
  {
    DeferredRun(s, c, ops);
    ImmediateRun(s, c, ops);
    WinnerIsSurvivor(ops);
    SignOutFree(ops);
  }

  /** What a client is told of a user: the id as it is, and id and email without white space around them. */
  lemma ToldWithoutSpaces(id: string, before: string, email: string, after: string)
    requires Text.AllSpace(before) && Text.AllSpace(after) && Text.Trimmed(email)
    requires Text.Trimmed(id) && id != ""
    ensures AsIdentity(User(id, Some(before + email + after)))
         == Identified(id, Some(id), if email == "" then None else Some(email))
    ensures AsIdentity(User(id, None)) == Identified(id, Some(id), None)
  {
    Text.TrimExactly(before, email, after);
    Text.TrimExactly("", id, "");
    assert "" + id + "" == id;
  }

  /** A load begins exactly in a browser, with analytics enabled and a key, and only once. */
  lemma LoadBeginsExactlyWhen(store: Store, ops: seq<Op>, hasWindow: bool, enabled: bool, hasKey: bool)
    ensures var s := Run(FRESH_PAGE.(store := store), ops);
            var begun := StartInit(s, hasWindow, enabled, hasKey);
            && (Loading(begun) <==> hasWindow && enabled && hasKey)
            && begun.enabled == (hasWindow && enabled)
            && begun.initialized && StartInit(begun, true, true, true) == begun
  {
    LoadingBeginsClean(store, ops);
  }

  lemma {:induction false} ToldWinner(c: Client, ops: seq<Op>)
    requires c.canIdentify && Winner(ops).Some?
    ensures Told(c, ops) == AsIdentity(Winner(ops).value)
  {
    var before := ops[..|ops| - 1];
    var u := ops[|ops| - 1].user;
    if Winner(before).Some? && Winner(before).value.id == u.id {
      ToldWinner(c, before);
    }
  }

  /** The last sign-in a loaded client was told, sign-outs after it or not. */
  function LastTold(ops: seq<Op>): Option<User> {
    if ops == [] then None
    else if ops[|ops| - 1].SignOut? then LastTold(ops[..|ops| - 1])
    else Winner(ops)
  }

  /** With no way to reset, the client stays with the last sign-in it was told. */
  lemma {:induction false} ToldSticks(c: Client, ops: seq<Op>)
    requires !c.canReset
    ensures Told(c, ops)
         == if c.canIdentify && LastTold(ops).Some? then AsIdentity(LastTold(ops).value) else c.identity
  {
    if ops != [] {
      var before := ops[..|ops| - 1];
      ToldSticks(c, before);
      if c.canIdentify && Winner(before).Some? {
        ToldWinner(c, before);
      }
    }
  }

  /**
   Exactly when the client itself ends up the same. After a final sign-in, if the first and the last sign-in
   of the final run of one id carry the same email; after a final sign-out, if the client can reset, or had
   been told of no sign-in but the one it already carried.
   */
  lemma ClientsAgreeExactlyWhen(s: State, c: Client, ops: seq<Op>)
    requires Loading(s)
    ensures LoadSucceeded(Run(s, ops), c).client == Run(LoadSucceeded(s, c), ops).client
            <==>
            || !c.canIdentify
            || (if Survivor(ops).Some? then SafeValue(Survivor(ops).value.email) == SafeValue(Winner(ops).value.email)
                else c.canReset || LastTold(ops).None? || AsIdentity(LastTold(ops).value) == c.identity)
  {
    DeferredRun(s, c, ops);
    ImmediateRun(s, c, ops);
    WinnerIsSurvivor(ops);
    if Survivor(ops).Some? && c.canIdentify {
      ToldWinner(c, ops);
    } else if !c.canReset {
      ToldSticks(c, ops);
    } else {
      ToldAnonymous(c, ops);
    }
  }

  /** One sequence after which it does not: the user signs in twice, with another email the second time. */
  lemma ChangedEmailSeparatesTheClients(s: State, c: Client, id: string, first: string, second: string)
    requires Loading(s) && c.canIdentify && SafeValue(Some(first)) != SafeValue(Some(second))
    ensures var ops := [SignIn(User(id, Some(first))), SignIn(User(id, Some(second)))];
            LoadSucceeded(Run(s, ops), c).client != Run(LoadSucceeded(s, c), ops).client
  {
    var one, two := SignIn(User(id, Some(first))), SignIn(User(id, Some(second)));
    var ops := [one, two];
    assert ops[..1] == [one] && [one][..0] == [];
    assert Winner([one]) == Some(one.user);
    assert Winner(ops) == Some(one.user) && Survivor(ops) == Some(two.user);
    ClientsAgreeExactlyWhen(s, c, ops);
  }

  lemma {:induction false} ToldAnonymous(c: Client, ops: seq<Op>)
    requires c.canReset && (!c.canIdentify || Survivor(ops).None?)
    ensures Told(c, ops) == if SomeSignOut(ops) then Anonymous else c.identity
  {
    if ops != [] {
      SplitLast(ops);
      if ops[|ops| - 1].SignIn? {
        ToldAnonymous(c, ops[..|ops| - 1]);
      }
    }
  }

  /** If the load fails, no sign-out of a configured session ever removes the marker, before or after. */
  lemma {:induction false} FailedLoadKeepsMarker(s: State, how: Failure, during: seq<Op>, after: seq<Op>)
    requires Loading(s)
    ensures var end := Run(LoadFailed(Run(s, during), how), after);
            && end.store == s.store && end.client.None? && end.configured && end.enabled == how.InitThrows?
            && end.pendingReset == (SomeSignOut(during) || SomeSignOut(after))
  {
    LoadingRun(s, during);
    if after != [] {
      FailedLoadKeepsMarker(s, how, during, after[..|after| - 1]);
      SplitLast(after);
    }
  }

  // ---------------------------------------------------------------- the module's variables

  class Analytics {
    var enabled: bool
    var configured: bool
    var initialized: bool
    var client: Option<Client>
    var identifiedUserId: Option<string>
    var pendingIdentify: Option<User>
    var pendingReset: bool
    var store: Store

    constructor (store: Store)
      ensures Current() == FRESH_PAGE.(store := store)
    {
      enabled, configured, initialized, client := false, false, false, None;
      identifiedUserId, pendingIdentify, pendingReset := None, None, false;
      this.store := store;
    }

    function Current(): State
      reads this
    {
      State(enabled, configured, initialized, client, identifiedUserId, pendingIdentify, pendingReset, store)
    }

    method IdentifyAnalyticsUser(u: User)
      modifies this
      ensures Current() == Identify(old(Current()), u)
    {
      if !enabled { return; }
      if client.None? {
        pendingIdentify := Some(u);
        return;
      }
      if !client.value.canIdentify { return; }
      if identifiedUserId == Some(u.id) { return; }
      TellClient(AsIdentity(u));
      identifiedUserId := Some(u.id);
      store := SetMarker(store);
    }

    method TellClient(identity: Identity)
      requires client.Some?
      modifies this`client
      ensures client == Some(old(client).value.(identity := identity))
    {
      client := Some(client.value.(identity := identity));
    }

    method ResetAnalyticsIdentity()
      modifies this
      ensures Current() == Reset(old(Current()))
    {
      identifiedUserId := None;
      pendingIdentify := None;
      if configured && client.None? {
        pendingReset := true;
        return;
      }
      pendingReset := false;
      store := RemoveMarker(store);
      if !enabled || client.None? || !client.value.canReset { return; }
      TellClient(Anonymous);
    }

    method BeginInitAnalytics(hasWindow: bool, isEnabled: bool, hasKey: bool)
      modifies this
      ensures Current() == StartInit(old(Current()), hasWindow, isEnabled, hasKey)
    {
      if initialized { return; }
      initialized := true;
      if !hasWindow { return; }
      enabled := isEnabled;
      if !isEnabled || !hasKey { return; }
      configured := true;
    }

    method FinishInitAnalytics(loaded: Settled)
      modifies this
      ensures Current() == match loaded
                           case Landed(c) => LoadSucceeded(old(Current()), c)
                           case Failed(how) => LoadFailed(old(Current()), how)
    {
      if loaded == Failed(ImportFails) {
        enabled := false;
        return;
      }
      if loaded.Failed? {
        return;
      }
      client := Some(loaded.client);
      var queued := pendingIdentify;
      pendingIdentify := None;
      if pendingReset {
        ResetAnalyticsIdentity();
      }
      if queued.Some? {
        IdentifyAnalyticsUser(queued.value);
      }
    }

    method HasStaleAnalyticsIdentity() returns (stale: bool)
      ensures stale == HasStaleIdentity(Current())
    {
      if identifiedUserId.Some? { return true; }
      stale := store.Store? && store.marker;
    }
  }
}
