/**
 Model of the local workspace store: the add, use and delete commands of
 agentsfleet/src/commands/workspace.ts and the hydration after login of login-helpers.ts.
 */
module Workspaces {
  import opened Wrappers
  import opened Sequences

  datatype Item = Item(id: string, name: Option<string>, createdAt: int)

  /** workspaces.json. */
  datatype Store = Store(current: Option<string>, items: seq<Item>)

  const EMPTY := Store(None, [])

  predicate Lists(items: seq<Item>, id: string) {
    exists i :: 0 <= i < |items| && items[i].id == id
  }

  function Without(items: seq<Item>, id: string): seq<Item> {
    if items == [] then []
    else if items[0].id == id then Without(items[1..], id)
    else [items[0]] + Without(items[1..], id)
  }

  // ---------------------------------------------------------------- commands

  /** A workspace as the server lists it: an id under one of two names, either of which may be missing. */
  datatype RawItem = RawItem(workspaceId: Option<string>, id: Option<string>, name: Option<string>,
                             createdAt: Option<int>)

  function Normalize(raw: RawItem, now: int): Option<Item> {
    var id := if raw.workspaceId.Some? then raw.workspaceId else raw.id;
    if id.None? || id.value == "" then None
    else Some(Item(id.value, raw.name, if raw.createdAt.Some? then raw.createdAt.value else now))
  }

  function NormalizeAll(raws: seq<RawItem>, now: int): seq<Item> {
    if raws == [] then []
    else
      var first := Normalize(raws[0], now);
      (if first.Some? then [first.value] else []) + NormalizeAll(raws[1..], now)
  }

  function Added(s: Store, id: string, name: Option<string>, now: int): Store {
    Store(Some(id), if Lists(s.items, id) then s.items else s.items + [Item(id, name, now)])
  }

  function Deleted(s: Store, id: string): Store {
    var items := Without(s.items, id);
    Store(if s.current == Some(id) then (if items == [] then None else Some(items[0].id)) else s.current, items)
  }

  /** `previous` is None when the store could not be loaded. */
  function Hydrated(previous: Option<Store>, items: seq<Item>): Store
    requires items != []
  {
    var current := if previous.Some? then previous.value.current else None;
    Store(if current.Some? && Lists(items, current.value) then current else Some(items[0].id), items)
  }

  /** What the server and the file system do is part of the command; `valid` is the uuid check. */
  datatype Op =
    | Add(id: string, name: Option<string>, now: int, readable: bool, write: WriteResult)
    | Use(id: string, valid: bool, readable: bool, write: WriteResult)
    | Delete(id: string, valid: bool, readable: bool, write: WriteResult)
    | Hydrate(raws: seq<RawItem>, now: int, readable: bool, write: WriteResult)

  function Step(s: Store, op: Op): Store {
    match op
    case Add(id, name, now, readable, write) =>
      if !readable then s else Write(s, write, Added(s, id, name, now), EMPTY)
    case Use(id, valid, readable, write) =>
      if !valid || !readable || !Lists(s.items, id) then s else Write(s, write, s.(current := Some(id)), EMPTY)
    case Delete(id, valid, readable, write) =>
      if !valid || !readable then s else Write(s, write, Deleted(s, id), EMPTY)
    case Hydrate(raws, now, readable, write) =>
      var items := NormalizeAll(raws, now);
      if items == [] then s else Write(s, write, Hydrated(if readable then Some(s) else None, items), EMPTY)
  }

  function Run(ops: seq<Op>): Store {
    if ops == [] then EMPTY else Step(Run(ops[..|ops| - 1]), ops[|ops| - 1])
  }

  // ---------------------------------------------------------------- the store in place

  class WorkspaceStore {
    var current: Option<string>
    var items: seq<Item>

    constructor ()
      ensures Value() == EMPTY
    {
      current, items := None, [];
    }

    function Value(): Store
      reads this
    {
      Store(current, items)
    }

    method Save(next: Store, result: WriteResult)
      modifies this
      ensures Value() == Write(old(Value()), result, next, EMPTY)
    {
      if result.Written? {
        current, items := next.current, next.items;
      } else if result.Truncated? {
        current, items := None, [];
      }
    }

    method AddWorkspace(id: string, name: Option<string>, now: int, readable: bool, write: WriteResult)
      modifies this
      ensures Value() == Step(old(Value()), Add(id, name, now, readable, write))
    {
      if !readable { return; }
      var next := items;
      if !Lists(items, id) {
        next := items + [Item(id, name, now)];
      }
      Save(Store(Some(id), next), write);
    }

    method UseWorkspace(id: string, valid: bool, readable: bool, write: WriteResult)
      modifies this
      ensures Value() == Step(old(Value()), Use(id, valid, readable, write))
    {
      if !valid || !readable || !Lists(items, id) { return; }
      Save(Store(Some(id), items), write);
    }

    method DeleteWorkspace(id: string, valid: bool, readable: bool, write: WriteResult)
      modifies this
      ensures Value() == Step(old(Value()), Delete(id, valid, readable, write))
    {
      if !valid || !readable { return; }
      var next := Store(current, Without(items, id));
      if next.current == Some(id) {
        next := next.(current := if next.items == [] then None else Some(next.items[0].id));
      }
      Save(next, write);
    }

    method HydrateAfterLogin(raws: seq<RawItem>, now: int, readable: bool, write: WriteResult)
      modifies this
      ensures Value() == Step(old(Value()), Hydrate(raws, now, readable, write))
    {
      var list := NormalizeAll(raws, now);
      if list == [] { return; }
      var previous := if readable then Some(Value()) else None;
      Save(Hydrated(previous, list), write);
    }
  }

  // ---------------------------------------------------------------- what every run keeps

  /** A current workspace exactly when there are any, and then a listed one. */
  predicate Consistent(s: Store) {
    && (s.current.None? <==> s.items == [])
    && (s.current.Some? ==> Lists(s.items, s.current.value))
  }

  /** Deleting works piece by piece, so what is left keeps its order. */
  lemma {:induction false} WithoutAppend(a: seq<Item>, b: seq<Item>, id: string)
    ensures Without(a + b, id) == Without(a, id) + Without(b, id)
    decreases |a|
  {
    if a == [] {
      assert a + b == b;
    } else {
      assert (a + b)[1..] == a[1..] + b;
      WithoutAppend(a[1..], b, id);
    }
  }

  /** Deleting leaves every other workspace and none of the deleted id. */
  lemma {:induction false} WithoutIs(items: seq<Item>, id: string, other: string)
    ensures Lists(Without(items, id), other) <==> other != id && Lists(items, other)
    ensures !Lists(items, id) ==> Without(items, id) == items
  {
    if items != [] {
      WithoutIs(items[1..], id, other);
      ListsCons(items[0], items[1..], other);
      ListsCons(items[0], items[1..], id);
      assert items == [items[0]] + items[1..];
      if items[0].id != id {
        ListsCons(items[0], Without(items[1..], id), other);
      }
    }
  }

  lemma ListsCons(x: Item, rest: seq<Item>, id: string)
    ensures Lists([x] + rest, id) <==> x.id == id || Lists(rest, id)
  {
    var all := [x] + rest;
    if x.id == id {
      assert all[0].id == id;
    }
    if i :| 0 <= i < |rest| && rest[i].id == id {
      assert all[i + 1].id == id;
    }
    if i :| 0 <= i < |all| && all[i].id == id {
      assert i > 0 ==> rest[i - 1].id == id;
    }
  }

  lemma AddKeeps(s: Store, id: string, name: Option<string>, now: int)
    ensures Consistent(Added(s, id, name, now)) && Added(s, id, name, now).current == Some(id)
    ensures s.items <= Added(s, id, name, now).items
    ensures forall other :: Lists(Added(s, id, name, now).items, other) <==> other == id || Lists(s.items, other)
    ensures Added(Added(s, id, name, now), id, name, now) == Added(s, id, name, now)
  {
    var next := Added(s, id, name, now).items;
    if !Lists(s.items, id) {
      assert next[|s.items|].id == id;
    }
    assert Lists(next, id) && next != [];
    forall other ensures Lists(next, other) <==> other == id || Lists(s.items, other) {
      if i :| 0 <= i < |s.items| && s.items[i].id == other {
        assert next[i].id == other;
      }
    }
  }

  lemma DeleteKeeps(s: Store, id: string)
    requires Consistent(s)
    ensures Consistent(Deleted(s, id)) && !Lists(Deleted(s, id).items, id)
    ensures s.current.Some? && s.current.value != id ==> Deleted(s, id).current == s.current
    ensures s.current == Some(id) && Deleted(s, id).items != [] ==>
              Deleted(s, id).current == Some(Deleted(s, id).items[0].id)
  {
    WithoutIs(s.items, id, id);
    var next := Deleted(s, id);
    if s.current.Some? && s.current.value != id {
      WithoutIs(s.items, id, s.current.value);
    } else if next.items != [] {
      assert next.items[0].id == next.items[0].id;
      assert Lists(next.items, next.items[0].id);
    }
  }

  lemma HydrateKeeps(previous: Option<Store>, items: seq<Item>)
    requires items != []
    ensures Consistent(Hydrated(previous, items)) && Hydrated(previous, items).items == items
    ensures Hydrated(previous, items).current
         == if previous.Some? && previous.value.current.Some? && Lists(items, previous.value.current.value)
            then previous.value.current else Some(items[0].id)
  {
    assert items[0].id == items[0].id;
    assert Lists(items, items[0].id);
  }

  lemma {:induction false} NormalizeAppend(a: seq<RawItem>, b: seq<RawItem>, now: int)
    ensures NormalizeAll(a + b, now) == NormalizeAll(a, now) + NormalizeAll(b, now)
    decreases |a|
  {
    if a == [] {
      assert a + b == b;
    } else {
      assert (a + b)[1..] == a[1..] + b;
      NormalizeAppend(a[1..], b, now);
      var first := Normalize(a[0], now);
      Associative(if first.Some? then [first.value] else [], NormalizeAll(a[1..], now), NormalizeAll(b, now));
    }
  }

  /**
   A listed workspace gets its workspace id or, where that is missing, its id; an empty id is none. The name is
   the server's, and so is the time, or else now.
   */
  lemma NormalizedOne(raw: RawItem, now: int)
    ensures var got := NormalizeAll([raw], now);
            match (raw.workspaceId, raw.id)
            case (Some(first), _) => if first == "" then got == [] else |got| == 1 && got[0].id == first
            case (None, Some(second)) => if second == "" then got == [] else |got| == 1 && got[0].id == second
            case (None, None) => got == []
    ensures forall item :: item in NormalizeAll([raw], now) ==>
              && item.name == raw.name
              && (raw.createdAt == None ==> item.createdAt == now)
              && (raw.createdAt.Some? ==> item.createdAt == raw.createdAt.value)
  {
    assert [raw][1..] == [];
  }

  /** A command that cannot read, check or find what it needs, or whose write does not start, changes nothing. */
  lemma RefusedCommandsChangeNothing(s: Store, op: Op)
    ensures op.write.Untouched? ==> Step(s, op) == s
    ensures op.write.Truncated? ==> Step(s, op) == s || Step(s, op) == EMPTY
    ensures !op.Hydrate? && !op.readable ==> Step(s, op) == s
    ensures (op.Use? || op.Delete?) && !op.valid ==> Step(s, op) == s
    ensures op.Use? && !Lists(s.items, op.id) ==> Step(s, op) == s
    ensures op.Hydrate? && NormalizeAll(op.raws, op.now) == [] ==> Step(s, op) == s
  {
  }

  /** Adding appends the workspace it is given, once; using one selects it and leaves the list alone. */
  lemma WrittenCommandsDo(s: Store, op: Op)
    requires op.write.Written? && op.readable
    ensures op.Add? ==> Step(s, op).current == Some(op.id)
    ensures op.Add? && Lists(s.items, op.id) ==> Step(s, op).items == s.items
    ensures op.Add? && !Lists(s.items, op.id) ==>
      && |Step(s, op).items| == |s.items| + 1 && Step(s, op).items[..|s.items|] == s.items
      && var item := Step(s, op).items[|s.items|];
         item.id == op.id && item.name == op.name && item.createdAt == op.now
    ensures op.Use? && op.valid && Lists(s.items, op.id) ==>
      Step(s, op).current == Some(op.id) && Step(s, op).items == s.items
  {
  }

  /** From the empty store, every run keeps it, whatever the server lists and however writes fail. */
  lemma {:induction false} RunsAreConsistent(ops: seq<Op>)
    ensures Consistent(Run(ops))
    decreases |ops|
  {
    if ops != [] {
      RunsAreConsistent(ops[..|ops| - 1]);
      var s := Run(ops[..|ops| - 1]);
      match ops[|ops| - 1] {
        case Add(id, name, now, _, _) => AddKeeps(s, id, name, now);
        case Use(id, _, _, _) =>
        case Delete(id, _, _, _) => DeleteKeeps(s, id);
        case Hydrate(raws, now, readable, _) =>
          if NormalizeAll(raws, now) != [] {
            HydrateKeeps(if readable then Some(s) else None, NormalizeAll(raws, now));
          }
      }
    }
  }
}
