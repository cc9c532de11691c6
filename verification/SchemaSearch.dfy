/**
 Model of scripts/check_openapi_errors.py: the depth-first search that decides whether a schema
 node leads to ErrorBody, over a schema table that may be cyclic. One `seen` set is shared by
 the whole search and updated in place.
 */
module SchemaSearch {

  /** A parsed JSON value. `ref` is "" when the object has no "$ref", `allOf` is [] when it has none. */
  datatype Json = Object(ref: string, allOf: seq<Json>) | Other

  type Node = j: Json | j.Object? witness Object("", [])
  type Table = map<string, Json>

  const LOCAL_PREFIX := "#/components/schemas/"
  const TARGET_SUFFIX := "/ErrorBody"

  predicate EndsWith(s: string, suffix: string) {
    |suffix| <= |s| && s[|s| - |suffix|..] == suffix
  }

  /** The part of `s` after its last slash; all of `s` when it has none. */
  function LastSegment(s: string): string {
    if '/' in s then LastSegment(s[1..]) else s
  }

  predicate IsTarget(n: Node) {
    EndsWith(n.ref, TARGET_SUFFIX)
  }

  predicate IsLocal(n: Node) {
    LOCAL_PREFIX <= n.ref
  }

  function Name(n: Node): string {
    LastSegment(n.ref)
  }

  predicate Resolves(name: string, schemas: Table) {
    name in schemas && schemas[name].Object?
  }

  // ---------------------------------------------------------------- the search

  /** The answer, and `seen` afterwards. */
  function Search(n: Node, schemas: Table, seen: set<string>): (r: (bool, set<string>))
    ensures seen <= r.1
    decreases schemas.Keys - seen, n
  {
    if IsTarget(n) then (true, seen)
    else if IsLocal(n) then
      if Name(n) in seen then (false, seen)
      else if Resolves(Name(n), schemas) then Search(schemas[Name(n)], schemas, seen + {Name(n)})
      else SearchAll(n.allOf, schemas, seen + {Name(n)})
    else SearchAll(n.allOf, schemas, seen)
  }

  function SearchAll(branches: seq<Json>, schemas: Table, seen: set<string>): (r: (bool, set<string>))
    ensures seen <= r.1
    decreases schemas.Keys - seen, branches
  {
    if branches == [] then (false, seen)
    else if branches[0].Other? then SearchAll(branches[1..], schemas, seen)
    else
      var r := Search(branches[0], schemas, seen);
      if r.0 then r else SearchAll(branches[1..], schemas, r.1)
  }

  class Seen {
    var names: set<string>

    constructor ()
      ensures names == {}
    {
      names := {};
    }
  }

  method SchemaUsesErrorbody(n: Node, schemas: Table, seen: Seen) returns (found: bool)
    modifies seen
    ensures (found, seen.names) == Search(n, schemas, old(seen.names))
    decreases schemas.Keys - seen.names, n
  {
    if IsTarget(n) {
      return true;
    }
    if IsLocal(n) {
      var name := Name(n);
      if name in seen.names {
        return false;
      }
      seen.names := seen.names + {name};
      if Resolves(name, schemas) {
        found := SchemaUsesErrorbody(schemas[name], schemas, seen);
        return;
      }
    }
    ghost var goal := SearchAll(n.allOf, schemas, seen.names);
    for i := 0 to |n.allOf|
      invariant old(seen.names) <= seen.names
      invariant goal == SearchAll(n.allOf[i..], schemas, seen.names)
    {
      var branch := n.allOf[i];
      if branch.Object? {
        found := SchemaUsesErrorbody(branch, schemas, seen);
        if found {
          return;
        }
      }
    }
    found := false;
  }

  /** The entry point: a fresh `seen`. */
  method UsesErrorbody(n: Node, schemas: Table) returns (found: bool)
    ensures found == Search(n, schemas, {}).0
    ensures PlainReaches(n, schemas) ==> found
    ensures found ==> DocReaches(n, schemas)
  {
    var seen := new Seen();
    found := SchemaUsesErrorbody(n, schemas, seen);
    SearchIsSandwiched(n, schemas);
  }

  // ---------------------------------------------------------------- reachability

  /** One step as the docstring has it: along a resolved local reference, or into an allOf branch. */
  predicate DocEdge(a: Node, b: Node, schemas: Table) {
    || (IsLocal(a) && Resolves(Name(a), schemas) && b == schemas[Name(a)])
    || b in a.allOf
  }

  /** As DocEdge, but a node with a local reference has no branches. */
  predicate PlainEdge(a: Node, b: Node, schemas: Table) {
    if IsLocal(a) then Resolves(Name(a), schemas) && b == schemas[Name(a)]
    else b in a.allOf
  }

  ghost predicate DocPath(path: seq<Node>, schemas: Table) {
    && path != []
    && IsTarget(path[|path| - 1])
    && forall i :: 0 <= i < |path| - 1 ==> DocEdge(path[i], path[i + 1], schemas)
  }

  ghost predicate PlainPath(path: seq<Node>, schemas: Table) {
    && path != []
    && IsTarget(path[|path| - 1])
    && forall i :: 0 <= i < |path| - 1 ==> PlainEdge(path[i], path[i + 1], schemas)
  }

  ghost predicate DocReaches(n: Node, schemas: Table) {
    exists path :: DocPath(path, schemas) && path[0] == n
  }

  ghost predicate PlainReaches(n: Node, schemas: Table) {
    exists path :: PlainPath(path, schemas) && path[0] == n
  }

  lemma DocStep(a: Node, b: Node, schemas: Table)
    requires DocEdge(a, b, schemas) && DocReaches(b, schemas)
    ensures DocReaches(a, schemas)
  {
    var path :| DocPath(path, schemas) && path[0] == b;
    assert DocPath([a] + path, schemas);
  }

  lemma DocFirstStep(a: Node, schemas: Table)
    requires DocReaches(a, schemas)
    ensures IsTarget(a) || exists b: Node :: DocEdge(a, b, schemas) && DocReaches(b, schemas)
  {
    var path :| DocPath(path, schemas) && path[0] == a;
    if |path| > 1 {
      assert DocEdge(path[0], path[0 + 1], schemas) && DocPath(path[1..], schemas);
    }
  }

  lemma PlainStep(a: Node, b: Node, schemas: Table)
    requires PlainEdge(a, b, schemas) && PlainReaches(b, schemas)
    ensures PlainReaches(a, schemas)
  {
    var path :| PlainPath(path, schemas) && path[0] == b;
    assert PlainPath([a] + path, schemas);
  }

  lemma TargetReaches(n: Node, schemas: Table)
    requires IsTarget(n)
    ensures PlainReaches(n, schemas) && DocReaches(n, schemas)
  {
    assert PlainPath([n], schemas) && DocPath([n], schemas);
  }

  // ---------------------------------------------------------------- soundness

  lemma {:induction false} SearchIsSound(n: Node, schemas: Table, seen: set<string>)
    requires Search(n, schemas, seen).0
    ensures DocReaches(n, schemas)
    decreases schemas.Keys - seen, n
  {
    if IsTarget(n) {
      TargetReaches(n, schemas);
    } else if IsLocal(n) && Resolves(Name(n), schemas) {
      SearchIsSound(schemas[Name(n)], schemas, seen + {Name(n)});
      DocStep(n, schemas[Name(n)], schemas);
    } else {
      var b := SearchAllIsSound(n.allOf, schemas, if IsLocal(n) then seen + {Name(n)} else seen);
      DocStep(n, b, schemas);
    }
  }

  lemma {:induction false} SearchAllIsSound(branches: seq<Json>, schemas: Table, seen: set<string>)
    returns (b: Node)
    requires SearchAll(branches, schemas, seen).0
    ensures b in branches && DocReaches(b, schemas)
    decreases schemas.Keys - seen, branches
  {
    if branches[0].Other? {
      b := SearchAllIsSound(branches[1..], schemas, seen);
    } else if Search(branches[0], schemas, seen).0 {
      b := branches[0];
      SearchIsSound(b, schemas, seen);
    } else {
      b := SearchAllIsSound(branches[1..], schemas, Search(branches[0], schemas, seen).1);
    }
  }

  // ---------------------------------------------------------------- completeness

  /**
   Nothing below `n`, as far as its own text goes, is a target, and every local name met there is in
   `visited`.
   */
  predicate Settled(n: Json, visited: set<string>) {
    n.Object? ==>
      && !IsTarget(n)
      && if IsLocal(n) then Name(n) in visited
         else forall b :: b in n.allOf ==> Settled(b, visited)
  }

  /** The newly visited names are closed under successors. */
  ghost predicate Closed(names: set<string>, schemas: Table, visited: set<string>) {
    forall m :: m in names && Resolves(m, schemas) ==> Settled(schemas[m], visited)
  }

  lemma {:induction false} SettledIsMonotone(n: Json, small: set<string>, large: set<string>)
    requires Settled(n, small) && small <= large
    ensures Settled(n, large)
  {
    if n.Object? && !IsLocal(n) {
      forall b | b in n.allOf ensures Settled(b, large) {
        SettledIsMonotone(b, small, large);
      }
    }
  }

  lemma ClosedIsMonotone(names: set<string>, schemas: Table, small: set<string>, large: set<string>)
    requires Closed(names, schemas, small) && small <= large
    ensures Closed(names, schemas, large)
  {
    forall m | m in names && Resolves(m, schemas) ensures Settled(schemas[m], large) {
      SettledIsMonotone(schemas[m], small, large);
    }
  }

  /** A search that answers no leaves its node settled and its new names closed. */
  lemma {:induction false} FailedSearchIsClosed(n: Node, schemas: Table, seen: set<string>)
    requires !Search(n, schemas, seen).0
    ensures Settled(n, Search(n, schemas, seen).1)
    ensures Closed(Search(n, schemas, seen).1 - seen, schemas, Search(n, schemas, seen).1)
    decreases schemas.Keys - seen, n
  {
    var visited := Search(n, schemas, seen).1;
    if IsLocal(n) {
      if Name(n) !in seen {
        if Resolves(Name(n), schemas) {
          FailedSearchIsClosed(schemas[Name(n)], schemas, seen + {Name(n)});
        } else {
          FailedSearchAllIsClosed(n.allOf, schemas, seen + {Name(n)});
        }
        assert visited - seen == (visited - (seen + {Name(n)})) + {Name(n)};
      }
    } else {
      FailedSearchAllIsClosed(n.allOf, schemas, seen);
    }
  }

  lemma {:induction false} FailedSearchAllIsClosed(branches: seq<Json>, schemas: Table, seen: set<string>)
    requires !SearchAll(branches, schemas, seen).0
    ensures forall b :: b in branches ==> Settled(b, SearchAll(branches, schemas, seen).1)
    ensures Closed(SearchAll(branches, schemas, seen).1 - seen, schemas, SearchAll(branches, schemas, seen).1)
    decreases schemas.Keys - seen, branches
  {
    if branches != [] {
      var visited := SearchAll(branches, schemas, seen).1;
      if branches[0].Other? {
        FailedSearchAllIsClosed(branches[1..], schemas, seen);
      } else {
        var mid := Search(branches[0], schemas, seen).1;
        FailedSearchIsClosed(branches[0], schemas, seen);
        FailedSearchAllIsClosed(branches[1..], schemas, mid);
        SettledIsMonotone(branches[0], mid, visited);
        ClosedIsMonotone(mid - seen, schemas, mid, visited);
      }
      assert branches == [branches[0]] + branches[1..];
    }
  }

  /** From a settled node, plain edges lead to settled nodes only, so never to a target. */
  lemma {:induction false} SettledPath(path: seq<Node>, schemas: Table, visited: set<string>)
    requires path != [] && Settled(path[0], visited) && Closed(visited, schemas, visited)
    requires forall i :: 0 <= i < |path| - 1 ==> PlainEdge(path[i], path[i + 1], schemas)
    ensures Settled(path[|path| - 1], visited)
    decreases |path|
  {
    if |path| > 1 {
      assert PlainEdge(path[0], path[0 + 1], schemas);
      SettledPath(path[1..], schemas, visited);
    }
  }

  /** For every table and every node: ErrorBody plainly reachable ==> found ==> reachable at all. */
  lemma SearchIsSandwiched(n: Node, schemas: Table)
    ensures PlainReaches(n, schemas) ==> Search(n, schemas, {}).0
    ensures Search(n, schemas, {}).0 ==> DocReaches(n, schemas)
  {
    if Search(n, schemas, {}).0 {
      SearchIsSound(n, schemas, {});
    } else {
      var visited := Search(n, schemas, {}).1;
      FailedSearchIsClosed(n, schemas, {});
      assert visited - {} == visited;
      if PlainReaches(n, schemas) {
        var path :| PlainPath(path, schemas) && path[0] == n;
        SettledPath(path, schemas, visited);
        assert false;
      }
    }
  }

  // ---------------------------------------------------------------- when the docstring holds

  /** `n` reaches ErrorBody plainly if it reaches it at all. */
  ghost predicate Faithful(n: Node, schemas: Table) {
    DocReaches(n, schemas) ==> PlainReaches(n, schemas)
  }

  ghost predicate AnswersDocstring(n: Node, schemas: Table) {
    Search(n, schemas, {}).0 <==> DocReaches(n, schemas)
  }

  /** No local reference below `n` carries allOf branches: a scan of the text settles it. */
  predicate NoBranchesBesideRefs(n: Json) {
    n.Object? ==>
      && (IsLocal(n) ==> forall b :: b in n.allOf ==> b.Other?)
      && forall b :: b in n.allOf ==> NoBranchesBesideRefs(b)
  }

  lemma {:induction false} PathStaysPlain(path: seq<Node>, schemas: Table)
    requires DocPath(path, schemas) && NoBranchesBesideRefs(path[0])
    requires forall m :: m in schemas ==> NoBranchesBesideRefs(schemas[m])
    ensures PlainPath(path, schemas)
    decreases |path|
  {
    if |path| > 1 {
      assert DocEdge(path[0], path[0 + 1], schemas);
      assert DocPath(path[1..], schemas);
      PathStaysPlain(path[1..], schemas);
      forall i | 0 <= i < |path| - 1 ensures PlainEdge(path[i], path[i + 1], schemas) {
        if i > 0 {
          assert path[i] == path[1..][i - 1] && path[i + 1] == path[1..][i];
        }
      }
    }
  }

  /** With no branches beside local references the search is exactly the docstring, cycles or not. */
  lemma ExactWithoutBranchesBesideRefs(n: Node, schemas: Table)
    requires NoBranchesBesideRefs(n)
    requires forall m :: m in schemas ==> NoBranchesBesideRefs(schemas[m])
    ensures AnswersDocstring(n, schemas)
  {
    SearchIsSandwiched(n, schemas);
    if DocReaches(n, schemas) {
      var path :| DocPath(path, schemas) && path[0] == n;
      PathStaysPlain(path, schemas);
    }
  }

  /** `x` searched after its sibling `p`. */
  function Beside(p: Node, x: Node): Node {
    Object("", [p, x])
  }

  lemma PlainFirstStep(a: Node, schemas: Table)
    requires PlainReaches(a, schemas)
    ensures IsTarget(a) || exists b: Node :: PlainEdge(a, b, schemas) && PlainReaches(b, schemas)
  {
    var path :| PlainPath(path, schemas) && path[0] == a;
    if |path| > 1 {
      assert PlainEdge(path[0], path[0 + 1], schemas) && PlainPath(path[1..], schemas);
    }
  }

  lemma BesideReaches(p: Node, x: Node, schemas: Table)
    ensures DocReaches(Beside(p, x), schemas) <==> DocReaches(p, schemas) || DocReaches(x, schemas)
    ensures PlainReaches(Beside(p, x), schemas) <==> PlainReaches(p, schemas) || PlainReaches(x, schemas)
  {
    var n := Beside(p, x);
    assert !IsTarget(n) && !IsLocal(n);
    assert p in n.allOf && x in n.allOf;
    if DocReaches(p, schemas) { DocStep(n, p, schemas); }
    if DocReaches(x, schemas) { DocStep(n, x, schemas); }
    if PlainReaches(p, schemas) { PlainStep(n, p, schemas); }
    if PlainReaches(x, schemas) { PlainStep(n, x, schemas); }
    if DocReaches(n, schemas) { DocFirstStep(n, schemas); }
    if PlainReaches(n, schemas) { PlainFirstStep(n, schemas); }
  }

  /** A local reference to nothing in the table. */
  predicate Dangling(n: Node, schemas: Table) {
    !IsTarget(n) && IsLocal(n) && !Resolves(Name(n), schemas)
  }

  /** No dangling reference below `n` leads into branches: it has none, or its name has been seen. */
  predicate Covered(n: Json, schemas: Table, seen: set<string>) {
    n.Object? ==>
      && (Dangling(n, schemas) ==> Name(n) in seen || forall b :: b in n.allOf ==> b.Other?)
      && forall b :: b in n.allOf ==> Covered(b, schemas, seen)
  }

  lemma {:induction false} NoNodesNoTarget(branches: seq<Json>, schemas: Table, seen: set<string>)
    requires forall b :: b in branches ==> b.Other?
    ensures !SearchAll(branches, schemas, seen).0
    decreases |branches|
  {
    if branches != [] {
      NoNodesNoTarget(branches[1..], schemas, seen);
    }
  }

  /** A covered search follows plain paths only. */
  lemma {:induction false} CoveredSearchIsPlain(n: Node, schemas: Table, seen: set<string>)
    requires Search(n, schemas, seen).0 && Covered(n, schemas, seen)
    requires forall m :: m in schemas ==> Covered(schemas[m], schemas, seen)
    ensures PlainReaches(n, schemas)
    decreases schemas.Keys - seen, n
  {
    if IsTarget(n) {
      TargetReaches(n, schemas);
    } else if IsLocal(n) {
      var more := seen + {Name(n)};
      forall m | m in schemas ensures Covered(schemas[m], schemas, more) {
        CoveredIsMonotone(schemas[m], schemas, seen, more);
      }
      if Dangling(n, schemas) {
        NoNodesNoTarget(n.allOf, schemas, more);
        assert false;
      }
      CoveredSearchIsPlain(schemas[Name(n)], schemas, more);
      PlainStep(n, schemas[Name(n)], schemas);
    } else {
      var b := CoveredSearchAllIsPlain(n.allOf, schemas, seen);
      PlainStep(n, b, schemas);
    }
  }

  lemma {:induction false} CoveredSearchAllIsPlain(branches: seq<Json>, schemas: Table, seen: set<string>)
    returns (b: Node)
    requires SearchAll(branches, schemas, seen).0
    requires forall b :: b in branches ==> Covered(b, schemas, seen)
    requires forall m :: m in schemas ==> Covered(schemas[m], schemas, seen)
    ensures b in branches && PlainReaches(b, schemas)
    decreases schemas.Keys - seen, branches
  {
    if branches[0].Other? {
      b := CoveredSearchAllIsPlain(branches[1..], schemas, seen);
    } else if Search(branches[0], schemas, seen).0 {
      b := branches[0];
      CoveredSearchIsPlain(b, schemas, seen);
    } else {
      var mid := Search(branches[0], schemas, seen).1;
      forall x | x in branches[1..] ensures Covered(x, schemas, mid) {
        CoveredIsMonotone(x, schemas, seen, mid);
      }
      forall m | m in schemas ensures Covered(schemas[m], schemas, mid) {
        CoveredIsMonotone(schemas[m], schemas, seen, mid);
      }
      b := CoveredSearchAllIsPlain(branches[1..], schemas, mid);
    }
  }

  lemma {:induction false} CoveredIsMonotone(n: Json, schemas: Table, small: set<string>, large: set<string>)
    requires Covered(n, schemas, small) && small <= large
    ensures Covered(n, schemas, large)
  {
    if n.Object? {
      forall b | b in n.allOf ensures Covered(b, schemas, large) {
        CoveredIsMonotone(b, schemas, small, large);
      }
    }
  }

  /**
   If no dangling reference of the document has branches, the search answers plain reachability, no more and
   no less; and the docstring is met exactly if the node is faithful.
   */
  lemma SearchIsPlainReachability(n: Node, schemas: Table)
    requires Covered(n, schemas, {}) && forall m :: m in schemas ==> Covered(schemas[m], schemas, {})
    ensures Search(n, schemas, {}).0 <==> PlainReaches(n, schemas)
    ensures AnswersDocstring(n, schemas) <==> Faithful(n, schemas)
  {
    SearchIsSandwiched(n, schemas);
    if Search(n, schemas, {}).0 {
      CoveredSearchIsPlain(n, schemas, {});
    }
  }

  // A sibling that uses up every dangling name of a document.

  predicate DanglingLeaves(leaves: seq<Json>, schemas: Table) {
    forall l :: l in leaves ==> l.Object? && l.allOf == [] && Dangling(l, schemas)
  }

  function NamesOf(leaves: seq<Json>): set<string> {
    if leaves == [] then {}
    else (if leaves[0].Object? then {Name(leaves[0])} else {}) + NamesOf(leaves[1..])
  }

  lemma {:induction false} NamesOfAppend(a: seq<Json>, b: seq<Json>)
    ensures NamesOf(a + b) == NamesOf(a) + NamesOf(b)
  {
    if a == [] {
      assert a + b == b;
    } else {
      NamesOfAppend(a[1..], b);
      assert (a + b)[1..] == a[1..] + b;
    }
  }

  lemma {:induction false} LeavesOf(n: Json, schemas: Table) returns (leaves: seq<Json>)
    ensures DanglingLeaves(leaves, schemas) && Covered(n, schemas, NamesOf(leaves))
    decreases n, 1
  {
    leaves := [];
    if n.Object? {
      leaves := LeavesOfAll(n.allOf, schemas);
      if Dangling(n, schemas) {
        var below := leaves;
        leaves := [Object(n.ref, [])] + below;
        assert leaves[1..] == below;
        forall b | b in n.allOf ensures Covered(b, schemas, NamesOf(leaves)) {
          CoveredIsMonotone(b, schemas, NamesOf(below), NamesOf(leaves));
        }
      }
    }
  }

  lemma {:induction false} LeavesOfAll(nodes: seq<Json>, schemas: Table) returns (leaves: seq<Json>)
    ensures DanglingLeaves(leaves, schemas)
    ensures forall n :: n in nodes ==> Covered(n, schemas, NamesOf(leaves))
    decreases nodes, 0
  {
    leaves := [];
    if nodes != [] {
      var first := LeavesOf(nodes[0], schemas);
      var rest := LeavesOfAll(nodes[1..], schemas);
      leaves := first + rest;
      NamesOfAppend(first, rest);
      forall n | n in nodes ensures Covered(n, schemas, NamesOf(leaves)) {
        if n == nodes[0] {
          CoveredIsMonotone(n, schemas, NamesOf(first), NamesOf(leaves));
        } else {
          assert n in nodes[1..];
          CoveredIsMonotone(n, schemas, NamesOf(rest), NamesOf(leaves));
        }
      }
    }
  }

  lemma {:induction false} LeavesOfTable(names: set<string>, schemas: Table) returns (leaves: seq<Json>)
    requires names <= schemas.Keys
    ensures DanglingLeaves(leaves, schemas)
    ensures forall m :: m in names ==> Covered(schemas[m], schemas, NamesOf(leaves))
    decreases names
  {
    leaves := [];
    if names != {} {
      var m :| m in names;
      var first := LeavesOf(schemas[m], schemas);
      var rest := LeavesOfTable(names - {m}, schemas);
      leaves := first + rest;
      NamesOfAppend(first, rest);
      forall k | k in names ensures Covered(schemas[k], schemas, NamesOf(leaves)) {
        if k == m {
          CoveredIsMonotone(schemas[k], schemas, NamesOf(first), NamesOf(leaves));
        } else {
          CoveredIsMonotone(schemas[k], schemas, NamesOf(rest), NamesOf(leaves));
        }
      }
    }
  }

  lemma LeafIsConsumed(leaf: Node, schemas: Table, seen: set<string>)
    requires Dangling(leaf, schemas) && leaf.allOf == []
    ensures Search(leaf, schemas, seen) == (false, seen + {Name(leaf)})
  {
    if Name(leaf) in seen {
      assert seen + {Name(leaf)} == seen;
    }
  }

  lemma {:induction false} LeavesAreConsumed(leaves: seq<Json>, schemas: Table, seen: set<string>)
    requires DanglingLeaves(leaves, schemas)
    ensures SearchAll(leaves, schemas, seen) == (false, seen + NamesOf(leaves))
    decreases |leaves|
  {
    if leaves == [] {
      assert seen + NamesOf(leaves) == seen;
    } else {
      LeafIsConsumed(leaves[0], schemas, seen);
      LeavesAreConsumed(leaves[1..], schemas, seen + {Name(leaves[0])});
      assert seen + NamesOf(leaves) == seen + {Name(leaves[0])} + NamesOf(leaves[1..]);
    }
  }

  lemma LeavesReachNothing(leaves: seq<Json>, schemas: Table)
    requires DanglingLeaves(leaves, schemas)
    ensures !DocReaches(Object("", leaves), schemas)
  {
    var p := Object("", leaves);
    assert !IsTarget(p) && !IsLocal(p);
    if DocReaches(p, schemas) {
      DocFirstStep(p, schemas);
      var leaf :| DocEdge(p, leaf, schemas) && DocReaches(leaf, schemas);
      DocFirstStep(leaf, schemas);
    }
  }

  /**
   Exactly when the docstring is met: the answer about `x` is the docstring's after every faithful
   sibling if and only if `x` is faithful. An unfaithful `x`, one that gets to ErrorBody only through
   the branches beside a local reference, has a sibling after which the search misses it.
   */
  lemma ExactInEveryContext(x: Node, schemas: Table)
    ensures (forall p: Node :: Faithful(p, schemas) ==> AnswersDocstring(Beside(p, x), schemas))
            <==> Faithful(x, schemas)
  {
    if Faithful(x, schemas) {
      forall p: Node | Faithful(p, schemas) ensures AnswersDocstring(Beside(p, x), schemas) {
        BesideReaches(p, x, schemas);
        SearchIsSandwiched(Beside(p, x), schemas);
      }
    } else {
      var p := SiblingThatHides(x, schemas);
      assert Faithful(p, schemas) && !AnswersDocstring(Beside(p, x), schemas);
    }
  }

  lemma SiblingThatHides(x: Node, schemas: Table) returns (p: Node)
    requires !Faithful(x, schemas)
    ensures Faithful(p, schemas) && !AnswersDocstring(Beside(p, x), schemas)
  {
    var own := LeavesOf(x, schemas);
    var table := LeavesOfTable(schemas.Keys, schemas);
    var leaves := own + table;
    p := Object("", leaves);
    var names := NamesOf(leaves);
    NamesOfAppend(own, table);
    LeavesAreConsumed(leaves, schemas, {});
    assert {} + names == names;
    LeavesReachNothing(leaves, schemas);
    CoveredIsMonotone(x, schemas, NamesOf(own), names);
    forall m | m in schemas ensures Covered(schemas[m], schemas, names) {
      CoveredIsMonotone(schemas[m], schemas, NamesOf(table), names);
    }
    BesideReaches(p, x, schemas);
    if Search(Beside(p, x), schemas, {}).0 {
      BesideSearch(p, x, schemas);
      CoveredSearchIsPlain(x, schemas, names);
    }
  }

  lemma BesideSearch(p: Node, x: Node, schemas: Table)
    ensures var first := Search(p, schemas, {});
            Search(Beside(p, x), schemas, {}).0 == (first.0 || Search(x, schemas, first.1).0)
  {
    var first := Search(p, schemas, {});
    assert [p, x][1..] == [x];
    assert Search(Beside(p, x), schemas, {}) == SearchAll([p, x], schemas, {});
    assert SearchAll([x], schemas, first.1).0 == Search(x, schemas, first.1).0;
  }

  /** A dangling reference uses up its name, so the branches beside its next occurrence are skipped. */
  lemma DanglingNameHidesItsBranches(ref: string, target: Node, schemas: Table)
    requires IsTarget(target) && Dangling(Object(ref, []), schemas)
    ensures var first, second := Object(ref, []), Object(ref, [target]);
            && AnswersDocstring(second, schemas)
            && !AnswersDocstring(Beside(first, second), schemas)
  {
    var first, second := Object(ref, []), Object(ref, [target]);
    TargetReaches(target, schemas);
    DocStep(second, target, schemas);
    BesideReaches(first, second, schemas);
    LeafIsConsumed(first, schemas, {});
    BesideSearch(first, second, schemas);
    assert Search(target, schemas, {} + {Name(second)}).0;
    assert SearchAll(second.allOf, schemas, {} + {Name(second)}).0;
  }

  /** Such a document exists: the reference names no schema of the table. */
  lemma DanglingNameExists()
    ensures IsTarget(Object("#/components/schemas/ErrorBody", []))
    ensures Dangling(Object("#/components/schemas/Gone", []), map[])
  {
    var tail := "#/components/schemas/Gone"[15..];
    assert tail[0] == 'h' && TARGET_SUFFIX[0] == '/';
    assert "#/components/schemas/ErrorBody"[20..] == TARGET_SUFFIX;
  }

  /** A reference to a schema of the table. */
  function RefTo(name: string, branches: seq<Json>): Node {
    Object(LOCAL_PREFIX + name, branches)
  }

  lemma {:induction false} LastSegmentOf(prefix: string, name: string)
    requires '/' !in name
    ensures LastSegment(prefix + "/" + name) == name
    decreases |prefix|
  {
    var s := prefix + "/" + name;
    assert s[|prefix|] == '/';
    if prefix == "" {
      assert s[1..] == name;
    } else {
      LastSegmentOf(prefix[1..], name);
      assert s[1..] == prefix[1..] + "/" + name;
    }
  }

  lemma RefToIs(name: string, branches: seq<Json>)
    requires '/' !in name && name != "ErrorBody"
    ensures var n := RefTo(name, branches); IsLocal(n) && !IsTarget(n) && Name(n) == name
  {
    var ref := LOCAL_PREFIX + name;
    var prefix := LOCAL_PREFIX[..|LOCAL_PREFIX| - 1];
    assert ref == prefix + "/" + name;
    LastSegmentOf(prefix, name);
    if EndsWith(ref, TARGET_SUFFIX) {
      var before := ref[..|ref| - |TARGET_SUFFIX|];
      assert TARGET_SUFFIX == "/" + "ErrorBody";
      assert ref == before + "/" + "ErrorBody";
      LastSegmentOf(before, "ErrorBody");
    }
  }

  /** The branches beside a reference that resolves are never looked at, so the answer is not the docstring's. */
  lemma ResolvedRefHidesItsBranches(name: string, target: Node, schemas: Table)
    requires IsTarget(target) && '/' !in name && name != "ErrorBody"
    requires name in schemas && schemas[name] == Object("", [])
    ensures var n := RefTo(name, [target]);
            && DocReaches(n, schemas) && !Search(n, schemas, {}).0
            && !AnswersDocstring(n, schemas) && !Faithful(n, schemas)
  {
    var n := RefTo(name, [target]);
    RefToIs(name, [target]);
    TargetReaches(target, schemas);
    DocStep(n, target, schemas);
    assert !Search(schemas[name], schemas, {} + {name}).0;
    SearchIsSandwiched(n, schemas);
  }

  /** One such document. */
  lemma ResolvedRefExists()
    ensures var schemas, target := map["Base" := Object("", [])], Object("/ErrorBody", []);
            IsTarget(target) && !AnswersDocstring(RefTo("Base", [target]), schemas)
  {
    var schemas, target := map["Base" := Object("", [])], Object("/ErrorBody", []);
    assert EndsWith("/ErrorBody", TARGET_SUFFIX);
    assert "Base"[0] != "ErrorBody"[0];
    ResolvedRefHidesItsBranches("Base", target, schemas);
  }
}
