/**
 Collecting the action references of a workflow document (scripts/check_workflow_actions.py, _action_references).
 A YAML document may share nodes and contain cycles, so it is a graph of objects with identities; the collection is
 a worklist over it that visits every object once and does not look behind a "uses" key.
 */
module ActionReferences {
  datatype Value = Text(s: string) | Atom | Container(id: nat)

  datatype Key = Name(s: string) | OtherKey(n: int)

  /** A mapping's items are in insertion order and its keys are distinct. */
  datatype Node = Mapping(entries: seq<(Key, Value)>) | Listing(items: seq<Value>)

  type Graph = map<nat, Node>

  const USES := Name("uses")

  ghost predicate DistinctKeys(entries: seq<(Key, Value)>) {
    forall i, j :: 0 <= i < j < |entries| ==> entries[i].0 != entries[j].0
  }

  predicate Known(graph: Graph, value: Value) {
    value.Container? ==> value.id in graph
  }

  ghost predicate ClosedNode(graph: Graph, node: Node) {
    match node
    case Mapping(entries) => DistinctKeys(entries) && forall i :: 0 <= i < |entries| ==> Known(graph, entries[i].1)
    case Listing(items) => forall i :: 0 <= i < |items| ==> Known(graph, items[i])
  }

  /** Python objects only refer to objects. */
  ghost predicate Closed(graph: Graph) {
    forall id :: id in graph ==> ClosedNode(graph, graph[id])
  }

  // ----- What the collection is of -----

  /** The values looked at next: items, and entries other than under "uses". */
  function Children(node: Node): seq<Value> {
    match node
    case Mapping(entries) => OtherValues(entries)
    case Listing(items) => items
  }

  function OtherValues(entries: seq<(Key, Value)>): seq<Value> {
    if entries == [] then []
    else
      var before := OtherValues(entries[..|entries| - 1]);
      var last := entries[|entries| - 1];
      if last.0 == USES then before else before + [last.1]
  }

  predicate IsEdge(graph: Graph, a: nat, b: nat) {
    a in graph && Container(b) in Children(graph[a])
  }

  ghost predicate IsPath(graph: Graph, root: Value, path: seq<nat>) {
    && path != [] && Container(path[0]) == root
    && forall i :: 0 <= i < |path| - 1 ==> IsEdge(graph, path[i], path[i + 1])
  }

  /** Reachable from the root without passing through a "uses" entry. */
  ghost predicate Reachable(graph: Graph, root: Value, id: nat) {
    exists path :: IsPath(graph, root, path) && path[|path| - 1] == id
  }

  ghost predicate HasUses(node: Node) {
    node.Mapping? && exists i :: 0 <= i < |node.entries| && node.entries[i].0 == USES
  }

  predicate IsUse(node: Node, i: nat, reference: string) {
    && node.Mapping? && i < |node.entries| && node.entries[i].0 == USES
    && reference == match node.entries[i].1 { case Text(s) => s case _ => "" }
  }

  /** The reference a mapping makes: the text under "uses", or the empty string when that is no text. */
  ghost predicate Makes(node: Node, reference: string) {
    exists i :: IsUse(node, i, reference)
  }

  // ----- Reachability is closed under edges, and any closed set holds everything reachable -----

  lemma RootReachable(graph: Graph, id: nat)
    ensures Reachable(graph, Container(id), id)
  {
    assert IsPath(graph, Container(id), [id]);
  }

  lemma EdgeReachable(graph: Graph, root: Value, a: nat, b: nat)
    requires Reachable(graph, root, a) && IsEdge(graph, a, b)
    ensures Reachable(graph, root, b)
  {
    var path :| IsPath(graph, root, path) && path[|path| - 1] == a;
    assert IsPath(graph, root, path + [b]);
  }

  lemma ClosedSetHoldsPath(graph: Graph, root: Value, all: set<nat>, path: seq<nat>)
    requires IsPath(graph, root, path) && path[0] in all
    requires forall a, b :: a in all && IsEdge(graph, a, b) ==> b in all
    ensures path[|path| - 1] in all
  {
    if |path| > 1 {
      var n := |path| - 1;
      assert IsPath(graph, root, path[..n]);
      ClosedSetHoldsPath(graph, root, all, path[..n]);
      assert IsEdge(graph, path[n - 1], path[n]);
    }
  }

  // ----- The worklist -----

  /** Every container still to look at is known and reachable. */
  ghost predicate Pending(graph: Graph, root: Value, pending: seq<Value>) {
    forall i :: 0 <= i < |pending| && pending[i].Container? ==>
      pending[i].id in graph && Reachable(graph, root, pending[i].id)
  }

  predicate Covered(visited: set<nat>, pending: seq<Value>, id: nat) {
    id in visited || Container(id) in pending
  }

  /** What has been visited is reachable, and its children have been visited or are pending. */
  ghost predicate Explored(graph: Graph, root: Value, visited: set<nat>, pending: seq<Value>) {
    && (root.Container? ==> Covered(visited, pending, root.id))
    && (forall id :: id in visited ==> id in graph && Reachable(graph, root, id))
    && forall a, b :: a in visited && IsEdge(graph, a, b) ==> Covered(visited, pending, b)
  }

  /** One entry per visited mapping with a "uses" key, and no other. */
  ghost predicate Collected(graph: Graph, visited: set<nat>, references: seq<string>, owners: seq<nat>) {
    && |references| == |owners|
    && (forall k :: 0 <= k < |owners| ==> owners[k] in visited && owners[k] in graph && Makes(graph[owners[k]], references[k]))
    && (forall j, k :: 0 <= j < k < |owners| ==> owners[j] != owners[k])
    && forall id :: id in visited && id in graph && HasUses(graph[id]) ==> id in owners
  }

  lemma KnownChildren(graph: Graph, node: Node)
    requires ClosedNode(graph, node)
    ensures forall i :: 0 <= i < |Children(node)| ==> Known(graph, Children(node)[i])
  {
    if node.Mapping? {
      KnownValues(graph, node.entries);
    }
  }

  lemma {:induction false} KnownValues(graph: Graph, entries: seq<(Key, Value)>)
    requires forall i :: 0 <= i < |entries| ==> Known(graph, entries[i].1)
    ensures forall i :: 0 <= i < |OtherValues(entries)| ==> Known(graph, OtherValues(entries)[i])
  {
    if entries != [] {
      KnownValues(graph, entries[..|entries| - 1]);
    }
  }

  /** Looking at one mapping: its other values become pending, and its "uses" entry, if any, becomes a reference. */
  method VisitMapping(node: Node, pending: seq<Value>, references: seq<string>)
    returns (nowPending: seq<Value>, nowReferences: seq<string>)
    requires node.Mapping? && DistinctKeys(node.entries)
    ensures nowPending == pending + Children(node)
    ensures !HasUses(node) ==> nowReferences == references
    ensures HasUses(node) ==>
      |nowReferences| == |references| + 1 && nowReferences[..|references|] == references
      && Makes(node, nowReferences[|references|])
  {
    nowPending, nowReferences := pending, references;
    var entries := node.entries;
    for i := 0 to |entries|
      invariant nowPending == pending + OtherValues(entries[..i])
      invariant (forall j :: 0 <= j < i ==> entries[j].0 != USES) ==> nowReferences == references
      invariant (exists j :: 0 <= j < i && entries[j].0 == USES) ==>
        |nowReferences| == |references| + 1 && nowReferences[..|references|] == references
        && Makes(node, nowReferences[|references|])
    {
      var (key, child) := entries[i];
      assert entries[..i + 1][..i] == entries[..i];
      if key == USES {
        var reference := if child.Text? then child.s else "";
        assert IsUse(node, i, reference);
        nowReferences := nowReferences + [reference];
      } else {
        nowPending := nowPending + [child];
      }
    }
    assert entries[..|entries|] == entries;
  }

  lemma VisitExplores(graph: Graph, root: Value, visited: set<nat>, pending: seq<Value>, id: nat)
    requires Closed(graph) && pending != [] && pending[0] == Container(id)
    requires Pending(graph, root, pending) && Explored(graph, root, visited, pending)
    ensures id in graph
    ensures Pending(graph, root, pending[1..] + Children(graph[id]))
    ensures Explored(graph, root, visited + {id}, pending[1..] + Children(graph[id]))
  {
    hide Reachable, Children;
    var children := Children(graph[id]);
    var rest := pending[1..];
    KnownChildren(graph, graph[id]);
    assert pending == [pending[0]] + rest;
    forall i | 0 <= i < |rest + children| && (rest + children)[i].Container?
      ensures (rest + children)[i].id in graph && Reachable(graph, root, (rest + children)[i].id)
    {
      if i < |rest| {
        assert (rest + children)[i] == pending[i + 1];
      } else {
        var child := children[i - |rest|];
        assert (rest + children)[i] == child && Known(graph, child);
        assert child in children;
        EdgeReachable(graph, root, id, child.id);
      }
    }
    forall a, b | a in visited + {id} && IsEdge(graph, a, b)
      ensures Covered(visited + {id}, rest + children, b)
    {
      if a in visited {
        assert Covered(visited, pending, b);
      }
    }
  }

  lemma SkipExplores(graph: Graph, root: Value, visited: set<nat>, pending: seq<Value>)
    requires pending != [] && (pending[0].Container? ==> pending[0].id in visited)
    requires Pending(graph, root, pending) && Explored(graph, root, visited, pending)
    ensures Pending(graph, root, pending[1..]) && Explored(graph, root, visited, pending[1..])
  {
    hide Reachable, IsEdge;
    assert pending == [pending[0]] + pending[1..];
    assert forall i :: 0 <= i < |pending[1..]| ==> pending[1..][i] == pending[i + 1];
    forall a, b | a in visited && IsEdge(graph, a, b) ensures Covered(visited, pending[1..], b) {
      assert Covered(visited, pending, b);
    }
  }

  lemma CollectMore(
      graph: Graph, visited: set<nat>, references: seq<string>, owners: seq<nat>, id: nat, now: seq<string>)
    requires Collected(graph, visited, references, owners) && id !in visited && id in graph
    requires !HasUses(graph[id]) ==> now == references
    requires HasUses(graph[id]) ==>
      |now| == |references| + 1 && now[..|references|] == references && Makes(graph[id], now[|references|])
    ensures Collected(graph, visited + {id}, now, if HasUses(graph[id]) then owners + [id] else owners)
  {
    hide HasUses, Makes;
    if HasUses(graph[id]) {
      assert forall k :: 0 <= k < |references| ==> now[k] == now[..|references|][k];
    }
  }

  lemma ListingFacts(node: Node)
    requires node.Listing?
    ensures Children(node) == node.items && !HasUses(node)
  {
  }

  lemma AllVisited(graph: Graph, root: Value, visited: set<nat>)
    requires Explored(graph, root, visited, [])
    ensures forall id :: id in visited <==> Reachable(graph, root, id)
  {
    forall id | Reachable(graph, root, id) ensures id in visited {
      var path :| IsPath(graph, root, path) && path[|path| - 1] == id;
      assert forall a, b :: a in visited && IsEdge(graph, a, b) ==> Covered(visited, [], b);
      ClosedSetHoldsPath(graph, root, visited, path);
    }
  }

  /** One entry for every reachable mapping that has a "uses" key, and no other: owners says whose entry each is. */
  ghost predicate OneEach(graph: Graph, root: Value, references: seq<string>, owners: seq<nat>) {
    && |references| == |owners|
    && (forall k :: 0 <= k < |owners| ==> owners[k] in graph && Makes(graph[owners[k]], references[k]))
    && (forall j, k :: 0 <= j < k < |owners| ==> owners[j] != owners[k])
    && forall id :: id in owners <==> id in graph && Reachable(graph, root, id) && HasUses(graph[id])
  }

  /** On every object graph, cyclic or shared, the collection ends with exactly one entry for each such mapping. */
  method CollectReferences(graph: Graph, root: Value) returns (references: seq<string>)
    requires Closed(graph) && Known(graph, root)
    ensures exists owners :: OneEach(graph, root, references, owners)
  {
    hide Reachable, Children, HasUses, Makes;
    references := [];
    ghost var owners: seq<nat> := [];
    var pending := [root];
    var visited: set<nat> := {};
    if root.Container? {
      RootReachable(graph, root.id);
    }
    while pending != []
      invariant Pending(graph, root, pending) && Explored(graph, root, visited, pending)
      invariant Collected(graph, visited, references, owners)
      invariant forall id :: id in owners ==> id in graph && HasUses(graph[id])
      decreases graph.Keys - visited, |pending|
    {
      var current := pending[0];
      if !current.Container? || current.id in visited {
        SkipExplores(graph, root, visited, pending);
        pending := pending[1..];
        continue;
      }
      VisitExplores(graph, root, visited, pending, current.id);
      visited := visited + {current.id};
      var node := graph[current.id];
      ghost var before, seenBefore := references, visited - {current.id};
      assert seenBefore + {current.id} == visited;
      if node.Mapping? {
        pending, references := VisitMapping(node, pending[1..], references);
      } else {
        ListingFacts(node);
        pending := pending[1..] + node.items;
      }
      CollectMore(graph, seenBefore, before, owners, current.id, references);
      owners := if HasUses(node) then owners + [current.id] else owners;
    }
    AllVisited(graph, root, visited);
    assert OneEach(graph, root, references, owners);
  }
}
