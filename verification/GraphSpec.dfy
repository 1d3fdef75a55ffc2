/** Dependency graphs as values: what a build must produce and what validation must decide. */
module GraphSpec {
  import opened Model

  datatype Node = Node(id: string, visible: bool)

  datatype Edge = Edge(from: string, to: string, kind: DependencyKind)

  function NodeOf(o: ConfigOption): Node {
    Node(o.id, o.prompt.Some? && o.prompt.value != "")
  }

  function NodesOf(options: seq<ConfigOption>): (nodes: seq<Node>)
    ensures |nodes| == |options|
  {
    seq(|options|, i requires 0 <= i < |options| => NodeOf(options[i]))
  }

  function EdgesFrom(id: string, dependencies: seq<Dependency>): (edges: seq<Edge>)
    ensures |edges| == |dependencies|
  {
    seq(|dependencies|, j requires 0 <= j < |dependencies| => Edge(id, dependencies[j].target, dependencies[j].kind))
  }

  /** One edge for each dependency, in declaration order. */
  function EdgesOf(options: seq<ConfigOption>): seq<Edge> {
    if options == [] then []
    else
      var last := options[|options| - 1];
      EdgesOf(options[..|options| - 1]) + EdgesFrom(last.id, last.dependencies)
  }

  predicate Known(options: seq<ConfigOption>, id: string) {
    exists i :: 0 <= i < |options| && options[i].id == id
  }

  ghost predicate GoodDependency(options: seq<ConfigOption>, from: string, d: Dependency) {
    from != d.target && Known(options, d.target)
  }

  /** No dependency of the first `n` options is a self-edge or leads to an unknown option. */
  ghost predicate GoodDependencies(options: seq<ConfigOption>, n: nat)
    requires n <= |options|
  {
    forall i, j :: 0 <= i < n && 0 <= j < |options[i].dependencies| ==>
      GoodDependency(options, options[i].id, options[i].dependencies[j])
  }

  lemma {:induction false} EdgesAreGood(options: seq<ConfigOption>, n: nat, e: Edge)
    requires n <= |options| && GoodDependencies(options, n) && e in EdgesOf(options[..n])
    ensures e.from != e.to && Known(options, e.from) && Known(options, e.to)
  {
    assert n > 0;
    assert options[..n][..n - 1] == options[..n - 1];
    var last := options[n - 1];
    if e in EdgesOf(options[..n - 1]) {
      EdgesAreGood(options, n - 1, e);
    } else {
      var j :| 0 <= j < |last.dependencies| && e == EdgesFrom(last.id, last.dependencies)[j];
      assert GoodDependency(options, last.id, last.dependencies[j]);
    }
  }

  // Cycles of node indices, the view of the depth-first search.

  predicate IsCycleEdge(e: Edge) {
    e.kind != Conflicts
  }

  predicate IsHardEdge(e: Edge) {
    e.kind == Requires || e.kind == Forces
  }

  ghost predicate IsFirstNode(nodes: seq<Node>, id: string, i: nat) {
    i < |nodes| && nodes[i].id == id && forall k :: 0 <= k < i ==> nodes[k].id != id
  }

  ghost predicate EdgeStep(nodes: seq<Node>, e: Edge, i: nat, j: nat)
    requires i < |nodes|
  {
    IsCycleEdge(e) && e.from == nodes[i].id && IsFirstNode(nodes, e.to, j)
  }

  ghost predicate Step(nodes: seq<Node>, edges: seq<Edge>, i: nat, j: nat)
    requires i < |nodes|
  {
    exists e :: e in edges && EdgeStep(nodes, e, i, j)
  }

  ghost predicate InBounds(nodes: seq<Node>, p: seq<nat>) {
    forall k :: 0 <= k < |p| ==> p[k] < |nodes|
  }

  ghost predicate IsPath(nodes: seq<Node>, edges: seq<Edge>, p: seq<nat>) {
    InBounds(nodes, p) && forall k :: 0 < k < |p| ==> Step(nodes, edges, p[k - 1], p[k])
  }

  ghost predicate IsCycle(nodes: seq<Node>, edges: seq<Edge>, p: seq<nat>) {
    |p| >= 2 && p[0] == p[|p| - 1] && IsPath(nodes, edges, p)
  }

  /** Every step leads to an earlier entry: the order in which the search finishes nodes. */
  ghost predicate IsFinishOrder(nodes: seq<Node>, edges: seq<Edge>, order: seq<nat>) {
    && InBounds(nodes, order)
    && (forall k, m :: 0 <= k < m < |order| ==> order[k] != order[m])
    && forall k, j :: 0 <= k < |order| && Step(nodes, edges, order[k], j) ==> j in order[..k]
  }

  lemma {:induction false} PathDescends(nodes: seq<Node>, edges: seq<Edge>, order: seq<nat>, p: seq<nat>, k: nat)
    requires IsFinishOrder(nodes, edges, order) && IsPath(nodes, edges, p)
    requires |p| >= 2 && k < |order| && p[0] == order[k]
    ensures p[|p| - 1] in order[..k]
  {
    assert Step(nodes, edges, p[0], p[1]);
    if |p| > 2 {
      var m :| 0 <= m < k && order[m] == p[1];
      PathDescends(nodes, edges, order, p[1..], m);
    }
  }

  lemma FinishOrderExcludesCycles(nodes: seq<Node>, edges: seq<Edge>, order: seq<nat>, p: seq<nat>)
    requires IsFinishOrder(nodes, edges, order) && forall i :: 0 <= i < |nodes| ==> i in order
    ensures !IsCycle(nodes, edges, p)
  {
    if IsCycle(nodes, edges, p) {
      assert p[0] in order;
      var k :| 0 <= k < |order| && order[k] == p[0];
      PathDescends(nodes, edges, order, p, k);
    }
  }

  /** A finish order of all nodes is a topological order: each edge leads to an option that comes before. */
  lemma FinishOrderIsTopological(nodes: seq<Node>, edges: seq<Edge>, order: seq<nat>, e: Edge, k: nat)
    requires IsFinishOrder(nodes, edges, order) && EdgesLeadToNodes(nodes, edges)
    requires e in edges && IsCycleEdge(e) && k < |order| && nodes[order[k]].id == e.from
    ensures exists m :: 0 <= m < k && order[m] < |nodes| && nodes[order[m]].id == e.to
  {
    var j := FirstNodeExists(nodes, e.to);
    assert EdgeStep(nodes, e, order[k], j);
    assert j in order[..k];
  }

  // The order a user of an accepted project gets.

  /** Each option once, after everything its dependencies other than conflicts name. */
  ghost predicate IsDependencyOrder(options: seq<ConfigOption>, order: seq<nat>) {
    && (forall k :: 0 <= k < |order| ==> order[k] < |options|)
    && (forall k, m :: 0 <= k < m < |order| ==> order[k] != order[m])
    && (forall i :: 0 <= i < |options| ==> i in order)
    && forall k, d :: 0 <= k < |order| && d in options[order[k]].dependencies && d.kind != Conflicts ==>
         exists m :: 0 <= m < k && options[order[m]].id == d.target
  }

  lemma {:induction false} DependencyHasEdge(options: seq<ConfigOption>, o: ConfigOption, d: Dependency)
    requires o in options && d in o.dependencies
    ensures Edge(o.id, d.target, d.kind) in EdgesOf(options)
  {
    var last := options[|options| - 1];
    if o == last {
      var j :| 0 <= j < |last.dependencies| && last.dependencies[j] == d;
      assert EdgesFrom(last.id, last.dependencies)[j] == Edge(o.id, d.target, d.kind);
    } else {
      DependencyHasEdge(options[..|options| - 1], o, d);
    }
  }

  lemma {:induction false} DependencyComesBefore(options: seq<ConfigOption>, order: seq<nat>, k: nat, d: Dependency)
    requires EdgesLeadToNodes(NodesOf(options), EdgesOf(options))
    requires IsFinishOrder(NodesOf(options), EdgesOf(options), order)
    requires k < |order| && order[k] < |options| && d in options[order[k]].dependencies && d.kind != Conflicts
    ensures exists m :: 0 <= m < k && order[m] < |options| && options[order[m]].id == d.target
  {
    hide IsFinishOrder, EdgesOf, EdgesLeadToNodes;
    var nodes, edges, o := NodesOf(options), EdgesOf(options), options[order[k]];
    DependencyHasEdge(options, o, d);
    assert nodes[order[k]].id == o.id;
    FinishOrderIsTopological(nodes, edges, order, Edge(o.id, d.target, d.kind), k);
    var m :| 0 <= m < k && order[m] < |nodes| && nodes[order[m]].id == d.target;
    assert options[order[m]].id == d.target;
  }

  lemma {:induction false} FinishOrderIsDependencyOrder(options: seq<ConfigOption>, order: seq<nat>)
    requires EdgesLeadToNodes(NodesOf(options), EdgesOf(options))
    requires IsFinishOrder(NodesOf(options), EdgesOf(options), order)
    requires forall i :: 0 <= i < |options| ==> i in order
    ensures IsDependencyOrder(options, order)
  {
    hide EdgesLeadToNodes, EdgesOf, Step;
    forall k, d | 0 <= k < |order| && d in options[order[k]].dependencies && d.kind != Conflicts
      ensures exists m :: 0 <= m < k && options[order[m]].id == d.target
    {
      DependencyComesBefore(options, order, k, d);
    }
  }

  lemma BuiltEdgesLeadToNodes(options: seq<ConfigOption>)
    requires GoodDependencies(options, |options|)
    ensures EdgesLeadToNodes(NodesOf(options), EdgesOf(options))
  {
    var nodes := NodesOf(options);
    forall e | e in EdgesOf(options)
      ensures exists i :: 0 <= i < |nodes| && nodes[i].id == e.to
    {
      assert options[..|options|] == options;
      EdgesAreGood(options, |options|, e);
      var i :| 0 <= i < |options| && options[i].id == e.to;
      assert nodes[i].id == e.to;
    }
  }

  // Cycles of option ids: a directed cycle of non-conflict edges.

  ghost predicate IdStep(edges: seq<Edge>, a: string, b: string) {
    exists e :: e in edges && IsCycleEdge(e) && e.from == a && e.to == b
  }

  ghost predicate IsIdPath(edges: seq<Edge>, p: seq<string>) {
    forall k :: 0 < k < |p| ==> IdStep(edges, p[k - 1], p[k])
  }

  ghost predicate IsIdCycle(edges: seq<Edge>, p: seq<string>) {
    |p| >= 2 && p[0] == p[|p| - 1] && IsIdPath(edges, p)
  }

  ghost predicate HasIdCycle(edges: seq<Edge>) {
    exists p :: IsIdCycle(edges, p)
  }

  function IdsOf(nodes: seq<Node>, p: seq<nat>): (ids: seq<string>)
    requires forall k :: 0 <= k < |p| ==> p[k] < |nodes|
    ensures |ids| == |p|
  {
    seq(|p|, k requires 0 <= k < |p| => nodes[p[k]].id)
  }

  lemma CycleHasIds(nodes: seq<Node>, edges: seq<Edge>, p: seq<nat>)
    requires IsCycle(nodes, edges, p)
    ensures IsIdCycle(edges, IdsOf(nodes, p))
  {
    forall k | 0 < k < |p|
      ensures IdStep(edges, nodes[p[k - 1]].id, nodes[p[k]].id)
    {
      assert Step(nodes, edges, p[k - 1], p[k]);
    }
  }

  ghost predicate EdgesLeadToNodes(nodes: seq<Node>, edges: seq<Edge>) {
    forall e :: e in edges ==> exists i :: 0 <= i < |nodes| && nodes[i].id == e.to
  }

  lemma FirstNodeExists(nodes: seq<Node>, id: string) returns (i: nat)
    requires exists k :: 0 <= k < |nodes| && nodes[k].id == id
    ensures IsFirstNode(nodes, id, i)
  {
    i := 0;
    while nodes[i].id != id
      invariant i < |nodes| && forall k :: 0 <= k < i ==> nodes[k].id != id
      decreases |nodes| - i
    {
      i := i + 1;
    }
  }

  /** The first nodes carrying the ids of a path of edge targets form a path of node indices. */
  lemma {:induction false} IdPathHasNodes(nodes: seq<Node>, edges: seq<Edge>, ids: seq<string>) returns (p: seq<nat>)
    requires IsIdPath(edges, ids) && |ids| > 0
    requires forall k :: 0 <= k < |ids| ==> exists i :: 0 <= i < |nodes| && nodes[i].id == ids[k]
    ensures |p| == |ids| && IsPath(nodes, edges, p)
    ensures forall k :: 0 <= k < |p| ==> IsFirstNode(nodes, ids[k], p[k])
  {
    var n := |ids| - 1;
    var last := FirstNodeExists(nodes, ids[n]);
    if n == 0 {
      p := [last];
    } else {
      var q := IdPathHasNodes(nodes, edges, ids[..n]);
      p := q + [last];
      assert IdStep(edges, ids[n - 1], ids[n]);
      var e :| e in edges && IsCycleEdge(e) && e.from == ids[n - 1] && e.to == ids[n];
      assert EdgeStep(nodes, e, q[n - 1], last);
    }
  }

  /** The search looks for exactly the cycles of option ids. */
  lemma IdCycleHasNodes(nodes: seq<Node>, edges: seq<Edge>, ids: seq<string>) returns (p: seq<nat>)
    requires EdgesLeadToNodes(nodes, edges) && IsIdCycle(edges, ids)
    ensures IsCycle(nodes, edges, p)
  {
    forall k | 0 <= k < |ids|
      ensures exists i :: 0 <= i < |nodes| && nodes[i].id == ids[k]
    {
      var m := if k == 0 then |ids| - 1 else k;
      assert IdStep(edges, ids[m - 1], ids[m]);
    }
    p := IdPathHasNodes(nodes, edges, ids);
  }

  /** Neither the order nor the multiplicity of edges matters. */
  lemma CyclesDependOnEdgeSet(edges: seq<Edge>, others: seq<Edge>)
    requires forall e :: e in edges <==> e in others
    ensures HasIdCycle(edges) <==> HasIdCycle(others)
  {
    if HasIdCycle(edges) {
      var p :| IsIdCycle(edges, p);
      IdCycleTransfers(edges, others, p);
    }
    if HasIdCycle(others) {
      var p :| IsIdCycle(others, p);
      IdCycleTransfers(others, edges, p);
    }
  }

  lemma IdCycleTransfers(edges: seq<Edge>, others: seq<Edge>, p: seq<string>)
    requires IsIdCycle(edges, p) && forall e :: e in edges ==> e in others
    ensures IsIdCycle(others, p)
  {
    forall k | 0 < k < |p|
      ensures IdStep(others, p[k - 1], p[k])
    {
      assert IdStep(edges, p[k - 1], p[k]);
    }
  }

  // Forces and conflict rules.

  ghost predicate OccursAt(text: string, part: string, i: nat) {
    i + |part| <= |text| && text[i..i + |part|] == part
  }

  /** strstr: `part` occurs somewhere in `text`. */
  ghost predicate Occurs(text: string, part: string) {
    exists i :: OccursAt(text, part, i)
  }

  ghost predicate HasRequires(edges: seq<Edge>, id: string) {
    exists e :: e in edges && e.kind == Requires && e.from == id
  }

  /** Only an invisible internal option without requirements may be forced. */
  ghost predicate ForceAllowed(nodes: seq<Node>, edges: seq<Edge>, e: Edge) {
    && (forall i: nat :: IsFirstNode(nodes, e.to, i) ==> !nodes[i].visible)
    && Occurs(e.to, ".internal.")
    && !HasRequires(edges, e.to)
  }

  ghost predicate ForcesAllowed(nodes: seq<Node>, edges: seq<Edge>) {
    forall k :: 0 <= k < |edges| && edges[k].kind == Forces ==> ForceAllowed(nodes, edges, edges[k])
  }

  /** Both edges join the same two options, in any direction. */
  ghost predicate SameEnds(e: Edge, f: Edge) {
    {e.from, e.to} == {f.from, f.to}
  }

  /** Some requires or forces edge joins the two ends of `conflict`. */
  ghost predicate Contradicted(edges: seq<Edge>, conflict: Edge) {
    exists f :: f in edges && IsHardEdge(f) && SameEnds(conflict, f)
  }

  /** No pair of options carries both a conflict and a requires or forces edge. */
  ghost predicate NoContradiction(edges: seq<Edge>) {
    forall e :: e in edges && e.kind == Conflicts ==> !Contradicted(edges, e)
  }
}
