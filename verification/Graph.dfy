/** Building and validating the option dependency graph. */
module Graph {
  import opened Model
  import opened GraphSpec
  import opened GraphLaws

  class DependencyGraph {
    var nodes: seq<Node>
    var edges: seq<Edge>

    constructor ()
      ensures nodes == [] && edges == []
    {
      nodes := [];
      edges := [];
    }

    method AddNode(o: ConfigOption)
      modifies this
      ensures nodes == old(nodes) + [NodeOf(o)] && edges == old(edges)
    {
      nodes := nodes + [Node(o.id, o.prompt.Some? && o.prompt.value != "")];
    }

    method AddEdge(from: string, to: string, kind: DependencyKind)
      modifies this
      ensures edges == old(edges) + [Edge(from, to, kind)] && nodes == old(nodes)
    {
      edges := edges + [Edge(from, to, kind)];
    }

    method FindNodeIndex(id: string) returns (index: Option<nat>)
      ensures index.None? ==> forall i :: 0 <= i < |nodes| ==> nodes[i].id != id
      ensures index.Some? ==> IsFirstNode(nodes, id, index.value)
    {
      for i := 0 to |nodes|
        invariant forall k :: 0 <= k < i ==> nodes[k].id != id
      {
        if nodes[i].id == id {
          return Some(i);
        }
      }
      return None;
    }

    /** Node i is white, on the search path or finished according to its colour 0, 1 or 2. */
    ghost predicate Colored(colors: seq<int>, path: seq<nat>, order: seq<nat>)
      reads this
    {
      && |colors| == |nodes|
      && InBounds(nodes, path)
      && (forall i :: 0 <= i < |colors| ==> 0 <= colors[i] <= 2)
      && (forall i: nat :: i < |colors| ==> (colors[i] == 1 <==> i in path))
      && (forall i: nat :: i < |colors| ==> (colors[i] == 2 <==> i in order))
    }

    static ghost function Whites(colors: seq<int>): set<int> {
      set i | 0 <= i < |colors| && colors[i] == 0
    }

    /** Every followed edge among the first `n` that leaves `node` leads to a finished node. */
    ghost predicate Explored(node: nat, n: nat, order: seq<nat>)
      requires node < |nodes| && n <= |edges|
      reads this
    {
      forall k, j: nat :: 0 <= k < n && EdgeStep(nodes, edges[k], node, j) ==> j in order
    }

    /**
     The recursive search from a white node. Either it closes a cycle, or it finishes the node
     and extends the finish order.
     */
    method DfsHasCycle(node: nat, colors: array<int>, ghost path: seq<nat>, ghost order: seq<nat>)
      returns (found: bool, cycleNode: string, ghost cycle: seq<nat>, ghost finished: seq<nat>)
      requires node < |nodes| && colors.Length == |nodes| && colors[node] == 0
      requires Colored(colors[..], path, order) && IsFinishOrder(nodes, edges, order)
      requires IsPath(nodes, edges, path + [node])
      modifies colors
      decreases Whites(colors[..])
      ensures found ==> IsCycle(nodes, edges, cycle) && cycleNode == nodes[cycle[0]].id
      ensures !found ==> Colored(colors[..], path, finished) && IsFinishOrder(nodes, edges, finished)
      ensures !found ==> order <= finished && node in finished
    {
      ghost var gray := path + [node];
      cycle, finished, cycleNode := [], order, "";
      ghost var before := colors[..];
      colors[node] := 1;
      for index := 0 to |edges|
        invariant Colored(colors[..], gray, finished) && IsFinishOrder(nodes, edges, finished)
        invariant order <= finished && Explored(node, index, finished)
      {
        var edge := edges[index];
        if !IsCycleEdge(edge) || edge.from != nodes[node].id {
          continue;
        }
        var target := FindNodeIndex(edge.to);
        if target.None? {
          continue;
        }
        var to := target.value;
        assert EdgeStep(nodes, edge, node, to);
        if colors[to] == 1 {
          cycle := CloseCycle(gray, to);
          return true, edge.to, cycle, finished;
        }
        if colors[to] == 0 {
          WhitesShrink(before, colors[..], path, node, order, finished);
          found, cycleNode, cycle, finished := DfsHasCycle(to, colors, gray, finished);
          if found {
            return;
          }
        }
      }
      Finish(colors[..], path, node, finished);
      colors[node] := 2;
      finished := finished + [node];
      found := false;
    }

    lemma CloseCycle(gray: seq<nat>, to: nat) returns (cycle: seq<nat>)
      requires |gray| > 0 && to in gray && IsPath(nodes, edges, gray)
      requires Step(nodes, edges, gray[|gray| - 1], to)
      ensures IsCycle(nodes, edges, cycle) && cycle[0] == to
    {
      var k :| 0 <= k < |gray| && gray[k] == to;
      cycle := gray[k..] + [to];
    }

    lemma WhitesShrink(before: seq<int>, now: seq<int>, path: seq<nat>, node: nat, order: seq<nat>, finished: seq<nat>)
      requires Colored(before, path, order) && Colored(now, path + [node], finished)
      requires node < |nodes| && before[node] == 0 && order <= finished
      ensures Whites(now) < Whites(before)
    {
      assert node in Whites(before);
      assert node in path + [node];
      forall i: int | i in Whites(now)
        ensures i in Whites(before)
      {
        var n: nat := i;
        assert n !in path + [node] && n !in finished;
        assert n !in path && n !in order;
      }
    }

    /** A fully explored node can be appended to the finish order. */
    lemma Finish(colors: seq<int>, path: seq<nat>, node: nat, order: seq<nat>)
      requires node < |nodes| && node !in path
      requires Colored(colors, path + [node], order) && IsFinishOrder(nodes, edges, order)
      requires Explored(node, |edges|, order)
      ensures Colored(colors[node := 2], path, order + [node])
      ensures IsFinishOrder(nodes, edges, order + [node])
    {
      assert node in path + [node];
      assert colors[node] == 1 && node !in order;
      var longer := order + [node];
      assert (path + [node])[..|path|] == path;
      assert forall k :: 0 <= k < |path| ==> (path + [node])[k] == path[k];
      assert forall i: nat :: i in path + [node] <==> i in path || i == node;
      assert forall i: nat :: i in longer <==> i in order || i == node;
      forall k, j: nat | 0 <= k < |longer| && Step(nodes, edges, longer[k], j)
        ensures j in longer[..k]
      {
        if k < |order| {
          assert longer[k] == order[k] && longer[..k] == order[..k];
        } else {
          var e :| e in edges && EdgeStep(nodes, e, node, j);
          var m :| 0 <= m < |edges| && edges[m] == e;
          assert j in order;
          assert longer[..k] == order;
        }
      }
    }

    ghost predicate HasCycle()
      reads this
    {
      exists p :: IsCycle(nodes, edges, p)
    }

    /** Some finish order covers every node. */
    ghost predicate HasTopologicalOrder()
      reads this
    {
      exists order :: IsFinishOrder(nodes, edges, order) && forall i :: 0 <= i < |nodes| ==> i in order
    }

    /** The search over all roots fails exactly on a cycle, and then names an option on it. */
    method ValidateCycles() returns (status: Status, subject: Option<string>)
      ensures status == if HasCycle() then DependencyError else Ok
      ensures status == Ok ==> HasTopologicalOrder()
      ensures status != Ok ==> subject.Some? && OnCycle(subject.value)
    {
      var colors := new int[|nodes|](_ => 0);
      ghost var order: seq<nat> := [];
      for index := 0 to |nodes|
        invariant Colored(colors[..], [], order) && IsFinishOrder(nodes, edges, order)
        invariant forall i :: 0 <= i < index ==> i in order
      {
        if colors[index] != 0 {
          continue;
        }
        var found, cycleNode; ghost var cycle, finished;
        found, cycleNode, cycle, finished := DfsHasCycle(index, colors, [], order);
        if found {
          return DependencyError, Some(cycleNode);
        }
        assert forall i :: i in order ==> i in finished;
        order := finished;
      }
      forall p
        ensures !IsCycle(nodes, edges, p)
      {
        FinishOrderExcludesCycles(nodes, edges, order, p);
      }
      return Ok, None;
    }

    ghost predicate OnCycle(id: string)
      reads this
    {
      exists p :: IsCycle(nodes, edges, p) && nodes[p[0]].id == id
    }

    method IsInternalId(id: string) returns (internal: bool)
      ensures internal <==> Occurs(id, ".internal.")
    {
      var part := ".internal.";
      for i := 0 to |id| + 1
        invariant forall k :: 0 <= k < i ==> !OccursAt(id, part, k)
      {
        if i + |part| <= |id| && id[i..i + |part|] == part {
          assert OccursAt(id, part, i);
          return true;
        }
      }
      return false;
    }

    method NodeHasRequires(id: string) returns (has: bool)
      ensures has <==> HasRequires(edges, id)
    {
      for index := 0 to |edges|
        invariant forall k :: 0 <= k < index ==> !(edges[k].kind == Requires && edges[k].from == id)
      {
        if edges[index].kind == Requires && edges[index].from == id {
          return true;
        }
      }
      return false;
    }

    /** Reports the source of the first forces edge that is not allowed. */
    method ValidateForces() returns (status: Status, subject: Option<string>)
      ensures status == if ForcesAllowed(nodes, edges) then Ok else DependencyError
      ensures status != Ok ==>
        exists k :: 0 <= k < |edges| && edges[k].kind == Forces && !ForceAllowed(nodes, edges, edges[k])
                    && subject == Some(edges[k].from)
                    && forall m :: 0 <= m < k && edges[m].kind == Forces ==> ForceAllowed(nodes, edges, edges[m])
    {
      for index := 0 to |edges|
        invariant forall m :: 0 <= m < index && edges[m].kind == Forces ==> ForceAllowed(nodes, edges, edges[m])
      {
        var edge := edges[index];
        if edge.kind != Forces {
          continue;
        }
        var target := FindNodeIndex(edge.to);
        if target.Some? && nodes[target.value].visible {
          return DependencyError, Some(edge.from);
        }
        var internal := IsInternalId(edge.to);
        if !internal {
          return DependencyError, Some(edge.from);
        }
        var has := NodeHasRequires(edge.to);
        if has {
          return DependencyError, Some(edge.from);
        }
      }
      return Ok, None;
    }

    method SameUnorderedPair(e: Edge, f: Edge) returns (same: bool)
      ensures same <==> SameEnds(e, f)
    {
      same := (e.from == f.from && e.to == f.to) || (e.from == f.to && e.to == f.from);
      assert e.from in {e.from, e.to} && e.to in {e.from, e.to} && f.from in {f.from, f.to} && f.to in {f.from, f.to};
    }

    /** Reports the source of the first conflict edge that is contradicted. */
    method ValidateConflicts() returns (status: Status, subject: Option<string>)
      ensures status == if NoContradiction(edges) then Ok else CONFLICT_ERROR
      ensures status != Ok ==>
        exists c :: 0 <= c < |edges| && edges[c].kind == Conflicts && Contradicted(edges, edges[c])
                    && subject == Some(edges[c].from)
                    && forall m :: 0 <= m < c && edges[m].kind == Conflicts ==> !Contradicted(edges, edges[m])
    {
      for c := 0 to |edges|
        invariant forall m :: 0 <= m < c && edges[m].kind == Conflicts ==> !Contradicted(edges, edges[m])
      {
        var conflict := edges[c];
        if conflict.kind != Conflicts {
          continue;
        }
        for index := 0 to |edges|
          invariant forall m :: 0 <= m < index && IsHardEdge(edges[m]) ==> !SameEnds(conflict, edges[m])
        {
          if index == c || !IsHardEdge(edges[index]) {
            continue;
          }
          var same := SameUnorderedPair(conflict, edges[index]);
          if same {
            assert Contradicted(edges, conflict);
            return CONFLICT_ERROR, Some(conflict.from);
          }
        }
      }
      return Ok, None;
    }

    /** Accepts exactly the acyclic, force-respecting, contradiction-free graphs. */
    method Validate() returns (status: Status, subject: Option<string>)
      ensures status == Ok <==> !HasCycle() && ForcesAllowed(nodes, edges) && NoContradiction(edges)
      ensures status == Ok || status == DependencyError
      ensures status == Ok ==> HasTopologicalOrder()
    {
      status, subject := ValidateCycles();
      if status != Ok {
        return;
      }
      status, subject := ValidateForces();
      if status != Ok {
        return;
      }
      status, subject := ValidateConflicts();
    }
  }

  method FindOption(options: seq<ConfigOption>, id: string) returns (found: bool)
    ensures found <==> Known(options, id)
  {
    for index := 0 to |options|
      invariant forall i :: 0 <= i < index ==> options[i].id != id
    {
      if options[index].id == id {
        return true;
      }
    }
    return false;
  }

  /** Copies options to nodes and dependencies to edges, in order, or reports the first bad dependency. */
  method Build(project: Project) returns (status: Status, graph: DependencyGraph, subject: Option<string>)
    ensures fresh(graph)
    ensures status == if GoodDependencies(project.options, |project.options|) then Ok else DependencyError
    ensures status == Ok ==> graph.nodes == NodesOf(project.options) && graph.edges == EdgesOf(project.options)
    ensures status != Ok ==>
      exists i, j :: 0 <= i < |project.options| && 0 <= j < |project.options[i].dependencies|
        && subject == Some(project.options[i].id) && GoodDependencies(project.options, i)
        && !GoodDependency(project.options, project.options[i].id, project.options[i].dependencies[j])
  {
    var options := project.options;
    graph := new DependencyGraph();
    for i := 0 to |options|
      invariant graph.nodes == NodesOf(options)[..i] && graph.edges == []
    {
      graph.AddNode(options[i]);
    }
    for i := 0 to |options|
      invariant GoodDependencies(options, i)
      invariant graph.nodes == NodesOf(options) && graph.edges == EdgesOf(options[..i])
    {
      var o := options[i];
      ghost var added := EdgesFrom(o.id, o.dependencies);
      for j := 0 to |o.dependencies|
        invariant forall k :: 0 <= k < j ==> GoodDependency(options, o.id, o.dependencies[k])
        invariant graph.nodes == NodesOf(options) && graph.edges == EdgesOf(options[..i]) + added[..j]
      {
        var d := o.dependencies[j];
        if o.id == d.target {
          return DependencyError, graph, Some(o.id);
        }
        var known := FindOption(options, d.target);
        if !known {
          return DependencyError, graph, Some(o.id);
        }
        graph.AddEdge(o.id, d.target, d.kind);
      }
      assert options[..i + 1][..i] == options[..i];
      assert added[..|added|] == added;
    }
    assert options[..|options|] == options;
    return Ok, graph, None;
  }

  /**
   Build then validate. For distinct ids exactly the sound projects are accepted: dependencies are
   known and can be put in order, forces lead to internal options, and conflicts are free.
   */
  method CheckProject(project: Project) returns (status: Status)
    ensures status == Ok <==>
      && GoodDependencies(project.options, |project.options|)
      && !HasIdCycle(EdgesOf(project.options))
      && ForcesAllowed(NodesOf(project.options), EdgesOf(project.options))
      && NoContradiction(EdgesOf(project.options))
    ensures status == Ok || status == DependencyError
    ensures status == Ok ==> exists order :: IsDependencyOrder(project.options, order)
    ensures DistinctIds(project.options) ==> (status == Ok <==> IsSound(project.options))
  {
    hide ForcesAllowed, NoContradiction, HasIdCycle, IsDependencyOrder, IsFinishOrder, GoodDependencies;
    hide DependenciesAreKnown, ForcesAreInternal, ConflictsAreFree;
    var graph, subject;
    status, graph, subject := Build(project);
    KnownIffGood(project.options);
    if status != Ok {
      return;
    }
    BuiltCycles(project, graph);
    if DistinctIds(project.options) {
      SoundParts(project.options);
    }
    status, subject := graph.Validate();
    if status == Ok {
      ghost var order :| IsFinishOrder(graph.nodes, graph.edges, order) && forall i :: 0 <= i < |graph.nodes| ==> i in order;
      BuiltEdgesLeadToNodes(project.options);
      FinishOrderIsDependencyOrder(project.options, order);
    }
  }

  lemma SoundParts(options: seq<ConfigOption>)
    requires DistinctIds(options) && DependenciesAreKnown(options)
    ensures ForcesAllowed(NodesOf(options), EdgesOf(options)) <==> ForcesAreInternal(options)
    ensures NoContradiction(EdgesOf(options)) <==> ConflictsAreFree(options)
    ensures (exists order :: IsDependencyOrder(options, order)) ==> !HasIdCycle(EdgesOf(options))
  {
    ForcesByOptions(options);
    ConflictsByOptions(options);
    if order :| IsDependencyOrder(options, order) {
      OrderExcludesCycles(options, order);
    }
  }

  /** On a built graph the search decides the existence of a cycle of option ids. */
  lemma BuiltCycles(project: Project, graph: DependencyGraph)
    requires GoodDependencies(project.options, |project.options|)
    requires graph.nodes == NodesOf(project.options) && graph.edges == EdgesOf(project.options)
    ensures graph.HasCycle() <==> HasIdCycle(EdgesOf(project.options))
  {
    var options, nodes, edges := project.options, graph.nodes, graph.edges;
    if p :| IsCycle(nodes, edges, p) {
      CycleHasIds(nodes, edges, p);
    }
    BuiltEdgesLeadToNodes(options);
    if ids :| IsIdCycle(edges, ids) {
      var p := IdCycleHasNodes(nodes, edges, ids);
    }
  }
}
