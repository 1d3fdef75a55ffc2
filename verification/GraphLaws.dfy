/** What the graph checker decides, stated on options and their dependencies alone. */
module GraphLaws {
  import opened Model
  import opened GraphSpec

  ghost predicate DependsOn(options: seq<ConfigOption>, o: ConfigOption, d: Dependency) {
    o in options && d in o.dependencies
  }

  /** No option depends on itself or on an unknown one. */
  ghost predicate DependenciesAreKnown(options: seq<ConfigOption>) {
    forall o, d :: DependsOn(options, o, d) ==> d.target != o.id && exists t :: t in options && t.id == d.target
  }

  /** What is forced has no prompt to show, is named as internal and requires nothing. */
  ghost predicate ForcesAreInternal(options: seq<ConfigOption>) {
    forall o, d :: DependsOn(options, o, d) && d.kind == Forces ==>
      && IsNamedInternal(d.target)
      && forall t :: t in options && t.id == d.target ==>
           && (t.prompt == None || t.prompt == Some(""))
           && forall r :: r in t.dependencies ==> r.kind != Requires
  }

  ghost predicate IsNamedInternal(id: string) {
    exists before, after :: id == before + ".internal." + after
  }

  /** No two options both conflict and require or force one another, in whatever direction. */
  ghost predicate ConflictsAreFree(options: seq<ConfigOption>) {
    forall o, d, q, e ::
      DependsOn(options, o, d) && d.kind == Conflicts && DependsOn(options, q, e) && (e.kind == Requires || e.kind == Forces) ==>
        !(q.id == o.id && e.target == d.target) && !(q.id == d.target && e.target == o.id)
  }

  /** Everything the checker asks of a project. */
  ghost predicate IsSound(options: seq<ConfigOption>) {
    && DependenciesAreKnown(options)
    && (exists order :: IsDependencyOrder(options, order))
    && ForcesAreInternal(options)
    && ConflictsAreFree(options)
  }

  lemma {:induction false} EdgeHasDependency(options: seq<ConfigOption>, e: Edge) returns (o: ConfigOption, d: Dependency)
    requires e in EdgesOf(options)
    ensures DependsOn(options, o, d) && e == Edge(o.id, d.target, d.kind)
  {
    var n := |options| - 1;
    if e in EdgesOf(options[..n]) {
      o, d := EdgeHasDependency(options[..n], e);
    } else {
      o := options[n];
      var j :| 0 <= j < |o.dependencies| && EdgesFrom(o.id, o.dependencies)[j] == e;
      d := o.dependencies[j];
    }
  }

  lemma KnownIffGood(options: seq<ConfigOption>)
    ensures GoodDependencies(options, |options|) <==> DependenciesAreKnown(options)
  {
    if GoodDependencies(options, |options|) {
      forall o, d | DependsOn(options, o, d)
        ensures d.target != o.id && exists t :: t in options && t.id == d.target
      {
        var i :| 0 <= i < |options| && options[i] == o;
        var j :| 0 <= j < |o.dependencies| && o.dependencies[j] == d;
        assert GoodDependency(options, options[i].id, options[i].dependencies[j]);
        var k :| 0 <= k < |options| && options[k].id == d.target;
        assert options[k] in options;
      }
    }
    if DependenciesAreKnown(options) {
      forall i, j | 0 <= i < |options| && 0 <= j < |options[i].dependencies|
        ensures GoodDependency(options, options[i].id, options[i].dependencies[j])
      {
        assert DependsOn(options, options[i], options[i].dependencies[j]);
      }
    }
  }

  // A dependency order excludes cycles.

  lemma {:induction false} PathComesBefore(options: seq<ConfigOption>, order: seq<nat>, p: seq<string>, r: nat)
    requires DistinctIds(options) && IsDependencyOrder(options, order)
    requires IsIdPath(EdgesOf(options), p) && |p| >= 2 && r < |order| && options[order[r]].id == p[0]
    ensures exists m :: 0 <= m < r && options[order[m]].id == p[|p| - 1]
    decreases |p|
  {
    var m := StepComesBefore(options, order, p[0], p[1], r) by {
      assert IdStep(EdgesOf(options), p[0], p[1]);
    }
    if |p| > 2 {
      forall k | 0 < k < |p| - 1
        ensures IdStep(EdgesOf(options), p[1..][k - 1], p[1..][k])
      {
        assert IdStep(EdgesOf(options), p[k], p[k + 1]);
      }
      PathComesBefore(options, order, p[1..], m);
    }
  }

  lemma {:induction false} StepComesBefore(options: seq<ConfigOption>, order: seq<nat>, a: string, b: string, r: nat)
    returns (m: nat)
    requires DistinctIds(options) && IsDependencyOrder(options, order)
    requires IdStep(EdgesOf(options), a, b) && r < |order| && options[order[r]].id == a
    ensures m < r && options[order[m]].id == b
  {
    hide EdgesOf;
    var e :| e in EdgesOf(options) && IsCycleEdge(e) && e.from == a && e.to == b;
    var o, d := EdgeHasDependency(options, e);
    var i :| 0 <= i < |options| && options[i] == o;
    assert i == order[r];
    m :| 0 <= m < r && options[order[m]].id == d.target;
  }

  /** Where the dependencies can be put in order, no cycle of non-conflict edges exists. */
  lemma {:induction false} OrderExcludesCycles(options: seq<ConfigOption>, order: seq<nat>)
    requires DistinctIds(options) && IsDependencyOrder(options, order)
    ensures !HasIdCycle(EdgesOf(options))
  {
    hide EdgesOf;
    if p :| IsIdCycle(EdgesOf(options), p) {
      assert IdStep(EdgesOf(options), p[0], p[1]);
      var e :| e in EdgesOf(options) && e.from == p[0];
      var o, d := EdgeHasDependency(options, e);
      var i :| 0 <= i < |options| && options[i] == o;
      assert i in order;
      var r :| 0 <= r < |order| && order[r] == i;
      PathComesBefore(options, order, p, r);
      assert false;
    }
  }

  // Forces.

  lemma InternalByParts(id: string)
    ensures Occurs(id, ".internal.") <==> IsNamedInternal(id)
  {
    var part := ".internal.";
    if Occurs(id, part) {
      var i: nat :| OccursAt(id, part, i);
      assert id == id[..i] + part + id[i + |part|..];
    }
    if IsNamedInternal(id) {
      var before, after :| id == before + part + after;
      assert OccursAt(id, part, |before|);
    }
  }

  lemma {:induction false} NodeVisible(options: seq<ConfigOption>, id: string, t: ConfigOption)
    requires DistinctIds(options) && t in options && t.id == id
    ensures (forall i: nat :: IsFirstNode(NodesOf(options), id, i) ==> !NodesOf(options)[i].visible)
       <==> t.prompt == None || t.prompt == Some("")
  {
    var i :| 0 <= i < |options| && options[i] == t;
    assert IsFirstNode(NodesOf(options), id, i);
  }

  lemma {:induction false} RequiresByOption(options: seq<ConfigOption>, t: ConfigOption)
    requires DistinctIds(options) && t in options
    ensures HasRequires(EdgesOf(options), t.id) <==> exists r :: r in t.dependencies && r.kind == Requires
  {
    hide EdgesOf;
    if e :| e in EdgesOf(options) && e.kind == Requires && e.from == t.id {
      var o, d := EdgeHasDependency(options, e);
      assert o == t;
    }
    if r :| r in t.dependencies && r.kind == Requires {
      DependencyHasEdge(options, t, r);
    }
  }

  lemma {:induction false} ForceByOption(options: seq<ConfigOption>, o: ConfigOption, d: Dependency, t: ConfigOption)
    requires DistinctIds(options) && DependsOn(options, o, d) && t in options && t.id == d.target
    ensures ForceAllowed(NodesOf(options), EdgesOf(options), Edge(o.id, d.target, d.kind))
       <==> IsNamedInternal(d.target) && (t.prompt == None || t.prompt == Some(""))
            && forall r :: r in t.dependencies ==> r.kind != Requires
  {
    hide EdgesOf, NodesOf, HasRequires, Occurs, IsNamedInternal;
    InternalByParts(d.target);
    NodeVisible(options, d.target, t);
    RequiresByOption(options, t);
  }

  lemma {:induction false} ForcesByOptions(options: seq<ConfigOption>)
    requires DistinctIds(options) && DependenciesAreKnown(options)
    ensures ForcesAllowed(NodesOf(options), EdgesOf(options)) <==> ForcesAreInternal(options)
  {
    hide EdgesOf, NodesOf, ForceAllowed, IsNamedInternal;
    var nodes, edges := NodesOf(options), EdgesOf(options);
    if ForcesAllowed(nodes, edges) {
      forall o, d, t | DependsOn(options, o, d) && d.kind == Forces && t in options && t.id == d.target
        ensures IsNamedInternal(d.target) && (t.prompt == None || t.prompt == Some(""))
        ensures forall r :: r in t.dependencies ==> r.kind != Requires
      {
        DependencyHasEdge(options, o, d);
        var k :| 0 <= k < |edges| && edges[k] == Edge(o.id, d.target, d.kind);
        assert ForceAllowed(nodes, edges, edges[k]);
        ForceByOption(options, o, d, t);
      }
    }
    if ForcesAreInternal(options) {
      forall k | 0 <= k < |edges| && edges[k].kind == Forces
        ensures ForceAllowed(nodes, edges, edges[k])
      {
        var o, d := EdgeHasDependency(options, edges[k]);
        var t :| t in options && t.id == d.target;
        ForceByOption(options, o, d, t);
      }
    }
  }

  // Conflicts.

  lemma {:induction false} ConflictsByOptions(options: seq<ConfigOption>)
    ensures NoContradiction(EdgesOf(options)) <==> ConflictsAreFree(options)
  {
    hide EdgesOf;
    var edges := EdgesOf(options);
    if NoContradiction(edges) {
      forall o, d, q, e | DependsOn(options, o, d) && d.kind == Conflicts && DependsOn(options, q, e)
                          && (e.kind == Requires || e.kind == Forces)
        ensures !(q.id == o.id && e.target == d.target) && !(q.id == d.target && e.target == o.id)
      {
        DependencyHasEdge(options, o, d);
        DependencyHasEdge(options, q, e);
        ContradictedBy(edges, Edge(o.id, d.target, d.kind), Edge(q.id, e.target, e.kind));
      }
    }
    if ConflictsAreFree(options) {
      forall c | c in edges && c.kind == Conflicts
        ensures !Contradicted(edges, c)
      {
        if f :| f in edges && IsHardEdge(f) && SameEnds(c, f) {
          var o, d := EdgeHasDependency(options, c);
          var q, e := EdgeHasDependency(options, f);
          EndsMatch(c, f);
          assert false;
        }
      }
    }
  }

  lemma ContradictedBy(edges: seq<Edge>, c: Edge, f: Edge)
    requires NoContradiction(edges) && c in edges && c.kind == Conflicts && f in edges && (f.kind == Requires || f.kind == Forces)
    ensures !(f.from == c.from && f.to == c.to) && !(f.from == c.to && f.to == c.from)
  {
    assert !Contradicted(edges, c);
    assert !SameEnds(c, f);
  }

  lemma EndsMatch(c: Edge, f: Edge)
    requires SameEnds(c, f)
    ensures (f.from == c.from && f.to == c.to) || (f.from == c.to && f.to == c.from)
  {
    assert c.from in {f.from, f.to} && c.to in {f.from, f.to} && f.from in {c.from, c.to} && f.to in {c.from, c.to};
  }
}
