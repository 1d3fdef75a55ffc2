/** What a successful resolution promises, whatever the project. */
module ResolverLaws {
  import opened Model
  import opened Text
  import opened ResolverSpec

  /** Which layer an option's value and source come from: the last of the five that writes it. */
  lemma LayerPrecedence(p: Project, plan: Plan, user: seq<NamedValue>, id: string)
    requires forall k :: 0 <= k < |plan.chain| ==> plan.chain[k] < |p.profiles|
    requires plan.target.Some? ==> plan.target.value < |p.targets|
    ensures Final(AllWrites(p, plan, user), id)
         == Later(Later(Later(Later(Final(DefaultWrites(p.options), id),
                                    Final(BaseWrites(p.profiles, plan.chain), id)),
                              Final(TargetWrites(p.targets, plan.target), id)),
                        Final(SelectedWrites(p.profiles, plan.chain), id)),
                  Final(LayerWrites(user, "user"), id))
  {
    hide DefaultWrites, BaseWrites, TargetWrites, SelectedWrites, LayerWrites, Final;
    var d, b, t := DefaultWrites(p.options), BaseWrites(p.profiles, plan.chain), TargetWrites(p.targets, plan.target);
    var s, u := SelectedWrites(p.profiles, plan.chain), LayerWrites(user, "user");
    assert AllWrites(p, plan, user) == d + (b + t + s + u);
    assert d + (b + t + s + u) == d + b + t + s + u;
    FinalAppend(d + b + t + s, u, id);
    FinalAppend(d + b + t, s, id);
    FinalAppend(d + b, t, id);
    FinalAppend(d, b, id);
  }

  /** Among base profiles the nearer one wins. */
  lemma NearerBaseWins(profiles: seq<Profile>, chain: seq<nat>, id: string)
    requires |chain| > 1 && forall k :: 0 <= k < |chain| ==> chain[k] < |profiles|
    ensures Final(BaseWrites(profiles, chain), id)
         == Later(Final(ProfileWrites(profiles[chain[|chain| - 1]]), id),
                  Final(BaseWrites(profiles, chain[..|chain| - 1]), id))
  {
    FinalAppend(ProfileWrites(profiles[chain[|chain| - 1]]), BaseWrites(profiles, chain[..|chain| - 1]), id);
  }

  // Closure under requires.

  ghost predicate RequiresStep(options: seq<ConfigOption>, from: string, to: string) {
    exists o :: o in options && o.id == from && Dependency(Requires, to) in o.dependencies
  }

  ghost predicate RequiresPath(options: seq<ConfigOption>, path: seq<string>) {
    |path| > 0 && forall k :: 0 < k < |path| ==> RequiresStep(options, path[k - 1], path[k])
  }

  /** Everything reachable from an active option over requires exists and is active. */
  lemma {:induction false} RequiresClosure(options: seq<ConfigOption>, writes: seq<Write>, path: seq<string>)
    requires DependenciesHold(options, writes) && AllAdmitted(options, writes)
    requires RequiresPath(options, path) && Active(writes, path[0])
    ensures Active(writes, path[|path| - 1])
    ensures exists o :: o in options && o.id == path[|path| - 1]
  {
    var n := |path| - 1;
    if n == 0 {
      var w := Final(writes, path[0]).value;
      assert WriteAdmitted(options, w);
    } else {
      assert RequiresPath(options, path[..n]) by {
        forall k | 0 < k < n
          ensures RequiresStep(options, path[..n][k - 1], path[..n][k])
        {
          assert RequiresStep(options, path[k - 1], path[k]);
        }
      }
      RequiresClosure(options, writes, path[..n]);
      assert RequiresStep(options, path[n - 1], path[n]);
      var o :| o in options && o.id == path[n - 1] && Dependency(Requires, path[n]) in o.dependencies;
      assert DependencyHolds(writes, Dependency(Requires, path[n]));
      var w := Final(writes, path[n]).value;
      assert WriteAdmitted(options, w);
    }
  }

  ghost predicate ConflictEdge(options: seq<ConfigOption>, from: string, to: string) {
    exists o :: o in options && o.id == from && Dependency(Conflicts, to) in o.dependencies
  }

  lemma EnforcedDependency(options: seq<ConfigOption>, writes: seq<Write>, o: ConfigOption, d: Dependency)
    requires DependenciesHold(options, writes) && o in options && d in o.dependencies && Active(writes, o.id)
    ensures DependencyHolds(writes, d)
  {
  }

  /** No active option conflicts, in either direction, with anything an active option reaches. */
  lemma NoConflictInClosure(options: seq<ConfigOption>, writes: seq<Write>, path: seq<string>, other: string)
    requires DependenciesHold(options, writes) && AllAdmitted(options, writes)
    requires RequiresPath(options, path) && Active(writes, path[0]) && Active(writes, other)
    ensures !ConflictEdge(options, path[|path| - 1], other) && !ConflictEdge(options, other, path[|path| - 1])
  {
    RequiresClosure(options, writes, path);
    var last := path[|path| - 1];
    forall o | o in options && o.id == last && Dependency(Conflicts, other) in o.dependencies
      ensures false
    {
      EnforcedDependency(options, writes, o, Dependency(Conflicts, other));
    }
    forall o | o in options && o.id == other && Dependency(Conflicts, last) in o.dependencies
      ensures false
    {
      EnforcedDependency(options, writes, o, Dependency(Conflicts, last));
    }
  }

  // The same promises, read off the resolved list.

  ghost predicate ListedActive(values: seq<ResolvedValue>, id: string) {
    exists v :: v in values && v.Resolved? && v.id == id && IsActive(v.value)
  }

  lemma ListedIsActive(options: seq<ConfigOption>, writes: seq<Write>, values: seq<ResolvedValue>, id: string)
    requires IsSnapshot(options, writes, values) && AllAdmitted(options, writes)
    ensures ListedActive(values, id) <==> Active(writes, id)
  {
    hide Final, StrictlySorted;
    if v :| v in values && v.Resolved? && v.id == id && IsActive(v.value) {
      assert IsEntry(writes, v.id, v);
    }
    if Active(writes, id) {
      assert WriteAdmitted(options, Final(writes, id).value);
      var o :| o in options && o.id == id;
      var v :| v in values && IsEntry(writes, o.id, v);
    }
  }

  /** In a resolved configuration whatever an active option requires, directly or not, is listed as active. */
  lemma ResolvedClosure(p: Project, profileName: Option<string>, targetName: Option<string>, user: seq<NamedValue>,
                        values: seq<ResolvedValue>, path: seq<string>)
    requires IsResolution(p, profileName, targetName, user, values)
    requires RequiresPath(p.options, path) && ListedActive(values, path[0])
    ensures ListedActive(values, path[|path| - 1])
    ensures forall other :: ListedActive(values, other) ==>
              !ConflictEdge(p.options, path[|path| - 1], other) && !ConflictEdge(p.options, other, path[|path| - 1])
  {
    hide IsSnapshot, AllAdmitted, DependenciesHold, Active, ListedActive, AllWrites;
    var plan :| Applies(p, profileName, targetName, user, plan)
                && DependenciesHold(p.options, AllWrites(p, plan, user))
                && IsSnapshot(p.options, AllWrites(p, plan, user), values);
    var writes := AllWrites(p, plan, user);
    ListedIsActive(p.options, writes, values, path[0]);
    RequiresClosure(p.options, writes, path);
    ListedIsActive(p.options, writes, values, path[|path| - 1]);
    forall other | ListedActive(values, other)
      ensures !ConflictEdge(p.options, path[|path| - 1], other) && !ConflictEdge(p.options, other, path[|path| - 1])
    {
      ListedIsActive(p.options, writes, values, other);
      NoConflictInClosure(p.options, writes, path, other);
    }
  }

  /** The values that count as switched off. */
  ghost predicate IsOff(v: Value) {
    || v == Empty || v == Bool(false) || v == Int(0) || v == UInt(0) || v == Float(Real(0.0))
    || v == Str("") || v == Enum("") || v == Path("")
  }

  ghost predicate IsOn(values: seq<ResolvedValue>, id: string) {
    exists v :: v in values && v.Resolved? && v.id == id && !IsOff(v.value)
  }

  /** Requires and conflicts of the options that are on; other kinds of dependencies do not matter. */
  ghost predicate AreRespected(options: seq<ConfigOption>, values: seq<ResolvedValue>) {
    forall o, d :: o in options && d in o.dependencies && IsOn(values, o.id) ==>
      (d.kind == Requires ==> IsOn(values, d.target)) && (d.kind == Conflicts ==> !IsOn(values, d.target))
  }

  /** What is enforced, no more and no less, read off the values. */
  lemma EnforcedExactly(options: seq<ConfigOption>, writes: seq<Write>, values: seq<ResolvedValue>)
    requires IsSnapshot(options, writes, values) && AllAdmitted(options, writes)
    ensures DependenciesHold(options, writes) <==> AreRespected(options, values)
  {
    hide IsSnapshot, AllAdmitted, Active, IsOn;
    forall id
      ensures IsOn(values, id) <==> Active(writes, id)
    {
      ListedIsActive(options, writes, values, id);
      OnIsListed(values, id);
    }
    if DependenciesHold(options, writes) {
      forall o, d | o in options && d in o.dependencies && IsOn(values, o.id)
        ensures (d.kind == Requires ==> IsOn(values, d.target)) && (d.kind == Conflicts ==> !IsOn(values, d.target))
      {
        EnforcedDependency(options, writes, o, d);
      }
    }
    if AreRespected(options, values) {
      forall o, d | o in options && d in o.dependencies && Active(writes, o.id)
        ensures DependencyHolds(writes, d)
      {
        assert IsOn(values, o.id);
      }
    }
  }

  lemma OnIsListed(values: seq<ResolvedValue>, id: string)
    ensures IsOn(values, id) <==> ListedActive(values, id)
  {
    if v :| v in values && v.Resolved? && v.id == id && !IsOff(v.value) {
      InactiveValues(v.value);
    }
    if v :| v in values && v.Resolved? && v.id == id && IsActive(v.value) {
      InactiveValues(v.value);
    }
  }

  /**
   Read off the values: in a resolved configuration an option that is not off has what it requires
   switched on, and what it conflicts with switched off.
   */
  lemma ResolvedDependencies(p: Project, profileName: Option<string>, targetName: Option<string>, user: seq<NamedValue>,
                             values: seq<ResolvedValue>, o: ConfigOption, target: string, a: ResolvedValue)
    requires IsResolution(p, profileName, targetName, user, values)
    requires o in p.options && a in values && a.Resolved? && a.id == o.id && !IsOff(a.value)
    ensures Dependency(Requires, target) in o.dependencies ==>
              exists b :: b in values && b.Resolved? && b.id == target && !IsOff(b.value)
    ensures Dependency(Conflicts, target) in o.dependencies ==>
              forall b :: b in values && b.Resolved? && b.id == target ==> IsOff(b.value)
  {
    hide IsSnapshot, AllAdmitted, Active, AllWrites;
    var plan :| Applies(p, profileName, targetName, user, plan)
                && DependenciesHold(p.options, AllWrites(p, plan, user))
                && IsSnapshot(p.options, AllWrites(p, plan, user), values);
    var writes := AllWrites(p, plan, user);
    InactiveValues(a.value);
    ListedIsActive(p.options, writes, values, o.id);
    ListedIsActive(p.options, writes, values, target);
    if Dependency(Requires, target) in o.dependencies {
      EnforcedDependency(p.options, writes, o, Dependency(Requires, target));
      var b :| b in values && b.Resolved? && b.id == target && IsActive(b.value);
      InactiveValues(b.value);
    }
    if Dependency(Conflicts, target) in o.dependencies {
      EnforcedDependency(p.options, writes, o, Dependency(Conflicts, target));
      forall b | b in values && b.Resolved? && b.id == target
        ensures IsOff(b.value)
      {
        InactiveValues(b.value);
      }
    }
  }

  /** For two flags: a required one is true, a conflicting one is not. */
  lemma ResolvedFlags(p: Project, profileName: Option<string>, targetName: Option<string>, user: seq<NamedValue>,
                      values: seq<ResolvedValue>, o: ConfigOption, a: ResolvedValue, b: ResolvedValue)
    requires IsResolution(p, profileName, targetName, user, values)
    requires o in p.options && a in values && b in values && a.Resolved? && b.Resolved?
    requires a.id == o.id && a.value == Bool(true) && b.value.Bool?
    ensures Dependency(Requires, b.id) in o.dependencies ==> b.value == Bool(true)
    ensures Dependency(Conflicts, b.id) in o.dependencies ==> b.value == Bool(false)
  {
    hide IsSnapshot, AllAdmitted, DependenciesHold, AllWrites;
    ResolvedDependencies(p, profileName, targetName, user, values, o, b.id, a);
    if Dependency(Requires, b.id) in o.dependencies {
      var c :| c in values && c.Resolved? && c.id == b.id && !IsOff(c.value);
      EntryUnique(p, profileName, targetName, user, values, b, c);
    }
  }

  lemma EntryUnique(p: Project, profileName: Option<string>, targetName: Option<string>, user: seq<NamedValue>,
                    values: seq<ResolvedValue>, b: ResolvedValue, c: ResolvedValue)
    requires IsResolution(p, profileName, targetName, user, values)
    requires b in values && c in values && b.Resolved? && c.Resolved? && b.id == c.id
    ensures b == c
  {
    hide AllAdmitted, DependenciesHold, AllWrites, IsEntry;
    assert StrictlySorted(IdOf, values);
    var i :| 0 <= i < |values| && values[i] == b;
    var j :| 0 <= j < |values| && values[j] == c;
    if i < j {
      KeysDiffer(values, i, j);
    } else if j < i {
      KeysDiffer(values, j, i);
    }
  }

  lemma KeysDiffer(values: seq<ResolvedValue>, i: nat, j: nat)
    requires StrictlySorted(IdOf, values) && i < j < |values|
    ensures IdOf(values[i]) != IdOf(values[j])
  {
    LessIrreflexive(IdOf(values[i]));
  }

  // The documented target rule.

  /**
   The header promises the selected profile's own target when none is given; the resolver takes the
   nearest one of the chain. They agree unless only a base profile names a target.
   */
  lemma TargetFollowsHeader(profiles: seq<Profile>, chain: seq<nat>)
    requires |chain| > 0 && forall k :: 0 <= k < |chain| ==> chain[k] < |profiles|
    ensures SelectedTarget(profiles, chain, None) == profiles[chain[0]].target
       <==> (profiles[chain[0]].target.Some? || forall k :: 0 < k < |chain| ==> profiles[chain[k]].target.None?)
  {
  }

  lemma TargetOfBaseIsInherited()
    ensures exists profiles: seq<Profile>, chain: seq<nat> ::
      && (forall k :: 0 <= k < |chain| ==> chain[k] < |profiles|)
      && IsBaseChain(profiles, "board", chain) && profiles[chain[0]].target == None
      && SelectedTarget(profiles, chain, None) == Some("arm")
  {
    var profiles := [Profile("board", Some("common"), None, []), Profile("common", None, Some("arm"), [])];
    var chain := [0, 1];
    assert BaseLink(profiles, chain, 0);
    assert profiles[chain[0]].target == None && profiles[chain[1]].target == Some("arm");
    assert IsBaseChain(profiles, "board", chain);
    assert SelectedTarget(profiles, chain, None) == Some("arm");
  }

  // Independence of the declaration order.

  ghost predicate Reordered(p: Project, q: Project) {
    && q == p.(options := q.options)
    && multiset(p.options) == multiset(q.options)
    && DistinctIds(p.options) && DistinctIds(q.options)
  }

  lemma SameMembers(p: Project, q: Project)
    requires Reordered(p, q)
    ensures |p.options| == |q.options|
    ensures forall o :: o in p.options <==> o in q.options
  {
    assert |p.options| == |multiset(p.options)|;
    forall o
      ensures o in p.options <==> o in q.options
    {
      assert o in p.options <==> o in multiset(p.options);
    }
  }

  lemma DefaultMember(options: seq<ConfigOption>, others: seq<ConfigOption>, w: Write)
    requires forall o :: o in options ==> o in others
    requires w in DefaultWrites(options)
    ensures w in DefaultWrites(others)
  {
    var i :| 0 <= i < |options| && DefaultWrites(options)[i] == w;
    assert options[i] in others;
    var j :| 0 <= j < |others| && others[j] == options[i];
    assert DefaultWrites(others)[j] == w;
  }

  lemma DefaultUnique(options: seq<ConfigOption>, v: Write, w: Write)
    requires DistinctIds(options) && v in DefaultWrites(options) && w in DefaultWrites(options) && v.id == w.id
    ensures v == w
  {
    var i :| 0 <= i < |options| && DefaultWrites(options)[i] == v;
    var j :| 0 <= j < |options| && DefaultWrites(options)[j] == w;
    assert options[i].id == options[j].id;
  }

  lemma SameDefault(p: Project, q: Project, id: string)
    requires Reordered(p, q)
    ensures Final(DefaultWrites(p.options), id) == Final(DefaultWrites(q.options), id)
  {
    SameMembers(p, q);
    var f, g := Final(DefaultWrites(p.options), id), Final(DefaultWrites(q.options), id);
    if f.Some? {
      DefaultMember(p.options, q.options, f.value);
    }
    if g.Some? {
      DefaultMember(q.options, p.options, g.value);
    }
    if f.Some? && g.Some? {
      DefaultUnique(p.options, f.value, g.value);
    }
  }

  lemma SameFinal(p: Project, q: Project, plan: Plan, user: seq<NamedValue>, id: string)
    requires Reordered(p, q)
    requires forall k :: 0 <= k < |plan.chain| ==> plan.chain[k] < |p.profiles|
    requires plan.target.Some? ==> plan.target.value < |p.targets|
    ensures Final(AllWrites(p, plan, user), id) == Final(AllWrites(q, plan, user), id)
  {
    SameDefault(p, q, id);
    FinalAppend(DefaultWrites(p.options), OverrideWrites(p, plan, user), id);
    FinalAppend(DefaultWrites(q.options), OverrideWrites(q, plan, user), id);
  }

  lemma ReorderedApplies(p: Project, q: Project, profileName: Option<string>, targetName: Option<string>,
                         user: seq<NamedValue>, plan: Plan)
    requires Reordered(p, q) && Applies(p, profileName, targetName, user, plan)
    ensures Applies(q, profileName, targetName, user, plan)
  {
    SameMembers(p, q);
    forall w | w in AllWrites(q, plan, user)
      ensures WriteAdmitted(q.options, w)
    {
      if w in DefaultWrites(q.options) {
        DefaultMember(q.options, p.options, w);
      }
      assert w in AllWrites(p, plan, user);
      assert WriteAdmitted(p.options, w);
    }
  }

  lemma ReorderedSatisfies(p: Project, q: Project, plan: Plan, user: seq<NamedValue>)
    requires Reordered(p, q)
    requires forall k :: 0 <= k < |plan.chain| ==> plan.chain[k] < |p.profiles|
    requires plan.target.Some? ==> plan.target.value < |p.targets|
    requires DependenciesHold(p.options, AllWrites(p, plan, user))
    ensures DependenciesHold(q.options, AllWrites(q, plan, user))
  {
    hide Final, AllWrites;
    SameMembers(p, q);
    var v, w := AllWrites(p, plan, user), AllWrites(q, plan, user);
    forall id
      ensures Active(v, id) == Active(w, id)
    {
      SameFinal(p, q, plan, user, id);
    }
    forall o, d | o in q.options && d in o.dependencies && Active(w, o.id)
      ensures DependencyHolds(w, d)
    {
      assert DependencyHolds(v, d);
    }
  }

  lemma ReorderedSnapshot(p: Project, q: Project, plan: Plan, user: seq<NamedValue>, values: seq<ResolvedValue>)
    requires Reordered(p, q)
    requires forall k :: 0 <= k < |plan.chain| ==> plan.chain[k] < |p.profiles|
    requires plan.target.Some? ==> plan.target.value < |p.targets|
    requires IsSnapshot(p.options, AllWrites(p, plan, user), values)
    ensures IsSnapshot(q.options, AllWrites(q, plan, user), values)
  {
    hide Final, AllWrites;
    SameMembers(p, q);
    var v, w := AllWrites(p, plan, user), AllWrites(q, plan, user);
    forall id, entry
      ensures IsEntry(v, id, entry) == IsEntry(w, id, entry)
    {
      SameFinal(p, q, plan, user, id);
    }
  }

  /** A snapshot is determined by its options and writes. */
  lemma SnapshotUnique(options: seq<ConfigOption>, writes: seq<Write>, s: seq<ResolvedValue>, t: seq<ResolvedValue>)
    requires IsSnapshot(options, writes, s) && IsSnapshot(options, writes, t)
    ensures s == t
  {
    hide IsEntry;
    forall v
      ensures v in s <==> v in t
    {
      if v in s {
        EntryInBoth(options, writes, s, t, v);
      }
      if v in t {
        EntryInBoth(options, writes, t, s, v);
      }
    }
    SortedListUnique(IdOf, s, t);
  }

  lemma EntryInBoth(options: seq<ConfigOption>, writes: seq<Write>, s: seq<ResolvedValue>, t: seq<ResolvedValue>, v: ResolvedValue)
    requires IsSnapshot(options, writes, s) && IsSnapshot(options, writes, t) && v in s
    ensures v in t
  {
    hide Final;
    var o :| o in options && o.id == v.id;
    var x :| x in t && IsEntry(writes, o.id, x);
    assert x == v;
  }

  /** There is at most one resolved configuration. */
  lemma ResolutionUnique(p: Project, profileName: Option<string>, targetName: Option<string>,
                         user: seq<NamedValue>, s: seq<ResolvedValue>, t: seq<ResolvedValue>)
    requires IsResolution(p, profileName, targetName, user, s) && IsResolution(p, profileName, targetName, user, t)
    ensures s == t
  {
    hide IsSnapshot;
    var c :| Applies(p, profileName, targetName, user, c) && IsSnapshot(p.options, AllWrites(p, c, user), s);
    var d :| Applies(p, profileName, targetName, user, d) && IsSnapshot(p.options, AllWrites(p, d, user), t);
    PlanUnique(p, profileName, targetName, c, d);
    SnapshotUnique(p.options, AllWrites(p, c, user), s, t);
  }

  lemma ReorderedResolution(p: Project, q: Project, profileName: Option<string>, targetName: Option<string>,
                            user: seq<NamedValue>, values: seq<ResolvedValue>)
    requires Reordered(p, q) && IsResolution(p, profileName, targetName, user, values)
    ensures IsResolution(q, profileName, targetName, user, values)
  {
    hide IsSnapshot, DependenciesHold;
    var plan :| Applies(p, profileName, targetName, user, plan)
                && DependenciesHold(p.options, AllWrites(p, plan, user))
                && IsSnapshot(p.options, AllWrites(p, plan, user), values);
    ReorderedApplies(p, q, profileName, targetName, user, plan);
    ReorderedSatisfies(p, q, plan, user);
    ReorderedSnapshot(p, q, plan, user, values);
  }

  lemma ReorderedImplies(p: Project, q: Project, profileName: Option<string>, targetName: Option<string>, user: seq<NamedValue>)
    requires Reordered(p, q)
    ensures Applicable(p, profileName, targetName, user) ==> Applicable(q, profileName, targetName, user)
    ensures Satisfied(p, profileName, targetName, user) ==> Satisfied(q, profileName, targetName, user)
  {
    hide DependenciesHold;
    forall plan | Applies(p, profileName, targetName, user, plan)
      ensures Applies(q, profileName, targetName, user, plan)
    {
      ReorderedApplies(p, q, profileName, targetName, user, plan);
    }
    forall plan | Applies(p, profileName, targetName, user, plan) && DependenciesHold(p.options, AllWrites(p, plan, user))
      ensures Applies(q, profileName, targetName, user, plan) && DependenciesHold(q.options, AllWrites(q, plan, user))
    {
      ReorderedApplies(p, q, profileName, targetName, user, plan);
      ReorderedSatisfies(p, q, plan, user);
    }
  }

  /** Declaring the options in another order changes neither the status nor the configuration. */
  lemma OrderIndependence(p: Project, q: Project, profileName: Option<string>, targetName: Option<string>, user: seq<NamedValue>)
    requires Reordered(p, q)
    ensures Applicable(p, profileName, targetName, user) <==> Applicable(q, profileName, targetName, user)
    ensures Satisfied(p, profileName, targetName, user) <==> Satisfied(q, profileName, targetName, user)
    ensures forall s, t ::
      (IsResolution(p, profileName, targetName, user, s) && IsResolution(q, profileName, targetName, user, t)) ==> s == t
  {
    hide Applicable, Satisfied, IsResolution;
    ReorderedImplies(p, q, profileName, targetName, user);
    ReorderedImplies(q, p, profileName, targetName, user);
    forall s, t | IsResolution(p, profileName, targetName, user, s) && IsResolution(q, profileName, targetName, user, t)
      ensures s == t
    {
      ReorderedResolution(p, q, profileName, targetName, user, s);
      ResolutionUnique(q, profileName, targetName, user, s, t);
    }
  }
}
