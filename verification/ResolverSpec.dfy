/**
 What resolving a project means: the last write to an option wins, in the order default,
 farthest to nearest base profile, target, selected profile, user.
 */
module ResolverSpec {
  import opened Model
  import opened Text
  import opened Pigeonhole

  datatype Write = Write(id: string, value: Value, source: string)

  datatype ResolvedValue = Vacant | Resolved(id: string, value: Value, source: Option<string>)

  function IdOf(v: ResolvedValue): string {
    if v.Resolved? then v.id else ""
  }

  // The base chain.

  ghost predicate IsFirstProfile(profiles: seq<Profile>, name: string, i: nat) {
    i < |profiles| && profiles[i].name == name && forall k :: 0 <= k < i ==> profiles[k].name != name
  }

  ghost predicate KnownProfile(profiles: seq<Profile>, name: string) {
    exists i :: 0 <= i < |profiles| && profiles[i].name == name
  }

  /** Entry k + 1 of the walk is the profile that the base of entry k names. */
  ghost predicate BaseLink(profiles: seq<Profile>, walk: seq<nat>, k: nat)
    requires k + 1 < |walk|
  {
    && walk[k] < |profiles| && profiles[walk[k]].base.Some?
    && IsFirstProfile(profiles, profiles[walk[k]].base.value, walk[k + 1])
  }

  /** `walk` follows base links from the profile called `name`. */
  ghost predicate IsBaseWalk(profiles: seq<Profile>, name: string, walk: seq<nat>) {
    && |walk| > 0
    && IsFirstProfile(profiles, name, walk[0])
    && (forall k :: 0 <= k < |walk| ==> walk[k] < |profiles|)
    && forall k :: 0 <= k < |walk| - 1 ==> BaseLink(profiles, walk, k)
  }

  /** A walk that ends in a profile without a base. */
  ghost predicate IsBaseChain(profiles: seq<Profile>, name: string, chain: seq<nat>) {
    IsBaseWalk(profiles, name, chain) && profiles[chain[|chain| - 1]].base.None?
  }

  /** Following base links comes back to a profile already seen. */
  ghost predicate BaseCycle(profiles: seq<Profile>, name: string) {
    exists walk :: IsBaseWalk(profiles, name, walk) && !Distinct(walk)
  }

  /** A profile on the way, or the selected one, is not defined. */
  ghost predicate BaseMissing(profiles: seq<Profile>, name: string) {
    || !KnownProfile(profiles, name)
    || exists walk :: IsBaseWalk(profiles, name, walk) && LeadsNowhere(profiles, walk)
  }

  ghost predicate LeadsNowhere(profiles: seq<Profile>, walk: seq<nat>)
    requires |walk| > 0 && walk[|walk| - 1] < |profiles|
  {
    var base := profiles[walk[|walk| - 1]].base;
    base.Some? && !KnownProfile(profiles, base.value)
  }

  lemma WalkPrefix(profiles: seq<Profile>, name: string, walk: seq<nat>, n: nat)
    requires IsBaseWalk(profiles, name, walk) && 0 < n <= |walk|
    ensures IsBaseWalk(profiles, name, walk[..n])
  {
    forall k | 0 <= k < n - 1
      ensures BaseLink(profiles, walk[..n], k)
    {
      assert BaseLink(profiles, walk, k);
    }
  }

  lemma WalkExtends(profiles: seq<Profile>, name: string, walk: seq<nat>, next: nat)
    requires IsBaseWalk(profiles, name, walk) && profiles[walk[|walk| - 1]].base.Some?
    requires IsFirstProfile(profiles, profiles[walk[|walk| - 1]].base.value, next)
    ensures IsBaseWalk(profiles, name, walk + [next])
  {
    forall k | 0 <= k < |walk|
      ensures BaseLink(profiles, walk + [next], k)
    {
      if k < |walk| - 1 {
        assert BaseLink(profiles, walk, k);
      }
    }
  }

  lemma InnerHasBase(profiles: seq<Profile>, name: string, walk: seq<nat>, k: nat)
    requires IsBaseWalk(profiles, name, walk) && k < |walk| - 1
    ensures profiles[walk[k]].base.Some? && IsFirstProfile(profiles, profiles[walk[k]].base.value, walk[k + 1])
  {
    assert BaseLink(profiles, walk, k);
  }

  /** Base links are deterministic: two walks agree as far as both go. */
  lemma {:induction false} WalksAgree(profiles: seq<Profile>, name: string, v: seq<nat>, w: seq<nat>)
    requires IsBaseWalk(profiles, name, v) && IsBaseWalk(profiles, name, w) && |v| <= |w|
    ensures v == w[..|v|]
  {
    var n := |v| - 1;
    if n == 0 {
      assert v == [v[0]];
    } else {
      WalkPrefix(profiles, name, v, n);
      WalksAgree(profiles, name, v[..n], w);
      assert v[n - 1] == v[..n][n - 1] == w[n - 1];
      InnerHasBase(profiles, name, v, n - 1);
      InnerHasBase(profiles, name, w, n - 1);
      assert v == v[..n] + [v[n]] && w[..n + 1] == w[..n] + [w[n]];
    }
  }

  lemma {:induction false} RepeatedSuffix(profiles: seq<Profile>, name: string, w: seq<nat>, i: nat, j: nat, k: nat)
    requires IsBaseWalk(profiles, name, w) && i < j && j + k < |w| && w[i] == w[j]
    ensures w[i + k] == w[j + k]
  {
    if k > 0 {
      RepeatedSuffix(profiles, name, w, i, j, k - 1);
      InnerHasBase(profiles, name, w, i + k - 1);
      InnerHasBase(profiles, name, w, j + k - 1);
    }
  }

  /** A chain that ends never repeats a profile. */
  lemma ChainIsDistinct(profiles: seq<Profile>, name: string, chain: seq<nat>)
    requires IsBaseChain(profiles, name, chain)
    ensures Distinct(chain)
  {
    forall i, j | 0 <= i < j < |chain|
      ensures chain[i] != chain[j]
    {
      if chain[i] == chain[j] {
        var k := |chain| - 1 - j;
        InnerHasBase(profiles, name, chain, i + k);
        RepeatedSuffix(profiles, name, chain, i, j, k);
      }
    }
  }

  /** No walk goes past the end of a chain. */
  lemma WalkWithinChain(profiles: seq<Profile>, name: string, chain: seq<nat>, walk: seq<nat>)
    requires IsBaseChain(profiles, name, chain) && IsBaseWalk(profiles, name, walk)
    ensures |walk| <= |chain| && walk == chain[..|walk|]
  {
    if |walk| > |chain| {
      InnerHasBase(profiles, name, walk, |chain| - 1);
      WalksAgree(profiles, name, chain, walk);
    } else {
      WalksAgree(profiles, name, walk, chain);
    }
  }

  /** A complete chain excludes a cycle and a missing profile. */
  lemma ChainExcludesErrors(profiles: seq<Profile>, name: string, chain: seq<nat>)
    requires IsBaseChain(profiles, name, chain)
    ensures !BaseCycle(profiles, name) && !BaseMissing(profiles, name)
  {
    ChainIsDistinct(profiles, name, chain);
    forall walk | IsBaseWalk(profiles, name, walk)
      ensures Distinct(walk) && !LeadsNowhere(profiles, walk)
    {
      WalkWithinChain(profiles, name, chain, walk);
      if |walk| < |chain| {
        InnerHasBase(profiles, name, chain, |walk| - 1);
      }
    }
  }

  /** A walk that repeats a profile never reaches an unknown one. */
  lemma CycleExcludesMissing(profiles: seq<Profile>, name: string)
    requires BaseCycle(profiles, name)
    ensures !BaseMissing(profiles, name)
  {
    var w :| IsBaseWalk(profiles, name, w) && !Distinct(w);
    var i, j :| 0 <= i < j < |w| && w[i] == w[j];
    forall v | IsBaseWalk(profiles, name, v)
      ensures !LeadsNowhere(profiles, v)
    {
      if |v| < |w| {
        WalksAgree(profiles, name, v, w);
        InnerHasBase(profiles, name, w, |v| - 1);
      } else {
        WalksAgree(profiles, name, w, v);
        var k := |v| - 1 - j;
        RepeatedSuffix(profiles, name, v, i, j, k);
        InnerHasBase(profiles, name, v, i + k);
      }
    }
  }

  lemma ChainUnique(profiles: seq<Profile>, name: string, c: seq<nat>, d: seq<nat>)
    requires IsBaseChain(profiles, name, c) && IsBaseChain(profiles, name, d)
    ensures c == d
  {
    WalkWithinChain(profiles, name, c, d);
    WalkWithinChain(profiles, name, d, c);
  }

  // Target selection.

  /** The explicit target, else the one of the nearest profile of the chain that names any. */
  function SelectedTarget(profiles: seq<Profile>, chain: seq<nat>, explicit: Option<string>): (t: Option<string>)
    requires forall k :: 0 <= k < |chain| ==> chain[k] < |profiles|
    ensures explicit.Some? ==> t == explicit
    ensures explicit.None? && t.None? ==> forall k :: 0 <= k < |chain| ==> profiles[chain[k]].target.None?
    ensures explicit.None? && t.Some? ==>
              exists k :: 0 <= k < |chain| && profiles[chain[k]].target == t
                          && forall m :: 0 <= m < k ==> profiles[chain[m]].target.None?
  {
    if explicit.Some? then explicit
    else if chain == [] then None
    else if profiles[chain[0]].target.Some? then
      assert profiles[chain[0]].target.Some?;
      profiles[chain[0]].target
    else
      var t := SelectedTarget(profiles, chain[1..], None);
      assert t.Some? ==> exists k :: 0 <= k < |chain| && profiles[chain[k]].target == t
                                     && forall m :: 0 <= m < k ==> profiles[chain[m]].target.None? by {
        if t.Some? {
          var k :| 0 <= k < |chain[1..]| && profiles[chain[1..][k]].target == t
                   && forall m :: 0 <= m < k ==> profiles[chain[1..][m]].target.None?;
          assert profiles[chain[k + 1]].target == t;
          forall m | 0 <= m < k + 1
            ensures profiles[chain[m]].target.None?
          {
            assert m == 0 || chain[m] == chain[1..][m - 1];
          }
        }
      }
      t
  }

  ghost predicate IsFirstTarget(targets: seq<Target>, name: string, i: nat) {
    i < |targets| && targets[i].name == name && forall k :: 0 <= k < i ==> targets[k].name != name
  }

  /** The profiles and the target that take part in a resolution. */
  datatype Plan = Plan(chain: seq<nat>, target: Option<nat>)

  ghost predicate IsPlan(p: Project, profileName: Option<string>, targetName: Option<string>, plan: Plan) {
    && (forall k :: 0 <= k < |plan.chain| ==> plan.chain[k] < |p.profiles|)
    && (match profileName
        case None => plan.chain == []
        case Some(name) => IsBaseChain(p.profiles, name, plan.chain))
    && (match SelectedTarget(p.profiles, plan.chain, targetName)
        case None => plan.target.None?
        case Some(name) => plan.target.Some? && IsFirstTarget(p.targets, name, plan.target.value))
  }

  lemma PlanUnique(p: Project, profileName: Option<string>, targetName: Option<string>, c: Plan, d: Plan)
    requires IsPlan(p, profileName, targetName, c) && IsPlan(p, profileName, targetName, d)
    ensures c == d
  {
    if profileName.Some? {
      ChainUnique(p.profiles, profileName.value, c.chain, d.chain);
    }
  }

  // Writes.

  function DefaultWrites(options: seq<ConfigOption>): (w: seq<Write>)
    ensures |w| == |options|
  {
    seq(|options|, i requires 0 <= i < |options| => Write(options[i].id, options[i].default, "default"))
  }

  function LayerWrite(v: NamedValue, fallback: string): Write {
    Write(v.id, v.value, if v.source.Some? then v.source.value else fallback)
  }

  /** The writes of one profile, target or user layer, in order. */
  function LayerWrites(values: seq<NamedValue>, fallback: string): (w: seq<Write>)
    ensures |w| == |values|
  {
    seq(|values|, i requires 0 <= i < |values| => LayerWrite(values[i], fallback))
  }

  function ProfileWrites(p: Profile): seq<Write> {
    LayerWrites(p.values, p.name)
  }

  /** The base profiles behind the selected one, farthest first. */
  function BaseWrites(profiles: seq<Profile>, chain: seq<nat>): seq<Write>
    requires forall k :: 0 <= k < |chain| ==> chain[k] < |profiles|
  {
    if |chain| <= 1 then []
    else ProfileWrites(profiles[chain[|chain| - 1]]) + BaseWrites(profiles, chain[..|chain| - 1])
  }

  function TargetWrites(targets: seq<Target>, target: Option<nat>): seq<Write>
    requires target.Some? ==> target.value < |targets|
  {
    if target.None? then [] else LayerWrites(targets[target.value].values, targets[target.value].name)
  }

  function SelectedWrites(profiles: seq<Profile>, chain: seq<nat>): seq<Write>
    requires forall k :: 0 <= k < |chain| ==> chain[k] < |profiles|
  {
    if chain == [] then [] else ProfileWrites(profiles[chain[0]])
  }

  /** Everything a plan writes after the defaults. */
  function OverrideWrites(p: Project, plan: Plan, user: seq<NamedValue>): seq<Write>
    requires forall k :: 0 <= k < |plan.chain| ==> plan.chain[k] < |p.profiles|
    requires plan.target.Some? ==> plan.target.value < |p.targets|
  {
    BaseWrites(p.profiles, plan.chain) + TargetWrites(p.targets, plan.target)
    + SelectedWrites(p.profiles, plan.chain) + LayerWrites(user, "user")
  }

  /** The last write to an option. */
  function Final(writes: seq<Write>, id: string): (w: Option<Write>)
    ensures w.Some? ==> w.value in writes && w.value.id == id
    ensures w.None? ==> forall x :: x in writes ==> x.id != id
  {
    if writes == [] then None
    else if writes[|writes| - 1].id == id then Some(writes[|writes| - 1])
    else Final(writes[..|writes| - 1], id)
  }

  function Later(a: Option<Write>, b: Option<Write>): Option<Write> {
    if b.Some? then b else a
  }

  lemma {:induction false} FinalAppend(a: seq<Write>, b: seq<Write>, id: string)
    ensures Final(a + b, id) == Later(Final(a, id), Final(b, id))
  {
    if b == [] {
      assert a + b == a;
    } else {
      var n := |b| - 1;
      FinalAppend(a, b[..n], id);
      assert (a + b)[..|a + b| - 1] == a + b[..n];
    }
  }

  ghost predicate WriteAdmitted(options: seq<ConfigOption>, w: Write) {
    exists o :: o in options && o.id == w.id && Admits(o, w.value)
  }

  /** Every write, even one that is overridden later, names a known option and fits it. */
  ghost predicate AllAdmitted(options: seq<ConfigOption>, writes: seq<Write>) {
    forall w :: w in writes ==> WriteAdmitted(options, w)
  }

  ghost predicate Active(writes: seq<Write>, id: string) {
    Final(writes, id).Some? && IsActive(Final(writes, id).value.value)
  }

  ghost predicate DependencyHolds(writes: seq<Write>, d: Dependency) {
    && (d.kind == Requires ==> Active(writes, d.target))
    && (d.kind == Conflicts ==> !Active(writes, d.target))
  }

  /** Only requires and conflicts of active options are enforced. */
  ghost predicate DependenciesHold(options: seq<ConfigOption>, writes: seq<Write>) {
    forall o, d :: o in options && d in o.dependencies && Active(writes, o.id) ==> DependencyHolds(writes, d)
  }

  /** The entry of one option after all writes. */
  ghost predicate IsEntry(writes: seq<Write>, id: string, v: ResolvedValue) {
    && v.Resolved? && v.id == id && v.source.Some?
    && Final(writes, id) == Some(Write(id, v.value, v.source.value))
  }

  /** One entry for each option, strictly sorted by id, holding the last write and its source. */
  ghost predicate IsSnapshot(options: seq<ConfigOption>, writes: seq<Write>, values: seq<ResolvedValue>) {
    && StrictlySorted(IdOf, values)
    && |values| == |options|
    && (forall o :: o in options ==> exists v :: v in values && IsEntry(writes, o.id, v))
    && (forall v :: v in values ==> v.Resolved? && IsEntry(writes, v.id, v) && exists o :: o in options && o.id == v.id)
  }

  function AllWrites(p: Project, plan: Plan, user: seq<NamedValue>): seq<Write>
    requires forall k :: 0 <= k < |plan.chain| ==> plan.chain[k] < |p.profiles|
    requires plan.target.Some? ==> plan.target.value < |p.targets|
  {
    DefaultWrites(p.options) + OverrideWrites(p, plan, user)
  }

  /** The names resolve and every write fits. */
  ghost predicate Applies(p: Project, profileName: Option<string>, targetName: Option<string>,
                          user: seq<NamedValue>, plan: Plan)
  {
    IsPlan(p, profileName, targetName, plan) && AllAdmitted(p.options, AllWrites(p, plan, user))
  }

  ghost predicate Applicable(p: Project, profileName: Option<string>, targetName: Option<string>, user: seq<NamedValue>) {
    exists plan :: Applies(p, profileName, targetName, user, plan)
  }

  ghost predicate Satisfied(p: Project, profileName: Option<string>, targetName: Option<string>, user: seq<NamedValue>) {
    exists plan :: Applies(p, profileName, targetName, user, plan)
                   && DependenciesHold(p.options, AllWrites(p, plan, user))
  }

  /** `values` is the resolved configuration. */
  ghost predicate IsResolution(p: Project, profileName: Option<string>, targetName: Option<string>,
                               user: seq<NamedValue>, values: seq<ResolvedValue>)
  {
    exists plan ::
      && Applies(p, profileName, targetName, user, plan)
      && DependenciesHold(p.options, AllWrites(p, plan, user))
      && IsSnapshot(p.options, AllWrites(p, plan, user), values)
  }
}
