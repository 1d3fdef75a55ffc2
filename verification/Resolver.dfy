/** The resolver: a configuration whose slots are overwritten layer by layer, then sorted and checked. */
module Resolver {
  import opened Model
  import opened Text
  import opened Pigeonhole
  import opened Concat
  import opened ResolverSpec

  ghost predicate IsFirstOption(options: seq<ConfigOption>, id: string, i: nat) {
    i < |options| && options[i].id == id && forall k :: 0 <= k < i ==> options[k].id != id
  }

  ghost predicate IsFirstSlot(values: seq<ResolvedValue>, id: string, i: nat) {
    && i < |values| && values[i].Resolved? && values[i].id == id
    && forall k :: 0 <= k < i ==> !(values[k].Resolved? && values[k].id == id)
  }

  method FindOption(options: seq<ConfigOption>, id: string) returns (index: Option<nat>)
    ensures index.None? ==> forall i :: 0 <= i < |options| ==> options[i].id != id
    ensures index.Some? ==> IsFirstOption(options, id, index.value)
  {
    for i := 0 to |options|
      invariant forall k :: 0 <= k < i ==> options[k].id != id
    {
      if options[i].id == id {
        return Some(i);
      }
    }
    return None;
  }

  method FindProfile(profiles: seq<Profile>, name: string) returns (index: Option<nat>)
    ensures index.None? ==> !KnownProfile(profiles, name)
    ensures index.Some? ==> IsFirstProfile(profiles, name, index.value)
  {
    for i := 0 to |profiles|
      invariant forall k :: 0 <= k < i ==> profiles[k].name != name
    {
      if profiles[i].name == name {
        return Some(i);
      }
    }
    return None;
  }

  method FindTarget(targets: seq<Target>, name: string) returns (index: Option<nat>)
    ensures index.None? ==> forall i :: 0 <= i < |targets| ==> targets[i].name != name
    ensures index.Some? ==> IsFirstTarget(targets, name, index.value)
  {
    for i := 0 to |targets|
      invariant forall k :: 0 <= k < i ==> targets[k].name != name
    {
      if targets[i].name == name {
        return Some(i);
      }
    }
    return None;
  }

  const BASE_CYCLE := "profile base cycle"
  const UNKNOWN_PROFILE := "unknown profile"
  const UNKNOWN_BASE := "unknown base profile"

  /**
   Collects the base chain of the selected profile. The three outcomes are exclusive: the chain
   is complete, it comes back to a profile already on the stack, or it names an unknown profile.
   */
  method BuildProfileStack(profiles: seq<Profile>, profileName: Option<string>)
    returns (status: Status, stack: seq<nat>, message: string)
    ensures status == Ok || status == SchemaError
    ensures profileName.None? ==> status == Ok && stack == []
    ensures profileName.Some? && status == Ok ==> IsBaseChain(profiles, profileName.value, stack) && Distinct(stack)
    ensures profileName.Some? ==>
              (status == Ok <==> exists chain :: IsBaseChain(profiles, profileName.value, chain))
    ensures profileName.Some? ==>
              && (status != Ok && message == BASE_CYCLE <==> BaseCycle(profiles, profileName.value))
              && (status != Ok && message != BASE_CYCLE <==> BaseMissing(profiles, profileName.value))
  {
    if profileName.None? {
      return Ok, [], "";
    }
    var name := profileName.value;
    var found := FindProfile(profiles, name);
    if found.None? {
      forall chain
        ensures !IsBaseChain(profiles, name, chain)
      {
        if IsBaseChain(profiles, name, chain) {
          ChainExcludesErrors(profiles, name, chain);
        }
      }
      assert !BaseCycle(profiles, name);
      return SchemaError, [], UNKNOWN_PROFILE;
    }
    stack := [];
    var profile := found;
    while profile.Some?
      invariant |stack| <= |profiles| && Distinct(stack)
      invariant profile.Some? ==> IsBaseWalk(profiles, name, stack + [profile.value])
      invariant profile.None? ==> IsBaseChain(profiles, name, stack)
      decreases profile.Some?, |profiles| - |stack|
    {
      var current := profile.value;
      for index := 0 to |stack|
        invariant current !in stack[..index]
      {
        if stack[index] == current {
          RepeatIsCycle(profiles, name, stack, index);
          return SchemaError, [], BASE_CYCLE;
        }
      }
      assert stack[..|stack|] == stack;
      ghost var walk := stack + [current];
      assert walk[|stack|] == current;
      DistinctBound(walk, |profiles|);
      if |stack| >= |profiles| {
        // The second cycle guard of the source is never taken.
        assert false;
      }
      stack := stack + [current];
      if profiles[current].base.Some? {
        var base := FindProfile(profiles, profiles[current].base.value);
        if base.None? {
          MissingIsError(profiles, name, stack);
          return SchemaError, [], UNKNOWN_BASE;
        }
        WalkExtends(profiles, name, stack, base.value);
        profile := base;
      } else {
        profile := None;
      }
    }
    ChainExcludesErrors(profiles, name, stack);
    return Ok, stack, "";
  }

  lemma RepeatIsCycle(profiles: seq<Profile>, name: string, stack: seq<nat>, index: nat)
    requires index < |stack| && IsBaseWalk(profiles, name, stack + [stack[index]])
    ensures BaseCycle(profiles, name) && !BaseMissing(profiles, name)
    ensures !exists chain :: IsBaseChain(profiles, name, chain)
  {
    var walk := stack + [stack[index]];
    assert walk[index] == walk[|stack|];
    assert !Distinct(walk);
    CycleExcludesMissing(profiles, name);
    forall chain | IsBaseChain(profiles, name, chain)
      ensures false
    {
      ChainExcludesErrors(profiles, name, chain);
    }
  }

  lemma MissingIsError(profiles: seq<Profile>, name: string, walk: seq<nat>)
    requires IsBaseWalk(profiles, name, walk) && LeadsNowhere(profiles, walk)
    ensures BaseMissing(profiles, name) && !BaseCycle(profiles, name)
    ensures !exists chain :: IsBaseChain(profiles, name, chain)
  {
    if BaseCycle(profiles, name) {
      CycleExcludesMissing(profiles, name);
    }
    forall chain | IsBaseChain(profiles, name, chain)
      ensures false
    {
      ChainExcludesErrors(profiles, name, chain);
    }
  }

  method SelectTargetName(profiles: seq<Profile>, stack: seq<nat>, targetName: Option<string>)
    returns (selected: Option<string>)
    requires forall k :: 0 <= k < |stack| ==> stack[k] < |profiles|
    ensures selected == SelectedTarget(profiles, stack, targetName)
  {
    if targetName.Some? {
      return targetName;
    }
    for index := 0 to |stack|
      invariant SelectedTarget(profiles, stack, None) == SelectedTarget(profiles, stack[index..], None)
    {
      if profiles[stack[index]].target.Some? {
        return profiles[stack[index]].target;
      }
    }
    return None;
  }

  class ResolvedConfig {
    const values: array<ResolvedValue>

    constructor (count: nat)
      ensures fresh(values) && values.Length == count
      ensures forall i :: 0 <= i < count ==> values[i] == Vacant
    {
      values := new ResolvedValue[count](_ => Vacant);
    }

    method FindIndex(id: string) returns (index: Option<nat>)
      ensures index.None? ==> forall i :: 0 <= i < values.Length ==> !(values[i].Resolved? && values[i].id == id)
      ensures index.Some? ==> IsFirstSlot(values[..], id, index.value)
    {
      for i := 0 to values.Length
        invariant forall k :: 0 <= k < i ==> !(values[k].Resolved? && values[k].id == id)
      {
        if values[i].Resolved? && values[i].id == id {
          return Some(i);
        }
      }
      return None;
    }

    /** Validates, then overwrites the value and the source of the option's slot and nothing else. */
    method SetValue(o: ConfigOption, value: Value, source: string) returns (status: Status)
      modifies values
      ensures !Admits(o, value) ==> status == SchemaError
      ensures Admits(o, value) ==>
        forall k: nat :: IsFirstSlot(old(values[..]), o.id, k) ==>
          status == Ok && values[..] == old(values[..])[k := Resolved(o.id, value, Some(source))]
      ensures status != Ok ==> values[..] == old(values[..])
    {
      status := ValidateValue(o, value);
      if status != Ok {
        return;
      }
      var slot := FindIndex(o.id);
      if slot.None? {
        return InternalError;
      }
      values[slot.value] := Resolved(o.id, value, Some(source));
    }

    method SeedDefaults(options: seq<ConfigOption>) returns (status: Status)
      requires DistinctIds(options) && values.Length == |options|
      requires forall i :: 0 <= i < |options| ==> values[i] == Vacant
      modifies values
      ensures status == if AllAdmitted(options, DefaultWrites(options)) then Ok else SchemaError
      ensures status == Ok ==> Holds(values[..], options, DefaultWrites(options), |options|)
    {
      hide Holds, Admits;
      ghost var writes := DefaultWrites(options);
      SeedStart(values[..], options);
      for index := 0 to |options|
        invariant Holds(values[..], options, writes[..index], index)
        invariant forall k :: 0 <= k < index ==> Admits(options[k], options[k].default)
      {
        var o := options[index];
        ghost var before := values[..];
        values[index] := Resolved(o.id, Empty, None);
        assert values[..] == before[index := Resolved(o.id, Empty, None)];
        SeedSlot(before, options, writes[..index], index);
        status := SetValue(o, o.default, "default");
        if status != Ok {
          NotAdmitted(options, index, writes[index]);
          return;
        }
        SeedStep(before, options, writes, index);
        assert values[..] == before[index := Resolved(o.id, o.default, Some("default"))];
      }
      assert writes[..|options|] == writes;
      forall w | w in writes
        ensures WriteAdmitted(options, w)
      {
        var k :| 0 <= k < |writes| && writes[k] == w;
        assert options[k] in options;
      }
      return Ok;
    }

    /** Applies one layer in order; fails exactly when one of its writes is not admitted. */
    method ApplyNamedValues(options: seq<ConfigOption>, layer: seq<NamedValue>, fallback: string,
                            ghost writes: seq<Write>)
      returns (status: Status)
      requires DistinctIds(options) && Holds(values[..], options, writes, |options|)
      modifies values
      ensures status == if AllAdmitted(options, LayerWrites(layer, fallback)) then Ok else SchemaError
      ensures status == Ok ==> Holds(values[..], options, writes + LayerWrites(layer, fallback), |options|)
    {
      hide Holds, Admits, LayerWrites;
      ghost var added := LayerWrites(layer, fallback);
      assert writes + added[..0] == writes;
      for index := 0 to |layer|
        invariant Holds(values[..], options, writes + added[..index], |options|)
        invariant forall k :: 0 <= k < index ==> WriteAdmitted(options, added[k])
      {
        var v := layer[index];
        var source := if v.source.Some? then v.source.value else fallback;
        ghost var w := Write(v.id, v.value, source);
        LayerWritesAt(layer, fallback, index);
        var found := FindOption(options, v.id);
        if found.None? {
          UnknownNotAdmitted(options, w);
          return SchemaError;
        }
        var k := found.value;
        ghost var before := values[..];
        FirstSlotOfOption(before, options, writes + added[..index], k);
        status := SetValue(options[k], v.value, source);
        if status != Ok {
          NotAdmitted(options, k, w);
          return;
        }
        assert options[k] in options;
        WriteStep(before, options, writes + added[..index], k, w);
        assert writes + added[..index + 1] == writes + added[..index] + [w];
      }
      assert added[..|layer|] == added;
      return Ok;
    }

    /** Base profiles from the far end of the stack down to, not including, the selected one. */
    method ApplyBases(p: Project, stack: seq<nat>, ghost writes: seq<Write>) returns (status: Status)
      requires forall k :: 0 <= k < |stack| ==> stack[k] < |p.profiles|
      requires DistinctIds(p.options) && Holds(values[..], p.options, writes, |p.options|)
      modifies values
      ensures status == if AllAdmitted(p.options, BaseWrites(p.profiles, stack)) then Ok else SchemaError
      ensures status == Ok ==> Holds(values[..], p.options, writes + BaseWrites(p.profiles, stack), |p.options|)
    {
      hide Holds, AllAdmitted, LayerWrites;
      ghost var done: seq<Write> := [];
      var reverse := |stack|;
      assert writes + done == writes && stack[..reverse] == stack;
      BaseWritesEnd(p, stack);
      while reverse > 1
        invariant 0 <= reverse <= |stack|
        invariant BaseWrites(p.profiles, stack) == done + BaseWrites(p.profiles, stack[..reverse])
        invariant AllAdmitted(p.options, done)
        invariant Holds(values[..], p.options, writes + done, |p.options|)
      {
        var base := p.profiles[stack[reverse - 1]];
        BaseWritesStep(p, stack, reverse, done);
        AdmittedAppend(p.options, done, ProfileWrites(base));
        AdmittedAppend(p.options, done + ProfileWrites(base), BaseWrites(p.profiles, stack[..reverse - 1]));
        assert (writes + done) + ProfileWrites(base) == writes + (done + ProfileWrites(base));
        reverse := reverse - 1;
        status := ApplyNamedValues(p.options, base.values, base.name, writes + done);
        if status != Ok {
          return;
        }
        done := done + ProfileWrites(base);
      }
      BaseWritesEnd(p, stack[..reverse]);
      assert done + [] == done;
      return Ok;
    }

    /** The target, then the selected profile, then the user's values. */
    method ApplyRest(p: Project, plan: Plan, user: seq<NamedValue>, ghost writes: seq<Write>) returns (status: Status)
      requires forall k :: 0 <= k < |plan.chain| ==> plan.chain[k] < |p.profiles|
      requires plan.target.Some? ==> plan.target.value < |p.targets|
      requires DistinctIds(p.options) && Holds(values[..], p.options, writes, |p.options|)
      modifies values
      ensures status == if AllAdmitted(p.options, RestWrites(p, plan, user)) then Ok else SchemaError
      ensures status == Ok ==> Holds(values[..], p.options, writes + RestWrites(p, plan, user), |p.options|)
    {
      hide Holds, AllAdmitted, LayerWrites;
      ghost var t, s := TargetWrites(p.targets, plan.target), SelectedWrites(p.profiles, plan.chain);
      ghost var u := LayerWrites(user, "user");
      AdmittedAppend(p.options, t + s, u);
      AdmittedAppend(p.options, t, s);
      AdmittedNone(p.options);
      assert writes + [] == writes && (writes + t) + [] == writes + t;
      if plan.target.Some? {
        var target := p.targets[plan.target.value];
        status := ApplyNamedValues(p.options, target.values, target.name, writes);
        if status != Ok {
          return;
        }
      }
      if |plan.chain| > 0 {
        var selected := p.profiles[plan.chain[0]];
        status := ApplyNamedValues(p.options, selected.values, selected.name, writes + t);
        if status != Ok {
          return;
        }
      }
      status := ApplyNamedValues(p.options, user, "user", (writes + t) + s);
      Regroup(writes, t, s);
      Regroup(writes, t + s, u);
    }

    /** qsort by option id. */
    method SortValues(ghost options: seq<ConfigOption>, ghost writes: seq<Write>)
      requires DistinctIds(options) && Holds(values[..], options, writes, |options|)
      modifies values
      ensures IsSnapshot(options, writes, values[..])
    {
      ghost var before := values[..];
      if values.Length > 1 {
        SortByKey(values, IdOf);
      }
      SortedIsSnapshot(before, values[..], options, writes);
    }

    /** Each requires or conflicts reference of each active option, in order, until one fails. */
    method ValidateDependencies(options: seq<ConfigOption>, ghost writes: seq<Write>) returns (status: Status)
      requires IsSnapshot(options, writes, values[..]) && AllAdmitted(options, writes)
      ensures status == if DependenciesHold(options, writes) then Ok else DependencyError
    {
      hide IsSnapshot, AllAdmitted, Active;
      for i := 0 to |options|
        invariant forall k, d :: 0 <= k < i && d in options[k].dependencies && Active(writes, options[k].id) ==>
          DependencyHolds(writes, d)
      {
        var o := options[i];
        var active := IsActiveOption(o.id, options, writes);
        if !active {
          continue;
        }
        for j := 0 to |o.dependencies|
          invariant forall m :: 0 <= m < j ==> DependencyHolds(writes, o.dependencies[m])
        {
          var d := o.dependencies[j];
          var targetActive := IsActiveOption(d.target, options, writes);
          if d.kind == Requires && !targetActive {
            assert !DependencyHolds(writes, d);
            return DependencyError;
          }
          if d.kind == Conflicts && targetActive {
            assert !DependencyHolds(writes, d);
            return CONFLICT_ERROR;
          }
        }
      }
      return Ok;
    }

    /** Looks a value up; an option without a value is inactive. */
    method IsActiveOption(id: string, ghost options: seq<ConfigOption>, ghost writes: seq<Write>) returns (active: bool)
      requires IsSnapshot(options, writes, values[..])
      requires AllAdmitted(options, writes)
      ensures active <==> Active(writes, id)
    {
      var index := FindIndex(id);
      if index.None? {
        assert forall v :: v in values[..] ==> v.id != id;
        return false;
      }
      active := IsActive(values[index.value].value);
      assert values[index.value] in values[..];
    }
  }

  /** The first `n` options have been seeded and hold the outcome of `writes`. */
  ghost predicate Holds(values: seq<ResolvedValue>, options: seq<ConfigOption>, writes: seq<Write>, n: nat) {
    && |values| == |options| && n <= |options|
    && (forall i :: 0 <= i < n ==> IsEntry(writes, options[i].id, values[i]))
    && (forall i :: n <= i < |options| ==> values[i] == Vacant)
  }

  lemma LayerWritesAt(layer: seq<NamedValue>, fallback: string, k: nat)
    requires k < |layer|
    ensures LayerWrites(layer, fallback)[k] == LayerWrite(layer[k], fallback)
    ensures LayerWrites(layer, fallback)[k] in LayerWrites(layer, fallback)
  {
  }

  lemma SeedStart(values: seq<ResolvedValue>, options: seq<ConfigOption>)
    requires |values| == |options| && forall i :: 0 <= i < |options| ==> values[i] == Vacant
    ensures Holds(values, options, DefaultWrites(options)[..0], 0)
  {
  }

  /** A slot that has just received its id is the one SetValue finds. */
  lemma SeedSlot(values: seq<ResolvedValue>, options: seq<ConfigOption>, writes: seq<Write>, n: nat)
    requires DistinctIds(options) && n < |options| && Holds(values, options, writes, n)
    ensures IsFirstSlot(values[n := Resolved(options[n].id, Empty, None)], options[n].id, n)
  {
  }

  lemma SeedStep(values: seq<ResolvedValue>, options: seq<ConfigOption>, writes: seq<Write>, n: nat)
    requires DistinctIds(options) && n < |options| && writes == DefaultWrites(options)
    requires Holds(values, options, writes[..n], n)
    ensures Holds(values[n := Resolved(options[n].id, options[n].default, Some("default"))], options, writes[..n + 1], n + 1)
  {
    assert writes[..n + 1][..n] == writes[..n];
  }

  lemma FirstSlotOfOption(values: seq<ResolvedValue>, options: seq<ConfigOption>, writes: seq<Write>, k: nat)
    requires DistinctIds(options) && k < |options| && Holds(values, options, writes, |options|)
    ensures IsFirstSlot(values, options[k].id, k)
  {
  }

  /** Overwriting the slot of one option adds one write. */
  lemma WriteStep(values: seq<ResolvedValue>, options: seq<ConfigOption>, writes: seq<Write>, k: nat, w: Write)
    requires DistinctIds(options) && k < |options| && Holds(values, options, writes, |options|) && w.id == options[k].id
    ensures Holds(values[k := Resolved(w.id, w.value, Some(w.source))], options, writes + [w], |options|)
  {
    assert (writes + [w])[..|writes|] == writes;
  }

  /**
   Resolves a project. It succeeds exactly when the names resolve, every write of every applied
   layer is admitted and the dependencies hold; the result then holds the last write to each option.
   */
  method Resolve(p: Project, profileName: Option<string>, targetName: Option<string>, user: seq<NamedValue>)
    returns (status: Status, values: seq<ResolvedValue>)
    requires DistinctIds(p.options)
    ensures status == Ok <==> Satisfied(p, profileName, targetName, user)
    ensures status == SchemaError <==> !Applicable(p, profileName, targetName, user)
    ensures status == Ok || status == SchemaError || status == DependencyError
    ensures status == Ok ==> IsResolution(p, profileName, targetName, user, values)
  {
    hide Holds, IsSnapshot, AllAdmitted, DependenciesHold, IsBaseChain;
    values := [];
    var config := new ResolvedConfig(|p.options|);
    status := config.SeedDefaults(p.options);
    ghost var writes := DefaultWrites(p.options);
    if status != Ok {
      DefaultsFail(p, profileName, targetName, user);
      return;
    }
    var stack, message;
    status, stack, message := BuildProfileStack(p.profiles, profileName);
    if status != Ok {
      return;
    }
    ChainInBounds(p, profileName, stack);
    status := config.ApplyBases(p, stack, writes);
    if status != Ok {
      BasesFail(p, profileName, targetName, user, stack);
      return;
    }
    ghost var afterBases := writes + BaseWrites(p.profiles, stack);
    var selected := SelectTargetName(p.profiles, stack, targetName);
    var target: Option<nat> := None;
    if selected.Some? {
      target := FindTarget(p.targets, selected.value);
      if target.None? {
        TargetFails(p, profileName, targetName, user, stack);
        return SchemaError, [];
      }
    }
    var plan := Plan(stack, target);
    assert IsPlan(p, profileName, targetName, plan);
    status := config.ApplyRest(p, plan, user, afterBases);
    WritesGroup(p, plan, user);
    AdmittedAppend(p.options, DefaultWrites(p.options) + BaseWrites(p.profiles, plan.chain), RestWrites(p, plan, user));
    AdmittedAppend(p.options, DefaultWrites(p.options), BaseWrites(p.profiles, plan.chain));
    if status != Ok {
      PlanFails(p, profileName, targetName, user, plan);
      return;
    }
    writes := AllWrites(p, plan, user);
    assert Applies(p, profileName, targetName, user, plan);
    config.SortValues(p.options, writes);
    status := config.ValidateDependencies(p.options, writes);
    if status != Ok {
      DependenciesFail(p, profileName, targetName, user, plan);
      return;
    }
    values := config.values[..];
  }

  /** Target, selected profile and user writes. */
  ghost function RestWrites(p: Project, plan: Plan, user: seq<NamedValue>): seq<Write>
    requires forall k :: 0 <= k < |plan.chain| ==> plan.chain[k] < |p.profiles|
    requires plan.target.Some? ==> plan.target.value < |p.targets|
  {
    (TargetWrites(p.targets, plan.target) + SelectedWrites(p.profiles, plan.chain)) + LayerWrites(user, "user")
  }

  lemma WritesGroup(p: Project, plan: Plan, user: seq<NamedValue>)
    requires forall k :: 0 <= k < |plan.chain| ==> plan.chain[k] < |p.profiles|
    requires plan.target.Some? ==> plan.target.value < |p.targets|
    ensures AllWrites(p, plan, user)
         == (DefaultWrites(p.options) + BaseWrites(p.profiles, plan.chain)) + RestWrites(p, plan, user)
  {
    hide DefaultWrites, BaseWrites, TargetWrites, SelectedWrites, LayerWrites;
  }

  lemma ChainInBounds(p: Project, profileName: Option<string>, stack: seq<nat>)
    requires if profileName.None? then stack == [] else IsBaseChain(p.profiles, profileName.value, stack)
    ensures forall k :: 0 <= k < |stack| ==> stack[k] < |p.profiles|
  {
  }

  lemma DefaultsFail(p: Project, profileName: Option<string>, targetName: Option<string>, user: seq<NamedValue>)
    requires !AllAdmitted(p.options, DefaultWrites(p.options))
    ensures !Applicable(p, profileName, targetName, user)
  {
    hide AllAdmitted, DefaultWrites, OverrideWrites;
    forall plan | IsPlan(p, profileName, targetName, plan)
      ensures !AllAdmitted(p.options, AllWrites(p, plan, user))
    {
      AdmittedAppend(p.options, DefaultWrites(p.options), OverrideWrites(p, plan, user));
    }
  }

  lemma BasesFail(p: Project, profileName: Option<string>, targetName: Option<string>, user: seq<NamedValue>, chain: seq<nat>)
    requires if profileName.None? then chain == [] else IsBaseChain(p.profiles, profileName.value, chain)
    requires forall k :: 0 <= k < |chain| ==> chain[k] < |p.profiles|
    requires !AllAdmitted(p.options, BaseWrites(p.profiles, chain))
    ensures !Applicable(p, profileName, targetName, user)
  {
    hide AllAdmitted, DefaultWrites, OverrideWrites, BaseWrites;
    forall plan | IsPlan(p, profileName, targetName, plan)
      ensures !AllAdmitted(p.options, AllWrites(p, plan, user))
    {
      if profileName.Some? {
        ChainUnique(p.profiles, profileName.value, chain, plan.chain);
      }
      WritesGroup(p, plan, user);
      AdmittedAppend(p.options, DefaultWrites(p.options) + BaseWrites(p.profiles, chain), RestWrites(p, plan, user));
      AdmittedAppend(p.options, DefaultWrites(p.options), BaseWrites(p.profiles, chain));
    }
  }

  lemma TargetFails(p: Project, profileName: Option<string>, targetName: Option<string>, user: seq<NamedValue>, chain: seq<nat>)
    requires if profileName.None? then chain == [] else IsBaseChain(p.profiles, profileName.value, chain)
    requires forall k :: 0 <= k < |chain| ==> chain[k] < |p.profiles|
    requires var t := SelectedTarget(p.profiles, chain, targetName);
             t.Some? && forall i :: 0 <= i < |p.targets| ==> p.targets[i].name != t.value
    ensures !Applicable(p, profileName, targetName, user)
  {
    forall plan | IsPlan(p, profileName, targetName, plan)
      ensures false
    {
      if profileName.Some? {
        ChainUnique(p.profiles, profileName.value, chain, plan.chain);
      }
    }
  }

  lemma PlanFails(p: Project, profileName: Option<string>, targetName: Option<string>, user: seq<NamedValue>, plan: Plan)
    requires IsPlan(p, profileName, targetName, plan) && !AllAdmitted(p.options, AllWrites(p, plan, user))
    ensures !Applicable(p, profileName, targetName, user)
  {
    forall other | Applies(p, profileName, targetName, user, other)
      ensures false
    {
      PlanUnique(p, profileName, targetName, plan, other);
    }
  }

  lemma DependenciesFail(p: Project, profileName: Option<string>, targetName: Option<string>, user: seq<NamedValue>, plan: Plan)
    requires Applies(p, profileName, targetName, user, plan)
    requires !DependenciesHold(p.options, AllWrites(p, plan, user))
    ensures !Satisfied(p, profileName, targetName, user)
  {
    forall other | Applies(p, profileName, targetName, user, other)
      ensures other == plan
    {
      PlanUnique(p, profileName, targetName, plan, other);
    }
  }

  lemma EntryOfOption(values: seq<ResolvedValue>, options: seq<ConfigOption>, writes: seq<Write>, v: ResolvedValue)
    requires Holds(values, options, writes, |options|) && v in values
    ensures v.Resolved? && IsEntry(writes, v.id, v) && exists o :: o in options && o.id == v.id
  {
    var k :| 0 <= k < |values| && values[k] == v;
    assert options[k] in options;
  }

  /** Distinct keys turn a sorted list into a strictly sorted one. */
  lemma SortedIsSnapshot(before: seq<ResolvedValue>, after: seq<ResolvedValue>, options: seq<ConfigOption>, writes: seq<Write>)
    requires DistinctIds(options) && Holds(before, options, writes, |options|)
    requires multiset(before) == multiset(after) && (|before| > 1 ==> Sorted(IdOf, after))
    ensures IsSnapshot(options, writes, after)
  {
    assert |before| == |multiset(before)| == |after|;
    forall v
      ensures v in before <==> v in after
    {
      assert v in before <==> v in multiset(before);
    }
    forall v | v in after
      ensures v.Resolved? && IsEntry(writes, v.id, v) && exists o :: o in options && o.id == v.id
    {
      EntryOfOption(before, options, writes, v);
    }
    forall o | o in options
      ensures exists v :: v in after && IsEntry(writes, o.id, v)
    {
      var k :| 0 <= k < |options| && options[k] == o;
      assert before[k] in before;
    }
    forall i, j | 0 <= i < j < |after|
      ensures Less(IdOf(after[i]), IdOf(after[j]))
    {
      LessTotal(IdOf(after[i]), IdOf(after[j]));
      DistinctKeys(before, after, options, writes, i, j);
    }
  }

  lemma DistinctKeys(before: seq<ResolvedValue>, after: seq<ResolvedValue>, options: seq<ConfigOption>,
                     writes: seq<Write>, i: nat, j: nat)
    requires DistinctIds(options) && Holds(before, options, writes, |options|)
    requires multiset(before) == multiset(after) && i < j < |after|
    ensures IdOf(after[i]) != IdOf(after[j])
  {
    if IdOf(after[i]) == IdOf(after[j]) {
      assert after[i] in multiset(after) && after[j] in multiset(after);
      var m :| 0 <= m < |before| && before[m] == after[i];
      var n :| 0 <= n < |before| && before[n] == after[j];
      assert options[m].id == options[n].id;
      assert m == n;
      TwoOccurrences(after, i, j);
      assert forall k :: 0 <= k < |before| && k != m ==> before[k].id == options[k].id != options[m].id;
      OneOccurrence(before, m);
    }
  }

  lemma TwoOccurrences<T>(s: seq<T>, i: nat, j: nat)
    requires i < j < |s| && s[i] == s[j]
    ensures multiset(s)[s[i]] >= 2
  {
    assert s == s[..j] + [s[j]] + s[j + 1..];
    assert s[i] == s[..j][i] && s[i] in multiset(s[..j]);
  }

  lemma OneOccurrence<T>(s: seq<T>, k: nat)
    requires k < |s| && forall m :: 0 <= m < |s| && m != k ==> s[m] != s[k]
    ensures multiset(s)[s[k]] == 1
  {
    assert s == s[..k] + [s[k]] + s[k + 1..];
    assert s[k] !in multiset(s[..k]) && s[k] !in multiset(s[k + 1..]);
  }

  lemma AdmittedNone(options: seq<ConfigOption>)
    ensures AllAdmitted(options, [])
  {
  }

  lemma BaseWritesEnd(p: Project, stack: seq<nat>)
    requires forall k :: 0 <= k < |stack| ==> stack[k] < |p.profiles|
    ensures |stack| <= 1 ==> BaseWrites(p.profiles, stack) == []
    ensures AllAdmitted(p.options, [])
    ensures [] + BaseWrites(p.profiles, stack) == BaseWrites(p.profiles, stack)
  {
  }

  lemma BaseWritesStep(p: Project, stack: seq<nat>, n: nat, done: seq<Write>)
    requires forall k :: 0 <= k < |stack| ==> stack[k] < |p.profiles|
    requires 1 < n <= |stack| && BaseWrites(p.profiles, stack) == done + BaseWrites(p.profiles, stack[..n])
    ensures BaseWrites(p.profiles, stack)
         == (done + ProfileWrites(p.profiles[stack[n - 1]])) + BaseWrites(p.profiles, stack[..n - 1])
  {
    hide ProfileWrites;
    var top := stack[..n];
    assert top[..n - 1] == stack[..n - 1] && top[n - 1] == stack[n - 1];
    Regroup(done, ProfileWrites(p.profiles[stack[n - 1]]), BaseWrites(p.profiles, stack[..n - 1]));
  }

  lemma AdmittedAppend(options: seq<ConfigOption>, a: seq<Write>, b: seq<Write>)
    ensures AllAdmitted(options, a + b) <==> AllAdmitted(options, a) && AllAdmitted(options, b)
  {
    if AllAdmitted(options, a + b) {
      forall w | w in a || w in b
        ensures WriteAdmitted(options, w)
      {
        assert w in a + b;
      }
    }
  }

  lemma NotAdmitted(options: seq<ConfigOption>, k: nat, w: Write)
    requires DistinctIds(options) && k < |options| && options[k].id == w.id && !Admits(options[k], w.value)
    ensures !WriteAdmitted(options, w)
  {
  }

  lemma UnknownNotAdmitted(options: seq<ConfigOption>, w: Write)
    requires forall i :: 0 <= i < |options| ==> options[i].id != w.id
    ensures !WriteAdmitted(options, w)
  {
  }
}
