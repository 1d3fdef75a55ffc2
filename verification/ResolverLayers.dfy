/** Where each entry of a resolved configuration comes from, read off project, plan and user values. */
module ResolverLayers {
  import opened Model
  import opened Text
  import opened ResolverSpec
  import opened ResolverLaws

  /** Named values, and the source of those that carry none. */
  datatype Layer = Layer(values: seq<NamedValue>, name: string)

  /** All layers above the defaults, the strongest first. */
  function Layers(p: Project, plan: Plan, user: seq<NamedValue>): seq<Layer>
    requires forall k :: 0 <= k < |plan.chain| ==> plan.chain[k] < |p.profiles|
    requires plan.target.Some? ==> plan.target.value < |p.targets|
  {
    [Layer(user, "user")]
    + (if plan.chain == [] then [] else [ProfileLayer(p.profiles[plan.chain[0]])])
    + (if plan.target.None? then [] else [TargetLayer(p.targets[plan.target.value])])
    + (if plan.chain == [] then [] else BaseLayers(p.profiles, plan.chain))
  }

  function ProfileLayer(p: Profile): Layer {
    Layer(p.values, p.name)
  }

  function TargetLayer(t: Target): Layer {
    Layer(t.values, t.name)
  }

  /** The profiles behind the selected one, nearest first. */
  function BaseLayers(profiles: seq<Profile>, chain: seq<nat>): (layers: seq<Layer>)
    requires chain != [] && forall k :: 0 <= k < |chain| ==> chain[k] < |profiles|
    ensures |layers| == |chain| - 1
  {
    seq(|chain| - 1, k requires 0 <= k < |chain| - 1 => ProfileLayer(profiles[chain[k + 1]]))
  }

  ghost predicate IsSilent(layer: Layer, id: string) {
    forall k :: 0 <= k < |layer.values| ==> layer.values[k].id != id
  }

  /** Value `k` of the layer is its last one for the option. */
  ghost predicate IsLast(layer: Layer, id: string, k: nat) {
    && k < |layer.values| && layer.values[k].id == id
    && forall m :: k < m < |layer.values| ==> layer.values[m].id != id
  }

  function Source(layer: Layer, k: nat): string
    requires k < |layer.values|
  {
    if layer.values[k].source.Some? then layer.values[k].source.value else layer.name
  }

  /** The writes of the layers, the strongest last. */
  function WritesOf(layers: seq<Layer>): seq<Write> {
    if layers == [] then []
    else WritesOf(layers[1..]) + LayerWrites(layers[0].values, layers[0].name)
  }

  lemma {:induction false} WritesOfAppend(a: seq<Layer>, b: seq<Layer>)
    ensures WritesOf(a + b) == WritesOf(b) + WritesOf(a)
  {
    if a == [] {
      assert a + b == b;
    } else {
      assert (a + b)[0] == a[0] && (a + b)[1..] == a[1..] + b;
      WritesOfAppend(a[1..], b);
    }
  }

  lemma WritesOfOne(l: Layer)
    ensures WritesOf([l]) == LayerWrites(l.values, l.name)
  {
    assert [l][1..] == [];
  }

  lemma {:induction false} BaseLayersWrite(profiles: seq<Profile>, chain: seq<nat>)
    requires chain != [] && forall k :: 0 <= k < |chain| ==> chain[k] < |profiles|
    ensures WritesOf(BaseLayers(profiles, chain)) == BaseWrites(profiles, chain)
  {
    hide LayerWrites;
    var n := |chain| - 1;
    if n > 0 {
      BaseLayersWrite(profiles, chain[..n]);
      var last := ProfileLayer(profiles[chain[n]]);
      assert BaseLayers(profiles, chain) == BaseLayers(profiles, chain[..n]) + [last];
      WritesOfAppend(BaseLayers(profiles, chain[..n]), [last]);
      WritesOfOne(last);
    }
  }

  lemma LayersWrite(p: Project, plan: Plan, user: seq<NamedValue>)
    requires forall k :: 0 <= k < |plan.chain| ==> plan.chain[k] < |p.profiles|
    requires plan.target.Some? ==> plan.target.value < |p.targets|
    ensures WritesOf(Layers(p, plan, user)) == OverrideWrites(p, plan, user)
  {
    hide LayerWrites, WritesOf, BaseWrites, BaseLayers;
    var u := [Layer(user, "user")];
    var s := if plan.chain == [] then [] else [ProfileLayer(p.profiles[plan.chain[0]])];
    var t := if plan.target.None? then [] else [TargetLayer(p.targets[plan.target.value])];
    var b := if plan.chain == [] then [] else BaseLayers(p.profiles, plan.chain);
    WritesOfAppend(u + s + t, b);
    WritesOfAppend(u + s, t);
    WritesOfAppend(u, s);
    WritesOfOne(u[0]);
    WritesOfNothing();
    if plan.chain != [] {
      WritesOfOne(s[0]);
      BaseLayersWrite(p.profiles, plan.chain);
    } else {
      NoBaseWrites(p.profiles);
    }
    if plan.target.Some? {
      WritesOfOne(t[0]);
    }
    var wb, wt, ws, wu := WritesOf(b), WritesOf(t), WritesOf(s), WritesOf(u);
    assert wb + (wt + (ws + wu)) == wb + wt + ws + wu;
  }

  lemma WritesOfNothing()
    ensures WritesOf([]) == []
  {
  }

  lemma NoBaseWrites(profiles: seq<Profile>)
    ensures BaseWrites(profiles, []) == []
  {
  }

  lemma {:induction false} SilentWrites(layer: Layer, id: string)
    requires IsSilent(layer, id)
    ensures Final(LayerWrites(layer.values, layer.name), id) == None
  {
    var writes := LayerWrites(layer.values, layer.name);
    forall w | w in writes
      ensures w.id != id
    {
      var k :| 0 <= k < |writes| && writes[k] == w;
      assert layer.values[k].id == w.id;
    }
  }

  lemma {:induction false} LastWrite(writes: seq<Write>, id: string, k: nat)
    requires k < |writes| && writes[k].id == id && forall m :: k < m < |writes| ==> writes[m].id != id
    ensures Final(writes, id) == Some(writes[k])
  {
    if k < |writes| - 1 {
      LastWrite(writes[..|writes| - 1], id, k);
    }
  }

  /** The first layer that is not silent decides. */
  lemma {:induction false} FirstLayerDecides(layers: seq<Layer>, id: string, j: nat, k: nat)
    requires j < |layers| && IsLast(layers[j], id, k) && forall i :: 0 <= i < j ==> IsSilent(layers[i], id)
    ensures Final(WritesOf(layers), id) == Some(Write(id, layers[j].values[k].value, Source(layers[j], k)))
  {
    hide Final, IsSilent;
    var first := LayerWrites(layers[0].values, layers[0].name);
    FinalAppend(WritesOf(layers[1..]), first, id);
    if j == 0 {
      LastWrite(first, id, k);
    } else {
      assert IsSilent(layers[0], id);
      SilentWrites(layers[0], id);
      assert layers[j] == layers[1..][j - 1];
      FirstLayerDecides(layers[1..], id, j - 1, k);
    }
  }

  lemma {:induction false} AllSilent(layers: seq<Layer>, id: string)
    requires forall i :: 0 <= i < |layers| ==> IsSilent(layers[i], id)
    ensures Final(WritesOf(layers), id) == None
  {
    hide IsSilent;
    if layers != [] {
      var first := LayerWrites(layers[0].values, layers[0].name);
      FinalAppend(WritesOf(layers[1..]), first, id);
      assert IsSilent(layers[0], id);
      SilentWrites(layers[0], id);
      AllSilent(layers[1..], id);
    }
  }

  lemma EntryOfWrite(p: Project, profileName: Option<string>, targetName: Option<string>, user: seq<NamedValue>,
                     values: seq<ResolvedValue>, plan: Plan, o: ConfigOption, w: Write)
    requires IsResolution(p, profileName, targetName, user, values) && IsPlan(p, profileName, targetName, plan)
    requires o in p.options && Final(AllWrites(p, plan, user), o.id) == Some(w)
    ensures Resolved(o.id, w.value, Some(w.source)) in values
  {
    hide AllWrites, Final, AllAdmitted, DependenciesHold, IsBaseChain, IsSnapshot;
    var c :| Applies(p, profileName, targetName, user, c) && IsSnapshot(p.options, AllWrites(p, c, user), values);
    PlanUnique(p, profileName, targetName, c, plan);
    EntryAt(p.options, AllWrites(p, plan, user), values, o, w);
  }

  lemma EntryAt(options: seq<ConfigOption>, writes: seq<Write>, values: seq<ResolvedValue>, o: ConfigOption, w: Write)
    requires IsSnapshot(options, writes, values) && o in options && Final(writes, o.id) == Some(w)
    ensures Resolved(o.id, w.value, Some(w.source)) in values
  {
    hide Final, StrictlySorted;
    var v :| v in values && IsEntry(writes, o.id, v);
    assert v == Resolved(o.id, w.value, Some(w.source));
  }

  /**
   An option's entry holds the last value of the strongest layer that has one, and that value's own
   source or the name of the layer: "user", or the profile's or target's name.
   */
  lemma StrongestLayerWins(p: Project, profileName: Option<string>, targetName: Option<string>, user: seq<NamedValue>,
                           values: seq<ResolvedValue>, plan: Plan, o: ConfigOption, j: nat, k: nat)
    requires IsResolution(p, profileName, targetName, user, values) && IsPlan(p, profileName, targetName, plan)
    requires o in p.options
    requires var layers := Layers(p, plan, user);
             j < |layers| && IsLast(layers[j], o.id, k) && forall i :: 0 <= i < j ==> IsSilent(layers[i], o.id)
    ensures var layer := Layers(p, plan, user)[j];
            Resolved(o.id, layer.values[k].value,
                     Some(if layer.values[k].source.Some? then layer.values[k].source.value else layer.name)) in values
  {
    hide IsResolution, Layers, Final, DefaultWrites, OverrideWrites, IsLast, IsSilent;
    var layers := Layers(p, plan, user);
    FirstLayerDecides(layers, o.id, j, k);
    LayersWrite(p, plan, user);
    FinalAppend(DefaultWrites(p.options), OverrideWrites(p, plan, user), o.id);
    assert k < |layers[j].values| by {
      LastIsValue(layers[j], o.id, k);
    }
    EntryOfWrite(p, profileName, targetName, user, values, plan, o,
                 Write(o.id, layers[j].values[k].value, Source(layers[j], k)));
  }

  lemma LastIsValue(layer: Layer, id: string, k: nat)
    requires IsLast(layer, id, k)
    ensures k < |layer.values|
  {
  }

  /** An option that no layer mentions keeps its default. */
  lemma UntouchedKeepsDefault(p: Project, profileName: Option<string>, targetName: Option<string>, user: seq<NamedValue>,
                              values: seq<ResolvedValue>, plan: Plan, o: ConfigOption)
    requires DistinctIds(p.options) && o in p.options
    requires IsResolution(p, profileName, targetName, user, values) && IsPlan(p, profileName, targetName, plan)
    requires forall i :: 0 <= i < |Layers(p, plan, user)| ==> IsSilent(Layers(p, plan, user)[i], o.id)
    ensures Resolved(o.id, o.default, Some("default")) in values
  {
    hide IsResolution, Layers, Final, OverrideWrites, IsSilent;
    AllSilent(Layers(p, plan, user), o.id);
    LayersWrite(p, plan, user);
    FinalAppend(DefaultWrites(p.options), OverrideWrites(p, plan, user), o.id);
    var i :| 0 <= i < |p.options| && p.options[i] == o;
    LastWrite(DefaultWrites(p.options), o.id, i);
    EntryOfWrite(p, profileName, targetName, user, values, plan, o, Write(o.id, o.default, "default"));
  }
}
