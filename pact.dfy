/** The configuration-to-rewrite-rule translation of the PACT recipe for the
    CIFAR-10 ICCT network: `make_rules`, which turns one layer-family section
    of the configuration into name-filtered replacement rules, and the part of
    `pact_recipe` that looks up the required sections and concatenates the
    rules of the three layer families. */
module Pact {
  import opened PyDict

  /** The rule class a rule is an instance of. */
  datatype RuleKind = ReplaceConvLinearPACTRule | ReplaceActPACTRule

  /** One rewrite rule: its class, the layer name its `NameFilter` matches,
      and the keyword arguments it is constructed with. */
  datatype Rule<V> = Rule(kind: RuleKind, filter: string, kwargs: Dict<string, V>)

  /** One layer-family section: layer name to the keyword arguments of that
      layer, plus an optional shared default under "kwargs". */
  type Family<V> = Dict<string, Dict<string, V>>

  /** A top-level section of the configuration: a layer-family section, or
      the keyword arguments of a pass, which is what the "harmonize" section
      holds. */
  datatype Section<V> = FamilySection(family: Family<V>) | KwargsSection(kwargs: Dict<string, V>)

  /** The whole configuration: section name to section. */
  type Config<V> = Dict<string, Section<V>>

  /** The section entry holding the shared default keyword arguments. */
  const DefaultKey: string := "kwargs"

  /** The section entry reserved for dynamic-precision settings. */
  const DynamicKey: string := "dynamic"

  /** Section entries that never name a layer. */
  const Reserved: set<string> := {DefaultKey, DynamicKey}

  /** Whether a section entry is reserved. */
  predicate IsReserved(k: string) {
    k in Reserved
  }

  /** Every dict in the section is a well-formed dict. */
  ghost predicate WellFormedFamily<V>(cfg: Family<V>) {
    cfg.Valid() && forall k :: k in cfg.vals ==> cfg.vals[k].Valid()
  }

  /** The shared default: the "kwargs" entry if the section has one, else `{}`. */
  function DefaultKwargs<V>(cfg: Family<V>): (d: Dict<string, V>)
    requires WellFormedFamily(cfg)
    ensures d.Valid()
    ensures DefaultKey in cfg.vals ==> d == cfg.vals[DefaultKey]
    ensures DefaultKey !in cfg.vals ==> d.keys == [] && d.vals == map[]
  {
    if DefaultKey in cfg.vals then cfg.vals[DefaultKey] else Empty()
  }

  /** The keys of `ks` not in `drop`, in order: what the comprehension
      `[k for k in ks if k not in drop]` yields. */
  function Without<K(==)>(ks: seq<K>, drop: set<K>): (r: seq<K>)
    ensures |r| <= |ks|
    ensures forall i :: 0 <= i < |r| ==> r[i] !in drop
  {
    if ks == [] then []
    else (if ks[0] in drop then [] else [ks[0]]) + Without(ks[1..], drop)
  }

  /** Every kept key is a key of `ks`. */
  lemma {:induction false} WithoutSound<K>(ks: seq<K>, drop: set<K>)
    ensures forall i :: 0 <= i < |Without(ks, drop)| ==> Without(ks, drop)[i] in ks
  {
    if ks != [] {
      WithoutSound(ks[1..], drop);
      var r := Without(ks, drop);
      forall i | 0 <= i < |r|
        ensures r[i] in ks
      {
        if ks[0] !in drop && i > 0 {
          assert r[i] == Without(ks[1..], drop)[i - 1];
        }
      }
    }
  }

  /** Every key of `ks` outside `drop` is kept. */
  lemma {:induction false} WithoutComplete<K>(ks: seq<K>, drop: set<K>, k: K)
    requires k in ks && k !in drop
    ensures k in Without(ks, drop)
  {
    if ks[0] != k {
      WithoutComplete(ks[1..], drop, k);
    }
  }

  /** How many keys of `ks` are in `drop`. */
  function Dropped<K>(ks: seq<K>, drop: set<K>): nat
  {
    if ks == [] then 0
    else (if ks[0] in drop then 1 else 0) + Dropped(ks[1..], drop)
  }

  /** Distinct keys stay distinct, and every key is either kept or dropped. */
  lemma {:induction false} WithoutCount<K>(ks: seq<K>, drop: set<K>)
    requires Distinct(ks)
    ensures Distinct(Without(ks, drop))
    ensures |Without(ks, drop)| + Dropped(ks, drop) == |ks|
  {
    if ks != [] {
      var rest := ks[1..];
      assert Distinct(rest);
      WithoutCount(rest, drop);
      WithoutSound(rest, drop);
      assert ks[0] !in rest;
    }
  }

  /** The entries of a section that name layers, in the section's order. */
  function LayerKeys(ks: seq<string>): (r: seq<string>)
    ensures |r| <= |ks|
    ensures forall i :: 0 <= i < |r| ==> !IsReserved(r[i])
  {
    Without(ks, Reserved)
  }

  /** Only entries of the section are selected. */
  lemma LayerKeysSound(ks: seq<string>)
    ensures forall i :: 0 <= i < |LayerKeys(ks)| ==> LayerKeys(ks)[i] in ks
  {
    WithoutSound(ks, Reserved);
  }

  /** Every entry that is not reserved is selected. */
  lemma LayerKeysComplete(ks: seq<string>, k: string)
    requires k in ks && !IsReserved(k)
    ensures k in LayerKeys(ks)
  {
    WithoutComplete(ks, Reserved, k);
  }

  /** A prefix grows by the next element, and the full prefix is the whole. A
      proof step only, stated over any element type so that the solver meets
      it without the structure of rules around it. */
  lemma PrefixGrows<T>(s: seq<T>, n: nat)
    requires n <= |s|
    ensures n < |s| ==> s[..n + 1] == s[..n] + [s[n]]
    ensures n == |s| ==> s[..n] == s
  {
  }

  /** Where an index of a three-part concatenation falls. A proof step only,
      stated over any element type. */
  lemma ConcatIndex<T>(a: seq<T>, b: seq<T>, c: seq<T>, i: nat)
    requires i < |a + b + c|
    ensures i < |a| ==> (a + b + c)[i] == a[i]
    ensures |a| <= i < |a| + |b| ==> (a + b + c)[i] == b[i - |a|]
    ensures |a| + |b| <= i ==> (a + b + c)[i] == c[i - |a| - |b|]
  {
  }

  /** The rules a section yields: one per layer entry, in order, each with
      the default updated by that layer's own keyword arguments. */
  function RulesOf<V>(cfg: Family<V>, kind: RuleKind): (rules: seq<Rule<V>>)
    requires WellFormedFamily(cfg)
    ensures forall i :: 0 <= i < |rules| ==>
      rules[i].kind == kind && !IsReserved(rules[i].filter) && rules[i].filter in cfg.vals
  {
    var d := DefaultKwargs(cfg);
    var names := LayerKeys(cfg.keys);
    LayerKeysSound(cfg.keys);
    seq(|names|, i requires 0 <= i < |names| => Rule(kind, names[i], Updated(d, cfg.vals[names[i]])))
  }

  /** `make_rules(cfg, rule)`: builds the rules one layer at a time, each from
      a fresh copy of the default that the layer's entry then updates. */
  method MakeRules<V>(cfg: Family<V>, kind: RuleKind) returns (rules: seq<Rule<V>>)
    requires WellFormedFamily(cfg)
    ensures rules == RulesOf(cfg, kind)
  {
    rules := [];
    var defaultCfg := DefaultKwargs(cfg);
    var layerKeys := LayerKeys(cfg.keys);
    ghost var spec := RulesOf(cfg, kind);
    LayerKeysSound(cfg.keys);
    for n := 0 to |layerKeys|
      invariant rules == spec[..n]
    {
      var k := layerKeys[n];
      var kwargs := new MutableDict.Copy(defaultCfg);
      kwargs.Update(cfg.vals[k]);
      var rho := Rule(kind, k, kwargs.Contents());
      assert rho == spec[n];
      PrefixGrows(spec, n);
      rules := rules + [rho];
    }
    PrefixGrows(spec, |spec|);
  }

  /** Each rule's keyword arguments hold every key of the default and every
      key of the layer's entry and nothing else; the layer's value wins where
      both have a key, the default's value stays where only it has the key,
      and the default's keys come first, in the default's order. */
  lemma MergedKwargs<V>(cfg: Family<V>, kind: RuleKind, i: nat)
    requires WellFormedFamily(cfg) && i < |RulesOf(cfg, kind)|
    ensures var r, d := RulesOf(cfg, kind)[i], DefaultKwargs(cfg);
      && r.filter in cfg.vals
      && (forall k :: k in r.kwargs.vals <==> k in d.vals || k in cfg.vals[r.filter].vals)
      && (forall k :: k in cfg.vals[r.filter].vals ==> r.kwargs.vals[k] == cfg.vals[r.filter].vals[k])
      && (forall k :: k in d.vals && k !in cfg.vals[r.filter].vals ==> r.kwargs.vals[k] == d.vals[k])
      && r.kwargs.keys[..|d.keys|] == d.keys
  {
    var r, d := RulesOf(cfg, kind)[i], DefaultKwargs(cfg);
    var o := cfg.vals[r.filter];
    assert r.kwargs == Updated(d, o);
    assert r.kwargs.keys == d.keys + Unseen(o.keys, d.vals);
  }

  /** Without a "kwargs" entry each rule is built with exactly the layer's own
      keyword arguments, in the layer's order. */
  lemma NoDefaultKwargs<V>(cfg: Family<V>, kind: RuleKind, i: nat)
    requires WellFormedFamily(cfg) && i < |RulesOf(cfg, kind)|
    requires DefaultKey !in cfg.vals
    ensures RulesOf(cfg, kind)[i].kwargs == cfg.vals[RulesOf(cfg, kind)[i].filter]
  {
    var r := RulesOf(cfg, kind)[i];
    UpdatedEmpty(cfg.vals[r.filter]);
  }

  /** A rule's keyword arguments depend only on the default and that layer's
      own entry: another layer's overrides never reach it. */
  lemma OverridesStayLocal<V>(cfg: Family<V>, cfg': Family<V>, kind: RuleKind, i: nat)
    requires WellFormedFamily(cfg) && WellFormedFamily(cfg')
    requires cfg'.keys == cfg.keys && DefaultKwargs(cfg') == DefaultKwargs(cfg)
    requires i < |RulesOf(cfg, kind)|
    requires cfg'.vals[RulesOf(cfg, kind)[i].filter] == cfg.vals[RulesOf(cfg, kind)[i].filter]
    ensures |RulesOf(cfg', kind)| == |RulesOf(cfg, kind)|
    ensures RulesOf(cfg', kind)[i] == RulesOf(cfg, kind)[i]
  {
  }

  /** Number of reserved entries a section holds. */
  function ReservedCount(ks: seq<string>): nat {
    (if DefaultKey in ks then 1 else 0) + (if DynamicKey in ks then 1 else 0)
  }

  /** In a section with distinct keys, each reserved entry present is dropped
      once. */
  lemma {:induction false} DroppedReserved(ks: seq<string>)
    requires Distinct(ks)
    ensures Dropped(ks, Reserved) == ReservedCount(ks)
  {
    if ks != [] {
      var rest := ks[1..];
      assert Distinct(rest);
      DroppedReserved(rest);
      assert ks == [ks[0]] + rest;
      assert ks[0] !in rest;
    }
  }

  /** The layer entries of distinct keys are distinct, and there are as many
      of them as keys minus the reserved keys present. */
  lemma LayerKeysCount(ks: seq<string>)
    requires Distinct(ks)
    ensures Distinct(LayerKeys(ks))
    ensures |LayerKeys(ks)| == |ks| - ReservedCount(ks)
  {
    WithoutCount(ks, Reserved);
    DroppedReserved(ks);
  }

  /** One rule per layer entry: the reserved entries yield none, every other
      entry yields exactly one rule named after it, so the count is the number
      of keys minus the reserved keys present. */
  lemma OneRulePerLayer<V>(cfg: Family<V>, kind: RuleKind)
    requires WellFormedFamily(cfg)
    ensures var rules := RulesOf(cfg, kind);
      && |rules| == |cfg.keys| - ReservedCount(cfg.keys)
      && (forall k :: k in cfg.vals && !IsReserved(k) ==> exists i :: 0 <= i < |rules| && rules[i].filter == k)
      && (forall i, j :: 0 <= i < j < |rules| ==> rules[i].filter != rules[j].filter)
  {
    var rules := RulesOf(cfg, kind);
    var names := LayerKeys(cfg.keys);
    LayerKeysCount(cfg.keys);
    LayerKeysSound(cfg.keys);
    forall k | k in cfg.vals && !IsReserved(k)
      ensures exists i :: 0 <= i < |rules| && rules[i].filter == k
    {
      LayerKeysComplete(cfg.keys, k);
      var i :| 0 <= i < |names| && names[i] == k;
      assert rules[i].filter == k;
    }
  }

  /** Position of the first occurrence of a key, or the length when the key
      does not occur. */
  function IndexOf(ks: seq<string>, k: string): (i: nat)
    ensures i <= |ks|
    ensures i < |ks| <==> k in ks
    ensures i < |ks| ==> ks[i] == k
  {
    if ks == [] then 0
    else if ks[0] == k then 0
    else 1 + IndexOf(ks[1..], k)
  }

  /** The positions of the keys `Without` keeps, counting the first key of
      `ks` as position `from`. */
  function Positions<K(==)>(ks: seq<K>, drop: set<K>, from: nat): seq<nat>
  {
    if ks == [] then []
    else (if ks[0] in drop then [] else [from]) + Positions(ks[1..], drop, from + 1)
  }

  /** The positions, among the section's keys, of the selected entries. */
  function LayerPositions(ks: seq<string>): seq<nat> {
    Positions(ks, Reserved, 0)
  }

  /** The kept keys are the keys at the listed positions. */
  lemma {:induction false} PositionsPick<K>(ks: seq<K>, drop: set<K>, from: nat)
    ensures |Positions(ks, drop, from)| == |Without(ks, drop)|
    ensures forall i :: 0 <= i < |Positions(ks, drop, from)| ==>
      from <= Positions(ks, drop, from)[i] < from + |ks| && ks[Positions(ks, drop, from)[i] - from] == Without(ks, drop)[i]
  {
    if ks != [] {
      var rest := ks[1..];
      PositionsPick(rest, drop, from + 1);
      var tail := Positions(rest, drop, from + 1);
      var ps := Positions(ks, drop, from);
      var r := Without(ks, drop);
      if ks[0] !in drop {
        forall i | 0 < i < |ps|
          ensures from < ps[i] < from + |ks| && ks[ps[i] - from] == r[i]
        {
          assert ps[i] == tail[i - 1];
          assert r[i] == Without(rest, drop)[i - 1];
        }
      }
    }
  }

  /** The listed positions strictly increase and start at `from` or later. */
  lemma {:induction false} PositionsIncrease<K>(ks: seq<K>, drop: set<K>, from: nat)
    ensures forall i :: 0 <= i < |Positions(ks, drop, from)| ==> from <= Positions(ks, drop, from)[i]
    ensures forall i, j :: 0 <= i < j < |Positions(ks, drop, from)| ==>
      Positions(ks, drop, from)[i] < Positions(ks, drop, from)[j]
  {
    if ks != [] {
      PositionsIncrease(ks[1..], drop, from + 1);
      var tail := Positions(ks[1..], drop, from + 1);
      var ps := Positions(ks, drop, from);
      if ks[0] !in drop {
        assert forall i :: 0 < i < |ps| ==> ps[i] == tail[i - 1];
      }
    }
  }

  /** Rules come out in the order of the section's keys, each named after the
      entry it was built from: rule `i` comes from the key at the `i`-th
      selected position, and the positions strictly increase. */
  lemma RulesFollowKeyOrder<V>(cfg: Family<V>, kind: RuleKind)
    requires WellFormedFamily(cfg)
    ensures var rules, ps := RulesOf(cfg, kind), LayerPositions(cfg.keys);
      && |ps| == |rules|
      && (forall i :: 0 <= i < |rules| ==> ps[i] < |cfg.keys| && rules[i].filter == cfg.keys[ps[i]])
      && (forall i, j :: 0 <= i < j < |rules| ==> ps[i] < ps[j])
  {
    PositionsPick(cfg.keys, Reserved, 0);
    PositionsIncrease(cfg.keys, Reserved, 0);
  }

  /** The four sections `pact_recipe` looks up, in the order it looks them up. */
  const RequiredKeys: seq<string> := ["PACTConv2d", "PACTLinear", "PACTUnsignedAct", "harmonize"]

  /** The sections that hold layer families. */
  const FamilyNames: set<string> := {"PACTConv2d", "PACTLinear", "PACTUnsignedAct"}

  /** Every dict in the section is a well-formed dict. */
  ghost predicate WellFormedSection<V>(s: Section<V>) {
    match s
    case FamilySection(f) => WellFormedFamily(f)
    case KwargsSection(kw) => kw.Valid()
  }

  /** Every section of the configuration is well formed, and the three layer
      family sections, when present, hold layer families. */
  ghost predicate WellFormedConfig<V>(config: Config<V>) {
    && config.Valid()
    && (forall k :: k in config.vals ==> WellFormedSection(config.vals[k]))
    && (forall k :: k in config.vals && k in FamilyNames ==> config.vals[k].FamilySection?)
  }

  /** `config[name]` for one of the three layer family sections. */
  function FamilyOf<V>(config: Config<V>, name: string): (f: Family<V>)
    requires WellFormedConfig(config) && name in FamilyNames && name in config.vals
    ensures WellFormedFamily(f)
  {
    config.vals[name].family
  }

  /** All four required sections are present. */
  predicate HasRequiredKeys<V>(config: Config<V>) {
    && "PACTConv2d" in config.vals
    && "PACTLinear" in config.vals
    && "PACTUnsignedAct" in config.vals
    && "harmonize" in config.vals
  }

  /** What `pact_recipe` hands on to the graph editor and the harmonization
      pass: the rules to apply in order and the harmonization section. */
  datatype Recipe<V> = Recipe(rules: seq<Rule<V>>, harmonize: Section<V>)

  /** A result, or the key whose lookup raised `KeyError`. */
  datatype Outcome<T> = Ok(value: T) | KeyError(key: string)

  /** The rules of the three layer families, convolutions first, then linear
      layers, then activations. */
  function RecipeRules<V>(config: Config<V>): (rules: seq<Rule<V>>)
    requires WellFormedConfig(config) && HasRequiredKeys(config)
    ensures forall i :: 0 <= i < |rules| ==>
      && !IsReserved(rules[i].filter)
      && if rules[i].kind == ReplaceActPACTRule
         then rules[i].filter in FamilyOf(config, "PACTUnsignedAct").vals
         else rules[i].filter in FamilyOf(config, "PACTConv2d").vals || rules[i].filter in FamilyOf(config, "PACTLinear").vals
  {
    var conv := RulesOf(FamilyOf(config, "PACTConv2d"), ReplaceConvLinearPACTRule);
    var lin := RulesOf(FamilyOf(config, "PACTLinear"), ReplaceConvLinearPACTRule);
    var act := RulesOf(FamilyOf(config, "PACTUnsignedAct"), ReplaceActPACTRule);
    var rules := conv + lin + act;
    assert forall i :: 0 <= i < |rules| ==> rules[i] in conv || rules[i] in lin || rules[i] in act by {
      forall i | 0 <= i < |rules| ensures rules[i] in conv || rules[i] in lin || rules[i] in act {
        ConcatIndex(conv, lin, act, i);
      }
    }
    rules
  }

  /** The rule-building part of `pact_recipe`: the four lookups, in order,
      fail on the first missing section before any rule is built; otherwise
      the rule list is the concatenation of the three families' rules and the
      harmonization section is passed on as found. */
  method PactRecipe<V>(config: Config<V>) returns (r: Outcome<Recipe<V>>)
    requires WellFormedConfig(config)
    ensures r.Ok? <==> HasRequiredKeys(config)
    ensures r.KeyError? ==>
      && r.key in RequiredKeys
      && r.key !in config.vals
      && forall j :: 0 <= j < IndexOf(RequiredKeys, r.key) ==> RequiredKeys[j] in config.vals
    ensures r.Ok? ==>
      && r.value.rules == RecipeRules(config)
      && r.value.harmonize == config.vals["harmonize"]
  {
    if "PACTConv2d" !in config.vals {
      return KeyError("PACTConv2d");
    }
    var convCfg := config.vals["PACTConv2d"].family;
    if "PACTLinear" !in config.vals {
      return KeyError("PACTLinear");
    }
    var linCfg := config.vals["PACTLinear"].family;
    if "PACTUnsignedAct" !in config.vals {
      return KeyError("PACTUnsignedAct");
    }
    var actCfg := config.vals["PACTUnsignedAct"].family;
    if "harmonize" !in config.vals {
      return KeyError("harmonize");
    }
    var harmonizeCfg := config.vals["harmonize"];

    var rhos := [];
    var convRules := MakeRules(convCfg, ReplaceConvLinearPACTRule);
    rhos := rhos + convRules;
    assert rhos == convRules;
    var linRules := MakeRules(linCfg, ReplaceConvLinearPACTRule);
    rhos := rhos + linRules;
    var actRules := MakeRules(actCfg, ReplaceActPACTRule);
    rhos := rhos + actRules;
    return Ok(Recipe(rhos, harmonizeCfg));
  }

  /** How many layer entries a section holds: its keys minus the reserved
      ones present. */
  function LayerCount<V>(cfg: Family<V>): int {
    |cfg.keys| - ReservedCount(cfg.keys)
  }

  /** The full rule list is as long as the three families' layer entries
      together. */
  lemma RecipeRuleCount<V>(config: Config<V>)
    requires WellFormedConfig(config) && HasRequiredKeys(config)
    ensures |RecipeRules(config)| ==
      LayerCount(FamilyOf(config, "PACTConv2d")) + LayerCount(FamilyOf(config, "PACTLinear"))
        + LayerCount(FamilyOf(config, "PACTUnsignedAct"))
  {
    OneRulePerLayer(FamilyOf(config, "PACTConv2d"), ReplaceConvLinearPACTRule);
    OneRulePerLayer(FamilyOf(config, "PACTLinear"), ReplaceConvLinearPACTRule);
    OneRulePerLayer(FamilyOf(config, "PACTUnsignedAct"), ReplaceActPACTRule);
  }

  /** The full rule list holds each family's rules as one block, in the order
      convolution, linear, activation: rule `i` is an activation rule exactly
      when it lies past the convolution and linear blocks, and it names a
      layer of the family whose block it lies in. */
  lemma RecipeRuleBlocks<V>(config: Config<V>, i: nat)
    requires WellFormedConfig(config) && HasRequiredKeys(config)
    requires i < |RecipeRules(config)|
    ensures var c, l := LayerCount(FamilyOf(config, "PACTConv2d")), LayerCount(FamilyOf(config, "PACTLinear"));
      var r := RecipeRules(config)[i];
      && (r.kind == ReplaceActPACTRule <==> c + l <= i)
      && (i < c ==> r.filter in FamilyOf(config, "PACTConv2d").vals)
      && (c <= i < c + l ==> r.filter in FamilyOf(config, "PACTLinear").vals)
      && (c + l <= i ==> r.filter in FamilyOf(config, "PACTUnsignedAct").vals)
  {
    var conv, lin, act := FamilyOf(config, "PACTConv2d"), FamilyOf(config, "PACTLinear"), FamilyOf(config, "PACTUnsignedAct");
    OneRulePerLayer(conv, ReplaceConvLinearPACTRule);
    OneRulePerLayer(lin, ReplaceConvLinearPACTRule);
    OneRulePerLayer(act, ReplaceActPACTRule);
  }
}
