# PACT recipe: from configuration to rewrite rules

This project models, in Dafny, how the PACT quantization recipe of the
CIFAR-10 ICCT network (`systems/CIFAR10/ICCT/quantize/pact.py`) turns its
configuration into the list of rewrite rules that the lightweight graph
editor applies to the network.

The configuration is a dict with one section per layer family: `PACTConv2d`,
`PACTLinear` and `PACTUnsignedAct`. It also holds a `harmonize` section for
the harmonization pass. Each family section maps layer names to keyword
arguments. It may also hold a shared default under the entry `"kwargs"`, and
an entry `"dynamic"` that the rule builder skips.

`make_rules` emits one rule per layer entry, in the section's order. Each
rule carries:

- a name filter for that layer;
- a fresh copy of the default, updated with the layer's own keyword arguments.

`pact_recipe` first looks up the four required sections, in order, and
raises `KeyError` on the first one missing. It then concatenates the rules
of the convolution, linear and activation families.

The model has two modules:

- `PyDict` (`pydict.dfy`) models Python's `dict` as far as this code uses
  it: insertion-ordered keys, lookup, `d[k] = v`, `copy()` and `update()`.
  - `Dict` is a dict value.
  - `MutableDict` is a class for the dict object that `copy()` creates and
    `update()` changes in place. Its `Update` method stores the items one
    at a time in a loop, and is proved against the pure function `Updated`.
- `Pact` (`pact.dfy`) models the rest:
  - `MakeRules` is a method with the loop of `make_rules`, proved equal to
    the specification function `RulesOf`.
  - `PactRecipe` is a method with the lookups and the concatenation. It
    returns `Ok(recipe)` or `KeyError(key)`.
  - The lemmas state what the rule list is: its count, order, names and
    keyword arguments.

The comment at `pact.py:47-48` documents only `"kwargs"` as a special
section entry. The code at `pact.py:64` also skips `"dynamic"`. The model
follows the code.

A top-level section is either a layer-family section (layer name to keyword
arguments) or a pass's keyword arguments, which is what the `harmonize`
section holds (`pact.py:49-50`, handed on to the harmonization pass as
`**harmonize_cfg` at `pact.py:108`). The three layer-family sections must
have the family shape; `harmonize` may have either.

## Model

| member | source | states |
|---|---|---|
| `PyDict.Updated` | systems/CIFAR10/ICCT/quantize/pact.py:67-68 | `d.update(o)` holds exactly the items of both dicts, with `o`'s value wherever both have a key. `d`'s keys keep their places, and `o`'s new keys follow in `o`'s order. The result is again a well-formed dict. |
| `PyDict.UpdatedEmpty` | systems/CIFAR10/ICCT/quantize/pact.py:63-68 | Updating a copy of `{}` with `o` gives `o` exactly, key order included. |
| `PyDict.Empty` | systems/CIFAR10/ICCT/quantize/pact.py:63 | The literal `{}` is a well-formed dict with no keys and no values. |
| `PyDict.MutableDict.Copy` | systems/CIFAR10/ICCT/quantize/pact.py:67 | `default_cfg.copy()` is a new object whose contents equal the default. |
| `PyDict.MutableDict.Put` | systems/CIFAR10/ICCT/quantize/pact.py:68 | One item store during `update`. A present key keeps its position and takes the new value; a new key is appended. |
| `PyDict.MutableDict.Update` | systems/CIFAR10/ICCT/quantize/pact.py:68 | The in-place `kwargs.update(cfg[k])` loop leaves the object holding `Updated(old contents, cfg[k])`. |
| `Pact.DefaultKwargs` | systems/CIFAR10/ICCT/quantize/pact.py:63 | The shared default is the section's `"kwargs"` entry when it has one, and `{}` otherwise. Either way it is a well-formed dict. |
| `Pact.Without` | systems/CIFAR10/ICCT/quantize/pact.py:64 | The comprehension `[k for k in ks if k not in drop]`: never longer than `ks`, and no kept key is in `drop`. |
| `Pact.LayerKeys` | systems/CIFAR10/ICCT/quantize/pact.py:64 | `layer_keys`: never more keys than the section has, and none of them is `"kwargs"` or `"dynamic"`. |
| `Pact.RulesOf` | systems/CIFAR10/ICCT/quantize/pact.py:60-71 | What `make_rules` returns: every rule has the rule class it was asked for, and is named after a layer entry of the section that is not reserved. |
| `Pact.MakeRules` | systems/CIFAR10/ICCT/quantize/pact.py:60-71 | The loop builds exactly the rule list `RulesOf(cfg, kind)`. That is one rule per selected layer key, in order. Each rule's filter is the key and its kwargs are a fresh copy of the default updated by that layer's entry. |
| `Pact.LayerKeysSound` | systems/CIFAR10/ICCT/quantize/pact.py:64 | Every selected layer key is a key of the section. |
| `Pact.LayerKeysComplete` | systems/CIFAR10/ICCT/quantize/pact.py:64 | Every section key other than `"kwargs"` and `"dynamic"` is selected. |
| `Pact.WithoutCount` | systems/CIFAR10/ICCT/quantize/pact.py:64 | Filtering distinct keys keeps them distinct. Every key is either kept or counted as dropped. |
| `Pact.DroppedReserved` | systems/CIFAR10/ICCT/quantize/pact.py:64 | In a section with distinct keys, the filter drops exactly one key for each of `"kwargs"` and `"dynamic"` that is present. |
| `Pact.LayerKeysCount` | systems/CIFAR10/ICCT/quantize/pact.py:64 | The selected layer keys are distinct. Their number is the key count minus the reserved keys present. |
| `Pact.OneRulePerLayer` | systems/CIFAR10/ICCT/quantize/pact.py:64-71 | Every entry of the section other than `"kwargs"` and `"dynamic"` yields a rule named after it, no two rules share a name, and the count is the keys minus the reserved keys present. Together with `RulesOf`, the reserved entries yield no rule and each other entry exactly one. |
| `Pact.MergedKwargs` | systems/CIFAR10/ICCT/quantize/pact.py:63-69 | The merged kwargs hold every key of the default and of the layer's entry, and no other. The layer's value wins where both have a key. A key only in the default keeps the default's value, and the default's keys come first, in the default's order. |
| `Pact.NoDefaultKwargs` | systems/CIFAR10/ICCT/quantize/pact.py:63 | Without a `"kwargs"` entry, each rule's kwargs are exactly the layer's own entry. |
| `Pact.OverridesStayLocal` | systems/CIFAR10/ICCT/quantize/pact.py:67-69 | Each rule depends only on the default and its own layer's entry. Changing another layer's entry leaves it unchanged, so nothing leaks between layers through the shared default. |
| `Pact.PositionsPick` | systems/CIFAR10/ICCT/quantize/pact.py:64-65 | The `i`-th selected key is the key at the `i`-th listed position of the section. |
| `Pact.PositionsIncrease` | systems/CIFAR10/ICCT/quantize/pact.py:64-65 | The listed positions strictly increase. |
| `Pact.RulesFollowKeyOrder` | systems/CIFAR10/ICCT/quantize/pact.py:64-70 | Rule `i` is named after the section key at the `i`-th selected position, and these positions strictly increase. So rules come out in the section's key order. |
| `Pact.FamilyOf` | systems/CIFAR10/ICCT/quantize/pact.py:53-55 | A layer-family section looked up in the configuration is a well-formed family: every entry of it is a well-formed dict. |
| `Pact.RecipeRules` | systems/CIFAR10/ICCT/quantize/pact.py:73-78 | `rhos` after the three `+=`: no rule is named after a reserved entry. Every activation rule names a layer of the activation section. Every other rule names a layer of the convolution or the linear section. |
| `Pact.PactRecipe` | systems/CIFAR10/ICCT/quantize/pact.py:52-78 | The recipe succeeds exactly when all four required sections are present. Otherwise it fails with `KeyError` on the first missing one in lookup order, and no rule is built. On success the rule list is the convolution rules, then the linear rules, then the activation rules, and the `harmonize` section is passed on unchanged. |
| `Pact.RecipeRuleCount` | systems/CIFAR10/ICCT/quantize/pact.py:73-78 | The full rule list is as long as the layer entries of the three families together. |
| `Pact.RecipeRuleBlocks` | systems/CIFAR10/ICCT/quantize/pact.py:73-78 | The full list is three blocks in the order convolution, linear, activation. A rule is an activation rule exactly when it lies past the first two blocks, and it names a layer of the family whose block it lies in. |

## Left out

- Rule objects are values `(rule class, layer name, kwargs dict)`. What `NameFilter` and the rule classes `ReplaceConvLinearPACTRule` / `ReplaceActPACTRule` do with them belongs to the quantlib library, which is not part of this model.
- The `net` argument and everything after the rule list (`pact.py:91-122`) are not modelled: the lightweight graph editor applying the rules, the FX tracing and the approximation, harmonization and canonicalization passes. These are calls into library code. The model stops at the rule list and the harmonization section that those steps receive.
- Printing of the node lists (`pact.py:94-95`, `119-120`) is I/O and is left out.
- `get_pact_controllers` (`pact.py:124-136`) builds controller objects from library classes; it is not modelled.
- The commented-out MHSA wrapping (`pact.py:80-89`) is dead code and is not modelled.
- `systems/ILSVRC12/utils/statistics/visionstatistics.py` is not part of this model.
- Configuration values are typed. The three layer-family sections are dicts from names to keyword-argument dicts with string keys. The `harmonize` section is a keyword-argument dict, or a dict of such dicts. Python also accepts some entries that are not dicts: a `"dynamic"` entry, which is never read, and a `"kwargs"` entry in a section with no layer entries, which is then never copied (`make_rules` returns `[]`). The model requires every entry of a family section, `"dynamic"` and `"kwargs"` included, to be a dict.
- The errors that ill-typed values raise are not modelled. Python fails in these ways:
  - A layer-family section that is not a mapping fails at `pact.py:63`: `cfg.keys()` raises `AttributeError`.
  - A `"kwargs"` entry that is not a dict, in a section with at least one layer entry, raises `AttributeError`. This happens at `pact.py:67` when it has no `copy` method, or at `pact.py:68` when its copy, a list say, has no `update` method.
  - A layer entry that is a non-empty `str` makes `update` raise `ValueError` at `pact.py:68`, since its characters are not key/value pairs.
  - A layer entry that is an `int` or `None` makes `update` raise `TypeError` at `pact.py:68`.
  - A `harmonize` section that is not a mapping makes `**` raise `TypeError` at `pact.py:108`.
- Layer entries that `update` accepts without being dicts, such as other mappings, iterables of key/value pairs or an empty string, are not modelled.
- Keyword-argument values are an uninterpreted type parameter. A `rule(filt, **kwargs)` call that the rule class would reject (unknown keyword) is not modelled.
- Aliasing of the values inside the dicts is not modelled. The kwargs dicts are treated as values, and only the top-level dict that `copy()` creates is an object updated in place.
