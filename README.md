# StellarCore early mixin loader, modelled in Dafny

StellarCore's early coremod plugin, `StellarCoreEarlyMixinLoader`, keeps a
`LinkedHashMap` from mixin configuration file name to a `BooleanSupplier`.
Its static initializer fills the map with 44 registrations, each through the
two-argument `addMixinCFG(name, conditions)` (lines 75-77) with a lambda. The
private one-argument overload `addMixinCFG(name)` (lines 71-73), which
registers an always-true condition, exists but is never called in the file;
it is modelled by `AddMixinConfig`. When the mod loader calls `injectData`, the plugin
walks the map in insertion order and puts every entry into one of three cases:

- a null supplier is logged as a warning and skipped;
- a supplier returning false is logged at info level as disabled;
- a supplier returning true is logged at info level and its name is passed to
  `Mixins.addConfiguration`.

A supplier that throws aborts the walk, since the exception escapes `forEach`.

The model has four modules, plus an `Option` type in `wrappers.dfy`:

- `Conditions` (`conditions.dfy`). A supplier is an expression tree `Cond`:
  - the leaves are constants, configuration flags, component-presence probes,
    companion checks and a list-length test;
  - the operators are `&&`, `||` and `!`.

  The world a condition reads is an abstract `Probe`. A probe answer `None`
  means that query threw. `Evaluate` follows Java's left-to-right,
  short-circuit evaluation. It returns the value (`None` when a query threw)
  and the trace of queries made.
- `MixinRegistry` (`registry.dfy`). `Registry` is a class for the linked
  map: `order` is the key insertion order, and `conds` maps each key to its
  condition, `None` for a null supplier. Its methods model:
  - the two `addMixinCFG` overloads, `AddMixinConfigWith` for the
    two-argument one and `AddMixinConfig` for the one-argument one (`put`
    appends an unseen key and overwrites a seen key in place);
  - `injectData`.

  `InjectData` returns three things:
  - the decisions reported, in order;
  - `bridge`, the names passed to `Mixins.addConfiguration`, in call order;
  - `fault`, the entry whose condition threw, if any.

  Three reference definitions carry the pass's meaning:
  - `Decide` is the three-way split of one entry (lines 109-117): null gives
    MissingCondition, false gives Skipped, true gives Activated, and a throw
    gives no outcome;
  - `Decision.Severity` is the log level of each decision (lines 110, 115,
    118): warn for a missing condition, info otherwise;
  - `Bridged` is the reference definition of `bridge`: the order filtered to
    the entries that activate. `ActivatedNames` is the same sequence read
    off the decisions.
- `StellarCoreMixins` (`stock.dfy`) holds:
  - the 44 registrations of the static initializer, as a table in source
    order (`StockKeys`, `StockConditions`);
  - the initializer itself;
  - facts about the concrete conditions (distinct names, mutually exclusive
    resource-location variants, `forge_registry` and its remove list, and
    companion checks that run only after a presence probe).
- `Scenarios` (`scenarios.dfy`) runs small registries through the pass, one
  per behaviour:
  - the three-way split;
  - overwrite in place;
  - a throwing condition stopping the pass.

## Model

All source paths are in `src/main/java/github/kasuminova/stellarcore/mixin/`.

| member | source | states |
|---|---|---|
| Conditions.Evaluate | src/main/java/github/kasuminova/stellarcore/mixin/StellarCoreEarlyMixinLoader.java:24-68 | A supplier's evaluation queries only leaves of its own expression. Every query but the last was answered. A value means no query threw; no value means the last query threw. |
| Conditions.EvaluateMeansHolds | src/main/java/github/kasuminova/stellarcore/mixin/StellarCoreEarlyMixinLoader.java:24-68 | Whenever short-circuit evaluation yields a value, it is the condition's plain boolean meaning (`Holds`), even when a skipped operand would have thrown. When no query of the condition throws, evaluation does yield that value. |
| Conditions.EvaluateReadsOnlyTrace | src/main/java/github/kasuminova/stellarcore/mixin/StellarCoreEarlyMixinLoader.java:24-68 | A probe that agrees on the queries actually made gives the same value and the same trace. Skipped operands cannot influence the result. |
| Conditions.AndSkipsRight | src/main/java/github/kasuminova/stellarcore/mixin/StellarCoreEarlyMixinLoader.java:37 | `&&` does not evaluate its right operand when the left one is not true. |
| Conditions.OrSkipsRight | src/main/java/github/kasuminova/stellarcore/mixin/StellarCoreEarlyMixinLoader.java:54 | `\|\|` does not evaluate its right operand when the left one is not false. |
| Conditions.GuardedCheckRunsOnlyWhenPresent | src/main/java/github/kasuminova/stellarcore/mixin/StellarCoreEarlyMixinLoader.java:35-38 | In `flag && !(C.isPresent() && C.check())`, the check runs exactly when the flag is true and the component is present, after exactly those two queries. |
| MixinRegistry.DecideCases | src/main/java/github/kasuminova/stellarcore/mixin/StellarCoreEarlyMixinLoader.java:108-117 | An entry is MissingCondition iff its supplier is null. It has no outcome iff its supplier throws. It is Activated iff the supplier yields true, and Skipped iff it yields false. |
| MixinRegistry.BridgedMembers | src/main/java/github/kasuminova/stellarcore/mixin/StellarCoreEarlyMixinLoader.java:113-119 | A name reaches `Mixins.addConfiguration` iff it is among the entries walked and its condition evaluates to true. |
| MixinRegistry.BridgedKeepsOrder | src/main/java/github/kasuminova/stellarcore/mixin/StellarCoreEarlyMixinLoader.java:107-121 | The names passed on form a subsequence of the registry order. |
| MixinRegistry.BridgedAppend | src/main/java/github/kasuminova/stellarcore/mixin/StellarCoreEarlyMixinLoader.java:107-121 | Walking two runs of entries passes on the first run's names, then the second's. |
| MixinRegistry.MissingConditionNeverBridged | src/main/java/github/kasuminova/stellarcore/mixin/StellarCoreEarlyMixinLoader.java:109-111 | An entry with a null supplier is never passed on, whatever the probe state. |
| MixinRegistry.NoNullNoWarning | src/main/java/github/kasuminova/stellarcore/mixin/StellarCoreEarlyMixinLoader.java:109-118 | When no supplier is null, no decision is MissingCondition and none is logged as a warning. |
| MixinRegistry.BridgedAreActivatedDecisions | src/main/java/github/kasuminova/stellarcore/mixin/StellarCoreEarlyMixinLoader.java:113-119 | Given decisions that match each entry's outcome, a name is passed on iff it belongs to a decided entry whose outcome is Activated. |
| MixinRegistry.BridgedIsActivatedNames | src/main/java/github/kasuminova/stellarcore/mixin/StellarCoreEarlyMixinLoader.java:108-119 | When the decisions cover the walked entries in order, the sequence of `Mixins.addConfiguration` calls is exactly the names of the Activated decisions, in the same order. |
| MixinRegistry.TablePass | src/main/java/github/kasuminova/stellarcore/mixin/StellarCoreEarlyMixinLoader.java:107-121 | For a registry holding a table of non-null conditions, each decision is its table condition's outcome and is neither MissingCondition nor a warning. A fault means the next table condition throws. The names passed on are exactly the names of the activated decisions, in decision order and once each. |
| MixinRegistry.Registry.constructor | src/main/java/github/kasuminova/stellarcore/mixin/StellarCoreEarlyMixinLoader.java:19 | The map starts empty. |
| MixinRegistry.Registry.AddMixinConfigWith | src/main/java/github/kasuminova/stellarcore/mixin/StellarCoreEarlyMixinLoader.java:75-77 | `put`: an unseen name is appended at the end; a seen one keeps its position. The name's condition is replaced, nothing else changes, and the order stays duplicate-free and in step with the keys. |
| MixinRegistry.Registry.AddMixinConfig | src/main/java/github/kasuminova/stellarcore/mixin/StellarCoreEarlyMixinLoader.java:71-73 | The same as the two-argument overload, with the always-true condition. |
| MixinRegistry.Registry.InjectData | src/main/java/github/kasuminova/stellarcore/mixin/StellarCoreEarlyMixinLoader.java:107-121 | Decisions are made one per entry in registry order, each the entry's three-way outcome. A throwing condition stops the pass at its entry (`fault`), and no later entry is decided. The names passed on are `Bridged` of the entries decided, so calls already made remain. |
| MixinRegistry.RegisterAll | src/main/java/github/kasuminova/stellarcore/mixin/StellarCoreEarlyMixinLoader.java:24-68 | A run of registrations with distinct names on an empty map gives exactly that order, each name with its own condition. |
| StellarCoreMixins.ConfigFileInjective | src/main/java/github/kasuminova/stellarcore/mixin/StellarCoreEarlyMixinLoader.java:24-68 | `mixins.stellar_core_<key>.json` names differ when the keys differ. |
| StellarCoreMixins.StockNamesDistinct | src/main/java/github/kasuminova/stellarcore/mixin/StellarCoreEarlyMixinLoader.java:24-68 | The static initializer registers 44 pairwise distinct names, so no registration overwrites another. |
| StellarCoreMixins.ItemStackCapEntry | src/main/java/github/kasuminova/stellarcore/mixin/StellarCoreEarlyMixinLoader.java:35 | Registration 12 is `itemstack_cap` with the flag-unless-CensoredASM condition. |
| StellarCoreMixins.NbtMapListEntry | src/main/java/github/kasuminova/stellarcore/mixin/StellarCoreEarlyMixinLoader.java:38 | Registration 15 is `nbtmaplist` with the flag-unless-CensoredASM condition. |
| StellarCoreMixins.ResourceLocationEntries | src/main/java/github/kasuminova/stellarcore/mixin/StellarCoreEarlyMixinLoader.java:46-47 | Registrations 23 and 24 are the two resource location variants with their conditions. |
| StellarCoreMixins.ForgeRegistryEntry | src/main/java/github/kasuminova/stellarcore/mixin/StellarCoreEarlyMixinLoader.java:66 | Registration 42 is `forge_registry` with the list-length condition. |
| StellarCoreMixins.StaticInit | src/main/java/github/kasuminova/stellarcore/mixin/StellarCoreEarlyMixinLoader.java:21-69 | The initializer leaves the 44 names in source order, each with its own non-null condition. |
| StellarCoreMixins.ResourceLocationVariantsExclusive | src/main/java/github/kasuminova/stellarcore/mixin/StellarCoreEarlyMixinLoader.java:46-47 | `resourcelocation` activates iff canonicalization is on and async is off. `resourcelocation_async` activates iff both are on. They never both activate. |
| StellarCoreMixins.ForgeRegistryActivatesIffListNonEmpty | src/main/java/github/kasuminova/stellarcore/mixin/StellarCoreEarlyMixinLoader.java:66 | `forge_registry` activates iff the remove list's length is greater than 0. Its condition throws iff reading the list does. |
| StellarCoreMixins.CompanionChecksGuardedByPresence | src/main/java/github/kasuminova/stellarcore/mixin/StellarCoreEarlyMixinLoader.java:35-38 | In the registered conditions of `itemstack_cap` and `nbtmaplist`, `checkDelayItemStackCapInitEnabled` and `checkNBTMapModified` are called iff their flag is set and `CensoredASMCompat.isPresent()` returned true, and only after that probe. |
| StellarCoreMixins.VariantsNeverBothBridged | src/main/java/github/kasuminova/stellarcore/mixin/StellarCoreEarlyMixinLoader.java:46-47 | No pass passes on both resource location variants. |
| StellarCoreMixins.ForgeRegistryBridgedIff | src/main/java/github/kasuminova/stellarcore/mixin/StellarCoreEarlyMixinLoader.java:66 | A pass that walks `forge_registry` passes it on iff the remove list is non-empty. |
| StellarCoreMixins.StockBridgeFacts | src/main/java/github/kasuminova/stellarcore/mixin/StellarCoreEarlyMixinLoader.java:46-66 | Over any prefix of the stock table, the two resource location variants are not both passed on. Over the whole table, `forge_registry` is passed on iff its list is non-empty. |
| StellarCoreMixins.StaticInitThenInject | src/main/java/github/kasuminova/stellarcore/mixin/StellarCoreEarlyMixinLoader.java:21-121 | Class initialization followed by `injectData` decides the stock entries in source order. Each decision is the outcome of that entry's own source condition, never MissingCondition and never a warning. A fault names the entry reached, and that entry's condition throws. The names passed on are exactly the names of the activated decisions, in registration order and once each. The resource location variants are never both passed on. A complete pass passes on `forge_registry` iff its list is non-empty. |
| Scenarios.MixedBridge | src/main/java/github/kasuminova/stellarcore/mixin/StellarCoreEarlyMixinLoader.java:113-119 | With entries true, false, null and true, only the first and last are passed on. |
| Scenarios.MixedOutcomes | src/main/java/github/kasuminova/stellarcore/mixin/StellarCoreEarlyMixinLoader.java:107-121 | A four-entry map is decided in order as Activated, Skipped, MissingCondition and Activated. Exactly one warning is logged, for the null entry, and `[A, D]` is passed on. |
| Scenarios.OverwriteKeepsPosition | src/main/java/github/kasuminova/stellarcore/mixin/StellarCoreEarlyMixinLoader.java:71-77 | Registering A, then B, then A again leaves the order `[A, B]`, and A is decided by its second condition. |
| Scenarios.FatalStopsPass | src/main/java/github/kasuminova/stellarcore/mixin/StellarCoreEarlyMixinLoader.java:107-121 | When the second entry's condition throws, the first is decided and passed on, the fault names the second, and the third is never reached. |

## Left out

- Log message text (lines 110, 115, 118) is not modelled. Only each decision's outcome and its severity (warn or info) are.
- `Mixins.addConfiguration` (line 119) is a call into the Mixin library. It is modelled as appending a name to `bridge`.
- `StellarEnvironment.init()` (line 22) is environment setup and is not modelled.
- `isCleanroomLoader` (lines 79-86) probes for a class by reflection and is not modelled.
- The `IFMLLoadingPlugin` getters (lines 90-105, 123-126) return constants and are not modelled.
- The texture map registration (line 56) is commented out in the source, so it is not in the table.
- Class-loading and static-initialization timing, and `injectData`'s unused `data` argument, are not modelled.
- The internals of `StellarCoreConfig`, `CensoredASMCompat` and `Mods.TICK_CENTRAL.loaded()` are not modelled. Each is queried through an abstract `Probe`, and a query that throws answers `None`. The `Probe` is one fixed state for the whole pass: every read of a flag or component gets the same answer, and no query changes a later answer. The Java re-reads the field or calls the probe each time. `VariantsNeverBothBridged` and `StockBridgeFacts` rely on this fixed state, because lines 46 and 47 read the two flags in separate lambdas.
- `forgeRegistryRemoveList` is modelled only by its length. A null array, whose `.length` throws, is a length query answering `None`.
- StaticInit: the 44 straight-line `addMixinCFG` calls are modelled as a walk over a table of the same (name, condition) pairs in the same order (`RegisterAll`). The straight-line form cannot be verified at reasonable cost.
- `addMixinCFG` does not check that a name is non-empty, so the model accepts any name.
