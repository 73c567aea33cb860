/** The registrations of the loader's static initializer, the initializer
    itself, and what can be proved about the registry it builds. */
module StellarCoreMixins {
  import opened Wrappers
  import opened Conditions
  import opened MixinRegistry

  /** Every configuration file of the mod is named `mixins.stellar_core_`,
      then its key, then `.json`. */
  function ConfigFile(key: string): string {
    "mixins.stellar_core_" + key + ".json"
  }

  /** Distinct keys give distinct file names. */
  lemma ConfigFileInjective(a: string, b: string)
    requires ConfigFile(a) == ConfigFile(b)
    ensures a == b
  {
    var fa, fb := ConfigFile(a), ConfigFile(b);
    assert a == fa[20..|fa| - 5];
    assert b == fb[20..|fb| - 5];
  }

  /** The keys of the registered configurations, in source order.  The
      texture map registration is commented out in the source and is not
      here. */
  const StockKeys: seq<string> := [
    "minecraft_advancements",  // line 24
    "minecraft_bakedmodel",  // line 25
    "minecraft_bakedquad",  // line 26
    "minecraft_blockfaceuv",  // line 27
    "minecraft_blockpart",  // line 28
    "minecraft_blockstateimpl",  // line 29
    "minecraft_chunktecache",  // line 30
    "minecraft_chunktemap",  // line 31
    "minecraft_chunktequeue",  // line 32
    "minecraft_classmultimap",  // line 33
    "minecraft_entitytracker",  // line 34
    "minecraft_itemstack_cap",  // line 35
    "minecraft_longnbtkiller",  // line 36
    "minecraft_modelblock",  // line 37
    "minecraft_nbtmaplist",  // line 38
    "minecraft_nbtpool",  // line 39
    "minecraft_nethandlerplayserver",  // line 40
    "minecraft_nnlist",  // line 41
    "minecraft_noglerror",  // line 42
    "minecraft_property",  // line 43
    "minecraft_randomtick",  // line 44
    "minecraft_renderglobal",  // line 45
    "minecraft_resourcelocation",  // line 46
    "minecraft_resourcelocation_async",  // line 47
    "minecraft_resourcepack",  // line 48
    "minecraft_world",  // line 49
    "minecraft_world_load",  // line 50
    "minecraft_world_pos_judgement",  // line 51
    "minecraft_worldclient",  // line 52
    "minecraft_worldserver",  // line 53
    "minecraft_statemapperbase",  // line 54
    "minecraft_stitcher",  // line 55
    "minecraft_texture_load",  // line 57
    "forge",  // line 58
    "forge_asmdatatable",  // line 59
    "forge_asmmodparser",  // line 60
    "forge_bakedquad",  // line 61
    "forge_bakedquad_vertexdata",  // line 62
    "forge_capability",  // line 63
    "forge_chunkmanager",  // line 64
    "forge_modelloader",  // line 65
    "forge_registry",  // line 66
    "hudcaching",  // line 67
    "ebwizardry_early"  // line 68
  ]

  /** The condition registered with each key, in the same order. */
  const StockConditions: seq<Cond> := [
    Flag("FEATURES.vanilla.asyncAdvancementSerialize"),  // line 24
    Flag("PERFORMANCE.vanilla.simpleBakedModelCanonicalization"),  // line 25
    Flag("PERFORMANCE.vanilla.bakedQuadVertexDataCanonicalization"),  // line 26
    Flag("PERFORMANCE.vanilla.blockFaceUVsCanonicalization"),  // line 27
    Flag("PERFORMANCE.vanilla.blockPartDataStructure"),  // line 28
    Flag("PERFORMANCE.vanilla.blockStateImplementationHashCodeCache"),  // line 29
    Flag("PERFORMANCE.vanilla.chunkTECache"),  // line 30
    Flag("PERFORMANCE.vanilla.chunkTEMap"),  // line 31
    Flag("PERFORMANCE.vanilla.chunkTEQueue"),  // line 32
    Flag("PERFORMANCE.vanilla.classMultiMap"),  // line 33
    Flag("PERFORMANCE.vanilla.entitytracker"),  // line 34
    ItemStackCapCondition,  // line 35
    Flag("BUG_FIXES.vanilla.longNBTKiller"),  // line 36
    And(Flag("PERFORMANCE.vanilla.modelBlockStringCanonicalization"), Present(CensoredAsm)),  // line 37
    NbtMapListCondition,  // line 38
    Flag("PERFORMANCE.vanilla.nbtPrimitiveConstantsPool"),  // line 39
    Flag("BUG_FIXES.container.containerInteract"),  // line 40
    Flag("PERFORMANCE.vanilla.nonNullList"),  // line 41
    Flag("PERFORMANCE.vanilla.noGlError"),  // line 42
    Flag("PERFORMANCE.vanilla.propertyEnumHashCodeCache"),  // line 43
    Flag("PERFORMANCE.vanilla.parallelRandomBlockTicker"),  // line 44
    Flag("PERFORMANCE.vanilla.alwaysDeferChunkUpdates"),  // line 45
    ResourceLocationCondition,  // line 46
    ResourceLocationAsyncCondition,  // line 47
    Flag("PERFORMANCE.vanilla.resourceExistStateCache"),  // line 48
    Flag("PERFORMANCE.vanilla.capturedBlockSnapshots"),  // line 49
    Flag("FEATURES.vanilla.handleClientWorldLoad"),  // line 50
    Flag("PERFORMANCE.vanilla.worldBlockPosJudgement"),  // line 51
    Flag("BUG_FIXES.vanilla.clientNullBlockPacket"),  // line 52
    Flag("PERFORMANCE.vanilla.worldServerGetPendingBlockUpdates"),  // line 53
    Or(Flag("PERFORMANCE.vanilla.parallelModelLoader"), Flag("PERFORMANCE.vanilla.stateMapperBase")),  // line 54
    Flag("PERFORMANCE.vanilla.stitcherCache"),  // line 55
    Flag("PERFORMANCE.vanilla.parallelTextureLoad"),  // line 57
    Flag("PERFORMANCE.customLoadingScreen.splashProgress"),  // line 58
    Flag("PERFORMANCE.forge.asmDataTable"),  // line 59
    Flag("PERFORMANCE.forge.asmModParser"),  // line 60
    Flag("PERFORMANCE.forge.unpackedBakedQuadDataCanonicalization"),  // line 61
    Flag("PERFORMANCE.forge.unpackedBakedQuadVertexDataCanonicalization"),  // line 62
    Flag("PERFORMANCE.forge.deallocateEmptyCapabilityNBT"),  // line 63
    Flag("PERFORMANCE.forge.chunkManager"),  // line 64
    Flag("PERFORMANCE.vanilla.parallelModelLoader"),  // line 65
    ForgeRegistryCondition,  // line 66
    Flag("PERFORMANCE.vanilla.hudCaching"),  // line 67
    And(Flag("PERFORMANCE.ebWizardry.dispenserCastingData"), Not(Present(TickCentral)))  // line 68
  ]

  /** The registered configuration names, in source order. */
  const StockNames: seq<string> := seq(|StockKeys|, i requires 0 <= i < |StockKeys| => ConfigFile(StockKeys[i]))

  /** The companion components the conditions probe. */
  const CensoredAsm := "CensoredASM"    // `CensoredASMCompat.isPresent()`
  const TickCentral := "TickCentral"    // `Mods.TICK_CENTRAL.loaded()`

  const ItemStackCap := ConfigFile("minecraft_itemstack_cap")
  const NbtMapList := ConfigFile("minecraft_nbtmaplist")
  const ResourceLocation := ConfigFile("minecraft_resourcelocation")
  const ResourceLocationAsync := ConfigFile("minecraft_resourcelocation_async")
  const ForgeRegistry := ConfigFile("forge_registry")

  const ItemStackCapCondition := FlagUnlessCompanion(
    "PERFORMANCE.vanilla.asyncItemStackCapabilityInit", CensoredAsm, "checkDelayItemStackCapInitEnabled")
  const NbtMapListCondition := FlagUnlessCompanion(
    "PERFORMANCE.vanilla.nbtTag", CensoredAsm, "checkNBTMapModified")

  const ResourceLocationCanon := "PERFORMANCE.vanilla.resourceLocationCanonicalization"
  const ResourceLocationCanonAsync := "PERFORMANCE.vanilla.resourceLocationCanonicalizationAsync"
  const ResourceLocationCondition := And(Flag(ResourceLocationCanon), Not(Flag(ResourceLocationCanonAsync)))
  const ResourceLocationAsyncCondition := And(Flag(ResourceLocationCanon), Flag(ResourceLocationCanonAsync))

  const ForgeRegistryRemoveList := "FEATURES.vanilla.forgeRegistryRemoveList"
  const ForgeRegistryCondition := ListNonEmpty(ForgeRegistryRemoveList)

  // `StockNamesDistinct` compares each key with the keys registered before
  // it, one key per lemma so that each proof stays small.
  lemma StockKeyFresh1() ensures |StockKeys| == 44 && forall i :: 0 <= i < 1 ==> StockKeys[i] != StockKeys[1] {}
  lemma StockKeyFresh2() ensures |StockKeys| == 44 && forall i :: 0 <= i < 2 ==> StockKeys[i] != StockKeys[2] {}
  lemma StockKeyFresh3() ensures |StockKeys| == 44 && forall i :: 0 <= i < 3 ==> StockKeys[i] != StockKeys[3] {}
  lemma StockKeyFresh4() ensures |StockKeys| == 44 && forall i :: 0 <= i < 4 ==> StockKeys[i] != StockKeys[4] {}
  lemma StockKeyFresh5() ensures |StockKeys| == 44 && forall i :: 0 <= i < 5 ==> StockKeys[i] != StockKeys[5] {}
  lemma StockKeyFresh6() ensures |StockKeys| == 44 && forall i :: 0 <= i < 6 ==> StockKeys[i] != StockKeys[6] {}
  lemma StockKeyFresh7() ensures |StockKeys| == 44 && forall i :: 0 <= i < 7 ==> StockKeys[i] != StockKeys[7] {}
  lemma StockKeyFresh8() ensures |StockKeys| == 44 && forall i :: 0 <= i < 8 ==> StockKeys[i] != StockKeys[8] {}
  lemma StockKeyFresh9() ensures |StockKeys| == 44 && forall i :: 0 <= i < 9 ==> StockKeys[i] != StockKeys[9] {}
  lemma StockKeyFresh10() ensures |StockKeys| == 44 && forall i :: 0 <= i < 10 ==> StockKeys[i] != StockKeys[10] {}
  lemma StockKeyFresh11() ensures |StockKeys| == 44 && forall i :: 0 <= i < 11 ==> StockKeys[i] != StockKeys[11] {}
  lemma StockKeyFresh12() ensures |StockKeys| == 44 && forall i :: 0 <= i < 12 ==> StockKeys[i] != StockKeys[12] {}
  lemma StockKeyFresh13() ensures |StockKeys| == 44 && forall i :: 0 <= i < 13 ==> StockKeys[i] != StockKeys[13] {}
  lemma StockKeyFresh14() ensures |StockKeys| == 44 && forall i :: 0 <= i < 14 ==> StockKeys[i] != StockKeys[14] {}
  lemma StockKeyFresh15() ensures |StockKeys| == 44 && forall i :: 0 <= i < 15 ==> StockKeys[i] != StockKeys[15] {}
  lemma StockKeyFresh16() ensures |StockKeys| == 44 && forall i :: 0 <= i < 16 ==> StockKeys[i] != StockKeys[16] {}
  lemma StockKeyFresh17() ensures |StockKeys| == 44 && forall i :: 0 <= i < 17 ==> StockKeys[i] != StockKeys[17] {}
  lemma StockKeyFresh18() ensures |StockKeys| == 44 && forall i :: 0 <= i < 18 ==> StockKeys[i] != StockKeys[18] {}
  lemma StockKeyFresh19() ensures |StockKeys| == 44 && forall i :: 0 <= i < 19 ==> StockKeys[i] != StockKeys[19] {}
  lemma StockKeyFresh20() ensures |StockKeys| == 44 && forall i :: 0 <= i < 20 ==> StockKeys[i] != StockKeys[20] {}
  lemma StockKeyFresh21() ensures |StockKeys| == 44 && forall i :: 0 <= i < 21 ==> StockKeys[i] != StockKeys[21] {}
  lemma StockKeyFresh22() ensures |StockKeys| == 44 && forall i :: 0 <= i < 22 ==> StockKeys[i] != StockKeys[22] {}
  lemma StockKeyFresh23() ensures |StockKeys| == 44 && forall i :: 0 <= i < 23 ==> StockKeys[i] != StockKeys[23] {}
  lemma StockKeyFresh24() ensures |StockKeys| == 44 && forall i :: 0 <= i < 24 ==> StockKeys[i] != StockKeys[24] {}
  lemma StockKeyFresh25() ensures |StockKeys| == 44 && forall i :: 0 <= i < 25 ==> StockKeys[i] != StockKeys[25] {}
  lemma StockKeyFresh26() ensures |StockKeys| == 44 && forall i :: 0 <= i < 26 ==> StockKeys[i] != StockKeys[26] {}
  lemma StockKeyFresh27() ensures |StockKeys| == 44 && forall i :: 0 <= i < 27 ==> StockKeys[i] != StockKeys[27] {}
  lemma StockKeyFresh28() ensures |StockKeys| == 44 && forall i :: 0 <= i < 28 ==> StockKeys[i] != StockKeys[28] {}
  lemma StockKeyFresh29() ensures |StockKeys| == 44 && forall i :: 0 <= i < 29 ==> StockKeys[i] != StockKeys[29] {}
  lemma StockKeyFresh30() ensures |StockKeys| == 44 && forall i :: 0 <= i < 30 ==> StockKeys[i] != StockKeys[30] {}
  lemma StockKeyFresh31() ensures |StockKeys| == 44 && forall i :: 0 <= i < 31 ==> StockKeys[i] != StockKeys[31] {}
  lemma StockKeyFresh32() ensures |StockKeys| == 44 && forall i :: 0 <= i < 32 ==> StockKeys[i] != StockKeys[32] {}
  lemma StockKeyFresh33() ensures |StockKeys| == 44 && forall i :: 0 <= i < 33 ==> StockKeys[i] != StockKeys[33] {}
  lemma StockKeyFresh34() ensures |StockKeys| == 44 && forall i :: 0 <= i < 34 ==> StockKeys[i] != StockKeys[34] {}
  lemma StockKeyFresh35() ensures |StockKeys| == 44 && forall i :: 0 <= i < 35 ==> StockKeys[i] != StockKeys[35] {}
  lemma StockKeyFresh36() ensures |StockKeys| == 44 && forall i :: 0 <= i < 36 ==> StockKeys[i] != StockKeys[36] {}
  lemma StockKeyFresh37() ensures |StockKeys| == 44 && forall i :: 0 <= i < 37 ==> StockKeys[i] != StockKeys[37] {}
  lemma StockKeyFresh38() ensures |StockKeys| == 44 && forall i :: 0 <= i < 38 ==> StockKeys[i] != StockKeys[38] {}
  lemma StockKeyFresh39() ensures |StockKeys| == 44 && forall i :: 0 <= i < 39 ==> StockKeys[i] != StockKeys[39] {}
  lemma StockKeyFresh40() ensures |StockKeys| == 44 && forall i :: 0 <= i < 40 ==> StockKeys[i] != StockKeys[40] {}
  lemma StockKeyFresh41() ensures |StockKeys| == 44 && forall i :: 0 <= i < 41 ==> StockKeys[i] != StockKeys[41] {}
  lemma StockKeyFresh42() ensures |StockKeys| == 44 && forall i :: 0 <= i < 42 ==> StockKeys[i] != StockKeys[42] {}
  lemma StockKeyFresh43() ensures |StockKeys| == 44 && forall i :: 0 <= i < 43 ==> StockKeys[i] != StockKeys[43] {}

  /** The static initializer registers 44 pairwise distinct names, so none
      of its registrations overwrites another. */
  lemma StockNamesDistinct()
    ensures |StockNames| == |StockConditions| == 44
    ensures NoDuplicates(StockNames)
  {
    StockKeyFresh1(); StockKeyFresh2(); StockKeyFresh3(); StockKeyFresh4(); StockKeyFresh5(); StockKeyFresh6();
    StockKeyFresh7(); StockKeyFresh8(); StockKeyFresh9(); StockKeyFresh10(); StockKeyFresh11(); StockKeyFresh12();
    StockKeyFresh13(); StockKeyFresh14(); StockKeyFresh15(); StockKeyFresh16(); StockKeyFresh17(); StockKeyFresh18();
    StockKeyFresh19(); StockKeyFresh20(); StockKeyFresh21(); StockKeyFresh22(); StockKeyFresh23(); StockKeyFresh24();
    StockKeyFresh25(); StockKeyFresh26(); StockKeyFresh27(); StockKeyFresh28(); StockKeyFresh29(); StockKeyFresh30();
    StockKeyFresh31(); StockKeyFresh32(); StockKeyFresh33(); StockKeyFresh34(); StockKeyFresh35(); StockKeyFresh36();
    StockKeyFresh37(); StockKeyFresh38(); StockKeyFresh39(); StockKeyFresh40(); StockKeyFresh41(); StockKeyFresh42();
    StockKeyFresh43();
    forall i, j | 0 <= i < j < 44
      ensures StockNames[i] != StockNames[j]
    {
      if StockNames[i] == StockNames[j] {
        ConfigFileInjective(StockKeys[i], StockKeys[j]);
      }
    }
  }

  /** Where the registrations the lemmas below speak of stand in the table. */
  lemma ItemStackCapEntry()
    ensures |StockNames| == |StockConditions| == 44
    ensures StockNames[11] == ItemStackCap && StockConditions[11] == ItemStackCapCondition
  {
  }

  lemma NbtMapListEntry()
    ensures |StockNames| == |StockConditions| == 44
    ensures StockNames[14] == NbtMapList && StockConditions[14] == NbtMapListCondition
  {
  }

  lemma ResourceLocationEntries()
    ensures |StockNames| == |StockConditions| == 44
    ensures StockNames[22] == ResourceLocation && StockConditions[22] == ResourceLocationCondition
    ensures StockNames[23] == ResourceLocationAsync && StockConditions[23] == ResourceLocationAsyncCondition
  {
  }

  lemma ForgeRegistryEntry()
    ensures |StockNames| == |StockConditions| == 44
    ensures StockNames[41] == ForgeRegistry && StockConditions[41] == ForgeRegistryCondition
  {
  }

  /** The static initializer: every stock registration, in source order, each
      with its own condition, none of them null. */
  method StaticInit() returns (r: Registry)
    ensures fresh(r) && r.Valid()
    ensures r.order == StockNames
    ensures forall i :: 0 <= i < |StockNames| ==> r.conds[StockNames[i]] == Some(StockConditions[i])
  {
    r := new Registry();
    StockNamesDistinct();
    RegisterAll(r, StockNames, seq(|StockConditions|, i requires 0 <= i < |StockConditions| => Some(StockConditions[i])));
  }

  /** `resourcelocation` and `resourcelocation_async` split one flag by a
      second one, so at most one of them activates, whatever the
      configuration says. */
  lemma ResourceLocationVariantsExclusive(p: Probe)
    ensures Evaluate(ResourceLocationCondition, p).value == Some(true) <==>
      p.flag(ResourceLocationCanon) == Some(true) && p.flag(ResourceLocationCanonAsync) == Some(false)
    ensures Evaluate(ResourceLocationAsyncCondition, p).value == Some(true) <==>
      p.flag(ResourceLocationCanon) == Some(true) && p.flag(ResourceLocationCanonAsync) == Some(true)
    ensures !(Evaluate(ResourceLocationCondition, p).value == Some(true) &&
              Evaluate(ResourceLocationAsyncCondition, p).value == Some(true))
  {
  }

  /** `forge_registry` activates exactly when the remove list is non-empty,
      and its condition throws exactly when reading the list does. */
  lemma ForgeRegistryActivatesIffListNonEmpty(p: Probe)
    ensures Evaluate(ForgeRegistryCondition, p).value == Some(true) <==>
      p.listLength(ForgeRegistryRemoveList).Some? && p.listLength(ForgeRegistryRemoveList).value > 0
    ensures Evaluate(ForgeRegistryCondition, p).value.None? <==> p.listLength(ForgeRegistryRemoveList).None?
  {
  }

  /** In the registrations of `itemstack_cap` and `nbtmaplist`,
      `checkDelayItemStackCapInitEnabled` and `checkNBTMapModified` are
      called only once the flag is set and `isPresent()` has returned true. */
  lemma CompanionChecksGuardedByPresence(p: Probe)
    ensures |StockNames| == |StockConditions| == 44
    ensures StockNames[11] == ItemStackCap && StockNames[14] == NbtMapList
    ensures var e := Evaluate(StockConditions[11], p);
      var q := RunCheck(CensoredAsm, "checkDelayItemStackCapInitEnabled");
      (q in e.trace <==>
        p.flag("PERFORMANCE.vanilla.asyncItemStackCapabilityInit") == Some(true) && p.present(CensoredAsm) == Some(true))
      && (q in e.trace ==> e.trace == [ReadFlag("PERFORMANCE.vanilla.asyncItemStackCapabilityInit"), IsPresent(CensoredAsm), q])
    ensures var e := Evaluate(StockConditions[14], p);
      var q := RunCheck(CensoredAsm, "checkNBTMapModified");
      (q in e.trace <==>
        p.flag("PERFORMANCE.vanilla.nbtTag") == Some(true) && p.present(CensoredAsm) == Some(true))
      && (q in e.trace ==> e.trace == [ReadFlag("PERFORMANCE.vanilla.nbtTag"), IsPresent(CensoredAsm), q])
  {
    ItemStackCapEntry();
    NbtMapListEntry();
    GuardedCheckRunsOnlyWhenPresent(
      "PERFORMANCE.vanilla.asyncItemStackCapabilityInit", CensoredAsm, "checkDelayItemStackCapInitEnabled", p);
    GuardedCheckRunsOnlyWhenPresent("PERFORMANCE.vanilla.nbtTag", CensoredAsm, "checkNBTMapModified", p);
  }

  /** Whatever names the two resource location variants are registered
      under, a pass never hands on both. */
  lemma VariantsNeverBothBridged(names: seq<string>, conds: map<string, Option<Cond>>, p: Probe, a: string, b: string)
    requires a in conds && conds[a] == Some(ResourceLocationCondition)
    requires b in conds && conds[b] == Some(ResourceLocationAsyncCondition)
    ensures !(a in Bridged(names, conds, p) && b in Bridged(names, conds, p))
  {
    BridgedMembers(names, conds, p, a);
    BridgedMembers(names, conds, p, b);
    ResourceLocationVariantsExclusive(p);
  }

  /** A pass over names that include the `forge_registry` entry hands it on
      exactly when the remove list is non-empty. */
  lemma ForgeRegistryBridgedIff(names: seq<string>, conds: map<string, Option<Cond>>, p: Probe, f: string)
    requires f in names && f in conds && conds[f] == Some(ForgeRegistryCondition)
    ensures f in Bridged(names, conds, p) <==>
      p.listLength(ForgeRegistryRemoveList).Some? && p.listLength(ForgeRegistryRemoveList).value > 0
  {
    BridgedMembers(names, conds, p, f);
    ForgeRegistryActivatesIffListNonEmpty(p);
  }

  /** What a pass over the first `n` stock registrations hands on, for any
      map holding the stock conditions: never both resource location
      variants, and, over the whole table, `forge_registry` exactly when the
      remove list is non-empty. */
  lemma StockBridgeFacts(conds: map<string, Option<Cond>>, p: Probe, n: nat)
    requires n <= |StockNames|
    requires forall i :: 0 <= i < |StockNames| ==> StockNames[i] in conds && conds[StockNames[i]] == Some(StockConditions[i])
    ensures !(ResourceLocation in Bridged(StockNames[..n], conds, p) && ResourceLocationAsync in Bridged(StockNames[..n], conds, p))
    ensures n == |StockNames| ==> (ForgeRegistry in Bridged(StockNames[..n], conds, p) <==>
      p.listLength(ForgeRegistryRemoveList).Some? && p.listLength(ForgeRegistryRemoveList).value > 0)
  {
    ResourceLocationEntries();
    ForgeRegistryEntry();
    VariantsNeverBothBridged(StockNames[..n], conds, p, ResourceLocation, ResourceLocationAsync);
    if n == |StockNames| {
      assert StockNames[..n][41] == ForgeRegistry;
      ForgeRegistryBridgedIff(StockNames[..n], conds, p, ForgeRegistry);
    }
  }

  /** Class initialization followed by `injectData`: the entries are decided
      in registration order, each by its own source condition; none is a
      missing condition, so none is reported as a warning; a throwing
      condition stops the pass at the registration it guards; the names
      handed on are exactly those decided as activated, in the order
      decided, never both resource
      location variants, and, after a complete pass, `forge_registry` exactly
      when its remove list is non-empty. */
  method StaticInitThenInject(p: Probe) returns (decisions: seq<Decision>, bridge: seq<string>, fault: Option<string>)
    ensures |decisions| <= 44 && (fault.None? <==> |decisions| == 44)
    ensures forall k :: 0 <= k < |decisions| ==> decisions[k].name == StockNames[k]
    ensures forall k :: 0 <= k < |decisions| ==> Decide(Some(StockConditions[k]), p) == Some(decisions[k].outcome)
    ensures fault.Some? ==> fault.value == StockNames[|decisions|] && Evaluate(StockConditions[|decisions|], p).value.None?
    ensures forall k :: 0 <= k < |decisions| ==> decisions[k].outcome != MissingCondition && decisions[k].Severity() == Info
    ensures forall x :: x in bridge <==>
      exists k :: 0 <= k < |decisions| && x == StockNames[k] && decisions[k].outcome == Activated
    ensures bridge == ActivatedNames(decisions)
    ensures !(ResourceLocation in bridge && ResourceLocationAsync in bridge)
    ensures fault.None? ==> (ForgeRegistry in bridge <==>
      p.listLength(ForgeRegistryRemoveList).Some? && p.listLength(ForgeRegistryRemoveList).value > 0)
  {
    var r := StaticInit();
    decisions, bridge, fault := r.InjectData(p);
    StockBridgeFacts(r.conds, p, |decisions|);
    TablePass(StockNames, StockConditions, r.conds, p, decisions, bridge, fault);
  }
}
