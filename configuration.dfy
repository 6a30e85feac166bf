/** `CiConfiguration`: the plugin's saved settings, and `Initialize`, which
    fills in the default sort orders the first time the plugin runs. */
module Configuration {
  import opened Wrappers
  import opened Utils
  import opened Models
  import opened Seqs
  import opened SortManager

  /** The host's plugin interface, which `Save` writes through. */
  datatype PluginInterface = PluginInterface(name: string)

  /** The default criteria: patch, then map, then instance, then aetheryte. */
  const DefaultSortOrder: seq<SortCriteria> := [SortCriteria.Patch, SortCriteria.Map, SortCriteria.Instance, SortCriteria.Aetheryte]

  /** Every patch keyed to its hunt maps. */
  function TerritoryOrders(huntMaps: Models.Patch -> seq<UInt32>): (r: map<Models.Patch, seq<UInt32>>)
    ensures forall p: Models.Patch :: p in r && r[p] == huntMaps(p)
  {
    forall p: Models.Patch ensures p in AllPatches { AllPatchesListsEveryPatch(p); }
    map p | p in AllPatches :: huntMaps(p)
  }

  class Configuration {
    var pluginInterface: Option<PluginInterface>
    var version: int
    var printOptimalPath: bool
    var aetheryteSortInstances: bool
    var aetheryteKeepMapsTogether: bool
    var aetheryteCompleteMaps: bool
    var activeSortOrder: seq<SortCriteria>
    var patchSortOrder: seq<Models.Patch>
    var territorySortOrder: map<Models.Patch, seq<UInt32>>

    /** A fresh configuration: version 0, every toggle on, no sort order. */
    constructor()
      ensures pluginInterface.None? && version == 0
      ensures printOptimalPath && aetheryteSortInstances && aetheryteKeepMapsTogether && aetheryteCompleteMaps
      ensures activeSortOrder == [] && patchSortOrder == [] && territorySortOrder == map[]
    {
      pluginInterface := None;
      version := 0;
      printOptimalPath := true;
      aetheryteSortInstances := true;
      aetheryteKeepMapsTogether := true;
      aetheryteCompleteMaps := true;
      activeSortOrder := [];
      patchSortOrder := [];
      territorySortOrder := map[];
    }

    /** The settings the sorter reads. */
    function SortSettings(): (r: SortConfig)
      reads this
      ensures r.activeSortOrder == activeSortOrder && r.patchSortOrder == patchSortOrder
      ensures r.territorySortOrder == territorySortOrder
      ensures r.aetheryteSortInstances == aetheryteSortInstances
      ensures r.aetheryteKeepMapsTogether == aetheryteKeepMapsTogether
      ensures r.aetheryteCompleteMaps == aetheryteCompleteMaps
    {
      SortConfig(activeSortOrder, patchSortOrder, territorySortOrder,
                 aetheryteSortInstances, aetheryteKeepMapsTogether, aetheryteCompleteMaps)
    }

    /** `Initialize`: keep a given plugin interface; when no patch order is
        set yet, install the default criteria, every patch newest first, and
        every patch's hunt maps. */
    method Initialize(plugin: Option<PluginInterface>, huntMaps: Models.Patch -> seq<UInt32>)
      modifies this
      ensures pluginInterface == (if plugin.Some? then plugin else old(pluginInterface))
      ensures old(patchSortOrder) != [] ==>
        && activeSortOrder == old(activeSortOrder)
        && patchSortOrder == old(patchSortOrder)
        && territorySortOrder == old(territorySortOrder)
      ensures old(patchSortOrder) == [] ==>
        && activeSortOrder == DefaultSortOrder
        && patchSortOrder == Reverse(AllPatches)
        && territorySortOrder == TerritoryOrders(huntMaps)
      ensures patchSortOrder != []
      ensures version == old(version) && printOptimalPath == old(printOptimalPath)
      ensures aetheryteSortInstances == old(aetheryteSortInstances)
      ensures aetheryteKeepMapsTogether == old(aetheryteKeepMapsTogether)
      ensures aetheryteCompleteMaps == old(aetheryteCompleteMaps)
    {
      if plugin.Some? {
        pluginInterface := plugin;
      }
      if patchSortOrder != [] {
        return;
      }
      activeSortOrder := DefaultSortOrder;
      patchSortOrder := Reverse(AllPatches);
      territorySortOrder := TerritoryOrders(huntMaps);
    }
  }

  /** Initializing a second time changes nothing more. */
  method InitializeTwice(c: Configuration, plugin: Option<PluginInterface>, huntMaps: Models.Patch -> seq<UInt32>)
    modifies c
    ensures c.patchSortOrder != []
    ensures old(c.patchSortOrder) == [] ==>
      && c.activeSortOrder == DefaultSortOrder
      && c.patchSortOrder == Reverse(AllPatches)
      && c.territorySortOrder == TerritoryOrders(huntMaps)
    ensures old(c.patchSortOrder) != [] ==>
      && c.activeSortOrder == old(c.activeSortOrder)
      && c.patchSortOrder == old(c.patchSortOrder)
      && c.territorySortOrder == old(c.territorySortOrder)
  {
    c.Initialize(plugin, huntMaps);
    c.Initialize(plugin, huntMaps);
  }

  /** The default settings give the Map criterion a territory order for
      every patch, so sorting with them never fails. */
  lemma {:induction false} DefaultsKeyEveryPatch(huntMaps: Models.Patch -> seq<UInt32>, env: SortEnv, marks: seq<MarkData>)
    requires env.config.territorySortOrder == TerritoryOrders(huntMaps)
    ensures MapKeyed(env, marks)
  {
  }

  /** The default patch order lists every patch once, newest first. */
  lemma {:induction false} DefaultPatchOrder(p: Models.Patch)
    ensures p in Reverse(AllPatches)
    ensures Reverse(AllPatches)[0] == DT && Reverse(AllPatches)[5] == ARR
    ensures forall i, j :: 0 <= i < j < |Reverse(AllPatches)| ==> Reverse(AllPatches)[i] != Reverse(AllPatches)[j]
  {
    AllPatchesListsEveryPatch(p);
    var i :| 0 <= i < |AllPatches| && AllPatches[i] == p;
    assert Reverse(AllPatches)[|AllPatches| - 1 - i] == p;
  }
}
