/** The records the importer builds (`MarkData`, `MapData`) and the game
    notions it sorts by (patches, territories, instances). */
module Models {
  import opened Wrappers
  import opened Utils

  /** `Vector2`: map coordinates as printed in the pasted line. */
  datatype Position = Position(x: real, y: real)

  /** A resolved map: its territory and the row of its map sheet. */
  datatype MapData = MapData(territoryId: UInt32, rowId: UInt32)

  /** One parsed hunt-train line. `rawText` is the line itself, kept so that
      a sorted list can be written back out verbatim. */
  datatype MarkData = MarkData(
    rawText: string,
    markName: string,
    mapName: string,
    territoryId: UInt32,
    mapId: UInt32,
    instance: Option<UInt32>,
    position: Position
  )

  /** `Instance ?? 1`: a mark without an instance counts as instance one. */
  function InstanceOrDefault(m: MarkData): UInt32 {
    m.instance.GetOr(1)
  }

  /** The (territory, instance) pair that the optimal path segments on. */
  datatype TerritoryInstance = TerritoryInstance(territory: UInt32, instance: Option<UInt32>)

  function TerritoryInstanceOf(m: MarkData): TerritoryInstance {
    TerritoryInstance(m.territoryId, m.instance)
  }

  /** The game's expansions, in declaration order. */
  datatype Patch = ARR | HW | SB | SHB | EW | DT

  const AllPatches: seq<Patch> := [ARR, HW, SB, SHB, EW, DT]

  lemma {:induction false} AllPatchesListsEveryPatch(p: Patch)
    ensures p in AllPatches
  {
  }
}
