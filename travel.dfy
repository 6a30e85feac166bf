/** The travel data the aetheryte sort and the optimal path work on
    (`SortManager.SortData`, `GetTravelData`, `ComputeDistance`). The spawn
    point and travel-node lookups and vector lengths come from the hunt and
    travel managers and are given as functions. */
module Travel {
  import opened Wrappers
  import opened Utils
  import opened Models
  import opened Seqs

  /** `Vector3`: a position in the game world. */
  datatype Vec3 = Vec3(x: real, y: real, z: real)

  /** An aetheryte a path can start from. */
  datatype Aetheryte = Aetheryte(name: string, territory: UInt32, position: Vec3)

  /** The travel node nearest a spawn point: the aetheryte to teleport to,
      whether the node is that aetheryte itself, its position, the extra
      distance of reaching it, and the shortcut path text. */
  datatype TravelNode = TravelNode(
    startingAetheryte: Aetheryte,
    isAetheryte: bool,
    territory: UInt32,
    distanceModifier: real,
    position: Vec3,
    path: string
  )

  /** `SortData`: a mark with its spawn point, travel node and the distance
      from the nearest aetheryte. */
  datatype SortData = SortData(markData: MarkData, spawnPoint: Vec3, travelNode: TravelNode, distance: real)

  /** The hunt and travel managers' lookups, and the length of the vector
      between two points. */
  datatype TravelServices = TravelServices(
    findNearestSpawn2d: (UInt32, Position) -> Option<Vec3>,
    findNearestTravelNode3d: (UInt32, Vec3) -> Option<TravelNode>,
    distanceBetween: (Vec3, Vec3) -> real
  )

  /** Why a mark has no travel data: no spawn point near its position, or
      no travel node near its spawn point. */
  datatype TravelError =
    | NoSpawnPoint(markName: string, position: Position)
    | NoTravelNode(territoryId: UInt32, mapName: string, markName: string, position: Position)

  /** `ComputeDistance`: the walk from the travel node plus its modifier;
      with lengths that are never negative it is never below the modifier,
      and a spawn point on the node itself is just the modifier away. */
  function ComputeDistance(travel: TravelServices, spawnPoint: Vec3, node: TravelNode): (r: real)
    ensures travel.distanceBetween(spawnPoint, node.position) >= 0.0 ==> r >= node.distanceModifier
    ensures travel.distanceBetween(spawnPoint, node.position) == 0.0 ==> r == node.distanceModifier
  {
    travel.distanceBetween(spawnPoint, node.position) + node.distanceModifier
  }

  /** One mark's travel data: spawn point first, then the node near it. */
  function TravelDataOf(travel: TravelServices, m: MarkData): (r: Result<SortData, TravelError>)
    ensures r.Success? <==> && travel.findNearestSpawn2d(m.territoryId, m.position).Some?
                            && travel.findNearestTravelNode3d(m.territoryId, travel.findNearestSpawn2d(m.territoryId, m.position).value).Some?
    ensures r.Success? ==> && r.value.markData == m
                           && travel.findNearestSpawn2d(m.territoryId, m.position) == Some(r.value.spawnPoint)
                           && travel.findNearestTravelNode3d(m.territoryId, r.value.spawnPoint) == Some(r.value.travelNode)
                           && r.value.distance == ComputeDistance(travel, r.value.spawnPoint, r.value.travelNode)
    ensures r.Failure? && r.error.NoSpawnPoint? ==> && travel.findNearestSpawn2d(m.territoryId, m.position).None?
                                                    && r.error == NoSpawnPoint(m.markName, m.position)
    ensures r.Failure? && r.error.NoTravelNode? ==> && travel.findNearestSpawn2d(m.territoryId, m.position).Some?
                                                    && r.error == NoTravelNode(m.territoryId, m.mapName, m.markName, m.position)
  {
    match travel.findNearestSpawn2d(m.territoryId, m.position)
    case None => Failure(NoSpawnPoint(m.markName, m.position))
    case Some(spawnPoint) =>
      match travel.findNearestTravelNode3d(m.territoryId, spawnPoint)
      case None => Failure(NoTravelNode(m.territoryId, m.mapName, m.markName, m.position))
      case Some(node) => Success(SortData(m, spawnPoint, node, ComputeDistance(travel, spawnPoint, node)))
  }

  /** `SelectResults`' accumulation: every success and every error, each in order. */
  datatype Accumulated = Accumulated(values: seq<SortData>, errors: seq<TravelError>)

  /** The marks of a list of travel data, in order. */
  function Marks(ds: seq<SortData>): (r: seq<MarkData>)
    ensures |r| == |ds|
    ensures forall i :: 0 <= i < |ds| ==> r[i] == ds[i].markData
  {
    if ds == [] then [] else [ds[0].markData] + Marks(ds[1..])
  }

  /** `GetTravelData`: the travel data of every mark that has some, and an
      error for every mark that has none. */
  function GetTravelData(travel: TravelServices, marks: seq<MarkData>): (r: Accumulated)
    ensures |r.values| + |r.errors| == |marks|
    ensures r.errors == [] <==> forall i :: 0 <= i < |marks| ==> TravelDataOf(travel, marks[i]).Success?
    ensures r.errors == [] ==> Marks(r.values) == marks
    ensures r.errors == [] ==> forall i :: 0 <= i < |marks| ==> r.values[i] == TravelDataOf(travel, marks[i]).value
  {
    if marks == [] then Accumulated([], [])
    else
      var rest := GetTravelData(travel, marks[1..]);
      match TravelDataOf(travel, marks[0])
      case Success(d) => Accumulated([d] + rest.values, rest.errors)
      case Failure(e) => Accumulated(rest.values, [e] + rest.errors)
  }

  function MarkOf(d: SortData): MarkData {
    d.markData
  }

  lemma {:induction false} MarksAsMap(ds: seq<SortData>)
    ensures Marks(ds) == MapSeq(MarkOf, ds)
  {
    if ds != [] {
      MarksAsMap(ds[1..]);
    }
  }

  /** Lists holding the same travel data hold the same marks. */
  lemma {:induction false} MarksPermutation(a: seq<SortData>, b: seq<SortData>)
    requires multiset(a) == multiset(b)
    ensures multiset(Marks(a)) == multiset(Marks(b))
  {
    MarksAsMap(a);
    MarksAsMap(b);
    MapPermutation(MarkOf, a, b);
  }
}
