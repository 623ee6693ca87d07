/** The repair droid of solve15.py: compass moves on `(x, y)` pairs, the area
    map the exploration fills in, the simulated droid that walks a known map,
    and the depth-first exploration that records the number of moves to every
    cell it reaches. */
module Droid {
  import opened Wrappers

  type Coord = (int, int)

  /** The four commands of the droid, with the values 1 to 4 sent to it. */
  datatype Direction = North | South | West | East

  /** `Direction.value`. */
  function Value(d: Direction): (r: int)
    ensures 1 <= r <= 4
  {
    match d
    case North => 1
    case South => 2
    case West => 3
    case East => 4
  }

  /** Different directions are different commands. */
  lemma ValueInjective(d: Direction, e: Direction)
    ensures Value(d) == Value(e) <==> d == e
  {
  }

  /** `Direction.move_coord(x, y)`. */
  function MoveCoord(d: Direction, x: int, y: int): Coord {
    match d
    case North => (x, y - 1)
    case South => (x, y + 1)
    case East => (x + 1, y)
    case West => (x - 1, y)
  }

  function Abs(a: int): nat {
    if a < 0 then -a else a
  }

  /** Every move changes exactly one coordinate by one, and different
      directions lead to different cells. */
  lemma MoveIsUnitStep(d: Direction, x: int, y: int)
    ensures Abs(MoveCoord(d, x, y).0 - x) + Abs(MoveCoord(d, x, y).1 - y) == 1
    ensures forall e :: e != d ==> MoveCoord(e, x, y) != MoveCoord(d, x, y)
  {
  }

  /** `Direction.back`. */
  function Back(d: Direction): (r: Direction)
    ensures r != d
  {
    match d
    case North => South
    case South => North
    case East => West
    case West => East
  }

  /** `back` is an involution, and moving and then moving back returns to the start. */
  lemma BackUndoesMove(d: Direction, x: int, y: int)
    ensures Back(Back(d)) == d
    ensures var (x', y') := MoveCoord(d, x, y); MoveCoord(Back(d), x', y') == (x, y)
  {
  }

  /** The answers of the droid to a move command. */
  datatype Status = HitWall | Moved | Found

  datatype MapObject = Unknown | Empty | Wall | OxygenSystem

  /** The ways an exploration stops early: the simulated droid was sent to a
      cell its map does not know (the assertion of `FakeDroid.move`), or the
      recursion went deeper than the fuel allows. */
  datatype ExploreError = UnknownTarget | OutOfFuel

  /** `AreaMap`: a dictionary from coordinates to what is there, and the
      number of moves recorded for each cell. */
  class AreaMap {
    var cells: map<Coord, MapObject>
    var distances: map<Coord, int>

    constructor ()
      ensures cells == map[] && distances == map[]
    {
      cells := map[];
      distances := map[];
    }

    /** The discipline of the exploration: a cell gets a distance when it
        gets a content, and `UNKNOWN` is never stored. */
    predicate Valid()
      reads this
    {
      cells.Keys == distances.Keys && forall c :: c in cells ==> cells[c] != Unknown
    }

    /** `area[coord]`: cells never seen are unknown. */
    function Get(c: Coord): (r: MapObject)
      reads this
      ensures r != Unknown ==> c in cells && cells[c] == r
      ensures c !in cells ==> r == Unknown
    {
      if c in cells then cells[c] else Unknown
    }

    /** `area[coord] = obj`. */
    method Set(c: Coord, obj: MapObject)
      modifies this
      ensures cells == old(cells)[c := obj] && distances == old(distances)
    {
      cells := cells[c := obj];
    }

    /** `self.distances[coord] = distance` and `self[coord] = obj`. */
    method Record(c: Coord, obj: MapObject, distance: int)
      modifies this
      ensures cells == old(cells)[c := obj] && distances == old(distances)[c := distance]
    {
      distances := distances[c := distance];
      cells := cells[c := obj];
    }

    /** `get_available_directions(x, y)`: the directions whose cell is not a
        known wall, in the order of the enumeration. */
    function AvailableDirections(x: int, y: int): (r: seq<Direction>)
      reads this
      ensures forall d :: d in r <==> Get(MoveCoord(d, x, y)) != Wall
      ensures forall i, j :: 0 <= i < j < |r| ==> Value(r[i]) < Value(r[j])
    {
      (if Get(MoveCoord(North, x, y)) != Wall then [North] else []) +
      (if Get(MoveCoord(South, x, y)) != Wall then [South] else []) +
      (if Get(MoveCoord(West, x, y)) != Wall then [West] else []) +
      (if Get(MoveCoord(East, x, y)) != Wall then [East] else [])
    }

    /** `get_locations(obj)`, as a set: the cells holding `obj`. */
    function GetLocations(obj: MapObject): (r: set<Coord>)
      reads this
      ensures forall c :: c in r <==> c in cells && cells[c] == obj
    {
      set c | c in cells && cells[c] == obj
    }
  }

  /** `FakeDroid`: a droid that walks a map already explored. */
  class FakeDroid {
    const areaMap: AreaMap
    var coord: Coord

    constructor (areaMap: AreaMap, initial: Coord)
      ensures this.areaMap == areaMap && coord == initial
    {
      this.areaMap := areaMap;
      coord := initial;
    }

    /** `move(direction)`: fails when the target is unknown; into a wall the
        droid stays, otherwise it moves and reports whether it found the
        oxygen system. */
    method Move(d: Direction) returns (r: Result<Status, ExploreError>)
      modifies this
      ensures var next := MoveCoord(d, old(coord).0, old(coord).1);
        && (r.Failure? <==> areaMap.Get(next) == Unknown)
        && (r.Failure? ==> r.error == UnknownTarget)
        && (r == Success(HitWall) <==> areaMap.Get(next) == Wall)
        && (r == Success(Found) <==> areaMap.Get(next) == OxygenSystem)
        && (r == Success(Moved) <==> areaMap.Get(next) == Empty)
        && coord == (if r.Success? && r.value != HitWall then next else old(coord))
    {
      var next := MoveCoord(d, coord.0, coord.1);
      var target := areaMap.Get(next);
      if target == Unknown {
        return Failure(UnknownTarget);
      }
      if target == Wall {
        return Success(HitWall);
      }
      coord := next;
      if target == OxygenSystem {
        return Success(Found);
      }
      return Success(Moved);
    }
  }

  /** What the exploration writes into its map agrees with the droid's map. */
  predicate Faithful(area: AreaMap, known: AreaMap)
    reads area, known
  {
    forall c :: c in area.cells ==> known.Get(c) == area.cells[c]
  }

  /** Every open cell of the map has all four neighbours known, as a map
      produced by a complete exploration has. */
  predicate Closed(known: AreaMap)
    reads known
  {
    forall c, d :: c in known.cells && known.cells[c] != Wall ==> known.Get(MoveCoord(d, c.0, c.1)) != Unknown
  }

  /** The distances written since `before` are deeper than `distance`. */
  predicate WrittenDeeper(before: map<Coord, int>, after: map<Coord, int>, distance: int) {
    forall c :: c in after && (c !in before || after[c] != before[c]) ==> after[c] > distance
  }

  /** Distances never grow and the ones written are deeper than `distance`,
      across two stretches of exploration. */
  lemma DistancesKept(d0: map<Coord, int>, d1: map<Coord, int>, d2: map<Coord, int>, distance: int)
    requires forall c :: c in d0 ==> c in d1 && d1[c] <= d0[c]
    requires forall c :: c in d1 ==> c in d2 && d2[c] <= d1[c]
    requires WrittenDeeper(d0, d1, distance) && WrittenDeeper(d1, d2, distance)
    ensures forall c :: c in d0 ==> c in d2 && d2[c] <= d0[c]
    ensures WrittenDeeper(d0, d2, distance)
  {
  }

  /** Recording `distance + 1` for a cell that had no distance or a larger one
      keeps distances from growing, and it is deeper than `distance`. */
  lemma DistanceLowered(d0: map<Coord, int>, next: Coord, distance: int)
    requires next in d0 ==> d0[next] > distance + 1
    ensures forall c :: c in d0 ==> c in d0[next := distance + 1] && d0[next := distance + 1][c] <= d0[c]
    ensures WrittenDeeper(d0, d0[next := distance + 1], distance)
  {
  }

  /** `explore_depth_first(coord, area, droid, distance)` with the simulated
      droid standing on `coord`: `fuel` bounds the depth of the recursion. */
  method ExploreDepthFirst(coord: Coord, area: AreaMap, droid: FakeDroid, distance: int, fuel: nat)
    returns (r: Result<(), ExploreError>)
    requires area != droid.areaMap && area.Valid()
    requires droid.coord == coord
    requires droid.areaMap.Get(coord) != Unknown && droid.areaMap.Get(coord) != Wall
    modifies area, droid
    decreases fuel, 3
    ensures area.Valid()
    ensures r.Success? ==> droid.coord == coord
    ensures forall c :: c in old(area.distances) ==> c in area.distances && area.distances[c] <= old(area.distances[c])
    ensures WrittenDeeper(old(area.distances), area.distances, distance)
    ensures old(Faithful(area, droid.areaMap)) ==> Faithful(area, droid.areaMap)
    ensures Closed(droid.areaMap) && r.Failure? ==> r.error == OutOfFuel
  {
    var directions := area.AvailableDirections(coord.0, coord.1);
    for i := 0 to |directions|
      invariant area.Valid() && droid.coord == coord
      invariant forall c :: c in old(area.distances) ==> c in area.distances && area.distances[c] <= old(area.distances[c])
      invariant WrittenDeeper(old(area.distances), area.distances, distance)
      invariant old(Faithful(area, droid.areaMap)) ==> Faithful(area, droid.areaMap)
    {
      ghost var before := area.distances;
      r := ExploreDirection(coord, directions[i], area, droid, distance, fuel);
      DistancesKept(old(area.distances), before, area.distances, distance);
      if r.Failure? {
        return r;
      }
    }
    return Success(());
  }

  /** One turn of the loop of `explore_depth_first`: the move in `direction`,
      the exploration beyond it and the move back. */
  method ExploreDirection(coord: Coord, direction: Direction, area: AreaMap, droid: FakeDroid, distance: int,
                          fuel: nat)
    returns (r: Result<(), ExploreError>)
    requires area != droid.areaMap && area.Valid()
    requires droid.coord == coord
    requires droid.areaMap.Get(coord) != Unknown && droid.areaMap.Get(coord) != Wall
    modifies area, droid
    decreases fuel, 2
    ensures area.Valid()
    ensures r.Success? ==> droid.coord == coord
    ensures forall c :: c in old(area.distances) ==> c in area.distances && area.distances[c] <= old(area.distances[c])
    ensures WrittenDeeper(old(area.distances), area.distances, distance)
    ensures old(Faithful(area, droid.areaMap)) ==> Faithful(area, droid.areaMap)
    ensures Closed(droid.areaMap) && r.Failure? ==> r.error == OutOfFuel
  {
    var next := MoveCoord(direction, coord.0, coord.1);
    if area.Get(next) == Wall {
      return Success(());
    }
    if area.Get(next) != Unknown {
      if area.distances[next] <= distance + 1 {
        return Success(());
      }
    }
    if fuel == 0 {
      return Failure(OutOfFuel);
    }
    r := Visit(coord, direction, next, area, droid, distance, fuel);
  }

  /** The move into `next`, the recording of what the droid reports there and,
      unless it hit a wall, the exploration beyond it and the move back. */
  method Visit(coord: Coord, direction: Direction, next: Coord, area: AreaMap, droid: FakeDroid, distance: int,
               fuel: nat)
    returns (r: Result<(), ExploreError>)
    requires area != droid.areaMap && area.Valid()
    requires droid.coord == coord && next == MoveCoord(direction, coord.0, coord.1) && fuel > 0
    requires droid.areaMap.Get(coord) != Unknown && droid.areaMap.Get(coord) != Wall
    requires next in area.distances ==> area.distances[next] > distance + 1
    modifies area, droid
    decreases fuel, 1
    ensures area.Valid()
    ensures r.Success? ==> droid.coord == coord
    ensures forall c :: c in old(area.distances) ==> c in area.distances && area.distances[c] <= old(area.distances[c])
    ensures WrittenDeeper(old(area.distances), area.distances, distance)
    ensures old(Faithful(area, droid.areaMap)) ==> Faithful(area, droid.areaMap)
    ensures Closed(droid.areaMap) && r.Failure? ==> r.error == OutOfFuel
  {
    var status := droid.Move(direction);
    if status.Failure? {
      return Failure(status.error);
    }
    DistanceLowered(area.distances, next, distance);
    var obj := match status.value
      case HitWall => Wall
      case Found => OxygenSystem
      case Moved => Empty;
    area.Record(next, obj, distance + 1);
    if status.value == HitWall {
      return Success(());
    }
    ghost var mid := area.distances;
    r := Descend(coord, direction, area, droid, distance, fuel - 1);
    DistancesKept(old(area.distances), mid, area.distances, distance);
  }

  /** The recursive call of `explore_depth_first` on the cell the droid has
      just entered, and the move back. */
  method Descend(coord: Coord, direction: Direction, area: AreaMap, droid: FakeDroid, distance: int, fuel: nat)
    returns (r: Result<(), ExploreError>)
    requires area != droid.areaMap && area.Valid()
    requires droid.coord == MoveCoord(direction, coord.0, coord.1)
    requires droid.areaMap.Get(coord) != Unknown && droid.areaMap.Get(coord) != Wall
    requires droid.areaMap.Get(droid.coord) != Unknown && droid.areaMap.Get(droid.coord) != Wall
    modifies area, droid
    decreases fuel + 1, 0
    ensures area.Valid()
    ensures r.Success? ==> droid.coord == coord
    ensures forall c :: c in old(area.distances) ==> c in area.distances && area.distances[c] <= old(area.distances[c])
    ensures WrittenDeeper(old(area.distances), area.distances, distance)
    ensures old(Faithful(area, droid.areaMap)) ==> Faithful(area, droid.areaMap)
    ensures Closed(droid.areaMap) && r.Failure? ==> r.error == OutOfFuel
  {
    var next := droid.coord;
    r := ExploreDepthFirst(next, area, droid, distance + 1, fuel);
    if r.Failure? {
      return r;
    }
    BackUndoesMove(direction, coord.0, coord.1);
    var _ := droid.Move(Back(direction));
  }
}
