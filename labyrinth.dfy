/** The grid labyrinth of labyrinth.py: coordinates, compass directions, an
    area map whose unknown cells read as walls, and the breadth-first search
    `find_distances`. */
module Labyrinth {
  import opened Wrappers

  datatype Coordinate = Coordinate(x: int, y: int)

  function Up(c: Coordinate): Coordinate { Coordinate(c.x, c.y - 1) }
  function Down(c: Coordinate): Coordinate { Coordinate(c.x, c.y + 1) }
  function Left(c: Coordinate): Coordinate { Coordinate(c.x - 1, c.y) }
  function Right(c: Coordinate): Coordinate { Coordinate(c.x + 1, c.y) }

  datatype Direction = North | South | West | East

  function Abs(a: int): nat {
    if a < 0 then -a else a
  }

  /** The number of unit moves between two coordinates. */
  function Manhattan(a: Coordinate, b: Coordinate): nat {
    Abs(a.x - b.x) + Abs(a.y - b.y)
  }

  /** `Direction.move_coord`. */
  function MoveCoord(d: Direction, c: Coordinate): Coordinate {
    match d
    case North => Up(c)
    case South => Down(c)
    case West => Left(c)
    case East => Right(c)
  }

  /** Each direction moves one unit, `y` growing southwards, and different
      directions lead to different cells. */
  lemma MoveIsUnitStep(d: Direction, c: Coordinate)
    ensures Manhattan(c, MoveCoord(d, c)) == 1
    ensures d == North <==> MoveCoord(d, c).y < c.y
    ensures d == South <==> MoveCoord(d, c).y > c.y
    ensures d == West <==> MoveCoord(d, c).x < c.x
    ensures d == East <==> MoveCoord(d, c).x > c.x
  {
  }

  /** `Direction.opposite`. */
  function Opposite(d: Direction): (r: Direction)
    ensures r != d
  {
    match d
    case North => South
    case South => North
    case East => West
    case West => East
  }

  /** `opposite` is an involution, and moving there and back returns to the start. */
  lemma OppositeUndoesMove(d: Direction, c: Coordinate)
    ensures Opposite(Opposite(d)) == d
    ensures MoveCoord(Opposite(d), MoveCoord(d, c)) == c
    ensures Down(Up(c)) == c && Up(Down(c)) == c && Right(Left(c)) == c && Left(Right(c)) == c
  {
  }

  datatype MapObject = Empty | Wall | Target

  /** `AreaMap`: the known cells of the area. */
  class AreaMap {
    var data: map<Coordinate, MapObject>

    /** `AreaMap(data)`: starts from a copy of `data` (maps are values here). */
    constructor (data: map<Coordinate, MapObject>)
      ensures this.data == data
    {
      this.data := data;
    }

    /** `copy()`: a new map with the same cells, sharing nothing with this one. */
    method Copy() returns (r: AreaMap)
      ensures fresh(r) && r.data == data
    {
      r := new AreaMap(data);
    }

    /** `peek(coord, default=...)`. */
    function Peek(coord: Coordinate, default: Option<MapObject>): (r: Option<MapObject>)
      reads this
      ensures coord in data ==> r == Some(data[coord])
      ensures coord !in data ==> r == default
    {
      if coord in data then Some(data[coord]) else default
    }

    /** `area[coord]`: unknown cells are walls. */
    function Get(coord: Coordinate): (r: MapObject)
      reads this
      ensures r == At(data, coord)
      ensures Peek(coord, None).Some? ==> r == Peek(coord, None).value
    {
      Peek(coord, Some(Wall)).value
    }

    /** `area[coord] = value`. */
    method Set(coord: Coordinate, value: MapObject)
      modifies this
      ensures data == old(data)[coord := value]
      ensures Get(coord) == value
      ensures forall c :: c != coord ==> Get(c) == old(Get(c))
    {
      data := data[coord := value];
    }

    /** `get_target_locations()`, as a set: exactly the cells holding a target. */
    function GetTargetLocations(): (r: set<Coordinate>)
      reads this
      ensures forall c :: c in r <==> Get(c) == Target
    {
      set c | c in data && data[c] == Target
    }
  }

  /** The cell at `c` of a map's contents, walls where unknown. */
  function At(data: map<Coordinate, MapObject>, c: Coordinate): MapObject {
    if c in data then data[c] else Wall
  }

  /** `[d.move_coord(coord) for d in Direction]`, in declaration order. */
  function Around(c: Coordinate): seq<Coordinate> {
    [Up(c), Down(c), Left(c), Right(c)]
  }

  /** One move of the search: from a cell that is not a target to a
      neighbouring cell that is not a wall. */
  predicate Edge(data: map<Coordinate, MapObject>, a: Coordinate, b: Coordinate) {
    At(data, a) != Target && b in Around(a) && At(data, b) != Wall
  }

  /** The cells one move from `a`. */
  function Neighbours(data: map<Coordinate, MapObject>, a: Coordinate): set<Coordinate> {
    if At(data, a) == Target then {}
    else
      (if At(data, Up(a)) != Wall then {Up(a)} else {}) +
      (if At(data, Down(a)) != Wall then {Down(a)} else {}) +
      (if At(data, Left(a)) != Wall then {Left(a)} else {}) +
      (if At(data, Right(a)) != Wall then {Right(a)} else {})
  }

  /** Some element of a non-empty set. */
  ghost function Pick(s: set<Coordinate>): Coordinate
    requires s != {}
  {
    var a :| a in s; a
  }

  /** The cells one move from some cell of `s`. */
  ghost function Successors(data: map<Coordinate, MapObject>, s: set<Coordinate>): set<Coordinate>
    decreases |s|
  {
    if s == {} then {} else Neighbours(data, Pick(s)) + Successors(data, s - {Pick(s)})
  }

  /** The successors of `s` are the ends of the moves out of `s`. */
  lemma {:induction false} SuccessorsMember(data: map<Coordinate, MapObject>, s: set<Coordinate>, b: Coordinate)
    ensures b in Successors(data, s) <==> exists a :: a in s && Edge(data, a, b)
    decreases |s|
  {
    if s != {} {
      var a := Pick(s);
      SuccessorsMember(data, s - {a}, b);
      NeighboursMember(data, a, b);
      if b in Successors(data, s) && b !in Neighbours(data, a) {
        var a' :| a' in s - {a} && Edge(data, a', b);
      }
    }
  }

  lemma NeighboursMember(data: map<Coordinate, MapObject>, a: Coordinate, b: Coordinate)
    ensures b in Neighbours(data, a) <==> Edge(data, a, b)
  {
  }

  lemma SuccessorOf(data: map<Coordinate, MapObject>, s: set<Coordinate>, a: Coordinate, b: Coordinate)
    requires Edge(data, a, b)
    ensures a in s ==> b in Successors(data, s)
  {
    SuccessorsMember(data, s, b);
  }

  /** The cells within `k` moves of `start`. */
  ghost function Reach(data: map<Coordinate, MapObject>, start: Coordinate, k: nat): set<Coordinate> {
    if k == 0 then {start}
    else Reach(data, start, k - 1) + Successors(data, Reach(data, start, k - 1))
  }

  /** The cells first reached in exactly `k` moves: the search's leaves of layer `k`. */
  ghost function Layer(data: map<Coordinate, MapObject>, start: Coordinate, k: nat): set<Coordinate> {
    if k == 0 then {start} else Reach(data, start, k) - Reach(data, start, k - 1)
  }

  /** `c` is first reached after exactly `k` moves. */
  ghost predicate FirstReached(data: map<Coordinate, MapObject>, start: Coordinate, c: Coordinate, k: int) {
    k >= 0 && c in Reach(data, start, k) && (k == 0 || c !in Reach(data, start, k - 1))
  }

  /** A walk of single moves. */
  predicate IsWalk(data: map<Coordinate, MapObject>, w: seq<Coordinate>) {
    |w| <= 1 || (IsWalk(data, w[..|w| - 1]) && Edge(data, w[|w| - 2], w[|w| - 1]))
  }

  /** `w` is a walk of at most `k` moves from `start` to `c`. */
  predicate WalkTo(data: map<Coordinate, MapObject>, start: Coordinate, c: Coordinate, k: nat, w: seq<Coordinate>) {
    1 <= |w| <= k + 1 && w[0] == start && w[|w| - 1] == c && IsWalk(data, w)
  }

  /** Every cell within `k` moves ends a walk from `start` of at most `k` moves. */
  lemma {:induction false} ReachHasWalk(data: map<Coordinate, MapObject>, start: Coordinate, k: nat, c: Coordinate)
    requires c in Reach(data, start, k)
    ensures exists w :: WalkTo(data, start, c, k, w)
    decreases k
  {
    if k == 0 {
      assert WalkTo(data, start, c, k, [c]);
    } else if c in Reach(data, start, k - 1) {
      ReachHasWalk(data, start, k - 1, c);
      var w :| WalkTo(data, start, c, k - 1, w);
      assert WalkTo(data, start, c, k, w);
    } else {
      var a := Predecessor(data, start, k, c);
      ReachHasWalk(data, start, k - 1, a);
      var w :| WalkTo(data, start, a, k - 1, w);
      ExtendWalk(data, start, a, c, k, w);
    }
  }

  /** A cell first reached after `k` moves is one move from a cell within `k - 1` moves. */
  lemma Predecessor(data: map<Coordinate, MapObject>, start: Coordinate, k: nat, c: Coordinate) returns (a: Coordinate)
    requires k > 0 && c in Reach(data, start, k) && c !in Reach(data, start, k - 1)
    ensures a in Reach(data, start, k - 1) && Edge(data, a, c)
  {
    SuccessorsMember(data, Reach(data, start, k - 1), c);
    a :| a in Reach(data, start, k - 1) && Edge(data, a, c);
  }

  lemma ExtendWalk(data: map<Coordinate, MapObject>, start: Coordinate, a: Coordinate, c: Coordinate, k: nat,
                   w: seq<Coordinate>)
    requires k > 0 && WalkTo(data, start, a, k - 1, w) && Edge(data, a, c)
    ensures WalkTo(data, start, c, k, w + [c])
  {
    assert (w + [c])[..|w|] == w;
  }

  /** The end of every walk from `start` of at most `k` moves is within `k` moves. */
  lemma {:induction false} WalkReaches(data: map<Coordinate, MapObject>, start: Coordinate, k: nat, w: seq<Coordinate>)
    requires |w| >= 1 && WalkTo(data, start, w[|w| - 1], k, w)
    ensures w[|w| - 1] in Reach(data, start, k)
  {
    if k > 0 {
      if |w| <= k {
        WalkReaches(data, start, k - 1, w);
      } else {
        var v := w[..|w| - 1];
        var a, c := w[|w| - 2], w[|w| - 1];
        assert IsWalk(data, v) && Edge(data, a, c);
        assert WalkTo(data, start, a, k - 1, v);
        WalkReaches(data, start, k - 1, v);
        SuccessorOf(data, Reach(data, start, k - 1), a, c);
      }
    }
  }

  lemma {:induction false} ReachMonotone(data: map<Coordinate, MapObject>, start: Coordinate, j: nat, k: nat)
    requires j <= k
    ensures Reach(data, start, j) <= Reach(data, start, k)
    decreases k - j
  {
    if j < k {
      ReachMonotone(data, start, j, k - 1);
    }
  }

  /** Once a layer adds nothing, no later one does. */
  lemma {:induction false} ReachStable(data: map<Coordinate, MapObject>, start: Coordinate, d: nat, k: nat)
    requires Reach(data, start, d + 1) == Reach(data, start, d)
    ensures Reach(data, start, k) <= Reach(data, start, d)
  {
    if k <= d {
      ReachMonotone(data, start, k, d);
    } else {
      ReachStable(data, start, d, k - 1);
      SuccessorsMonotone(data, Reach(data, start, k - 1), Reach(data, start, d));
    }
  }

  lemma SuccessorsMonotone(data: map<Coordinate, MapObject>, s: set<Coordinate>, t: set<Coordinate>)
    requires s <= t
    ensures Successors(data, s) <= Successors(data, t)
  {
    forall b | b in Successors(data, s) ensures b in Successors(data, t) {
      SuccessorsMember(data, s, b);
      var a :| a in s && Edge(data, a, b);
      SuccessorOf(data, t, a, b);
    }
  }

  /** Only the last layer can add new cells: moves from earlier layers land
      inside the cells reached so far. */
  lemma LayerSuffices(data: map<Coordinate, MapObject>, start: Coordinate, k: nat)
    ensures Reach(data, start, k + 1) - Reach(data, start, k) ==
      Successors(data, Layer(data, start, k)) - Reach(data, start, k)
  {
    if k > 0 {
      forall b | b in Successors(data, Reach(data, start, k)) && b !in Reach(data, start, k)
        ensures b in Successors(data, Layer(data, start, k))
      {
        SuccessorsMember(data, Reach(data, start, k), b);
        var a :| a in Reach(data, start, k) && Edge(data, a, b);
        SuccessorOf(data, Reach(data, start, k - 1), a, b);
        assert a in Layer(data, start, k);
        SuccessorOf(data, Layer(data, start, k), a, b);
      }
      SuccessorsMonotone(data, Layer(data, start, k), Reach(data, start, k));
    }
  }

  /** No wall is ever reached, except a start that is one. */
  lemma {:induction false} ReachAvoidsWalls(data: map<Coordinate, MapObject>, start: Coordinate, k: nat, c: Coordinate)
    requires c in Reach(data, start, k) && c != start
    ensures At(data, c) != Wall && c in data
  {
    if k > 0 && c !in Reach(data, start, k - 1) {
      SuccessorsMember(data, Reach(data, start, k - 1), c);
      var a :| a in Reach(data, start, k - 1) && Edge(data, a, c);
    } else if k > 0 {
      ReachAvoidsWalls(data, start, k - 1, c);
    }
  }

  /** The cells a search can ever record: the start and the known non-wall cells. */
  ghost function Universe(data: map<Coordinate, MapObject>, start: Coordinate): set<Coordinate> {
    {start} + set c | c in data && data[c] != Wall
  }

  lemma ReachInUniverse(data: map<Coordinate, MapObject>, start: Coordinate, k: nat)
    ensures Reach(data, start, k) <= Universe(data, start)
  {
    forall c | c in Reach(data, start, k) ensures c in Universe(data, start) {
      if c != start {
        ReachAvoidsWalls(data, start, k, c);
      }
    }
  }

  lemma {:induction false} SubsetSmaller<T>(a: set<T>, b: set<T>)
    requires a <= b
    ensures |a| <= |b|
    decreases |b|
  {
    if a != {} {
      var x :| x in a;
      SubsetSmaller(a - {x}, b - {x});
    }
  }

  lemma ProperSubsetSmaller<T>(a: set<T>, b: set<T>)
    requires a < b
    ensures |a| < |b|
  {
    var x :| x in b && x !in a;
    SubsetSmaller(a, b - {x});
  }

  /** `find_distances(area, start_coord)`: the number of moves to every cell
      the search reaches, where the search does not pass walls and does not
      continue from targets. */
  method FindDistances(area: AreaMap, start: Coordinate) returns (rtn: map<Coordinate, int>)
    ensures start in rtn && rtn[start] == 0
    ensures forall c :: c in rtn ==>
      FirstReached(area.data, start, c, rtn[c])
    ensures forall c, k: nat :: c in Reach(area.data, start, k) ==> c in rtn
    ensures forall c :: c in rtn && c != start ==> area.Get(c) != Wall
  {
    ghost var data := area.data;
    var distance := 0;
    rtn := map[start := distance];
    var leafCoordinates := [start];
    while leafCoordinates != []
      invariant distance >= 0 && rtn.Keys == Reach(data, start, distance)
      invariant forall c :: c in rtn ==>
        rtn[c] <= distance && FirstReached(data, start, c, rtn[c])
      invariant forall c :: c in leafCoordinates <==> c in Layer(data, start, distance)
      invariant leafCoordinates == [] ==> distance > 0
      invariant start in rtn && rtn[start] == 0
      decreases |Universe(data, start) - rtn.Keys|, |leafCoordinates|
    {
      var nextLeaves := Expand(area, rtn, leafCoordinates);
      NextLayer(data, start, distance, rtn, leafCoordinates, nextLeaves);
      ghost var before := rtn;
      distance := distance + 1;
      rtn := Record(rtn, nextLeaves, distance);
      LayerRecorded(data, start, distance - 1, before, nextLeaves, rtn);
      if nextLeaves != [] {
        ReachInUniverse(data, start, distance);
        assert nextLeaves[0] in rtn.Keys - before.Keys;
        ProperSubsetSmaller(Universe(data, start) - rtn.Keys, Universe(data, start) - before.Keys);
      }
      leafCoordinates := nextLeaves;
    }
    SearchComplete(data, start, distance);
    forall c | c in rtn && c != start ensures area.Get(c) != Wall {
      ReachAvoidsWalls(data, start, rtn[c], c);
    }
  }

  /** When a layer is empty, every reachable cell is within the moves before it. */
  lemma SearchComplete(data: map<Coordinate, MapObject>, start: Coordinate, distance: nat)
    requires distance > 0 && Layer(data, start, distance) == {}
    ensures forall c, k: nat :: c in Reach(data, start, k) ==> c in Reach(data, start, distance)
  {
    var d := distance - 1;
    ReachMonotone(data, start, d, d + 1);
    forall c | c in Reach(data, start, d + 1) ensures c in Reach(data, start, d) {
      assert c !in Layer(data, start, d + 1);
    }
    forall c, k: nat | c in Reach(data, start, k) ensures c in Reach(data, start, distance) {
      ReachStable(data, start, d, k);
    }
  }

  /** The expanded leaves of a layer are exactly the next layer. */
  lemma NextLayer(data: map<Coordinate, MapObject>, start: Coordinate, distance: nat, rtn: map<Coordinate, int>,
                  leaves: seq<Coordinate>, next: seq<Coordinate>)
    requires rtn.Keys == Reach(data, start, distance)
    requires forall c :: c in leaves <==> c in Layer(data, start, distance)
    requires forall b :: b in next <==> (b !in rtn && exists a :: a in leaves && Edge(data, a, b))
    ensures forall b :: b in next <==> b in Layer(data, start, distance + 1)
  {
    LayerSuffices(data, start, distance);
    forall b ensures b in next <==> b in Successors(data, Layer(data, start, distance)) - rtn.Keys {
      SuccessorsMember(data, Layer(data, start, distance), b);
      if b in Successors(data, Layer(data, start, distance)) && b !in rtn {
        var a :| a in Layer(data, start, distance) && Edge(data, a, b);
        assert a in leaves;
      }
    }
  }

  /** Recording the next layer at the next distance keeps the search's invariant. */
  lemma LayerRecorded(data: map<Coordinate, MapObject>, start: Coordinate, d: nat,
                      before: map<Coordinate, int>, next: seq<Coordinate>, after: map<Coordinate, int>)
    requires before.Keys == Reach(data, start, d)
    requires forall c :: c in before ==>
      before[c] <= d && FirstReached(data, start, c, before[c])
    requires forall b :: b in next <==> b in Layer(data, start, d + 1)
    requires after.Keys == before.Keys + set c | c in next
    requires forall c :: c in after ==> after[c] == if c in next then d + 1 else before[c]
    ensures after.Keys == Reach(data, start, d + 1)
    ensures forall c :: c in after ==>
      after[c] <= d + 1 && FirstReached(data, start, c, after[c])
  {
    ReachMonotone(data, start, d, d + 1);
    var layer := Layer(data, start, d + 1);
    assert layer == Reach(data, start, d + 1) - Reach(data, start, d);
    forall c ensures c in after.Keys <==> c in Reach(data, start, d + 1) {
      if c in Reach(data, start, d + 1) && c !in Reach(data, start, d) {
        assert c in layer;
        assert c in next;
      }
    }
    forall c | c in after ensures
      after[c] <= d + 1 && FirstReached(data, start, c, after[c])
    {
      if c in next {
        assert after[c] == d + 1 && c in layer;
      } else {
        assert after[c] == before[c];
      }
    }
  }

  /** `for leaf in next_leaves: rtn[leaf] = distance`. */
  method Record(rtn: map<Coordinate, int>, leaves: seq<Coordinate>, distance: int) returns (r: map<Coordinate, int>)
    ensures r.Keys == rtn.Keys + set c | c in leaves
    ensures forall c :: c in r ==> r[c] == if c in leaves then distance else rtn[c]
  {
    r := rtn;
    for k := 0 to |leaves|
      invariant r.Keys == rtn.Keys + set i | 0 <= i < k :: leaves[i]
      invariant forall c :: c in r ==> r[c] == if c in leaves[..k] then distance else rtn[c]
    {
      r := r[leaves[k] := distance];
    }
    assert leaves[..|leaves|] == leaves;
    assert (set i | 0 <= i < |leaves| :: leaves[i]) == set c | c in leaves;
  }

  /** One round of `find_distances`: the unrecorded non-wall neighbours of
      the leaves that are not targets, in search order. */
  method Expand(area: AreaMap, rtn: map<Coordinate, int>, leaves: seq<Coordinate>) returns (next: seq<Coordinate>)
    ensures forall b :: b in next <==> (b !in rtn && exists a :: a in leaves && Edge(area.data, a, b))
  {
    next := [];
    for i := 0 to |leaves|
      invariant forall b :: b in next <==> (b !in rtn && exists j :: 0 <= j < i && Edge(area.data, leaves[j], b))
    {
      var coord := leaves[i];
      if area.Get(coord) == Target {
        continue;
      }
      var around := Around(coord);
      for m := 0 to 4
        invariant forall b :: b in next <==>
          (b !in rtn && ((exists j :: 0 <= j < i && Edge(area.data, leaves[j], b)) || (b in around[..m] && At(area.data, b) != Wall)))
      {
        var nextCoord := around[m];
        if nextCoord in rtn {
          continue;
        }
        if area.Get(nextCoord) == Wall {
          continue;
        }
        next := next + [nextCoord];
      }
      assert around[..4] == around;
    }
  }
}
