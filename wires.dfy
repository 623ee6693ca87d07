/** The crossed wires of solve3.py: walking a wire one unit per move from the
    central port, the Manhattan distance, and the two ways of picking the
    best crossing of two wires (closest to the port, fewest combined steps). */
module Wires {
  import opened Wrappers

  /** `Coordinate`: equal and hashed by its `(x, y)`, so a value. */
  datatype Coordinate = Coordinate(x: int, y: int)

  datatype WireError =
    | UnknownDirection  // the `KeyError` of `next_coord`
    | NoCrossing        // `min` of no crossings: a `ValueError`

  function Abs(a: int): nat { if a < 0 then -a else a }

  /** `distance(other)`: the Manhattan distance. */
  function Distance(a: Coordinate, b: Coordinate): nat {
    Abs(a.x - b.x) + Abs(a.y - b.y)
  }

  /** The Manhattan distance is a metric. */
  lemma DistanceIsMetric(a: Coordinate, b: Coordinate, c: Coordinate)
    ensures Distance(a, b) == Distance(b, a)
    ensures Distance(a, b) == 0 <==> a == b
    ensures Distance(a, c) <= Distance(a, b) + Distance(b, c)
  {
  }

  /** `next_coord(direction)`: one unit up, down, right or left. */
  function NextCoord(c: Coordinate, direction: char): (r: Option<Coordinate>)
    ensures r.Some? <==> direction in "UDRL"
    ensures r.Some? ==> Distance(c, r.value) == 1
  {
    match direction
    case 'U' => Some(Coordinate(c.x, c.y + 1))
    case 'D' => Some(Coordinate(c.x, c.y - 1))
    case 'R' => Some(Coordinate(c.x + 1, c.y))
    case 'L' => Some(Coordinate(c.x - 1, c.y))
    case _ => None
  }

  /** Every move letter is one `next_coord` knows. */
  predicate IsMoves(moves: seq<char>) {
    forall i :: 0 <= i < |moves| ==> moves[i] in "UDRL"
  }

  /** `get_wire_coordinates(movements, start)`: the start and then one
      coordinate per move, or `None` when a move is unknown. */
  function WireCoordinates(moves: seq<char>, start: Coordinate): (r: Option<seq<Coordinate>>)
    ensures r.Some? <==> IsMoves(moves)
    ensures r.Some? ==> |r.value| == |moves| + 1 && r.value[0] == start
    ensures r.Some? ==> forall i :: 0 <= i < |moves| ==> NextCoord(r.value[i], moves[i]) == Some(r.value[i + 1])
    decreases |moves|
  {
    if moves == [] then Some([start])
    else
      match NextCoord(start, moves[0])
      case None => None
      case Some(next) =>
        match WireCoordinates(moves[1..], next)
        case None => None
        case Some(rest) =>
          assert forall i :: 1 <= i < |moves| ==> moves[i] == moves[1..][i - 1];
          Some([start] + rest)
  }

  /** A wire never gets further from the start than the number of moves it
      has made. */
  lemma {:induction false} WithinReach(moves: seq<char>, start: Coordinate, i: nat)
    requires WireCoordinates(moves, start).Some? && i <= |moves|
    ensures Distance(start, WireCoordinates(moves, start).value[i]) <= i
  {
    var w := WireCoordinates(moves, start).value;
    if i > 0 {
      WithinReach(moves, start, i - 1);
      DistanceIsMetric(start, w[i - 1], w[i]);
    }
  }

  const Zero := Coordinate(0, 0)

  /** `(wire_1_coords & wire_2_coords) - {zero}`. */
  function Crossings(w1: seq<Coordinate>, w2: seq<Coordinate>): (r: set<Coordinate>)
    ensures forall c :: c in r <==> c in w1 && c in w2 && c != Zero
  {
    (set c | c in w1) * (set c | c in w2) - {Zero}
  }

  /** `min(zero.distance(c) for c in intersections)`. */
  method ClosestDistance(crossings: set<Coordinate>) returns (r: Result<nat, WireError>)
    ensures r.Failure? <==> crossings == {}
    ensures r.Failure? ==> r.error == NoCrossing
    ensures r.Success? ==> (exists c :: c in crossings && Distance(Zero, c) == r.value) &&
                           forall c :: c in crossings ==> r.value <= Distance(Zero, c)
  {
    if crossings == {} {
      return Failure(NoCrossing);
    }
    var first :| first in crossings;
    var best := Distance(Zero, first);
    var left := crossings - {first};
    while left != {}
      invariant left <= crossings
      invariant exists c :: c in crossings && Distance(Zero, c) == best
      invariant forall c :: c in crossings - left ==> best <= Distance(Zero, c)
      decreases |left|
    {
      var c :| c in left;
      if Distance(Zero, c) < best {
        best := Distance(Zero, c);
      }
      left := left - {c};
    }
    return Success(best);
  }

  /** `puzzle1` on two wires' moves: the distance from the central port to
      the closest crossing. */
  method ClosestCrossing(moves1: seq<char>, moves2: seq<char>) returns (r: Result<nat, WireError>)
    ensures r.Failure? && r.error == UnknownDirection <==> !IsMoves(moves1) || !IsMoves(moves2)
    ensures r == Failure(NoCrossing) <==>
      (IsMoves(moves1) && IsMoves(moves2) &&
       Crossings(WireCoordinates(moves1, Zero).value, WireCoordinates(moves2, Zero).value) == {})
    ensures r.Success? ==>
      var cs := Crossings(WireCoordinates(moves1, Zero).value, WireCoordinates(moves2, Zero).value);
      (exists c :: c in cs && Distance(Zero, c) == r.value) && forall c :: c in cs ==> r.value <= Distance(Zero, c)
  {
    var w1 := WireCoordinates(moves1, Zero);
    var w2 := WireCoordinates(moves2, Zero);
    if w1.None? || w2.None? {
      return Failure(UnknownDirection);
    }
    r := ClosestDistance(Crossings(w1.value, w2.value));
  }

  /** The loop of `puzzle2` filling a dictionary with `setdefault(coord,
      distance)`: every coordinate of the wire mapped to the first step that
      reaches it. */
  method FirstSteps(coords: seq<Coordinate>) returns (steps: map<Coordinate, nat>)
    ensures steps.Keys == set c | c in coords
    ensures forall c :: c in steps ==> FirstReachedAt(coords, c, steps[c])
  {
    steps := map[];
    for distance := 0 to |coords|
      invariant steps.Keys == set c | c in coords[..distance]
      invariant forall c :: c in steps ==> steps[c] < distance && FirstReachedAt(coords, c, steps[c])
    {
      var coord := coords[distance];
      if coord !in steps {
        steps := steps[coord := distance];
      }
      assert coords[..distance + 1] == coords[..distance] + [coord];
    }
    assert coords[..|coords|] == coords;
  }

  /** `min(wire_1_coords[c] + wire_2_coords[c] for c in intersections)`. */
  method FewestSteps(steps1: map<Coordinate, nat>, steps2: map<Coordinate, nat>, crossings: set<Coordinate>)
    returns (r: Result<nat, WireError>)
    requires crossings <= steps1.Keys && crossings <= steps2.Keys
    ensures r.Failure? <==> crossings == {}
    ensures r.Failure? ==> r.error == NoCrossing
    ensures r.Success? ==> (exists c :: c in crossings && steps1[c] + steps2[c] == r.value) &&
                           forall c :: c in crossings ==> r.value <= steps1[c] + steps2[c]
  {
    if crossings == {} {
      return Failure(NoCrossing);
    }
    var first :| first in crossings;
    var best := steps1[first] + steps2[first];
    var left := crossings - {first};
    while left != {}
      invariant left <= crossings
      invariant exists c :: c in crossings && steps1[c] + steps2[c] == best
      invariant forall c :: c in crossings - left ==> best <= steps1[c] + steps2[c]
      decreases |left|
    {
      var c :| c in left;
      if steps1[c] + steps2[c] < best {
        best := steps1[c] + steps2[c];
      }
      left := left - {c};
    }
    return Success(best);
  }

  /** The number of steps a wire takes to reach `c` the first time. */
  predicate FirstReachedAt(w: seq<Coordinate>, c: Coordinate, n: nat) {
    n < |w| && w[n] == c && forall j :: 0 <= j < n ==> w[j] != c
  }

  /** `best` is the fewest combined steps to a crossing of `w1` and `w2`. */
  ghost predicate FewestCombined(w1: seq<Coordinate>, w2: seq<Coordinate>, best: nat) {
    (exists c, n1: nat, n2: nat :: c in Crossings(w1, w2) && FirstReachedAt(w1, c, n1) && FirstReachedAt(w2, c, n2) &&
                                  n1 + n2 == best) &&
    forall c, n1: nat, n2: nat :: c in Crossings(w1, w2) && FirstReachedAt(w1, c, n1) && FirstReachedAt(w2, c, n2) ==>
                                  best <= n1 + n2
  }

  /** The minimum over the first-step dictionaries is the fewest combined steps. */
  lemma FirstStepsMinimum(w1: seq<Coordinate>, w2: seq<Coordinate>, steps1: map<Coordinate, nat>,
                          steps2: map<Coordinate, nat>, best: nat)
    requires forall c :: c in steps1 ==> FirstReachedAt(w1, c, steps1[c])
    requires forall c :: c in steps2 ==> FirstReachedAt(w2, c, steps2[c])
    requires Crossings(w1, w2) <= steps1.Keys && Crossings(w1, w2) <= steps2.Keys
    requires exists c :: c in Crossings(w1, w2) && steps1[c] + steps2[c] == best
    requires forall c :: c in Crossings(w1, w2) ==> best <= steps1[c] + steps2[c]
    ensures FewestCombined(w1, w2, best)
  {
    forall c, n1: nat, n2: nat | c in Crossings(w1, w2) && FirstReachedAt(w1, c, n1) && FirstReachedAt(w2, c, n2)
      ensures best <= n1 + n2
    {
      FirstReachedUnique(w1, c, n1, steps1[c]);
      FirstReachedUnique(w2, c, n2, steps2[c]);
    }
    var c :| c in Crossings(w1, w2) && steps1[c] + steps2[c] == best;
    assert FirstReachedAt(w1, c, steps1[c]) && FirstReachedAt(w2, c, steps2[c]);
  }

  lemma FirstReachedUnique(w: seq<Coordinate>, c: Coordinate, n: nat, m: nat)
    requires FirstReachedAt(w, c, n) && FirstReachedAt(w, c, m)
    ensures n == m
  {
  }

  /** `puzzle2` on two wires' moves: the fewest combined steps the wires take
      to reach a crossing, each counted to its first visit. */
  method FewestCombinedSteps(moves1: seq<char>, moves2: seq<char>) returns (r: Result<nat, WireError>)
    ensures r.Failure? && r.error == UnknownDirection <==> !IsMoves(moves1) || !IsMoves(moves2)
    ensures r == Failure(NoCrossing) <==>
      (IsMoves(moves1) && IsMoves(moves2) &&
       Crossings(WireCoordinates(moves1, Zero).value, WireCoordinates(moves2, Zero).value) == {})
    ensures r.Success? ==> FewestCombined(WireCoordinates(moves1, Zero).value, WireCoordinates(moves2, Zero).value, r.value)
  {
    var w1 := WireCoordinates(moves1, Zero);
    var w2 := WireCoordinates(moves2, Zero);
    if w1.None? || w2.None? {
      return Failure(UnknownDirection);
    }
    var steps1 := FirstSteps(w1.value);
    var steps2 := FirstSteps(w2.value);
    var crossings := Crossings(w1.value, w2.value);
    r := FewestSteps(steps1, steps2, crossings);
    if r.Success? {
      FirstStepsMinimum(w1.value, w2.value, steps1, steps2, r.value);
    }
  }
}
