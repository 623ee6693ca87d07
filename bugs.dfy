/** The bug cellular automaton of solve24.py, on a single 5x5 grid and on
    recursively nested grids, with the biodiversity rating. */
module Bugs {

  // ---------------------------------------------------------------------
  // The rules shared by both variants (class `Bugs`)
  // ---------------------------------------------------------------------

  /** `count_neighbouring_bugs`: how many of the yielded neighbours are bugs. */
  function CountIn<C>(bugs: set<C>, neighbours: seq<C>): (n: nat)
    ensures n <= |neighbours|
    ensures n == 0 <==> forall i :: 0 <= i < |neighbours| ==> neighbours[i] !in bugs
  {
    if neighbours == [] then 0
    else (if neighbours[0] in bugs then 1 else 0) + CountIn(bugs, neighbours[1..])
  }

  /** `calculate_next_value`: a bug survives with exactly one neighbouring
      bug; an empty cell is infested by one or two. */
  predicate NextValue<C>(bugs: set<C>, c: C, neighbours: seq<C>) {
    if c in bugs then CountIn(bugs, neighbours) == 1
    else CountIn(bugs, neighbours) in {1, 2}
  }

  /** The cells `step` examines: the bugs and all their neighbours. */
  function Candidates<C>(bugs: set<C>, nb: C -> seq<C>): set<C> {
    bugs + set b, i | b in bugs && 0 <= i < |nb(b)| :: nb(b)[i]
  }

  /** `step`: the examined cells whose next value is true. */
  function StepSet<C>(bugs: set<C>, nb: C -> seq<C>): set<C> {
    set c | c in Candidates(bugs, nb) && NextValue(bugs, c, nb(c))
  }

  /** When the neighbour relation is symmetric on the valid cells, examining
      only the candidates loses nothing: every valid cell is a bug after the
      step exactly when its next value is true. */
  lemma StepIsRule<C>(bugs: set<C>, nb: C -> seq<C>, valid: C -> bool, c: C)
    requires forall a, i :: valid(a) && 0 <= i < |nb(a)| ==> valid(nb(a)[i]) && a in nb(nb(a)[i])
    requires valid(c)
    ensures c in StepSet(bugs, nb) <==> NextValue(bugs, c, nb(c))
  {
  }

  // ---------------------------------------------------------------------
  // SingleLevelBugs
  // ---------------------------------------------------------------------

  /** A cell `(x, y)` of the 5x5 grid. */
  predicate InGrid(c: (int, int)) { 0 <= c.0 < 5 && 0 <= c.1 < 5 }

  /** `SingleLevelBugs.iter_neighbours`. */
  function SingleNeighbours(c: (int, int)): seq<(int, int)> {
    var (x, y) := c;
    (if x != 0 then [(x - 1, y)] else []) +
    (if x != 4 then [(x + 1, y)] else []) +
    (if y != 0 then [(x, y - 1)] else []) +
    (if y != 4 then [(x, y + 1)] else [])
  }

  /** The neighbours of a grid cell are exactly the orthogonally adjacent grid cells. */
  lemma SingleNeighboursExact(c: (int, int), n: (int, int))
    requires InGrid(c)
    ensures n in SingleNeighbours(c) <==> InGrid(n) && (if c.0 < n.0 then n.0 - c.0 else c.0 - n.0) + (if c.1 < n.1 then n.1 - c.1 else c.1 - n.1) == 1
  {
  }

  predicate SingleValid(c: (int, int)) { InGrid(c) }

  lemma SingleSymmetric()
    ensures forall a, i :: SingleValid(a) && 0 <= i < |SingleNeighbours(a)| ==>
      SingleValid(SingleNeighbours(a)[i]) && a in SingleNeighbours(SingleNeighbours(a)[i])
  {
    forall a, i | SingleValid(a) && 0 <= i < |SingleNeighbours(a)|
      ensures SingleValid(SingleNeighbours(a)[i]) && a in SingleNeighbours(SingleNeighbours(a)[i])
    {
      var n := SingleNeighbours(a)[i];
      assert n in SingleNeighbours(a);
      SingleNeighboursExact(a, n);
      SingleNeighboursExact(n, a);
    }
  }

  /** 2^k. */
  function Pow2(k: nat): (r: nat)
    ensures r >= 1
  {
    if k == 0 then 1 else 2 * Pow2(k - 1)
  }

  /** The cell of bit k: row-major order, `x` fastest. */
  function CellOf(k: nat): (int, int) { (k % 5, k / 5) }

  /** The rating restricted to the first k cells. */
  function RatingUpTo(bugs: set<(int, int)>, k: nat): nat {
    if k == 0 then 0
    else RatingUpTo(bugs, k - 1) + (if CellOf(k - 1) in bugs then Pow2(k - 1) else 0)
  }

  /** `biodiversity_rating`: the sum of 2^(5y+x) over the bugs of the grid. */
  function Rating(bugs: set<(int, int)>): nat {
    RatingUpTo(bugs, 25)
  }

  lemma {:induction false} RatingUpToBound(bugs: set<(int, int)>, k: nat)
    ensures RatingUpTo(bugs, k) < Pow2(k)
  {
    if k > 0 {
      RatingUpToBound(bugs, k - 1);
    }
  }

  /** Two grids with the same rating agree on the first k cells. */
  lemma {:induction false} RatingUpToInjective(a: set<(int, int)>, b: set<(int, int)>, k: nat)
    requires RatingUpTo(a, k) == RatingUpTo(b, k)
    ensures forall j :: 0 <= j < k ==> (CellOf(j) in a <==> CellOf(j) in b)
  {
    if k > 0 {
      RatingUpToBound(a, k - 1);
      RatingUpToBound(b, k - 1);
      RatingUpToInjective(a, b, k - 1);
    }
  }

  lemma CellOfCovers(c: (int, int))
    requires InGrid(c)
    ensures 0 <= 5 * c.1 + c.0 < 25 && CellOf(5 * c.1 + c.0) == c
  {
  }

  /** The rating lies in [0, 2^25), and different grids have different ratings. */
  lemma RatingIsEncoding(a: set<(int, int)>, b: set<(int, int)>)
    ensures Rating(a) < Pow2(25)
    ensures Rating(a) == Rating(b) ==> forall c :: InGrid(c) ==> (c in a <==> c in b)
  {
    RatingUpToBound(a, 25);
    if Rating(a) == Rating(b) {
      RatingUpToInjective(a, b, 25);
      forall c | InGrid(c) ensures c in a <==> c in b {
        CellOfCovers(c);
      }
    }
  }

  /** `SingleLevelBugs`. */
  class SingleLevelBugs {
    var bugs: set<(int, int)>

    constructor (coordinates: set<(int, int)>)
      ensures bugs == coordinates
    {
      bugs := coordinates;
    }

    /** `step()`. */
    method Step()
      modifies this
      ensures bugs == StepSet(old(bugs), SingleNeighbours)
    {
      bugs := set c | c in Candidates(bugs, SingleNeighbours) && NextValue(bugs, c, SingleNeighbours(c));
    }

    /** `biodiversity_rating`: the nested loops over rows and columns. */
    method BiodiversityRating() returns (rtn: nat)
      ensures rtn == Rating(bugs)
      ensures rtn < Pow2(25)
    {
      var bitValue := 1;
      rtn := 0;
      var y := 0;
      while y < 5
        invariant 0 <= y <= 5
        invariant bitValue == Pow2(5 * y) && rtn == RatingUpTo(bugs, 5 * y)
      {
        var x := 0;
        while x < 5
          invariant 0 <= x <= 5
          invariant bitValue == Pow2(5 * y + x) && rtn == RatingUpTo(bugs, 5 * y + x)
        {
          assert CellOf(5 * y + x) == (x, y);
          if (x, y) in bugs {
            rtn := rtn + bitValue;
          }
          bitValue := bitValue * 2;
          x := x + 1;
        }
        y := y + 1;
      }
      RatingIsEncoding(bugs, bugs);
    }
  }

  /** A step of the single grid keeps the bugs on the grid and sets each grid
      cell by the rule. */
  lemma SingleStepIsRule(bugs: set<(int, int)>, c: (int, int))
    requires forall b :: b in bugs ==> InGrid(b)
    requires InGrid(c)
    ensures c in StepSet(bugs, SingleNeighbours) <==> NextValue(bugs, c, SingleNeighbours(c))
    ensures forall b :: b in StepSet(bugs, SingleNeighbours) ==> InGrid(b)
  {
    SingleSymmetric();
    StepIsRule(bugs, SingleNeighbours, SingleValid, c);
  }

  // ---------------------------------------------------------------------
  // MultiLevelBugs
  // ---------------------------------------------------------------------

  /** A tile `(level, x, y)` of a level's grid other than its centre, which
      holds the next level down. */
  predicate Tile(t: (int, int, int)) {
    0 <= t.1 < 5 && 0 <= t.2 < 5 && !(t.1 == 2 && t.2 == 2)
  }

  /** `MultiLevelBugs.iter_neighbours`. */
  function MultiNeighbours(t: (int, int, int)): seq<(int, int, int)> {
    var (level, x, y) := t;
    var horizontal :=
      if x == 0 then [(level - 1, 1, 2), (level, x + 1, y)]
      else if x == 4 then [(level - 1, 3, 2), (level, x - 1, y)]
      else if x == 1 && y == 2 then [(level, x - 1, y)] + seq(5, yy => (level + 1, 0, yy))
      else if x == 3 && y == 2 then [(level, x + 1, y)] + seq(5, yy => (level + 1, 4, yy))
      else [(level, x - 1, y), (level, x + 1, y)];
    var vertical :=
      if y == 0 then [(level - 1, 2, 1), (level, x, y + 1)]
      else if y == 4 then [(level - 1, 2, 3), (level, x, y - 1)]
      else if x == 2 && y == 1 then [(level, x, y - 1)] + seq(5, xx => (level + 1, xx, 0))
      else if x == 2 && y == 3 then [(level, x, y + 1)] + seq(5, xx => (level + 1, xx, 4))
      else [(level, x, y - 1), (level, x, y + 1)];
    horizontal + vertical
  }

  /** Neighbours of a tile are tiles (never a centre), and the relation is symmetric. */
  lemma MultiSymmetricAt(t: (int, int, int), i: int)
    requires Tile(t) && 0 <= i < |MultiNeighbours(t)|
    ensures Tile(MultiNeighbours(t)[i])
    ensures t in MultiNeighbours(MultiNeighbours(t)[i])
  {
    var (level, x, y) := t;
    var n := MultiNeighbours(t)[i];
    if n.0 == level + 1 {
      // an outer tile next to the centre, reaching into the inner level
      assert (x == 1 && y == 2) || (x == 3 && y == 2) || (x == 2 && y == 1) || (x == 2 && y == 3);
      if x == 1 && y == 2 {
        assert MultiNeighbours(n)[0] == t;
      } else if x == 3 && y == 2 {
        assert MultiNeighbours(n)[0] == t;
      } else if x == 2 && y == 1 {
        assert MultiNeighbours(n)[2] == t;
      } else {
        assert MultiNeighbours(n)[2] == t;
      }
    } else if n.0 == level - 1 {
      if x == 0 {
        assert n == (level - 1, 1, 2) || n == (level - 1, 2, 1) || n == (level - 1, 2, 3);
      }
      MultiOuterSees(t, n);
    } else {
      MultiSameLevelSymmetric(t, n);
    }
  }

  lemma MultiOuterSees(t: (int, int, int), n: (int, int, int))
    requires Tile(t) && n in MultiNeighbours(t) && n.0 == t.0 - 1
    ensures Tile(n) && t in MultiNeighbours(n)
  {
    var (level, x, y) := t;
    if n == (level - 1, 1, 2) {
      assert MultiNeighbours(n)[1 + y] == t;
    } else if n == (level - 1, 3, 2) {
      assert MultiNeighbours(n)[1 + y] == t;
    } else if n == (level - 1, 2, 1) {
      assert MultiNeighbours(n)[3 + x] == t;
    } else {
      assert n == (level - 1, 2, 3);
      assert MultiNeighbours(n)[3 + x] == t;
    }
  }

  lemma MultiSameLevelSymmetric(t: (int, int, int), n: (int, int, int))
    requires Tile(t) && n in MultiNeighbours(t) && n.0 == t.0
    ensures Tile(n) && t in MultiNeighbours(n)
  {
  }

  lemma MultiSymmetric()
    ensures forall a, i :: Tile(a) && 0 <= i < |MultiNeighbours(a)| ==>
      Tile(MultiNeighbours(a)[i]) && a in MultiNeighbours(MultiNeighbours(a)[i])
  {
    forall a, i | Tile(a) && 0 <= i < |MultiNeighbours(a)|
      ensures Tile(MultiNeighbours(a)[i]) && a in MultiNeighbours(MultiNeighbours(a)[i])
    {
      MultiSymmetricAt(a, i);
    }
  }

  /** The four tiles around the centre see the five edge tiles of the level
      inside; tiles on the outer edge see the tile of the level outside. */
  lemma MultiLevelLinks(level: int, k: int)
    requires 0 <= k < 5
    ensures (level + 1, 0, k) in MultiNeighbours((level, 1, 2))
    ensures (level + 1, 4, k) in MultiNeighbours((level, 3, 2))
    ensures (level + 1, k, 0) in MultiNeighbours((level, 2, 1))
    ensures (level + 1, k, 4) in MultiNeighbours((level, 2, 3))
    ensures (level - 1, 1, 2) in MultiNeighbours((level, 0, k))
    ensures (level - 1, 3, 2) in MultiNeighbours((level, 4, k))
    ensures (level - 1, 2, 1) in MultiNeighbours((level, k, 0))
    ensures (level - 1, 2, 3) in MultiNeighbours((level, k, 4))
    ensures |MultiNeighbours((level, 1, 2))| == 8
  {
    assert MultiNeighbours((level, 1, 2))[1 + k] == (level + 1, 0, k);
    assert MultiNeighbours((level, 3, 2))[1 + k] == (level + 1, 4, k);
    assert MultiNeighbours((level, 2, 1))[3 + k] == (level + 1, k, 0);
    assert MultiNeighbours((level, 2, 3))[3 + k] == (level + 1, k, 4);
  }

  /** A step of the nested grids sets each tile of every level by the rule. */
  lemma MultiStepIsRule(bugs: set<(int, int, int)>, c: (int, int, int))
    requires forall b :: b in bugs ==> Tile(b)
    requires Tile(c)
    ensures c in StepSet(bugs, MultiNeighbours) <==> NextValue(bugs, c, MultiNeighbours(c))
    ensures forall b :: b in StepSet(bugs, MultiNeighbours) ==> Tile(b)
  {
    MultiSymmetric();
    StepIsRule(bugs, MultiNeighbours, Tile, c);
  }

  /** `MultiLevelBugs`. */
  class MultiLevelBugs {
    var bugs: set<(int, int, int)>

    constructor (coordinates: set<(int, int, int)>)
      ensures bugs == coordinates
    {
      bugs := coordinates;
    }

    /** `step()`. */
    method Step()
      modifies this
      ensures bugs == StepSet(old(bugs), MultiNeighbours)
    {
      bugs := set c | c in Candidates(bugs, MultiNeighbours) && NextValue(bugs, c, MultiNeighbours(c));
    }

    /** `number_of_bugs`. */
    function NumberOfBugs(): (n: nat)
      reads this
      ensures n == 0 <==> bugs == {}
    {
      |bugs|
    }
  }
}
