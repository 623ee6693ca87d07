/** The tractor beam scan of python/src/solve19.py: a bisection for the
    first passing value, the search by growing powers that brackets it, and
    the tester that asks the drone program about one position, caches the
    answers, and looks for the edge of the beam along a column. The drone
    program itself is the predicate `beam`. */
module Beam {
  import opened Wrappers
  import Decimal

  datatype BeamError =
    | AssertionFailed  // one of the `assert` statements
    | OutOfFuel        // the loop of `find_first` has not ended yet

  /** `bisect(low, high, test)`: the assertions are checked on every call. */
  function Bisect(low: int, high: int, test: int -> bool): (r: Result<int, BeamError>)
    ensures r.Success? <==> high > low && !test(low) && test(high)
    ensures r.Success? ==> low < r.value <= high && test(r.value) && !test(r.value - 1)
    decreases high - low
  {
    if !(high > low && !test(low) && test(high)) then Failure(AssertionFailed)
    else if high - low == 1 then Success(high)
    else
      var mid := (high + low) / 2;
      if test(mid) then Bisect(low, mid, test) else Bisect(mid, high, test)
  }

  /** Where the test only ever switches from failing to passing, the value
      `bisect` finds is the first passing one. */
  lemma FirstPassing(test: int -> bool, h: int)
    requires forall a, b :: a <= b && test(a) ==> test(b)
    requires test(h) && !test(h - 1)
    ensures forall y :: test(y) <==> y >= h
  {
  }

  function Pow(b: int, k: nat): int {
    if k == 0 then 1 else b * Pow(b, k - 1)
  }

  /** `find_first(test, step)`: multiply by `step` until the test passes,
      then bisect between the last failing power and the passing one; `fuel`
      bounds the multiplications, as a test that never passes never ends. */
  method FindFirst(test: int -> bool, step: int, fuel: nat) returns (r: Result<int, BeamError>)
    requires step >= 2
    ensures r.Success? ==> r.value >= 1 && test(r.value) && !test(r.value - 1)
    ensures r == Failure(AssertionFailed) <==> test(1) && test(0)
    ensures r.Success? ==> exists k: nat :: test(Pow(step, k)) && r.value <= Pow(step, k) &&
                                          forall j: nat :: j < k ==> !test(Pow(step, j))
  {
    var x := 1;
    ghost var k: nat := 0;
    var rounds := 0;
    while !test(x)
      invariant x == Pow(step, k) && x >= 1 && rounds == k <= fuel
      invariant forall j: nat :: j < k ==> !test(Pow(step, j))
      decreases fuel - rounds
    {
      if rounds == fuel {
        return Failure(OutOfFuel);
      }
      Decimal.MulMonotone(x, 1, step);
      x := x * step;
      k := k + 1;
      rounds := rounds + 1;
    }
    if k > 0 {
      Decimal.DivUnique(x, step, Pow(step, k - 1), 0);
    } else {
      Decimal.DivUnique(x, step, 0, 1);
    }
    r := Bisect(x / step, x, test);
  }

  /** `TractorBeamTester`: `maxCoord` is `None` for the unbounded tester
      (`float('inf')`), `beam` answers for the drone program. */
  class BeamTester {
    const maxCoord: Option<nat>
    const beam: (int, int) -> bool
    /** `cache`: the answers so far, keyed by position. */
    var cache: map<(int, int), bool>

    /** The asserts of `_test_coordinates`. */
    predicate InRange(x: int, y: int) {
      0 <= x && 0 <= y && (maxCoord.Some? ==> x <= maxCoord.value && y <= maxCoord.value)
    }

    /** The cache only holds answers of the drone program at valid positions. */
    predicate Valid()
      reads this
    {
      forall c :: c in cache ==> InRange(c.0, c.1) && cache[c] == beam(c.0, c.1)
    }

    constructor(maxCoord: Option<nat>, beam: (int, int) -> bool)
      ensures this.maxCoord == maxCoord && this.beam == beam && cache == map[] && Valid()
    {
      this.maxCoord := maxCoord;
      this.beam := beam;
      cache := map[];
    }

    /** `test_coordinates(x, y)`: the cached answer, or the drone program's
        answer, which is then cached. */
    method TestCoordinates(x: int, y: int) returns (r: Result<bool, BeamError>)
      requires Valid()
      modifies this
      ensures Valid()
      ensures r.Success? <==> InRange(x, y)
      ensures r.Success? ==> r.value == beam(x, y)
      ensures (x, y) in old(cache) ==> cache == old(cache)
      ensures cache == if InRange(x, y) then old(cache)[(x, y) := beam(x, y)] else old(cache)
    {
      if (x, y) !in cache {
        if !InRange(x, y) {
          return Failure(AssertionFailed);
        }
        cache := cache[(x, y) := beam(x, y)];
      }
      return Success(cache[(x, y)]);
    }

    /** `y = max(0, min(start_y, self.max_coord))`. */
    function Clamp(startY: int): (y: int)
      ensures y >= 0 && (maxCoord.Some? ==> y <= maxCoord.value)
      ensures 0 <= startY && (maxCoord.Some? ==> startY <= maxCoord.value) ==> y == startY
    {
      var m := if maxCoord.Some? && maxCoord.value < startY then maxCoord.value else startY;
      if m < 0 then 0 else m
    }

    /** `min_y`. */
    function MinY(y: int, maxError: int): (r: int)
      requires y >= 0 && maxError > 0
      ensures 0 <= r <= y
    {
      var q := y / maxError;
      Decimal.MulMonotone(q, 1, maxError);
      var low := q - 1;
      if low < 0 then 0 else low
    }

    /** `max_y`. */
    function MaxY(y: int, maxError: int): (r: int)
      requires y >= 0 && maxError > 0
      ensures maxCoord.Some? ==> r <= maxCoord.value
      ensures maxCoord.None? || y < maxCoord.value ==> y < r
    {
      var high := if y * maxError + 1 < y + maxError + 1 then y + maxError + 1 else y * maxError + 1;
      if maxCoord.Some? && maxCoord.value < high then maxCoord.value else high
    }

    /** `get_first_y(x, expected_value, start_y, max_error)`: from the clamped
        start, downwards to the top of the run of `expected` values it lies
        in, or upwards to the first `expected` value, within `MinY` and
        `MaxY`. */
    method GetFirstY(x: int, expected: bool, startY: int, maxError: int) returns (r: Result<Option<int>, BeamError>)
      requires Valid() && maxError > 0
      modifies this
      ensures Valid() && old(cache).Keys <= cache.Keys
      ensures r.Failure? <==> !InRange(x, 0)
      ensures var y0 := Clamp(startY);
        r.Success? && beam(x, y0) == expected ==>
          r.value.Some? && MinY(y0, maxError) <= r.value.value <= y0 &&
          (forall y :: r.value.value <= y <= y0 ==> beam(x, y) == expected) &&
          (r.value.value > MinY(y0, maxError) ==> beam(x, r.value.value - 1) != expected)
      ensures var y0 := Clamp(startY);
        r.Success? && beam(x, y0) != expected && r.value.Some? ==>
          y0 < r.value.value <= MaxY(y0, maxError) && beam(x, r.value.value) == expected &&
          forall y :: y0 <= y < r.value.value ==> beam(x, y) != expected
      ensures var y0 := Clamp(startY);
        r.Success? && beam(x, y0) != expected && r.value.None? ==>
          forall y :: y0 <= y <= MaxY(y0, maxError) ==> beam(x, y) != expected
    {
      var y := Clamp(startY);
      ghost var y0 := y;
      var minY := MinY(y, maxError);
      var maxY := MaxY(y, maxError);
      var startValue := TestCoordinates(x, y);
      if startValue.Failure? {
        return Failure(startValue.error);
      }
      if startValue.value == expected {
        while y > minY
          invariant Valid() && old(cache).Keys <= cache.Keys
          invariant minY <= y <= y0
          invariant forall y' :: y <= y' <= y0 ==> beam(x, y') == expected
        {
          var above := TestCoordinates(x, y - 1);
          assert above.Success?;
          if above.value != expected {
            return Success(Some(y));
          }
          y := y - 1;
        }
        return Success(Some(minY));
      } else {
        while y < maxY
          invariant Valid() && old(cache).Keys <= cache.Keys
          invariant y0 <= y && (y0 < maxY ==> y <= maxY)
          invariant forall y' :: y0 <= y' <= y ==> beam(x, y') != expected
        {
          y := y + 1;
          var value := TestCoordinates(x, y);
          assert value.Success?;
          if value.value == expected {
            return Success(Some(y));
          }
        }
        return Success(None);
      }
    }
  }
}
