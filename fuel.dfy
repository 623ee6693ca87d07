/** The fuel counter of python/src/solve1.py and rust/src/day1.rs: a third of
    the mass, rounded down, less two; and the total that also fuels the fuel,
    in Python on unbounded integers and in Rust on `u64`. */
module Fuel {
  import opened Wrappers
  import RustIntcode

  /** `get_required_fuel(mass)` in Python: `//` rounds towards minus
      infinity, which for the divisor 3 is Dafny's `/`. */
  function RequiredFuel(mass: int): (fuel: int)
    ensures 3 * (fuel + 2) <= mass < 3 * (fuel + 2) + 3
  {
    mass / 3 - 2
  }

  /** `get_total_required_fuel(mass)`: the fuel for the mass, then the fuel
      for that fuel, until a step asks for a negative amount. */
  function TotalFuel(mass: int): (total: nat)
    ensures RequiredFuel(mass) < 0 ==> total == 0
    ensures RequiredFuel(mass) >= 0 ==> total >= RequiredFuel(mass)
    decreases if mass < 0 then 0 else mass
  {
    var fuel := RequiredFuel(mass);
    if fuel < 0 then 0 else fuel + TotalFuel(fuel)
  }

  /** Each step asks for less than the mass before it, so the recursion ends,
      and the whole total is at most half the mass. */
  lemma {:induction false} TotalFuelBound(mass: int)
    ensures RequiredFuel(mass) >= 0 ==> RequiredFuel(mass) < mass
    ensures mass >= 0 ==> 2 * TotalFuel(mass) <= mass
    decreases if mass < 0 then 0 else mass
  {
    var fuel := RequiredFuel(mass);
    if fuel >= 0 {
      TotalFuelBound(fuel);
    }
  }

  type U64 = RustIntcode.U64

  datatype FuelError = Underflow  // `mass / 3 - 2` below zero: a panic in a debug build

  /** `get_required_fuel(mass)` in Rust: on `u64` the subtraction panics
      for masses below 6. */
  function RustRequiredFuel(mass: U64): (r: Result<U64, FuelError>)
    ensures r.Failure? <==> mass < 6
    ensures r.Success? ==> r.value == RequiredFuel(mass)
  {
    if mass / 3 < 2 then Failure(Underflow) else Success(mass / 3 - 2)
  }

  /** `get_required_fuel_recursive(mass)`: it subtracts only when the third
      exceeds 2, and its sum stays within `u64`; it is the Python total. */
  function RustRequiredFuelRecursive(mass: U64): (total: U64)
    ensures total == TotalFuel(mass)
    ensures 2 * total <= mass
  {
    if mass / 3 > 2 then
      var fuel := mass / 3 - 2;
      fuel + RustRequiredFuelRecursive(fuel)
    else
      assert RequiredFuel(mass) >= 0 ==> TotalFuel(RequiredFuel(mass)) == 0;
      0
  }
}
