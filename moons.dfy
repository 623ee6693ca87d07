/** The moon simulation of solve12.py: per-axis gravity between every pair of
    moons, velocity updates, total energy, and the common repetition period. */
module Moons {
  import NumberTheory
  import Decimal

  /** The gravity one moon feels towards another along an axis. */
  function Sign(d: int): int {
    if d > 0 then 1 else if d < 0 then -1 else 0
  }

  function Abs(a: int): nat {
    if a < 0 then -a else a
  }

  function Sum(s: seq<int>): int {
    if s == [] then 0 else Sum(s[..|s| - 1]) + s[|s| - 1]
  }

  /** The pull on moon k from moons lo..hi-1. */
  function PullRange(xs: seq<int>, k: int, lo: int, hi: int): int
    requires 0 <= k < |xs| && 0 <= lo <= hi <= |xs|
    decreases hi - lo
  {
    if lo == hi then 0 else PullRange(xs, k, lo, hi - 1) + Sign(xs[hi - 1] - xs[k])
  }

  /** The velocities after the gravity pass of one step. */
  function Velocities(xs: seq<int>, vs: seq<int>): (r: seq<int>)
    requires |xs| == |vs|
    ensures |r| == |vs|
  {
    seq(|vs|, k requires 0 <= k < |vs| => vs[k] + PullRange(xs, k, 0, |xs|))
  }

  /** The positions after one step: each moved by its new velocity. */
  function Positions(xs: seq<int>, vs: seq<int>): (r: seq<int>)
    requires |xs| == |vs|
    ensures |r| == |xs|
  {
    seq(|xs|, k requires 0 <= k < |xs| => xs[k] + Velocities(xs, vs)[k])
  }

  /** Sum of the pulls of moon `m` on moons 0..k-1. */
  function PulledBy(xs: seq<int>, m: int, k: int): int
    requires 0 <= m < |xs| && 0 <= k <= |xs|
  {
    if k == 0 then 0 else PulledBy(xs, m, k - 1) + Sign(xs[m] - xs[k - 1])
  }

  /** Sum over moons 0..m-1 of their pulls from moons 0..n-1. */
  function TotalPull(xs: seq<int>, m: int, n: int): int
    requires 0 <= m <= |xs| && 0 <= n <= |xs|
  {
    if m == 0 then 0 else TotalPull(xs, m - 1, n) + PullRange(xs, m - 1, 0, n)
  }

  lemma {:induction false} PullsCancel(xs: seq<int>, m: int, k: int)
    requires 0 <= m < |xs| && 0 <= k <= |xs|
    ensures PullRange(xs, m, 0, k) == -PulledBy(xs, m, k)
  {
    if k > 0 {
      PullsCancel(xs, m, k - 1);
    }
  }

  lemma {:induction false} TotalPullExtend(xs: seq<int>, m: int, n: int)
    requires 0 <= m <= n < |xs|
    ensures TotalPull(xs, m, n + 1) == TotalPull(xs, m, n) + PulledBy(xs, n, m)
  {
    if m > 0 {
      TotalPullExtend(xs, m - 1, n);
    }
  }

  /** Gravity is antisymmetric, so the pulls of all moons on each other cancel. */
  lemma {:induction false} TotalPullZero(xs: seq<int>, n: int)
    requires 0 <= n <= |xs|
    ensures TotalPull(xs, n, n) == 0
  {
    if n > 0 {
      TotalPullZero(xs, n - 1);
      TotalPullExtend(xs, n - 1, n - 1);
      PullsCancel(xs, n - 1, n - 1);
      assert PullRange(xs, n - 1, 0, n) == PullRange(xs, n - 1, 0, n - 1);
    }
  }

  lemma {:induction false} SumVelocities(xs: seq<int>, vs: seq<int>, m: int)
    requires |xs| == |vs| && 0 <= m <= |vs|
    ensures Sum(Velocities(xs, vs)[..m]) == Sum(vs[..m]) + TotalPull(xs, m, |xs|)
  {
    if m > 0 {
      SumVelocities(xs, vs, m - 1);
      assert Velocities(xs, vs)[..m][..m - 1] == Velocities(xs, vs)[..m - 1];
      assert vs[..m][..m - 1] == vs[..m - 1];
    }
  }

  /** A step leaves the sum of the velocities unchanged. */
  lemma VelocitySumConserved(xs: seq<int>, vs: seq<int>)
    requires |xs| == |vs|
    ensures Sum(Velocities(xs, vs)) == Sum(vs)
  {
    SumVelocities(xs, vs, |vs|);
    TotalPullZero(xs, |xs|);
    assert Velocities(xs, vs)[..|vs|] == Velocities(xs, vs);
    assert vs[..|vs|] == vs;
  }

  /** `Moon1D`: one moon along one axis. */
  class Moon1D {
    var x: int
    var v: int

    constructor (x: int)
      ensures this.x == x && v == 0
    {
      this.x := x;
      v := 0;
    }

    /** `apply_gravity(other)`: pulls both moons one unit towards each other;
        positions do not change. */
    method ApplyGravity(other: Moon1D)
      modifies this, other
      ensures x == old(x) && other.x == old(other.x)
      ensures this != other ==> v == old(v) + Sign(old(other.x) - old(x))
      ensures this != other ==> other.v == old(other.v) - Sign(old(other.x) - old(x))
      ensures this == other ==> v == old(v)
    {
      var gravity;
      if x > other.x {
        gravity := -1;
      } else if x < other.x {
        gravity := 1;
      } else {
        gravity := 0;
      }
      v := v + gravity;
      other.v := other.v - gravity;
    }

    /** `apply_velocity()`. */
    method ApplyVelocity()
      modifies this
      ensures x == old(x) + old(v) && v == old(v)
    {
      x := x + v;
    }
  }

  /** The velocity of moon k during the gravity pass, after the pairs
      (a, b) with a < i, and (i, b) with b < j, have been processed. */
  function Partial(xs: seq<int>, vs: seq<int>, k: int, i: int, j: int): int
    requires |xs| == |vs| && 0 <= k < |xs| && 0 <= i < j <= |xs|
  {
    if k < i then vs[k] + PullRange(xs, k, 0, |xs|)
    else if k == i then vs[k] + PullRange(xs, k, 0, j)
    else if k < j then vs[k] + PullRange(xs, k, 0, i + 1)
    else vs[k] + PullRange(xs, k, 0, i)
  }

  /** `Moons1D`: all moons along one axis. */
  class Moons1D {
    var moons: seq<Moon1D>

    ghost predicate Valid()
      reads this
    {
      forall i, j :: 0 <= i < j < |moons| ==> moons[i] != moons[j]
    }

    ghost function Xs(): (r: seq<int>)
      reads this, moons
      ensures |r| == |moons|
    {
      seq(|moons|, i reads this, moons requires 0 <= i < |moons| => moons[i].x)
    }

    ghost function Vs(): (r: seq<int>)
      reads this, moons
      ensures |r| == |moons|
    {
      seq(|moons|, i reads this, moons requires 0 <= i < |moons| => moons[i].v)
    }

    constructor (coords: seq<int>)
      ensures Valid() && Xs() == coords && Vs() == seq(|coords|, _ => 0)
      ensures forall i :: 0 <= i < |moons| ==> fresh(moons[i])
    {
      var ms: seq<Moon1D> := [];
      var k := 0;
      while k < |coords|
        invariant 0 <= k <= |coords| && |ms| == k
        invariant forall i :: 0 <= i < k ==> fresh(ms[i]) && ms[i].x == coords[i] && ms[i].v == 0
        invariant forall i, j :: 0 <= i < j < k ==> ms[i] != ms[j]
      {
        var m := new Moon1D(coords[k]);
        ms := ms + [m];
        k := k + 1;
      }
      moons := ms;
    }

    /** `apply_step()`: gravity on every pair of moons in order, then velocity. */
    method ApplyStep()
      requires Valid()
      modifies moons
      ensures moons == old(moons)
      ensures Vs() == Velocities(old(Xs()), old(Vs()))
      ensures Xs() == Positions(old(Xs()), old(Vs()))
    {
      ghost var xs, vs := Xs(), Vs();
      var n := |moons|;
      var i := 0;
      while i < n
        invariant 0 <= i <= n
        invariant forall k :: 0 <= k < n ==> moons[k].x == xs[k]
        invariant forall k :: 0 <= k < n ==>
          moons[k].v == vs[k] + (if k < i then PullRange(xs, k, 0, n) else PullRange(xs, k, 0, i))
      {
        GravityRow(xs, vs, i);
        i := i + 1;
      }
      ghost var velocities := Vs();
      assert velocities == Velocities(xs, vs) by {
        forall k | 0 <= k < n ensures velocities[k] == Velocities(xs, vs)[k] {
        }
      }
      MoveAll();
      assert Xs() == Positions(xs, vs) by {
        forall k | 0 <= k < n ensures Xs()[k] == Positions(xs, vs)[k] {
        }
      }
    }

    /** The velocity pass of `apply_step`. */
    method MoveAll()
      requires Valid()
      modifies moons
      ensures Vs() == old(Vs())
      ensures forall m :: 0 <= m < |moons| ==> moons[m].x == old(moons[m].x) + old(moons[m].v)
    {
      var n := |moons|;
      var k := 0;
      while k < n
        invariant 0 <= k <= n
        invariant forall m :: 0 <= m < n ==> moons[m].v == old(moons[m].v)
        invariant forall m :: 0 <= m < k ==> moons[m].x == old(moons[m].x) + old(moons[m].v)
        invariant forall m :: k <= m < n ==> moons[m].x == old(moons[m].x)
      {
        moons[k].ApplyVelocity();
        k := k + 1;
      }
    }

    /** The pairs (i, j) for j > i of the gravity pass. */
    method GravityRow(ghost xs: seq<int>, ghost vs: seq<int>, i: int)
      requires Valid() && |xs| == |vs| == |moons| && 0 <= i < |moons|
      requires forall k :: 0 <= k < |moons| ==> moons[k].x == xs[k]
      requires forall k :: 0 <= k < |moons| ==>
        moons[k].v == vs[k] + (if k < i then PullRange(xs, k, 0, |xs|) else PullRange(xs, k, 0, i))
      modifies moons
      ensures forall k :: 0 <= k < |moons| ==> moons[k].x == xs[k]
      ensures forall k :: 0 <= k < |moons| ==>
        moons[k].v == vs[k] + (if k < i + 1 then PullRange(xs, k, 0, |xs|) else PullRange(xs, k, 0, i + 1))
    {
      var n := |moons|;
      assert PullRange(xs, i, 0, i + 1) == PullRange(xs, i, 0, i);
      var j := i + 1;
      while j < n
        invariant i + 1 <= j <= n
        invariant forall k :: 0 <= k < n ==> moons[k].x == xs[k]
        invariant forall k :: 0 <= k < n ==> moons[k].v == Partial(xs, vs, k, i, j)
      {
        ghost var before := Vs();
        moons[i].ApplyGravity(moons[j]);
        forall k | 0 <= k < n
          ensures moons[k].v == Partial(xs, vs, k, i, j + 1)
        {
          if k != i && k != j {
            assert moons[k].v == before[k];
          }
        }
        j := j + 1;
      }
    }
  }

  /** A moon's position and velocity in three dimensions, as `get_moons` pairs them. */
  type Triple = (int, int, int)
  type Body = (Triple, Triple)

  function Norm(t: Triple): nat {
    Abs(t.0) + Abs(t.1) + Abs(t.2)
  }

  /** `get_total_energy`: the sum over the moons of potential times kinetic energy. */
  function Energy(bodies: seq<Body>): nat {
    if bodies == [] then 0
    else Energy(bodies[..|bodies| - 1]) + Norm(bodies[|bodies| - 1].0) * Norm(bodies[|bodies| - 1].1)
  }

  /** The total energy is 0 exactly when every moon is at the origin or at rest. */
  lemma {:induction false} EnergyZero(bodies: seq<Body>)
    ensures Energy(bodies) == 0 <==>
      forall k :: 0 <= k < |bodies| ==> Norm(bodies[k].0) == 0 || Norm(bodies[k].1) == 0
  {
    if bodies != [] {
      var init, last := bodies[..|bodies| - 1], bodies[|bodies| - 1];
      EnergyZero(init);
      assert forall k :: 0 <= k < |init| ==> init[k] == bodies[k];
      var a, b := Norm(last.0), Norm(last.1);
      if a != 0 && b != 0 {
        assert a * b >= 1 by {
          Decimal.MulMonotone(a, 1, b);
        }
      }
    }
  }

  /** No moon object belongs to both axes. */
  ghost predicate Disjoint(a: Moons1D, b: Moons1D)
    reads a, b
  {
    forall i, j :: 0 <= i < |a.moons| && 0 <= j < |b.moons| ==> a.moons[i] != b.moons[j]
  }

  /** `Moons3D`: one `Moons1D` per axis, stepped independently. The list
      `dimensions` of three axes is held as three fields. */
  class Moons3D {
    const xAxis: Moons1D
    const yAxis: Moons1D
    const zAxis: Moons1D

    ghost predicate Valid()
      reads this, xAxis, yAxis, zAxis
    {
      xAxis.Valid() && yAxis.Valid() && zAxis.Valid() &&
      |yAxis.moons| == |xAxis.moons| && |zAxis.moons| == |xAxis.moons| &&
      Disjoint(xAxis, yAxis) && Disjoint(xAxis, zAxis) && Disjoint(yAxis, zAxis)
    }

    /** Builds the three axes from the moons' coordinates; the coordinate list
        must not be empty, since unpacking `zip(*[])` into three names fails. */
    constructor (coords: seq<Triple>)
      requires |coords| > 0
      ensures Valid()
      ensures xAxis.Xs() == seq(|coords|, k requires 0 <= k < |coords| => coords[k].0)
      ensures yAxis.Xs() == seq(|coords|, k requires 0 <= k < |coords| => coords[k].1)
      ensures zAxis.Xs() == seq(|coords|, k requires 0 <= k < |coords| => coords[k].2)
      ensures xAxis.Vs() == yAxis.Vs() == zAxis.Vs() == seq(|coords|, _ => 0)
    {
      xAxis := new Moons1D(seq(|coords|, k requires 0 <= k < |coords| => coords[k].0));
      yAxis := new Moons1D(seq(|coords|, k requires 0 <= k < |coords| => coords[k].1));
      zAxis := new Moons1D(seq(|coords|, k requires 0 <= k < |coords| => coords[k].2));
    }

    /** `apply_step()`: every axis takes one step of its own. */
    method ApplyStep()
      requires Valid()
      modifies xAxis.moons, yAxis.moons, zAxis.moons
      ensures Valid()
      ensures xAxis.moons == old(xAxis.moons) && yAxis.moons == old(yAxis.moons) && zAxis.moons == old(zAxis.moons)
      ensures xAxis.Vs() == Velocities(old(xAxis.Xs()), old(xAxis.Vs()))
      ensures xAxis.Xs() == Positions(old(xAxis.Xs()), old(xAxis.Vs()))
      ensures yAxis.Vs() == Velocities(old(yAxis.Xs()), old(yAxis.Vs()))
      ensures yAxis.Xs() == Positions(old(yAxis.Xs()), old(yAxis.Vs()))
      ensures zAxis.Vs() == Velocities(old(zAxis.Xs()), old(zAxis.Vs()))
      ensures zAxis.Xs() == Positions(old(zAxis.Xs()), old(zAxis.Vs()))
    {
      ghost var y0, z0 := (yAxis.Xs(), yAxis.Vs()), (zAxis.Xs(), zAxis.Vs());
      xAxis.ApplyStep();
      assert (yAxis.Xs(), yAxis.Vs()) == y0 && (zAxis.Xs(), zAxis.Vs()) == z0;
      ghost var x1 := (xAxis.Xs(), xAxis.Vs());
      yAxis.ApplyStep();
      assert (xAxis.Xs(), xAxis.Vs()) == x1 && (zAxis.Xs(), zAxis.Vs()) == z0;
      ghost var y1 := (yAxis.Xs(), yAxis.Vs());
      zAxis.ApplyStep();
      assert (xAxis.Xs(), xAxis.Vs()) == x1 && (yAxis.Xs(), yAxis.Vs()) == y1;
    }

    /** `get_moons()`: position and velocity of each moon, gathered across the axes. */
    function GetMoons(): (r: seq<Body>)
      requires Valid()
      reads this, xAxis, yAxis, zAxis, xAxis.moons, yAxis.moons, zAxis.moons
      ensures |r| == |xAxis.moons|
      ensures forall k :: 0 <= k < |r| ==>
        r[k] == ((xAxis.Xs()[k], yAxis.Xs()[k], zAxis.Xs()[k]), (xAxis.Vs()[k], yAxis.Vs()[k], zAxis.Vs()[k]))
    {
      var xs, ys, zs := xAxis.moons, yAxis.moons, zAxis.moons;
      seq(|xs|, k requires 0 <= k < |xs| && k < |ys| && k < |zs| reads xs, ys, zs =>
        ((xs[k].x, ys[k].x, zs[k].x), (xs[k].v, ys[k].v, zs[k].v)))
    }

    /** `get_total_energy()`. */
    method GetTotalEnergy() returns (total: int)
      requires Valid()
      ensures total == Energy(GetMoons())
      ensures total >= 0
    {
      var bodies := GetMoons();
      total := 0;
      var k := 0;
      while k < |bodies|
        invariant 0 <= k <= |bodies| && total == Energy(bodies[..k])
      {
        var ((x, y, z), (vx, vy, vz)) := bodies[k];
        var potential := Abs(x) + Abs(y) + Abs(z);
        var kinetic := Abs(vx) + Abs(vy) + Abs(vz);
        total := total + potential * kinetic;
        assert bodies[..k + 1][..k] == bodies[..k];
        k := k + 1;
      }
      assert bodies[..k] == bodies;
    }
  }

  /** `get_common_period(*periods)`: folds `rtn *= p // gcd(rtn, p)` from 1. */
  method GetCommonPeriod(periods: seq<nat>) returns (rtn: nat)
    requires forall i :: 0 <= i < |periods| ==> periods[i] > 0
    ensures rtn == NumberTheory.CommonPeriod(periods)
    ensures rtn > 0 && forall i :: 0 <= i < |periods| ==> NumberTheory.Divides(periods[i], rtn)
  {
    rtn := 1;
    var k := 0;
    while k < |periods|
      invariant 0 <= k <= |periods| && rtn == NumberTheory.CommonPeriod(periods[..k])
    {
      var p := periods[k];
      assert periods[..k + 1][..k] == periods[..k];
      NumberTheory.GcdDivides(rtn, p);
      rtn := rtn * (p / NumberTheory.Gcd(rtn, p));
      k := k + 1;
    }
    assert periods[..k] == periods;
    forall i | 0 <= i < |periods| ensures NumberTheory.Divides(periods[i], rtn) {
      NumberTheory.CommonPeriodDividedByAll(periods, i);
    }
  }
}
