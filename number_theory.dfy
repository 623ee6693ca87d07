/** Greatest common divisors, Bezout coefficients and modular inverses: the
    arithmetic behind `math.gcd` and `pow(x, -1, n)` that the shuffle and the
    moon-period kernels rely on. */
module NumberTheory {
  import opened Wrappers
  import Decimal

  /** `d` divides `m` (for a positive `d`). */
  predicate Divides(d: int, m: int)
    requires d > 0
  {
    m % d == 0
  }

  /** `u` and `v` differ by a multiple of `n`, so they leave the same remainder. */
  lemma ModOfLinear(u: int, v: int, k: int, n: int)
    requires n > 0 && u == v + k * n
    ensures u % n == v % n
  {
    assert v == n * (v / n) + v % n;
    assert u == n * (v / n + k) + v % n;
    Decimal.DivUnique(u, n, v / n + k, v % n);
  }

  /** Divisibility is closed under linear combinations. */
  lemma DividesLinear(g: int, x: int, y: int, k: int)
    requires g > 0 && Divides(g, x) && Divides(g, y)
    ensures Divides(g, k * x + y)
  {
    assert x == g * (x / g);
    assert y == g * (y / g);
    assert k * x + y == g * (k * (x / g) + y / g);
    Decimal.DivUnique(k * x + y, g, k * (x / g) + y / g, 0);
  }

  /** `math.gcd` on non-negative arguments (Euclid's algorithm). */
  function Gcd(a: nat, b: nat): nat
    decreases b
  {
    if b == 0 then a else Gcd(b, a % b)
  }

  /** The gcd is positive unless both arguments are 0, and divides both. */
  lemma {:induction false} GcdDivides(a: nat, b: nat)
    requires a > 0 || b > 0
    ensures Gcd(a, b) > 0 && Divides(Gcd(a, b), a) && Divides(Gcd(a, b), b)
    decreases b
  {
    if b == 0 {
      Decimal.DivUnique(a, a, 1, 0);
      Decimal.DivUnique(0, a, 0, 0);
    } else {
      GcdDivides(b, a % b);
      var g := Gcd(b, a % b);
      assert a == (a / b) * b + a % b;
      DividesLinear(g, b, a % b, a / b);
    }
  }

  /** Extended Euclid: the gcd with coefficients `x`, `y` such that `a*x + b*y`
      is the gcd. */
  function ExtGcd(a: nat, b: nat): (r: (nat, int, int))
    ensures r.0 == Gcd(a, b) && a * r.1 + b * r.2 == r.0
    decreases b
  {
    if b == 0 then (a, 1, 0)
    else
      var (g, x, y) := ExtGcd(b, a % b);
      assert a == b * (a / b) + a % b;
      assert a * y + b * (x - (a / b) * y) == b * x + (a - b * (a / b)) * y;
      (g, y, x - (a / b) * y)
  }

  datatype InverseError = NotInvertible(base: int, modulus: int)

  /** `pow(a, -1, n)`: the inverse of `a` modulo `n` in [0, n), or the
      `ValueError` raised when `a` and `n` are not coprime. */
  function ModInverse(a: int, n: int): (r: Result<int, InverseError>)
    requires n >= 1
    ensures r.Success? ==> 0 <= r.value < n && (a * r.value) % n == 1 % n
  {
    var base: nat := a % n;
    var (g, x, y) := ExtGcd(base, n);
    if g != 1 then Failure(NotInvertible(a, n))
    else
      InverseCorrect(a, n, x, y);
      Success(x % n)
  }

  lemma InverseCorrect(a: int, n: int, x: int, y: int)
    requires n >= 1 && (a % n) * x + n * y == 1
    ensures (a * (x % n)) % n == 1 % n
  {
    var r := a % n;
    assert a == n * (a / n) + r;
    assert x == n * (x / n) + x % n;
    var k := (a / n) * x - y - a * (x / n);
    assert a * (x % n) == a * x - n * (a * (x / n));
    assert a * x == r * x + n * ((a / n) * x);
    assert a * (x % n) == 1 + k * n;
    ModOfLinear(a * (x % n), 1, k, n);
  }

  /** When `pow(a, -1, n)` fails, no inverse exists. */
  lemma NoInverse(a: int, n: int, x: int)
    requires n >= 1 && ModInverse(a, n).Failure?
    ensures (a * x) % n != 1 % n
  {
    FailureMeansGcd(a, n);
    NotCoprimeNoInverse(a, n, x);
  }

  lemma NotCoprimeNoInverse(a: int, n: int, x: int)
    requires n >= 1 && Gcd(a % n, n) != 1
    ensures (a * x) % n != 1 % n
  {
    var base: nat := a % n;
    var g := Gcd(base, n);
    if n > 1 {
      var m := a * x;
      Decimal.DivUnique(1, n, 0, 1);
      GcdDivides(base, n);
      DividesReduced(g, a, n);
      DividesProduct(g, a, x);
      if m % n == 1 {
        CommonDivisorOfOne(g, n, m);
      }
    }
  }

  lemma FailureMeansGcd(a: int, n: int)
    requires n >= 1 && ModInverse(a, n).Failure?
    ensures Gcd(a % n, n) != 1
  {
    assert ExtGcd(a % n, n).0 != 1;
  }

  lemma DividesReduced(g: int, a: int, n: int)
    requires g > 0 && n > 0 && Divides(g, n) && Divides(g, a % n)
    ensures Divides(g, a)
  {
    DividesLinear(g, n, a % n, a / n);
    assert (a / n) * n + a % n == a;
  }

  lemma DividesProduct(g: int, a: int, x: int)
    requires g > 0 && Divides(g, a)
    ensures Divides(g, a * x)
  {
    DividesLinear(g, a, 0, x);
    assert x * a + 0 == a * x;
  }

  lemma CommonDivisorOfOne(g: int, n: int, m: int)
    requires g > 0 && n > 1 && Divides(g, n) && Divides(g, m) && m % n == 1
    ensures g == 1
  {
    var q := m / n;
    assert m == q * n + 1;
    DividesLinear(g, n, m, -q);
    assert -q * n + m == 1;
    if g > 1 {
      Decimal.DivUnique(1, g, 0, 1);
    }
  }

  /** Multiplying `x` by `y` modulo `n` after reducing `y`. */
  lemma ModMulRight(x: int, y: int, n: int)
    requires n > 0
    ensures (x * (y % n)) % n == (x * y) % n
  {
    assert y == n * (y / n) + y % n;
    assert x * y == x * (y % n) + (x * (y / n)) * n;
    ModOfLinear(x * y, x * (y % n), x * (y / n), n);
  }

  /** A unit modulo `n` acts as 1 on every `i` in [0, n). */
  lemma UnitTimes(u: int, i: int, n: int)
    requires n >= 1 && u % n == 1 % n && 0 <= i < n
    ensures (u * i) % n == i
  {
    if n == 1 {
      Decimal.DivUnique(u * i, 1, u * i, 0);
    } else {
      var q := u / n;
      assert u == q * n + 1;
      assert u * i == i + (q * i) * n;
      ModOfLinear(u * i, i, q * i, n);
      Decimal.DivUnique(i, n, 0, i);
    }
  }

  /** Scaling by `a` and then by its inverse modulo `n` gives back any `i` in [0, n). */
  lemma InverseCancels(a: int, inv: int, i: int, n: int)
    requires n >= 1 && (a * inv) % n == 1 % n && 0 <= i < n
    ensures (inv * ((a * i) % n)) % n == i
    ensures (a * ((inv * i) % n)) % n == i
  {
    ModMulRight(inv, a * i, n);
    ModMulRight(a, inv * i, n);
    assert inv * (a * i) == (a * inv) * i;
    assert a * (inv * i) == (a * inv) * i;
    UnitTimes(a * inv, i, n);
  }

  /** `get_common_period`: `rtn *= p // gcd(rtn, p)` over the periods, from 1. */
  function CommonPeriod(periods: seq<nat>): (r: nat)
    requires forall i :: 0 <= i < |periods| ==> periods[i] > 0
    ensures r > 0
  {
    if periods == [] then 1
    else
      LcmStep(CommonPeriod(periods[..|periods| - 1]), periods[|periods| - 1])
  }

  lemma PositiveQuotient(p: nat, g: nat)
    requires p > 0 && g > 0 && Divides(g, p)
    ensures p / g > 0
  {
    assert p == g * (p / g);
  }

  /** One fold step: `rtn * (p // gcd(rtn, p))`. */
  function LcmStep(rtn: nat, p: nat): (r: nat)
    requires rtn > 0 && p > 0
    ensures r > 0
  {
    GcdDivides(rtn, p);
    PositiveQuotient(p, Gcd(rtn, p));
    rtn * (p / Gcd(rtn, p))
  }

  /** The new period `p` divides the step's result. */
  lemma LcmStepDividedByNew(rtn: nat, p: nat)
    requires rtn > 0 && p > 0
    ensures Divides(p, LcmStep(rtn, p))
  {
    GcdDivides(rtn, p);
    var g := Gcd(rtn, p);
    var r := LcmStep(rtn, p);
    assert p == g * (p / g);
    assert rtn == g * (rtn / g);
    assert r == (rtn / g) * p by {
      calc {
        rtn * (p / g);
        (g * (rtn / g)) * (p / g);
        (rtn / g) * (g * (p / g));
      }
    }
    Decimal.DivUnique(r, p, rtn / g, 0);
  }

  /** Whatever divides the old common period divides the step's result. */
  lemma LcmStepKeepsDivisor(rtn: nat, p: nat, d: int)
    requires rtn > 0 && p > 0 && d > 0 && Divides(d, rtn)
    ensures Divides(d, LcmStep(rtn, p))
  {
    GcdDivides(rtn, p);
    var g := Gcd(rtn, p);
    var r := LcmStep(rtn, p);
    assert rtn == d * (rtn / d);
    assert r == d * ((rtn / d) * (p / g));
    Decimal.DivUnique(r, d, (rtn / d) * (p / g), 0);
  }

  /** The step's result divides every common multiple of `rtn` and `p`. */
  lemma LcmStepDividesMultiple(rtn: nat, p: nat, m: int)
    requires rtn > 0 && p > 0 && m > 0 && Divides(rtn, m) && Divides(p, m)
    ensures Divides(LcmStep(rtn, p), m)
  {
    GcdDivides(rtn, p);
    var (g, x, y) := ExtGcd(rtn, p);
    var r := LcmStep(rtn, p);
    var s, t := m / rtn, m / p;
    assert m == rtn * s;
    assert m == p * t;
    assert p == g * (p / g);
    LcmCancels(rtn, p, g, x, y, m, s, t, r);
    Decimal.DivUnique(m, r, t * x + s * y, 0);
  }

  /** Every period divides the common period. */
  lemma {:induction false} CommonPeriodDividedByAll(periods: seq<nat>, i: int)
    requires forall j :: 0 <= j < |periods| ==> periods[j] > 0
    requires 0 <= i < |periods|
    ensures Divides(periods[i], CommonPeriod(periods))
    decreases |periods|
  {
    var init := periods[..|periods| - 1];
    var rtn := CommonPeriod(init);
    var p := periods[|periods| - 1];
    assert CommonPeriod(periods) == LcmStep(rtn, p);
    if i == |periods| - 1 {
      LcmStepDividedByNew(rtn, p);
    } else {
      assert periods[i] == init[i];
      CommonPeriodDividedByAll(init, i);
      LcmStepKeepsDivisor(rtn, p, periods[i]);
    }
  }

  /** The common period is the least one: it divides every positive number
      that all the periods divide. */
  lemma {:induction false} CommonPeriodDividesCommonMultiples(periods: seq<nat>, m: int)
    requires forall j :: 0 <= j < |periods| ==> periods[j] > 0
    requires m > 0 && forall j :: 0 <= j < |periods| ==> Divides(periods[j], m)
    ensures Divides(CommonPeriod(periods), m)
    decreases |periods|
  {
    if periods == [] {
      Decimal.DivUnique(m, 1, m, 0);
    } else {
      var init := periods[..|periods| - 1];
      assert forall j :: 0 <= j < |init| ==> init[j] == periods[j];
      CommonPeriodDividesCommonMultiples(init, m);
      var rtn := CommonPeriod(init);
      var p := periods[|periods| - 1];
      assert CommonPeriod(periods) == LcmStep(rtn, p);
      LcmStepDividesMultiple(rtn, p, m);
    }
  }

  /** From `g == rtn*x + p*y`, `m == rtn*s == p*t` and `r*g == rtn*p`:
      `m == r*(t*x + s*y)`. */
  lemma LcmCancels(rtn: int, p: int, g: int, x: int, y: int, m: int, s: int, t: int, r: int)
    requires g > 0 && rtn * x + p * y == g && m == rtn * s && m == p * t
    requires p == g * (p / g) && r == rtn * (p / g)
    ensures m == r * (t * x + s * y)
  {
    var q := p / g;
    assert m * g == m * (rtn * x) + m * (p * y) by {
      assert m * g == m * (rtn * x + p * y);
    }
    assert m * (rtn * x) == (rtn * p) * (t * x) by {
      assert m * (rtn * x) == (p * t) * (rtn * x);
    }
    assert m * (p * y) == (rtn * p) * (s * y) by {
      assert m * (p * y) == (rtn * s) * (p * y);
    }
    assert rtn * p == r * g by {
      assert rtn * p == rtn * (g * q);
    }
    assert m * g == (r * (t * x + s * y)) * g by {
      assert m * g == (rtn * p) * (t * x + s * y);
    }
    MulCancel(m, r * (t * x + s * y), g);
  }

  lemma MulCancel(a: int, b: int, g: int)
    requires g > 0 && a * g == b * g
    ensures a == b
  {
    assert (a - b) * g == 0;
  }
}
