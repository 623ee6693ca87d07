/** The nanofactory ore accounting of solve14.py: requirements are resolved one
    chemical at a time, reactions are run in whole batches and the
    overproduction is kept as surplus; a bisection then finds the largest
    amount of fuel the available ore can make. */
module Ore {
  import opened Wrappers

  /** A reaction: the amount it produces and its `(amount, name)` inputs. */
  type Reaction = (int, seq<(int, string)>)
  /** The reaction table, keyed by the name of the chemical produced. */
  type Table = map<string, Reaction>
  /** A line of `read_nanofactory_specs`: the inputs and the `(amount, name)` output. */
  type Spec = (seq<(int, string)>, (int, string))

  /** Python's `//`, which rounds towards minus infinity. */
  function FloorDiv(a: int, b: int): (q: int)
    requires b != 0
    ensures b > 0 ==> b * q <= a < b * q + b
    ensures b < 0 ==> b * q >= a > b * q + b
  {
    if b > 0 then a / b else (-a) / (-b)
  }

  /** The dictionary comprehension building `requirements`: a later line for
      the same output replaces an earlier one. */
  function Requirements(specs: seq<Spec>): Table {
    if specs == [] then map[]
    else
      var last := specs[|specs| - 1];
      Requirements(specs[..|specs| - 1])[last.1.1 := (last.1.0, last.0)]
  }

  /** The table's keys are exactly the names the specs produce. */
  lemma {:induction false} RequirementsKeys(specs: seq<Spec>)
    ensures Requirements(specs).Keys == set k | 0 <= k < |specs| :: specs[k].1.1
  {
    if specs != [] {
      var last := specs[|specs| - 1];
      var init := specs[..|specs| - 1];
      RequirementsKeys(init);
      var all := set k | 0 <= k < |specs| :: specs[k].1.1;
      var front := set k | 0 <= k < |init| :: init[k].1.1;
      forall x | x in all ensures x in front + {last.1.1} {
        var k :| 0 <= k < |specs| && specs[k].1.1 == x;
        if k < |init| {
          assert init[k].1.1 == x;
        }
      }
      forall x | x in front ensures x in all {
        var k :| 0 <= k < |init| && init[k].1.1 == x;
        assert specs[k].1.1 == x;
      }
      assert specs[|specs| - 1].1.1 == last.1.1;
      assert all == front + {last.1.1};
    }
  }

  /** Each name maps to the reaction of the last spec that produces it. */
  lemma {:induction false} RequirementsLastWins(specs: seq<Spec>, k: int)
    requires 0 <= k < |specs|
    requires forall l :: k < l < |specs| ==> specs[l].1.1 != specs[k].1.1
    ensures specs[k].1.1 in Requirements(specs)
    ensures Requirements(specs)[specs[k].1.1] == (specs[k].1.0, specs[k].0)
  {
    if k < |specs| - 1 {
      var init := specs[..|specs| - 1];
      assert init[k] == specs[k];
      forall l | k < l < |init| ensures init[l].1.1 != init[k].1.1 {
        assert init[l] == specs[l];
      }
      RequirementsLastWins(init, k);
    }
  }

  /** `d.get(name, 0)`. */
  function Get(d: map<string, int>, name: string): int {
    if name in d then d[name] else 0
  }

  /** The total amount of `name` among the inputs. */
  function AmountOf(inputs: seq<(int, string)>, name: string): int {
    if inputs == [] then 0
    else
      var (amount, n) := inputs[|inputs| - 1];
      AmountOf(inputs[..|inputs| - 1], name) + (if n == name then amount else 0)
  }

  /** `required` after the loop `required[name] = required.get(name, 0) + amount * n`
      over the inputs: every input gets a key. */
  function AddInputs(required: map<string, int>, inputs: seq<(int, string)>, n: int): map<string, int>
  {
    if inputs == [] then required
    else
      var init := AddInputs(required, inputs[..|inputs| - 1], n);
      var (amount, name) := inputs[|inputs| - 1];
      init[name := Get(init, name) + amount * n]
  }

  /** Each chemical's requirement grows by its amount among the inputs times
      the number of reactions. */
  lemma {:induction false} AddInputsGrows(required: map<string, int>, inputs: seq<(int, string)>, n: int, name: string)
    ensures Get(AddInputs(required, inputs, n), name) == Get(required, name) + n * AmountOf(inputs, name)
  {
    if inputs != [] {
      var init := inputs[..|inputs| - 1];
      AddInputsGrows(required, init, n, name);
      var (amount, c) := inputs[|inputs| - 1];
      var x, d := AmountOf(init, name), if c == name then amount else 0;
      assert AmountOf(inputs, name) == x + d;
      assert n * (x + d) == n * x + n * d;
      assert n * d == if c == name then amount * n else 0;
    }
  }

  /** `num_reactions = (quantity - 1) // produced + 1` is the number of whole
      batches that covers `quantity`, and the overproduction is below one batch. */
  lemma CeilingReactions(quantity: int, produced: int)
    requires quantity > 0 && produced > 0
    ensures var n := FloorDiv(quantity - 1, produced) + 1;
      n >= 1 && produced * (n - 1) < quantity <= produced * n &&
      0 <= produced * n - quantity < produced
  {
  }

  /** Tables as the puzzle has them: every reaction yields something and
      consumes non-negative amounts. */
  predicate Positive(table: Table) {
    forall c :: c in table ==>
      table[c].0 > 0 && forall k :: 0 <= k < |table[c].1| ==> table[c].1[k].0 >= 0
  }

  /** `(t - 1) // p + 1` batches of yield `p` cover a positive demand `t`;
      no demand needs no batch. */
  function CeilDiv(t: int, p: int): int
    requires p > 0
  {
    if t <= 0 then 0 else FloorDiv(t - 1, p) + 1
  }

  /** The amount of `x` one batch of `d`'s reaction consumes; none when `d`
      has no reaction. */
  function Uses(table: Table, d: string, x: string): int {
    if d in table then AmountOf(table[d].1, x) else 0
  }

  /** The batches of `d`'s reaction that cover the demand `Get(demand, d)`. */
  function Batches(table: Table, demand: map<string, int>, d: string): int {
    if d in table && table[d].0 > 0 then CeilDiv(Get(demand, d), table[d].0) else 0
  }

  /** What the batches of `d` consume of `x`. */
  function Consumed(table: Table, demand: map<string, int>, x: string, d: string): int {
    Uses(table, d, x) * Batches(table, demand, d)
  }

  ghost function Pick(s: set<string>): string
    requires s != {}
  {
    var d :| d in s; d
  }

  /** What the batches of the reactions of the chemicals in `s` consume of `x`. */
  ghost function Flow(table: Table, demand: map<string, int>, x: string, s: set<string>): int
    decreases s
  {
    if s == {} then 0
    else var d := Pick(s); Consumed(table, demand, x, d) + Flow(table, demand, x, s - {d})
  }

  /** The demand for `x` that the fuel order and the batches of every
      reaction, each covering its own demand, give rise to. */
  ghost function Received(table: Table, ordered: int, demand: map<string, int>, x: string): int {
    (if x == "FUEL" then ordered else 0) + Flow(table, demand, x, table.Keys)
  }

  /** A balanced demand ledger: every chemical but ORE is demanded exactly
      what the fuel order and its consumers' batches need. ORE is never
      resolved, so its own entry stays 0. */
  ghost predicate Balanced(table: Table, ordered: int, demand: map<string, int>) {
    Get(demand, "ORE") == 0 &&
    forall x :: x != "ORE" ==> Get(demand, x) == Received(table, ordered, demand, x)
  }

  /** The ore a balanced ledger calls for: the reference amount of ore for
      `ordered` units of fuel. */
  ghost function OreFor(table: Table, ordered: int): int {
    if exists demand :: Balanced(table, ordered, demand) then
      var demand :| Balanced(table, ordered, demand); Received(table, ordered, demand, "ORE")
    else 0
  }

  /** `rank` orders the table: every input of a reaction ranks below the
      chemical it produces. */
  predicate Ranked(table: Table, rank: map<string, nat>) {
    forall d :: d in table ==>
      (d in rank &&
       forall k :: 0 <= k < |table[d].1| ==> table[d].1[k].1 in rank && rank[table[d].1[k].1] < rank[d])
  }

  /** No chemical is needed, directly or not, to make itself. */
  ghost predicate Acyclic(table: Table) {
    exists rank :: Ranked(table, rank)
  }

  lemma {:induction false} AmountOfNonzero(inputs: seq<(int, string)>, x: string)
    requires AmountOf(inputs, x) != 0
    ensures exists k :: 0 <= k < |inputs| && inputs[k].1 == x
  {
    var init := inputs[..|inputs| - 1];
    if AmountOf(init, x) != 0 {
      AmountOfNonzero(init, x);
      var k :| 0 <= k < |init| && init[k].1 == x;
      assert inputs[k] == init[k];
    } else {
      assert inputs[|inputs| - 1].1 == x;
    }
  }

  /** Only a reaction that lists `x` among its inputs consumes it; in a ranked
      table it ranks above `x`. */
  lemma UsesInput(table: Table, rank: map<string, nat>, d: string, x: string)
    requires Ranked(table, rank) && Uses(table, d, x) != 0
    ensures d in table && d in rank && x in rank && rank[x] < rank[d]
  {
    AmountOfNonzero(table[d].1, x);
  }

  lemma {:induction false} FlowRemove(table: Table, demand: map<string, int>, x: string, s: set<string>, y: string)
    requires y in s
    ensures Flow(table, demand, x, s) == Consumed(table, demand, x, y) + Flow(table, demand, x, s - {y})
    decreases s
  {
    var d := Pick(s);
    if d != y {
      FlowRemove(table, demand, x, s - {d}, y);
      FlowRemove(table, demand, x, s - {y}, d);
      assert s - {d} - {y} == s - {y} - {d};
    }
  }

  /** Ledgers whose batches consume alike give the same flow. */
  lemma {:induction false} FlowAgree(table: Table, demand: map<string, int>, demand': map<string, int>, x: string,
                                     s: set<string>)
    requires forall d :: d in s ==> Consumed(table, demand, x, d) == Consumed(table, demand', x, d)
    ensures Flow(table, demand, x, s) == Flow(table, demand', x, s)
    decreases s
  {
    if s != {} {
      FlowAgree(table, demand, demand', x, s - {Pick(s)});
    }
  }

  /** No batches, no flow. */
  lemma {:induction false} FlowZero(table: Table, demand: map<string, int>, x: string, s: set<string>)
    requires forall d :: d in s ==> Consumed(table, demand, x, d) == 0
    ensures Flow(table, demand, x, s) == 0
    decreases s
  {
    if s != {} {
      FlowZero(table, demand, x, s - {Pick(s)});
    }
  }

  /** Changing the batches of one chemical `c` changes the flow by what they
      consume. */
  lemma FlowUpdate(table: Table, demand: map<string, int>, demand': map<string, int>, x: string,
                   s: set<string>, c: string)
    requires c in s
    requires forall d :: d in s && d != c ==> Consumed(table, demand, x, d) == Consumed(table, demand', x, d)
    ensures Flow(table, demand', x, s) ==
      Flow(table, demand, x, s) - Consumed(table, demand, x, c) + Consumed(table, demand', x, c)
  {
    FlowRemove(table, demand, x, s, c);
    FlowRemove(table, demand', x, s, c);
    FlowAgree(table, demand, demand', x, s - {c});
  }

  /** The chemicals ranked above `x`. */
  ghost function Above(rank: map<string, nat>, x: string): set<string> {
    set e | e in rank && x in rank && rank[e] > rank[x]
  }

  /** Two balanced ledgers of a ranked table agree on `x`, by induction from
      the top of the ranking down. */
  lemma {:induction false} BalancedAgree(table: Table, ordered: int, rank: map<string, nat>,
                                         demand1: map<string, int>, demand2: map<string, int>, x: string)
    requires Ranked(table, rank) && Balanced(table, ordered, demand1) && Balanced(table, ordered, demand2)
    ensures Get(demand1, x) == Get(demand2, x)
    decreases Above(rank, x)
  {
    if x != "ORE" {
      forall d | d in table.Keys ensures Consumed(table, demand1, x, d) == Consumed(table, demand2, x, d) {
        if Uses(table, d, x) != 0 {
          UsesInput(table, rank, d, x);
          assert d in Above(rank, x) && d !in Above(rank, d);
          assert Above(rank, d) < Above(rank, x);
          BalancedAgree(table, ordered, rank, demand1, demand2, d);
        }
      }
      FlowAgree(table, demand1, demand2, x, table.Keys);
    }
  }

  /** On an acyclic table a balanced ledger is unique, and so is the ore it
      calls for: the order in which chemicals are resolved does not matter. */
  lemma BalancedUnique(table: Table, ordered: int, demand1: map<string, int>, demand2: map<string, int>)
    requires Acyclic(table) && Balanced(table, ordered, demand1) && Balanced(table, ordered, demand2)
    ensures forall x :: Get(demand1, x) == Get(demand2, x)
    ensures Received(table, ordered, demand1, "ORE") == Received(table, ordered, demand2, "ORE")
  {
    var rank :| Ranked(table, rank);
    forall x ensures Get(demand1, x) == Get(demand2, x) {
      BalancedAgree(table, ordered, rank, demand1, demand2, x);
    }
    FlowAgree(table, demand1, demand2, "ORE", table.Keys);
  }

  lemma MulBelow(p: int, a: int)
    requires p > 0 && p * a < p
    ensures a < 1
  {
  }

  /** On an acyclic table the reference amount of ore is what any balanced
      ledger calls for. */
  lemma OreForBalanced(table: Table, ordered: int, demand: map<string, int>)
    requires Acyclic(table) && Balanced(table, ordered, demand)
    ensures OreFor(table, ordered) == Received(table, ordered, demand, "ORE")
  {
    forall other | Balanced(table, ordered, other)
      ensures Received(table, ordered, other, "ORE") == Received(table, ordered, demand, "ORE")
    {
      BalancedUnique(table, ordered, demand, other);
    }
  }

  /** `u` is covered by exactly `m` batches of `p`. */
  lemma CoverUnique(u: int, p: int, m: int, k: int)
    requires p > 0 && p * (m - 1) < u <= p * m && p * (k - 1) < u <= p * k
    ensures m == k
  {
    assert p * (m - 1) == p * m - p && p * (k - 1) == p * k - p;
    assert p * (m - k) == p * m - p * k;
    MulBelow(p, m - k);
    MulBelow(p, k - m);
  }

  /** A round of the loop on a chemical with demand `t` resolved so far and
      a surplus of what its batches overproduced, asked for `r` more: with no
      shortfall the batches already cover the new demand. */
  lemma RoundCovered(t: int, r: int, p: int)
    requires p > 0 && t >= 0 && r >= 0 && r - (p * CeilDiv(t, p) - t) <= 0
    ensures CeilDiv(t + r, p) == CeilDiv(t, p)
  {
    if t + r > 0 {
      var b := CeilDiv(t, p);
      CeilingReactions(t, p);
      CeilingReactions(t + r, p);
      CoverUnique(t + r, p, CeilDiv(t + r, p), b);
    }
  }

  /** With a shortfall, the round's `num_reactions` make up the rest. */
  lemma RoundShort(t: int, r: int, p: int)
    requires p > 0 && t >= 0 && r >= 0 && r - (p * CeilDiv(t, p) - t) > 0
    ensures var q := r - (p * CeilDiv(t, p) - t);
      CeilDiv(t + r, p) == CeilDiv(t, p) + FloorDiv(q - 1, p) + 1
  {
    var b := CeilDiv(t, p);
    var q := r - (p * b - t);
    var n := FloorDiv(q - 1, p) + 1;
    CeilingReactions(q, p);
    CeilingReactions(t + r, p);
    Distribute(p, b, n);
    Distribute(p, b, n - 1);
    CoverUnique(t + r, p, CeilDiv(t + r, p), b + n);
  }

  /** The batches run never fall short of the demand they cover. */
  lemma CoverSurplus(t: int, p: int)
    requires p > 0 && t >= 0
    ensures p * CeilDiv(t, p) - t >= 0
  {
    if t > 0 {
      CeilingReactions(t, p);
    }
  }

  /** Resolved plus pending demand is what the fuel order and the batches run
      so far call for. */
  ghost predicate DemandBalance(table: Table, ordered: int, required: map<string, int>, demand: map<string, int>) {
    forall x {:trigger Received(table, ordered, demand, x)} :: Get(demand, x) + Get(required, x) == Received(table, ordered, demand, x)
  }

  /** Each surplus is the overproduction of the batches run so far; a
      chemical without a reaction never has any. */
  ghost predicate SurplusTracks(table: Table, surplus: map<string, int>, demand: map<string, int>) {
    && (forall c {:trigger Get(surplus, c)} :: c in table ==> Get(surplus, c) == table[c].0 * Batches(table, demand, c) - Get(demand, c))
    && (forall c :: c !in table ==> Get(surplus, c) == 0)
  }

  /** Resolved demands are never negative, and ORE is never resolved. */
  ghost predicate ResolvedDemand(demand: map<string, int>) {
    Get(demand, "ORE") == 0 && forall c :: Get(demand, c) >= 0
  }

  /** The loop's bookkeeping: `demand` holds the demand resolved so far for
      each chemical. */
  ghost predicate Ledger(table: Table, ordered: int, required: map<string, int>, surplus: map<string, int>,
                         demand: map<string, int>) {
    DemandBalance(table, ordered, required, demand) && SurplusTracks(table, surplus, demand) &&
    ResolvedDemand(demand)
  }

  lemma LedgerInitial(table: Table, ordered: int)
    ensures Ledger(table, ordered, map["FUEL" := ordered], map[], map[])
  {
    forall x ensures Get(map[], x) + Get(map["FUEL" := ordered], x) == Received(table, ordered, map[], x) {
      FlowZero(table, map[], x, table.Keys);
    }
  }

  /** A round without a shortfall: the chemical's surplus covers its pending
      demand, no reaction runs. */
  lemma LedgerCovered(table: Table, ordered: int, required: map<string, int>, surplus: map<string, int>,
                      demand: map<string, int>, c: string)
    requires Positive(table) && Ledger(table, ordered, required, surplus, demand)
    requires c in required && c != "ORE" && required[c] >= 0
    requires required[c] - Get(surplus, c) <= 0
    ensures Ledger(table, ordered, required - {c}, surplus[c := Get(surplus, c) - required[c]],
                   demand[c := Get(demand, c) + required[c]])
  {
    var demand' := demand[c := Get(demand, c) + required[c]];
    var t, r := Get(demand, c), required[c];
    if c in table {
      RoundCovered(t, r, table[c].0);
    }
    BatchesKept(table, demand, demand', c);
    CoveredBalance(table, ordered, required, demand, c);
    CoveredSurplus(table, surplus, demand, c, r);
  }

  lemma BatchesKept(table: Table, demand: map<string, int>, demand': map<string, int>, c: string)
    requires forall d :: d != c ==> Get(demand', d) == Get(demand, d)
    requires c in table && table[c].0 > 0 ==>
      CeilDiv(Get(demand', c), table[c].0) == CeilDiv(Get(demand, c), table[c].0)
    ensures forall d :: Batches(table, demand', d) == Batches(table, demand, d)
  {
  }

  lemma CoveredBalance(table: Table, ordered: int, required: map<string, int>, demand: map<string, int>, c: string)
    requires DemandBalance(table, ordered, required, demand) && c in required
    requires forall d :: Batches(table, demand[c := Get(demand, c) + required[c]], d) == Batches(table, demand, d)
    ensures DemandBalance(table, ordered, required - {c}, demand[c := Get(demand, c) + required[c]])
  {
    var demand' := demand[c := Get(demand, c) + required[c]];
    ReceivedKept(table, ordered, demand, demand');
    forall x ensures Get(demand', x) + Get(required - {c}, x) == Received(table, ordered, demand', x) {
      assert Received(table, ordered, demand', x) == Received(table, ordered, demand, x);
    }
  }

  lemma CoveredSurplus(table: Table, surplus: map<string, int>, demand: map<string, int>, c: string, r: int)
    requires SurplusTracks(table, surplus, demand) && ResolvedDemand(demand) && c != "ORE" && r >= 0
    requires r - Get(surplus, c) <= 0
    requires forall d :: Batches(table, demand[c := Get(demand, c) + r], d) == Batches(table, demand, d)
    ensures SurplusTracks(table, surplus[c := Get(surplus, c) - r], demand[c := Get(demand, c) + r])
    ensures ResolvedDemand(demand[c := Get(demand, c) + r])
  {
    var demand' := demand[c := Get(demand, c) + r];
    var surplus' := surplus[c := Get(surplus, c) - r];
    forall d | d in table ensures Get(surplus', d) == table[d].0 * Batches(table, demand', d) - Get(demand', d) {
      assert Get(surplus, d) == table[d].0 * Batches(table, demand, d) - Get(demand, d);
    }
    forall d | d !in table ensures Get(surplus', d) == 0 {
      assert Get(surplus, d) == 0;
    }
    DemandRaised(demand, c, r);
  }

  /** Ledgers with the same batches receive the same demands. */
  lemma ReceivedKept(table: Table, ordered: int, demand: map<string, int>, demand': map<string, int>)
    requires forall d :: Batches(table, demand', d) == Batches(table, demand, d)
    ensures forall x :: Received(table, ordered, demand', x) == Received(table, ordered, demand, x)
  {
    forall x ensures Received(table, ordered, demand', x) == Received(table, ordered, demand, x) {
      FlowAgree(table, demand, demand', x, table.Keys);
    }
  }

  lemma Distribute(a: int, b: int, n: int)
    ensures a * (b + n) == a * b + a * n
  {
  }

  /** Running `n` more batches of `c` adds what they consume to the demand
      received for `x`. */
  lemma ReceivedGrows(table: Table, ordered: int, demand: map<string, int>, demand': map<string, int>,
                      c: string, n: int, x: string)
    requires c in table
    requires forall d :: d != c ==> Batches(table, demand', d) == Batches(table, demand, d)
    requires Batches(table, demand', c) == Batches(table, demand, c) + n
    ensures Received(table, ordered, demand', x) == Received(table, ordered, demand, x) + Uses(table, c, x) * n
  {
    FlowUpdate(table, demand, demand', x, table.Keys, c);
    Distribute(Uses(table, c, x), Batches(table, demand, c), n);
  }

  /** A round with a shortfall: `num_reactions` batches run, their inputs are
      added to the pending demand, and the overproduction becomes surplus. */
  lemma LedgerReacts(table: Table, ordered: int, required: map<string, int>, surplus: map<string, int>,
                     demand: map<string, int>, c: string, n: int)
    requires Ledger(table, ordered, required, surplus, demand)
    requires c in required && c != "ORE" && required[c] >= 0 && c in table && table[c].0 > 0 && Uses(table, c, c) == 0
    requires required[c] - Get(surplus, c) > 0 && n == FloorDiv(required[c] - Get(surplus, c) - 1, table[c].0) + 1
    ensures Ledger(table, ordered, AddInputs(required, table[c].1, n) - {c},
                   surplus[c := table[c].0 * n - (required[c] - Get(surplus, c))],
                   demand[c := Get(demand, c) + required[c]])
  {
    ShortBatches(table, surplus, demand, c, required[c], n);
    ReactsBalance(table, ordered, required, demand, c, n);
    ReactsSurplus(table, surplus, demand, c, required[c], n);
  }

  /** The batches of a round with a shortfall: `num_reactions` more of the
      chemical's own, none more of any other. */
  lemma ShortBatches(table: Table, surplus: map<string, int>, demand: map<string, int>, c: string, r: int, n: int)
    requires SurplusTracks(table, surplus, demand) && ResolvedDemand(demand)
    requires c in table && table[c].0 > 0 && r >= 0 && r - Get(surplus, c) > 0
    requires n == FloorDiv(r - Get(surplus, c) - 1, table[c].0) + 1
    ensures forall d :: d != c ==> Batches(table, demand[c := Get(demand, c) + r], d) == Batches(table, demand, d)
    ensures Batches(table, demand[c := Get(demand, c) + r], c) == Batches(table, demand, c) + n
  {
    RoundShort(Get(demand, c), r, table[c].0);
  }

  lemma ReactsBalance(table: Table, ordered: int, required: map<string, int>, demand: map<string, int>,
                      c: string, n: int)
    requires DemandBalance(table, ordered, required, demand)
    requires c in required && c in table && Uses(table, c, c) == 0
    requires forall d :: d != c ==>
      Batches(table, demand[c := Get(demand, c) + required[c]], d) == Batches(table, demand, d)
    requires Batches(table, demand[c := Get(demand, c) + required[c]], c) == Batches(table, demand, c) + n
    ensures DemandBalance(table, ordered, AddInputs(required, table[c].1, n) - {c},
                          demand[c := Get(demand, c) + required[c]])
  {
    var demand' := demand[c := Get(demand, c) + required[c]];
    var required' := AddInputs(required, table[c].1, n) - {c};
    forall x ensures Get(demand', x) + Get(required', x) == Received(table, ordered, demand', x) {
      ReceivedGrows(table, ordered, demand, demand', c, n, x);
      RequiredGrows(table, required, c, n, x);
      assert Get(demand, x) + Get(required, x) == Received(table, ordered, demand, x);
    }
  }

  /** The pending demand after a round with a shortfall: the chemical's own
      entry is gone and every input gains what the batches consume. */
  lemma RequiredGrows(table: Table, required: map<string, int>, c: string, n: int, x: string)
    requires c in table
    ensures Get(AddInputs(required, table[c].1, n) - {c}, x) ==
      if x == c then 0 else Get(required, x) + Uses(table, c, x) * n
  {
    if x != c {
      AddInputsGrows(required, table[c].1, n, x);
      assert n * AmountOf(table[c].1, x) == Uses(table, c, x) * n;
    }
  }

  lemma ReactsSurplus(table: Table, surplus: map<string, int>, demand: map<string, int>, c: string, r: int, n: int)
    requires SurplusTracks(table, surplus, demand) && ResolvedDemand(demand) && c != "ORE" && r >= 0 && c in table
    requires forall d :: d != c ==> Batches(table, demand[c := Get(demand, c) + r], d) == Batches(table, demand, d)
    requires Batches(table, demand[c := Get(demand, c) + r], c) == Batches(table, demand, c) + n
    ensures SurplusTracks(table, surplus[c := table[c].0 * n - (r - Get(surplus, c))], demand[c := Get(demand, c) + r])
    ensures ResolvedDemand(demand[c := Get(demand, c) + r])
  {
    var demand' := demand[c := Get(demand, c) + r];
    var p, b := table[c].0, Batches(table, demand, c);
    var surplus' := surplus[c := p * n - (r - Get(surplus, c))];
    Distribute(p, b, n);
    assert Get(surplus, c) == p * b - Get(demand, c);
    assert Get(surplus', c) == p * (b + n) - Get(demand', c);
    forall d | d in table ensures Get(surplus', d) == table[d].0 * Batches(table, demand', d) - Get(demand', d) {
      if d != c {
        assert Get(surplus, d) == table[d].0 * Batches(table, demand, d) - Get(demand, d);
      }
    }
    forall d | d !in table ensures Get(surplus', d) == 0 {
      assert Get(surplus, d) == 0;
    }
    DemandRaised(demand, c, r);
  }

  /** Resolving more of a chemical other than ORE keeps the resolved demands
      non-negative. */
  lemma DemandRaised(demand: map<string, int>, c: string, r: int)
    requires ResolvedDemand(demand) && c != "ORE" && r >= 0
    ensures ResolvedDemand(demand[c := Get(demand, c) + r])
  {
    var demand' := demand[c := Get(demand, c) + r];
    forall d ensures Get(demand', d) >= 0 {
      assert Get(demand, d) >= 0;
    }
  }

  /** One round of the loop keeps the ledger, whether the surplus covers the
      chemical's demand or reactions run. */
  lemma LedgerRound(table: Table, ordered: int, required0: map<string, int>, surplus0: map<string, int>,
                    demand: map<string, int>, c: string, required: map<string, int>, surplus: map<string, int>)
    requires Positive(table) && Acyclic(table) && Ledger(table, ordered, required0, surplus0, demand)
    requires c in required0 && c != "ORE" && required0[c] >= 0
    requires var q := required0[c] - Get(surplus0, c);
      if q <= 0 then
        required == required0 && surplus == surplus0[c := if q < 0 then -q else 0]
      else
        c in table && table[c].0 > 0 &&
        var n := FloorDiv(q - 1, table[c].0) + 1;
        required == AddInputs(required0, table[c].1, n) && surplus == surplus0[c := 0][c := 0 + table[c].0 * n - q]
    ensures Ledger(table, ordered, required - {c}, surplus, demand[c := Get(demand, c) + required0[c]])
  {
    var q := required0[c] - Get(surplus0, c);
    if q <= 0 {
      assert surplus == surplus0[c := Get(surplus0, c) - required0[c]];
      LedgerCovered(table, ordered, required0, surplus0, demand, c);
    } else {
      var n := FloorDiv(q - 1, table[c].0) + 1;
      var rank :| Ranked(table, rank);
      RankedNoSelfUse(table, rank, c);
      assert surplus == surplus0[c := table[c].0 * n - q];
      LedgerReacts(table, ordered, required0, surplus0, demand, c, n);
    }
  }

  /** A ledger with nothing but ORE pending is balanced, and the pending ORE
      is the ore it calls for. */
  lemma LedgerSettled(table: Table, ordered: int, required: map<string, int>, surplus: map<string, int>,
                      demand: map<string, int>)
    requires Ledger(table, ordered, required, surplus, demand) && required.Keys == {"ORE"}
    ensures Balanced(table, ordered, demand)
    ensures required["ORE"] == Received(table, ordered, demand, "ORE")
  {
    forall x | x != "ORE" ensures Get(demand, x) == Received(table, ordered, demand, x) {
      assert Get(required, x) == 0;
    }
    assert Get(required, "ORE") == required["ORE"];
  }

  /** A ranked table has no reaction that consumes its own product. */
  lemma RankedNoSelfUse(table: Table, rank: map<string, nat>, c: string)
    requires Ranked(table, rank)
    ensures Uses(table, c, c) == 0
  {
    if Uses(table, c, c) != 0 {
      UsesInput(table, rank, c, c);
    }
  }

  datatype OreError =
    | NothingRequired              // `[0]` on an empty list: nothing but ORE was left to remove
    | UnknownChemical(name: string) // `requirements[chemical]` has no such key
    | ZeroYield(name: string)      // division by a produced amount of 0
    | OutOfFuel

  /** `calculate_required_ore(required_fuel)` with the reaction table as a
      parameter. The chemical resolved next is whichever the set iteration
      gives first, so any one is picked; `fuel` bounds the number of rounds,
      as a cyclic table never settles. */
  method CalculateRequiredOre(table: Table, requiredFuel: int, fuel: nat) returns (r: Result<int, OreError>)
    ensures r.Success? && Positive(table) && requiredFuel >= 0 ==> r.value >= 0
    ensures r.Failure? && r.error.UnknownChemical? ==> r.error.name !in table && r.error.name != "ORE"
    ensures r.Failure? && r.error.ZeroYield? ==> r.error.name in table && table[r.error.name].0 == 0
    ensures requiredFuel <= 0 && fuel >= 1 ==> r == Failure(NothingRequired)
    ensures requiredFuel > 0 && "FUEL" !in table && fuel >= 1 ==> r == Failure(UnknownChemical("FUEL"))
    ensures r.Success? && Positive(table) && Acyclic(table) && requiredFuel >= 0 ==>
      r.value == OreFor(table, requiredFuel)
  {
    var required := map["FUEL" := requiredFuel];
    var surplus: map<string, int> := map[];
    var rounds := 0;
    ghost var demand: map<string, int> := map[];
    ghost var tracked := Positive(table) && Acyclic(table) && requiredFuel >= 0;
    LedgerInitial(table, requiredFuel);
    while required.Keys != {"ORE"}
      invariant rounds <= fuel
      invariant tracked ==> Ledger(table, requiredFuel, required, surplus, demand)
      invariant Positive(table) ==> forall c :: c in surplus ==> surplus[c] >= 0
      invariant Positive(table) && requiredFuel >= 0 ==> forall c :: c in required ==> required[c] >= 0
      invariant rounds == 0 ==> required == map["FUEL" := requiredFuel] && "FUEL" in required && surplus == map[]
      invariant rounds > 0 && requiredFuel <= 0 ==> required == map[]
      invariant requiredFuel > 0 && "FUEL" !in table ==> rounds == 0
      decreases fuel - rounds
    {
      if required == map[] {
        return Failure(NothingRequired);
      }
      if rounds == fuel {
        return Failure(OutOfFuel);
      }
      var chemical :| chemical in required && chemical != "ORE";
      ghost var required0, surplus0 := required, surplus;
      var quantity := required[chemical] - Get(surplus, chemical);
      if quantity < 0 {
        surplus := surplus[chemical := -quantity];
        quantity := 0;
      } else {
        surplus := surplus[chemical := 0];
      }
      if quantity > 0 {
        if chemical !in table {
          return Failure(UnknownChemical(chemical));
        }
        var (produced, inputs) := table[chemical];
        if produced == 0 {
          return Failure(ZeroYield(chemical));
        }
        var numReactions := FloorDiv(quantity - 1, produced) + 1;
        if Positive(table) {
          CeilingReactions(quantity, produced);
          if requiredFuel >= 0 {
            RequirementsStayNonNegative(required, inputs, numReactions);
          }
        }
        required := AddRequirements(required, inputs, numReactions);
        surplus := surplus[chemical := surplus[chemical] + produced * numReactions - quantity];
      }
      if tracked {
        LedgerRound(table, requiredFuel, required0, surplus0, demand, chemical, required, surplus);
      }
      required := required - {chemical};
      demand := demand[chemical := Get(demand, chemical) + required0[chemical]];
      rounds := rounds + 1;
    }
    if tracked {
      LedgerSettled(table, requiredFuel, required, surplus, demand);
      OreForBalanced(table, requiredFuel, demand);
    }
    return Success(required["ORE"]);
  }

  /** The loop `for amount, name in inputs` of `calculate_required_ore`. */
  method AddRequirements(required: map<string, int>, inputs: seq<(int, string)>, n: int) returns (r: map<string, int>)
    ensures r == AddInputs(required, inputs, n)
  {
    r := required;
    for k := 0 to |inputs|
      invariant r == AddInputs(required, inputs[..k], n)
    {
      var (amount, name) := inputs[k];
      assert inputs[..k + 1][..k] == inputs[..k];
      r := r[name := Get(r, name) + amount * n];
    }
    assert inputs[..|inputs|] == inputs;
  }

  /** Non-negative requirements stay non-negative when non-negative amounts
      are added a positive number of times. */
  lemma RequirementsStayNonNegative(required: map<string, int>, inputs: seq<(int, string)>, n: int)
    requires n >= 1 && forall c :: c in required ==> required[c] >= 0
    requires forall k :: 0 <= k < |inputs| ==> inputs[k].0 >= 0
    ensures forall c :: c in AddInputs(required, inputs, n) ==> AddInputs(required, inputs, n)[c] >= 0
  {
    forall c | c in AddInputs(required, inputs, n) ensures AddInputs(required, inputs, n)[c] >= 0 {
      AddInputsGrows(required, inputs, n, c);
      AmountOfNonNegative(inputs, c);
    }
  }

  lemma {:induction false} AmountOfNonNegative(inputs: seq<(int, string)>, name: string)
    requires forall k :: 0 <= k < |inputs| ==> inputs[k].0 >= 0
    ensures AmountOf(inputs, name) >= 0
  {
    if inputs != [] {
      AmountOfNonNegative(inputs[..|inputs| - 1], name);
    }
  }

  datatype SearchError = DivisionByZero | AssertionFailed | SearchOutOfFuel

  /** The search of `puzzle2`, with `calculate_required_ore` abstracted as
      `oreFor`: a first guess from the ore for one fuel, growth by factors of
      ten while the ore suffices (at most `fuel` times), then bisection. */
  method MaxFuel(oreFor: int -> int, available: int, fuel: nat) returns (r: Result<int, SearchError>)
    ensures r.Success? ==> oreFor(r.value) <= available
    ensures r.Success? && r.value > 0 ==> available < oreFor(r.value + 1)
    ensures r == Failure(DivisionByZero) <==> oreFor(1) == 0
  {
    var oreForOne := oreFor(1);
    if oreForOne == 0 {
      return Failure(DivisionByZero);
    }
    var low := FloorDiv(available, oreForOne);
    if !(oreFor(low) <= available) {
      return Failure(AssertionFailed);
    }
    var n := 10 * low;
    var rounds := 0;
    while oreFor(n) <= available
      invariant oreFor(low) <= available && n == 10 * low && rounds <= fuel
      decreases fuel - rounds
    {
      if rounds == fuel {
        return Failure(SearchOutOfFuel);
      }
      low := n;
      n := n * 10;
      rounds := rounds + 1;
    }
    var high := n;
    while high - low > 1
      invariant oreFor(low) <= available < oreFor(high)
      invariant low > 0 ==> high > low
      decreases high - low
    {
      n := (low + high) / 2;
      if oreFor(n) <= available {
        low := n;
      } else {
        high := n;
      }
    }
    return Success(low);
  }

  /** When more fuel never needs less ore, the bisection result is the
      largest amount of fuel the available ore covers. */
  lemma LargestAffordable(oreFor: int -> int, available: int, low: int)
    requires forall a, b :: a <= b ==> oreFor(a) <= oreFor(b)
    requires oreFor(low) <= available < oreFor(low + 1)
    ensures forall n :: oreFor(n) <= available <==> n <= low
  {
    forall n ensures oreFor(n) <= available <==> n <= low {
      if n > low {
        assert oreFor(low + 1) <= oreFor(n);
      } else {
        assert oreFor(n) <= oreFor(low);
      }
    }
  }
}
