/** The vacuum robot's movement routines of python/src/solve17.py: the
    robot's direction tables, the compact definition of a string of moves
    ('F' forward one unit, 'L' and 'R' turns), the search that splits the moves
    into at most three reusable groups, and the main routine naming the groups
    in order. */
module Routines {
  import opened Wrappers
  import Text
  import Decimal

  // ---------------------------------------------------------------------------
  // The direction tables of `detect_required_movements`

  /** A robot as the camera shows it. */
  predicate IsRobot(d: char) {
    d == '^' || d == 'v' || d == '<' || d == '>'
  }

  /** `forward(d, x, y)`: the cell in front of the robot, `y` growing downwards. */
  function Forward(d: char, x: int, y: int): (int, int)
    requires IsRobot(d)
  {
    match d
    case '^' => (x, y - 1)
    case 'v' => (x, y + 1)
    case '<' => (x - 1, y)
    case '>' => (x + 1, y)
  }

  /** `left(d)`. */
  function TurnLeft(d: char): (r: char)
    requires IsRobot(d)
    ensures IsRobot(r) && r != d
  {
    match d
    case '^' => '<'
    case 'v' => '>'
    case '<' => 'v'
    case '>' => '^'
  }

  /** `right(d)`. */
  function TurnRight(d: char): (r: char)
    requires IsRobot(d)
    ensures IsRobot(r) && r != d
  {
    match d
    case '^' => '>'
    case 'v' => '<'
    case '<' => '^'
    case '>' => 'v'
  }

  /** `left` and `right` undo each other, two turns either way face backwards,
      and four left turns face the start. */
  lemma TurnsInverse(d: char)
    requires IsRobot(d)
    ensures TurnLeft(TurnRight(d)) == d && TurnRight(TurnLeft(d)) == d
    ensures TurnLeft(TurnLeft(d)) == TurnRight(TurnRight(d))
    ensures TurnLeft(TurnLeft(TurnLeft(TurnLeft(d)))) == d
  {
  }

  /** `forward` moves one unit, and forward after turning round walks back. */
  lemma ForwardUnitStep(d: char, x: int, y: int)
    requires IsRobot(d)
    ensures var (x', y') := Forward(d, x, y);
      (if x' < x then x - x' else x' - x) + (if y' < y then y - y' else y' - y) == 1
    ensures var (x', y') := Forward(d, x, y); Forward(TurnLeft(TurnLeft(d)), x', y') == (x, y)
  {
  }

  // ---------------------------------------------------------------------------
  // `_moves_definition` and `moves_definition`

  /** Moves of the robot: forward one unit, turn left, turn right. */
  predicate IsMoves(s: string) {
    forall i :: 0 <= i < |s| ==> s[i] == 'F' || s[i] == 'L' || s[i] == 'R'
  }

  /** The length of the run of 'F' at the start of `s`. */
  function ForwardRun(s: string): (n: nat)
    ensures n <= |s| && (forall i :: 0 <= i < n ==> s[i] == 'F') && (n < |s| ==> s[n] != 'F')
  {
    if s == [] || s[0] != 'F' then 0 else 1 + ForwardRun(s[1..])
  }

  /** The tokens `_moves_definition` yields: each maximal run of 'F' as its
      decimal count, each turn as itself. */
  function Tokens(s: string): seq<string>
    requires IsMoves(s)
    decreases |s|
  {
    if s == [] then []
    else if s[0] == 'F' then
      var n := ForwardRun(s);
      [Decimal.NatToString(n)] + Tokens(s[n..])
    else [[s[0]]] + Tokens(s[1..])
  }

  /** `moves_definition(moves)`: the tokens joined by commas. */
  function Definition(s: string): string
    requires IsMoves(s)
  {
    Text.Join(Tokens(s), ',')
  }

  /** A token of a definition: a turn, or a positive count of forward moves. */
  predicate IsToken(t: string) {
    t == "L" || t == "R" || (t != [] && Decimal.AllDigits(t) && Decimal.DigitsValue(t) > 0)
  }

  function Repeat(c: char, n: nat): (r: string)
    ensures |r| == n && forall i :: 0 <= i < n ==> r[i] == c
  {
    if n == 0 then [] else [c] + Repeat(c, n - 1)
  }

  /** The moves a sequence of tokens stands for. */
  function Expand(tokens: seq<string>): string
    requires forall k :: 0 <= k < |tokens| ==> IsToken(tokens[k])
  {
    if tokens == [] then []
    else
      assert IsToken(tokens[0]);
      (if tokens[0] == "L" || tokens[0] == "R" then tokens[0] else Repeat('F', Decimal.DigitsValue(tokens[0]))) +
      Expand(tokens[1..])
  }

  /** Every token of a definition is a turn or a positive count. */
  lemma {:induction false} TokensAreTokens(s: string)
    requires IsMoves(s)
    ensures forall k :: 0 <= k < |Tokens(s)| ==> IsToken(Tokens(s)[k])
    decreases |s|
  {
    if s != [] {
      var t := Tokens(s);
      var n := if s[0] == 'F' then ForwardRun(s) else 1;
      var rest := s[n..];
      TokensAreTokens(rest);
      if s[0] == 'F' {
        Decimal.NatToStringValue(n);
      }
      forall k | 0 <= k < |t| ensures IsToken(t[k]) {
        if k > 0 {
          assert t[k] == Tokens(rest)[k - 1];
        }
      }
    }
  }

  /** The definition loses nothing: its tokens stand for exactly the moves. */
  lemma {:induction false} TokensRoundTrip(s: string)
    requires IsMoves(s)
    ensures forall k :: 0 <= k < |Tokens(s)| ==> IsToken(Tokens(s)[k])
    ensures Expand(Tokens(s)) == s
    decreases |s|
  {
    TokensAreTokens(s);
    if s != [] {
      var t := Tokens(s);
      var n := if s[0] == 'F' then ForwardRun(s) else 1;
      var rest := s[n..];
      TokensRoundTrip(rest);
      assert t[1..] == Tokens(rest);
      if s[0] == 'F' {
        Decimal.NatToStringValue(n);
        assert s == Repeat('F', n) + rest;
      } else {
        assert s == [s[0]] + rest;
      }
    }
  }

  /** Each run of 'F' is counted whole: no two counts are adjacent. */
  lemma {:induction false} TokensSeparated(s: string)
    requires IsMoves(s)
    ensures forall k :: 0 <= k < |Tokens(s)| - 1 ==>
      (Tokens(s)[k] == "L" || Tokens(s)[k] == "R" || Tokens(s)[k + 1] == "L" || Tokens(s)[k + 1] == "R")
    decreases |s|
  {
    if s != [] {
      var t := Tokens(s);
      var n := if s[0] == 'F' then ForwardRun(s) else 1;
      var rest := s[n..];
      TokensSeparated(rest);
      if s[0] == 'F' && Tokens(rest) != [] {
        assert Tokens(rest)[0] == [rest[0]];
      }
      forall k | 0 <= k < |t| - 1 ensures t[k] == "L" || t[k] == "R" || t[k + 1] == "L" || t[k + 1] == "R" {
        if k > 0 {
          assert t[k] == Tokens(rest)[k - 1] && t[k + 1] == Tokens(rest)[k];
        }
      }
    }
  }

  /** A run of 'F' from `p0` up to a cell that is not 'F' is one count token. */
  lemma TokensAfterRun(moves: string, p0: nat, p: nat)
    requires IsMoves(moves) && p0 < p <= |moves|
    requires forall i :: p0 <= i < p ==> moves[i] == 'F'
    requires p == |moves| || moves[p] != 'F'
    ensures Tokens(moves[p0..]) == [Decimal.NatToString(p - p0)] + Tokens(moves[p..])
  {
    var s := moves[p0..];
    assert ForwardRun(s) == p - p0;
    assert s[p - p0..] == moves[p..];
  }

  /** A turn is a token of its own. */
  lemma TokensAfterTurn(moves: string, p: nat)
    requires IsMoves(moves) && p < |moves| && moves[p] != 'F'
    ensures Tokens(moves[p..]) == [[moves[p]]] + Tokens(moves[p + 1..])
  {
    assert moves[p..][1..] == moves[p + 1..];
  }

  /** `tokens` are the tokens of the moves before `p`. */
  predicate Scanned(moves: string, tokens: seq<string>, p: nat)
    requires IsMoves(moves)
  {
    p <= |moves| && tokens + Tokens(moves[p..]) == Tokens(moves)
  }

  /** Yielding the count of a whole run of 'F' keeps the scan exact. */
  lemma ScanRun(moves: string, tokens: seq<string>, p0: nat, p: nat)
    requires IsMoves(moves) && Scanned(moves, tokens, p0) && p0 < p <= |moves|
    requires forall i :: p0 <= i < p ==> moves[i] == 'F'
    requires p == |moves| || moves[p] != 'F'
    ensures Scanned(moves, tokens + [Decimal.NatToString(p - p0)], p)
  {
    TokensAfterRun(moves, p0, p);
    var t := Decimal.NatToString(p - p0);
    assert tokens + ([t] + Tokens(moves[p..])) == (tokens + [t]) + Tokens(moves[p..]);
  }

  /** Yielding a turn keeps the scan exact. */
  lemma ScanTurn(moves: string, tokens: seq<string>, p: nat, c: char)
    requires IsMoves(moves) && Scanned(moves, tokens, p) && p < |moves| && moves[p] == c && c != 'F'
    ensures Scanned(moves, tokens + [[c]], p + 1)
  {
    TokensAfterTurn(moves, p);
    assert tokens + ([[c]] + Tokens(moves[p + 1..])) == (tokens + [[c]]) + Tokens(moves[p + 1..]);
  }

  /** The inner loop of `_moves_definition`: count the 'F' from `p`. */
  method CountForwards(moves: string, m: string, p0: nat) returns (p: nat, forwards: nat)
    requires m == moves + "E" && p0 <= |moves|
    ensures p0 <= p <= |moves| && forwards == p - p0
    ensures (forall i :: p0 <= i < p ==> moves[i] == 'F') && m[p] != 'F'
  {
    p, forwards := p0, 0;
    while m[p] == 'F'
      invariant p0 <= p <= |moves| && forwards == p - p0
      invariant forall i :: p0 <= i < p ==> moves[i] == 'F'
      decreases |moves| - p
    {
      forwards := forwards + 1;
      p := p + 1;
    }
  }

  /** `_moves_definition(moves)`: the scan with a sentinel 'E' appended. */
  method MovesTokens(moves: string) returns (tokens: seq<string>)
    requires IsMoves(moves)
    ensures tokens == Tokens(moves)
  {
    var m := moves + "E";
    var p := 0;
    tokens := [];
    assert moves[0..] == moves;
    while m[p] != 'E'
      invariant Scanned(moves, tokens, p)
      decreases |moves| - p
    {
      var p0 := p;
      var forwards;
      p, forwards := CountForwards(moves, m, p);
      if forwards > 0 {
        ScanRun(moves, tokens, p0, p);
        tokens := tokens + [Decimal.NatToString(forwards)];
      }
      ghost var p1 := p;
      if m[p] == 'L' {
        ScanTurn(moves, tokens, p, 'L');
        tokens := tokens + ["L"];
        p := p + 1;
      }
      if m[p] == 'R' {
        ScanTurn(moves, tokens, p, 'R');
        tokens := tokens + ["R"];
        p := p + 1;
      }
      assert p0 < p;
    }
    assert p == |moves| && moves[p..] == [];
  }

  /** `moves_definition(moves)`. */
  method MovesDefinition(moves: string) returns (d: string)
    requires IsMoves(moves)
    ensures d == Definition(moves)
    ensures moves != [] ==> Text.Split(d, ',') == Tokens(moves)
  {
    var tokens := MovesTokens(moves);
    d := Text.Join(tokens, ',');
    if moves != [] {
      TokensAreTokens(moves);
      forall k | 0 <= k < |tokens| ensures ',' !in tokens[k] {
        assert IsToken(tokens[k]);
      }
      Text.SplitJoin(tokens, ',');
    }
  }

  // ---------------------------------------------------------------------------
  // `group_moves`

  predicate NonEmptyGroups(groups: seq<string>) {
    forall k :: 0 <= k < |groups| ==> groups[k] != []
  }

  /** No group is a prefix of another. */
  predicate PrefixFree(groups: seq<string>) {
    forall i, j :: 0 <= i < |groups| && 0 <= j < |groups| && i != j ==> !(groups[i] <= groups[j])
  }

  /** The first group `moves` starts with at `p`. */
  function FirstMatch(moves: string, p: int, groups: seq<string>): (r: Option<nat>)
    ensures r.Some? ==> r.value < |groups| && Text.StartsWithAt(moves, groups[r.value], p)
  {
    if groups == [] then None
    else if Text.StartsWithAt(moves, groups[0], p) then Some(0)
    else
      match FirstMatch(moves, p, groups[1..])
      case None => None
      case Some(k) => Some(k + 1)
  }

  /** No group is found exactly when the moves start with none of them at `p`. */
  lemma {:induction false} FirstMatchNone(moves: string, p: int, groups: seq<string>)
    ensures FirstMatch(moves, p, groups).None? <==> forall k :: 0 <= k < |groups| ==> !Text.StartsWithAt(moves, groups[k], p)
    decreases |groups|
  {
    if groups != [] {
      FirstMatchNone(moves, p, groups[1..]);
      assert forall k :: 1 <= k < |groups| ==> groups[k] == groups[1..][k - 1];
    }
  }

  /** With prefix-free groups at most one group matches, so the unpacking
      `grp, = [...]` of `group_moves` always finds exactly one. */
  lemma OnlyMatch(moves: string, p: int, groups: seq<string>, i: nat, j: nat)
    requires PrefixFree(groups) && i < |groups| && j < |groups|
    requires Text.StartsWithAt(moves, groups[i], p) && Text.StartsWithAt(moves, groups[j], p)
    ensures i == j
  {
  }

  /** The `while` loop of `group_moves`: consume the groups that match at
      `p`, counting them into the main routine, or `None` when the routine
      grows too long. */
  function Consume(moves: string, p: nat, groups: seq<string>, len: int, maxDefinitionSize: int): Option<(nat, int)>
    requires NonEmptyGroups(groups)
    decreases |moves| - p
  {
    match FirstMatch(moves, p, groups)
    case None => Some((p, len))
    case Some(k) =>
      if (len + 1) * 2 - 1 > maxDefinitionSize then None
      else Consume(moves, p + |groups[k]|, groups, len + 1, maxDefinitionSize)
  }

  /** The loop stops where no group matches, and never past the end of the
      moves. */
  lemma {:induction false} ConsumeEnds(moves: string, p: nat, groups: seq<string>, len: int, maxDefinitionSize: int,
                                       q: nat, len': int)
    requires NonEmptyGroups(groups) && Consume(moves, p, groups, len, maxDefinitionSize) == Some((q, len'))
    ensures p <= q && FirstMatch(moves, q, groups).None?
    ensures p <= |moves| ==> q <= |moves|
    decreases |moves| - p
  {
    var m := FirstMatch(moves, p, groups);
    if m.Some? {
      var k := m.value;
      ConsumeStep(moves, p, groups, len, maxDefinitionSize, k);
      ConsumeEnds(moves, p + |groups[k]|, groups, len + 1, maxDefinitionSize, q, len');
    }
  }

  lemma ConsumeStep(moves: string, p: nat, groups: seq<string>, len: int, maxDefinitionSize: int, k: nat)
    requires NonEmptyGroups(groups) && FirstMatch(moves, p, groups) == Some(k)
    ensures k < |groups| && Text.StartsWithAt(moves, groups[k], p) && p + |groups[k]| <= |moves|
    ensures (len + 1) * 2 - 1 > maxDefinitionSize ==> Consume(moves, p, groups, len, maxDefinitionSize) == None
    ensures (len + 1) * 2 - 1 <= maxDefinitionSize ==>
      Consume(moves, p, groups, len, maxDefinitionSize) == Consume(moves, p + |groups[k]|, groups, len + 1, maxDefinitionSize)
    ensures Consume(moves, p, groups, len, maxDefinitionSize).Some? ==> (len + 1) * 2 - 1 <= maxDefinitionSize
  {
    assert |groups[k]| <= |moves[p..]|;
  }

  /** One more group consumed, within the length limit, leaves the outcome
      of the loop unchanged. */
  lemma ConsumeAdvance(moves: string, p: nat, groups: seq<string>, len: int, maxDefinitionSize: int, k: nat,
                       q: nat, len': int)
    requires NonEmptyGroups(groups) && FirstMatch(moves, p, groups) == Some(k) && len' * 2 - 1 <= maxDefinitionSize
    requires k < |groups| && q == p + |groups[k]| && len' == len + 1
    ensures p < q <= |moves|
    ensures Consume(moves, p, groups, len, maxDefinitionSize) == Consume(moves, q, groups, len', maxDefinitionSize)
  {
    ConsumeStep(moves, p, groups, len, maxDefinitionSize, k);
  }

  /** Some group extends `grp`: `any(g.startswith(grp) for g in existing_groups)`. */
  predicate Extended(groups: seq<string>, grp: string) {
    exists k :: 0 <= k < |groups| && grp <= groups[k]
  }

  /** A new group that no group extends and that extends no group keeps the
      groups prefix-free. */
  lemma AddGroupPrefixFree(moves: string, p: nat, groups: seq<string>, grp: string)
    requires PrefixFree(groups) && NonEmptyGroups(groups) && grp != []
    requires FirstMatch(moves, p, groups).None? && p + |grp| <= |moves| && grp == moves[p..p + |grp|]
    requires !Extended(groups, grp)
    ensures PrefixFree(groups + [grp]) && NonEmptyGroups(groups + [grp])
  {
    var g' := groups + [grp];
    FirstMatchNone(moves, p, groups);
    forall i, j | 0 <= i < |g'| && 0 <= j < |g'| && i != j ensures !(g'[i] <= g'[j]) {
      if j == |groups| {
        assert !Text.StartsWithAt(moves, groups[i], p);
        NotPrefixOfSlice(moves, groups[i], p, grp);
      } else if i == |groups| {
        assert !(grp <= groups[j]);
      } else {
        assert g'[i] == groups[i] && g'[j] == groups[j];
      }
    }
  }

  /** A string the moves do not start with at `p` is no prefix of a slice
      starting at `p`. */
  lemma NotPrefixOfSlice(moves: string, g: string, p: nat, grp: string)
    requires !Text.StartsWithAt(moves, g, p) && p + |grp| <= |moves| && grp == moves[p..p + |grp|]
    ensures !(g <= grp)
  {
    assert grp <= moves[p..];
  }

  /** `group_moves(moves, p, existing_groups, main_routine_length,
      max_groups, max_definition_size)`. `wholeRest` says whether a new group
      may run to the end of the moves: the loop `for i in range(1, len(moves) - p)`
      as written stops one short of that (`wholeRest == false`). */
  function Search(moves: string, p: nat, groups: seq<string>, len: int, maxGroups: int, maxDefinitionSize: int,
                  wholeRest: bool): Option<seq<string>>
    requires IsMoves(moves) && PrefixFree(groups) && NonEmptyGroups(groups)
    decreases maxGroups - |groups|, 1, 0
  {
    match Consume(moves, p, groups, len, maxDefinitionSize)
    case None => None
    case Some((q, len')) =>
      ConsumeEnds(moves, p, groups, len, maxDefinitionSize, q, len');
      if q >= |moves| then Some(groups)
      else if |groups| >= maxGroups then None
      else TryLengths(moves, q, groups, len', maxGroups, maxDefinitionSize, wholeRest, 1)
  }

  /** The `for` loop of `group_moves` from the group length `i` on. */
  function TryLengths(moves: string, p: nat, groups: seq<string>, len: int, maxGroups: int, maxDefinitionSize: int,
                      wholeRest: bool, i: nat): Option<seq<string>>
    requires IsMoves(moves) && PrefixFree(groups) && NonEmptyGroups(groups)
    requires |groups| < maxGroups && p < |moves| && i >= 1 && FirstMatch(moves, p, groups).None?
    decreases maxGroups - |groups|, 0, |moves| - p + 1 - i
  {
    if i > |moves| - p || (!wholeRest && i == |moves| - p) then None
    else
      var grp := moves[p..p + i];
      if Extended(groups, grp) then TryLengths(moves, p, groups, len, maxGroups, maxDefinitionSize, wholeRest, i + 1)
      else
        assert IsMoves(grp) by {
          forall k | 0 <= k < |grp| ensures grp[k] == 'F' || grp[k] == 'L' || grp[k] == 'R' {
            assert grp[k] == moves[p + k];
          }
        }
        if |Definition(grp)| > maxDefinitionSize then None
        else
          AddGroupPrefixFree(moves, p, groups, grp);
          match Search(moves, p, groups + [grp], len, maxGroups, maxDefinitionSize, wholeRest)
          case Some(r) => Some(r)
          case None => TryLengths(moves, p, groups, len, maxGroups, maxDefinitionSize, wholeRest, i + 1)
  }

  /** `moves` as written `group_moves` sees it with the default arguments. */
  function GroupMovesAsWritten(moves: string): Option<seq<string>>
    requires IsMoves(moves)
  {
    Search(moves, 0, [], 0, 3, 20, false)
  }

  /** The concatenation of the groups a main routine names. */
  function Concat(groups: seq<string>, main: seq<nat>): string
    requires forall k :: 0 <= k < |main| ==> main[k] < |groups|
  {
    if main == [] then [] else groups[main[0]] + Concat(groups, main[1..])
  }

  /** `main` names groups whose concatenation is `s`. */
  predicate Decomposes(groups: seq<string>, main: seq<nat>, s: string) {
    (forall k :: 0 <= k < |main| ==> main[k] < |groups|) && Concat(groups, main) == s
  }

  lemma {:induction false} ConcatAppend(groups: seq<string>, a: seq<nat>, b: seq<nat>)
    requires forall k :: 0 <= k < |a| ==> a[k] < |groups|
    requires forall k :: 0 <= k < |b| ==> b[k] < |groups|
    ensures Concat(groups, a + b) == Concat(groups, a) + Concat(groups, b)
    decreases |a|
  {
    if a != [] {
      assert (a + b)[1..] == a[1..] + b;
      ConcatAppend(groups, a[1..], b);
    } else {
      assert a + b == b;
    }
  }

  lemma {:induction false} ConcatMoreGroups(groups: seq<string>, more: seq<string>, main: seq<nat>)
    requires groups <= more && forall k :: 0 <= k < |main| ==> main[k] < |groups|
    ensures Concat(more, main) == Concat(groups, main)
    decreases |main|
  {
    if main != [] {
      ConcatMoreGroups(groups, more, main[1..]);
    }
  }

  /** `moves[p..q]` is a run of groups, one per step of a main routine that
      grows from `len` to `len'` steps within the length limit. */
  ghost predicate RunOfGroups(groups: seq<string>, moves: string, p: nat, q: nat, len: int, len': int,
                              maxDefinitionSize: int)
    requires p <= q <= |moves|
  {
    exists main :: Decomposes(groups, main, moves[p..q]) && len' == len + |main| &&
                   (|main| == 0 || len' * 2 - 1 <= maxDefinitionSize)
  }

  /** The moves the `while` loop consumes are a run of existing groups, one
      per step of the main routine, within the routine's length limit. */
  lemma {:induction false} ConsumeSound(moves: string, p: nat, groups: seq<string>, len: int, maxDefinitionSize: int,
                                        q: nat, len': int)
    requires NonEmptyGroups(groups) && p <= |moves|
    requires Consume(moves, p, groups, len, maxDefinitionSize) == Some((q, len'))
    ensures p <= q <= |moves| && RunOfGroups(groups, moves, p, q, len, len', maxDefinitionSize)
    decreases |moves| - p
  {
    var m := FirstMatch(moves, p, groups);
    if m.None? {
      assert q == p && len' == len;
      assert Decomposes(groups, [], moves[p..q]);
      RunOfGroupsWitness(groups, [], moves, p, q, len, len', maxDefinitionSize);
    } else {
      var k := m.value;
      var p' := p + |groups[k]|;
      ConsumeStep(moves, p, groups, len, maxDefinitionSize, k);
      ConsumeSound(moves, p', groups, len + 1, maxDefinitionSize, q, len');
      RunOfGroupsCons(groups, moves, p, k, q, len, len', maxDefinitionSize);
    }
  }

  /** A group matched at `p`, followed by a run of groups, is a run one step
      longer. */
  lemma RunOfGroupsCons(groups: seq<string>, moves: string, p: nat, k: nat, q: nat, len: int, len': int,
                        maxDefinitionSize: int)
    requires k < |groups| && Text.StartsWithAt(moves, groups[k], p) && p + |groups[k]| <= q <= |moves|
    requires (len + 1) * 2 - 1 <= maxDefinitionSize
    requires RunOfGroups(groups, moves, p + |groups[k]|, q, len + 1, len', maxDefinitionSize)
    ensures RunOfGroups(groups, moves, p, q, len, len', maxDefinitionSize)
  {
    var p' := p + |groups[k]|;
    var main :| Decomposes(groups, main, moves[p'..q]) && len' == len + 1 + |main| &&
                (|main| == 0 || len' * 2 - 1 <= maxDefinitionSize);
    MatchedSlice(moves, groups[k], p, q);
    DecomposesCons(groups, k, main, moves[p'..q]);
    RunOfGroupsWitness(groups, [k] + main, moves, p, q, len, len', maxDefinitionSize);
  }

  lemma RunOfGroupsWitness(groups: seq<string>, main: seq<nat>, moves: string, p: nat, q: nat, len: int, len': int,
                           maxDefinitionSize: int)
    requires p <= q <= |moves| && Decomposes(groups, main, moves[p..q]) && len' == len + |main|
    requires |main| == 0 || len' * 2 - 1 <= maxDefinitionSize
    ensures RunOfGroups(groups, moves, p, q, len, len', maxDefinitionSize)
  {
  }

  /** A group matched at `p` is the slice of the moves that follows `p`. */
  lemma MatchedSlice(moves: string, g: string, p: nat, q: nat)
    requires Text.StartsWithAt(moves, g, p) && p + |g| <= q <= |moves|
    ensures moves[p..q] == g + moves[p + |g|..q]
  {
    assert moves[p..p + |g|] == g;
  }

  lemma DecomposesCons(groups: seq<string>, k: nat, main: seq<nat>, s: string)
    requires k < |groups| && Decomposes(groups, main, s)
    ensures Decomposes(groups, [k] + main, groups[k] + s)
  {
    assert ([k] + main)[1..] == main;
  }

  /** A main routine within the length limit, continuing one of `len` steps,
      names groups whose concatenation is the rest of the moves from `p`. */
  ghost predicate Covers(r: seq<string>, moves: string, p: nat, len: int, maxDefinitionSize: int)
    requires p <= |moves|
  {
    exists main :: Decomposes(r, main, moves[p..]) && (|main| == 0 || (len + |main|) * 2 - 1 <= maxDefinitionSize)
  }

  /** What a successful search promises: the groups found extend the
      existing ones, stay prefix-free, number at most `maxGroups`, have
      definitions within the size limit, and cover the rest of the moves. */
  ghost predicate Sound(moves: string, p: nat, groups: seq<string>, len: int, maxGroups: int, maxDefinitionSize: int,
                        r: seq<string>)
    requires IsMoves(moves)
  {
    groups <= r && PrefixFree(r) && NonEmptyGroups(r) &&
    (|groups| <= maxGroups ==> |r| <= maxGroups) &&
    (forall k :: |groups| <= k < |r| ==> IsMoves(r[k]) && |Definition(r[k])| <= maxDefinitionSize) &&
    (p <= |moves| ==> Covers(r, moves, p, len, maxDefinitionSize))
  }

  /** A run of groups followed by a covered rest covers the whole. */
  lemma CoversAfterRun(groups: seq<string>, r: seq<string>, moves: string, p: nat, q: nat, len: int, len': int,
                       maxDefinitionSize: int)
    requires groups <= r && p <= q <= |moves| && RunOfGroups(groups, moves, p, q, len, len', maxDefinitionSize)
    requires q == |moves| || Covers(r, moves, q, len', maxDefinitionSize)
    ensures Covers(r, moves, p, len, maxDefinitionSize)
  {
    var main1 :| Decomposes(groups, main1, moves[p..q]) && len' == len + |main1| &&
                 (|main1| == 0 || len' * 2 - 1 <= maxDefinitionSize);
    DecomposesMoreGroups(groups, r, main1, moves[p..q]);
    if q == |moves| {
      assert moves[p..] == moves[p..q];
      CoversWitness(r, main1, moves, p, len, maxDefinitionSize);
    } else {
      var main2 :| Decomposes(r, main2, moves[q..]) && (|main2| == 0 || (len' + |main2|) * 2 - 1 <= maxDefinitionSize);
      DecomposesJoin(r, main1, main2, moves[p..q], moves[q..]);
      assert moves[p..] == moves[p..q] + moves[q..];
      CoversWitness(r, main1 + main2, moves, p, len, maxDefinitionSize);
    }
  }

  lemma DecomposesMoreGroups(groups: seq<string>, more: seq<string>, main: seq<nat>, s: string)
    requires groups <= more && Decomposes(groups, main, s)
    ensures Decomposes(more, main, s)
  {
    ConcatMoreGroups(groups, more, main);
  }

  lemma DecomposesJoin(groups: seq<string>, a: seq<nat>, b: seq<nat>, s: string, t: string)
    requires Decomposes(groups, a, s) && Decomposes(groups, b, t)
    ensures Decomposes(groups, a + b, s + t) && |a + b| == |a| + |b|
  {
    ConcatAppend(groups, a, b);
  }

  lemma CoversWitness(r: seq<string>, main: seq<nat>, moves: string, p: nat, len: int, maxDefinitionSize: int)
    requires p <= |moves| && Decomposes(r, main, moves[p..])
    requires |main| == 0 || (len + |main|) * 2 - 1 <= maxDefinitionSize
    ensures Covers(r, moves, p, len, maxDefinitionSize)
  {
  }

  lemma {:induction false} SearchSound(moves: string, p: nat, groups: seq<string>, len: int, maxGroups: int,
                                       maxDefinitionSize: int, wholeRest: bool)
    requires IsMoves(moves) && PrefixFree(groups) && NonEmptyGroups(groups)
    requires Search(moves, p, groups, len, maxGroups, maxDefinitionSize, wholeRest).Some?
    ensures Sound(moves, p, groups, len, maxGroups, maxDefinitionSize,
                  Search(moves, p, groups, len, maxGroups, maxDefinitionSize, wholeRest).value)
    decreases maxGroups - |groups|, 1, 0
  {
    var r := Search(moves, p, groups, len, maxGroups, maxDefinitionSize, wholeRest).value;
    var c := Consume(moves, p, groups, len, maxDefinitionSize).value;
    var q, len' := c.0, c.1;
    ConsumeEnds(moves, p, groups, len, maxDefinitionSize, q, len');
    if q < |moves| {
      TryLengthsSound(moves, q, groups, len', maxGroups, maxDefinitionSize, wholeRest, 1, r);
    } else {
      assert r == groups;
    }
    if p <= |moves| {
      ConsumeSound(moves, p, groups, len, maxDefinitionSize, q, len');
      CoversAfterRun(groups, r, moves, p, q, len, len', maxDefinitionSize);
    }
  }

  lemma {:induction false} TryLengthsSound(moves: string, p: nat, groups: seq<string>, len: int, maxGroups: int,
                                           maxDefinitionSize: int, wholeRest: bool, i: nat, r: seq<string>)
    requires IsMoves(moves) && PrefixFree(groups) && NonEmptyGroups(groups)
    requires |groups| < maxGroups && p < |moves| && i >= 1 && FirstMatch(moves, p, groups).None?
    requires TryLengths(moves, p, groups, len, maxGroups, maxDefinitionSize, wholeRest, i) == Some(r)
    ensures Sound(moves, p, groups, len, maxGroups, maxDefinitionSize, r)
    decreases maxGroups - |groups|, 0, |moves| - p + 1 - i
  {
    var grp := moves[p..p + i];
    TryLengthsShape(moves, p, groups, len, maxGroups, maxDefinitionSize, wholeRest, i);
    if Some(r) == TryLengths(moves, p, groups, len, maxGroups, maxDefinitionSize, wholeRest, i + 1) {
      TryLengthsSound(moves, p, groups, len, maxGroups, maxDefinitionSize, wholeRest, i + 1, r);
    } else {
      NewGroupSound(moves, p, groups, grp, len, maxGroups, maxDefinitionSize, wholeRest, r);
    }
  }

  /** A search that succeeds after adding a new group within the limits is
      sound for the groups before. */
  lemma NewGroupSound(moves: string, p: nat, groups: seq<string>, grp: string, len: int, maxGroups: int,
                      maxDefinitionSize: int, wholeRest: bool, r: seq<string>)
    requires IsMoves(moves) && IsMoves(grp) && |Definition(grp)| <= maxDefinitionSize && |groups| < maxGroups
    requires PrefixFree(groups + [grp]) && NonEmptyGroups(groups + [grp])
    requires Search(moves, p, groups + [grp], len, maxGroups, maxDefinitionSize, wholeRest) == Some(r)
    ensures Sound(moves, p, groups, len, maxGroups, maxDefinitionSize, r)
    decreases maxGroups - |groups|, 0, 0
  {
    SearchSound(moves, p, groups + [grp], len, maxGroups, maxDefinitionSize, wholeRest);
    SoundWithNewGroup(moves, p, groups, grp, len, maxGroups, maxDefinitionSize, r);
  }

  /** A successful step of the `for` loop either moves on to the next length
      or is the search with the new group added. */
  lemma TryLengthsShape(moves: string, p: nat, groups: seq<string>, len: int, maxGroups: int,
                        maxDefinitionSize: int, wholeRest: bool, i: nat)
    requires IsMoves(moves) && PrefixFree(groups) && NonEmptyGroups(groups)
    requires |groups| < maxGroups && p < |moves| && i >= 1 && FirstMatch(moves, p, groups).None?
    requires TryLengths(moves, p, groups, len, maxGroups, maxDefinitionSize, wholeRest, i).Some?
    ensures i <= |moves| - p && IsMoves(moves[p..p + i])
    ensures TryLengths(moves, p, groups, len, maxGroups, maxDefinitionSize, wholeRest, i) ==
            TryLengths(moves, p, groups, len, maxGroups, maxDefinitionSize, wholeRest, i + 1) ||
            (|Definition(moves[p..p + i])| <= maxDefinitionSize &&
             PrefixFree(groups + [moves[p..p + i]]) && NonEmptyGroups(groups + [moves[p..p + i]]) &&
             TryLengths(moves, p, groups, len, maxGroups, maxDefinitionSize, wholeRest, i) ==
             Search(moves, p, groups + [moves[p..p + i]], len, maxGroups, maxDefinitionSize, wholeRest))
  {
    var grp := moves[p..p + i];
    SliceIsMoves(moves, p, i);
    if !Extended(groups, grp) {
      AddGroupPrefixFree(moves, p, groups, grp);
    }
  }

  /** A slice of moves is moves. */
  lemma SliceIsMoves(moves: string, p: nat, i: nat)
    requires IsMoves(moves) && p + i <= |moves|
    ensures IsMoves(moves[p..p + i])
  {
    var grp := moves[p..p + i];
    forall k | 0 <= k < |grp| ensures grp[k] == 'F' || grp[k] == 'L' || grp[k] == 'R' {
      assert grp[k] == moves[p + k];
    }
  }

  /** What a search promises after adding a group within the limits, it
      promises for the groups before. */
  lemma SoundWithNewGroup(moves: string, p: nat, groups: seq<string>, grp: string, len: int, maxGroups: int,
                          maxDefinitionSize: int, r: seq<string>)
    requires IsMoves(moves) && IsMoves(grp) && |Definition(grp)| <= maxDefinitionSize && |groups| < maxGroups
    requires Sound(moves, p, groups + [grp], len, maxGroups, maxDefinitionSize, r)
    ensures Sound(moves, p, groups, len, maxGroups, maxDefinitionSize, r)
  {
    var g' := groups + [grp];
    assert groups <= g' <= r;
    forall k | |groups| <= k < |r| ensures IsMoves(r[k]) && |Definition(r[k])| <= maxDefinitionSize {
      if k == |groups| {
        assert r[k] == g'[k] == grp;
      }
    }
  }

  /** What the search does once the `while` loop has consumed the groups up
      to `q`. */
  lemma SearchAfterConsume(moves: string, p: nat, groups: seq<string>, len: int, maxGroups: int,
                           maxDefinitionSize: int, wholeRest: bool, q: nat, len': int)
    requires IsMoves(moves) && PrefixFree(groups) && NonEmptyGroups(groups)
    requires Consume(moves, p, groups, len, maxDefinitionSize) == Some((q, len'))
    ensures q >= |moves| ==> Search(moves, p, groups, len, maxGroups, maxDefinitionSize, wholeRest) == Some(groups)
    ensures q < |moves| && |groups| >= maxGroups ==>
      Search(moves, p, groups, len, maxGroups, maxDefinitionSize, wholeRest) == None
    ensures q < |moves| && |groups| < maxGroups ==>
      FirstMatch(moves, q, groups).None? &&
      Search(moves, p, groups, len, maxGroups, maxDefinitionSize, wholeRest) ==
      TryLengths(moves, q, groups, len', maxGroups, maxDefinitionSize, wholeRest, 1)
  {
    ConsumeEnds(moves, p, groups, len, maxDefinitionSize, q, len');
  }

  /** The search fails once the main routine grows too long. */
  lemma SearchTooLong(moves: string, p: nat, groups: seq<string>, len: int, maxGroups: int,
                      maxDefinitionSize: int, wholeRest: bool)
    requires IsMoves(moves) && PrefixFree(groups) && NonEmptyGroups(groups)
    requires Consume(moves, p, groups, len, maxDefinitionSize) == None
    ensures Search(moves, p, groups, len, maxGroups, maxDefinitionSize, wholeRest) == None
  {
  }

  /** `group_moves` as corrected, so that a new group may run to the end of
      the moves: `for i in range(1, len(moves) - p + 1)`. */
  method GroupMoves(moves: string, p: nat, groups: seq<string>, mainRoutineLength: int, maxGroups: int,
                    maxDefinitionSize: int)
    returns (r: Option<seq<string>>)
    requires IsMoves(moves) && PrefixFree(groups) && NonEmptyGroups(groups)
    ensures r == Search(moves, p, groups, mainRoutineLength, maxGroups, maxDefinitionSize, true)
    decreases maxGroups - |groups|, 1
  {
    ghost var consumed := Consume(moves, p, groups, mainRoutineLength, maxDefinitionSize);
    var q, len := p, mainRoutineLength;
    while FirstMatch(moves, q, groups).Some?
      invariant p <= q
      invariant consumed == Consume(moves, q, groups, len, maxDefinitionSize)
      decreases |moves| - q
    {
      var k := FirstMatch(moves, q, groups).value;
      ghost var q0, len0 := q, len;
      q := q + |groups[k]|;
      len := len + 1;
      if len * 2 - 1 > maxDefinitionSize {
        ConsumeStep(moves, q0, groups, len0, maxDefinitionSize, k);
        SearchTooLong(moves, p, groups, mainRoutineLength, maxGroups, maxDefinitionSize, true);
        return None;
      }
      ConsumeAdvance(moves, q0, groups, len0, maxDefinitionSize, k, q, len);
    }
    assert consumed == Some((q, len));
    SearchAfterConsume(moves, p, groups, mainRoutineLength, maxGroups, maxDefinitionSize, true, q, len);
    if q >= |moves| {
      r := Some(groups);
    } else if |groups| >= maxGroups {
      r := None;
    } else {
      r := TryGroupLengths(moves, q, groups, len, maxGroups, maxDefinitionSize);
    }
  }

  /** The `for` loop of `group_moves` as corrected: each length of a new
      group, up to the whole rest of the moves. */
  method TryGroupLengths(moves: string, q: nat, groups: seq<string>, len: int, maxGroups: int,
                         maxDefinitionSize: int)
    returns (r: Option<seq<string>>)
    requires IsMoves(moves) && PrefixFree(groups) && NonEmptyGroups(groups)
    requires |groups| < maxGroups && q < |moves| && FirstMatch(moves, q, groups).None?
    ensures r == TryLengths(moves, q, groups, len, maxGroups, maxDefinitionSize, true, 1)
    decreases maxGroups - |groups|, 0
  {
    for i := 1 to |moves| - q + 1
      invariant TryLengths(moves, q, groups, len, maxGroups, maxDefinitionSize, true, 1) ==
                TryLengths(moves, q, groups, len, maxGroups, maxDefinitionSize, true, i)
    {
      var grp := moves[q..q + i];
      ghost var here := TryLengths(moves, q, groups, len, maxGroups, maxDefinitionSize, true, i);
      if exists k :: 0 <= k < |groups| && grp <= groups[k] {
        assert here == TryLengths(moves, q, groups, len, maxGroups, maxDefinitionSize, true, i + 1);
        continue;
      }
      SliceIsMoves(moves, q, i);
      var definition := MovesDefinition(grp);
      if |definition| > maxDefinitionSize {
        assert here == None;
        return None;
      }
      AddGroupPrefixFree(moves, q, groups, grp);
      var rtn := GroupMoves(moves, q, groups + [grp], len, maxGroups, maxDefinitionSize);
      if rtn.Some? {
        assert here == rtn;
        return rtn;
      }
      assert here == TryLengths(moves, q, groups, len, maxGroups, maxDefinitionSize, true, i + 1);
    }
    assert TryLengths(moves, q, groups, len, maxGroups, maxDefinitionSize, true, |moves| - q + 1) == None;
    return None;
  }

  /** The definition of the single forward move. */
  lemma DefinitionOfF()
    ensures IsMoves("F") && Definition("F") == "1"
  {
    assert Tokens("F") == [Decimal.NatToString(1)] + Tokens("F"[1..]);
  }

  /** The facts about the moves "FL" the searches below need. */
  lemma FLText()
    ensures IsMoves("FL") && |"FL"| == 2 && "FL"[0..1] == "F" && "FL"[1..2] == "L"
    ensures Text.StartsWithAt("FL", "F", 0) && Text.StartsWithAt("FL", "L", 1)
    ensures !Text.StartsWithAt("FL", "F", 1) && !Text.StartsWithAt("FL", "F", 2) && !Text.StartsWithAt("FL", "L", 2)
  {
    assert "FL"[0..] == "FL" && "FL"[1..] == "L" && "FL"[2..] == "";
    assert "F"[0] != "L"[0];
  }

  /** With no groups yet, the `while` loop consumes nothing and the search
      goes straight to the `for` loop. */
  lemma NoGroupsYet(moves: string, len: int, maxGroups: int, maxDefinitionSize: int, wholeRest: bool)
    requires IsMoves(moves) && moves != [] && maxGroups > 0
    ensures FirstMatch(moves, 0, []).None?
    ensures Search(moves, 0, [], len, maxGroups, maxDefinitionSize, wholeRest) ==
            TryLengths(moves, 0, [], len, maxGroups, maxDefinitionSize, wholeRest, 1)
  {
    assert Consume(moves, 0, [], len, maxDefinitionSize) == Some((0, len));
    SearchAfterConsume(moves, 0, [], len, maxGroups, maxDefinitionSize, wholeRest, 0, len);
  }

  /** The group "F" consumes the first move of "FL". */
  lemma FLConsumeF()
    ensures Consume("FL", 0, ["F"], 0, 20) == Some((1, 1))
  {
    FLText();
    FirstMatchIs("FL", 0, ["F"], 0);
    ConsumeStep("FL", 0, ["F"], 0, 20, 0);
    FirstMatchNone("FL", 1, ["F"]);
  }

  /** As written, the search with the group "F" may not add "L", which runs
      to the end of the moves. */
  lemma AsWrittenStopsAfterF()
    ensures IsMoves("FL") && PrefixFree(["F"]) && NonEmptyGroups(["F"])
    ensures Search("FL", 0, ["F"], 0, 3, 20, false) == None
  {
    FLText();
    FLConsumeF();
    SearchAfterConsume("FL", 0, ["F"], 0, 3, 20, false, 1, 1);
  }

  /** The search as written gives up on "FL": its only grouping needs the
      last move "L" as a group of its own, a group that runs to the end of the
      moves. */
  lemma AsWrittenMissesLastGroup()
    ensures GroupMovesAsWritten("FL") == None
  {
    FLText();
    DefinitionOfF();
    NoGroupsYet("FL", 0, 3, 20, false);
    assert !Extended([], "F");
    assert [] + ["F"] == ["F"];
    AsWrittenStopsAfterF();
    assert TryLengths("FL", 0, [], 0, 3, 20, false, 2) == None;
  }

  /** The definition of the single left turn. */
  lemma DefinitionOfL()
    ensures IsMoves("L") && Definition("L") == "L"
  {
    assert Tokens("L") == ["L"] + Tokens("L"[1..]);
  }

  /** With the group "F" consumed, the corrected search adds the group "L". */
  lemma CorrectedAddsLastGroup()
    ensures FirstMatch("FL", 1, ["F"]) == None
    ensures TryLengths("FL", 1, ["F"], 1, 3, 20, true, 1) == Some(["F", "L"])
  {
    FLText();
    FirstMatchNone("FL", 1, ["F"]);
    DefinitionOfL();
    assert ["F"] + ["L"] == ["F", "L"];
    assert !Extended(["F"], "L") by {
      assert "F"[0] != "L"[0];
    }
    BothGroupsConsumeAll();
  }

  /** Two non-empty groups, neither a prefix of the other. */
  lemma NonEmptyPair(a: string, b: string)
    requires a != [] && b != []
    ensures NonEmptyGroups([a, b])
  {
    var g := [a, b];
    assert g[0] == a && g[1] == b;
  }

  lemma TwoGroups(a: string, b: string)
    requires a != [] && b != [] && !(a <= b) && !(b <= a)
    ensures PrefixFree([a, b]) && NonEmptyGroups([a, b])
  {
    var g := [a, b];
    forall i, j | 0 <= i < |g| && 0 <= j < |g| && i != j ensures !(g[i] <= g[j]) {
      if i == 0 {
        assert g[i] == a && g[j] == b;
      } else {
        assert g[i] == b && g[j] == a;
      }
    }
  }

  /** With the groups "F" and "L", the search consumes "L" and is done. */
  lemma BothGroupsConsumeAll()
    ensures IsMoves("FL") && PrefixFree(["F", "L"]) && NonEmptyGroups(["F", "L"])
    ensures Search("FL", 1, ["F", "L"], 1, 3, 20, true) == Some(["F", "L"])
  {
    FLText();
    assert !("F" <= "L") && !("L" <= "F") by {
      assert "F"[0] != "L"[0];
    }
    TwoGroups("F", "L");
    FLConsumeL();
    SearchAfterConsume("FL", 1, ["F", "L"], 1, 3, 20, true, 2, 2);
  }

  /** The group "L" consumes the last move of "FL". */
  lemma FLConsumeL()
    ensures Consume("FL", 1, ["F", "L"], 1, 20) == Some((2, 2))
  {
    FLMatchesLAtOne();
    NonEmptyPair("F", "L");
    ConsumeLast("FL", 1, ["F", "L"], 1, 20, 1);
  }

  lemma FLMatchesLAtOne()
    ensures FirstMatch("FL", 1, ["F", "L"]) == Some(1)
  {
    FLText();
    FirstMatchIs("FL", 1, ["F", "L"], 1);
  }

  /** No non-empty group starts at the end of the moves. */
  lemma {:induction false} NoMatchAtEnd(moves: string, groups: seq<string>)
    requires NonEmptyGroups(groups)
    ensures FirstMatch(moves, |moves|, groups) == None
  {
    FirstMatchNone(moves, |moves|, groups);
  }

  /** A group that reaches the end of the moves is the last one consumed. */
  lemma ConsumeLast(moves: string, p: nat, groups: seq<string>, len: int, maxDefinitionSize: int, k: nat)
    requires NonEmptyGroups(groups) && FirstMatch(moves, p, groups) == Some(k)
    requires k < |groups| && p + |groups[k]| == |moves| && (len + 1) * 2 - 1 <= maxDefinitionSize
    ensures Consume(moves, p, groups, len, maxDefinitionSize) == Some((|moves|, len + 1))
  {
    ConsumeStep(moves, p, groups, len, maxDefinitionSize, k);
    NoMatchAtEnd(moves, groups);
  }

  /** The corrected search finds the groups "F" and "L" for "FL". */
  lemma CorrectedFindsLastGroup()
    ensures Search("FL", 0, [], 0, 3, 20, true) == Some(["F", "L"])
  {
    FLText();
    DefinitionOfF();
    NoGroupsYet("FL", 0, 3, 20, true);
    FLConsumeF();
    CorrectedAddsLastGroup();
    SearchAfterConsume("FL", 0, ["F"], 0, 3, 20, true, 1, 1);
    assert [] + ["F"] == ["F"];
    assert !Extended([], "F");
  }

  // ---------------------------------------------------------------------------
  // `caculate_movement_routines`

  /** `match r` with `main` put in front of a successful result. */
  function Prepend(main: seq<nat>, r: Option<seq<nat>>): Option<seq<nat>> {
    match r
    case None => None
    case Some(rest) => Some(main + rest)
  }

  /** The main routine loop: repeatedly the first group, in order, that the
      remaining moves start with; `None` stands for its `AssertionError`. */
  function Greedy(moves: string, groups: seq<string>): (r: Option<seq<nat>>)
    requires NonEmptyGroups(groups)
    ensures r.Some? ==> Decomposes(groups, r.value, moves)
    decreases |moves|
  {
    if moves == [] then Some([])
    else
      match FirstMatch(moves, 0, groups)
      case None => None
      case Some(k) =>
        match Greedy(moves[|groups[k]|..], groups)
        case None => None
        case Some(main) =>
          MatchedSlice(moves, groups[k], 0, |moves|);
          DecomposesCons(groups, k, main, moves[|groups[k]|..]);
          Some([k] + main)
  }

  /** The first group that matches is `k` when `k` matches and no group
      before it does. */
  lemma {:induction false} FirstMatchIs(s: string, p: int, groups: seq<string>, k: nat)
    requires k < |groups| && Text.StartsWithAt(s, groups[k], p)
    requires forall j :: 0 <= j < k ==> !Text.StartsWithAt(s, groups[j], p)
    ensures FirstMatch(s, p, groups) == Some(k)
  {
    if k > 0 {
      assert !Text.StartsWithAt(s, groups[0], p);
      FirstMatchIs(s, p, groups[1..], k - 1);
    }
  }

  /** Prefix-free groups decode uniquely: whatever main routine spells the
      moves, the main routine loop finds exactly it, so with the groups of
      `group_moves` its `AssertionError` cannot happen. */
  lemma {:induction false} PrefixCodeUnique(groups: seq<string>, main: seq<nat>, s: string)
    requires PrefixFree(groups) && NonEmptyGroups(groups) && Decomposes(groups, main, s)
    ensures Greedy(s, groups) == Some(main)
    decreases |main|
  {
    if main != [] {
      var g := groups[main[0]];
      var rest := Concat(groups, main[1..]);
      assert s == g + rest;
      assert Text.StartsWithAt(s, g, 0) by {
        assert s[0..] == s;
      }
      FirstMatchNone(s, 0, groups);
      var k := FirstMatch(s, 0, groups).value;
      OnlyMatch(s, 0, groups, k, main[0]);
      assert s[|g|..] == rest;
      PrefixCodeUnique(groups, main[1..], rest);
      assert [k] + main[1..] == main;
    }
  }

  /** The `while moves` loop of `caculate_movement_routines`, with the groups
      as the dictionary's values in the order A, B, C. */
  method MainRoutine(moves: string, groups: seq<string>) returns (r: Option<seq<nat>>)
    requires NonEmptyGroups(groups)
    ensures r == Greedy(moves, groups)
  {
    var rest := moves;
    var main: seq<nat> := [];
    assert forall m: seq<nat> :: [] + m == m;
    while rest != []
      invariant Greedy(moves, groups) == Prepend(main, Greedy(rest, groups))
      decreases |rest|
    {
      var k := 0;
      while k < |groups| && !Text.StartsWithAt(rest, groups[k], 0)
        invariant 0 <= k <= |groups|
        invariant forall j :: 0 <= j < k ==> !Text.StartsWithAt(rest, groups[j], 0)
      {
        k := k + 1;
      }
      if k == |groups| {
        return None;
      }
      FirstMatchIs(rest, 0, groups, k);
      assert forall m :: main + ([k] + m) == (main + [k]) + m;
      main := main + [k];
      rest := rest[|groups[k]|..];
    }
    assert main + [] == main;
    return Some(main);
  }

  /** The routine names A, B and C. */
  const RoutineNames: seq<string> := ["A", "B", "C"]

  /** The main routine's names. */
  function Names(main: seq<nat>): (r: seq<string>)
    requires forall k :: 0 <= k < |main| ==> main[k] < 3
    ensures |r| == |main| && forall k :: 0 <= k < |main| ==> r[k] == RoutineNames[main[k]]
  {
    if main == [] then [] else [RoutineNames[main[0]]] + Names(main[1..])
  }

  /** The main routine's text has one letter per step and a comma between
      steps, so a routine of `n` steps takes `2 * n - 1` characters. */
  lemma {:induction false} MainRoutineLength(main: seq<nat>)
    requires forall k :: 0 <= k < |main| ==> main[k] < 3
    ensures |Text.Join(Names(main), ',')| == if main == [] then 0 else 2 * |main| - 1
    decreases |main|
  {
    if |main| > 1 {
      MainRoutineLength(main[1..]);
      assert Names(main)[1..] == Names(main[1..]);
    }
  }

  datatype RoutineError =
    | NoGrouping   // `zip` over the `None` of `group_moves`: a `TypeError`
    | MissingGroup // `moves_definition([])` for a name without a group: a `TypeError`

  /** `moves_definition(groups.get(name, []))` as written: a name without a
      group fails. */
  function GroupDefinitionAsWritten(groups: seq<string>, k: nat): (r: Result<string, RoutineError>)
    requires forall j :: 0 <= j < |groups| ==> IsMoves(groups[j])
    ensures r.Failure? <==> k >= |groups|
  {
    if k < |groups| then Success(Definition(groups[k])) else Failure(MissingGroup)
  }

  /** `moves_definition(groups.get(name, ''))`: a name without a group has an
      empty definition. */
  function GroupDefinition(groups: seq<string>, k: nat): (r: string)
    requires forall j :: 0 <= j < |groups| ==> IsMoves(groups[j])
    ensures k < |groups| ==> GroupDefinitionAsWritten(groups, k) == Success(r)
    ensures k >= |groups| ==> r == []
  {
    if k < |groups| then Definition(groups[k]) else ""
  }

  /** The facts about the moves "FF" the searches below need. */
  lemma FFText()
    ensures IsMoves("FF") && |"FF"| == 2 && "FF"[0..1] == "F"
    ensures Text.StartsWithAt("FF", "F", 0) && Text.StartsWithAt("FF", "F", 1) && !Text.StartsWithAt("FF", "F", 2)
  {
    assert "FF"[0..] == "FF" && "FF"[1..] == "F" && "FF"[2..] == "";
  }

  /** The group "F" consumes all of "FF" in two steps, with or without the
      correction of the group lengths. */
  lemma GroupUsedTwice(wholeRest: bool)
    ensures Search("FF", 0, ["F"], 0, 3, 20, wholeRest) == Some(["F"])
  {
    FFText();
    FirstMatchIs("FF", 0, ["F"], 0);
    ConsumeStep("FF", 0, ["F"], 0, 20, 0);
    FirstMatchIs("FF", 1, ["F"], 0);
    ConsumeStep("FF", 1, ["F"], 1, 20, 0);
    FirstMatchNone("FF", 2, ["F"]);
    assert Consume("FF", 2, ["F"], 2, 20) == Some((2, 2));
    SearchAfterConsume("FF", 0, ["F"], 0, 3, 20, wholeRest, 2, 2);
  }

  /** On "FF" the search needs only the group "F", twice. */
  lemma OneGroupSuffices(wholeRest: bool)
    ensures Search("FF", 0, [], 0, 3, 20, wholeRest) == Some(["F"])
  {
    FFText();
    DefinitionOfF();
    NoGroupsYet("FF", 0, 3, 20, wholeRest);
    GroupUsedTwice(wholeRest);
    assert [] + ["F"] == ["F"];
    assert !Extended([], "F");
  }

  /** `group_moves("FF")` as written finds the single group "F"; the
      definitions as written then fail for B, while the corrected ones are
      "1", "" and "". */
  lemma AsWrittenMissingGroup()
    ensures GroupMovesAsWritten("FF") == Some(["F"])
    ensures GroupDefinitionAsWritten(GroupMovesAsWritten("FF").value, 0) == Success("1")
    ensures GroupDefinitionAsWritten(GroupMovesAsWritten("FF").value, 1) == Failure(MissingGroup)
    ensures Search("FF", 0, [], 0, 3, 20, true) == Some(["F"])
    ensures [GroupDefinition(["F"], 0), GroupDefinition(["F"], 1), GroupDefinition(["F"], 2)] == ["1", "", ""]
  {
    OneGroupSuffices(false);
    OneGroupSuffices(true);
    DefinitionOfF();
  }

  /** `routines` are the main routine naming `groups` so that they spell
      the moves, followed by the definitions of the groups A, B and C. */
  ghost predicate Spells(moves: string, groups: seq<string>, main: seq<nat>, routines: seq<string>) {
    |groups| <= 3 && (forall j :: 0 <= j < |groups| ==> IsMoves(groups[j])) &&
    Decomposes(groups, main, moves) && |routines| == 4 && routines[0] == Text.Join(Names(main), ',') &&
    routines[1..] == [GroupDefinition(groups, 0), GroupDefinition(groups, 1), GroupDefinition(groups, 2)]
  }

  /** Routines built from groups of short definitions and a short main
      routine fit the robot's 20 characters each. */
  lemma RoutinesFit(moves: string, groups: seq<string>, main: seq<nat>, routines: seq<string>)
    requires Spells(moves, groups, main, routines) && (|main| == 0 || |main| * 2 - 1 <= 20)
    requires forall j :: 0 <= j < |groups| ==> |Definition(groups[j])| <= 20
    ensures forall k :: 0 <= k < 4 ==> |routines[k]| <= 20
  {
    MainRoutineLength(main);
    assert routines[1] == GroupDefinition(groups, 0);
    assert routines[2] == GroupDefinition(groups, 1);
    assert routines[3] == GroupDefinition(groups, 2);
  }

  /** `caculate_movement_routines(moves)` with the corrected search and the
      corrected definitions: the main routine and the routines A, B and C,
      each within the robot's 20 characters, the main routine spelling the
      moves through the groups. */
  method CalculateMovementRoutines(moves: string) returns (r: Result<seq<string>, RoutineError>)
    requires IsMoves(moves)
    ensures r.Failure? <==> Search(moves, 0, [], 0, 3, 20, true).None?
    ensures r.Failure? ==> r.error == NoGrouping
    ensures r.Success? ==> |r.value| == 4 && forall k :: 0 <= k < 4 ==> |r.value[k]| <= 20
    ensures r.Success? ==> exists groups: seq<string>, main: seq<nat> ::
      Search(moves, 0, [], 0, 3, 20, true) == Some(groups) && Spells(moves, groups, main, r.value)
  {
    var found := GroupMoves(moves, 0, [], 0, 3, 20);
    if found.None? {
      return Failure(NoGrouping);
    }
    var groups := found.value;
    SearchSound(moves, 0, [], 0, 3, 20, true);
    assert Covers(groups, moves, 0, 0, 20);
    var spelled :| Decomposes(groups, spelled, moves) && (|spelled| == 0 || |spelled| * 2 - 1 <= 20);
    PrefixCodeUnique(groups, spelled, moves);
    var main := MainRoutine(moves, groups);
    assert main == Some(spelled);
    var text := Text.Join(Names(spelled), ',');
    var definitions := RoutineDefinitions(groups);
    var routines := [text] + definitions;
    assert routines[1..] == definitions;
    assert Spells(moves, groups, spelled, routines);
    RoutinesFit(moves, groups, spelled, routines);
    r := Success(routines);
  }

  /** The loop `for name in 'ABC'` of `caculate_movement_routines`, with the
      corrected default. */
  method RoutineDefinitions(groups: seq<string>) returns (definitions: seq<string>)
    requires forall j :: 0 <= j < |groups| ==> IsMoves(groups[j])
    ensures definitions == [GroupDefinition(groups, 0), GroupDefinition(groups, 1), GroupDefinition(groups, 2)]
  {
    definitions := [];
    for k := 0 to 3
      invariant |definitions| == k
      invariant forall j :: 0 <= j < k ==> definitions[j] == GroupDefinition(groups, j)
    {
      var d := "";
      if k < |groups| {
        d := MovesDefinition(groups[k]);
      }
      definitions := definitions + [d];
    }
  }


}
