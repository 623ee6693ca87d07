/** The hull painting robot of solve11.py. The Intcode program that drives it
    is `brain`: a deterministic program answers a value sent to it in a way
    fixed by all the values sent so far, so `brain(sent)` is its reply to the
    last of `sent` — a value, nothing yet (`None`), or the end of the program
    (`StopIteration`). The robot sends the colour of the panel under it,
    paints the panel with the first value it gets back, and turns and steps
    with the second. */
module Painting {
  /** A panel of the hull. */
  type Panel = (int, int)

  /** `DIRECTIONS`: up, right, down, left. */
  const Directions: seq<(int, int)> := [(0, 1), (1, 0), (0, -1), (-1, 0)]

  datatype Reply =
    | Output(value: int)  // a value
    | NoOutput            // `None`: the program asks for another input first
    | Halted              // `StopIteration`

  datatype Read = Value(value: int) | Stopped | OutOfFuel

  /** `hul.get(position, 0)`: panels never painted are black. */
  function PanelColour(hul: map<Panel, int>, position: Panel): int {
    if position in hul then hul[position] else 0
  }

  /** `n` copies of the colour sent. */
  function Sends(colour: int, n: nat): (s: seq<int>)
    ensures |s| == n && forall i :: 0 <= i < n ==> s[i] == colour
  {
    seq(n, _ => colour)
  }

  lemma SendsStep(sent: seq<int>, colour: int, n: nat)
    ensures sent + [colour] + Sends(colour, n) == sent + Sends(colour, n + 1)
  {
  }

  /** The outcome of `_read_value`: how many times the colour was sent, and
      what came back. */
  datatype ReadResult = ReadResult(count: nat, read: Read)

  /** `_read_value` after `sent`: send `colour` until the program answers
      with a value or stops; `fuel` bounds the number of sends. */
  function ReadFrom(brain: seq<int> -> Reply, sent: seq<int>, colour: int, fuel: nat): (r: ReadResult)
    ensures r.count <= fuel
    ensures r.read != OutOfFuel ==> r.count >= 1
    ensures r.read == OutOfFuel ==> r.count == fuel
    decreases fuel
  {
    if fuel == 0 then ReadResult(0, OutOfFuel)
    else
      var next := sent + [colour];
      match brain(next)
      case Output(v) => ReadResult(1, Value(v))
      case Halted => ReadResult(1, Stopped)
      case NoOutput => var r := ReadFrom(brain, next, colour, fuel - 1); ReadResult(r.count + 1, r.read)
  }

  /** The read ends with the first answer that is not `None`: every send
      before it got nothing back. */
  lemma {:induction false} ReadFromAnswers(brain: seq<int> -> Reply, sent: seq<int>, colour: int, fuel: nat)
    ensures var r := ReadFrom(brain, sent, colour, fuel);
      (r.read.Value? ==> brain(sent + Sends(colour, r.count)) == Output(r.read.value)) &&
      (r.read == Stopped ==> brain(sent + Sends(colour, r.count)) == Halted) &&
      forall m :: 1 <= m <= r.count && (m < r.count || r.read == OutOfFuel) ==>
        brain(sent + Sends(colour, m)) == NoOutput
    decreases fuel
  {
    if fuel > 0 {
      var next := sent + [colour];
      assert next == sent + Sends(colour, 1);
      if brain(next).NoOutput? {
        var r := ReadFrom(brain, next, colour, fuel - 1);
        ReadFromAnswers(brain, next, colour, fuel - 1);
        forall m | 0 <= m <= r.count
          ensures next + Sends(colour, m) == sent + Sends(colour, m + 1)
        {
          SendsStep(sent, colour, m);
        }
        forall m | 2 <= m <= r.count + 1 && (m < r.count + 1 || r.read == OutOfFuel)
          ensures brain(sent + Sends(colour, m)) == NoOutput
        {
          assert brain(next + Sends(colour, m - 1)) == NoOutput;
        }
      }
    }
  }

  /** The result of a read that had already sent `n` times. */
  function Shift(r: ReadResult, n: nat): ReadResult {
    ReadResult(r.count + n, r.read)
  }

  /** One send of `_read_value`. */
  lemma ReadFromStep(brain: seq<int> -> Reply, sent: seq<int>, colour: int, fuel: nat)
    requires fuel > 0
    ensures var next := sent + [colour];
      ReadFrom(brain, sent, colour, fuel) ==
        match brain(next)
        case Output(v) => ReadResult(1, Value(v))
        case Halted => ReadResult(1, Stopped)
        case NoOutput => Shift(ReadFrom(brain, next, colour, fuel - 1), 1)
  {
  }

  /** The fields of the robot. */
  datatype RobotState = RobotState(sent: seq<int>, hul: map<Panel, int>, position: Panel, directionIndex: int)

  /** `_rotate(value)`: a truthy value turns right, a falsy one left, then the
      robot steps one panel the way it faces. */
  function Rotated(s: RobotState, value: int): (t: RobotState)
    requires 0 <= s.directionIndex < 4
    ensures 0 <= t.directionIndex < 4
    ensures value != 0 ==> t.directionIndex == if s.directionIndex == 3 then 0 else s.directionIndex + 1
    ensures value == 0 ==> t.directionIndex == if s.directionIndex == 0 then 3 else s.directionIndex - 1
    ensures t.position.0 == s.position.0 + Directions[t.directionIndex].0
    ensures t.position.1 == s.position.1 + Directions[t.directionIndex].1
    ensures t.sent == s.sent && t.hul == s.hul
  {
    var rotation := if value != 0 then 1 else -1;
    var d := (s.directionIndex + rotation) % 4;
    var (dx, dy) := Directions[d];
    s.(directionIndex := d, position := (s.position.0 + dx, s.position.1 + dy))
  }

  function Abs(a: int): nat { if a < 0 then -a else a }

  /** Every rotation moves the robot to a neighbouring panel, and a left turn
      undoes a right turn. */
  lemma RotatedSteps(s: RobotState, value: int)
    requires 0 <= s.directionIndex < 4
    ensures var t := Rotated(s, value);
      Abs(t.position.0 - s.position.0) + Abs(t.position.1 - s.position.1) == 1
    ensures Rotated(Rotated(s, 1), 0).directionIndex == s.directionIndex
    ensures Rotated(Rotated(Rotated(Rotated(s, 1), 1), 1), 1).directionIndex == s.directionIndex
  {
  }

  /** How a round of `paint` ended: go on, the program stopped, or a read ran
      out of fuel. */
  datatype Step = Continue | Finished | Exhausted

  function Ended(r: Read): Step {
    if r == Stopped then Finished else Exhausted
  }

  /** `hul` is `before` with panel `p` painted. */
  predicate PaintedAt(before: map<Panel, int>, hul: map<Panel, int>, p: Panel) {
    p in hul && hul == before[p := hul[p]]
  }

  /** `_read_value` on the robot: the colour of its panel is sent. */
  function AfterRead(brain: seq<int> -> Reply, s: RobotState, fuel: nat): (ReadResult, RobotState) {
    var colour := PanelColour(s.hul, s.position);
    var r := ReadFrom(brain, s.sent, colour, fuel);
    (r, s.(sent := s.sent + Sends(colour, r.count)))
  }

  /** One round of the loop of `paint`: read a colour and paint the panel
      under the robot with it, then read a turn and rotate. */
  function PaintRound(brain: seq<int> -> Reply, s: RobotState, fuel: nat): (result: (RobotState, Step))
    requires 0 <= s.directionIndex < 4
    ensures 0 <= result.0.directionIndex < 4
  {
    var (first, s1) := AfterRead(brain, s, fuel);
    if !first.read.Value? then (s1, Ended(first.read))
    else
      var s2 := s1.(hul := s1.hul[s1.position := first.read.value]);
      var (second, s3) := AfterRead(brain, s2, fuel);
      if !second.read.Value? then (s3, Ended(second.read))
      else (Rotated(s3, second.read.value), Continue)
  }

  /** A round only adds inputs; it paints the panel the robot stood on when
      it read a colour, and moves to a neighbouring panel only when it read a
      turn as well. */
  lemma PaintRoundEffect(brain: seq<int> -> Reply, s: RobotState, fuel: nat)
    requires 0 <= s.directionIndex < 4
    ensures var (t, step) := PaintRound(brain, s, fuel);
      |s.sent| <= |t.sent| && t.sent[..|s.sent|] == s.sent &&
      (t.hul == s.hul || PaintedAt(s.hul, t.hul, s.position)) &&
      (step == Continue ==> PaintedAt(s.hul, t.hul, s.position) &&
                            Abs(t.position.0 - s.position.0) + Abs(t.position.1 - s.position.1) == 1) &&
      (step != Continue ==> t.position == s.position && t.directionIndex == s.directionIndex)
  {
    var (first, s1) := AfterRead(brain, s, fuel);
    if first.read.Value? {
      var s2 := s1.(hul := s1.hul[s1.position := first.read.value]);
      var (second, s3) := AfterRead(brain, s2, fuel);
      if second.read.Value? {
        RotatedSteps(s3, second.read.value);
      }
    }
  }

  /** `paint()`: rounds until the program stops; `rounds` bounds them. */
  function PaintRun(brain: seq<int> -> Reply, s: RobotState, fuel: nat, rounds: nat): (result: (RobotState, Step))
    requires 0 <= s.directionIndex < 4
    ensures 0 <= result.0.directionIndex < 4
    decreases rounds
  {
    if rounds == 0 then (s, Exhausted)
    else
      var (t, step) := PaintRound(brain, s, fuel);
      if step == Continue then PaintRun(brain, t, fuel, rounds - 1) else (t, step)
  }

  lemma PaintRunStep(brain: seq<int> -> Reply, s: RobotState, fuel: nat, rounds: nat)
    requires 0 <= s.directionIndex < 4 && rounds > 0
    ensures PaintRun(brain, s, fuel, rounds) ==
      if PaintRound(brain, s, fuel).1 == Continue then PaintRun(brain, PaintRound(brain, s, fuel).0, fuel, rounds - 1)
      else PaintRound(brain, s, fuel)
  {
  }

  /** `paint` returns only once the program stops or a bound is reached;
      painted panels stay painted and inputs are only ever added. */
  lemma {:induction false} PaintRunEffect(brain: seq<int> -> Reply, s: RobotState, fuel: nat, rounds: nat)
    requires 0 <= s.directionIndex < 4
    ensures var (t, step) := PaintRun(brain, s, fuel, rounds);
      step != Continue && s.hul.Keys <= t.hul.Keys && |s.sent| <= |t.sent| && t.sent[..|s.sent|] == s.sent
    decreases rounds
  {
    if rounds > 0 {
      var (t, step) := PaintRound(brain, s, fuel);
      PaintRoundEffect(brain, s, fuel);
      if step == Continue {
        PaintRunEffect(brain, t, fuel, rounds - 1);
      }
    }
  }

  /** `EmergencyHulPaintingProgram`. */
  class PaintingRobot {
    const brain: seq<int> -> Reply
    var sent: seq<int>
    var hul: map<Panel, int>
    var position: Panel
    var directionIndex: int

    function State(): RobotState
      reads this
    {
      RobotState(sent, hul, position, directionIndex)
    }

    predicate Valid()
      reads this
    {
      0 <= directionIndex < 4
    }

    /** The constructor, after the program has been started. */
    constructor(brain: seq<int> -> Reply, hul: map<Panel, int>)
      ensures Valid() && this.brain == brain
      ensures State() == RobotState([], hul, (0, 0), 0)
    {
      this.brain := brain;
      sent := [];
      this.hul := hul;
      position := (0, 0);
      directionIndex := 0;
    }

    /** `_read_value()`. */
    method ReadValue(fuel: nat) returns (r: Read)
      modifies this
      ensures AfterRead(brain, old(State()), fuel).0.read == r
      ensures AfterRead(brain, old(State()), fuel).1 == State()
    {
      ghost var start := State();
      ghost var colour := PanelColour(hul, position);
      ghost var n := 0;
      var left := fuel;
      while true
        invariant n + left == fuel && sent == start.sent + Sends(colour, n)
        invariant hul == start.hul && position == start.position && directionIndex == start.directionIndex
        invariant ReadFrom(brain, start.sent, colour, fuel) == Shift(ReadFrom(brain, sent, colour, left), n)
        decreases left
      {
        if left == 0 {
          return OutOfFuel;
        }
        SendsStep(start.sent, colour, n);
        ReadFromStep(brain, sent, colour, left);
        sent := sent + [PanelColour(hul, position)];
        n, left := n + 1, left - 1;
        var reply := brain(sent);
        if reply.Output? {
          return Value(reply.value);
        } else if reply.Halted? {
          return Stopped;
        }
      }
    }

    /** `_rotate(value)`. */
    method Rotate(value: int)
      requires Valid()
      modifies this
      ensures Valid() && State() == Rotated(old(State()), value)
    {
      var rotation := if value != 0 then 1 else -1;
      directionIndex := (directionIndex + rotation) % 4;
      var (dx, dy) := Directions[directionIndex];
      position := (position.0 + dx, position.1 + dy);
    }

    /** One pass through the loop of `paint()`. */
    method PaintOnce(fuel: nat) returns (step: Step)
      requires Valid()
      modifies this
      ensures Valid() && (State(), step) == PaintRound(brain, old(State()), fuel)
    {
      ghost var s := State();
      var colour := ReadValue(fuel);
      ghost var s1 := State();
      if !colour.Value? {
        return Ended(colour);
      }
      hul := hul[position := colour.value];
      ghost var s2 := State();
      assert s2 == s1.(hul := s1.hul[s1.position := colour.value]);
      var rotation := ReadValue(fuel);
      if !rotation.Value? {
        return Ended(rotation);
      }
      Rotate(rotation.value);
      return Continue;
    }

    /** `paint()`, with at most `fuel` sends per read and `rounds` rounds. */
    method Paint(fuel: nat, rounds: nat) returns (step: Step)
      requires Valid()
      modifies this
      ensures Valid()
      ensures State() == PaintRun(brain, old(State()), fuel, rounds).0
      ensures step == PaintRun(brain, old(State()), fuel, rounds).1
    {
      ghost var target := PaintRun(brain, State(), fuel, rounds);
      var n := rounds;
      while n > 0
        invariant Valid() && PaintRun(brain, State(), fuel, n) == target
      {
        step := Pass(fuel, n);
        if step != Continue {
          return;
        }
        n := n - 1;
      }
      return Exhausted;
    }

    /** One pass through the loop of `paint()` with `rounds` rounds left: what
        is left of the run afterwards is what was left before it. */
    method Pass(fuel: nat, rounds: nat) returns (step: Step)
      requires Valid() && rounds > 0
      modifies this
      ensures Valid()
      ensures step == Continue ==> PaintRun(brain, State(), fuel, rounds - 1) == PaintRun(brain, old(State()), fuel, rounds)
      ensures step != Continue ==> (State(), step) == PaintRun(brain, old(State()), fuel, rounds)
    {
      PaintRunStep(brain, State(), fuel, rounds);
      step := PaintOnce(fuel);
    }
  }
}
