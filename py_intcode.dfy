/** The resumable Intcode engine of python/src/intcode.py: an object whose
    interpreter runs as a suspended generator, driven through `start`,
    `write_input` and `read_output` under a state protocol. */
module PyIntcode {
  import opened Wrappers
  import opened PyIntcodeCore

  /** `_IntcodeState`. */
  datatype State = NotStarted | OutputReady | WaitingForInput | Intermediate | Finished

  /** The `IntcodeError`s raised by `_assert_state`. */
  datatype ProtocolError =
    | AlreadyStarted
    | NotYetStarted
    | AlreadyFinished
    | NotExpectingInput
    | NotProvidingOutput
    | UnexpectedState(actual: State, expected: State)

  /** `_assert_state`: no error exactly when the engine is in the expected
      state; otherwise the first matching message, in the source's order. */
  function StateError(expected: State, actual: State): (e: Option<ProtocolError>)
    ensures e.None? <==> expected == actual
    ensures e == Some(AlreadyStarted) <==> expected == NotStarted && actual != NotStarted
    ensures e == Some(AlreadyFinished) ==> actual == Finished
  {
    if actual == expected then None
    else if expected == NotStarted then Some(AlreadyStarted)
    else if actual == NotStarted then Some(NotYetStarted)
    else if actual == Finished then Some(AlreadyFinished)
    else if expected == WaitingForInput then Some(NotExpectingInput)
    else if expected == OutputReady then Some(NotProvidingOutput)
    else Some(UnexpectedState(actual, expected))
  }

  /** An `Intcode` object as a value: `_state`; whether `_generator` can still
      be resumed; the generator's `p` and `relative_base` with the memory it
      shares with `self.memory`; and the local `v` of a suspended opcode 4. */
  datatype Engine = Engine(state: State, alive: bool, at: Machine, pending: int)

  /** `Intcode(opcodes)`. */
  function Initial(opcodes: seq<int>): Engine {
    Engine(NotStarted, false, Machine(Load(opcodes), 0, 0), 0)
  }

  /** How a call returns: normally, with an `IntcodeError`, with a fault raised
      inside the generator, or cut off by the fuel bound. */
  datatype Outcome = Done | Refused(error: ProtocolError) | Faulted(fault: Fault) | OutOfFuel

  /** The engine after the generator ran to `pause`, `e.state` being the state
      it had while running. `_step` turns `StopIteration` into FINISHED; a
      fault leaves `_state` as it was and the generator dead. */
  function Settle(e: Engine, pause: Pause): (Engine, Outcome) {
    match pause
    case AwaitInput(m) => (Engine(WaitingForInput, true, m, e.pending), Done)
    case HasOutput(m, v) => (Engine(OutputReady, true, m, v), Done)
    case Halted(m) => (Engine(Finished, false, m, e.pending), Done)
    case Crashed(m, f) => (Engine(e.state, false, m, e.pending), Faulted(f))
    case Exhausted(m) => (Engine(Intermediate, true, m, e.pending), OutOfFuel)
  }

  /** What settling a run from `m` gives, by the first step taken. */
  lemma SettleStep(start: Engine, m: Machine, n: nat)
    ensures n == 0 ==> Settle(start, Run(m, n)) == (Engine(Intermediate, true, m, start.pending), OutOfFuel)
    ensures n > 0 && Exec(m).Continue? ==> Settle(start, Run(m, n)) == Settle(start, Run(Exec(m).next, n - 1))
    ensures n > 0 && Exec(m).InputRequest? ==> Settle(start, Run(m, n)) == (Engine(WaitingForInput, true, m, start.pending), Done)
    ensures n > 0 && Exec(m).OutputCaptured? ==> Settle(start, Run(m, n)) == (Engine(OutputReady, true, m, Exec(m).value), Done)
    ensures n > 0 && Exec(m).Halt? ==> Settle(start, Run(m, n)) == (Engine(Finished, false, m, start.pending), Done)
    ensures n > 0 && Exec(m).Crash? ==> Settle(start, Run(m, n)) == (Engine(start.state, false, m, start.pending), Faulted(Exec(m).fault))
  {
  }

  /** `start()`: a fresh generator from address 0, run to its first pause. */
  function StartSpec(e: Engine, fuel: nat): (Engine, Outcome) {
    match StateError(NotStarted, e.state)
    case Some(err) => (e, Refused(err))
    case None => Settle(e, Run(Machine(e.at.mem, 0, 0), fuel))
  }

  /** `write_input(value)`: resumes opcode 3 with `value`. Sending to a
      generator that died raises `StopIteration`, which finishes the engine. */
  function WriteInputSpec(e: Engine, value: int, fuel: nat): (Engine, Outcome) {
    match StateError(WaitingForInput, e.state)
    case Some(err) => (e, Refused(err))
    case None =>
      if !e.alive then (e.(state := Finished), Done)
      else
        match ResumeInput(e.at, value)
        case Failure(f) => (e.(alive := false), Faulted(f))
        case Success(m) => Settle(e, Run(m, fuel))
  }

  /** `read_output()`: takes the captured value, then resumes past opcode 4;
      the value is returned only when the call completes (`Done`). */
  function ReadOutputSpec(e: Engine, fuel: nat): (Engine, Outcome, int) {
    match StateError(OutputReady, e.state)
    case Some(err) => (e, Refused(err), 0)
    case None =>
      var r := Settle(e.(state := Intermediate), Run(ResumeOutput(e.at), fuel));
      (r.0, r.1, e.pending)
  }

  /** What the state promises about the suspended generator: waiting for input
      means suspended on opcode 3 (or dead), output ready means suspended on
      opcode 4 holding its `read(1)`, finished means dead. */
  predicate Consistent(e: Engine) {
    && (e.state == OutputReady ==> e.alive && Exec(e.at) == OutputCaptured(e.pending))
    && (e.state == WaitingForInput && e.alive ==> Exec(e.at) == InputRequest)
    && (e.state == Finished ==> !e.alive)
    && (e.state == NotStarted ==> !e.alive)
  }

  lemma SettleConsistent(e: Engine, m: Machine, fuel: nat)
    requires e.state in {NotStarted, WaitingForInput, Intermediate}
    ensures Consistent(Settle(e, Run(m, fuel)).0)
  {
    RunPausesAtCause(m, fuel);
  }

  /** Every operation keeps the engine consistent. */
  lemma OperationsKeepConsistent(e: Engine, value: int, fuel: nat)
    requires Consistent(e)
    ensures Consistent(StartSpec(e, fuel).0)
    ensures Consistent(WriteInputSpec(e, value, fuel).0)
    ensures Consistent(ReadOutputSpec(e, fuel).0)
  {
    if e.state == NotStarted {
      SettleConsistent(e, Machine(e.at.mem, 0, 0), fuel);
    }
    if e.state == WaitingForInput && e.alive && ResumeInput(e.at, value).Success? {
      SettleConsistent(e, ResumeInput(e.at, value).value, fuel);
    }
    if e.state == OutputReady {
      SettleConsistent(e.(state := Intermediate), ResumeOutput(e.at), fuel);
    }
  }

  /** An operation called in the wrong state raises `IntcodeError` and changes
      nothing; in the right state it never does. */
  lemma WrongStateRefused(e: Engine, value: int, fuel: nat)
    ensures StartSpec(e, fuel).1.Refused? <==> e.state != NotStarted
    ensures e.state != NotStarted ==> StartSpec(e, fuel).0 == e
    ensures WriteInputSpec(e, value, fuel).1.Refused? <==> e.state != WaitingForInput
    ensures e.state != WaitingForInput ==> WriteInputSpec(e, value, fuel).0 == e
    ensures ReadOutputSpec(e, fuel).1.Refused? <==> e.state != OutputReady
    ensures e.state != OutputReady ==> ReadOutputSpec(e, fuel).0 == e
  {
  }

  /** The state checks of `write_input` and `read_output`, for every value
      and bound: which state each call accepts, and that a finished engine
      is refused as finished. */
  lemma StateGates(e: Engine)
    ensures forall value, fuel: nat ::
      (e.state == Finished <==> WriteInputSpec(e, value, fuel).1 == Refused(AlreadyFinished)) &&
      (e.state == WaitingForInput <==> !WriteInputSpec(e, value, fuel).1.Refused?)
    ensures forall fuel: nat ::
      (e.state == Finished <==> ReadOutputSpec(e, fuel).1 == Refused(AlreadyFinished)) &&
      (e.state == OutputReady <==> !ReadOutputSpec(e, fuel).1.Refused?)
  {
    forall value, fuel: nat
      ensures e.state == Finished <==> WriteInputSpec(e, value, fuel).1 == Refused(AlreadyFinished)
      ensures e.state == WaitingForInput <==> !WriteInputSpec(e, value, fuel).1.Refused?
    {
      WrongStateRefused(e, value, fuel);
    }
    forall fuel: nat
      ensures e.state == Finished <==> ReadOutputSpec(e, fuel).1 == Refused(AlreadyFinished)
      ensures e.state == OutputReady <==> !ReadOutputSpec(e, fuel).1.Refused?
    {
      WrongStateRefused(e, 0, fuel);
    }
  }

  /** A call that completes leaves the engine at a point the caller can act on:
      finished, with output, or requiring input. */
  lemma CompletedCallIsObservable(e: Engine, value: int, fuel: nat)
    ensures StartSpec(e, fuel).1 == Done ==>
      StartSpec(e, fuel).0.state in {Finished, OutputReady, WaitingForInput}
    ensures WriteInputSpec(e, value, fuel).1 == Done ==>
      WriteInputSpec(e, value, fuel).0.state in {Finished, OutputReady, WaitingForInput}
    ensures ReadOutputSpec(e, fuel).1 == Done ==>
      ReadOutputSpec(e, fuel).0.state in {Finished, OutputReady, WaitingForInput}
  {
  }

  /** The program `3,0,4,0,99` echoes its input. */
  lemma EchoProgram(x: int, fuel: nat)
    requires fuel >= 1
    ensures var (e1, o1) := StartSpec(Initial([3, 0, 4, 0, 99]), fuel);
      && o1 == Done && e1.state == WaitingForInput
      && var (e2, o2) := WriteInputSpec(e1, x, fuel);
      && o2 == Done && e2.state == OutputReady
      && var (e3, o3, y) := ReadOutputSpec(e2, fuel);
      && o3 == Done && y == x && e3.state == Finished
  {
    var mem := Load([3, 0, 4, 0, 99]);
    assert ModeChar(3, 1) == '0';
    assert ModeChar(4, 1) == '0';
    assert Exec(Machine(mem, 0, 0)) == InputRequest;
    var m1 := Machine(mem[0 := x], 2, 0);
    assert ResumeInput(Machine(mem, 0, 0), x) == Success(m1);
    assert Exec(m1) == OutputCaptured(x);
    assert Exec(Machine(mem[0 := x], 4, 0)) == Halt;
  }

  /** A program starting with 99 finishes on `start()` without pausing. */
  lemma HaltAtStart(rest: seq<int>, fuel: nat)
    requires fuel >= 1
    ensures StartSpec(Initial([99] + rest), fuel).0.state == Finished
    ensures StartSpec(Initial([99] + rest), fuel).1 == Done
  {
    assert Load([99] + rest)[0] == 99;
  }

  /** Values are unbounded: `104,1125899906842624,99` outputs its large literal. */
  lemma LargeImmediateOutput(fuel: nat)
    requires fuel >= 1
    ensures var (e1, o1) := StartSpec(Initial([104, 1125899906842624, 99]), fuel);
      && o1 == Done && e1.state == OutputReady
      && var (e2, o2, y) := ReadOutputSpec(e1, fuel);
      && o2 == Done && y == 1125899906842624 && e2.state == Finished
  {
    var mem := Load([104, 1125899906842624, 99]);
    assert ModeChar(104, 1) == '1';
    assert Exec(Machine(mem, 0, 0)) == OutputCaptured(1125899906842624);
    assert Exec(Machine(mem, 2, 0)) == Halt;
  }

  /** `1102,34915192,34915192,7,4,7,99,0` outputs the 16-digit product. */
  lemma LargeProduct(fuel: nat)
    requires fuel >= 2
    ensures var (e1, o1) := StartSpec(Initial([1102, 34915192, 34915192, 7, 4, 7, 99, 0]), fuel);
      && o1 == Done && e1.state == OutputReady && e1.pending == 1219070632396864
  {
    var mem := Load([1102, 34915192, 34915192, 7, 4, 7, 99, 0]);
    assert ModeChar(1102, 1) == '1' && ModeChar(1102, 2) == '1' && ModeChar(1102, 3) == '0';
    assert ModeChar(4, 1) == '0';
    var m1 := Machine(mem[7 := 1219070632396864], 4, 0);
    assert Exec(Machine(mem, 0, 0)) == Continue(m1);
    assert Exec(m1) == OutputCaptured(1219070632396864);
    assert Run(Machine(mem, 0, 0), fuel) == Run(m1, fuel - 1) == HasOutput(m1, 1219070632396864);
  }

  /** `Intcode`. Its generator's locals live in `p`, `relativeBase` and `pending`. */
  class Intcode {
    const memory: InfiniteMemory
    var state: State
    var alive: bool
    var p: int
    var relativeBase: int
    var pending: int

    ghost function Snapshot(): Engine
      reads this, memory
    {
      Engine(state, alive, Machine(memory.data, p, relativeBase), pending)
    }

    constructor (opcodes: seq<int>)
      ensures Snapshot() == Initial(opcodes)
      ensures fresh(memory)
    {
      memory := new InfiniteMemory(opcodes);
      state := NotStarted;
      alive := false;
      p, relativeBase, pending := 0, 0, 0;
    }

    /** The `finished` property: it holds exactly when `write_input` and
        `read_output` would raise "already finished". */
    predicate IsFinished()
      reads this, memory
      ensures forall value, fuel: nat ::
        IsFinished() <==> WriteInputSpec(Snapshot(), value, fuel).1 == Refused(AlreadyFinished)
      ensures forall fuel: nat ::
        IsFinished() <==> ReadOutputSpec(Snapshot(), fuel).1 == Refused(AlreadyFinished)
    {
      StateGates(Snapshot());
      state == Finished
    }

    /** The `has_output` property: it holds exactly when `read_output` passes
        its state check. */
    predicate HasOutput()
      reads this, memory
      ensures forall fuel: nat :: HasOutput() <==> !ReadOutputSpec(Snapshot(), fuel).1.Refused?
    {
      StateGates(Snapshot());
      state == OutputReady
    }

    /** The `requires_input` property: it holds exactly when `write_input`
        passes its state check. */
    predicate RequiresInput()
      reads this, memory
      ensures forall value, fuel: nat :: RequiresInput() <==> !WriteInputSpec(Snapshot(), value, fuel).1.Refused?
    {
      StateGates(Snapshot());
      state == WaitingForInput
    }

    /** Resumes the generator and runs it to its next pause. */
    method Drive(fuel: nat) returns (outcome: Outcome)
      modifies this, memory
      ensures (Snapshot(), outcome) == Settle(old(Snapshot()), Run(old(Snapshot().at), fuel))
    {
      ghost var start := Snapshot();
      var n := fuel;
      ghost var cur := start.at;
      while true
        invariant Snapshot() == Engine(start.state, start.alive, cur, start.pending)
        invariant Run(cur, n) == Run(start.at, fuel)
        decreases n
      {
        var paused := Advance(start, cur, n);
        if paused.Some? {
          return paused.value;
        }
        n := n - 1;
        cur := Snapshot().at;
      }
    }

    /** One pass of the generator's loop with `n` steps of fuel left: the
        instruction at `p` executed, or the engine settled at the pause it
        causes (`None` when the loop goes on). */
    method Advance(ghost start: Engine, ghost cur: Machine, n: nat) returns (paused: Option<Outcome>)
      requires Snapshot() == Engine(start.state, start.alive, cur, start.pending)
      modifies this, memory
      ensures paused.None? ==> n > 0 && Snapshot() == Engine(start.state, start.alive, Snapshot().at, start.pending)
      ensures paused.None? ==> Run(Snapshot().at, n - 1) == Run(cur, n)
      ensures paused.Some? ==> (Snapshot(), paused.value) == Settle(start, Run(cur, n))
    {
      var m := Machine(memory.data, p, relativeBase);
      SettleStep(start, m, n);
      if n == 0 {
        state, alive := Intermediate, true;
        return Some(OutOfFuel);
      }
      match Exec(m)
      case Continue(next) =>
        memory.data := next.mem;
        p, relativeBase := next.p, next.rb;
        return None;
      case InputRequest =>
        state, alive := WaitingForInput, true;
        return Some(Done);
      case OutputCaptured(v) =>
        state, alive, pending := OutputReady, true, v;
        return Some(Done);
      case Halt =>
        state, alive := Finished, false;
        return Some(Done);
      case Crash(f) =>
        alive := false;
        return Some(Faulted(f));
    }

    /** `start()`. */
    method Start(fuel: nat) returns (outcome: Outcome)
      modifies this, memory
      ensures (Snapshot(), outcome) == StartSpec(old(Snapshot()), fuel)
    {
      var err := StateError(NotStarted, state);
      if err.Some? {
        return Refused(err.value);
      }
      p, relativeBase := 0, 0;
      outcome := Drive(fuel);
    }

    /** `write_input(value)`. */
    method WriteInput(value: int, fuel: nat) returns (outcome: Outcome)
      modifies this, memory
      ensures (Snapshot(), outcome) == WriteInputSpec(old(Snapshot()), value, fuel)
    {
      var err := StateError(WaitingForInput, state);
      if err.Some? {
        return Refused(err.value);
      }
      if !alive {
        state := Finished;
        return Done;
      }
      match ResumeInput(Machine(memory.data, p, relativeBase), value)
      case Failure(f) =>
        alive := false;
        return Faulted(f);
      case Success(m) =>
        memory.data := m.mem;
        p := m.p;
        outcome := Drive(fuel);
    }

    /** `read_output()`. */
    method ReadOutput(fuel: nat) returns (outcome: Outcome, value: int)
      modifies this, memory
      ensures (Snapshot(), outcome, value) == ReadOutputSpec(old(Snapshot()), fuel)
    {
      var err := StateError(OutputReady, state);
      if err.Some? {
        return Refused(err.value), 0;
      }
      value := pending;
      state := Intermediate;
      p := p + 2;
      outcome := Drive(fuel);
    }
  }
}
