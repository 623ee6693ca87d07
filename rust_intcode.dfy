/** The Intcode engine of rust/src/intcode.rs: an explicit state machine over
    a sparse memory of `i64` values at `u64` addresses. Arithmetic follows a
    debug build: an overflowing `+` or `*` panics, while `as` casts between
    `i64` and `u64` reinterpret the bits. */
module RustIntcode {
  import opened Wrappers
  import Decimal
  import PyIntcodeCore

  const TWO_63: int := 0x8000_0000_0000_0000
  const TWO_64: int := 0x1_0000_0000_0000_0000

  /** `Value`. */
  type I64 = x: int | -TWO_63 <= x < TWO_63
  /** `Address`. */
  type U64 = x: int | 0 <= x < TWO_64

  /** `v as u64`. */
  function AsU64(v: I64): (a: U64)
    ensures a % TWO_64 == v % TWO_64
  {
    if v < 0 then v + TWO_64 else v
  }

  /** `a as i64`. */
  function AsI64(a: U64): (v: I64)
    ensures v % TWO_64 == a % TWO_64
  {
    if a >= TWO_63 then a - TWO_64 else a
  }

  /** The two casts are mutually inverse. */
  lemma CastsRoundTrip(v: I64, a: U64)
    ensures AsI64(AsU64(v)) == v
    ensures AsU64(AsI64(a)) == a
  {
  }

  /** Why the engine stops with `panic!`. */
  datatype Panic =
    | UnknownInstruction(code: U64)   // "Unknown instr code"
    | UnexpectedMode(digit: U64)      // "Unexpexted address mode"
    | ImmediateWrite                  // "Cannot write in immediate mode"
    | Overflow                        // arithmetic overflow of a debug build
    | NotInput                        // "Unexpected InputReady when instr is not Input"
    | CannotStep                      // "Cannot step in current state"
    | CannotReadOutput                // "Cannot read_output in current state"
    | CannotWriteInput                // "Cannot write_input in current state"

  /** Checked `i64` addition. */
  function AddI64(a: I64, b: I64): (r: Result<I64, Panic>)
    ensures r.Success? <==> -TWO_63 <= a + b < TWO_63
    ensures r.Success? ==> r.value == a + b
  {
    if -TWO_63 <= a + b < TWO_63 then Success(a + b) else Failure(Overflow)
  }

  /** Checked `i64` multiplication. */
  function MulI64(a: I64, b: I64): (r: Result<I64, Panic>)
    ensures r.Success? <==> -TWO_63 <= a * b < TWO_63
    ensures r.Success? ==> r.value == a * b
  {
    if -TWO_63 <= a * b < TWO_63 then Success(a * b) else Failure(Overflow)
  }

  /** Checked `u64` addition. */
  function AddU64(a: U64, b: nat): (r: Result<U64, Panic>)
    ensures r.Success? <==> a + b < TWO_64
    ensures r.Success? ==> r.value == a + b
  {
    if a + b < TWO_64 then Success(a + b) else Failure(Overflow)
  }

  type Memory = map<U64, I64>

  /** `InfiniteMemory::new`: the image at addresses 0..N-1. */
  function Load(image: seq<I64>): (mem: Memory)
    requires |image| <= TWO_64
    ensures forall a: U64 :: a in mem <==> a < |image|
  {
    map a: U64 | a < |image| :: image[a]
  }

  /** `InfiniteMemory::get`. */
  function Peek(mem: Memory, index: U64): I64 {
    if index in mem then mem[index] else 0
  }

  /** Reading an absent address gives 0, and a `set` is read back by `get`
      at its address and invisible at every other. */
  lemma MemoryLaws(image: seq<I64>, mem: Memory, a: U64, b: U64, v: I64)
    requires |image| <= TWO_64
    ensures Peek(Load(image), a) == if a < |image| then image[a] else 0
    ensures Peek(mem[a := v], a) == v
    ensures b != a ==> Peek(mem[a := v], b) == Peek(mem, b)
  {
  }

  /** `IntCodeState`. */
  datatype RState = Ready | Finished | AwaitingInput | InputReady(value: I64) | OutputReady(value: I64)

  /** The fields of `IntCode` as a value. */
  datatype Core = Core(mem: Memory, state: RState, ip: U64, rb: U64)

  /** `IntCode::new`. */
  function New(image: seq<I64>): Core
    requires |image| <= TWO_64
  {
    Core(Load(image), Ready, 0, 0)
  }

  /** `Reference`. */
  datatype Reference = Position(address: U64) | Immediate(value: I64)

  /** The mode digit of parameter `index`: `(v as u64 / 100) / 10^(index-1) % 10`. */
  function ModeDigit(c: Core, index: nat): U64
    requires 1 <= index
  {
    AsU64(Peek(c.mem, c.ip)) / 100 / Decimal.Pow10(index - 1) % 10
  }

  /** `get_reference(index)`. */
  function GetReference(c: Core, index: nat): Result<Reference, Panic>
    requires 1 <= index
  {
    var digit := ModeDigit(c, index);
    if digit > 2 then Failure(UnexpectedMode(digit))
    else
      var at :- AddU64(c.ip, index);
      var val := Peek(c.mem, at);
      if digit == 0 then Success(Position(AsU64(val)))
      else if digit == 1 then Success(Immediate(val))
      else
        var address :- AddI64(AsI64(c.rb), val);
        Success(Position(AsU64(address)))
  }

  /** `read(index)`. */
  function Read(c: Core, index: nat): Result<I64, Panic>
    requires 1 <= index
  {
    var r :- GetReference(c, index);
    match r
    case Position(a) => Success(Peek(c.mem, a))
    case Immediate(v) => Success(v)
  }

  /** `write(index, value)`: the memory after the store. */
  function Write(c: Core, index: nat, value: I64): Result<Memory, Panic>
    requires 1 <= index
  {
    var r :- GetReference(c, index);
    match r
    case Position(a) => Success(c.mem[a := value])
    case Immediate(_) => Failure(ImmediateWrite)
  }

  predicate KnownCode(code: int) { 1 <= code <= 9 || code == 99 }

  /** Opcodes 1, 2, 7, 8 in state `Ready`. */
  function Arith(c: Core, code: int): Result<Core, Panic>
    requires code in {1, 2, 7, 8}
  {
    var a :- Read(c, 1);
    var b :- Read(c, 2);
    var value :- if code == 1 then AddI64(a, b) else if code == 2 then MulI64(a, b)
                 else if code == 7 then Success(if a < b then 1 else 0)
                 else Success(if a == b then 1 else 0);
    var mem :- Write(c, 3, value);
    var ip :- AddU64(c.ip, 4);
    Success(c.(mem := mem, ip := ip))
  }

  /** Opcodes 5 and 6 in state `Ready`: a taken jump goes to `read(2) as u64`. */
  function JumpStep(c: Core, ifNonzero: bool): Result<Core, Panic> {
    var cond :- Read(c, 1);
    if (cond != 0) == ifNonzero then
      var target :- Read(c, 2);
      Success(c.(ip := AsU64(target)))
    else
      var ip :- AddU64(c.ip, 3);
      Success(c.(ip := ip))
  }

  /** `step()`. */
  function Step(c: Core): Result<Core, Panic> {
    var code := AsU64(Peek(c.mem, c.ip)) % 100;
    if !KnownCode(code) then Failure(UnknownInstruction(code))
    else
      match c.state
      case InputReady(value) =>
        if code != 3 then Failure(NotInput)
        else
          var mem :- Write(c, 1, value);
          var ip :- AddU64(c.ip, 2);
          Success(c.(mem := mem, state := Ready, ip := ip))
      case Ready =>
        if code in {1, 2, 7, 8} then Arith(c, code)
        else if code == 3 then Success(c.(state := AwaitingInput))
        else if code == 4 then
          var v :- Read(c, 1);
          var ip :- AddU64(c.ip, 2);
          Success(c.(state := OutputReady(v), ip := ip))
        else if code == 5 then JumpStep(c, true)
        else if code == 6 then JumpStep(c, false)
        else if code == 9 then
          var d :- Read(c, 1);
          var base :- AddI64(AsI64(c.rb), d);
          var ip :- AddU64(c.ip, 2);
          Success(c.(rb := AsU64(base), ip := ip))
        else Success(c.(state := Finished))
      case _ => Failure(CannotStep)
  }

  /** Input pauses on its own instruction and resumes past it; output moves
      past its instruction before pausing; exit stays on its instruction. */
  lemma StepPauses(c: Core)
    ensures var code := AsU64(Peek(c.mem, c.ip)) % 100;
      && (c.state == Ready && code == 3 ==> Step(c) == Success(c.(state := AwaitingInput)))
      && (c.state == Ready && code == 99 ==> Step(c) == Success(c.(state := Finished)))
      && (c.state == Ready && code == 4 && Step(c).Success? ==>
            Step(c).value == c.(state := OutputReady(Read(c, 1).value), ip := c.ip + 2))
      && (c.state.InputReady? && Step(c).Success? ==>
            code == 3 && Step(c).value.state == Ready && Step(c).value.ip == c.ip + 2 &&
            Step(c).value.mem == Write(c, 1, c.state.value).value)
  {
  }

  /** A step succeeds only on a known opcode, and only from `Ready` or `InputReady`. */
  lemma StepRejects(c: Core)
    ensures Step(c).Success? ==> KnownCode(AsU64(Peek(c.mem, c.ip)) % 100)
    ensures Step(c).Success? ==> c.state == Ready || c.state.InputReady?
    ensures !KnownCode(AsU64(Peek(c.mem, c.ip)) % 100) ==>
      Step(c) == Failure(UnknownInstruction(AsU64(Peek(c.mem, c.ip)) % 100))
  {
  }

  /** `get_reference` panics with "Unexpexted address mode" on a mode digit
      above 2, and `write` panics with "Cannot write in immediate mode" on
      digit 1; in a step these panics surface as they are reached. */
  lemma ModePanics(c: Core, index: nat, value: I64)
    requires 1 <= index
    ensures ModeDigit(c, index) > 2 ==> GetReference(c, index) == Failure(UnexpectedMode(ModeDigit(c, index)))
    ensures ModeDigit(c, index) > 2 ==> Read(c, index) == Failure(UnexpectedMode(ModeDigit(c, index)))
    ensures ModeDigit(c, index) > 2 ==> Write(c, index, value) == Failure(UnexpectedMode(ModeDigit(c, index)))
    ensures ModeDigit(c, index) == 1 && c.ip + index < TWO_64 ==> Write(c, index, value) == Failure(ImmediateWrite)
    ensures var code := AsU64(Peek(c.mem, c.ip)) % 100;
      c.state == Ready && code in {1, 2, 4, 5, 6, 7, 8, 9} && ModeDigit(c, 1) > 2 ==>
        Step(c) == Failure(UnexpectedMode(ModeDigit(c, 1)))
    ensures var code := AsU64(Peek(c.mem, c.ip)) % 100;
      c.state.InputReady? && code == 3 && ModeDigit(c, 1) == 1 && c.ip + 1 < TWO_64 ==>
        Step(c) == Failure(ImmediateWrite)
    ensures var code := AsU64(Peek(c.mem, c.ip)) % 100;
      c.state == Ready && code in {1, 2, 7, 8} && Read(c, 1).Success? && Read(c, 2).Success? &&
      (code == 1 ==> AddI64(Read(c, 1).value, Read(c, 2).value).Success?) &&
      (code == 2 ==> MulI64(Read(c, 1).value, Read(c, 2).value).Success?) &&
      ModeDigit(c, 3) == 1 && c.ip + 3 < TWO_64 ==>
        Step(c) == Failure(ImmediateWrite)
  {
  }

  /** `11101,1,1,0,99` adds in immediate mode and stores in immediate mode:
      the store panics. */
  lemma ImmediateWritePanics()
    ensures Step(New([11101, 1, 1, 0, 99])) == Failure(ImmediateWrite)
  {
    var image := [11101, 1, 1, 0, 99];
    var c := New(image);
    MemoryLaws(image, c.mem, 0, 0, 0);
    MemoryLaws(image, c.mem, 1, 0, 0);
    MemoryLaws(image, c.mem, 2, 0, 0);
    assert AsU64(Peek(c.mem, c.ip)) / 100 == 111;
    assert Decimal.Pow10(0) == 1 && Decimal.Pow10(1) == 10 && Decimal.Pow10(2) == 100;
    assert ModeDigit(c, 1) == 1 && ModeDigit(c, 2) == 1 && ModeDigit(c, 3) == 1;
    assert Read(c, 1) == Success(1) && Read(c, 2) == Success(1);
    ModePanics(c, 3, 0);
  }

  /** How `run` (and so every public call) ends. */
  datatype Status = Ok | Panicked(reason: Panic) | OutOfFuel

  /** `run()`: steps while `Ready` or `InputReady`. On a panic the engine is
      the one the failing step started from. */
  function RunSpec(c: Core, fuel: nat): (Core, Status)
    decreases fuel
  {
    if !(c.state == Ready || c.state.InputReady?) then (c, Ok)
    else if fuel == 0 then (c, OutOfFuel)
    else
      match Step(c)
      case Failure(p) => (c, Panicked(p))
      case Success(next) => RunSpec(next, fuel - 1)
  }

  /** `run` returns normally only in `Finished`, `AwaitingInput` or `OutputReady`. */
  lemma {:induction false} RunEndsPaused(c: Core, fuel: nat)
    ensures RunSpec(c, fuel).1 == Ok ==>
      var s := RunSpec(c, fuel).0.state; s == Finished || s == AwaitingInput || s.OutputReady?
    decreases fuel
  {
    if (c.state == Ready || c.state.InputReady?) && fuel > 0 && Step(c).Success? {
      RunEndsPaused(Step(c).value, fuel - 1);
    }
  }

  /** `run` never ends with the panics of the protocol checks of
      `read_output` and `write_input`. */
  lemma {:induction false} RunNeverRefusesFrom(c: Core, fuel: nat)
    ensures RunSpec(c, fuel).1 != Panicked(CannotReadOutput)
    ensures RunSpec(c, fuel).1 != Panicked(CannotWriteInput)
    decreases fuel
  {
    if (c.state == Ready || c.state.InputReady?) && fuel > 0 {
      StepNeverRefuses(c);
      if Step(c).Success? {
        RunNeverRefusesFrom(Step(c).value, fuel - 1);
      }
    }
  }

  /** The panics of the protocol checks of `read_output` and `write_input`. */
  predicate Refusal(p: Panic) {
    p == CannotReadOutput || p == CannotWriteInput
  }

  /** A step never fails with the panics of the protocol checks. */
  lemma StepNeverRefuses(c: Core)
    ensures Step(c).Failure? ==> !Refusal(Step(c).error)
  {
    AccessNeverRefuses(c);
    var code := AsU64(Peek(c.mem, c.ip)) % 100;
    if c.state == Ready && code in {1, 2, 7, 8} {
      ArithNeverRefuses(c, code);
    }
  }

  /** Reads, writes and the jumps fail only with mode, write or overflow panics. */
  lemma AccessNeverRefuses(c: Core)
    ensures forall index: nat :: 1 <= index && Read(c, index).Failure? ==> !Refusal(Read(c, index).error)
    ensures forall index: nat, value :: 1 <= index && Write(c, index, value).Failure? ==>
      !Refusal(Write(c, index, value).error)
    ensures JumpStep(c, true).Failure? ==> !Refusal(JumpStep(c, true).error)
    ensures JumpStep(c, false).Failure? ==> !Refusal(JumpStep(c, false).error)
  {
  }

  lemma ArithNeverRefuses(c: Core, code: int)
    requires code in {1, 2, 7, 8}
    ensures Arith(c, code).Failure? ==> !Refusal(Arith(c, code).error)
  {
    AccessNeverRefuses(c);
  }

  lemma RunNeverRefuses()
    ensures forall c: Core, fuel: nat :: RunSpec(c, fuel).1 != Panicked(CannotReadOutput)
    ensures forall c: Core, fuel: nat :: RunSpec(c, fuel).1 != Panicked(CannotWriteInput)
  {
    forall c: Core, fuel: nat ensures RunSpec(c, fuel).1 != Panicked(CannotReadOutput) {
      RunNeverRefusesFrom(c, fuel);
    }
    forall c: Core, fuel: nat ensures RunSpec(c, fuel).1 != Panicked(CannotWriteInput) {
      RunNeverRefusesFrom(c, fuel);
    }
  }

  /** A finished engine stays put and refuses both calls. */
  lemma FinishedStays(c: Core)
    ensures c.state == Finished ==> forall fuel: nat :: RunSpec(c, fuel) == (c, Ok)
    ensures c.state == Finished ==> forall value: I64, fuel: nat ::
      WriteInputSpec(c, value, fuel).1 == Panicked(CannotWriteInput) &&
      ReadOutputSpec(c, fuel).1 == Panicked(CannotReadOutput)
  {
    if c.state == Finished {
      forall fuel: nat ensures RunSpec(c, fuel) == (c, Ok) {
        assert !(c.state == Ready || c.state.InputReady?);
      }
      forall value: I64, fuel: nat
        ensures WriteInputSpec(c, value, fuel).1 == Panicked(CannotWriteInput)
        ensures ReadOutputSpec(c, fuel).1 == Panicked(CannotReadOutput)
      {
      }
    }
  }

  /** `read_output()`: the value held by `OutputReady`, after running on. */
  function ReadOutputSpec(c: Core, fuel: nat): (Core, Status, I64) {
    match c.state
    case OutputReady(v) =>
      var (c', status) := RunSpec(c.(state := Ready), fuel);
      (c', status, v)
    case _ => (c, Panicked(CannotReadOutput), 0)
  }

  /** `write_input(value)`: hands the value over through `InputReady` and runs. */
  function WriteInputSpec(c: Core, value: I64, fuel: nat): (Core, Status) {
    match c.state
    case AwaitingInput => RunSpec(c.(state := InputReady(value)), fuel)
    case _ => (c, Panicked(CannotWriteInput))
  }

  /** From `AwaitingInput`, `write_input` stores the value at parameter 1 of the
      input instruction and moves past it before running on. */
  lemma WriteInputStores(c: Core, value: I64, fuel: nat)
    requires c.state == AwaitingInput && fuel >= 1
    requires Step(c.(state := InputReady(value))).Success?
    ensures var next := Step(c.(state := InputReady(value))).value;
      && next.mem == Write(c, 1, value).value && next.ip == c.ip + 2 && next.state == Ready
      && WriteInputSpec(c, value, fuel) == RunSpec(next, fuel - 1)
  {
  }

  /** The Rust mode digit is the Python mode character for every non-negative
      instruction, so both interpreters decode such instructions alike. */
  lemma ModesAgree(c: Core, index: nat)
    requires 1 <= index && Peek(c.mem, c.ip) >= 0
    ensures Decimal.DigitChar(ModeDigit(c, index)) == PyIntcodeCore.ModeChar(Peek(c.mem, c.ip), index)
  {
    PyIntcodeCore.ModeCharIsDigit(Peek(c.mem, c.ip), index);
  }

  /** On a negative instruction the two interpreters part ways: the Python one
      reads -1 as opcode 99 (`-1 % 100 == 99`) and halts, while the Rust one
      decodes `-1 as u64 % 100 == 15` and panics. */
  lemma NegativeInstructionDiverges()
    ensures PyIntcodeCore.Exec(PyIntcodeCore.Machine(PyIntcodeCore.Load([-1]), 0, 0)) == PyIntcodeCore.Halt
    ensures Step(New([-1])) == Failure(UnknownInstruction(15))
  {
    assert PyIntcodeCore.Load([-1])[0] == -1;
    assert Load([-1])[0] == -1;
  }

  /** The program `3,0,4,0,99` echoes its input. */
  lemma EchoProgram(x: I64, fuel: nat)
    requires fuel >= 2
    ensures var (c1, s1) := RunSpec(New([3, 0, 4, 0, 99]), fuel);
      && s1 == Ok && c1.state == AwaitingInput
      && var (c2, s2) := WriteInputSpec(c1, x, fuel);
      && s2 == Ok && c2.state == OutputReady(x)
      && var (c3, s3, y) := ReadOutputSpec(c2, fuel);
      && s3 == Ok && y == x && c3.state == Finished
  {
    var mem := New([3, 0, 4, 0, 99]).mem;
    MemoryLaws([3, 0, 4, 0, 99], mem, 0, 0, 0);
    MemoryLaws([3, 0, 4, 0, 99], mem, 1, 0, 0);
    MemoryLaws([3, 0, 4, 0, 99], mem, 2, 0, 0);
    MemoryLaws([3, 0, 4, 0, 99], mem, 3, 0, 0);
    MemoryLaws([3, 0, 4, 0, 99], mem, 4, 0, 0);
    EchoAwaitsInput(mem, fuel);
    EchoOutputsInput(mem, x, fuel);
    EchoHalts(mem[0 := x], x, fuel);
  }

  /** Started, the echo program stops at its input instruction. */
  lemma EchoAwaitsInput(mem: Memory, fuel: nat)
    requires Peek(mem, 0) == 3 && fuel >= 1
    ensures RunSpec(Core(mem, Ready, 0, 0), fuel) == (Core(mem, AwaitingInput, 0, 0), Ok)
  {
    var c0 := Core(mem, Ready, 0, 0);
    assert Step(c0) == Success(c0.(state := AwaitingInput));
  }

  /** Fed `x`, it stores it at address 0 and stops at its output instruction. */
  lemma EchoOutputsInput(mem: Memory, x: I64, fuel: nat)
    requires Peek(mem, 0) == 3 && Peek(mem, 1) == 0 && Peek(mem, 2) == 4 && Peek(mem, 3) == 0 && fuel >= 2
    ensures WriteInputSpec(Core(mem, AwaitingInput, 0, 0), x, fuel) == (Core(mem[0 := x], OutputReady(x), 4, 0), Ok)
  {
    var c1 := Core(mem, AwaitingInput, 0, 0);
    assert ModeDigit(c1, 1) == 0;
    var c2 := Core(mem[0 := x], Ready, 2, 0);
    assert Step(c1.(state := InputReady(x))) == Success(c2);
    assert ModeDigit(c2, 1) == 0;
    var c3 := c2.(state := OutputReady(x), ip := 4);
    assert Step(c2) == Success(c3);
    assert RunSpec(c1.(state := InputReady(x)), fuel) == RunSpec(c2, fuel - 1) == RunSpec(c3, fuel - 2);
  }

  /** Its output read, it halts. */
  lemma EchoHalts(mem: Memory, x: I64, fuel: nat)
    requires Peek(mem, 4) == 99 && fuel >= 1
    ensures ReadOutputSpec(Core(mem, OutputReady(x), 4, 0), fuel) == (Core(mem, Finished, 4, 0), Ok, x)
  {
    var c3 := Core(mem, Ready, 4, 0);
    assert Step(c3) == Success(c3.(state := Finished));
    assert RunSpec(c3, fuel) == RunSpec(c3.(state := Finished), fuel - 1);
  }

  /** `InfiniteMemory`. */
  class InfiniteMemory {
    var data: Memory

    constructor (image: seq<I64>)
      requires |image| <= TWO_64
      ensures data == Load(image)
    {
      data := Load(image);
    }

    /** `get`. */
    method Get(index: U64) returns (v: I64)
      ensures index in data ==> v == data[index]
      ensures index !in data ==> v == 0
    {
      v := Peek(data, index);
    }

    /** `set`. */
    method Set(index: U64, value: I64)
      modifies this
      ensures data == old(data)[index := value]
    {
      data := data[index := value];
    }
  }

  /** `IntCode`. */
  class IntCode {
    const data: InfiniteMemory
    var state: RState
    var instructionPointer: U64
    var relativeBase: U64

    ghost function Snapshot(): Core
      reads this, data
    {
      Core(data.data, state, instructionPointer, relativeBase)
    }

    /** `IntCode::new`. */
    constructor (image: seq<I64>)
      requires |image| <= TWO_64
      ensures Snapshot() == New(image)
      ensures fresh(data)
    {
      data := new InfiniteMemory(image);
      state := Ready;
      instructionPointer, relativeBase := 0, 0;
    }

    /** `get`. */
    method Get(index: U64) returns (v: I64)
      ensures v == Peek(data.data, index)
    {
      v := data.Get(index);
    }

    /** `set`. */
    method Set(index: U64, value: I64)
      modifies data
      ensures data.data == old(data.data)[index := value]
    {
      data.Set(index, value);
    }

    /** `finished()`: a finished engine neither steps nor accepts input or
        output calls; `run` returns at once. */
    predicate IsFinished()
      reads this, data
      ensures IsFinished() ==> forall fuel: nat :: RunSpec(Snapshot(), fuel) == (Snapshot(), Ok)
      ensures IsFinished() ==> forall value: I64, fuel: nat ::
        WriteInputSpec(Snapshot(), value, fuel).1 == Panicked(CannotWriteInput) &&
        ReadOutputSpec(Snapshot(), fuel).1 == Panicked(CannotReadOutput)
    {
      FinishedStays(Snapshot());
      state == Finished
    }

    /** `has_output()`: it holds exactly when `read_output` does not panic
        with "Cannot read_output in current state". */
    predicate HasOutput()
      reads this, data
      ensures forall fuel: nat :: HasOutput() <==> ReadOutputSpec(Snapshot(), fuel).1 != Panicked(CannotReadOutput)
    {
      RunNeverRefuses();
      state.OutputReady?
    }

    /** `requires_input()`: it holds exactly when `write_input` does not
        panic with "Cannot write_input in current state". */
    predicate RequiresInput()
      reads this, data
      ensures forall value: I64, fuel: nat ::
        RequiresInput() <==> WriteInputSpec(Snapshot(), value, fuel).1 != Panicked(CannotWriteInput)
    {
      RunNeverRefuses();
      state == AwaitingInput
    }

    /** `run()`. */
    method Run(fuel: nat) returns (status: Status)
      modifies this, data
      ensures (Snapshot(), status) == RunSpec(old(Snapshot()), fuel)
    {
      ghost var goal := RunSpec(Snapshot(), fuel);
      var n := fuel;
      while state == Ready || state.InputReady?
        invariant RunSpec(Snapshot(), n) == goal
        decreases n
      {
        if n == 0 {
          return OutOfFuel;
        }
        match Step(Core(data.data, state, instructionPointer, relativeBase))
        case Failure(p) =>
          return Panicked(p);
        case Success(next) =>
          data.data := next.mem;
          state, instructionPointer, relativeBase := next.state, next.ip, next.rb;
          n := n - 1;
      }
      return Ok;
    }

    /** `read_output()`. */
    method ReadOutput(fuel: nat) returns (status: Status, value: I64)
      modifies this, data
      ensures (Snapshot(), status, value) == ReadOutputSpec(old(Snapshot()), fuel)
    {
      if !state.OutputReady? {
        return Panicked(CannotReadOutput), 0;
      }
      value := state.value;
      state := Ready;
      status := Run(fuel);
    }

    /** `write_input(value)`. */
    method WriteInput(value: I64, fuel: nat) returns (status: Status)
      modifies this, data
      ensures (Snapshot(), status) == WriteInputSpec(old(Snapshot()), value, fuel)
    {
      if state != AwaitingInput {
        return Panicked(CannotWriteInput);
      }
      state := InputReady(value);
      status := Run(fuel);
    }
  }
}
