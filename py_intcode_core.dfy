/** Instruction decoding and execution shared by both Python Intcode
    interpreters (python/src/intcode.py and intcode.py hold the same memory
    class, the same `read` / `write` closures and the same opcode table). */
module PyIntcodeCore {
  import opened Wrappers
  import Decimal

  /** `InfiniteMemory.data`: address to value; absent addresses read as 0. */
  type Memory = map<int, int>

  /** `dict(enumerate(data))`: the image at addresses 0..N-1. */
  function Load(image: seq<int>): (mem: Memory)
    ensures forall a :: a in mem <==> 0 <= a < |image|
  {
    map a | 0 <= a < |image| :: image[a]
  }

  /** Fatal conditions raised while executing: a failed `assert index >= 0`,
      a failed `assert mode in ...`, and `Exception('Invalid opcode ...')`. */
  datatype Fault = NegativeAddress(address: int) | IllegalMode(mode: char) | InvalidOpcode(opcode: int)

  /** `InfiniteMemory.__getitem__`. */
  function MemGet(mem: Memory, index: int): Result<int, Fault> {
    if index < 0 then Failure(NegativeAddress(index))
    else if index in mem then Success(mem[index])
    else Success(0)
  }

  /** `InfiniteMemory.__setitem__`. */
  function MemSet(mem: Memory, index: int, value: int): Result<Memory, Fault> {
    if index < 0 then Failure(NegativeAddress(index)) else Success(mem[index := value])
  }

  /** Memory behaves as an infinite array initialised with the image and zeros:
      a read after a write at the same address gives the written value, other
      addresses are untouched, and negative addresses always fail. */
  lemma MemoryLaws(image: seq<int>, mem: Memory, a: int, b: int, v: int)
    ensures MemGet(Load(image), a) ==
      (if a < 0 then Failure(NegativeAddress(a)) else if a < |image| then Success(image[a]) else Success(0))
    ensures a >= 0 ==> MemSet(mem, a, v).Success? && MemGet(MemSet(mem, a, v).value, a) == Success(v)
    ensures a >= 0 && b != a ==> MemGet(MemSet(mem, a, v).value, b) == MemGet(mem, b)
    ensures a < 0 ==> MemSet(mem, a, v) == Failure(NegativeAddress(a))
  {
  }

  /** `InfiniteMemory`: a dictionary from address to value, read as 0 where unset. */
  class InfiniteMemory {
    var data: Memory

    constructor (image: seq<int>)
      ensures data == Load(image)
    {
      data := Load(image);
    }

    /** `__getitem__`. */
    method Get(index: int) returns (r: Result<int, Fault>)
      ensures r.Failure? <==> index < 0
      ensures r.Success? ==> r.value == (if index in data then data[index] else 0)
    {
      r := MemGet(data, index);
    }

    /** `__setitem__`. */
    method Set(index: int, value: int) returns (r: Result<(), Fault>)
      modifies this
      ensures r.Failure? <==> index < 0
      ensures r.Success? ==> data == old(data)[index := value]
      ensures r.Failure? ==> data == old(data)
    {
      if index < 0 {
        r := Failure(NegativeAddress(index));
      } else {
        data := data[index := value];
        r := Success(());
      }
    }
  }

  /** The i-th character from the right of `str(n)`, with a minus sign in front
      when `negative` holds, or '0' past its left end. */
  function CharFromRight(n: nat, negative: bool, i: nat): char
    requires i >= 1
    decreases i
  {
    if i == 1 then Decimal.DigitChar(n % 10)
    else if n < 10 then (if negative && i == 2 then '-' else '0')
    else CharFromRight(n / 10, negative, i - 1)
  }

  /** The mode of parameter i: the i-th character from the right of
      `str(op_value // 100)`, or '0' when the text is shorter. */
  function ModeChar(opValue: int, i: nat): char
    requires i >= 1
  {
    var v := opValue / 100;
    if v < 0 then CharFromRight(-v, true, i) else CharFromRight(v, false, i)
  }

  /** `dict(enumerate(reversed(digits))).get(i - 1, '0')`. */
  function TextMode(digits: string, i: nat): char
    requires i >= 1
  {
    if i <= |digits| then digits[|digits| - i] else '0'
  }

  lemma {:induction false} CharFromRightText(n: nat, negative: bool, i: nat)
    requires i >= 1
    ensures CharFromRight(n, negative, i) == TextMode((if negative then "-" else "") + Decimal.NatToString(n), i)
    decreases i
  {
    var sign := if negative then "-" else "";
    if n >= 10 {
      var d := [Decimal.DigitChar(n % 10)];
      assert sign + Decimal.NatToString(n) == (sign + Decimal.NatToString(n / 10)) + d;
      if i > 1 {
        CharFromRightText(n / 10, negative, i - 1);
      }
    }
  }

  /** The mode decoding is the textual one, `str` of a negative number included. */
  lemma ModeCharIsText(opValue: int, i: nat)
    requires i >= 1
    ensures ModeChar(opValue, i) == TextMode(Decimal.IntToString(opValue / 100), i)
  {
    var v := opValue / 100;
    if v < 0 {
      CharFromRightText(-v, true, i);
    } else {
      CharFromRightText(v, false, i);
    }
  }

  lemma {:induction false} CharFromRightDigit(n: nat, i: nat)
    requires i >= 1
    ensures CharFromRight(n, false, i) == Decimal.DigitChar(n / Decimal.Pow10(i - 1) % 10)
    decreases i
  {
    if i > 1 {
      var p := Decimal.Pow10(i - 2);
      assert Decimal.Pow10(i - 1) == 10 * p;
      if n < 10 {
        Decimal.DivUnique(n, 10 * p, 0, n);
      } else {
        Decimal.DivDiv(n, 10, p);
        CharFromRightDigit(n / 10, i - 1);
      }
    }
  }

  /** For a non-negative instruction the textual decoding is the arithmetic one:
      the mode of parameter i is `(v // 100) // 10^(i-1) % 10`. */
  lemma ModeCharIsDigit(opValue: int, i: nat)
    requires opValue >= 0 && i >= 1
    ensures ModeChar(opValue, i) == Decimal.DigitChar(opValue / 100 / Decimal.Pow10(i - 1) % 10)
  {
    CharFromRightDigit(opValue / 100, i);
  }

  /** The machine registers of the interpreter loop: memory, `p`, `relative_base`. */
  datatype Machine = Machine(mem: Memory, p: int, rb: int)

  /** The operand of a readable parameter whose raw value is `raw`. */
  function Operand(mem: Memory, mode: char, raw: int, rb: int): Result<int, Fault>
    requires mode in "012"
  {
    if mode == '0' then MemGet(mem, raw)
    else if mode == '1' then Success(raw)
    else MemGet(mem, rb + raw)
  }

  /** Relative mode is position mode with the base added (testable property of
      relative addressing). */
  lemma RelativeIsShiftedPosition(mem: Memory, raw: int, rb: int, rb': int)
    ensures Operand(mem, '2', raw, rb) == Operand(mem, '0', rb + raw, rb')
  {
  }

  /** `read(i)`. */
  function Read(m: Machine, opValue: int, i: nat): Result<int, Fault>
    requires i >= 1
  {
    var mode := ModeChar(opValue, i);
    if mode !in "012" then Failure(IllegalMode(mode))
    else
      var raw :- MemGet(m.mem, m.p + i);
      Operand(m.mem, mode, raw, m.rb)
  }

  /** The address `write(i, _)` stores to. */
  function Target(m: Machine, opValue: int, i: nat): Result<int, Fault>
    requires i >= 1
  {
    var mode := ModeChar(opValue, i);
    if mode !in "02" then Failure(IllegalMode(mode))
    else
      var raw :- MemGet(m.mem, m.p + i);
      if mode == '0' then Success(raw) else Success(m.rb + raw)
  }

  /** `write(i, value)`. */
  function Write(m: Machine, opValue: int, i: nat, value: int): Result<Memory, Fault>
    requires i >= 1
  {
    var address :- Target(m, opValue, i);
    MemSet(m.mem, address, value)
  }

  /** What one pass of the interpreter loop does with the instruction at `p`. */
  datatype Event =
    | Continue(next: Machine)    // instruction executed, the loop goes on
    | InputRequest               // opcode 3: suspends before consuming an input
    | OutputCaptured(value: int) // opcode 4: `read(1)` captured, suspends
    | Halt                       // opcode 99
    | Crash(fault: Fault)

  predicate KnownOpcode(op: int) { 1 <= op <= 9 || op == 99 }

  /** Opcodes 1, 2, 7, 8: `write(3, f(read(1), read(2)))`, then `p += 4`. */
  function Binary(m: Machine, opValue: int, op: int): Event
    requires op in {1, 2, 7, 8}
  {
    match Read(m, opValue, 1)
    case Failure(f) => Crash(f)
    case Success(a) =>
      match Read(m, opValue, 2)
      case Failure(f) => Crash(f)
      case Success(b) =>
        var value := if op == 1 then a + b else if op == 2 then a * b
                     else if op == 7 then (if a < b then 1 else 0)
                     else (if a == b then 1 else 0);
        match Write(m, opValue, 3, value)
        case Failure(f) => Crash(f)
        case Success(mem) => Continue(Machine(mem, m.p + 4, m.rb))
  }

  /** Opcodes 5 and 6: jump to `read(2)` when `read(1)` is nonzero (5) or zero (6). */
  function Jump(m: Machine, opValue: int, jumpIfNonzero: bool): Event {
    match Read(m, opValue, 1)
    case Failure(f) => Crash(f)
    case Success(c) =>
      if (c != 0) == jumpIfNonzero then
        match Read(m, opValue, 2)
        case Failure(f) => Crash(f)
        case Success(target) => Continue(m.(p := target))
      else Continue(m.(p := m.p + 3))
  }

  /** One pass of the `while True` loop of the interpreter. */
  function Exec(m: Machine): Event {
    match MemGet(m.mem, m.p)
    case Failure(f) => Crash(f)
    case Success(opValue) =>
      var op := opValue % 100;
      if op in {1, 2, 7, 8} then Binary(m, opValue, op)
      else if op == 3 then InputRequest
      else if op == 4 then
        (match Read(m, opValue, 1)
         case Failure(f) => Crash(f)
         case Success(v) => OutputCaptured(v))
      else if op == 5 then Jump(m, opValue, true)
      else if op == 6 then Jump(m, opValue, false)
      else if op == 9 then
        (match Read(m, opValue, 1)
         case Failure(f) => Crash(f)
         case Success(d) => Continue(Machine(m.mem, m.p + 2, m.rb + d)))
      else if op == 99 then Halt
      else Crash(InvalidOpcode(op))
  }

  /** Resuming opcode 3 with `value`: `write(1, value)`, then `p += 2`. The
      instruction word is read again from memory. The source keeps the modes
      it decoded before suspending; the two agree because no engine operation
      writes to memory while the generator is suspended. */
  function ResumeInput(m: Machine, value: int): Result<Machine, Fault> {
    var opValue :- MemGet(m.mem, m.p);
    var mem :- Write(m, opValue, 1, value);
    Success(Machine(mem, m.p + 2, m.rb))
  }

  /** Resuming opcode 4 once its output was taken: `p += 2`. */
  function ResumeOutput(m: Machine): Machine {
    m.(p := m.p + 2)
  }

  /** The opcode table: an opcode outside {1..9, 99} is rejected exactly when it
      is reached, and the known ones move `p` and `relative_base` and write
      their result as listed. */
  lemma ExecEffects(m: Machine)
    requires m.p >= 0
    ensures var op := MemGet(m.mem, m.p).value % 100;
      && (Exec(m) == Crash(InvalidOpcode(op)) <==> !KnownOpcode(op))
      && (Exec(m) == Halt <==> op == 99)
      && (Exec(m) == InputRequest <==> op == 3)
      && (Exec(m).OutputCaptured? <==> op == 4 && Read(m, MemGet(m.mem, m.p).value, 1).Success?)
      && (Exec(m).Continue? && op in {1, 2, 7, 8} ==>
            Exec(m).next.p == m.p + 4 && Exec(m).next.rb == m.rb &&
            var a := Read(m, MemGet(m.mem, m.p).value, 1).value;
            var b := Read(m, MemGet(m.mem, m.p).value, 2).value;
            var t := Target(m, MemGet(m.mem, m.p).value, 3).value;
            t >= 0 && Exec(m).next.mem.Keys == m.mem.Keys + {t} &&
            Exec(m).next.mem[t] == (if op == 1 then a + b else if op == 2 then a * b
                                    else if op == 7 then (if a < b then 1 else 0)
                                    else (if a == b then 1 else 0)) &&
            forall c :: c in m.mem && c != t ==> Exec(m).next.mem[c] == m.mem[c])
      && (Exec(m).Continue? && op == 9 ==>
            Exec(m).next == Machine(m.mem, m.p + 2, m.rb + Read(m, MemGet(m.mem, m.p).value, 1).value))
      && (Exec(m).Continue? && op in {5, 6} ==>
            Exec(m).next.mem == m.mem && Exec(m).next.rb == m.rb &&
            var c := Read(m, MemGet(m.mem, m.p).value, 1).value;
            if (c != 0) == (op == 5) then Exec(m).next.p == Read(m, MemGet(m.mem, m.p).value, 2).value
            else Exec(m).next.p == m.p + 3)
  {
    var opValue := MemGet(m.mem, m.p).value;
    var op := opValue % 100;
  }

  /** The `assert mode in '012'` of `read` and `assert mode in '02'` of
      `write`: a parameter whose mode is not one of those faults with
      `IllegalMode`, a write target in immediate mode '1' included. */
  lemma ModeFaults(m: Machine, value: int)
    requires m.p >= 0
    ensures var opValue := MemGet(m.mem, m.p).value; var op := opValue % 100;
      && (op in {4, 5, 6, 9, 1, 2, 7, 8} && ModeChar(opValue, 1) !in "012" ==>
            Exec(m) == Crash(IllegalMode(ModeChar(opValue, 1))))
      && (op in {1, 2, 7, 8} && Read(m, opValue, 1).Success? && Read(m, opValue, 2).Success? &&
          ModeChar(opValue, 3) !in "02" ==>
            Exec(m) == Crash(IllegalMode(ModeChar(opValue, 3))))
      && (op == 3 && ModeChar(opValue, 1) !in "02" ==>
            ResumeInput(m, value) == Failure(IllegalMode(ModeChar(opValue, 1))))
  {
  }

  /** `11101,1,1,0,99` adds in immediate mode and stores in immediate mode:
      the store faults. */
  lemma ImmediateWriteFaults()
    ensures Exec(Machine(Load([11101, 1, 1, 0, 99]), 0, 0)) == Crash(IllegalMode('1'))
  {
    var m := Machine(Load([11101, 1, 1, 0, 99]), 0, 0);
    assert MemGet(m.mem, 0) == Success(11101);
    assert ModeChar(11101, 1) == '1' && ModeChar(11101, 2) == '1' && ModeChar(11101, 3) == '1';
  }

  /** Where a run stops: at an input request, at a captured output, at the
      halt, at a fault, or after `fuel` instructions without a pause. */
  datatype Pause =
    | AwaitInput(at: Machine)
    | HasOutput(at: Machine, value: int)
    | Halted(at: Machine)
    | Crashed(at: Machine, fault: Fault)
    | Exhausted(at: Machine)

  /** Executes instructions until the next observable pause point. */
  function Run(m: Machine, fuel: nat): Pause
    decreases fuel
  {
    if fuel == 0 then Exhausted(m)
    else
      match Exec(m)
      case Continue(next) => Run(next, fuel - 1)
      case InputRequest => AwaitInput(m)
      case OutputCaptured(v) => HasOutput(m, v)
      case Halt => Halted(m)
      case Crash(f) => Crashed(m, f)
  }

  /** A run pauses only at the instruction that caused the pause: an input pause
      sits on opcode 3, an output pause on opcode 4 whose `read(1)` is the value,
      a halt on opcode 99, a crash on an instruction that faults. */
  lemma {:induction false} RunPausesAtCause(m: Machine, fuel: nat)
    ensures Run(m, fuel).AwaitInput? ==> Exec(Run(m, fuel).at) == InputRequest
    ensures Run(m, fuel).HasOutput? ==> Exec(Run(m, fuel).at) == OutputCaptured(Run(m, fuel).value)
    ensures Run(m, fuel).Halted? ==> Exec(Run(m, fuel).at) == Halt
    ensures Run(m, fuel).Crashed? ==> Exec(Run(m, fuel).at) == Crash(Run(m, fuel).fault)
    decreases fuel
  {
    if fuel > 0 && Exec(m).Continue? {
      RunPausesAtCause(Exec(m).next, fuel - 1);
    }
  }

  /** Running `a` instructions and then `b` more is running `a + b`, as long as
      the first run did not pause. */
  lemma {:induction false} RunSplit(m: Machine, a: nat, b: nat)
    requires !Run(m, a).Exhausted?
    ensures Run(m, a + b) == Run(m, a)
    decreases a
  {
    if a > 0 && Exec(m).Continue? {
      RunSplit(Exec(m).next, a - 1, b);
    }
  }
}
