/** The older generator-driven Intcode interpreter of intcode.py, with the
    generator written as an explicit resumable state machine. */
module PyIntcodeGen {
  import opened Wrappers
  import opened PyIntcodeCore

  /** Where `run_generator` is suspended. */
  datatype Point =
    | Created        // created, not yet entered
    | AtStart        // at the first `next_input = yield`
    | AtInput(v: int)// inside opcode 3 at `next_input = yield`, holding `v = int(next_input)`
    | AtExtra(v: int)// inside opcode 4 at the extra bare `yield`, holding `v = read(1)`
    | AtOutput       // inside opcode 4 at `next_input = yield v`
    | Closed         // returned or raised: every later `send` stops

  /** The generator: its suspension point, its locals `p`, `relative_base` and
      the memory it shares with `Intcode.opcodes`, and `next_input`. */
  datatype Gen = Gen(point: Point, at: Machine, nextInput: Option<int>)

  /** Exceptions that leave the generator: a fault of the interpreter,
      `int(None)` at opcode 3, a non-None value sent to a just-created
      generator, or the fuel bound of this model. */
  datatype GenError = Raised(fault: Fault) | IntOfNone | SentToCreated | FuelExhausted

  /** What a `send` returns to its caller. */
  datatype Reply = Yield(value: Option<int>) | Stop | Error(error: GenError)

  /** A new generator over `image`. */
  function Fresh(image: seq<int>): Gen {
    Gen(Created, Machine(Load(image), 0, 0), None)
  }

  /** Runs the `while True` loop from `g.at` to its next `yield`. */
  function Resume(g: Gen, fuel: nat): (Gen, Reply) {
    match Run(g.at, fuel)
    case AwaitInput(m) =>
      if g.nextInput.None? then (g.(point := Closed, at := m), Error(IntOfNone))
      else (g.(point := AtInput(g.nextInput.value), at := m), Yield(None))
    case HasOutput(m, v) =>
      if g.nextInput.Some? then (g.(point := AtExtra(v), at := m), Yield(None))
      else (g.(point := AtOutput, at := m), Yield(Some(v)))
    case Halted(m) => (g.(point := Closed, at := m), Stop)
    case Crashed(m, f) => (g.(point := Closed, at := m), Error(Raised(f)))
    case Exhausted(m) => (g.(point := Closed, at := m), Error(FuelExhausted))
  }

  /** `g.send(x)` (`next(g)` is `send(None)`). */
  function Send(g: Gen, x: Option<int>, fuel: nat): (Gen, Reply) {
    match g.point
    case Created =>
      if x.Some? then (g, Error(SentToCreated)) else (g.(point := AtStart), Yield(None))
    case AtStart => Resume(g.(nextInput := x), fuel)
    case AtInput(v) =>
      (match ResumeInput(g.at, v)
       case Failure(f) => (g.(point := Closed, nextInput := x), Error(Raised(f)))
       case Success(m) => Resume(Gen(AtInput(v), m, x), fuel))
    case AtExtra(v) => (g.(point := AtOutput), Yield(Some(v)))
    case AtOutput => Resume(Gen(AtOutput, ResumeOutput(g.at), x), fuel)
    case Closed => (g, Stop)
  }

  /** Opcode 3 takes the value sent before it and yields `None` to receive the
      next one; it needs that value: with `None` the generator dies. */
  lemma InputTakesHeldValue(g: Gen, x: Option<int>, fuel: nat)
    requires g.point in {AtStart, AtOutput}
    requires g.point == AtStart ==> Run(g.at, fuel).AwaitInput?
    requires g.point == AtOutput ==> Run(ResumeOutput(g.at), fuel).AwaitInput?
    ensures x.Some? ==> Send(g, x, fuel).1 == Yield(None) && Send(g, x, fuel).0.point == AtInput(x.value)
    ensures x.None? ==> Send(g, x, fuel).1 == Error(IntOfNone)
  {
  }

  /** Opcode 4 yields its value directly when nothing was sent, and first an
      extra `None` when an input was just sent; the value then follows on the
      next `send`, whatever is sent with it. */
  lemma OutputAfterSend(g: Gen, x: Option<int>, y: Option<int>, fuel: nat, fuel': nat)
    requires g.point in {AtStart, AtOutput}
    requires g.point == AtStart ==> Run(g.at, fuel).HasOutput?
    requires g.point == AtOutput ==> Run(ResumeOutput(g.at), fuel).HasOutput?
    ensures var v := if g.point == AtStart then Run(g.at, fuel).value else Run(ResumeOutput(g.at), fuel).value;
      && (Send(g, x, fuel).1 == Yield(None) <==> x.Some?)
      && (x.None? ==> Send(g, x, fuel).1 == Yield(Some(v)))
      && (x.Some? ==> Send(Send(g, x, fuel).0, y, fuel').1 == Yield(Some(v)))
  {
  }

  /** A generator that returned or raised only stops. */
  lemma ClosedStaysClosed(g: Gen, x: Option<int>, fuel: nat)
    requires g.point == Closed
    ensures Send(g, x, fuel) == (g, Stop)
  {
  }

  /** The results of `run()`: the non-None yields in order, or the exception. */
  function Prepend(y: Option<int>, rest: Result<seq<int>, GenError>): Result<seq<int>, GenError> {
    match rest
    case Failure(e) => Failure(e)
    case Success(out) => if y.Some? then Success([y.value] + out) else Success(out)
  }

  /** `for x in grun`: `next` until `StopIteration`, at most `rounds` times. */
  function Drain(g: Gen, rounds: nat, fuel: nat): (Gen, Result<seq<int>, GenError>)
    decreases rounds
  {
    if rounds == 0 then (g, Failure(FuelExhausted))
    else
      var (g', reply) := Send(g, None, fuel);
      match reply
      case Stop => (g', Success([]))
      case Error(e) => (g', Failure(e))
      case Yield(y) =>
        var (g'', rest) := Drain(g', rounds - 1, fuel);
        (g'', Prepend(y, rest))
  }

  /** `run()` never feeds an input: a program that reaches opcode 3 raises. */
  lemma RunRejectsInput(rest: seq<int>, rounds: nat, fuel: nat)
    requires rounds >= 2 && fuel >= 1
    ensures Drain(Fresh([3] + rest), rounds, fuel).1 == Failure(IntOfNone)
  {
    var g := Fresh([3] + rest);
    assert g.at.mem[0] == 3;
    assert Exec(g.at) == InputRequest;
  }

  /** `run()` of `104,a,104,b,99` is `[a, b]`. */
  lemma RunCollectsOutputs(a: int, b: int, rounds: nat, fuel: nat)
    requires rounds >= 4 && fuel >= 1
    ensures Drain(Fresh([104, a, 104, b, 99]), rounds, fuel).1 == Success([a, b])
  {
    var g := Fresh([104, a, 104, b, 99]);
    assert ModeChar(104, 1) == '1';
    assert Exec(g.at) == OutputCaptured(a);
    assert Exec(g.at.(p := 2)) == OutputCaptured(b);
    assert Exec(g.at.(p := 4)) == Halt;
    var s1 := Send(g, None, fuel).0;
    assert s1.point == AtStart;
    var s2 := Send(s1, None, fuel);
    assert s2.1 == Yield(Some(a)) && s2.0 == Gen(AtOutput, g.at, None);
    var s3 := Send(s2.0, None, fuel);
    assert s3.1 == Yield(Some(b)) && s3.0 == Gen(AtOutput, g.at.(p := 2), None);
    var s4 := Send(s3.0, None, fuel);
    assert s4.1 == Stop;
    assert Drain(s3.0, rounds - 3, fuel).1 == Success([]);
    assert [b] + [] == [b];
    assert Drain(s2.0, rounds - 2, fuel).1 == Success([b]);
    assert [a] + [b] == [a, b];
    assert Drain(s1, rounds - 1, fuel).1 == Success([a, b]);
  }

  /** `Intcode` of intcode.py. */
  class Intcode {
    const opcodes: InfiniteMemory

    constructor (image: seq<int>)
      ensures opcodes.data == Load(image)
    {
      opcodes := new InfiniteMemory(image);
    }

    /** `run()`: runs a fresh generator over `opcodes` without inputs and
        collects the non-None values it yields, in order. */
    method Run(rounds: nat, fuel: nat) returns (r: Result<seq<int>, GenError>)
      modifies opcodes
      ensures var (g, result) := Drain(Gen(Created, Machine(old(opcodes.data), 0, 0), None), rounds, fuel);
        r == result && opcodes.data == g.at.mem
    {
      var g := Gen(Created, Machine(opcodes.data, 0, 0), None);
      CollectIsDrain(g, rounds, fuel, []);
      PrependNothing(Drain(g, rounds, fuel).1);
      ghost var total := Collect(g, rounds, fuel, []);
      var result: seq<int> := [];
      var n := rounds;
      while true
        invariant Collect(g, n, fuel, result) == total
        invariant opcodes.data == g.at.mem
        decreases n
      {
        var done;
        g, result, done := Pull(g, n, result, fuel);
        if done.Some? {
          return done.value;
        }
        n := n - 1;
      }
    }

    /** One `next(grun)` of `run()`'s loop, with `result` the values collected
        so far: the loop's answer when it ends here, `None` when it goes on. */
    method Pull(g: Gen, n: nat, result: seq<int>, fuel: nat)
      returns (g': Gen, result': seq<int>, done: Option<Result<seq<int>, GenError>>)
      requires opcodes.data == g.at.mem
      modifies opcodes
      ensures opcodes.data == g'.at.mem
      ensures done.Some? ==> (g', done.value) == Collect(g, n, fuel, result)
      ensures done.None? ==> n > 0 && Collect(g', n - 1, fuel, result') == Collect(g, n, fuel, result)
    {
      if n == 0 {
        return g, result, Some(Failure(FuelExhausted));
      }
      var reply;
      g', reply := Send(g, None, fuel).0, Send(g, None, fuel).1;
      opcodes.data := g'.at.mem;
      match reply
      case Stop =>
        return g', result, Some(Success(result));
      case Error(e) =>
        return g', result, Some(Failure(e));
      case Yield(y) =>
        result' := if y.Some? then result + [y.value] else result;
        done := None;
    }
  }

  /** `run()`'s loop as a function: `next(grun)` at most `rounds` times,
      appending the non-None values to `out`. */
  function Collect(g: Gen, rounds: nat, fuel: nat, out: seq<int>): (Gen, Result<seq<int>, GenError>)
    decreases rounds
  {
    if rounds == 0 then (g, Failure(FuelExhausted))
    else
      var (g', reply) := Send(g, None, fuel);
      match reply
      case Stop => (g', Success(out))
      case Error(e) => (g', Failure(e))
      case Yield(y) => Collect(g', rounds - 1, fuel, if y.Some? then out + [y.value] else out)
  }

  /** The loop collects what `for x in grun` yields: the accumulating and the
      recursive reading agree. */
  lemma {:induction false} CollectIsDrain(g: Gen, rounds: nat, fuel: nat, out: seq<int>)
    ensures Collect(g, rounds, fuel, out) == (Drain(g, rounds, fuel).0, PrependAll(out, Drain(g, rounds, fuel).1))
    decreases rounds
  {
    if rounds > 0 {
      var (g', reply) := Send(g, None, fuel);
      if reply.Yield? {
        var y := reply.value;
        CollectIsDrain(g', rounds - 1, fuel, if y.Some? then out + [y.value] else out);
        PrependAllStep(out, y, Drain(g', rounds - 1, fuel).1);
      } else if reply.Stop? {
        assert out + [] == out;
      }
    }
  }

  lemma PrependNothing(rest: Result<seq<int>, GenError>)
    ensures PrependAll([], rest) == rest
  {
    if rest.Success? {
      assert [] + rest.value == rest.value;
    }
  }

  function PrependAll(out: seq<int>, rest: Result<seq<int>, GenError>): Result<seq<int>, GenError> {
    match rest
    case Failure(e) => Failure(e)
    case Success(tail) => Success(out + tail)
  }

  lemma PrependAllStep(out: seq<int>, y: Option<int>, rest: Result<seq<int>, GenError>)
    ensures PrependAll(out, Prepend(y, rest)) ==
      PrependAll(if y.Some? then out + [y.value] else out, rest)
  {
    if rest.Success? && y.Some? {
      assert out + ([y.value] + rest.value) == (out + [y.value]) + rest.value;
    }
  }

  /** `IntcodeRunner.communicate(input_value)`: the reply of `send`, `None`
      with `finished` set on `StopIteration`, exceptions passed through. */
  function CommunicateSpec(g: Gen, finished: bool, input: Option<int>, fuel: nat): (Gen, bool, Result<Option<int>, GenError>) {
    var (g', reply) := Send(g, input, fuel);
    match reply
    case Yield(y) => (g', finished, Success(y))
    case Stop => (g', true, Success(None))
    case Error(e) => (g', finished, Failure(e))
  }

  /** Through `IntcodeRunner`, `3,0,4,0,99` answers `x` on the call after the one
      that sent `x`, then reports that it finished. */
  lemma RunnerEcho(x: int, fuel: nat)
    requires fuel >= 1
    ensures var g0 := Gen(AtStart, Machine(Load([3, 0, 4, 0, 99]), 0, 0), None);
      && var (g1, f1, r1) := CommunicateSpec(g0, false, Some(x), fuel);
      && r1 == Success(None) && !f1
      && var (g2, f2, r2) := CommunicateSpec(g1, f1, None, fuel);
      && r2 == Success(Some(x)) && !f2
      && var (g3, f3, r3) := CommunicateSpec(g2, f2, None, fuel);
      && r3 == Success(None) && f3
  {
    var mem := Load([3, 0, 4, 0, 99]);
    assert ModeChar(3, 1) == '0' && ModeChar(4, 1) == '0';
    assert Exec(Machine(mem, 0, 0)) == InputRequest;
    var m1 := Machine(mem[0 := x], 2, 0);
    assert ResumeInput(Machine(mem, 0, 0), x) == Success(m1);
    assert Exec(m1) == OutputCaptured(x);
    assert Exec(Machine(mem[0 := x], 4, 0)) == Halt;
  }

  /** `IntcodeRunner`. */
  class IntcodeRunner {
    var gen: Gen
    var finished: bool

    /** Creates the generator and advances it to its first `yield`. */
    constructor (image: seq<int>)
      ensures gen == Send(Fresh(image), None, 0).0 && gen.point == AtStart
      ensures !finished
    {
      gen := Send(Fresh(image), None, 0).0;
      finished := false;
    }

    /** `communicate(input_value)`. */
    method Communicate(input: Option<int>, fuel: nat) returns (r: Result<Option<int>, GenError>)
      modifies this
      ensures (gen, finished, r) == CommunicateSpec(old(gen), old(finished), input, fuel)
    {
      var (g', reply) := Send(gen, input, fuel);
      gen := g';
      match reply
      case Yield(y) =>
        r := Success(y);
      case Stop =>
        finished := true;
        r := Success(None);
      case Error(e) =>
        r := Failure(e);
    }
  }
}
