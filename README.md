# Advent of Code 2019 — Intcode and puzzle kernels in Dafny

A model of the computational core of a set of Advent of Code 2019 solutions,
written in Python with a few Rust ports.

**The Intcode computer.** It exists in three versions, and all three are modelled:

- The final Python engine has a sparse memory and an explicit lifecycle (`NOT_STARTED`,
  `WAITING_FOR_INPUT`, `OUTPUT_READY`, `INTERMEDIATE`, `FINISHED`), with each call guarded by
  `_assert_state`.
  - Its generator is modelled as a state machine. One pass of the interpreter loop is the
    function `Exec`, and the run to the next pause is `Run`. The engine class keeps its memory,
    instruction pointer, relative base and state as fields.
  - A run is bounded by a `fuel` count, because a program may loop forever.
- The Rust port uses `i64` values and `u64` addresses. The model makes both explicit:
  - the `as u64` / `as i64` casts are arithmetic modulo 2^64;
  - an overflowing addition or multiplication is the panic of a debug build.
- The older generator-driven Python version is modelled with its `yield` points named
  explicitly, including the extra `None` it yields after an input has been sent.
  - Its memory and its instruction decoding are the same code as in the final engine, so both
    models share one definition (`PyIntcodeCore`).

**The puzzle kernels.** Each has a module of its own:

- card-shuffle index maps and their inverses;
- the bug automaton with its biodiversity rating;
- moon gravity and the common period;
- nanofactory ore accounting and the fuel bisection;
- breadth-first distances in a labyrinth;
- the repair droid's depth-first exploration;
- orbit paths and transfer distances;
- the vacuum robot's movement routines;
- the tractor-beam bisection;
- crossed wires;
- the layered space image;
- password criteria;
- the fuel counter, in Python and in Rust;
- the hull-painting robot.

**The input readers.** The Python and Rust readers are modelled as functions of the text they
are given. Opening files is not modelled.

**Abstractions.** Where a kernel talks to an Intcode program, the program becomes a parameter:
- the beam test is a predicate;
- the painting robot's brain is a function from the values sent so far to the next reply;
- the ore calculation is a function inside the fuel search.

**Shared modules.** `Wrappers` holds `Option` and `Result`. `Decimal` models `str` and `int`
on integers. `Text` models `split`, `join`, `splitlines`, whitespace splitting and stripping.
`NumberTheory` holds gcd, the modular inverse and lcm.

## Model

| member | source | states |
|---|---|---|
| PyIntcodeCore.Load | python/src/intcode.py:7-8 | the memory built from an image holds exactly the addresses 0..N-1 |
| PyIntcodeCore.MemoryLaws | python/src/intcode.py:10-19 | a fresh memory reads back the image and then 0 everywhere else; a write at a non-negative address is read back there and changes no other address; a write at a negative address fails its assert |
| PyIntcodeCore.InfiniteMemory.constructor | python/src/intcode.py:7-8 | the dictionary starts as the image indexed from 0 |
| PyIntcodeCore.InfiniteMemory.Get | python/src/intcode.py:10-13 | a read fails exactly at a negative index; otherwise it returns the stored value or 0 |
| PyIntcodeCore.InfiniteMemory.Set | python/src/intcode.py:15-19 | a write fails exactly at a negative index and then leaves the dictionary alone; otherwise exactly that one key is set |
| PyIntcodeCore.ModeCharIsText | python/src/intcode.py:120-122 | the mode of parameter i is the i-th character from the right of `str(op_value // 100)`, or '0' past its end, with the minus sign of a negative instruction included |
| PyIntcodeCore.ModeCharIsDigit | python/src/intcode.py:118-122 | for a non-negative instruction that textual mode is the decimal digit `(op_value // 100) // 10^(i-1) % 10` |
| PyIntcodeCore.RelativeIsShiftedPosition | python/src/intcode.py:121-129 | a relative-mode operand is the position-mode operand at the raw value shifted by `relative_base` |
| PyIntcodeCore.ExecEffects | python/src/intcode.py:117-185 | one pass of the loop: an unknown opcode raises exactly when reached; 99 halts, 3 asks for input, 4 yields `read(1)`; 1, 2, 7, 8 advance `p` by 4, write the sum, the product or the 0/1 of the comparison of `read(1)` and `read(2)` to the address of parameter 3, and change nothing else; 5 and 6 jump to `read(2)` or advance by 3; 9 moves `relative_base` by `read(1)` |
| PyIntcodeCore.ModeFaults | python/src/intcode.py:122-137 | a mode digit other than 0, 1, 2 fails `assert mode in '012'` for a read, and any mode but 0 or 2 fails `assert mode in '02'` for the write of 1, 2, 7, 8 and the input store of 3 |
| PyIntcodeCore.ImmediateWriteFaults | python/src/intcode.py:131-140 | `11101,1,1,0,99` adds in immediate mode and then faults on its immediate-mode store |
| PyIntcodeCore.RunPausesAtCause | python/src/intcode.py:117-185 | a run stops only at the instruction that caused the stop: input request, output, halt or fault |
| PyIntcodeCore.RunSplit | python/src/intcode.py:117-185 | running a steps and then b more is running a + b steps once the first a already paused |
| PyIntcode.StateError | python/src/intcode.py:88-105 | no error exactly when the engine is in the expected state; "already started" exactly when `NOT_STARTED` was expected and the engine has left it; "already finished" only for a finished engine |
| PyIntcode.SettleStep | python/src/intcode.py:107-111 | where the engine lands after a call, by the first instruction: input request gives `WAITING_FOR_INPUT`, output gives `OUTPUT_READY` with the value held, halt gives `FINISHED` (the `StopIteration` of `_step`), a fault propagates |
| PyIntcode.SettleConsistent | python/src/intcode.py:107-111 | after any run the state agrees with the suspended generator: waiting means it sits at an opcode 3, output ready means it sits at an opcode 4 holding that output |
| PyIntcode.OperationsKeepConsistent | python/src/intcode.py:67-86 | `start`, `write_input` and `read_output` each preserve that agreement |
| PyIntcode.WrongStateRefused | python/src/intcode.py:67-105 | each operation raises `IntcodeError` exactly when called in a state other than the one it asserts, and then changes nothing |
| PyIntcode.StateGates | python/src/intcode.py:67-105 | for every value and bound, `write_input` is accepted exactly in the waiting-for-input state and `read_output` exactly in the output-ready state, and both refuse a finished program as finished |
| PyIntcode.CompletedCallIsObservable | python/src/intcode.py:67-86 | a call that returns normally leaves the engine finished, waiting for input or holding an output |
| PyIntcode.EchoProgram | python/src/intcode.py:139-185 | `3,0,4,0,99` waits for input after `start`, holds the written value, and finishes once it is read |
| PyIntcode.HaltAtStart | python/src/intcode.py:180-181 | a program starting with 99 is finished after `start` |
| PyIntcode.LargeImmediateOutput | python/src/intcode.py:124-129 | an immediate-mode output yields its literal however large |
| PyIntcode.LargeProduct | python/src/intcode.py:139-141 | a multiplication is exact on unbounded integers: the 16-digit product is output |
| PyIntcode.Intcode.constructor | python/src/intcode.py:50-53 | a new engine holds the image in memory, is `NOT_STARTED` and has no generator |
| PyIntcode.Intcode.Drive | python/src/intcode.py:107-185 | resuming the generator runs it to its next pause and lands the engine where the run specification says |
| PyIntcode.Intcode.Advance | python/src/intcode.py:117-185 | one pass of the loop either continues with one step less and the same run ahead, or settles the engine as the whole run would |
| PyIntcode.Intcode.Start | python/src/intcode.py:67-70 | `start()` behaves as its specification: refused unless not started, otherwise runs from address 0 to the first pause |
| PyIntcode.Intcode.WriteInput | python/src/intcode.py:81-86 | `write_input(value)` is refused unless waiting for input, otherwise stores the value and runs to the next pause |
| PyIntcode.Intcode.ReadOutput | python/src/intcode.py:72-79 | `read_output()` is refused unless an output is ready, otherwise returns it and runs to the next pause |
| PyIntcode.Intcode.IsFinished | python/src/intcode.py:55-57 | `finished` is true exactly when `write_input` and `read_output` are refused because the program has finished |
| PyIntcode.Intcode.HasOutput | python/src/intcode.py:59-61 | `has_output` is true exactly when `read_output` is not refused by `_assert_state` |
| PyIntcode.Intcode.RequiresInput | python/src/intcode.py:63-65 | `requires_input` is true exactly when `write_input` is not refused by `_assert_state` |
| PyIntcodeGen.InputTakesHeldValue | intcode.py:74-78 | opcode 3 takes the value sent just before it and yields `None` to wait for the next one; with nothing sent, `int(None)` raises |
| PyIntcodeGen.OutputAfterSend | intcode.py:79-84 | opcode 4 yields its value at once when nothing was sent, and first an extra `None` (then the value on the following `send`) when an input was just sent |
| PyIntcodeGen.ClosedStaysClosed | intcode.py:110-113 | a generator that returned or raised only raises `StopIteration` afterwards |
| PyIntcodeGen.RunRejectsInput | intcode.py:30-38 | `run()` sends no inputs, so a program that reaches opcode 3 raises |
| PyIntcodeGen.RunCollectsOutputs | intcode.py:30-38 | `run()` on `104,a,104,b,99` returns `[a, b]`: the non-None yields in order |
| PyIntcodeGen.Intcode.constructor | intcode.py:27-28 | the memory holds the image |
| PyIntcodeGen.Intcode.Run | intcode.py:30-38 | `run()` returns what draining a fresh generator gives: the non-None values yielded, in order, or the exception raised |
| PyIntcodeGen.Intcode.Pull | intcode.py:35-37 | one `next(grun)` either finishes the loop with the drained result or appends a non-None value and leaves the same remaining result ahead |
| PyIntcodeGen.CollectIsDrain | intcode.py:33-38 | the accumulating loop returns the collected prefix followed by exactly what the remaining iterations yield |
| PyIntcodeGen.RunnerEcho | intcode.py:116-133 | through `IntcodeRunner`, `3,0,4,0,99` answers `None` to the call sending `x`, then `x`, then `None` with `finished` set |
| PyIntcodeGen.IntcodeRunner.constructor | intcode.py:121-125 | the generator is created and advanced to its first `yield`; not finished |
| PyIntcodeGen.IntcodeRunner.Communicate | intcode.py:127-133 | `communicate` returns what `send` yields, `None` with `finished` set on `StopIteration`, and lets other exceptions through |
| RustIntcode.AsU64 | rust/src/intcode.rs:129 | `v as u64` keeps the value modulo 2^64 |
| RustIntcode.AsI64 | rust/src/intcode.rs:142-143 | `a as i64` keeps the value modulo 2^64 |
| RustIntcode.CastsRoundTrip | rust/src/intcode.rs:129-143 | the two casts are inverse to each other, both ways |
| RustIntcode.AddI64 | rust/src/intcode.rs:209 | an `i64` addition succeeds exactly when the sum fits, and is then the sum; otherwise it panics |
| RustIntcode.MulI64 | rust/src/intcode.rs:213 | an `i64` multiplication succeeds exactly when the product fits, and is then the product |
| RustIntcode.AddU64 | rust/src/intcode.rs:133 | a `u64` address addition succeeds exactly when the sum stays below 2^64 |
| RustIntcode.Load | rust/src/intcode.rs:27-35 | the memory built from an image holds exactly the addresses below its length |
| RustIntcode.MemoryLaws | rust/src/intcode.rs:37-46 | a fresh memory reads back the image and 0 past it; a `set` is read back by `get` and leaves every other address alone |
| RustIntcode.StepPauses | rust/src/intcode.rs:195-223 | from `Ready`, opcode 3 stays on its instruction in `AwaitingInput`, opcode 4 moves past it in `OutputReady` holding `read(1)`, 99 stays in `Finished`; from `InputReady` opcode 3 stores and moves on in `Ready` |
| RustIntcode.StepRejects | rust/src/intcode.rs:180-193 | a step succeeds only on a known opcode and only from `Ready` or `InputReady`; an unknown code panics |
| RustIntcode.RunEndsPaused | rust/src/intcode.rs:97-105 | `run` returns normally only in `Finished`, `AwaitingInput` or `OutputReady` |
| RustIntcode.WriteInputStores | rust/src/intcode.rs:117-125 | from `AwaitingInput`, `write_input` stores the value at parameter 1 of the input instruction and moves past it |
| RustIntcode.ModesAgree | rust/src/intcode.rs:127-131 | for a non-negative instruction the arithmetic mode digit equals the textual mode character of the Python interpreter |
| RustIntcode.ModePanics | rust/src/intcode.rs:127-162 | a mode digit above 2 panics with "Unexpexted address mode" in `get_reference`, `read` and `write`, and in every instruction that reads a parameter with it; a write in immediate mode panics, in `write_input`'s store and in the write of 1, 2, 7, 8 |
| RustIntcode.ImmediateWritePanics | rust/src/intcode.rs:155-161 | `11101,1,1,0,99` panics at its immediate-mode store |
| RustIntcode.StepNeverRefuses | rust/src/intcode.rs:164-267 | no step of `step()` raises the panics of `read_output` or `write_input` |
| RustIntcode.RunNeverRefusesFrom | rust/src/intcode.rs:97-105 | `run` itself never raises the "Cannot read_output" or "Cannot write_input" panics |
| RustIntcode.RunNeverRefuses | rust/src/intcode.rs:97-125 | the same for every state and bound, so those panics come only from the call that is made in the wrong state |
| RustIntcode.NegativeInstructionDiverges | rust/src/intcode.rs:180-192 | on the instruction -1 the Python interpreter halts (`-1 % 100 == 99`) while the Rust one panics on code 15 (`-1 as u64 % 100`) |
| RustIntcode.EchoProgram | rust/src/intcode.rs:97-125 | `3,0,4,0,99` waits for input, outputs the value written, and finishes once it is read |
| RustIntcode.EchoAwaitsInput | rust/src/intcode.rs:216-219 | started on an input instruction, `run` stops there in `AwaitingInput` |
| RustIntcode.EchoOutputsInput | rust/src/intcode.rs:196-223 | fed `x`, the echo program stores it at address 0 and stops at its output in `OutputReady(x)` |
| RustIntcode.EchoHalts | rust/src/intcode.rs:107-115 | its output read, it returns `x` and halts in `Finished` |
| RustIntcode.InfiniteMemory.constructor | rust/src/intcode.rs:27-35 | the map holds the image at addresses 0..N-1 |
| RustIntcode.InfiniteMemory.Get | rust/src/intcode.rs:37-42 | returns the stored value, or 0 for an absent address |
| RustIntcode.InfiniteMemory.Set | rust/src/intcode.rs:44-46 | sets exactly that one address |
| RustIntcode.IntCode.constructor | rust/src/intcode.rs:57-66 | a new engine holds the image, is `Ready`, at address 0 with relative base 0 |
| RustIntcode.IntCode.Get | rust/src/intcode.rs:68-70 | reads memory, 0 where unset |
| RustIntcode.IntCode.Set | rust/src/intcode.rs:72-74 | sets exactly that one address |
| RustIntcode.IntCode.Run | rust/src/intcode.rs:97-105 | steps while `Ready` or `InputReady` and ends where the run specification says, a panic included |
| RustIntcode.IntCode.ReadOutput | rust/src/intcode.rs:107-115 | panics unless an output is ready; otherwise returns it and runs on from `Ready` |
| RustIntcode.IntCode.WriteInput | rust/src/intcode.rs:117-125 | panics unless awaiting input; otherwise hands the value over through `InputReady` and runs |
| RustIntcode.IntCode.IsFinished | rust/src/intcode.rs:76-81 | a finished engine stays put under `run`, and both `read_output` and `write_input` panic on it |
| RustIntcode.IntCode.HasOutput | rust/src/intcode.rs:83-88 | `has_output()` is true exactly when `read_output` would not panic for its state |
| RustIntcode.IntCode.RequiresInput | rust/src/intcode.rs:90-95 | `requires_input()` is true exactly when `write_input` would not panic for its state |
| Shuffle.GetTechnique | solve22.py:48-57 | the three technique names give their technique (an increment technique keeps the inverse of its step); any other name, or an increment with no inverse modulo the deck size, is an error |
| Shuffle.Prev | solve22.py:11-12 | every `get_previous_index` lands on a position of the deck |
| Shuffle.NextPrevInverse | solve22.py:8-37 | for each technique, `get_next_index` keeps a position in the deck and `get_previous_index` undoes it, in both orders |
| Shuffle.NewStackInverse | solve22.py:8-12 | dealing into a new stack is undone by its previous-index map, in both orders |
| Shuffle.CutInverse | solve22.py:20-24 | a cut by `n` is undone by the opposite cut, in both orders |
| Shuffle.TrackRoundTrip | solve22.py:66-74 | tracking a card through all techniques and back-tracking it are inverse bijections of the deck |
| Shuffle.Techniques | solve22.py:44-46 | the techniques list has one well-formed technique per line of the definition, each the one `_get_technique` builds, or the first error |
| Shuffle.Pull | solve22.py:62-63 | one pass of `shuffle`: position `i` takes the card at the technique's previous index |
| Shuffle.Shuffler.constructor | solve22.py:41-46 | the shuffler keeps the deck size and the techniques |
| Shuffle.Shuffler.ShuffleDeck | solve22.py:59-64 | position `i` of the shuffled deck holds the card back-tracked from `i`; the deck is a permutation of `range(cards)`; the card `c` lies at the position `track_one_card(c)` |
| Shuffle.Shuffler.TrackOneCard | solve22.py:66-69 | the result is the card tracked through every technique in order, and back-tracking it gives the card back |
| Shuffle.Shuffler.BackTrackOneCard | solve22.py:71-74 | the result is the position back-tracked through the techniques in reverse order, and tracking it gives the position back |
| NumberTheory.ExtGcd | solve22.py:31 | extended Euclid: the gcd with Bezout coefficients |
| NumberTheory.ModInverse | solve22.py:31 | `pow(step, -1, n)`: on success a value in `[0, n)` whose product with the step is 1 modulo `n`; it fails exactly when the gcd is not 1 |
| NumberTheory.InverseCorrect | solve22.py:31 | a Bezout coefficient reduced modulo `n` is an inverse |
| NumberTheory.NoInverse | solve22.py:31 | when `pow(a, -1, n)` fails no inverse exists |
| NumberTheory.NotCoprimeNoInverse | solve22.py:31 | an `a` sharing a divisor above 1 with `n` has no inverse modulo `n` |
| NumberTheory.FailureMeansGcd | solve22.py:31 | failure of the inverse means the gcd is not 1 |
| NumberTheory.InverseCancels | solve22.py:33-37 | multiplying by the step and then by its inverse (or the other way round) modulo `n` gives back any position |
| NumberTheory.UnitTimes | solve22.py:33-37 | a number that is 1 modulo `n` leaves every position unchanged |
| NumberTheory.GcdDivides | solve12.py:92 | `math.gcd` is positive unless both arguments are 0, and divides both |
| NumberTheory.CommonPeriod | solve12.py:89-93 | `get_common_period` is positive |
| NumberTheory.CommonPeriodDividedByAll | solve12.py:89-93 | every period divides the common period |
| NumberTheory.CommonPeriodDividesCommonMultiples | solve12.py:89-93 | the common period divides every positive common multiple of the periods, so it is the least common multiple |
| Shuffle.IncrementInverse | solve22.py:26-37 | dealing with an increment is undone by multiplying by the inverse of the step, in both orders |
| Bugs.CountIn | solve24.py:10-13 | the count is at most the number of neighbours, and zero exactly when no neighbour is a bug |
| Bugs.StepIsRule | solve24.py:24-31 | when the neighbour relation is symmetric, examining only the bugs and their neighbours loses nothing: every cell is a bug after the step exactly when `calculate_next_value` is true for it |
| Bugs.SingleNeighboursExact | solve24.py:35-48 | the neighbours of a grid cell are exactly the grid cells one orthogonal step away |
| Bugs.SingleSymmetric | solve24.py:35-48 | single-grid neighbours stay on the grid and see each other |
| Bugs.RatingUpToBound | solve24.py:63-71 | the rating of the first `k` cells is below `2^k` |
| Bugs.RatingUpToInjective | solve24.py:63-71 | two grids with the same rating of the first `k` cells agree on those cells |
| Bugs.CellOfCovers | solve24.py:66-70 | every grid cell `(x, y)` is bit `5y + x` |
| Bugs.RatingIsEncoding | solve24.py:63-71 | the rating lies in `[0, 2^25)` and different grids have different ratings |
| Bugs.SingleLevelBugs.constructor | solve24.py:7-8 | the bugs are the given coordinates |
| Bugs.SingleLevelBugs.Step | solve24.py:24-31 | the new bugs are the examined cells, the bugs and their neighbours, whose next value is true |
| Bugs.SingleLevelBugs.BiodiversityRating | solve24.py:62-71 | the nested loops compute the sum of `2^(5y+x)` over the bugs, which is below `2^25` |
| Bugs.SingleStepIsRule | solve24.py:15-48 | a step of the single grid keeps the bugs on the grid: a bug survives exactly with one neighbouring bug and an empty cell is infested exactly by one or two |
| Bugs.MultiSymmetricAt | solve24.py:76-113 | the neighbours of a tile are tiles, never a centre, and see the tile in turn |
| Bugs.MultiOuterSees | solve24.py:79-102 | a tile's neighbour on the level outside sees the tile as a neighbour |
| Bugs.MultiSameLevelSymmetric | solve24.py:79-113 | neighbours on the same level see each other |
| Bugs.MultiSymmetric | solve24.py:76-113 | the nested-grid neighbour relation stays on the tiles and is symmetric |
| Bugs.MultiLevelLinks | solve24.py:79-113 | the four tiles around the centre see the five edge tiles of the level inside, the edge tiles see the matching tile of the level outside, and a tile beside the centre has eight neighbours |
| Bugs.MultiStepIsRule | solve24.py:15-113 | a step of the nested grids keeps the bugs on tiles and sets every tile of every level by the rule |
| Bugs.MultiLevelBugs.constructor | solve24.py:7-8 | the bugs are the given coordinates |
| Bugs.MultiLevelBugs.Step | solve24.py:24-31 | the new bugs are the examined tiles whose next value is true |
| Bugs.MultiLevelBugs.NumberOfBugs | solve24.py:139-141 | the number of bugs is zero exactly when there are none |
| Moons.Velocities | solve12.py:44-46 | one velocity per moon after the gravity pass |
| Moons.Positions | solve12.py:48-49 | one position per moon after the velocity pass |
| Moons.TotalPullZero | solve12.py:18-27 | gravity is antisymmetric, so the pulls of all moons on one another sum to zero |
| Moons.VelocitySumConserved | solve12.py:44-46 | a step leaves the sum of the velocities along an axis unchanged |
| Moons.Moon1D.constructor | solve12.py:8-10 | a new moon has the given position and velocity 0 |
| Moons.Moon1D.ApplyGravity | solve12.py:18-27 | the two moons move one unit of velocity towards each other (none when level); positions do not change; a moon paired with itself is left as it was |
| Moons.Moon1D.ApplyVelocity | solve12.py:29-30 | the position advances by the velocity; the velocity is kept |
| Moons.Moons1D.constructor | solve12.py:34-35 | one fresh, distinct moon per coordinate, each at rest |
| Moons.Moons1D.ApplyStep | solve12.py:44-49 | after gravity on every pair (`combinations`) and the velocity pass, the velocities are `Velocities` and the positions are `Positions` of the old state; the moon objects are the same |
| Moons.Moons1D.MoveAll | solve12.py:48-49 | every moon's position advances by its velocity; velocities are kept |
| Moons.Moons1D.GravityRow | solve12.py:45-46 | the pairs `(i, j)` with `j > i` add their pulls to both moons' velocities |
| Moons.EnergyZero | solve12.py:73-79 | the total energy is 0 exactly when every moon has zero potential or zero kinetic energy |
| Moons.Moons3D.constructor | solve12.py:53-55 | three disjoint axes holding the moons' x, y and z coordinates, all at rest; an empty coordinate list is refused, as unpacking `zip(*[])` fails |
| Moons.Moons3D.ApplyStep | solve12.py:57-59 | each axis takes one step of its own and the axes stay disjoint |
| Moons.Moons3D.GetMoons | solve12.py:61-71 | the position and velocity triples of each moon, gathered across the three axes |
| Moons.Moons3D.GetTotalEnergy | solve12.py:73-79 | the sum over the moons of potential times kinetic energy, never negative |
| Moons.GetCommonPeriod | solve12.py:89-93 | the loop computes `get_common_period`; it is positive and every period divides it |
| Ore.FloorDiv | python/src/solve14.py:22 | Python's `//`: the quotient rounded towards minus infinity, for either sign of divisor |
| Ore.RequirementsKeys | python/src/solve14.py:8-9 | the table's keys are exactly the output names of the specs |
| Ore.RequirementsLastWins | python/src/solve14.py:8-9 | each name maps to the quantity and inputs of the last spec that produces it |
| Ore.AddInputsGrows | python/src/solve14.py:24-25 | after the inputs loop, each chemical's requirement has grown by its amount among the inputs times the number of reactions |
| Ore.CeilingReactions | python/src/solve14.py:22-27 | `(quantity - 1) // produced + 1` is the ceiling of `quantity / produced`: at least one reaction, enough to cover the quantity, and an overproduction in `[0, produced)` |
| Ore.CalculateRequiredOre | python/src/solve14.py:4-30 | `[0]` of an empty list fails exactly as the source does when nothing but ORE could be left (a required fuel of 0 or less); a missing reaction names a chemical other than ORE that has no entry, a zero yield names the reaction that divides by 0; with positive reactions and a non-negative demand the ore returned is never negative, and on an acyclic table it is `OreFor`, the same whichever order the set iteration resolves the chemicals in |
| Ore.BalancedUnique | python/src/solve14.py:11-28 | on an acyclic table two balanced ledgers resolve the same demand for every chemical and call for the same ore, so the order of resolution cannot change the result |
| Ore.OreForBalanced | python/src/solve14.py:11-30 | the reference amount of ore is what any balanced ledger of an acyclic table calls for |
| Ore.LedgerInitial | python/src/solve14.py:5-6 | `required = {'FUEL': required_fuel}` with no surplus starts the ledger: nothing resolved, and the fuel order is the only demand |
| Ore.LedgerCovered | python/src/solve14.py:12-19 | a round whose surplus covers the demand keeps the ledger: the demand is resolved, the surplus shrinks by it and no batch runs |
| Ore.LedgerReacts | python/src/solve14.py:12-28 | a round with a shortfall keeps the ledger: `num_reactions` batches run, their inputs join the pending demand and the overproduction becomes the surplus |
| Ore.LedgerRound | python/src/solve14.py:12-28 | one pass of the `while` loop keeps the ledger, whichever chemical the set iteration picks |
| Ore.LedgerSettled | python/src/solve14.py:11-30 | when only ORE is pending, the resolved demands are balanced and `required['ORE']` is the ore they call for |
| Ore.ShortBatches | python/src/solve14.py:13-22 | with a shortfall the resolved demand of the chemical needs exactly `num_reactions` more batches, and no other chemical's batches change |
| Ore.ReactsBalance | python/src/solve14.py:24-28 | after the inputs loop and `del required[chemical]`, resolved plus pending demand still equals what the order and the batches call for |
| Ore.ReactsSurplus | python/src/solve14.py:15-26 | `surplus[chemical] += produced_quantity * num_reactions - quantity` is the overproduction of all batches of that chemical run so far |
| Ore.CoveredBalance | python/src/solve14.py:15-28 | a covered round leaves every demand the batches call for unchanged |
| Ore.CoveredSurplus | python/src/solve14.py:15-19 | a covered round's new surplus is still the overproduction of the batches run |
| Ore.RequiredGrows | python/src/solve14.py:24-28 | after the round the chemical has no pending entry and every input's entry grew by what the batches consume |
| Ore.ReceivedGrows | python/src/solve14.py:24-25 | `n` more batches of one reaction add `n` times its input amounts to the demand for each chemical |
| Ore.ReceivedKept | python/src/solve14.py:15-19 | the same batches give the same demands |
| Ore.FlowUpdate | python/src/solve14.py:24-25 | changing one reaction's batches changes the total consumption of a chemical by what those batches consume |
| Ore.RoundCovered | python/src/solve14.py:13-19 | with no shortfall the batches already run cover the larger resolved demand |
| Ore.RoundShort | python/src/solve14.py:13-22 | with a shortfall, the batches already run plus `num_reactions` are exactly the ceiling of the new resolved demand over the yield |
| Ore.CoverSurplus | python/src/solve14.py:26 | the batches covering a demand never produce less than it |
| Ore.CoverUnique | python/src/solve14.py:22 | a positive demand has exactly one number of batches that covers it with less than one batch left over |
| Ore.RankedNoSelfUse | python/src/solve14.py:21-25 | in a ranked table no reaction consumes its own product, so the inputs loop never adds to the chemical being deleted |
| Ore.AddRequirements | python/src/solve14.py:24-25 | the loop leaves `required` as `AddInputs` says |
| Ore.RequirementsStayNonNegative | python/src/solve14.py:24-25 | non-negative requirements stay non-negative when non-negative amounts are added |
| Ore.AmountOfNonNegative | python/src/solve14.py:24-25 | non-negative input amounts add up to a non-negative amount |
| Ore.MaxFuel | python/src/solve14.py:37-54 | the division by the ore for one fuel fails exactly when that ore is 0; a result is always affordable, and a positive result is the last affordable one: one more fuel costs too much |
| Ore.LargestAffordable | python/src/solve14.py:48-54 | when more fuel never costs less ore, the result of the bisection is the largest affordable amount: exactly the amounts up to it are affordable |
| Labyrinth.MoveIsUnitStep | labyrinth.py:25-50 | every direction moves exactly one unit, `y` growing southwards: north exactly decreases `y`, south increases it, west decreases `x`, east increases it |
| Labyrinth.Opposite | labyrinth.py:52-58 | no direction is its own opposite |
| Labyrinth.OppositeUndoesMove | labyrinth.py:25-58 | `opposite` is an involution, a move followed by the opposite move returns to the start, and `up`/`down`, `left`/`right` undo each other |
| Labyrinth.AreaMap.constructor | labyrinth.py:68-69 | a new map holds the given cells |
| Labyrinth.AreaMap.Copy | labyrinth.py:71-72 | the copy is a new map, sharing nothing, with the same cells |
| Labyrinth.AreaMap.Peek | labyrinth.py:74-77 | a known cell gives its content, an unknown one the default |
| Labyrinth.AreaMap.Get | labyrinth.py:79-80 | `area[c]` is the known content, and a wall where the cell is unknown |
| Labyrinth.AreaMap.Set | labyrinth.py:82-83 | the cell gets the value and no other cell changes |
| Labyrinth.AreaMap.GetTargetLocations | labyrinth.py:88-89 | the target locations are exactly the cells holding a target |
| Labyrinth.SuccessorsMember | labyrinth.py:110-119 | a cell is a successor of a set exactly when one move of the search leads to it from a cell of the set |
| Labyrinth.NeighboursMember | labyrinth.py:113-119 | the neighbours the search considers from a cell are exactly the ends of its moves: not from a target, not into a wall |
| Labyrinth.ReachHasWalk | labyrinth.py:105-124 | every cell within `k` rounds of the search ends a walk of at most `k` moves from the start |
| Labyrinth.WalkReaches | labyrinth.py:105-124 | the end of every walk of at most `k` moves from the start is within `k` rounds |
| Labyrinth.ReachMonotone | labyrinth.py:110-124 | the cells reached only grow with the rounds |
| Labyrinth.ReachStable | labyrinth.py:110 | once a round adds no cell, no later round does |
| Labyrinth.LayerSuffices | labyrinth.py:111-124 | the cells new in round `k + 1` are exactly the unrecorded successors of the leaves of round `k`, so expanding only the leaves loses nothing |
| Labyrinth.ReachAvoidsWalls | labyrinth.py:118-119 | no cell reached, other than the start, is a wall or unknown |
| Labyrinth.FindDistances | labyrinth.py:105-125 | the start has distance 0; every recorded cell gets the round in which the search first reaches it, i.e. its fewest moves; every cell the search can reach is recorded; no recorded cell but the start is a wall |
| Labyrinth.SearchComplete | labyrinth.py:110 | when a round finds no new leaves, every reachable cell has been reached |
| Labyrinth.NextLayer | labyrinth.py:111-119 | the neighbours the loop collects from the leaves are exactly the next layer of the search |
| Labyrinth.LayerRecorded | labyrinth.py:121-123 | recording the next layer at the next distance keeps the invariant: the dictionary holds exactly the cells within that many rounds, each with its first round |
| Labyrinth.Record | labyrinth.py:122-123 | the leaves are added at the new distance and nothing else changes |
| Labyrinth.Expand | labyrinth.py:111-119 | the leaves collected are exactly the unrecorded cells one search move from a current leaf |
| Droid.Value | solve15.py:7-11 | each direction is sent to the droid as a command from 1 to 4 |
| Droid.ValueInjective | solve15.py:7-11 | different directions are different commands |
| Droid.MoveIsUnitStep | solve15.py:13-19 | every move changes exactly one coordinate by one, and different directions lead to different cells |
| Droid.Back | solve15.py:21-27 | no direction is its own way back |
| Droid.BackUndoesMove | solve15.py:13-27 | `back` is an involution, and a move followed by the move back returns to the start |
| Droid.AreaMap.constructor | solve15.py:44-46 | a new map knows no cell and no distance |
| Droid.AreaMap.Get | solve15.py:48-49 | a cell never stored reads as unknown, and a known cell reads as what is stored |
| Droid.AreaMap.Set | solve15.py:43 | `area[coord] = obj` stores the cell and leaves the distances alone |
| Droid.AreaMap.Record | solve15.py:95-104 | recording a visit stores the cell and its distance together |
| Droid.AreaMap.AvailableDirections | solve15.py:51-54 | the directions yielded are exactly those whose cell is not a wall, in the order north, south, west, east |
| Droid.AreaMap.GetLocations | solve15.py:56-57 | the locations are exactly the stored cells holding the object |
| Droid.FakeDroid.constructor | solve15.py:70-72 | the droid walks the given map from the given cell |
| Droid.FakeDroid.Move | solve15.py:74-84 | the assert fails exactly when the target cell is unknown; into a wall the droid stays and reports the wall; otherwise it moves there and reports whether it found the oxygen system |
| Droid.DistancesKept | solve15.py:87-104 | two stretches of exploration together never raise a distance and write only distances deeper than the current one |
| Droid.DistanceLowered | solve15.py:92-96 | writing `distance + 1` for a cell that had none or a larger one raises no distance |
| Droid.ExploreDepthFirst | solve15.py:87-106 | the exploration keeps cells and distances in step, brings the droid back to where it started, never raises a recorded distance, writes only distances deeper than the current one, writes only what the droid's map holds, and on a map whose open cells have all neighbours known it fails only by running out of recursion depth |
| Droid.ExploreDirection | solve15.py:89-106 | one turn of the loop keeps the same guarantees as the whole exploration |
| Droid.Visit | solve15.py:94-106 | the move, the recorded cell and distance, and the exploration beyond an open cell keep the same guarantees and bring the droid back |
| Droid.Descend | solve15.py:103-104 | the recursive call and the move back keep the same guarantees and return the droid to the cell it came from |
| Orbits.ReadOrbitTreeMapping | solve6.py:6-11 | the assert fails exactly when two pairs name the same satellite; otherwise the tree's keys are exactly the satellites, each mapped to its centre |
| Orbits.PathToCenter | solve6.py:16-20 | a path found is the path to the centre: it starts at the object, each next element is the centre of the one before, it ends at an object that orbits nothing, and it is no longer than the recursion allows |
| Orbits.PathUnique | solve6.py:16-20 | an object has one path to the centre |
| Orbits.PathSuffix | solve6.py:16-20 | the path of an object on a path is the rest of that path |
| Orbits.PathFound | solve6.py:16-20 | whenever the path exists and the recursion is deep enough, it is what `get_path_to_center` returns |
| Orbits.PathDistinct | solve6.py:16-20 | a path never visits an object twice |
| Orbits.Index | solve6.py:25 | `list.index` is the first position holding the object |
| Orbits.FirstCommon | solve6.py:30-33 | the nested loops find nothing exactly when the paths share no object; otherwise they return `i + j` for the first `i` on the first path whose object is on the second, at its first position `j` there |
| Orbits.GetOrbitalDistance | solve6.py:22-33 | the recursion runs out exactly when the first path, or the second path that is needed, cannot be found |
| Orbits.CommonTail | solve6.py:22-33 | two objects shared by two paths come in the same order on both, the same distance apart |
| Orbits.DistanceIsShortest | solve6.py:22-33 | the objects are unrelated (`None`) exactly when their paths share no object; otherwise the distance is the transfers through some shared object, and no shared object gives fewer |
| Orbits.DistanceToSelf | solve6.py:22-25 | an object is 0 transfers from itself |
| Orbits.DistanceSymmetric | solve6.py:22-33 | the distance does not depend on the order of the two objects |
| Orbits.TotalOrbits | solve6.py:39-41 | the sum exists only if every object's path to the centre is found |
| Orbits.TotalOrbitsAtLeast | solve6.py:39-41 | every satellite adds at least one orbit, so the total is at least the number of satellites |
| Orbits.ShortestThroughEnd | solve6.py:22-28 | when one object lies on the other's path, the index on that path is the shortest way round through any shared object |
| Orbits.ShortestThroughFirst | solve6.py:30-33 | the first shared object the nested loops find gives the shortest way round through any shared object |
| Routines.TurnLeft | python/src/solve17.py:80-86 | a left turn faces another robot direction |
| Routines.TurnRight | python/src/solve17.py:88-94 | a right turn faces another robot direction |
| Routines.TurnsInverse | python/src/solve17.py:80-94 | left and right undo each other, two turns either way face backwards, four left turns face the start |
| Routines.ForwardUnitStep | python/src/solve17.py:72-78 | `forward` moves exactly one unit along one axis, and forward after turning round walks back |
| Routines.ForwardRun | python/src/solve17.py:122-125 | the length of the run of 'F' at the front: every move before it is 'F' and the move after it is not |
| Routines.TokensAreTokens | python/src/solve17.py:118-133 | every token of a definition is a turn or a positive count of forward moves |
| Routines.TokensRoundTrip | python/src/solve17.py:118-137 | the definition loses nothing: expanding its tokens gives back exactly the moves |
| Routines.TokensSeparated | python/src/solve17.py:122-127 | each run of 'F' is counted whole: no two counts are adjacent |
| Routines.CountForwards | python/src/solve17.py:122-125 | the inner loop stops on the first move after `p` that is not 'F' and counts the moves it passed |
| Routines.MovesTokens | python/src/solve17.py:118-133 | the scan with the sentinel 'E' yields exactly the token sequence of the moves |
| Routines.MovesDefinition | python/src/solve17.py:136-137 | the definition is the tokens joined by commas, and splitting it at the commas gives them back |
| Routines.FirstMatch | python/src/solve17.py:144-145 | a group found is one of the groups and the moves start with it at `p` |
| Routines.FirstMatchNone | python/src/solve17.py:144 | no group is found exactly when the moves start with none of them at `p` |
| Routines.OnlyMatch | python/src/solve17.py:145 | with prefix-free groups at most one group matches, so the unpacking `grp, = ...` cannot fail |
| Routines.AddGroupPrefixFree | python/src/solve17.py:158-161 | a new group taken from the moves where no group matches, and that no group extends, keeps the groups prefix-free |
| Routines.ConsumeEnds | python/src/solve17.py:144-149 | the `while` loop stops where no group matches and never past the end of the moves |
| Routines.ConsumeSound | python/src/solve17.py:144-149 | the moves the `while` loop consumes are a run of existing groups, one main-routine step each, within the length limit |
| Routines.SearchSound | python/src/solve17.py:140-169 | a successful search returns at most `max_groups` groups that extend the given ones, each with a definition within the limit, and some main routine within the limit names them so that they spell the rest of the moves |
| Routines.TryLengthsSound | python/src/solve17.py:157-169 | the same promise for the `for` loop over new group lengths |
| Routines.SearchAfterConsume | python/src/solve17.py:151-157 | after the `while` loop: all moves consumed returns the groups; too many groups gives `None`; otherwise the `for` loop decides |
| Routines.SearchTooLong | python/src/solve17.py:148-149 | the search fails once the main routine grows beyond the limit |
| Routines.GroupMoves | python/src/solve17.py:140-169 | the corrected `group_moves` returns what the search specification gives |
| Routines.TryGroupLengths | python/src/solve17.py:157-169 | the corrected `for` loop returns what the specification of the loop gives from length 1 |
| Routines.AsWrittenStopsAfterF | python/src/solve17.py:157 | on "FL" with the group "F", the loop as written never tries the group "L", which would end at the last move |
| Routines.AsWrittenMissesLastGroup | python/src/solve17.py:157 | `group_moves("FL")` as written returns `None` |
| Routines.CorrectedAddsLastGroup | python/src/solve17.py:157-167 | with "F" consumed, the corrected loop adds "L" and succeeds |
| Routines.CorrectedFindsLastGroup | python/src/solve17.py:140-169 | the corrected search groups "FL" as "F" and "L" |
| Routines.Greedy | python/src/solve17.py:180-187 | a main routine found names groups whose concatenation is the moves |
| Routines.PrefixCodeUnique | python/src/solve17.py:180-187 | with prefix-free groups any main routine that spells the moves is the one the greedy loop finds, so the loop never raises on a grouping the search returned |
| Routines.MainRoutine | python/src/solve17.py:179-187 | the `while moves` loop computes the greedy decomposition, or fails as the `AssertionError` does |
| Routines.Names | python/src/solve17.py:178-183 | the main routine names step k by the letter of its group |
| Routines.MainRoutineLength | python/src/solve17.py:188 | the main routine's text has one letter per step and a comma between steps, the length the search limits |
| Routines.GroupDefinitionAsWritten | python/src/solve17.py:190 | as written, a name without a group fails (`moves_definition([])` joins a list) |
| Routines.GroupDefinition | python/src/solve17.py:190 | corrected: a name with a group has its definition, one without has the empty definition |
| Routines.GroupUsedTwice | python/src/solve17.py:144-152 | the group "F" consumes "FF" in two steps, in the search as written and as corrected |
| Routines.OneGroupSuffices | python/src/solve17.py:140-169 | the search, as written and as corrected, needs only one group for "FF" |
| Routines.AsWrittenMissingGroup | python/src/solve17.py:189-190 | `group_moves("FF")` as written finds the one group "F"; the definition of A is "1" and that of B fails, while the corrected definitions are "1", "" and "" |
| Routines.RoutinesFit | python/src/solve17.py:148-162 | every routine built from a grouping within the limits is at most 20 characters |
| Routines.CalculateMovementRoutines | python/src/solve17.py:177-190 | corrected (see Findings; the as-written paths are `Routines.AsWrittenMissesLastGroup` and `Routines.AsWrittenMissingGroup`): fails exactly when no grouping exists; otherwise four routines of at most 20 characters: a main routine and the definitions of at most three groups that it names so that they spell the moves |
| Routines.RoutineDefinitions | python/src/solve17.py:189-190 | corrected (see Findings; as written a missing group fails, `Routines.GroupDefinitionAsWritten`): the definitions of A, B and C, empty for a missing group |
| Beam.Bisect | python/src/solve19.py:73-83 | succeeds exactly when `high > low`, the test fails at `low` and passes at `high`; the value returned lies in `(low, high]`, passes, and the one before it fails |
| Beam.FirstPassing | python/src/solve19.py:73-83 | when the test only ever switches from failing to passing, the value `bisect` returns is the first passing one |
| Beam.FindFirst | python/src/solve19.py:86-91 | the result passes and the value before it fails; the bisection's assert fails exactly when the test passes at 1 and at 0; the result lies at or below the first power of `step` that passes, all smaller powers failing |
| Beam.BeamTester.constructor | python/src/solve19.py:9-12 | a tester starts with an empty cache |
| Beam.BeamTester.TestCoordinates | python/src/solve19.py:14-27 | the asserts fail exactly outside `[0, max_coord]`; otherwise the answer is the drone program's, a cached answer is reused without change, and a new one is added to the cache |
| Beam.BeamTester.Clamp | python/src/solve19.py:30 | the start is clamped into `[0, max_coord]` and left alone when already inside |
| Beam.BeamTester.MinY | python/src/solve19.py:31 | the lower bound of the search is between 0 and the start |
| Beam.BeamTester.MaxY | python/src/solve19.py:32 | the upper bound of the search is at most `max_coord` and above the start whenever the start is below `max_coord` |
| Beam.BeamTester.GetFirstY | python/src/solve19.py:29-45 | fails exactly for a column outside the range; from a start with the expected value, returns the top of the run of expected values within `[min_y, start]`; from one without, returns the first expected value up to `max_y`, or `None` when there is none there; the cache only grows |
| Wires.DistanceIsMetric | solve3.py:28-29 | the Manhattan distance is symmetric, zero exactly between equal coordinates, and obeys the triangle inequality |
| Wires.NextCoord | solve3.py:18-26 | a step exists exactly for the letters U, D, R and L (any other raises `KeyError`), and it moves exactly one unit |
| Wires.WireCoordinates | solve3.py:32-37 | the walk exists exactly when every move is a known letter; it starts at the start, has one more point than moves, and each point is the previous one moved by the next letter |
| Wires.WithinReach | solve3.py:32-37 | after `i` moves a wire is at most `i` from where it started |
| Wires.Crossings | solve3.py:45 | a coordinate is a crossing exactly when both wires visit it and it is not the central port |
| Wires.ClosestDistance | solve3.py:46 | `min` fails (`ValueError`) exactly on no crossings; otherwise the result is the distance of some crossing and no crossing is closer |
| Wires.ClosestCrossing | solve3.py:40-46 | fails with an unknown direction exactly when a wire has a bad letter; fails as `min()` of an empty set exactly when the wires do not cross; otherwise the distance to the closest crossing, attained and minimal |
| Wires.FirstSteps | solve3.py:52-57 | `setdefault` over the enumerated walk keys every visited coordinate, each with the step at which the wire first reaches it |
| Wires.FewestSteps | solve3.py:59 | fails exactly on no crossings; otherwise some crossing's combined steps, and no crossing has fewer |
| Wires.FirstStepsMinimum | solve3.py:52-59 | the minimum over the first-step dictionaries is the fewest combined first-visit steps over all crossings |
| Wires.FirstReachedUnique | solve3.py:54 | a coordinate is first reached at one step only |
| Wires.FewestCombinedSteps | solve3.py:49-59 | fails with an unknown direction exactly when a wire has a bad letter; otherwise the fewest combined steps to a crossing, each wire counted to its first visit |
| Image.Layers | solve8.py:9-14 | there are as many layers as asked for, each of exactly `w * h` pixels |
| Image.LayersFlatten | solve8.py:8-14 | the layers, put back one after the other, are the data: cutting loses and reorders nothing |
| Image.NewImage | solve8.py:5-10 | the constructor fails exactly when the layer size is zero (division by zero) or the data is not a whole number of layers (the assert); otherwise it keeps the width and height and cuts the data into valid layers that flatten back to the data |
| Image.OverlayPixel | solve8.py:17-21 | the pixel is '2' exactly when no value is black or white; otherwise it is the first value that is '0' or '1' |
| Image.ColumnVisible | solve8.py:23-24 | the overlaid value of a pixel is what shows through the layers: the first opaque layer's value, or transparent when there is none |
| Image.OverlayLayers | solve8.py:16-26 | fails (the length assert on an empty `zip`) exactly when there are no layers; otherwise one pixel per position, each in "012" and visible through the layers |
| Image.Rows | solve8.py:32 | a layer is cut into exactly `h` rows |
| Image.RenderRow | solve8.py:29-31 | a drawn row has the row's length and no newline |
| Image.PrintLayer | solve8.py:28-33 | drawing fails (the `int`/index error) exactly when some pixel inside the `w * h` rows is not 0, 1 or 2 |
| Image.DrawableIff | solve8.py:29-33 | the rows can be drawn exactly when every pixel they hold is 0, 1 or 2 |
| Image.PrintLayerSplit | solve8.py:33 | splitting the drawing at newlines gives back the drawn rows |
| Image.PrintLayerLines | solve8.py:28-33 | a whole layer is drawn as `h` lines of `w` characters, line `i` drawing pixels `i*w .. i*w+w-1` with ' ', '#', '?' |
| Image.FewestZeroes | solve8.py:39-40 | `min` by number of zeroes: none exactly for no layers, else the first layer with the fewest zeroes |
| Image.FirstFewestZeroesUnique | solve8.py:39-40 | the first layer with the fewest zeroes is unique, so the choice is determined |
| Image.Checksum | solve8.py:36-43 | fails exactly for data that is empty or not a multiple of 150; otherwise ones times twos of the first layer with the fewest zeroes |
| Image.Picture | solve8.py:46-50 | fails exactly for data that is empty or not a multiple of 150 |
| Image.PictureShowsFirstOpaque | solve8.py:46-50 | the picture is 6 lines of 25 characters, and the character at line `i`, column `j` draws what shows at pixel `25*i + j` through the layers |
| Password.NeverDecreasesSorted | solve4.py:8-9 | when no character exceeds the next, the text is sorted: every earlier character is at most every later one |
| Password.LeadRun | solve4.py:14 | the first run of equal characters: between 1 and the length, all equal to the first character, and ended by a different one |
| Password.Groups | solve4.py:14 | every group of `groupby` has length at least 1 |
| Password.GroupsSpellText | solve4.py:14 | the groups spell the text back, so `groupby` loses nothing |
| Password.GroupsMaximal | solve4.py:14 | two neighbouring groups never hold the same character |
| Password.GroupOfTwoIsExactPair | solve4.py:14-16 | a group of length 2 exists exactly when two equal adjacent characters have different neighbours |
| Password.Criteria2Iff | solve4.py:12-19 | the second criteria holds exactly when an exact pair exists and the digits never decrease |
| Password.Criteria2ImpliesCriteria1 | solve4.py:4-19 | every number passing `test_criteria2` passes `test_criteria1` |
| Password.FindMatching | solve4.py:22-23 | the numbers of `range(begin, end + 1)` that pass the test, all of them, in ascending order |
| Decimal.NatToString | solve4.py:5 | `str(n)` of a natural number: non-empty, decimal digits only, no leading zero |
| Decimal.NatToStringValue | solve4.py:5 | the digits of `str(n)` read back as `n` |
| Decimal.NatToStringLength | solve4.py:5 | `str(n)` has the least number of digits `k` with `n < 10^k` |
| Decimal.NatToStringDigit | solve4.py:5 | the `k`-th digit from the right of `str(n)` is `n // 10^k % 10` |
| Decimal.ParseIntToString | input_reader.py:33 | `int(str(n)) == n` for every integer |
| Decimal.NoWhitespaceStrip | input_reader.py:33 | a signed run of digits has no surrounding whitespace for `int` to strip |
| Fuel.RequiredFuel | python/src/solve1.py:5-6 | the fuel is the mass divided by three, rounded towards minus infinity, less two: `3 * (fuel + 2) <= mass < 3 * (fuel + 2) + 3` |
| Fuel.TotalFuel | python/src/solve1.py:9-13 | the total is 0 when the first step asks for negative fuel, otherwise at least the first step's fuel |
| Fuel.TotalFuelBound | python/src/solve1.py:9-13 | each step asks for less than the mass before it (so the recursion ends), and the total fuel is at most half the mass |
| Fuel.RustRequiredFuel | rust/src/day1.rs:4-6 | the `u64` subtraction fails exactly for masses below 6; otherwise the result is the Python fuel |
| Fuel.RustRequiredFuelRecursive | rust/src/day1.rs:8-15 | the Rust recursive fuel equals the Python total for every `u64` mass, and at most half the mass, so its sum never leaves `u64` |
| Painting.Sends | solve11.py:20 | `n` sends of a colour are `n` copies of that colour |
| Painting.ReadFrom | solve11.py:18-22 | a read sends at most `fuel` times; it sends at least once unless the bound cut it off, and a cut-off read used the whole bound |
| Painting.ReadFromAnswers | solve11.py:18-22 | the read returns the first answer that is not `None`: the value or the stop it reports is the reply to its last send, and every earlier send got `None` |
| Painting.ReadFromStep | solve11.py:19-22 | one send of the loop: a value or a stop ends the read, `None` sends again |
| Painting.Rotated | solve11.py:24-29 | a non-zero value turns right and zero turns left, modulo 4; the robot then steps one panel the new way it faces; the hull and the inputs are unchanged |
| Painting.RotatedSteps | solve11.py:24-29 | every turn moves the robot to a neighbouring panel; a left turn undoes a right one, and four right turns come back to the same heading |
| Painting.PaintRound | solve11.py:32-37 | one round keeps the heading an index into `DIRECTIONS` |
| Painting.PaintRoundEffect | solve11.py:31-39 | a round only adds inputs and paints at most the panel the robot stood on; a round that goes on paints that panel and moves to a neighbouring one, and a round that stops leaves position and heading alone |
| Painting.PaintRun | solve11.py:31-39 | the rounds keep the heading an index into `DIRECTIONS` |
| Painting.PaintRunStep | solve11.py:32-39 | `paint` is one round followed, when it goes on, by the rest of the rounds |
| Painting.PaintRunEffect | solve11.py:31-39 | `paint` returns only when the program stops or a bound is reached; painted panels stay painted and inputs are only added |
| Painting.PaintingRobot.constructor | solve11.py:9-16 | the robot starts at (0, 0), facing up, with the given hull and nothing sent |
| Painting.PaintingRobot.ReadValue | solve11.py:18-22 | the loop sends the colour of the robot's panel until an answer comes; the value and the new state are those of `ReadFrom`, and only the inputs change |
| Painting.PaintingRobot.Rotate | solve11.py:24-29 | the robot's new state is `Rotated` of the old one |
| Painting.PaintingRobot.PaintOnce | solve11.py:33-37 | one pass of the loop changes the robot as `PaintRound` says and reports how the round ended |
| Painting.PaintingRobot.Paint | solve11.py:31-39 | the loop leaves the robot in the state `PaintRun` describes and reports how it ended |
| Painting.PaintingRobot.Pass | solve11.py:32-39 | one pass of the loop: continuing leaves the rest of the run unchanged with one round less; stopping leaves the robot where the whole run ends |
| InputReader.ReadLines | input_reader.py:17-20 | the lines of a `TestInput` are empty exactly when its contents are |
| InputReader.ReadLinesJoin | input_reader.py:17-20 | on text whose lines end in `'\n'` alone, the lines joined with `'\n'` give the contents back (with the final newline re-added when there was one) |
| InputReader.ReadOneLine | input_reader.py:28-29 | the first line, or `StopIteration` exactly when the contents are empty |
| InputReader.ParseEach | input_reader.py:33 | a list comprehension over a parse: succeeds exactly when every element parses, with one value per element in order; otherwise it fails with the exception of an element |
| InputReader.ParseNumber | input_reader.py:33 | `int(x)`: fails with `ValueError` exactly when the text is not an integer |
| InputReader.ReadCommaSeparatedIntegers | input_reader.py:32-33 | empty contents raise `StopIteration`; otherwise one integer per comma-separated piece of the first line, or `ValueError` |
| InputReader.CommaSeparatedRoundTrip | input_reader.py:32-33 | integers written with `','.join(map(str, xs))` read back as the same list |
| InputReader.NoBoundaryOneLine | input_reader.py:17-29 | text without line boundaries is a single line, and it is the first line |
| InputReader.ParseSegment | input_reader.py:43-44 | a segment gives its first character and `int` of the rest; an empty segment raises `IndexError`, a bad count `ValueError` |
| InputReader.Expand | input_reader.py:45-46 | each direction repeated by its count (`range` of a count below one is empty): as many directions as the counts add up to, each one of the segments' |
| InputReader.ReadDirectionLine | input_reader.py:41-46 | fails exactly when a segment fails; otherwise as many directions as the counts add up to |
| InputReader.DirectionLineRoundTrip | input_reader.py:41-46 | segments written as "Dn" and joined with ',' read back as the same moves, expanded |
| InputReader.ReadDirectionsPerLine | input_reader.py:49-51 | one direction list per line; it fails exactly when a line does |
| InputReader.ReadOrbits | input_reader.py:36-38 | one piece list per line, with one more piece than the line has ')' |
| InputReader.ReadOrbitsLines | input_reader.py:36-38 | the pieces joined with ')' are the line; a line with one ')' gives the two names on either side |
| InputReader.ParseIntChar | input_reader.py:93 | `int` of one character is its digit value for a decimal digit, an error otherwise |
| InputReader.ReadDigits | input_reader.py:91-93 | one value per character of the first line, each its digit value; it fails exactly when the contents are empty or a character is not a digit |
| InputReader.ReadDigitsOfNumber | input_reader.py:91-93 | reading the decimal text of `n` gives its digits: the `k`-th from the right is `n // 10**k % 10` |
| InputReader.RowAsteroids | input_reader.py:56-58 | the `(x, y)` of exactly the '#' of a row from a column on, left to right |
| InputReader.MapAsteroids | input_reader.py:55-58 | the `(x, y)` of exactly the '#' of the rows from `y` on, row by row |
| InputReader.ReadAsteroidMap | input_reader.py:54-58 | exactly the positions of the '#' characters, listed row by row and left to right |
| InputReader.ReadLabyrinth | input_reader.py:81-88 | the map holds exactly the cells of each line with its trailing whitespace removed, each with its character; the last cell of a row is not whitespace |
| InputReader.ParseChemical | input_reader.py:76 | `amount, name = tokens` and `int(amount)`: a token list of the wrong length raises `ValueError`, as does a bad amount |
| InputReader.ReadReaction | input_reader.py:70-78 | one input per comma-separated piece before the arrow, each name a single token, and the output's name a single token |
| InputReader.ReadNanofactorySpecs | input_reader.py:68-78 | one reaction per line, each the one that line reads as; it fails exactly when a line does |
| InputReader.ReactionRoundTrip | input_reader.py:68-78 | a reaction written as "7 A, 1 D => 1 E" reads back as itself |
| InputReader.ReactionSides | input_reader.py:72-75 | the arrow splits a written reaction into its inputs and its output |
| InputReader.InputsRead | input_reader.py:73-76 | each comma-separated input of a written reaction reads back as that input |
| InputReader.ChemicalTokens | input_reader.py:73-76 | `split()` and `int` read "n name" back, whatever whitespace surrounds it |
| InputReader.ArrowAt | input_reader.py:72 | `find('=>')` locates the arrow written after the inputs |
| InputReader.DigitsEnd | input_reader.py:62 | the end of the run of digits from a position: digits before it, a non-digit or the end at it |
| InputReader.MatchInteger | input_reader.py:62 | a match of `-?\d+` is non-empty, an optional minus sign then digits, and greedy |
| InputReader.MatchedValueIsInt | input_reader.py:65 | the value of a matched integer is what `int` reads from it |
| InputReader.MatchField | input_reader.py:62-65 | a matched field ends after its literal and at least one character of integer |
| InputReader.MatchFieldIsInt | input_reader.py:62-65 | a matched field starts with its literal, its group is an integer match, and its value is `int` of the group |
| InputReader.ReadMoon | input_reader.py:62-65 | a line that does not match the pattern raises `AttributeError` |
| InputReader.ReadMoonWritten | input_reader.py:61-65 | a line written as `<x=X, y=Y, z=Z>` reads back as `(X, Y, Z)` for any integers |
| InputReader.ReadMoonFields | input_reader.py:62-65 | a line of three signed digit runs in the pattern reads as their values |
| InputReader.ReadMoons | input_reader.py:61-65 | one position per line, each the one its line reads as; it fails exactly when a line does |
| InputReader.IntToStringMatch | input_reader.py:62-65 | `str(n)` is matched by `-?\d+` and reads back as `n` |
| InputReader.FieldRead | input_reader.py:62-65 | a literal followed by an integer text and then a non-digit reads back as the value of that text and ends right after it |
| InputReader.ReadSides | input_reader.py:72-78 | the two sides of a reaction line: one input per comma-separated piece, every name a single token |
| InputReader.SidesRead | input_reader.py:72-78 | the two sides of a written reaction read back as that reaction |
| InputReader.MatchIntegerIsMatch | input_reader.py:62 | what the greedy match takes is `-?\d+` and no digit follows it |
| InputReader.MatchFields | input_reader.py:62-65 | the three fields matched one after the other give one value per literal and end within the line |
| RustInputReader.DayPathInjective | rust/src/input_reader.rs:16-20 | different day numbers name different input files |
| RustInputReader.ReadInput | rust/src/input_reader.rs:22-29 | direct input is returned as it is; a file path or a day number reads its file, and the `unwrap` panics exactly when that file cannot be read |
| RustInputReader.ReadLines | rust/src/input_reader.rs:31-39 | the loop collects every piece of the text between '\n's, empty ones included, or the read panic |
| RustInputReader.ReadLinesCount | rust/src/input_reader.rs:35 | there is one more line than newlines, and the lines joined with '\n' give the text back |
| RustInputReader.NonEmpty | rust/src/input_reader.rs:46 | the kept lines are exactly the non-empty pieces |
| RustInputReader.ParseAll | rust/src/input_reader.rs:47 | every piece parsed in order, or the `unwrap` panic exactly when some piece does not parse |
| RustInputReader.ReadNumberPerLine | rust/src/input_reader.rs:41-51 | the loop skips empty lines and parses the rest in order: the result is `NumbersPerLine` of the text, or the read panic |
| RustInputReader.ParseAllFailure | rust/src/input_reader.rs:44-50 | a line that does not parse makes the whole read panic |
| RustInputReader.ParseU64 | rust/src/input_reader.rs:47 | `u64::from_str` accepts an optional '+' and decimal digits, and yields their value |
| RustInputReader.ParseU64Text | rust/src/input_reader.rs:47 | the decimal text of a `u64` parses back to it |
| RustInputReader.NumbersPerLineRoundTrip | rust/src/input_reader.rs:41-51 | masses written one per line read back as the same list |
| RustInputReader.Tokens | rust/src/input_reader.rs:57-59 | the kept values are trimmed and non-empty |
| RustInputReader.ReadNumbersCommaSeparated | rust/src/input_reader.rs:53-64 | the loop trims every comma-separated piece, skips empty ones and parses the rest in order, or panics |
| RustInputReader.TokensFailure | rust/src/input_reader.rs:57-61 | a non-empty trimmed piece that does not parse makes the whole read panic |
| RustInputReader.TrailingSeparators | rust/src/input_reader.rs:53-64 | a final newline or a final comma adds no number |
| RustInputReader.ReadNumberStep | rust/src/input_reader.rs:41-51 | one more line: an empty one changes nothing, a parsed one appends its value, one that does not parse fails the whole text |
| Text.Split | input_reader.py:33 | `s.split(sep)` has one more piece than separators in `s`, and no piece contains the separator |
| Text.JoinSplit | input_reader.py:33 | joining the pieces of `s.split(sep)` with `sep` gives `s` back |
| Text.SplitJoin | input_reader.py:33 | splitting the join of separator-free pieces gives the pieces back |
| Text.SplitNoSep | input_reader.py:38 | text without the separator splits into itself alone |
| Text.SplitPrefix | input_reader.py:38 | a separator-free prefix followed by the separator is the first piece |
| Text.SplitSnocSep | rust/src/input_reader.rs:35 | a trailing separator adds an empty last piece |
| Text.SplitSnoc | rust/src/input_reader.rs:35 | appending any other character extends the last piece |
| Text.FirstBoundary | input_reader.py:19 | the index of the first line boundary, or the length when there is none |
| Text.SplitLines | input_reader.py:19 | `splitlines()` yields lines that contain no line boundary |
| Text.SplitLinesIsSplit | input_reader.py:19 | on text whose only line boundary is `'\n'`, `splitlines()` is `split('\n')`, without the empty piece after a final newline |
| Text.SplitWhitespace | input_reader.py:73-75 | `split()` yields non-empty tokens free of whitespace |
| Text.TokenEnd | input_reader.py:73-75 | the length of the leading run of non-whitespace characters |
| Text.SplitWhitespaceSkip | input_reader.py:73-75 | leading whitespace does not change `split()` |
| Text.SplitWhitespaceToken | input_reader.py:73-75 | a token followed by whitespace or the end is the first piece of `split()` |
| Text.SplitWhitespaceTwo | input_reader.py:73-75 | two tokens surrounded by whitespace split into exactly those two |
| Text.RStrip | input_reader.py:85 | `rstrip()` is a prefix that ends in a non-whitespace character, and it removes only whitespace |
| Text.LStrip | input_reader.py:33 | `lstrip()` is a suffix that starts with a non-whitespace character, and it removes only whitespace |
| Text.Trim | rust/src/input_reader.rs:58 | `trim()` leaves no whitespace at either end |
| Text.TrimIsInfix | rust/src/input_reader.rs:58 | `trim()` returns a contiguous piece of the text with only whitespace before and after it, so it removes leading and trailing whitespace and nothing else |
| Text.Find | input_reader.py:72 | `find` returns the lowest index where the pattern occurs, or -1 exactly when it occurs nowhere |

## Left out

- Reading input files (`read_lines` on a file name, `get_day_path`, `read_input` on a file path) and the `puzzleN` drivers that read the day's input file. The readers are modelled on the text they would read.
- Printing, `__str__`, `__repr__`, `print_hul` and the commented-out video output. These only format output.
- `write_input`'s `isinstance` guard and its `TypeError`. Values are integers in the model, so the guard cannot fail.
- Python's `threading` and `queue` imports. They are never used.
- `InfiniteMemory.__eq__` of intcode.py, `Bugs.copy`, `__eq__` and `__hash__` of the bug grids, and `Moon1D.__eq__` / `Moons1D.__eq__`. These are comparisons and copies of values, and the model's values already have equality and no aliasing.
- `DroidRemote` of solve15.py. It drives a puzzle Intcode program whose image is not part of this model. The exploration is modelled with `FakeDroid` only.
- `AftScaffoldingControlAndInformationInterface` of solve17.py: `scan_cameras`, `read_line`, `provide_input`, `provide_routines`, `find_intersections` and `detect_required_movements`. These exchange ASCII with a puzzle Intcode program. Only the direction tables of `detect_required_movements` are modelled.
- The summing loops of `solve1` / `solve2` in rust/src/day1.rs. They add up file input.
- Running out of fuel. Every loop that may not end (Intcode runs, the ore loop, the droid exploration, `find_first`, the orbit recursion) takes a `fuel` bound. Exhausting it is an outcome of its own, which the source does not have: there the program would keep running, or Python would hit its recursion limit.
- Ore.CalculateRequiredOre: the result is tied to `OreFor` only for tables with positive yields and no cycle among the reactions, as the puzzle's are. On a cyclic table the loop may depend on the resolution order or not settle at all, and the contract then states only the error cases and the sign. The model also does not show that a balanced ledger always exists; a successful run shows one does.
- RustIntcode.AddI64: an `i64` addition that overflows is modelled as the panic of a debug build. A release build wraps around modulo 2^64 instead, and the model does not describe that build.
- RustIntcode.MulI64: an overflowing `i64` multiplication is the debug-build panic; the release-build wrap-around is not modelled.
- RustIntcode.AddU64: an overflowing `u64` address addition is the debug-build panic; the release-build wrap-around is not modelled.
- Fuel.RustRequiredFuel: the `u64` subtraction below zero is the debug-build panic; the release-build wrap-around to a huge fuel value is not modelled.
- InputReader.ReadMoons: reading written moons back is proved line by line (`InputReader.ReadMoonWritten`), not for a whole file of moons.
- Decimal.ParseInt: Python's `int()` also accepts `_` between digits (`int("1_0")`) and non-ASCII Unicode decimal digits, and the regular expression `\d` of `read_moons` matches such digits too. The model reads ASCII digits only and rejects both.
- Painting.Reply: the brain's reply has no fault case. An Intcode exception raised inside `paint()` of solve11.py, which would end the program, cannot be represented.
- PyIntcodeCore.ResumeInput: the mode digits are decoded again from memory on resuming. The source keeps the modes decoded before it suspended. The two differ only if a caller changes the instruction word through `memory` while the engine waits for input, and the model does not capture that case.

## Findings

| source | as written | input that shows it | evidently intended | confidence | as-written member | corrected member |
|---|---|---|---|---|---|---|
| python/src/solve17.py:157 | `range(1, len(moves) - p)` never tries a new group that runs to the end of the moves | moves "FL": with "F" taken as a group, "L" would end at the last move and is never tried, so `group_moves` returns `None` and `zip('ABC', None)` raises `TypeError` | group lengths up to `len(moves) - p` inclusive, so that "FL" groups as "F" and "L" | high; not executed | Routines.AsWrittenMissesLastGroup | Routines.CorrectedFindsLastGroup |
| python/src/solve17.py:190 | `groups.get(name, [])` passes a list to `moves_definition`, whose `moves + 'E'` raises `TypeError` when fewer than three groups were found | moves "FF": one group "F" suffices, and the definition of B fails | an empty definition for a name without a group (`groups.get(name, '')`) | high; not executed | Routines.AsWrittenMissingGroup | Routines.GroupDefinition |
