# Execution control of the ARM teaching simulator

This project models the core that runs a student's program in the ARM teaching simulator (ARMStrong). That core is the `Cpu` object and the `SimpleRegister` cell it relies on.

`Cpu` owns these pieces of state:
- a 16-entry register file;
- a software program counter (r15);
- a `currentAddress` cell;
- the `running` and `hasFinished` flags;
- the step counter `stepByStepRunning`: 0 is idle, 1 is armed, 2 is fired.

An external instruction engine does the executing. It calls an instruction hook before each instruction. The hook:
- tracks the program counter and `currentAddress`;
- moves the step counter through its arm / fire / stop states;
- ends the program when the memory word at the hooked address is zero.

`runStep` executes one instruction and `runAllAtOnce` runs the whole program. Registering a virtual routine writes a `bx lr` trampoline at the routine's address.

Layout, one module per concern:
- `simple_register.dfy`, module `SimpleRegisters`:
  - `Low32`, which is Java's `Long.intValue`, its `(int)` cast and its 32-bit `int` addition;
  - the `SimpleRegister` class, one 64-bit field that reads back as a signed 32-bit int.
- `memory.dfy`, module `Memory`: the part of the simulator's memory that `Cpu` uses.
  - Memory is a map from address to byte; a byte never written reads as zero.
  - `SetByte` stores one byte.
  - `GetValue` reads a 4-byte word.
- `control.dfy`, module `Control`: the controller state as a value. It holds:
  - `Hook`, the hook;
  - `Engine`, the engine loop;
  - `RunStepSpec` and `RunAllSpec`, the two entry points;
  - `Inject` and `InjectAll`, trampoline injection.
- `control_properties.dfy`, module `ControlProperties`: the lemmas about those functions.
- `cpu.dfy`, module `CpuCore`: the `Cpu` class.
  - Its fields are the controller's own fields of the source: `ram`, the register file, `pc`, `currentAddress`, `running`, `hasFinished`, `startingAddress`, `endAddress` and `stepByStepRunning`.
  - The engine handle `u`, `cpsr` and `svcHandler` are absent. `routineHooks` is added: it records the routine hooks installed with the engine.
  - Its methods update the fields step by step.
  - The hook, engine and run methods (`InstructionHook`, `EmuStart`, `RunAllAtOnce`, `RunStep`) tie the new controller state `Snapshot()` to a `Control` function of the old state.
  - `InterruptMe` and `SetCurrentAddress` state the new `Snapshot()` as an update of the old one, with only the fields they set changed.
  - `RegisterCpuRoutines` and `RegisterCpuRoutine` state the new memory through `InjectAll` and `Inject`. `SetEndAddress` and `GetRegister` state the field or entry directly.

The engine is abstract. It has three parts:
- `next(a)`: the address the engine moves to after executing the instruction at `a`, supplied by the caller;
- a `fuel` bound on the number of instructions one engine call may reach;
- the Unicorn stopping rule: the engine stops without calling the hook once it reaches the `until` address, and it does not execute an instruction whose hook asked it to stop.

The `+ 4` on an address at Cpu.java:140, 183 and 197 is Java `int` arithmetic. The model writes it out as `Low32(... + 4)`, and `Low32AddLow32` proves that `(int)a + 4` and `(int)(a + 4)` agree. The `+ 4` at Cpu.java:137 and 180, which gives the engine's stop address, is a `long` sum. The model writes it as an exact sum.

Three behaviours of the code that the model keeps as written:
- Cpu.java:144 sets `hasFinished` to true, unconditionally, once the engine call of `runAllAtOnce` returns normally. A run that ends without a zero word, out of fuel or interrupted, therefore also reads as finished. An engine error is different: it throws past this line (see "## Left out").
- Cpu.java:137 passes an instruction count of 0 to the engine, which means no limit. The model bounds the engine by `fuel` instead.
- Cpu.java:182 decides whether to add 4 after a step by comparing addresses only. So a branch to itself (`b .`) is reported as a fall-through to the next instruction (`RunStepSelfBranch`), and the next step starts after the loop.

## Model

| member | source | states |
|---|---|---|
| SimpleRegisters.Low32 | src/projetarm_v2/simulator/core/SimpleRegister.java:14-17 | the read-back value is a signed 32-bit int congruent to the stored value modulo 2^32 |
| SimpleRegisters.Low32OfInt32 | src/projetarm_v2/simulator/core/SimpleRegister.java:14-22 | a value already in the signed 32-bit range is read back exactly |
| SimpleRegisters.Low32AddLow32 | src/projetarm_v2/simulator/core/Cpu.java:197 | Java's `(int)address + 4` equals the truncation of `address + 4` |
| SimpleRegisters.SimpleRegister.constructor | src/projetarm_v2/simulator/core/SimpleRegister.java:6-8 | a default-constructed register holds 0 and reads 0 |
| SimpleRegisters.SimpleRegister.Init | src/projetarm_v2/simulator/core/SimpleRegister.java:10-12 | a register constructed with `v` holds `v` and reads its low 32 bits as a signed int |
| SimpleRegisters.SimpleRegister.Read | src/projetarm_v2/simulator/core/SimpleRegister.java:14-17 | the read value is a signed 32-bit int congruent to the stored value |
| SimpleRegisters.SimpleRegister.GetValue | src/projetarm_v2/simulator/core/SimpleRegister.java:14-17 | returns the low 32 bits of the stored value, as a signed int, and changes nothing |
| SimpleRegisters.SimpleRegister.SetValue | src/projetarm_v2/simulator/core/SimpleRegister.java:19-22 | after a write, the stored value is the one written and the read is its truncation, whatever was stored before; within the int range the round trip is exact |
| SimpleRegisters.ReadTwice | src/projetarm_v2/simulator/core/SimpleRegister.java:14-17 | two reads in a row agree |
| Memory.WordValue | src/projetarm_v2/simulator/core/Cpu.java:209 | the word at an address is zero exactly when its four bytes are zero, under any byte order |
| Memory.Ram.SetByte | src/projetarm_v2/simulator/core/Cpu.java:115 | the byte at the address becomes the one written; every other byte is kept |
| Memory.Ram.GetValue | src/projetarm_v2/simulator/core/Cpu.java:209 | the word read is zero exactly when the four bytes are zero; memory is not changed |
| Control.Inject | src/projetarm_v2/simulator/core/Cpu.java:114-116 | after writing the code byte by byte, byte `address + i` holds `code[i]` for each `i` below the length; all other bytes are unchanged |
| Control.Hook | src/projetarm_v2/simulator/core/Cpu.java:196-215 | in every step mode the pc becomes `(int)address + 4` and `currentAddress` becomes `(int)address`. A zero word stops the engine, sets `hasFinished` and clears `running`. Any other word keeps `hasFinished` and stops the engine only when the counter had fired. The step transitions are in `HookStepMode` |
| Control.Engine | src/projetarm_v2/simulator/core/Cpu.java:137 | an engine call never clears `hasFinished`; the counter stays idle, or stays out of idle, and fired stays fired. With the counter idle, `IdleEngineFinishes` gives when the call ends the program |
| Control.RunStepSpec | src/projetarm_v2/simulator/core/Cpu.java:171-187 | a step returns with `running` false and the counter armed or fired. Its outcomes are in `RunStepFallthrough`, `RunStepBranch`, `RunStepSelfBranch` and `RunStepAtSentinel` |
| Control.RunAllSpec | src/projetarm_v2/simulator/core/Cpu.java:130-145 | a run to completion returns with `running` false, `hasFinished` true and the counter idle, whenever the engine call returns. Its outcomes are in `RunAllAdvancesUnlessZeroWord`, `RunAllStopsAtSentinel` and `RunAllReachesEnd` |
| Control.InjectAll | src/projetarm_v2/simulator/core/Cpu.java:99-116 | every byte that registration changes lies in the range of an automatic routine. Placement is in `TrampolinesPlaced`, manual routines in `ManualRoutinesLeaveMemory` |
| Control.AutoRoutines | src/projetarm_v2/simulator/core/Cpu.java:99-106 | a routine is registered automatically exactly when it is not marked for manual registration |
| ControlProperties.HookStepMode | src/projetarm_v2/simulator/core/Cpu.java:202-207 | armed becomes fired with no stop request. Fired stops the engine and clears `running`. Idle keeps the counter and asks for no stop. The only other stop source is a zero word |
| ControlProperties.StepModeStopsBySecondHook | src/projetarm_v2/simulator/core/Cpu.java:202-207 | once armed, the first or the second hook call stops the engine |
| ControlProperties.StepModeNeedsTwoHooks | src/projetarm_v2/simulator/core/Cpu.java:196-214 | an armed engine call has the same outcome with any fuel of two or more: it reaches at most two hooks |
| ControlProperties.RunStepFallthrough | src/projetarm_v2/simulator/core/Cpu.java:171-187 | a non-branching instruction: the engine stops at the end of the window without a second hook call. The controller advances `currentAddress` to the next instruction; the pc is there too, and the program is not finished |
| ControlProperties.RunStepBranch | src/projetarm_v2/simulator/core/Cpu.java:171-187 | a taken branch to another address `t`: `currentAddress` is `t` and the pc is `t + 4`. The program is finished exactly when the word at `t` is zero |
| ControlProperties.RunStepSelfBranch | src/projetarm_v2/simulator/core/Cpu.java:178-184 | a branch to itself is indistinguishable from a fall-through: `currentAddress` ends at the start address + 4 |
| ControlProperties.RunStepAtSentinel | src/projetarm_v2/simulator/core/Cpu.java:171-187 | a step at a zero word marks the program finished and leaves `currentAddress` in place |
| ControlProperties.StraightLineSteps | src/projetarm_v2/simulator/core/Cpu.java:171-187 | `n` steps over straight-line assembled code advance `currentAddress` by exactly `4n` |
| ControlProperties.IdleEngineFinishes | src/projetarm_v2/simulator/core/Cpu.java:209-214 | with the counter idle, an engine call ends the program exactly when it was already finished, or the walk of `next` from the start meets a zero word before the stop address within the fuel |
| ControlProperties.RunAllAdvancesUnlessZeroWord | src/projetarm_v2/simulator/core/Cpu.java:137-141 | `currentAddress` gets `+ 4` after the engine returns exactly when the walk from the current address meets no zero word before `endAddress + 4`; otherwise it stays where the last hook put it |
| ControlProperties.EngineRunsToSentinel | src/projetarm_v2/simulator/core/Cpu.java:209-214 | with the counter idle, straight-line code followed by a zero word stops at that word: it becomes `currentAddress`, and the pc is 4 past it |
| ControlProperties.EngineRunsToUntil | src/projetarm_v2/simulator/core/Cpu.java:137 | with the counter idle, fully assembled straight-line code runs to the stop address; the last hook call was at the last instruction |
| ControlProperties.RunAllStopsAtSentinel | src/projetarm_v2/simulator/core/Cpu.java:130-145 | over straight-line code, a run to completion stops at the first zero word at or before the end address, which becomes the current address, with the program finished |
| ControlProperties.RunAllReachesEnd | src/projetarm_v2/simulator/core/Cpu.java:130-145 | over straight-line code assembled up to the end address, a run leaves `currentAddress` at `endAddress + 4`, with the program finished |
| ControlProperties.TrampolineIsNotSentinel | src/projetarm_v2/simulator/core/Cpu.java:109-117 | after registration, the word at a routine's address is not zero, so reaching it does not end the program |
| ControlProperties.ManualRoutinesLeaveMemory | src/projetarm_v2/simulator/core/Cpu.java:99-103 | routines marked for manual registration are skipped: memory is unchanged |
| ControlProperties.TrampolinesPlaced | src/projetarm_v2/simulator/core/Cpu.java:99-116 | when the automatic routines' ranges are pairwise disjoint (manual routines may overlap anything), each automatic routine's range holds the trampoline bytes, in any registration order |
| ControlProperties.TwoInstructionProgram | src/projetarm_v2/simulator/core/Cpu.java:130-187 | with two instructions at 0x1000 and 0x1004, single steps give 0x1004 and then 0x1008; a run to completion ends at 0x1008, finished |
| CpuCore.Cpu.constructor | src/projetarm_v2/simulator/core/Cpu.java:45-92 | r0-r12, sp and lr are engine registers and r15 is the software pc. The pc and `currentAddress` both read `startingAddress` (as an int). `running` and `hasFinished` are false and the step counter is idle. `endAddress` is 0. The automatic routines are registered |
| CpuCore.Cpu.NewRegisterFile | src/projetarm_v2/simulator/core/Cpu.java:56-64 | a fresh 16-entry file: r0-r12, sp and lr stand for the engine's registers and r15 is the given program-counter cell |
| CpuCore.Cpu.RegisterCpuRoutines | src/projetarm_v2/simulator/core/Cpu.java:94-107 | hooks are installed for the automatic routines in order, and memory is the result of injecting their trampolines in order |
| CpuCore.Cpu.RegisterCpuRoutine | src/projetarm_v2/simulator/core/Cpu.java:109-117 | installs the routine's hook and writes `jumpBackInstruction[i]` at `address + i`; no other byte changes |
| CpuCore.Cpu.InstructionHook | src/projetarm_v2/simulator/core/Cpu.java:196-215 | the new controller state and the stop request are those of `Hook` applied to the old state and the zero test of the word at the address |
| CpuCore.Cpu.EmuStart | src/projetarm_v2/simulator/core/Cpu.java:137 | the engine loop, which calls the hook before each instruction, leaves the state that `Engine` computes |
| CpuCore.Cpu.RunAllAtOnce | src/projetarm_v2/simulator/core/Cpu.java:130-145 | the new state is `RunAllSpec` of the old one; `running` is false and `hasFinished` is true on return |
| CpuCore.Cpu.RunStep | src/projetarm_v2/simulator/core/Cpu.java:171-187 | the new state is `RunStepSpec` of the old one; `running` is false on return |
| CpuCore.Cpu.InterruptMe | src/projetarm_v2/simulator/core/Cpu.java:219-223 | `running` and `hasFinished` are false; nothing else changes |
| CpuCore.Cpu.GetCurrentAddress | src/projetarm_v2/simulator/core/Cpu.java:229-231 | returns the 32-bit value of `currentAddress` |
| CpuCore.Cpu.SetCurrentAddress | src/projetarm_v2/simulator/core/Cpu.java:232-234 | `currentAddress` reads the address truncated to an int; nothing else changes |
| CpuCore.Cpu.SetEndAddress | src/projetarm_v2/simulator/core/Cpu.java:155-157 | stores the end address used by `runAllAtOnce` |
| CpuCore.Cpu.GetRegister | src/projetarm_v2/simulator/core/Cpu.java:147-149 | returns entry `n` of the register file when `0 <= n < 16`, where r15 is the software program counter; any other `n` gives the index error of the array access |

## Left out

- Instruction decoding and execution are left out: that is the engine's job, not the controller's. The effect of each instruction on control flow is summarised by the caller-supplied `next`. It depends only on the address, so branches whose target depends on register or flag values are captured only to the extent that `next` encodes them.
- Engine registers (r0-r12, sp, lr) are identified by name but hold no values. Their values live in the engine.
- `Engine` / `EmuStart`: the engine's unlimited instruction count (`0`) is replaced by a `fuel` bound. A program that never reaches a zero word or the stop address is modelled only up to that bound.
- `synchronizeUnicornRam` is not modelled. Its only effect is to copy memory into the engine, and the model's engine reads the same memory map.
- Memory writes made by the simulated program during an engine call are not modelled: memory is constant during one call.
- Control.Engine / CpuCore.Cpu.EmuStart: the engine never fails in the model. In the source, `emu_start` (Cpu.java:137, 180) throws an unchecked `UnicornException` on an engine error, such as an access outside the 2 MiB mapped at Cpu.java:75 or an undefined instruction. That exception skips the rest of `runAllAtOnce` (Cpu.java:139-144) and `runStep` (Cpu.java:182-186): `running` stays true, `hasFinished` is not set and `currentAddress` is not advanced. This exceptional exit is not modelled, so `RunAllSpec`, `RunStepSpec`, `RunAllAtOnce` and `RunStep` describe only the runs in which the engine returns normally.
- What a routine's or the SVC handler's engine hook does when it fires is not modelled. `routineHooks` only records which routine hooks were installed.
- `Memory.WordValue`: the word is composed little-endian from unsigned bytes. The memory class is not part of this model, and only whether the word is zero matters to `Cpu`; that does not depend on byte order or sign.
- Routine discovery by reflection is replaced by an explicit list of routines, each with its manual-registration flag. Discovery failures, which the source swallows, are not modelled. The source iterates a set in no fixed order; the lemmas assume disjoint routine ranges, where the order does not matter.
- `jumpBackInstruction` is the fixed encoding of `bx lr` (`1E FF 2F E1`). The assembler that produces it is not part of this model.
- The status register (`Cpsr`, `setZ(false)`), the memory mapping and the hook registration with the engine are not modelled at the instruction level.
- Atomics are plain fields. `interruptMe` racing the hook from another thread during a run is not modelled; `InterruptMe` is modelled as a call between runs, where stopping the engine has no effect.
- The log line of the hook is not modelled.
- The no-argument constructor is not modelled. It is the main constructor with a fresh memory, the starting address 0x1000 and a 2 MiB size.
- These plain field accessors are not modelled: `isRunning`, `hasFinished`, `getRam`, `getCPSR`, `getStartingAddress` and `setStartingAddress`.
- `ramSize` is accepted and ignored, as in the source: the engine maps a fixed 2 MiB.
- Java `long` wrap-around is not modelled in `endAddress + 4` (Cpu.java:137) or in `address + i` (Cpu.java:115). Both are exact integer sums in the model; they differ from the source only for addresses within 4 of the `long` range's end.
- `CpuCore.Cpu.GetRegister` returns `IndexOutOfBounds` where the source throws `ArrayIndexOutOfBoundsException` (Cpu.java:148).
- `Memory.ByteAt` and the `Memory.Ram` constructor are helpers for the memory class, which is not part of this model. They have no row above.
