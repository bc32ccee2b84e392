/**
 * The simulator's execution controller: the `Cpu` object with its register
 * file, its program-counter shadow, `currentAddress`, the `running` and
 * `hasFinished` flags and the step counter, driving an abstract instruction
 * engine through the per-instruction hook.
 */
module CpuCore {
  import opened SimpleRegisters
  import opened Memory
  import opened Control

  /** Which of the engine's own registers an engine-backed register stands for. */
  datatype EngineRegister = GeneralPurpose(index: nat) | StackPointer | LinkRegister

  /**
   * One entry of the register file: either a proxy to a register held by the
   * engine, or a software-tracked cell.
   */
  datatype Register = EngineBacked(id: EngineRegister) | Simple(cell: SimpleRegister)

  /** The outcome of a register file lookup: the entry, or an index error. */
  datatype Lookup = Found(register: Register) | IndexOutOfBounds

  class Cpu {
    const ram: Ram
    const registers: array<Register>
    const pc: SimpleRegister
    const currentAddress: SimpleRegister
    var running: bool
    var hasFinished: bool
    var startingAddress: int
    var endAddress: int
    var stepByStepRunning: StepMode
    /** The routines for which an engine hook has been installed, in order. */
    var routineHooks: seq<Routine>

    /**
     * The register file layout: r0-r12, sp and lr live in the engine, r15 is
     * the software program counter; the pc and `currentAddress` are two cells.
     */
    ghost predicate Valid()
      reads this, registers
    {
      && registers.Length == 16
      && (forall i :: 0 <= i < 13 ==> registers[i] == EngineBacked(GeneralPurpose(i)))
      && registers[13] == EngineBacked(StackPointer)
      && registers[14] == EngineBacked(LinkRegister)
      && registers[15] == Simple(pc)
      && pc != currentAddress
    }

    /** The controller state the hook and the run methods work on. */
    function Snapshot(): Control
      reads this, pc, currentAddress
    {
      Control(pc.Read(), currentAddress.Read(), running, hasFinished, stepByStepRunning)
    }

    /**
     * Sets up the register file, places the pc and `currentAddress` at the
     * starting address (as a 32-bit int), and registers the automatic
     * routines of `routines`. `ramSize` is not used by the controller.
     */
    constructor (ram: Ram, startingAddress: int, ramSize: int, routines: seq<Routine>)
      modifies ram
      ensures Valid() && fresh(registers) && fresh(pc) && fresh(currentAddress)
      ensures this.ram == ram
      ensures Snapshot() == Control(Low32(startingAddress), Low32(startingAddress), false, false, Idle)
      ensures pc.Read() == currentAddress.Read() == Low32(startingAddress)
      ensures !running && !hasFinished && stepByStepRunning == Idle
      ensures this.startingAddress == startingAddress && endAddress == 0
      ensures routineHooks == AutoRoutines(routines)
      ensures ram.bytes == InjectAll(old(ram.bytes), routines)
    {
      this.ram := ram;
      this.startingAddress := startingAddress;
      endAddress := 0;
      stepByStepRunning := Idle;
      running := false;
      hasFinished := false;
      routineHooks := [];
      var programCounter := new SimpleRegister.Init(Low32(startingAddress));
      var file := NewRegisterFile(programCounter);
      registers := file;
      pc := programCounter;
      currentAddress := new SimpleRegister.Init(Low32(startingAddress));
      new;
      RegisterCpuRoutines(routines);
    }

    /**
     * A fresh register file: r0-r12, sp and lr stand for the engine's
     * registers, r15 is the cell `programCounter`.
     */
    static method NewRegisterFile(programCounter: SimpleRegister) returns (file: array<Register>)
      ensures fresh(file) && file.Length == 16
      ensures forall i :: 0 <= i < 13 ==> file[i] == EngineBacked(GeneralPurpose(i))
      ensures file[13] == EngineBacked(StackPointer) && file[14] == EngineBacked(LinkRegister)
      ensures file[15] == Simple(programCounter)
    {
      file := new Register[16];
      for i := 0 to 13
        invariant forall k :: 0 <= k < i ==> file[k] == EngineBacked(GeneralPurpose(k))
      {
        file[i] := EngineBacked(GeneralPurpose(i));
      }
      file[13] := EngineBacked(StackPointer);
      file[14] := EngineBacked(LinkRegister);
      file[15] := Simple(programCounter);
    }

    /**
     * Registers every routine of `routines` that is not marked for manual
     * registration, in order.
     */
    method RegisterCpuRoutines(routines: seq<Routine>)
      modifies this`routineHooks, ram
      ensures routineHooks == old(routineHooks) + AutoRoutines(routines)
      ensures ram.bytes == InjectAll(old(ram.bytes), routines)
    {
      for i := 0 to |routines|
        invariant routineHooks == old(routineHooks) + AutoRoutines(routines[..i])
        invariant ram.bytes == InjectAll(old(ram.bytes), routines[..i])
      {
        assert routines[..i + 1][..i] == routines[..i];
        if !routines[i].manuallyAdded {
          RegisterCpuRoutine(routines[i]);
        }
      }
      assert routines[..|routines|] == routines;
    }

    /**
     * Installs the routine's engine hook at its address and writes the
     * jump-back instruction there, one byte at a time; no other byte changes.
     */
    method RegisterCpuRoutine(routine: Routine)
      modifies this`routineHooks, ram
      ensures routineHooks == old(routineHooks) + [routine]
      ensures ram.bytes == Inject(old(ram.bytes), routine.address, JUMP_BACK)
      ensures forall k :: ByteAt(ram.bytes, k) ==
                if Covers(routine, k) then JUMP_BACK[k - routine.address] else ByteAt(old(ram.bytes), k)
    {
      routineHooks := routineHooks + [routine];
      for i := 0 to |JUMP_BACK|
        modifies ram
        invariant ram.bytes == Inject(old(ram.bytes), routine.address, JUMP_BACK[..i])
      {
        assert JUMP_BACK[..i + 1][..i] == JUMP_BACK[..i];
        ram.SetByte(routine.address + i, JUMP_BACK[i]);
      }
      assert JUMP_BACK[..|JUMP_BACK|] == JUMP_BACK;
    }

    /**
     * The instruction hook, called by the engine before the instruction at
     * `address`; `stop` is whether it asked the engine to stop.
     */
    method InstructionHook(address: int) returns (stop: bool)
      requires Valid()
      modifies this`running, this`hasFinished, this`stepByStepRunning, pc, currentAddress
      ensures Valid()
      ensures Snapshot() == Hook(old(Snapshot()), address, WordValue(ram.bytes, address) == 0).after
      ensures stop == Hook(old(Snapshot()), address, WordValue(ram.bytes, address) == 0).stop
    {
      stop := false;
      pc.SetValue(Low32(Low32(address) + INSTRUCTION_WIDTH));
      currentAddress.SetValue(Low32(address));
      if stepByStepRunning == Armed {
        stepByStepRunning := Fired;
      } else if stepByStepRunning == Fired {
        stop := true;
        running := false;
      }
      var word := ram.GetValue(address);
      if word == 0 {
        stop := true;
        hasFinished := true;
        running := false;
      }
    }

    /**
     * One engine call from `begin`: before each instruction the hook runs;
     * the engine stops at `until`, on the hook's request, or out of fuel.
     */
    method EmuStart(begin: int, until: int, next: int -> int, fuel: nat)
      requires Valid()
      modifies this`running, this`hasFinished, this`stepByStepRunning, pc, currentAddress
      ensures Valid()
      ensures Snapshot() == Engine(old(Snapshot()), ram.bytes, begin, until, next, fuel)
    {
      var address, left, stopped := begin, fuel, false;
      while !stopped && left > 0 && address != until
        invariant Valid()
        invariant stopped ==> Snapshot() == Engine(old(Snapshot()), ram.bytes, begin, until, next, fuel)
        invariant !stopped ==>
          Engine(Snapshot(), ram.bytes, address, until, next, left) ==
          Engine(old(Snapshot()), ram.bytes, begin, until, next, fuel)
        decreases left
      {
        stopped := InstructionHook(address);
        if !stopped {
          address := next(address);
        }
        left := left - 1;
      }
    }

    /** Runs the whole program from `currentAddress` up to `endAddress + 4`. */
    method RunAllAtOnce(next: int -> int, fuel: nat)
      requires Valid()
      modifies this`running, this`hasFinished, this`stepByStepRunning, pc, currentAddress
      ensures Valid()
      ensures Snapshot() == RunAllSpec(old(Snapshot()), ram.bytes, endAddress, next, fuel)
      ensures !running && hasFinished
    {
      running := true;
      hasFinished := false;
      stepByStepRunning := Idle;
      ghost var entry := Snapshot();
      assert entry == old(Snapshot()).(running := true, finished := false, step := Idle);
      var begin := currentAddress.GetValue();
      EmuStart(begin, endAddress + INSTRUCTION_WIDTH, next, fuel);
      ghost var ran := Snapshot();
      assert ran == Engine(entry, ram.bytes, entry.current, endAddress + INSTRUCTION_WIDTH, next, fuel);
      if !hasFinished {
        var now := currentAddress.GetValue();
        currentAddress.SetValue(Low32(now + INSTRUCTION_WIDTH));
      }
      running := false;
      hasFinished := true;
      assert Snapshot() == (if !ran.finished then ran.(current := Low32(ran.current + INSTRUCTION_WIDTH)) else ran).(running := false, finished := true);
    }

    /** Executes one instruction from `currentAddress`. */
    method RunStep(next: int -> int, fuel: nat)
      requires Valid()
      modifies this`running, this`hasFinished, this`stepByStepRunning, pc, currentAddress
      ensures Valid()
      ensures Snapshot() == RunStepSpec(old(Snapshot()), ram.bytes, next, fuel)
      ensures !running
    {
      running := true;
      hasFinished := false;
      stepByStepRunning := Armed;
      ghost var entry := Snapshot();
      assert entry == old(Snapshot()).(running := true, finished := false, step := Armed);
      var startAddress := currentAddress.GetValue();
      EmuStart(startAddress, startAddress + INSTRUCTION_WIDTH, next, fuel);
      assert Snapshot() == Engine(entry, ram.bytes, entry.current, entry.current + INSTRUCTION_WIDTH, next, fuel);
      var now := currentAddress.GetValue();
      if startAddress == now && !hasFinished {
        currentAddress.SetValue(Low32(now + INSTRUCTION_WIDTH));
      }
      running := false;
    }

    /** Cancels a run: the program is neither running nor finished. */
    method InterruptMe()
      modifies this`running, this`hasFinished
      ensures !running && !hasFinished
      ensures Snapshot() == old(Snapshot()).(running := false, finished := false)
    {
      running := false;
      hasFinished := false;
    }

    /** The address of the next instruction, as a 32-bit int. */
    method GetCurrentAddress() returns (address: int)
      ensures address == currentAddress.Read() && IsInt32(address)
    {
      address := currentAddress.GetValue();
    }

    /** Moves `currentAddress`, truncating to a 32-bit int. */
    method SetCurrentAddress(address: int)
      requires Valid()
      modifies currentAddress
      ensures Valid()
      ensures currentAddress.Read() == Low32(address)
      ensures Snapshot() == old(Snapshot()).(current := Low32(address))
    {
      currentAddress.SetValue(Low32(address));
    }

    /** Sets the address of the last instruction of the loaded program. */
    method SetEndAddress(address: int)
      modifies this`endAddress
      ensures endAddress == address
    {
      endAddress := address;
    }

    /**
     * The register file entry `n`; r15 is the software program counter. An
     * index outside the file is the array-index error of the register array.
     */
    method GetRegister(n: int) returns (r: Lookup)
      requires Valid()
      ensures 0 <= n < 16 ==> r == Found(registers[n])
      ensures !(0 <= n < 16) ==> r == IndexOutOfBounds
      ensures n == 15 ==> r == Found(Simple(pc))
      ensures 0 <= n < 13 ==> r == Found(EngineBacked(GeneralPurpose(n)))
    {
      if 0 <= n < registers.Length {
        r := Found(registers[n]);
      } else {
        r := IndexOutOfBounds;
      }
    }
  }
}
