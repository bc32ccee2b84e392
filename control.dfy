/**
 * The execution-control state machine of the simulator's `Cpu`, as values:
 * the per-instruction hook, the engine loop that calls it, the two run entry
 * points, and the injection of return trampolines for the virtual routines.
 *
 * The instruction-execution engine is abstracted: `next(a)` is the address
 * the engine moves to after executing the instruction at `a`, and `fuel`
 * bounds the number of instructions one engine call may reach.
 */
module Control {
  import opened SimpleRegisters
  import opened Memory

  /** The step counter `stepByStepRunning`: 0 idle, 1 armed, 2 fired. */
  datatype StepMode = Idle | Armed | Fired

  /**
   * The controller state the hook and the run methods update: the reads of
   * the program counter and of `currentAddress`, the two flags and the step
   * counter.
   */
  datatype Control = Control(pc: int, current: int, running: bool, finished: bool, step: StepMode)

  /** The state after one hook call, and whether the hook stopped the engine. */
  datatype HookOutcome = HookOutcome(after: Control, stop: bool)

  /** The width of one instruction. */
  const INSTRUCTION_WIDTH: int := 4

  /**
   * The instruction hook, invoked before the instruction at `address`;
   * `sentinel` says whether the memory word there is zero. The pc gets the
   * Java int `(int)address + 4`, `currentAddress` gets `(int)address`:
   * whatever the step mode, they are the look-ahead address and the address
   * itself, both as 32-bit ints. A zero word stops the engine, ends the
   * program and clears `running`; any other word leaves `hasFinished` alone
   * and stops the engine only when the step counter had already fired.
   */
  function Hook(c: Control, address: int, sentinel: bool): (r: HookOutcome)
    ensures r.after.pc == Low32(address + INSTRUCTION_WIDTH) && r.after.current == Low32(address)
    ensures sentinel ==> r.stop && r.after.finished && !r.after.running
    ensures !sentinel ==> r.after.finished == c.finished && r.stop == (c.step == Fired)
  {
    Low32AddLow32(address, INSTRUCTION_WIDTH);
    var tracked := c.(pc := Low32(Low32(address) + INSTRUCTION_WIDTH), current := Low32(address));
    var stepped :=
      if c.step == Armed then tracked.(step := Fired)
      else if c.step == Fired then tracked.(running := false)
      else tracked;
    if sentinel then HookOutcome(stepped.(finished := true, running := false), true)
    else HookOutcome(stepped, c.step == Fired)
  }

  /**
   * One engine call starting at `address`: the engine stops without a hook
   * call once it reaches `until`, stops when the hook asks it to, and stops
   * when the fuel runs out; otherwise it hooks, executes and moves on.
   * An engine call never clears `hasFinished`, and never moves the step
   * counter out of idle, into idle, or back from fired.
   */
  function Engine(c: Control, ram: map<int, byte>, address: int, until: int,
                  next: int -> int, fuel: nat): (r: Control)
    ensures c.finished ==> r.finished
    ensures r.step == Idle <==> c.step == Idle
    ensures c.step == Fired ==> r.step == Fired
    decreases fuel
  {
    if fuel == 0 || address == until then c
    else
      var o := Hook(c, address, WordValue(ram, address) == 0);
      if o.stop then o.after
      else Engine(o.after, ram, next(address), until, next, fuel - 1)
  }

  /**
   * `runStep`: arm the step counter, run the engine from the current address
   * with the window `[start, start + 4)`, and if the hook left the address
   * where it started and the program has not finished, advance it by one
   * instruction (32-bit int arithmetic). It always returns with `running`
   * false and the step counter used up (armed or fired, never idle).
   */
  function RunStepSpec(c: Control, ram: map<int, byte>, next: int -> int, fuel: nat): (r: Control)
    ensures !r.running && r.step != Idle
  {
    var entry := c.(running := true, finished := false, step := Armed);
    var start := entry.current;
    var ran := Engine(entry, ram, start, start + INSTRUCTION_WIDTH, next, fuel);
    var fixed :=
      if start == ran.current && !ran.finished then ran.(current := Low32(ran.current + INSTRUCTION_WIDTH))
      else ran;
    fixed.(running := false)
  }

  /**
   * `runAllAtOnce`: clear the step counter, run the engine from the current
   * address until `endAddress + 4`; unless the hook marked the program
   * finished, advance the address by one instruction; then the run is over
   * and marked finished whatever happened, with the step counter idle.
   */
  function RunAllSpec(c: Control, ram: map<int, byte>, endAddress: int, next: int -> int, fuel: nat): (r: Control)
    ensures !r.running && r.finished && r.step == Idle
  {
    var entry := c.(running := true, finished := false, step := Idle);
    var ran := Engine(entry, ram, entry.current, endAddress + INSTRUCTION_WIDTH, next, fuel);
    var fixed :=
      if !ran.finished then ran.(current := Low32(ran.current + INSTRUCTION_WIDTH))
      else ran;
    fixed.(running := false, finished := true)
  }

  /** `runStep` called `n` times in a row. */
  function RunSteps(c: Control, ram: map<int, byte>, next: int -> int, fuel: nat, n: nat): Control
    decreases n
  {
    if n == 0 then c else RunSteps(RunStepSpec(c, ram, next, fuel), ram, next, fuel, n - 1)
  }

  /** The engine moves to the following word after every instruction. */
  ghost predicate StraightLine(next: int -> int) {
    forall a :: next(a) == a + INSTRUCTION_WIDTH
  }

  /** The address the engine is at after executing `n` instructions from `address`. */
  function Walk(next: int -> int, address: int, n: nat): int
    decreases n
  {
    if n == 0 then address else Walk(next, next(address), n - 1)
  }

  /**
   * Within `fuel` instructions from `address`, the engine meets a zero word
   * before it reaches `until`.
   */
  ghost predicate ReachesZeroWord(ram: map<int, byte>, address: int, until: int, next: int -> int, fuel: nat) {
    exists i :: 0 <= i < fuel && WordValue(ram, Walk(next, address, i)) == 0 && Before(next, address, until, i)
  }

  /** None of the first `i + 1` addresses of the walk from `address` is `until`. */
  ghost predicate Before(next: int -> int, address: int, until: int, i: nat) {
    forall j :: 0 <= j <= i ==> Walk(next, address, j) != until
  }

  /** Every word of `count` consecutive instructions from `start` is non-zero. */
  ghost predicate Assembled(ram: map<int, byte>, start: int, count: nat) {
    forall a :: start <= a < start + INSTRUCTION_WIDTH * count && (a - start) % INSTRUCTION_WIDTH == 0 ==>
      WordValue(ram, a) != 0
  }

  // ---------------------------------------------------------------------
  // Virtual routines and their trampolines

  /**
   * A virtual system routine: its fixed address and whether it must be
   * registered by hand rather than automatically.
   */
  datatype Routine = Routine(address: int, manuallyAdded: bool)

  /** The encoding of the ARM instruction `bx lr`, little-endian. */
  const JUMP_BACK: seq<byte> := [0x1E, 0xFF, 0x2F, 0xE1]

  /**
   * Writing `code` byte by byte from `address` on, in order: the bytes from
   * `address` to `address + |code| - 1` hold `code`, every other byte is kept.
   */
  function Inject(bytes: map<int, byte>, address: int, code: seq<byte>): (r: map<int, byte>)
    ensures forall k ::
              ByteAt(r, k) == if address <= k < address + |code| then code[k - address] else ByteAt(bytes, k)
    decreases |code|
  {
    if code == [] then bytes
    else
      var prefix := code[..|code| - 1];
      var before := Inject(bytes, address, prefix);
      var after := before[address + |code| - 1 := code[|code| - 1]];
      assert forall k ::
               ByteAt(after, k) == if k == address + |code| - 1 then code[|code| - 1] else ByteAt(before, k);
      assert forall i :: 0 <= i < |prefix| ==> prefix[i] == code[i];
      after
  }

  /** The routines that are registered automatically, in order. */
  function AutoRoutines(routines: seq<Routine>): (r: seq<Routine>)
    ensures forall x :: x in r <==> x in routines && !x.manuallyAdded
    ensures |r| <= |routines|
    decreases |routines|
  {
    if routines == [] then []
    else
      var last := routines[|routines| - 1];
      AutoRoutines(routines[..|routines| - 1]) + (if last.manuallyAdded then [] else [last])
  }

  /**
   * Memory after registering every automatic routine of `routines` in order:
   * a byte that differs from before lies in the range of some automatic
   * routine.
   */
  function InjectAll(bytes: map<int, byte>, routines: seq<Routine>): (r: map<int, byte>)
    ensures forall k :: ByteAt(r, k) != ByteAt(bytes, k) ==> Touched(routines, k)
    decreases |routines|
  {
    if routines == [] then bytes
    else
      var prefix := routines[..|routines| - 1];
      var last := routines[|routines| - 1];
      var before := InjectAll(bytes, prefix);
      assert forall k :: Touched(prefix, k) ==> Touched(routines, k) by {
        forall k | Touched(prefix, k) ensures Touched(routines, k) {
          var j :| 0 <= j < |prefix| && !prefix[j].manuallyAdded && Covers(prefix[j], k);
          assert routines[j] == prefix[j];
        }
      }
      if last.manuallyAdded then before
      else
        assert forall k :: Covers(last, k) ==> Touched(routines, k) by {
          forall k | Covers(last, k) ensures Touched(routines, k) {
            assert routines[|routines| - 1] == last;
          }
        }
        Inject(before, last.address, JUMP_BACK)
  }

  /** Some automatic routine of `routines` has `k` in its trampoline's range. */
  ghost predicate Touched(routines: seq<Routine>, k: int) {
    exists j :: 0 <= j < |routines| && !routines[j].manuallyAdded && Covers(routines[j], k)
  }

  /** The byte range a routine's trampoline occupies contains `k`. */
  predicate Covers(r: Routine, k: int) {
    r.address <= k < r.address + |JUMP_BACK|
  }

  /**
   * No two automatic routines' trampolines share a byte; routines registered
   * by hand write nothing and may overlap anything.
   */
  ghost predicate Disjoint(routines: seq<Routine>) {
    forall i, j, k ::
      0 <= i < j < |routines| && !routines[i].manuallyAdded && !routines[j].manuallyAdded && Covers(routines[i], k) ==>
        !Covers(routines[j], k)
  }
}
