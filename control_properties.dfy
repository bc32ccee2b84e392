/**
 * What the execution-control state machine guarantees: the hook's
 * step-mode transitions, end-of-program detection, what one
 * `runStep` and one `runAllAtOnce` do on straight-line and branching code,
 * and where the routine trampolines end up in memory.
 */
module ControlProperties {
  import opened SimpleRegisters
  import opened Memory
  import opened Control

  // ---------------------------------------------------------------------
  // The instruction hook

  /**
   * The step-mode transitions: armed becomes fired without a stop request;
   * fired stops the engine and clears `running`; idle leaves the counter
   * alone and requests no stop. A zero word adds a stop request in every mode.
   */
  lemma HookStepMode(c: Control, address: int, sentinel: bool)
    ensures var o := Hook(c, address, sentinel);
      && (c.step == Armed ==> o.after.step == Fired && o.stop == sentinel && o.after.running == (c.running && !sentinel))
      && (c.step == Fired ==> o.after.step == Fired && o.stop && !o.after.running)
      && (c.step == Idle ==> o.after.step == Idle && o.stop == sentinel && o.after.running == (c.running && !sentinel))
  {
  }

  /** Once armed, the engine is stopped by the second hook call at the latest. */
  lemma StepModeStopsBySecondHook(c: Control, a1: int, s1: bool, a2: int, s2: bool)
    requires c.step == Armed
    ensures Hook(c, a1, s1).stop || Hook(Hook(c, a1, s1).after, a2, s2).stop
  {
  }

  /**
   * An armed engine call reaches at most two hooks: any fuel beyond two
   * gives the same outcome.
   */
  lemma StepModeNeedsTwoHooks(c: Control, ram: map<int, byte>, address: int, until: int, next: int -> int, fuel: nat)
    requires c.step == Armed && fuel >= 2
    ensures Engine(c, ram, address, until, next, fuel) == Engine(c, ram, address, until, next, 2)
  {
    if address != until {
      var o := Hook(c, address, WordValue(ram, address) == 0);
      if !o.stop {
        assert o.after.step == Fired;
        var a2 := next(address);
        if a2 != until {
          var o2 := Hook(o.after, a2, WordValue(ram, a2) == 0);
          assert o2.stop;
          assert Engine(o.after, ram, a2, until, next, fuel - 1) == o2.after;
          assert Engine(o.after, ram, a2, until, next, 1) == o2.after;
        }
      }
    }
  }

  // ---------------------------------------------------------------------
  // runStep

  /**
   * A non-branching instruction: the engine reaches the end of the window
   * without a second hook call, and the controller itself advances
   * `currentAddress` to the following instruction.
   */
  lemma RunStepFallthrough(c: Control, ram: map<int, byte>, next: int -> int, fuel: nat)
    requires IsInt32(c.current)
    requires next(c.current) == c.current + INSTRUCTION_WIDTH
    requires WordValue(ram, c.current) != 0
    requires fuel >= 1
    ensures var r := RunStepSpec(c, ram, next, fuel);
      r.current == Low32(c.current + INSTRUCTION_WIDTH) && r.pc == Low32(c.current + INSTRUCTION_WIDTH) && !r.finished && !r.running
  {
    var start := c.current;
    var entry := c.(running := true, finished := false, step := Armed);
    var o := Hook(entry, start, false);
    assert Engine(entry, ram, start, start + INSTRUCTION_WIDTH, next, fuel) == o.after;
    Low32OfInt32(start);
    Low32AddLow32(start, INSTRUCTION_WIDTH);
  }

  /**
   * A taken branch to a different in-range address `t`: the second hook call
   * at `t` stops the engine, `currentAddress` is `t`, the pc is `t + 4`, and
   * the program counts as finished exactly when the word at `t` is zero.
   */
  lemma RunStepBranch(c: Control, ram: map<int, byte>, next: int -> int, fuel: nat)
    requires IsInt32(c.current) && IsInt32(next(c.current))
    requires next(c.current) != c.current && next(c.current) != c.current + INSTRUCTION_WIDTH
    requires WordValue(ram, c.current) != 0
    requires fuel >= 2
    ensures var r := RunStepSpec(c, ram, next, fuel);
      && r.current == next(c.current) && r.pc == Low32(next(c.current) + INSTRUCTION_WIDTH)
      && r.finished == (WordValue(ram, next(c.current)) == 0) && !r.running
  {
    var start, t := c.current, next(c.current);
    var entry := c.(running := true, finished := false, step := Armed);
    var o := Hook(entry, start, false);
    var o2 := Hook(o.after, t, WordValue(ram, t) == 0);
    assert Engine(o.after, ram, t, start + INSTRUCTION_WIDTH, next, fuel - 1) == o2.after;
    assert Engine(entry, ram, start, start + INSTRUCTION_WIDTH, next, fuel) == o2.after;
    Low32OfInt32(c.current);
    Low32OfInt32(t);
    Low32AddLow32(t, INSTRUCTION_WIDTH);
  }

  /**
   * A branch to itself (`b .`): the second hook call is again at the start
   * address, so the controller cannot tell it from a fall-through and
   * reports the following instruction as the current one.
   */
  lemma RunStepSelfBranch(c: Control, ram: map<int, byte>, next: int -> int, fuel: nat)
    requires IsInt32(c.current)
    requires next(c.current) == c.current
    requires WordValue(ram, c.current) != 0
    requires fuel >= 2
    ensures var r := RunStepSpec(c, ram, next, fuel);
      r.current == Low32(c.current + INSTRUCTION_WIDTH) && r.pc == Low32(c.current + INSTRUCTION_WIDTH) && !r.finished && !r.running
  {
    var start := c.current;
    var entry := c.(running := true, finished := false, step := Armed);
    var o := Hook(entry, start, false);
    var o2 := Hook(o.after, start, false);
    assert Engine(o.after, ram, start, start + INSTRUCTION_WIDTH, next, fuel - 1) == o2.after;
    assert Engine(entry, ram, start, start + INSTRUCTION_WIDTH, next, fuel) == o2.after;
    Low32OfInt32(start);
    Low32AddLow32(start, INSTRUCTION_WIDTH);
  }

  /**
   * A step at a zero word executes nothing: the program is marked finished
   * and `currentAddress` stays where it was.
   */
  lemma RunStepAtSentinel(c: Control, ram: map<int, byte>, next: int -> int, fuel: nat)
    requires IsInt32(c.current)
    requires WordValue(ram, c.current) == 0
    requires fuel >= 1
    ensures var r := RunStepSpec(c, ram, next, fuel);
      r.current == c.current && r.pc == Low32(c.current + INSTRUCTION_WIDTH) && r.finished && !r.running
  {
    Low32OfInt32(c.current);
    Low32AddLow32(c.current, INSTRUCTION_WIDTH);
  }

  /**
   * `n` steps over straight-line assembled code move `currentAddress`
   * forward by exactly four bytes per step.
   */
  lemma {:induction false} StraightLineSteps(c: Control, ram: map<int, byte>, next: int -> int, fuel: nat, n: nat)
    requires StraightLine(next)
    requires IsInt32(c.current) && IsInt32(c.current + INSTRUCTION_WIDTH * n)
    requires Assembled(ram, c.current, n)
    requires fuel >= 1
    ensures var r := RunSteps(c, ram, next, fuel, n);
      r.current == c.current + INSTRUCTION_WIDTH * n && (n > 0 ==> !r.finished && !r.running)
    decreases n
  {
    if n > 0 {
      assert WordValue(ram, c.current) != 0;
      RunStepFallthrough(c, ram, next, fuel);
      var c1 := RunStepSpec(c, ram, next, fuel);
      Low32OfInt32(c.current + INSTRUCTION_WIDTH);
      assert c1.current == c.current + INSTRUCTION_WIDTH;
      assert Assembled(ram, c1.current, n - 1) by {
        forall a | c1.current <= a < c1.current + INSTRUCTION_WIDTH * (n - 1) && (a - c1.current) % INSTRUCTION_WIDTH == 0
          ensures WordValue(ram, a) != 0
        {
          assert (a - c.current) % INSTRUCTION_WIDTH == 0;
        }
      }
      StraightLineSteps(c1, ram, next, fuel, n - 1);
    }
  }

  // ---------------------------------------------------------------------
  // runAllAtOnce

  /**
   * The walk from `address` meets a zero word within `fuel` instructions
   * exactly when its first address does, or the walk from the following
   * address meets one within `fuel - 1` instructions, provided the first
   * address is not `until`.
   */
  lemma ReachesZeroWordStep(ram: map<int, byte>, address: int, until: int, next: int -> int, fuel: nat)
    requires fuel > 0 && address != until
    ensures ReachesZeroWord(ram, address, until, next, fuel) <==>
      WordValue(ram, address) == 0 || ReachesZeroWord(ram, next(address), until, next, fuel - 1)
  {
    if ReachesZeroWord(ram, address, until, next, fuel) && WordValue(ram, address) != 0 {
      var i :| 0 <= i < fuel && WordValue(ram, Walk(next, address, i)) == 0 && Before(next, address, until, i);
      assert i > 0;
      assert Before(next, next(address), until, i - 1) by {
        forall j | 0 <= j <= i - 1 ensures Walk(next, next(address), j) != until {
          assert Walk(next, address, j + 1) == Walk(next, next(address), j);
        }
      }
      assert WordValue(ram, Walk(next, next(address), i - 1)) == 0;
    }
    if WordValue(ram, address) == 0 {
      assert Walk(next, address, 0) == address;
      assert Before(next, address, until, 0);
    }
    if ReachesZeroWord(ram, next(address), until, next, fuel - 1) {
      var i :| 0 <= i < fuel - 1 && WordValue(ram, Walk(next, next(address), i)) == 0 && Before(next, next(address), until, i);
      assert Before(next, address, until, i + 1) by {
        forall j | 0 <= j <= i + 1 ensures Walk(next, address, j) != until {
          if j > 0 {
            assert Walk(next, address, j) == Walk(next, next(address), j - 1);
          }
        }
      }
      assert WordValue(ram, Walk(next, address, i + 1)) == 0;
    }
  }

  /**
   * With the step counter idle, nothing but a zero word stops the engine
   * early: an engine call ends the program exactly when it was already
   * finished or the walk meets a zero word before the stop address within
   * the fuel.
   */
  lemma {:induction false} IdleEngineFinishes(c: Control, ram: map<int, byte>, address: int, until: int,
                                              next: int -> int, fuel: nat)
    requires c.step == Idle
    ensures Engine(c, ram, address, until, next, fuel).finished <==>
      c.finished || ReachesZeroWord(ram, address, until, next, fuel)
    decreases fuel
  {
    if fuel == 0 {
    } else if address == until {
      assert !ReachesZeroWord(ram, address, until, next, fuel) by {
        forall i | 0 <= i < fuel ensures !Before(next, address, until, i) {
          assert Walk(next, address, 0) == until;
        }
      }
    } else {
      ReachesZeroWordStep(ram, address, until, next, fuel);
      if WordValue(ram, address) != 0 {
        var o := Hook(c, address, false);
        IdleEngineFinishes(o.after, ram, next(address), until, next, fuel - 1);
      }
    }
  }

  /**
   * `runAllAtOnce` advances `currentAddress` past the last hooked
   * instruction exactly when the run met no zero word before `endAddress +
   * 4` within the fuel; after a zero word it stays on that word. The pc is
   * the engine's look-ahead address either way.
   */
  lemma RunAllAdvancesUnlessZeroWord(c: Control, ram: map<int, byte>, endAddress: int, next: int -> int, fuel: nat)
    ensures var entry := c.(running := true, finished := false, step := Idle);
      var ran := Engine(entry, ram, c.current, endAddress + INSTRUCTION_WIDTH, next, fuel);
      var r := RunAllSpec(c, ram, endAddress, next, fuel);
      && (ReachesZeroWord(ram, c.current, endAddress + INSTRUCTION_WIDTH, next, fuel) ==> r.current == ran.current)
      && (!ReachesZeroWord(ram, c.current, endAddress + INSTRUCTION_WIDTH, next, fuel) ==> r.current == Low32(ran.current + INSTRUCTION_WIDTH))
      && r.pc == ran.pc
  {
    var entry := c.(running := true, finished := false, step := Idle);
    IdleEngineFinishes(entry, ram, c.current, endAddress + INSTRUCTION_WIDTH, next, fuel);
  }

  /**
   * With the step counter idle, straight-line code whose first `k` words are
   * instructions and whose next word is zero stops at that zero word.
   */
  lemma {:induction false} EngineRunsToSentinel(c: Control, ram: map<int, byte>, address: int, until: int,
                                                next: int -> int, fuel: nat, k: nat)
    requires StraightLine(next) && c.step == Idle
    requires Assembled(ram, address, k)
    requires WordValue(ram, address + INSTRUCTION_WIDTH * k) == 0
    requires address + INSTRUCTION_WIDTH * k < until
    requires fuel > k
    ensures Engine(c, ram, address, until, next, fuel) ==
      c.(pc := Low32(address + INSTRUCTION_WIDTH * k + INSTRUCTION_WIDTH), current := Low32(address + INSTRUCTION_WIDTH * k), running := false, finished := true)
    decreases k
  {
    Low32AddLow32(address, INSTRUCTION_WIDTH);
    if k > 0 {
      assert WordValue(ram, address) != 0;
      var o := Hook(c, address, false);
      assert Assembled(ram, address + INSTRUCTION_WIDTH, k - 1) by {
        forall a | address + INSTRUCTION_WIDTH <= a < address + INSTRUCTION_WIDTH + INSTRUCTION_WIDTH * (k - 1) && (a - (address + INSTRUCTION_WIDTH)) % INSTRUCTION_WIDTH == 0
          ensures WordValue(ram, a) != 0
        {
          assert (a - address) % INSTRUCTION_WIDTH == 0;
        }
      }
      EngineRunsToSentinel(o.after, ram, address + INSTRUCTION_WIDTH, until, next, fuel - 1, k - 1);
    }
  }

  /**
   * With the step counter idle, straight-line code whose `k >= 1` words are
   * all instructions runs up to the stop address `address + 4k`; the last
   * hook call was at the last instruction.
   */
  lemma {:induction false} EngineRunsToUntil(c: Control, ram: map<int, byte>, address: int, until: int,
                                             next: int -> int, fuel: nat, k: nat)
    requires StraightLine(next) && c.step == Idle
    requires k >= 1 && address + INSTRUCTION_WIDTH * k == until
    requires Assembled(ram, address, k)
    requires fuel >= k
    ensures Engine(c, ram, address, until, next, fuel) ==
      c.(pc := Low32(address + INSTRUCTION_WIDTH * k), current := Low32(address + INSTRUCTION_WIDTH * (k - 1)))
    decreases k
  {
    Low32AddLow32(address, INSTRUCTION_WIDTH);
    assert WordValue(ram, address) != 0;
    var o := Hook(c, address, false);
    if k > 1 {
      assert Assembled(ram, address + INSTRUCTION_WIDTH, k - 1) by {
        forall a | address + INSTRUCTION_WIDTH <= a < address + INSTRUCTION_WIDTH + INSTRUCTION_WIDTH * (k - 1) && (a - (address + INSTRUCTION_WIDTH)) % INSTRUCTION_WIDTH == 0
          ensures WordValue(ram, a) != 0
        {
          assert (a - address) % INSTRUCTION_WIDTH == 0;
        }
      }
      EngineRunsToUntil(o.after, ram, address + INSTRUCTION_WIDTH, until, next, fuel - 1, k - 1);
    }
  }

  /**
   * Run to completion over straight-line code that ends in a zero word before
   * the end address: the run stops at the zero word, which becomes the
   * current address.
   */
  lemma RunAllStopsAtSentinel(c: Control, ram: map<int, byte>, endAddress: int, next: int -> int, fuel: nat, k: nat)
    requires StraightLine(next)
    requires Assembled(ram, c.current, k)
    requires WordValue(ram, c.current + INSTRUCTION_WIDTH * k) == 0
    requires c.current + INSTRUCTION_WIDTH * k <= endAddress
    requires fuel > k
    ensures var r := RunAllSpec(c, ram, endAddress, next, fuel);
      && r.current == Low32(c.current + INSTRUCTION_WIDTH * k) && r.pc == Low32(c.current + INSTRUCTION_WIDTH * k + INSTRUCTION_WIDTH)
      && r.finished && !r.running
  {
    var entry := c.(running := true, finished := false, step := Idle);
    EngineRunsToSentinel(entry, ram, c.current, endAddress + INSTRUCTION_WIDTH, next, fuel, k);
  }

  /**
   * Run to completion over straight-line code assembled up to and including
   * `endAddress`: the engine stops at `endAddress + 4` and the controller
   * leaves `currentAddress` there.
   */
  lemma RunAllReachesEnd(c: Control, ram: map<int, byte>, endAddress: int, next: int -> int, fuel: nat, k: nat)
    requires StraightLine(next)
    requires k >= 1 && c.current + INSTRUCTION_WIDTH * k == endAddress + INSTRUCTION_WIDTH
    requires Assembled(ram, c.current, k)
    requires fuel >= k
    ensures var r := RunAllSpec(c, ram, endAddress, next, fuel);
      && r.current == Low32(endAddress + INSTRUCTION_WIDTH) && r.pc == Low32(endAddress + INSTRUCTION_WIDTH)
      && r.finished && !r.running
  {
    var entry := c.(running := true, finished := false, step := Idle);
    EngineRunsToUntil(entry, ram, c.current, endAddress + INSTRUCTION_WIDTH, next, fuel, k);
    Low32AddLow32(endAddress, INSTRUCTION_WIDTH);
  }

  // ---------------------------------------------------------------------
  // Routine trampolines

  /** The word at a freshly registered routine's address is not the end-of-program sentinel. */
  lemma TrampolineIsNotSentinel(bytes: map<int, byte>, address: int)
    ensures WordValue(Inject(bytes, address, JUMP_BACK), address) != 0
  {
    assert ByteAt(Inject(bytes, address, JUMP_BACK), address) == JUMP_BACK[0];
  }

  /** Routines that must be added by hand leave memory untouched. */
  lemma {:induction false} ManualRoutinesLeaveMemory(bytes: map<int, byte>, routines: seq<Routine>)
    requires forall i :: 0 <= i < |routines| ==> routines[i].manuallyAdded
    ensures InjectAll(bytes, routines) == bytes
    decreases |routines|
  {
    if routines != [] {
      ManualRoutinesLeaveMemory(bytes, routines[..|routines| - 1]);
    }
  }

  /**
   * Registering routines whose automatic ones are pairwise disjoint: every
   * automatic routine's address range holds the trampoline bytes afterwards,
   * whatever the registration order.
   */
  lemma {:induction false} TrampolinesPlaced(bytes: map<int, byte>, routines: seq<Routine>, j: nat, i: nat)
    requires Disjoint(routines)
    requires j < |routines| && !routines[j].manuallyAdded
    requires i < |JUMP_BACK|
    ensures ByteAt(InjectAll(bytes, routines), routines[j].address + i) == JUMP_BACK[i]
    decreases |routines|
  {
    var n := |routines|;
    var prefix := routines[..n - 1];
    var last := routines[n - 1];
    var k := routines[j].address + i;
    if j < n - 1 {
      assert prefix[j] == routines[j];
      assert Disjoint(prefix) by {
        forall i1, j1, k1 | 0 <= i1 < j1 < |prefix| && !prefix[i1].manuallyAdded && !prefix[j1].manuallyAdded &&
                            Covers(prefix[i1], k1)
          ensures !Covers(prefix[j1], k1)
        {
          assert prefix[i1] == routines[i1] && prefix[j1] == routines[j1];
        }
      }
      TrampolinesPlaced(bytes, prefix, j, i);
      assert Covers(routines[j], k);
      if !last.manuallyAdded {
        assert !Covers(last, k);
      }
    }
  }

  // ---------------------------------------------------------------------
  // A loaded two-instruction program

  /**
   * Two instructions at 0x1000 and 0x1004 with the end address 0x1004: one
   * step moves `currentAddress` to 0x1004 and a second one to 0x1008, and a
   * run to completion leaves it at 0x1008 with the program finished.
   */
  lemma TwoInstructionProgram(c: Control, ram: map<int, byte>, next: int -> int, fuel: nat)
    requires StraightLine(next) && c.current == 0x1000
    requires WordValue(ram, 0x1000) != 0 && WordValue(ram, 0x1004) != 0
    requires fuel >= 2
    ensures RunSteps(c, ram, next, fuel, 1).current == 0x1004
    ensures RunSteps(c, ram, next, fuel, 2).current == 0x1008
    ensures var r := RunAllSpec(c, ram, 0x1004, next, fuel);
      r.current == 0x1008 && r.finished && !r.running
  {
    assert Assembled(ram, 0x1000, 2) by {
      forall a | 0x1000 <= a < 0x1008 && (a - 0x1000) % INSTRUCTION_WIDTH == 0
        ensures WordValue(ram, a) != 0
      {
        assert a == 0x1000 || a == 0x1004;
      }
    }
    assert Assembled(ram, 0x1000, 1);
    StraightLineSteps(c, ram, next, fuel, 1);
    StraightLineSteps(c, ram, next, fuel, 2);
    RunAllReachesEnd(c, ram, 0x1004, next, fuel, 2);
    Low32OfInt32(0x1008);
  }
}
