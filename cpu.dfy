/** The register file: sixteen byte registers V0-VF, the index register I,
    the program counter, the stack pointer, a sixteen-slot return stack and
    the delay and sound timers. */
module Cpu {
  import opened Bits
  import Memory

  const RegisterCount := 16
  const StackDepth := 16

  /** The register file as a value. */
  datatype CpuState = CpuState(
    v: seq<byte>,
    i: uint16,
    pc: uint16,
    sp: byte,
    stack: seq<uint16>,
    delayTimer: byte,
    soundTimer: byte)

  /** Sixteen data registers and sixteen stack slots. */
  predicate WellShaped(s: CpuState)
  {
    |s.v| == RegisterCount && |s.stack| == StackDepth
  }

  /** The zero value of the Go struct. */
  function Zero(): (s: CpuState)
    ensures WellShaped(s)
  {
    CpuState(seq(RegisterCount, k => 0), 0, 0, 0, seq(StackDepth, k => 0), 0, 0)
  }

  /** The effect of `Setup`: the program counter points at the program start
      and every other register keeps its value. */
  function AfterSetup(s: CpuState): (t: CpuState)
    ensures t.pc == Memory.RamProgramStart
    ensures t.v == s.v && t.i == s.i && t.sp == s.sp && t.stack == s.stack
    ensures t.delayTimer == s.delayTimer && t.soundTimer == s.soundTimer
  {
    s.(pc := Memory.RamProgramStart)
  }

  lemma SetupIdempotent(s: CpuState)
    ensures AfterSetup(AfterSetup(s)) == AfterSetup(s)
  {
  }

  /** A freshly allocated register file after `Setup`: all zero but the
      program counter. */
  lemma SetupOfZero()
    ensures WellShaped(AfterSetup(Zero()))
    ensures AfterSetup(Zero()).pc == 0x200
    ensures forall k :: 0 <= k < RegisterCount ==> AfterSetup(Zero()).v[k] == 0
    ensures forall k :: 0 <= k < StackDepth ==> AfterSetup(Zero()).stack[k] == 0
    ensures AfterSetup(Zero()).i == 0 && AfterSetup(Zero()).sp == 0
    ensures AfterSetup(Zero()).delayTimer == 0 && AfterSetup(Zero()).soundTimer == 0
  {
  }

  class CPU {
    var v: array<byte>
    var i: uint16
    var pc: uint16
    var sp: byte
    var stack: array<uint16>
    var delayTimer: byte
    var soundTimer: byte

    ghost predicate Valid()
      reads this
    {
      v.Length == RegisterCount && stack.Length == StackDepth
    }

    ghost function State(): (s: CpuState)
      reads this, v, stack
      requires Valid()
      ensures WellShaped(s)
    {
      CpuState(v[..], i, pc, sp, stack[..], delayTimer, soundTimer)
    }

    /** `new(CPU)`: every register zero. */
    constructor ()
      ensures Valid() && fresh(v) && fresh(stack)
      ensures State() == Zero()
    {
      v := new byte[RegisterCount](k => 0);
      stack := new uint16[StackDepth](k => 0);
      i, pc, sp := 0, 0, 0;
      delayTimer, soundTimer := 0, 0;
    }

    /** Points the program counter at the program start. */
    method Setup()
      requires Valid()
      modifies this
      ensures Valid() && v == old(v) && stack == old(stack)
      ensures State() == AfterSetup(old(State()))
    {
      pc := Memory.RamProgramStart;
    }
  }
}
