/** One interpreter cycle as far as it goes: fetch the big-endian instruction
    at the program counter, then classify it, first by the two exact matches
    00E0 and 00EE and otherwise by its top nibble. No case has an effect yet. */
module Emulator {
  import opened Bits
  import Cpu
  import Memory

  /** The instruction families the switch names, after the mnemonics of
      section 3.1 of Cowgod's CHIP-8 Technical Reference. */
  datatype Family =
    | Cls          // 00E0
    | Ret          // 00EE
    | Sys          // 0nnn
    | Jp           // 1nnn
    | Call         // 2nnn
    | SeByte       // 3xkk
    | SneByte      // 4xkk
    | SeReg        // 5xy0
    | LdByte       // 6xkk
    | AddImm       // 7xkk
    | Arithmetic   // 8xy0 .. 8xyE
    | SneReg       // 9xy0
    | LdI          // Annn
    | JpV0         // Bnnn
    | Rnd          // Cxkk
    | Drw          // Dxyn
    | KeySkip      // Ex9E, ExA1
    | Misc         // Fx07 .. Fx65

  /** Which case of the switch an instruction reaches; `NotImplemented` is
      the panic of the inner default case. */
  datatype Decoded = Implemented(family: Family) | NotImplemented(instruction: uint16)

  /** Reads the instruction at pc: the byte at pc is the high byte, the byte
      at pc+1 (uint16 arithmetic) the low byte. */
  function Fetch(ram: seq<byte>, pc: uint16): (instruction: uint16)
    requires pc < |ram| && AddU16(pc, 1) < |ram|
    ensures instruction == ram[pc] as int * 256 + ram[AddU16(pc, 1)]
    ensures instruction / 256 == ram[pc] && instruction % 256 == ram[AddU16(pc, 1)]
  {
    OrHighLow(ram[pc], ram[AddU16(pc, 1)]);
    Bitwise(Or, Shl(ram[pc], 8, 16), ram[AddU16(pc, 1)], 16)
  }

  /** `instruction & 0xF000`: the top nibble, shifted back into place. */
  function FamilyBits(instruction: uint16): (bits: uint16)
    ensures Shr(instruction, 12) < 16 && bits == Shr(instruction, 12) * 0x1000
  {
    Pow2Word();
    ShrBelow(instruction, 12, 16);
    AndHighMask(instruction, 12, 16);
    ScaleProduct(Shr(instruction, 12), 12);
    Bitwise(And, instruction, 0xF000, 16)
  }

  /** The inner switch's table again, indexed by the nibble t rather than by
      t * 0x1000: the family each top nibble selects. */
  function NibbleFamily(nibble: nat): (f: Family)
    requires nibble < 16
  {
    match nibble
    case 0 => Sys
    case 1 => Jp
    case 2 => Call
    case 3 => SeByte
    case 4 => SneByte
    case 5 => SeReg
    case 6 => LdByte
    case 7 => AddImm
    case 8 => Arithmetic
    case 9 => SneReg
    case 10 => LdI
    case 11 => JpV0
    case 12 => Rnd
    case 13 => Drw
    case 14 => KeySkip
    case 15 => Misc
  }

  /** The inner switch, on `instruction & 0xF000`. */
  function SwitchFamily(bits: uint16, instruction: uint16): (d: Decoded)
  {
    match bits
    case 0x0000 => Implemented(Sys)
    case 0x1000 => Implemented(Jp)
    case 0x2000 => Implemented(Call)
    case 0x3000 => Implemented(SeByte)
    case 0x4000 => Implemented(SneByte)
    case 0x5000 => Implemented(SeReg)
    case 0x6000 => Implemented(LdByte)
    case 0x7000 => Implemented(AddImm)
    case 0x8000 => Implemented(Arithmetic)
    case 0x9000 => Implemented(SneReg)
    case 0xA000 => Implemented(LdI)
    case 0xB000 => Implemented(JpV0)
    case 0xC000 => Implemented(Rnd)
    case 0xD000 => Implemented(Drw)
    case 0xE000 => Implemented(KeySkip)
    case 0xF000 => Implemented(Misc)
    case _ => NotImplemented(instruction)
  }

  /** The two-level switch of the cycle: 00E0 and 00EE are matched exactly,
      every other instruction by `instruction & 0xF000`. */
  function Decode(instruction: uint16): (d: Decoded)
  {
    if instruction == 0x00E0 then Implemented(Cls)
    else if instruction == 0x00EE then Implemented(Ret)
    else SwitchFamily(FamilyBits(instruction), instruction)
  }

  /** Each of the sixteen nibbles, shifted into place, has its own case in
      the inner switch, the one the table gives. */
  lemma SwitchOnNibble(t: nat, instruction: uint16)
    requires t < 16
    ensures SwitchFamily(t * 0x1000, instruction) == Implemented(NibbleFamily(t))
  {
    if t < 8 {
      if t < 4 {
        if t == 0 {} else if t == 1 {} else if t == 2 {} else {}
      } else {
        if t == 4 {} else if t == 5 {} else if t == 6 {} else {}
      }
    } else {
      if t < 12 {
        if t == 8 {} else if t == 9 {} else if t == 10 {} else {}
      } else {
        if t == 12 {} else if t == 13 {} else if t == 14 {} else {}
      }
    }
  }

  /** Every instruction reaches a case of the switch (the panic is
      unreachable): 00E0 and 00EE their own, every other one the case its top
      nibble selects. */
  lemma DecodeByTopNibble(instruction: uint16)
    ensures Shr(instruction, 12) < 16
    ensures Decode(instruction) ==
      if instruction == 0x00E0 then Implemented(Cls)
      else if instruction == 0x00EE then Implemented(Ret)
      else Implemented(NibbleFamily(Shr(instruction, 12)))
  {
    var bits := FamilyBits(instruction);
    SwitchOnNibble(Shr(instruction, 12), instruction);
  }

  /** Decoding is total, and CLS and RET are recognised only by their exact
      values: no other instruction reaches their cases. */
  lemma DecodeTotal(instruction: uint16)
    ensures Decode(instruction).Implemented?
    ensures Decode(instruction).family == Cls <==> instruction == 0x00E0
    ensures Decode(instruction).family == Ret <==> instruction == 0x00EE
  {
    DecodeByTopNibble(instruction);
  }

  /** Every 0nnn other than 00E0 and 00EE is a SYS instruction. */
  lemma SysFamily(instruction: uint16)
    requires instruction < 0x1000 && instruction != 0x00E0 && instruction != 0x00EE
    ensures Decode(instruction) == Implemented(Sys)
  {
    Pow2Word();
    ShrBelow(instruction, 12, 12);
  }

  /** One cycle: fetch the instruction at the program counter and select
      its case. The program counter is not advanced and no case has a body,
      so the cycle writes nothing: it has no modifies clause. */
  method EmulateCycle(cpu: Cpu.CPU, mem: Memory.Memory) returns (instruction: uint16, decoded: Decoded)
    requires cpu.pc < mem.ram.Length && AddU16(cpu.pc, 1) < mem.ram.Length
    ensures instruction == mem.ram[cpu.pc] as int * 256 + mem.ram[AddU16(cpu.pc, 1)]
    ensures decoded == Decode(instruction) && decoded.Implemented?
  {
    instruction := Fetch(mem.ram[..], cpu.pc);
    decoded := Decode(instruction);
    DecodeTotal(instruction);
  }
}
