/** The machine's RAM, kept abstract: a byte array of some size, and the
    address where loaded programs start. */
module Memory {
  import opened Bits

  /** Where the program image is loaded and where execution starts. */
  const RamProgramStart: uint16 := 0x200

  class Memory {
    var ram: array<byte>

    /** A zeroed RAM of the given size, as `new(Memory)` allocates it. */
    constructor (size: nat)
      ensures fresh(ram) && ram.Length == size
      ensures forall a :: 0 <= a < size ==> ram[a] == 0
    {
      ram := new byte[size](a => 0);
    }
  }
}
