/**
 * The part of the simulator's addressable memory that the execution
 * controller uses: a total map from address to byte in which a byte never
 * written reads as zero, a byte store, and a 4-byte word read.
 */
module Memory {

  /** An 8-bit memory cell. */
  newtype byte = x: int | 0 <= x < 256

  /** The byte at `address`; zero when it was never written. */
  function ByteAt(bytes: map<int, byte>, address: int): byte {
    if address in bytes then bytes[address] else 0
  }

  /**
   * The 4-byte little-endian word at `address`. It is zero exactly when all
   * four bytes are zero, so the zero test does not depend on the byte order.
   */
  function WordValue(bytes: map<int, byte>, address: int): (w: int)
    ensures 0 <= w < 0x1_0000_0000
    ensures w == 0 <==>
      ByteAt(bytes, address) == 0 && ByteAt(bytes, address + 1) == 0 &&
      ByteAt(bytes, address + 2) == 0 && ByteAt(bytes, address + 3) == 0
  {
    ByteAt(bytes, address) as int
    + 0x100 * ByteAt(bytes, address + 1) as int
    + 0x1_0000 * ByteAt(bytes, address + 2) as int
    + 0x100_0000 * ByteAt(bytes, address + 3) as int
  }

  /** The memory object the controller shares with the routines. */
  class Ram {
    var bytes: map<int, byte>

    /** A fresh memory reads zero everywhere. */
    constructor ()
      ensures bytes == map[]
      ensures forall a :: ByteAt(bytes, a) == 0
    {
      bytes := map[];
    }

    /** Stores one byte; every other address keeps its byte. */
    method SetByte(address: int, value: byte)
      modifies this
      ensures bytes == old(bytes)[address := value]
      ensures ByteAt(bytes, address) == value
      ensures forall a :: a != address ==> ByteAt(bytes, a) == ByteAt(old(bytes), a)
    {
      bytes := bytes[address := value];
    }

    /** Reads the word at `address`; memory is not changed. */
    method GetValue(address: int) returns (w: int)
      ensures w == WordValue(bytes, address)
      ensures w == 0 <==>
        ByteAt(bytes, address) == 0 && ByteAt(bytes, address + 1) == 0 &&
        ByteAt(bytes, address + 2) == 0 && ByteAt(bytes, address + 3) == 0
    {
      w := WordValue(bytes, address);
    }
  }
}
