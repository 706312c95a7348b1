/**
 * A memory driver: an abstract byte-addressed store with read and write.
 *
 * The internal SRAM and the external SPI memory are both reached through a
 * driver record holding read/write entry points, the first usable address
 * and the size.  Here the store is an array indexed by the 16-bit address.
 */
module MemDrivers {

  type MemValue = bv8

  /** Largest address plus one of a 16-bit address space. */
  const ADDRESS_SPACE: nat := 0x1_0000

  class MemDriver {
    const cells: array<MemValue>
    const firstAddr: nat
    const size: nat

    ghost predicate Valid()
    {
      cells.Length <= ADDRESS_SPACE && firstAddr + size <= cells.Length
    }

    constructor (n: nat, first: nat, sz: nat)
      requires n <= ADDRESS_SPACE && first + sz <= n
      ensures Valid() && fresh(cells) && cells.Length == n
      ensures firstAddr == first && size == sz
    {
      cells := new MemValue[n](_ => 0);
      firstAddr := first;
      size := sz;
    }

    /** The byte at address a. */
    function Read(a: int): (v: MemValue)
      reads cells
      requires 0 <= a < cells.Length
      ensures v == cells[a]
    {
      cells[a]
    }

    /** Stores v at address a; every other address keeps its byte. */
    method Write(a: int, v: MemValue)
      requires 0 <= a < cells.Length
      modifies cells
      ensures cells[..] == old(cells[..])[a := v]
      ensures Read(a) == v
    {
      cells[a] := v;
    }
  }
}
