/**
 * The byte- and nibble-level accessors of the heap (os_memory.c): address
 * conversion, the nibble getters and setters, map-entry reads and writes,
 * and the heap field getters and setter.
 */
module MemoryAccess {
  import opened NibbleMap
  import opened MemDrivers
  import opened MemHeapDrivers

  /**
   * convertToMemAddr: the map byte that holds entry `nibbleaddr`; it lies in
   * the map exactly when the entry does.
   */
  function ConvertToMemAddr(heap: Heap, nibbleaddr: nat): (a: nat)
    requires heap.Valid()
    ensures heap.firstMapAddr <= a
    ensures a < heap.firstUseAddr <==> nibbleaddr < heap.sizeUse
  {
    heap.firstMapAddr + nibbleaddr / 2
  }

  /**
   * getNibbleVal: entry `nibbleaddr`, counted from the start of the map; an
   * even index is the high half of its byte, an odd one the low half.  The
   * source declares the index as an 8-bit parameter, so its callers hand it
   * their index reduced modulo 256.
   */
  function GetNibbleVal(heap: Heap, nibbleaddr: nat): (r: bv8)
    reads heap.driver.cells
    requires heap.Valid() && ConvertToMemAddr(heap, nibbleaddr) < heap.driver.cells.Length
    ensures r < 16
    ensures nibbleaddr < heap.sizeUse ==> r == heap.MapView()[nibbleaddr]
    ensures nibbleaddr % 2 == 0 ==> r == High(heap.driver.cells[ConvertToMemAddr(heap, nibbleaddr)])
    ensures nibbleaddr % 2 == 1 ==> r == Low(heap.driver.cells[ConvertToMemAddr(heap, nibbleaddr)])
  {
    ViewAt(heap.driver.cells[..], heap.firstMapAddr, heap.sizeMap, nibbleaddr);
    var fullByte := heap.driver.Read(ConvertToMemAddr(heap, nibbleaddr));
    if nibbleaddr % 2 == 0 then fullByte >> 4 else fullByte & 0x0F
  }

  /** getLowNibble: the low half of the byte at addr. */
  function GetLowNibble(heap: Heap, addr: nat): (r: bv8)
    reads heap.driver.cells
    requires addr < heap.driver.cells.Length
    ensures r < 16 && r == Low(heap.driver.cells[addr])
  {
    heap.driver.Read(addr) & 0x0F
  }

  /** getHighNibble: the high half of the byte at addr, shifted down. */
  function GetHighNibble(heap: Heap, addr: nat): (r: bv8)
    reads heap.driver.cells
    requires addr < heap.driver.cells.Length
    ensures r < 16 && r == High(heap.driver.cells[addr])
  {
    (heap.driver.Read(addr) & 0xF0) >> 4
  }

  /**
   * setLowNibble: the low half of the byte at addr becomes the low half of
   * value; its high half and every other byte stay as they were.
   */
  method SetLowNibble(heap: Heap, addr: nat, value: MemValue)
    requires addr < heap.driver.cells.Length
    modifies heap.driver.cells
    ensures GetLowNibble(heap, addr) == value & 0x0F
    ensures GetHighNibble(heap, addr) == old(GetHighNibble(heap, addr))
    ensures forall a :: 0 <= a < heap.driver.cells.Length && a != addr ==> heap.driver.cells[a] == old(heap.driver.cells[a])
  {
    var temp := heap.driver.Read(addr);
    heap.driver.Write(addr, (temp & 0xF0) | (value & 0x0F));
  }

  /**
   * setHighNibble: the high half of the byte at addr becomes the high half
   * of value (which the caller passes already shifted up); its low half and
   * every other byte stay as they were.
   */
  method SetHighNibble(heap: Heap, addr: nat, value: MemValue)
    requires addr < heap.driver.cells.Length
    modifies heap.driver.cells
    ensures GetHighNibble(heap, addr) == value >> 4
    ensures GetLowNibble(heap, addr) == old(GetLowNibble(heap, addr))
    ensures forall a :: 0 <= a < heap.driver.cells.Length && a != addr ==> heap.driver.cells[a] == old(heap.driver.cells[a])
  {
    var temp := heap.driver.Read(addr);
    heap.driver.Write(addr, (temp & 0x0F) | (value & 0xF0));
  }

  /** os_getMapEntry: a whole map byte; it packs the two entries of its use bytes. */
  function GetMapEntry(heap: Heap, addr: nat): (b: MemValue)
    reads heap.driver.cells
    requires heap.Valid() && heap.firstMapAddr <= addr < heap.firstUseAddr
    ensures High(b) == heap.MapView()[2 * (addr - heap.firstMapAddr)]
    ensures Low(b) == heap.MapView()[2 * (addr - heap.firstMapAddr) + 1]
  {
    ViewAt(heap.driver.cells[..], heap.firstMapAddr, heap.sizeMap, 2 * (addr - heap.firstMapAddr));
    ViewAt(heap.driver.cells[..], heap.firstMapAddr, heap.sizeMap, 2 * (addr - heap.firstMapAddr) + 1);
    heap.driver.Read(addr)
  }

  /** setMapEntry: a whole map byte is replaced; its two entries become its halves. */
  method SetMapEntry(heap: Heap, addr: nat, value: MemValue)
    requires heap.Valid() && heap.firstMapAddr <= addr < heap.firstUseAddr
    modifies heap.driver.cells
    ensures heap.MapView() == old(heap.MapView())
      [2 * (addr - heap.firstMapAddr) := High(value)][2 * (addr - heap.firstMapAddr) + 1 := Low(value)]
    ensures forall a :: 0 <= a < heap.driver.cells.Length && a != addr ==> heap.driver.cells[a] == old(heap.driver.cells[a])
  {
    ViewAfterWrite(heap.driver.cells[..], heap.firstMapAddr, heap.sizeMap, addr, value);
    heap.driver.Write(addr, value);
  }

  /** os_getMapStart: the map starts at a non-zero address and ends where the use region starts. */
  function GetMapStart(heap: Heap): (a: nat)
    requires heap.Valid()
    ensures 0 < a && a + heap.sizeMap == heap.firstUseAddr
  {
    heap.firstMapAddr
  }

  /** os_getUseStart: the use region starts right after the map and fits in memory. */
  function GetUseStart(heap: Heap): (a: nat)
    requires heap.Valid()
    ensures a == heap.firstMapAddr + heap.sizeMap
    ensures a + heap.sizeUse <= heap.driver.cells.Length
  {
    heap.firstUseAddr
  }

  /** os_getMapSize: the map has half as many bytes as the use region. */
  function GetMapSize(heap: Heap): (n: nat)
    requires heap.Valid()
    ensures 2 * n == heap.sizeUse
  {
    heap.sizeMap
  }

  /** os_getUseSize: one map entry per use byte, two entries per map byte. */
  function GetUseSize(heap: Heap): (n: nat)
    requires heap.Valid()
    ensures n == 2 * heap.sizeMap && n == |heap.MapView()|
  {
    heap.sizeUse
  }

  /** os_setAllocationStrategy: only the strategy field changes. */
  method SetAllocationStrategy(heap: Heap, strategy: AllocStrategy)
    modifies heap
    ensures GetAllocationStrategy(heap) == strategy
  {
    heap.currAllocStrat := strategy;
  }

  /** os_getAllocationStrategy. */
  function GetAllocationStrategy(heap: Heap): (strategy: AllocStrategy)
    reads heap
    ensures strategy == heap.currAllocStrat
  {
    heap.currAllocStrat
  }
}
