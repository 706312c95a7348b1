/**
 * The heap record and its initialisation.
 *
 * A heap owns a map region of sizeMap bytes followed directly by a use region
 * of 2 * sizeMap bytes, both stored through one memory driver.  The kernel has
 * one heap, on the internal SRAM.
 */
module MemHeapDrivers {
  import opened NibbleMap
  import opened MemDrivers

  /** The allocation strategies a heap can be set to. */
  datatype AllocStrategy = First | Next | Best | Worst

  /**
   * The heap record.  The layout fields are set once, by os_initHeaps, which
   * is therefore the constructor; only the allocation strategy changes
   * afterwards.
   */
  class Heap {
    const driver: MemDriver
    const firstMapAddr: nat
    const sizeMap: nat
    const firstUseAddr: nat
    const sizeUse: nat
    var currAllocStrat: AllocStrategy
    const name: string

    /**
     * The layout every heap operation relies on: the use region follows the
     * map, is twice its size, and both lie in the driver's 16-bit address
     * space; address 0 is never part of the heap, so it can stand for "no
     * address".
     */
    ghost predicate Valid()
    {
      driver.Valid()
      && 0 < firstMapAddr
      && firstUseAddr == firstMapAddr + sizeMap
      && sizeUse == 2 * sizeMap
      && firstUseAddr + sizeUse <= driver.cells.Length
    }

    /** The map entries, one per use byte, as stored right now. */
    ghost function MapView(): (v: seq<bv8>)
      reads driver.cells
      requires Valid()
      ensures |v| == sizeUse && |v| % 2 == 0
    {
      View(driver.cells[..], firstMapAddr, sizeMap)
    }

    /**
     * os_initHeaps: lays the internal heap out from the SRAM driver and
     * zeroes its map.  heapSize is the distance from the SRAM start plus the
     * heap offset to the bottom of the lowest process stack; a third of it
     * is map, the rest of the whole thirds is the use region.
     */
    constructor InitHeaps(sram: MemDriver, heapOffset: nat, stackBottom: nat, sramStart: nat)
      requires sram.Valid()
      requires sramStart + heapOffset <= stackBottom
      requires 0 < sram.firstAddr + heapOffset
      requires sram.firstAddr + heapOffset + (stackBottom - sramStart - heapOffset) <= sram.cells.Length
      modifies sram.cells
      ensures Valid() && driver == sram
      ensures firstMapAddr == sram.firstAddr + heapOffset
      ensures sizeMap == (stackBottom - sramStart - heapOffset) / 3
      ensures sizeMap + sizeUse <= stackBottom - sramStart - heapOffset
      ensures currAllocStrat == First && name == "internal"
      ensures forall a :: firstMapAddr <= a < firstUseAddr ==> sram.cells[a] == 0
      ensures forall a ::
        (0 <= a < sram.cells.Length && !(firstMapAddr <= a < firstUseAddr)) ==> sram.cells[a] == old(sram.cells[a])
    {
      var heapSize := stackBottom - sramStart - heapOffset;
      driver := sram;
      firstMapAddr := sram.firstAddr + heapOffset;
      sizeMap := heapSize / 3;
      firstUseAddr := sram.firstAddr + heapOffset + heapSize / 3;
      sizeUse := 2 * (heapSize / 3);
      currAllocStrat := First;
      name := "internal";
      new;
      var i := 0;
      while i < sizeMap
        invariant 0 <= i <= sizeMap
        invariant forall a :: firstMapAddr <= a < firstMapAddr + i ==> sram.cells[a] == 0
        invariant forall a ::
          (0 <= a < sram.cells.Length && !(firstMapAddr <= a < firstUseAddr)) ==> sram.cells[a] == old(sram.cells[a])
        modifies sram.cells
      {
        sram.Write(firstMapAddr + i, 0x00);
        i := i + 1;
      }
    }
  }

  /** A map whose bytes are all 0 is all FREE, hence well formed and fit for any request it can hold. */
  lemma ZeroedMapIsEmpty(heap: Heap)
    requires heap.Valid()
    requires forall a :: heap.firstMapAddr <= a < heap.firstUseAddr ==> heap.driver.cells[a] == 0
    ensures forall k :: 0 <= k < |heap.MapView()| ==> heap.MapView()[k] == FREE
    ensures WellFormed(heap.MapView())
    ensures forall size: nat ::
      (size <= heap.sizeUse && (size > 0 || heap.sizeUse > 0)) ==> FirstFitIndex(heap.MapView(), size) == 0
  {
    var v := heap.MapView();
    forall k | 0 <= k < |v| ensures v[k] == FREE {
      ViewAt(heap.driver.cells[..], heap.firstMapAddr, heap.sizeMap, k);
      assert heap.driver.cells[heap.firstMapAddr + k / 2] == 0;
    }
    forall size: nat | size <= heap.sizeUse && (size > 0 || heap.sizeUse > 0)
      ensures FirstFitIndex(v, size) == 0
    {
      assert Fits(v, 0, size);
    }
  }

  /** os_getHeapListLength: the kernel knows exactly one heap. */
  function HeapListLength(): (n: nat)
    ensures n == 1
  {
    1
  }

  /**
   * os_lookupHeap: every 8-bit index, in range of the list or not, yields
   * the internal heap.
   */
  function LookupHeap(intHeap: Heap, index: bv8): (h: Heap)
    ensures h == intHeap
  {
    intHeap
  }
}
