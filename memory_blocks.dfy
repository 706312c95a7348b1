/**
 * The chunk-size helpers of os_memory.c: getStartOfBlock walks down from an
 * entry index over CONT entries, os_getChunkSize then walks up from that
 * head over the CONT entries that follow it.
 *
 * Both walk on 16-bit indices (a decrement of 0 gives 0xFFFF, an increment
 * of 0xFFFF gives 0) and read every entry through getNibbleVal, whose index
 * parameter has 8 bits: the entry read for index x is entry x mod 256 of the
 * map, wherever the map ends.  The 256 entries so reachable form the window.
 */
module MemoryBlocks {
  import opened NibbleMap
  import opened MemDrivers
  import opened MemHeapDrivers
  import opened MemoryAccess
  import opened WindowWalk

  /** The heap is large enough in memory for every window entry to be read. */
  ghost predicate WindowReadable(heap: Heap)
  {
    heap.Valid() && heap.firstMapAddr + WINDOW / 2 <= heap.driver.cells.Length
  }

  /** The entries getNibbleVal returns for the indices 0 to 255: the map view of the first 128 map bytes. */
  ghost function Window(heap: Heap): (w: seq<bv8>)
    reads heap.driver.cells
    requires WindowReadable(heap)
    ensures |w| == WINDOW
  {
    View(heap.driver.cells[..], heap.firstMapAddr, WINDOW / 2)
  }

  /** The window entries that are map entries agree with the map. */
  lemma WindowMatchesMap(heap: Heap, x: int)
    requires WindowReadable(heap)
    ensures 0 <= x < WINDOW && x < heap.sizeUse ==> Window(heap)[x] == heap.MapView()[x]
  {
    ViewAt(heap.driver.cells[..], heap.firstMapAddr, WINDOW / 2, x);
    ViewAt(heap.driver.cells[..], heap.firstMapAddr, heap.sizeMap, x);
  }


  /** getNibbleVal on a 16-bit index: the window entry at that index's position. */
  method ReadIndex(heap: Heap, a: nat) returns (n: bv8)
    requires WindowReadable(heap)
    ensures n == Window(heap)[a % WINDOW]
  {
    ViewAt(heap.driver.cells[..], heap.firstMapAddr, WINDOW / 2, a % WINDOW);
    n := GetNibbleVal(heap, a % WINDOW);
  }

  /**
   * getStartOfBlock: the index reached by stepping down from addr while the
   * entry read is CONT; the entry there is not CONT.  The source loops
   * forever when all 256 window entries are CONT, so a non-CONT entry is
   * required.
   */
  method GetStartOfBlock(heap: Heap, addr: nat) returns (r: nat)
    requires WindowReadable(heap) && addr < INDEX_RANGE
    requires exists y :: 0 <= y < WINDOW && Window(heap)[y] != CONT
    ensures BackSteps(Window(heap), addr % WINDOW, WINDOW) < WINDOW
    ensures r == BlockStart(Window(heap), addr)
    ensures Window(heap)[r % WINDOW] != CONT
  {
    ghost var w := Window(heap);
    ghost var d := BackSteps(w, addr % WINDOW, WINDOW);
    ghost var y :| 0 <= y < WINDOW && w[y] != CONT;
    BackStepsEnds(w, addr % WINDOW, y);
    DownStart(w, addr);
    var a := addr;
    ghost var p: nat := addr % WINDOW;
    ghost var m: nat := WINDOW;
    var n := ReadIndex(heap, a);
    while n == CONT
      invariant DownState(w, addr, a, p, m, d) && n == w[p]
      decreases m
    {
      DownStep(w, addr, a, p, m, d);
      a := if a == 0 then 0xFFFF else a - 1;
      p, m := Down(p), m - 1;
      n := ReadIndex(heap, a);
    }
    DownStop(w, addr, a, p, m, d);
    r := a;
  }

  /**
   * os_getChunkSize: one more than the number of CONT entries above the
   * block start getStartOfBlock finds for addr, between 1 and 256.  The
   * source passes the use address straight on as an entry index.
   */
  method GetChunkSize(heap: Heap, addr: nat) returns (size: nat)
    requires WindowReadable(heap) && addr < INDEX_RANGE
    requires exists y :: 0 <= y < WINDOW && Window(heap)[y] != CONT
    ensures BackSteps(Window(heap), addr % WINDOW, WINDOW) < WINDOW
    ensures size == 1 + FwdSteps(Window(heap), Up(BlockStart(Window(heap), addr) % WINDOW), WINDOW - 1)
    ensures 1 <= size <= WINDOW
  {
    ghost var w := Window(heap);
    var start := GetStartOfBlock(heap, addr);
    size := StepsToNextHead(heap, start);
    assert size == 1 + FwdSteps(w, Up(start % WINDOW), WINDOW - 1);
  }

  /** The do-while loop of os_getChunkSize: steps up from start until an entry that is not CONT. */
  method StepsToNextHead(heap: Heap, start: nat) returns (size: nat)
    requires WindowReadable(heap) && start < INDEX_RANGE
    requires Window(heap)[start % WINDOW] != CONT
    ensures size == 1 + FwdSteps(Window(heap), Up(start % WINDOW), WINDOW - 1)
  {
    ghost var w := Window(heap);
    ghost var d := FwdSteps(w, Up(start % WINDOW), WINDOW - 1);
    UpStart(w, start);
    var a: nat := if start == 0xFFFF then 0 else start + 1;
    ghost var p: nat := Up(start % WINDOW);
    ghost var m: nat := WINDOW - 1;
    var n := ReadIndex(heap, a);
    while n == CONT
      invariant UpState(w, start, a, p, m, d) && n == w[p]
      decreases m
    {
      UpStep(w, start, a, p, m, d);
      a := if a == 0xFFFF then 0 else a + 1;
      p, m := Up(p), m - 1;
      n := ReadIndex(heap, a);
    }
    UpStop(w, start, a, p, m, d);
    size := if a >= start then a - start else a + INDEX_RANGE - start;
  }


  /** The window entries below 256 that are map entries agree with the map. */
  lemma WindowAgrees(heap: Heap)
    requires WindowReadable(heap)
    ensures Agrees(Window(heap), heap.MapView())
  {
    forall t | 0 <= t < |heap.MapView()| && t < WINDOW
      ensures Window(heap)[t] == heap.MapView()[t]
    {
      WindowMatchesMap(heap, t);
    }
  }

  /**
   * Within the first 256 entries of the map, getStartOfBlock finds the head
   * of the chunk that entry x belongs to.
   */
  lemma StartOfBlockIsChunkHead(heap: Heap, x: nat)
    requires WindowReadable(heap) && x < WINDOW && x < heap.sizeUse
    requires ChunkHead(heap.MapView(), x) >= 0
    ensures BlockStart(Window(heap), x) == ChunkHead(heap.MapView(), x)
  {
    ghost var w, v := Window(heap), heap.MapView();
    WindowAgrees(heap);
    StartFromEntry(w, v, x);
  }

  /**
   * Within the first 256 entries of the map, the size os_getChunkSize
   * reports for an entry of a chunk that ends before the map does is the
   * chunk's number of entries.
   */
  lemma ChunkSizeIsRun(heap: Heap, x: nat)
    requires WindowReadable(heap) && x < WINDOW && x < heap.sizeUse
    requires ChunkHead(heap.MapView(), x) >= 0
    requires RunEnd(heap.MapView(), ChunkHead(heap.MapView(), x) + 1) < heap.sizeUse
    requires RunEnd(heap.MapView(), ChunkHead(heap.MapView(), x) + 1) < WINDOW
    ensures 1 + FwdSteps(Window(heap), Up(BlockStart(Window(heap), x) % WINDOW), WINDOW - 1)
      == RunEnd(heap.MapView(), ChunkHead(heap.MapView(), x) + 1) - ChunkHead(heap.MapView(), x)
  {
    ghost var w, v := Window(heap), heap.MapView();
    WindowAgrees(heap);
    SizeFromEntry(w, v, x);
  }
}
