/**
 * The allocation strategies (os_memory_strategies.c).  First fit scans the
 * map for the lowest run of free entries long enough for the request; the
 * next-, best- and worst-fit strategies are stubs that find nothing.
 */
module MemoryStrategies {
  import opened NibbleMap
  import opened MemDrivers
  import opened MemHeapDrivers
  import opened MemoryAccess

  /**
   * The entries the first-fit scan sees: the map itself, or, when each index
   * is cut to 8 bits before it is read, entry i mod 256 at position i.
   */
  ghost function Seen(heap: Heap, narrow: bool): (u: seq<bv8>)
    reads heap.driver.cells
    requires heap.Valid()
    ensures |u| == heap.sizeUse
  {
    if narrow then TruncView(heap.MapView()) else heap.MapView()
  }

  /** The entry the scan reads at position k (the position past the map reads the first use byte). */
  function ScanRead(heap: Heap, k: nat, narrow: bool): (r: bv8)
    reads heap.driver.cells
    requires heap.Valid() && k <= heap.sizeUse && 0 < heap.sizeUse
    ensures k < heap.sizeUse ==> r == Seen(heap, narrow)[k]
  {
    GetNibbleVal(heap, if narrow then k % 256 else k)
  }

  /**
   * The first-fit scan over the entries it reads: `narrow` selects reading
   * through an 8-bit index, as the source's call of getNibbleVal does.  The
   * result is 0 when no run fits, and otherwise the use address of the lowest
   * run of FREE entries, among those seen, that holds the request.
   */
  method FirstFitScan(heap: Heap, size: nat, narrow: bool) returns (addr: nat)
    requires heap.Valid()
    ensures var s := FirstFitIndex(Seen(heap, narrow), size);
      addr == if s < 0 then 0 else heap.firstUseAddr + s
  {
    ghost var u := Seen(heap, narrow);
    var n := heap.sizeMap * 2;
    var allocAddr := 0;
    while allocAddr < n
      invariant 0 <= allocAddr <= n
      invariant forall t :: 0 <= t < allocAddr ==> !Fits(u, t, size)
      decreases n - allocAddr
    {
      var nibVal := ScanRead(heap, allocAddr, narrow);
      if nibVal == 0 {
        assert u[allocAddr] == FREE;
        var start := allocAddr;
        while allocAddr < n && allocAddr - start < size
          invariant start <= allocAddr <= n && start < n
          invariant allocAddr - start <= size
          invariant forall j :: start <= j <= allocAddr && j < n ==> u[j] == FREE
        {
          allocAddr := allocAddr + 1;
          if ScanRead(heap, allocAddr, narrow) != 0 {
            break;
          }
        }
        if allocAddr - start >= size {
          assert Fits(u, start, size);
          return heap.firstUseAddr + start;
        }
        assert allocAddr == n || u[allocAddr] != FREE;
        forall t | start <= t < allocAddr ensures !Fits(u, t, size) {
          assert t <= allocAddr < t + Span(size);
        }
      } else {
        allocAddr := allocAddr + 1;
      }
    }
    return 0;
  }

  /**
   * First fit with a full-width index: 0 when no run of FREE entries holds
   * the request, else the use address of the lowest such run.
   */
  method FirstFit(heap: Heap, size: nat) returns (addr: nat)
    requires heap.Valid()
    ensures var s := FirstFitIndex(heap.MapView(), size);
      addr == if s < 0 then 0 else heap.firstUseAddr + s
  {
    addr := FirstFitScan(heap, size, false);
  }

  /**
   * os_MemAlloc_FirstFit as written: the 16-bit scan position is passed to
   * getNibbleVal's 8-bit parameter, so position i reads entry i mod 256.
   */
  method FirstFitAsWritten(heap: Heap, size: nat) returns (addr: nat)
    requires heap.Valid()
    ensures var s := FirstFitIndex(TruncView(heap.MapView()), size);
      addr == if s < 0 then 0 else heap.firstUseAddr + s
  {
    addr := FirstFitScan(heap, size, true);
  }

  /** os_MemAlloc_NextFit: not implemented; never finds room. */
  method NextFit(heap: Heap, size: nat) returns (addr: nat)
    ensures addr == 0
  {
    return 0;
  }

  /** os_MemAlloc_BestFit: not implemented; never finds room. */
  method BestFit(heap: Heap, size: nat) returns (addr: nat)
    ensures addr == 0
  {
    return 0;
  }

  /** os_MemAlloc_WorstFit: not implemented; never finds room. */
  method WorstFit(heap: Heap, size: nat) returns (addr: nat)
    ensures addr == 0
  {
    return 0;
  }

  /**
   * A map of 129 bytes (258 entries) on which no run of 7 FREE entries
   * exists: entry 1 heads a chunk of process 1 reaching to entry 249,
   * entries 250..255 are FREE, entry 256 is the 1-entry chunk of process 2,
   * and entries 0 and 257 are FREE.
   */
  function OverlapMap(): seq<bv8>
  {
    seq(258, k requires 0 <= k < 258 =>
      if k == 1 then 1 else if 2 <= k < 250 then CONT else if k == 256 then 2 else FREE)
  }

  /** OverlapMap is well formed and holds no run of 7 FREE entries. */
  lemma OverlapMapIsFull()
    ensures WellFormed(OverlapMap()) && FirstFitIndex(OverlapMap(), 7) == -1
  {
    var v := OverlapMap();
    forall t | 0 <= t ensures !Fits(v, t, 7) {
      if t + 7 <= 258 {
        if t <= 1 {
          assert v[1] != FREE;
        } else if t < 250 {
          assert v[t] != FREE;
        } else {
          assert v[256] != FREE;
        }
      }
    }
  }

  /** Read through the 8-bit index, entries 256 and 257 of OverlapMap look like entries 0 and 1, so a run of 7 appears at 250. */
  lemma OverlapMapTruncatedRun()
    ensures FirstFitIndex(TruncView(OverlapMap()), 7) == 250
  {
    var v := OverlapMap();
    var u := TruncView(v);
    assert u[256] == v[0] && u[257] == v[1];
    assert Fits(u, 250, 7);
    forall t | 0 <= t < 250 ensures !Fits(u, t, 7) {
      if t <= 1 {
        assert u[1] != FREE;
      } else {
        assert u[t] != FREE;
      }
    }
  }

  /**
   * On OverlapMap the 8-bit scan places a 7-byte request at entry 250,
   * across the head of process 2's chunk at 256, while the map has no room.
   */
  lemma FirstFitTruncationOverlap()
    ensures var v := OverlapMap();
      WellFormed(v)
      && FirstFitIndex(v, 7) == -1
      && FirstFitIndex(TruncView(v), 7) == 250
      && Tag(v, 250, 3, Span(7))[256] == CONT && v[256] == 2
  {
    OverlapMapIsFull();
    OverlapMapTruncatedRun();
    var v := OverlapMap();
    assert v[256] == 2;
    assert 250 < 256 < 250 + Span(7);
  }
}
