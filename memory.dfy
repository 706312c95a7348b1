/**
 * Allocation and freeing on a heap (os_memory.c): os_malloc writes a chunk
 * into the map, os_getFirstByteOfChunk finds the head of the chunk an address
 * belongs to, and os_freeAsOwner clears a chunk when the caller owns it.
 *
 * The entry of use address a is entry a - firstUseAddr of the map.  The
 * allocator picks the half of a map byte by the parity of the absolute use
 * address, while getNibbleVal uses the parity of the entry index; the two
 * agree only when firstUseAddr is even, which these operations require.
 */
module Memory {
  import opened NibbleMap
  import opened MemDrivers
  import opened MemHeapDrivers
  import opened MemoryAccess
  import opened MemoryStrategies

  /** The entry index a strategy chooses for a request, or -1 for none. */
  function Placement(strategy: AllocStrategy, v: seq<bv8>, size: nat): (s: int)
    ensures s == -1 || Fits(v, s, size)
    ensures strategy != First ==> s == -1
  {
    if strategy == First then FirstFitIndex(v, size) else -1
  }

  /**
   * The entry index os_malloc as written obtains: first fit reads the map
   * through getNibbleVal's 8-bit index, so it places on the entries of
   * TruncView.  The place is inside the map, but its entries need not be FREE.
   */
  function PlacementAsWritten(strategy: AllocStrategy, v: seq<bv8>, size: nat): (s: int)
    ensures s == -1 || (Fits(TruncView(v), s, size) && InMap(v, s, size))
    ensures strategy != First ==> s == -1
  {
    if strategy == First then FirstFitIndex(TruncView(v), size) else -1
  }

  /** The bytes outside the map are those of `was`. */
  ghost predicate OutsideMapUnchanged(heap: Heap, was: seq<MemValue>)
    reads heap.driver.cells
  {
    |was| == heap.driver.cells.Length
    && forall a :: 0 <= a < |was| && !(heap.firstMapAddr <= a < heap.firstUseAddr) ==> heap.driver.cells[a] == was[a]
  }

  /**
   * os_malloc for process pid: the address the heap's strategy returns, 0
   * when it finds no room.  On success the chunk's head entry holds pid and
   * the rest of its entries hold CONT; every other entry, the halves of the
   * shared head and tail bytes included, and every byte outside the map keep
   * their values.  On failure nothing is written.
   */
  method Malloc(heap: Heap, size: nat, pid: bv8) returns (procMemory: nat)
    requires heap.Valid() && heap.firstUseAddr % 2 == 0 && pid < 16
    modifies heap.driver.cells
    ensures var s := Placement(heap.currAllocStrat, old(heap.MapView()), size);
      && procMemory == (if s < 0 then 0 else heap.firstUseAddr + s)
      && heap.MapView() == (if s < 0 then old(heap.MapView()) else Tag(old(heap.MapView()), s, pid, Span(size)))
    ensures procMemory == 0 ==> heap.driver.cells[..] == old(heap.driver.cells[..])
    ensures OutsideMapUnchanged(heap, old(heap.driver.cells[..]))
  {
    procMemory := 0;
    match heap.currAllocStrat {
      case First => procMemory := FirstFit(heap, size);
      case Next => procMemory := NextFit(heap, size);
      case Best => procMemory := BestFit(heap, size);
      case Worst => procMemory := WorstFit(heap, size);
    }
    if procMemory != 0 {
      WriteChunk(heap, procMemory, size, pid);
    }
  }

  /**
   * os_malloc as written, with first fit reading through the 8-bit index:
   * the chunk is tagged at PlacementAsWritten, over whatever entries lie
   * there.  On a map of more than 256 entries this can overwrite another
   * process's chunk (MemoryStrategies.FirstFitTruncationOverlap).
   */
  method MallocAsWritten(heap: Heap, size: nat, pid: bv8) returns (procMemory: nat)
    requires heap.Valid() && heap.firstUseAddr % 2 == 0 && pid < 16
    modifies heap.driver.cells
    ensures var s := PlacementAsWritten(heap.currAllocStrat, old(heap.MapView()), size);
      && procMemory == (if s < 0 then 0 else heap.firstUseAddr + s)
      && heap.MapView() == (if s < 0 then old(heap.MapView()) else Tag(old(heap.MapView()), s, pid, Span(size)))
    ensures procMemory == 0 ==> heap.driver.cells[..] == old(heap.driver.cells[..])
    ensures OutsideMapUnchanged(heap, old(heap.driver.cells[..]))
  {
    procMemory := 0;
    match heap.currAllocStrat {
      case First => procMemory := FirstFitAsWritten(heap, size);
      case Next => procMemory := NextFit(heap, size);
      case Best => procMemory := BestFit(heap, size);
      case Worst => procMemory := WorstFit(heap, size);
    }
    if procMemory != 0 {
      WriteChunk(heap, procMemory, size, pid);
    }
  }

  /**
   * On the 258-entry map of FirstFitTruncationOverlap, os_malloc as written
   * places a 7-byte request of process 3 at entry 250, over the head of
   * process 2 at entry 256, where the corrected placement finds no room.
   */
  lemma MallocAsWrittenOverlaps()
    ensures var v := OverlapMap();
      && Placement(First, v, 7) == -1
      && PlacementAsWritten(First, v, 7) == 250
      && v[256] == 2 && Tag(v, PlacementAsWritten(First, v, 7), 3, Span(7))[256] == CONT
  {
    FirstFitTruncationOverlap();
  }

  /**
   * The map writes of os_malloc once the strategy has returned procMemory:
   * the head byte by read-modify-write, whole bytes of CONT pairs, and a
   * read-modify-write of a last high CONT entry.
   */
  method WriteChunk(heap: Heap, procMemory: nat, size: nat, pid: bv8)
    requires heap.Valid() && heap.firstUseAddr % 2 == 0 && pid < 16
    requires heap.firstUseAddr <= procMemory && InMap(heap.MapView(), procMemory - heap.firstUseAddr, size)
    modifies heap.driver.cells
    ensures heap.MapView() == Tag(old(heap.MapView()), procMemory - heap.firstUseAddr, pid, Span(size))
    ensures OutsideMapUnchanged(heap, old(heap.driver.cells[..]))
  {
    ghost var v0 := heap.MapView();
    ghost var s: int := procMemory - heap.firstUseAddr;
    var nib := procMemory % 2;
    OffsetParity(procMemory, heap.firstUseAddr);
    var mapAddr := heap.firstMapAddr + (procMemory - heap.firstUseAddr) / 2;
    var index := WriteHead(heap, mapAddr, nib, size, pid, s);
    index := WritePairs(heap, mapAddr, nib, index, size, pid, v0, s);
    if index + 1 <= size {
      TailAddress(s, nib, index);
      TailByte(heap, mapAddr + (index + 1) / 2, s + index);
      TagExtend(v0, s, pid, index);
      index := index + 1;
    }
    assert index == Span(size);
  }

  /** Above an even base, an address and its offset from the base have the same parity. */
  lemma OffsetParity(a: int, base: int)
    requires base % 2 == 0 && base <= a
    ensures (a - base) % 2 == a % 2
  {
  }

  /** The byte holding entry s + index when index + nib is even: the one os_malloc writes last. */
  lemma TailAddress(s: int, nib: int, index: int)
    requires 0 <= s && s % 2 == nib && 0 <= index && (index + nib) % 2 == 0
    ensures 2 * (s / 2 + (index + 1) / 2) == s + index
  {
  }

  /**
   * The loop of os_malloc that fills whole map bytes with two CONT entries
   * while at least two entries of the request remain; it returns how many
   * entries of the chunk are then written.
   */
  method WritePairs(heap: Heap, mapAddr: nat, nib: int, from: nat, size: nat, pid: bv8, ghost v0: seq<bv8>, ghost s: int)
    returns (index: nat)
    requires heap.Valid() && (nib == 0 || nib == 1) && s % 2 == nib && 0 <= s
    requires 1 <= from <= Span(size) && s + Span(size) <= |v0| == heap.sizeUse
    requires from < Span(size) ==> (from + nib) % 2 == 0
    requires mapAddr == heap.firstMapAddr + s / 2
    requires heap.MapView() == Tag(v0, s, pid, from)
    modifies heap.driver.cells
    ensures from <= index <= Span(size) && index + 2 > size
    ensures index < Span(size) ==> (index + nib) % 2 == 0
    ensures heap.MapView() == Tag(v0, s, pid, index)
    ensures OutsideMapUnchanged(heap, old(heap.driver.cells[..]))
  {
    index := from;
    ghost var j := (from + nib) / 2;
    while index + 2 <= size
      invariant from <= index <= Span(size)
      invariant index < Span(size) ==> index + nib == 2 * j
      invariant heap.MapView() == Tag(v0, s, pid, index)
      invariant OutsideMapUnchanged(heap, old(heap.driver.cells[..]))
    {
      assert (index + nib) / 2 == j;
      PairByte(heap, mapAddr + (index + nib) / 2, s + index);
      TagExtend(v0, s, pid, index);
      TagExtend(v0, s, pid, index + 1);
      index, j := index + 2, j + 1;
    }
  }

  /** A whole map byte of two CONT entries, as os_malloc writes inside a chunk. */
  method PairByte(heap: Heap, addr: nat, ghost e: int)
    requires heap.Valid() && heap.firstMapAddr <= addr < heap.firstUseAddr && e == 2 * (addr - heap.firstMapAddr)
    modifies heap.driver.cells
    ensures heap.MapView() == old(heap.MapView())[e := CONT][e + 1 := CONT]
    ensures OutsideMapUnchanged(heap, old(heap.driver.cells[..]))
  {
    var nibble: MemValue := 0xFF;
    SetMapEntry(heap, addr, nibble);
  }

  /** The last entry of a chunk, in the high half of its byte, set to CONT by read-modify-write. */
  method TailByte(heap: Heap, addr: nat, ghost e: int)
    requires heap.Valid() && heap.firstMapAddr <= addr < heap.firstUseAddr && e == 2 * (addr - heap.firstMapAddr)
    modifies heap.driver.cells
    ensures heap.MapView() == old(heap.MapView())[e := CONT]
    ensures OutsideMapUnchanged(heap, old(heap.driver.cells[..]))
  {
    ghost var before := heap.MapView();
    var nibble := GetMapEntry(heap, addr);
    nibble := nibble | 0xF0;
    SetMapEntry(heap, addr, nibble);
    assert before[e := CONT][e + 1 := before[e + 1]] == before[e := CONT];
  }

  /**
   * The head byte os_malloc writes, by read-modify-write: pid in the half of
   * the head entry s, CONT in the low half when a high head is followed by a
   * second entry, the other half kept.  Returns how many entries are done.
   */
  method WriteHead(heap: Heap, mapAddr: nat, nib: int, size: nat, pid: bv8, ghost s: int) returns (index: nat)
    requires heap.Valid() && InMap(heap.MapView(), s, size) && pid < 16
    requires mapAddr == heap.firstMapAddr + s / 2 && nib == s % 2
    modifies heap.driver.cells
    ensures index == if nib == 0 && size > 1 then 2 else 1
    ensures heap.MapView() == Tag(old(heap.MapView()), s, pid, index)
    ensures OutsideMapUnchanged(heap, old(heap.driver.cells[..]))
  {
    ghost var v0 := heap.MapView();
    index := 1;
    var nibble := GetMapEntry(heap, mapAddr);
    ghost var read := nibble;
    assert 2 * (mapAddr - heap.firstMapAddr) == s - nib;
    assert High(read) == v0[s - nib] && Low(read) == v0[s - nib + 1];
    if nib == 0 && size > 1 {
      index := index + 1;
    }
    nibble := HeadByte(nibble, nib, size, pid);
    SetMapEntry(heap, mapAddr, nibble);
    if nib == 0 {
      TagHighHead(v0, s, pid, index);
    } else {
      TagLowHead(v0, s, pid);
    }
  }

  /**
   * The head byte os_malloc writes over the byte it read: a high head takes
   * pid in the high half and, when a second entry follows, CONT in the low
   * half; a low head takes pid in the low half and keeps the high half.
   */
  function HeadByte(read: bv8, nib: int, size: nat, pid: bv8): (b: bv8)
    requires (nib == 0 || nib == 1) && pid < 16
    ensures nib == 0 ==> High(b) == pid && Low(b) == (if size > 1 then CONT else Low(read))
    ensures nib == 1 ==> High(b) == High(read) && Low(b) == pid
  {
    var r := if nib == 0 && size > 1 then read | 0x0F else read;
    (r & (0x0F << (nib * 4))) | (pid << ((1 - nib) * 4))
  }

  /**
   * The test of loop round k of os_getFirstByteOfChunk: whether the half of
   * the byte under the mask 0x0F << 4k (the low half first) is not CONT.
   */
  function MaskedHalfNotCont(cur: MemValue, k: int): (b: bool)
    requires k == 0 || k == 1
    ensures b == ((if k == 0 then Low(cur) else High(cur)) != CONT)
  {
    (cur & (0x0F << (k * 4))) != 0x0F << (k * 4)
  }

  /**
   * os_getFirstByteOfChunk: the use address of the head of the chunk that
   * addr lies in, that is the nearest address at or below addr whose entry
   * is not CONT, or 0 when every entry from the start of the map up to
   * addr's is CONT.
   */
  method GetFirstByteOfChunk(heap: Heap, addr: nat) returns (r: nat)
    requires heap.Valid() && heap.firstUseAddr % 2 == 0
    requires heap.firstUseAddr <= addr < heap.firstUseAddr + heap.sizeUse
    ensures var h := ChunkHead(heap.MapView(), addr - heap.firstUseAddr);
      r == if h < 0 then 0 else heap.firstUseAddr + h
  {
    var a := addr;
    var nib := a % 2;
    var mapAddr := heap.firstMapAddr + (a - heap.firstUseAddr) / 2;
    var found;
    found, r := HeadInOwnByte(heap, a, nib, mapAddr);
    if found {
      return r;
    }
    if nib == 1 {
      a := a - 2;
    } else {
      a := a - 1;
    }
    mapAddr := mapAddr - 1;
    r := ScanBack(heap, a, mapAddr, addr - heap.firstUseAddr);
  }

  /**
   * The tests os_getFirstByteOfChunk makes on the map byte of addr before
   * walking back: addr itself is the head when its entry is FREE or not
   * CONT, and for a low entry the high entry of the same byte is the head
   * when it is not CONT.  When none applies, every entry of that byte up to
   * addr's is CONT.
   */
  method HeadInOwnByte(heap: Heap, a: nat, nib: nat, mapAddr: nat) returns (found: bool, r: nat)
    requires heap.Valid() && heap.firstUseAddr % 2 == 0
    requires heap.firstUseAddr <= a < heap.firstUseAddr + heap.sizeUse
    requires nib == a % 2 && mapAddr == heap.firstMapAddr + (a - heap.firstUseAddr) / 2
    ensures found ==> var h := ChunkHead(heap.MapView(), a - heap.firstUseAddr); h >= 0 && r == heap.firstUseAddr + h
    ensures !found ==> forall t :: a - heap.firstUseAddr - nib - 1 < t <= a - heap.firstUseAddr ==> heap.MapView()[t] == CONT
  {
    ghost var v := heap.MapView();
    ghost var i := a - heap.firstUseAddr;
    assert 2 * (mapAddr - heap.firstMapAddr) == i - nib;
    var low := GetLowNibble(heap, mapAddr);
    var high := GetHighNibble(heap, mapAddr);
    ghost var b := GetMapEntry(heap, mapAddr);
    assert high == v[i - nib] && low == v[i - nib + 1];
    found, r := true, a;
    if nib == 1 {
      if low == 0 {
        ChunkHeadIs(v, i, i);
        return;
      }
    } else {
      if high == 0 {
        ChunkHeadIs(v, i, i);
        return;
      }
    }
    if nib == 1 && low != 0x0F {
      ChunkHeadIs(v, i, i);
      return;
    } else if nib == 1 && high != 0x0F {
      ChunkHeadIs(v, i, i - 1);
      r := a - 1;
      return;
    } else if nib == 0 && high != 0x0F {
      ChunkHeadIs(v, i, i);
      return;
    }
    found := false;
  }

  /**
   * The backward loop of os_getFirstByteOfChunk: from the low entry of map
   * byte mapAddr down to the start of the map, low half before high half,
   * every entry above it up to entry i being CONT.
   */
  method ScanBack(heap: Heap, from: nat, fromMapAddr: nat, ghost i: int) returns (r: nat)
    requires heap.Valid() && 0 <= i < heap.sizeUse
    requires heap.firstMapAddr - 1 <= fromMapAddr < heap.firstUseAddr
    requires from - heap.firstUseAddr == 2 * (fromMapAddr - heap.firstMapAddr) + 1 <= i
    requires forall t :: from - heap.firstUseAddr < t <= i ==> heap.MapView()[t] == CONT
    ensures var h := ChunkHead(heap.MapView(), i);
      r == if h < 0 then 0 else heap.firstUseAddr + h
  {
    ghost var v := heap.MapView();
    var a := from;
    var mapAddr := fromMapAddr;
    while mapAddr >= heap.firstMapAddr
      invariant heap.firstMapAddr - 1 <= mapAddr < heap.firstUseAddr
      invariant a - heap.firstUseAddr == 2 * (mapAddr - heap.firstMapAddr) + 1
      invariant forall t :: a - heap.firstUseAddr < t <= i ==> v[t] == CONT
      decreases mapAddr
    {
      var cur := GetMapEntry(heap, mapAddr);
      ghost var base := 2 * (mapAddr - heap.firstMapAddr);
      assert High(cur) == v[base] && Low(cur) == v[base + 1];
      var k := 0;
      while k <= 1
        invariant 0 <= k <= 2
        invariant a - heap.firstUseAddr == base + 1 - k
        invariant forall t :: base + 1 - k < t <= i ==> v[t] == CONT
      {
        if MaskedHalfNotCont(cur, k) {
          assert v[base + 1 - k] != CONT;
          ChunkHeadIs(v, i, base + 1 - k);
          return a;
        }
        a := a - 1;
        k := k + 1;
      }
      mapAddr := mapAddr - 1;
    }
    ChunkHeadIs(v, i, -1);
    return 0;
  }

  /** The owner recorded in the head entry, in the half of the byte that nib names. */
  function HeadOwner(nibble: MemValue, nib: int): (owner: bv8)
    requires nib == 0 || nib == 1
    ensures owner == if nib == 0 then High(nibble) else Low(nibble)
  {
    (nibble >> ((1 - nib) * 4)) & 0x0F
  }

  /**
   * One round of the forward walk of os_freeAsOwner on a map byte: a CONT
   * high half is cleared, and the low half with it when it is CONT too; a
   * byte whose high half is not CONT is left as it is.
   */
  function ClearedByte(b: MemValue): (r: MemValue)
    ensures High(b) != CONT ==> r == b
    ensures High(b) == CONT ==> High(r) == FREE && Low(r) == (if Low(b) == CONT then FREE else Low(b))
    ensures r == 0 <==> High(r) == FREE && Low(r) == FREE
  {
    if (b & 0xF0) == 0xF0 then
      var n := b & 0x0F;
      if (n & 0x0F) == 0x0F then n & 0xF0 else n
    else b
  }

  /**
   * os_freeAsOwner, with the forward walk checking that it is still inside
   * the map before it reads a byte: when the chunk holding addr has a head
   * recorded for owner, that head and the CONT run after it become FREE;
   * otherwise nothing changes.  No byte outside the map is written.
   */
  method FreeAsOwner(heap: Heap, addr: nat, owner: bv8)
    requires heap.Valid() && heap.firstUseAddr % 2 == 0
    requires heap.firstUseAddr <= addr < heap.firstUseAddr + heap.sizeUse
    modifies heap.driver.cells
    ensures heap.MapView() == FreeAsOwnerSpec(old(heap.MapView()), addr - heap.firstUseAddr, owner)
    ensures OutsideMapUnchanged(heap, old(heap.driver.cells[..]))
  {
    ghost var v0, i := heap.MapView(), addr - heap.firstUseAddr;
    ghost var h := ChunkHead(v0, i);
    ghost var w := if h < 0 || v0[h] != owner then v0 else FreeChunk(v0, h);
    assert FreeAsOwnerSpec(v0, i, owner) == w;
    var useAddr := GetFirstByteOfChunk(heap, addr);
    if useAddr != 0 {
      assert useAddr - heap.firstUseAddr == h;
      FreeChunkOf(heap, useAddr, owner);
    }
    assert heap.MapView() == w;
  }

  /**
   * The body of os_freeAsOwner once the head address useAddr is known: the
   * owner test, the head entry cleared (a high head through CONT, which the
   * walk then clears), and the forward walk.
   */
  method FreeChunkOf(heap: Heap, useAddr: nat, owner: bv8)
    requires heap.Valid() && heap.firstUseAddr % 2 == 0
    requires heap.firstUseAddr <= useAddr < heap.firstUseAddr + heap.sizeUse
    modifies heap.driver.cells
    ensures var v, h := old(heap.MapView()), useAddr - heap.firstUseAddr;
      heap.MapView() == if v[h] != owner then v else FreeChunk(v, h)
    ensures OutsideMapUnchanged(heap, old(heap.driver.cells[..]))
  {
    ghost var v0 := heap.MapView();
    ghost var h: int := useAddr - heap.firstUseAddr;
    var nib := useAddr % 2;
    var mapAddr := heap.firstMapAddr + (useAddr - heap.firstUseAddr) / 2;
    assert 2 * (mapAddr - heap.firstMapAddr) == h - nib;
    var nibble := GetMapEntry(heap, mapAddr);
    var heapOwner := HeadOwner(nibble, nib);
    if heapOwner != owner {
      return;
    }
    ClearHead(heap, mapAddr, nibble, nib, h);
    if nib == 1 {
      mapAddr := mapAddr + 1;
    }
    assert h % 2 == nib && mapAddr - heap.firstMapAddr == (if nib == 1 then h / 2 + 1 else h / 2);
    ClearWalk(heap, mapAddr);
  }

  /**
   * The head entry h, held in map byte mapAddr whose value is read, is
   * cleared: a low head becomes FREE, a high head becomes CONT so that the
   * walk starting at its own byte clears it.  The other half is kept.
   */
  method ClearHead(heap: Heap, mapAddr: nat, read: MemValue, nib: int, ghost h: int)
    requires heap.Valid() && heap.firstMapAddr <= mapAddr < heap.firstUseAddr
    requires (nib == 0 || nib == 1) && h == 2 * (mapAddr - heap.firstMapAddr) + nib
    requires read == heap.driver.cells[mapAddr]
    modifies heap.driver.cells
    ensures heap.MapView() == old(heap.MapView())[h := if nib == 1 then FREE else CONT]
    ensures OutsideMapUnchanged(heap, old(heap.driver.cells[..]))
  {
    ghost var v0 := heap.MapView();
    ghost var b := GetMapEntry(heap, mapAddr);
    var nibble := read;
    if nib == 1 {
      nibble := nibble & 0xF0;
      SetMapEntry(heap, mapAddr, nibble);
      assert v0[h - 1 := v0[h - 1]][h := FREE] == v0[h := FREE];
    } else {
      nibble := nibble | 0xF0;
      SetMapEntry(heap, mapAddr, nibble);
      assert v0[h := CONT][h + 1 := v0[h + 1]] == v0[h := CONT];
    }
  }

  /**
   * The forward walk of os_freeAsOwner from map byte mapAddr: the map ends
   * as ClearRun leaves it, and the walk stops at firstUseAddr.
   */
  method ClearWalk(heap: Heap, mapAddr: nat)
    requires heap.Valid() && heap.firstMapAddr <= mapAddr <= heap.firstUseAddr
    modifies heap.driver.cells
    ensures heap.MapView() == ClearRun(old(heap.MapView()), mapAddr - heap.firstMapAddr)
    ensures OutsideMapUnchanged(heap, old(heap.driver.cells[..]))
  {
    ghost var w := ClearRun(heap.MapView(), mapAddr - heap.firstMapAddr);
    var m := mapAddr;
    while m < heap.firstUseAddr
      invariant heap.firstMapAddr <= m <= heap.firstUseAddr
      invariant ClearRun(heap.MapView(), m - heap.firstMapAddr) == w
      invariant OutsideMapUnchanged(heap, old(heap.driver.cells[..]))
      decreases heap.firstUseAddr - m
    {
      ghost var k := m - heap.firstMapAddr;
      ghost var before := heap.MapView();
      assert ClearRun(before, k) == w;
      var more := ClearStep(heap, m);
      if !more {
        return;
      }
      assert ClearRun(before, k) == ClearRun(heap.MapView(), k + 1);
      assert ClearRun(heap.MapView(), k + 1) == w;
      m := m + 1;
    }
    assert 2 * (m - heap.firstMapAddr) >= |heap.MapView()|;
  }

  /**
   * One round of the forward walk on map byte m.  It reports whether the
   * walk goes on: the byte has been rewritten and is now all FREE.
   */
  method ClearStep(heap: Heap, m: nat) returns (more: bool)
    requires heap.Valid() && heap.firstMapAddr <= m < heap.firstUseAddr
    modifies heap.driver.cells
    ensures var k := m - heap.firstMapAddr;
      if more then ClearRun(old(heap.MapView()), k) == ClearRun(heap.MapView(), k + 1)
      else heap.MapView() == ClearRun(old(heap.MapView()), k)
    ensures OutsideMapUnchanged(heap, old(heap.driver.cells[..]))
  {
    ghost var k := m - heap.firstMapAddr;
    var nibble := GetMapEntry(heap, m);
    var newNibbles := ClearedByte(nibble);
    if newNibbles == nibble {
      return false;
    }
    SetMapEntry(heap, m, newNibbles);
    more := newNibbles == 0;
  }

  /**
   * os_free: the calling process pid frees the chunk holding addr, which
   * happens only when pid owns it.
   */
  method Free(heap: Heap, addr: nat, pid: bv8)
    requires heap.Valid() && heap.firstUseAddr % 2 == 0
    requires heap.firstUseAddr <= addr < heap.firstUseAddr + heap.sizeUse
    modifies heap.driver.cells
    ensures heap.MapView() == FreeAsOwnerSpec(old(heap.MapView()), addr - heap.firstUseAddr, pid)
    ensures OutsideMapUnchanged(heap, old(heap.driver.cells[..]))
  {
    FreeAsOwner(heap, addr, pid);
  }

  /**
   * The forward walk of os_freeAsOwner as the source writes it, on the
   * bytes of memory: a do-while loop, so the byte at m is read, cleared and
   * written before the loop checks m against firstUseAddr.
   */
  function FreeWalkAsWritten(mem: seq<MemValue>, firstUseAddr: nat, m: nat): (r: seq<MemValue>)
    requires m < |mem| && firstUseAddr <= |mem|
    ensures |r| == |mem|
    ensures forall a :: 0 <= a < m ==> r[a] == mem[a]
    decreases |mem| - m
  {
    var n := ClearedByte(mem[m]);
    if n == mem[m] then mem
    else if n != 0 || m + 1 >= firstUseAddr then mem[m := n]
    else FreeWalkAsWritten(mem[m := n], firstUseAddr, m + 1)
  }

  /**
   * os_freeAsOwner as written, from the head address useAddr that
   * os_getFirstByteOfChunk found, on the bytes of memory with the map at
   * [firstMapAddr, firstUseAddr) and the use region after it.
   */
  function FreeFromHeadAsWritten(mem: seq<MemValue>, firstMapAddr: nat, firstUseAddr: nat, useAddr: nat, owner: bv8)
    : (r: seq<MemValue>)
    requires firstMapAddr <= firstUseAddr <= useAddr < firstUseAddr + 2 * (firstUseAddr - firstMapAddr) <= |mem|
    ensures |r| == |mem|
    ensures forall a :: 0 <= a < firstMapAddr ==> r[a] == mem[a]
  {
    var nib := useAddr % 2;
    var mapAddr := firstMapAddr + (useAddr - firstUseAddr) / 2;
    var nibble := mem[mapAddr];
    if HeadOwner(nibble, nib) != owner then mem
    else if nib == 1 then FreeWalkAsWritten(mem[mapAddr := nibble & 0xF0], firstUseAddr, mapAddr + 1)
    else FreeWalkAsWritten(mem[mapAddr := nibble | 0xF0], firstUseAddr, mapAddr)
  }

  /**
   * A chunk whose head is the last entry of the map: as written, freeing it
   * moves on to the byte at firstUseAddr, finds a high half of 0xF in the
   * data stored there and clears it, although that byte belongs to the use
   * region.  The map [1, 2] sits in byte 1, the use region is bytes 2 and 3,
   * and byte 2 holds 0xF5.
   */
  lemma FreeAsWrittenWritesUseByte()
    ensures var mem: seq<MemValue> := [0x00, 0x12, 0xF5, 0x00];
      var r := FreeFromHeadAsWritten(mem, 1, 2, 3, 2);
      r == [0x00, 0x10, 0x05, 0x00] && r[2] != mem[2]
  {
    var mem: seq<MemValue> := [0x00, 0x12, 0xF5, 0x00];
    var cleared := mem[1 := 0x10];
    assert ClearedByte(0xF5) == 0x05;
    assert FreeWalkAsWritten(cleared, 2, 2) == cleared[2 := 0x05];
  }

  /** The same free on the map alone, walking only while inside the map: entry 1 becomes FREE, entry 0 stays. */
  lemma FreeLastEntryStaysInMap()
    ensures FreeAsOwnerSpec([1, 2], 1, 2) == [1, FREE]
  {
    assert ChunkHead([1, 2], 1) == 1;
  }
}
