/**
 * The allocation map of a heap, seen as a sequence of 4-bit entries.
 *
 * Every byte of a heap's use region has one map entry; two entries are packed
 * into one map byte, the entry of the even (relative) use index in the high
 * half and the entry of the odd one in the low half.  An entry is FREE (0x0),
 * CONT (0xF, a byte of a chunk that is not its first byte) or the id of the
 * process owning the chunk that starts at that byte.
 *
 * Everything here is a pure function of a memory snapshot; the operations in
 * module Memory are proved against these definitions.
 */
module NibbleMap {

  type MemValue = bv8

  const FREE: bv8 := 0x0
  const CONT: bv8 := 0xF

  /** The high half of a byte, as `b >> 4`. */
  function High(b: MemValue): (n: bv8)
    ensures n < 16
  {
    b >> 4
  }

  /** The low half of a byte, as `b & 0x0F`. */
  function Low(b: MemValue): (n: bv8)
    ensures n < 16
  {
    b & 0x0F
  }

  /** Entry k of the nibble array that starts at byte `start` of `mem`. */
  function NibbleAt(mem: seq<MemValue>, start: nat, k: nat): (n: bv8)
    requires start + k / 2 < |mem|
    ensures n < 16
  {
    if k % 2 == 0 then High(mem[start + k / 2]) else Low(mem[start + k / 2])
  }

  /**
   * The 2 * sizeMap entries stored in the map bytes [start, start + sizeMap),
   * byte by byte, the high half of each byte first.
   */
  function View(mem: seq<MemValue>, start: nat, sizeMap: nat): (v: seq<bv8>)
    requires start + sizeMap <= |mem|
    ensures |v| == 2 * sizeMap
    decreases sizeMap
  {
    if sizeMap == 0 then []
    else View(mem, start, sizeMap - 1) + [High(mem[start + sizeMap - 1]), Low(mem[start + sizeMap - 1])]
  }

  /** Entry k of the view is the half of byte start + k / 2 that the parity of k names. */
  lemma {:induction false} ViewAt(mem: seq<MemValue>, start: nat, sizeMap: nat, k: int)
    requires start + sizeMap <= |mem|
    ensures 0 <= k < 2 * sizeMap ==> View(mem, start, sizeMap)[k] == NibbleAt(mem, start, k)
    decreases sizeMap
  {
    if 0 <= k < 2 * (sizeMap - 1) {
      ViewAt(mem, start, sizeMap - 1, k);
    }
  }

  /** Writing byte `a` of the map changes exactly the two entries it holds. */
  lemma ViewAfterWrite(mem: seq<MemValue>, start: nat, sizeMap: nat, a: int, b: MemValue)
    requires start + sizeMap <= |mem| && 0 <= a < |mem|
    ensures start <= a < start + sizeMap ==>
      View(mem[a := b], start, sizeMap)
        == View(mem, start, sizeMap)[2 * (a - start) := High(b)][2 * (a - start) + 1 := Low(b)]
    ensures !(start <= a < start + sizeMap) ==>
      View(mem[a := b], start, sizeMap) == View(mem, start, sizeMap)
  {
    var v, w := View(mem, start, sizeMap), View(mem[a := b], start, sizeMap);
    if start <= a < start + sizeMap {
      var u := v[2 * (a - start) := High(b)][2 * (a - start) + 1 := Low(b)];
      forall k | 0 <= k < 2 * sizeMap ensures w[k] == u[k] {
        ViewAt(mem, start, sizeMap, k);
        ViewAt(mem[a := b], start, sizeMap, k);
        if start + k / 2 == a {
          assert k == 2 * (a - start) || k == 2 * (a - start) + 1;
        }
      }
    } else {
      forall k | 0 <= k < 2 * sizeMap ensures w[k] == v[k] {
        ViewAt(mem, start, sizeMap, k);
        ViewAt(mem[a := b], start, sizeMap, k);
      }
    }
  }

  /**
   * A map is well formed when every CONT entry continues a chunk: it is not
   * the first entry and the entry before it is not FREE.
   */
  ghost predicate WellFormed(v: seq<bv8>)
  {
    forall i :: 0 <= i < |v| && v[i] == CONT ==> 0 < i && v[i - 1] != FREE
  }

  /** Number of entries an allocation of `size` bytes tags: a request for 0 still tags its head. */
  function Span(size: nat): (n: nat)
    ensures n >= 1 && n >= size
  {
    if size == 0 then 1 else size
  }

  /** Entries [s, s + Span(size)) lie inside the map. */
  predicate InMap(v: seq<bv8>, s: int, size: nat)
  {
    0 <= s && s + Span(size) <= |v|
  }

  /** Entries [s, s + Span(size)) lie inside the map and are all FREE. */
  predicate Fits(v: seq<bv8>, s: int, size: nat)
  {
    InMap(v, s, size) && forall j :: s <= j < s + Span(size) ==> v[j] == FREE
  }

  /**
   * The map after a chunk of `len` entries owned by `pid` is placed at s:
   * the head holds the owner, the following len - 1 entries hold CONT.
   */
  function Tag(v: seq<bv8>, s: int, pid: bv8, len: nat): (t: seq<bv8>)
    ensures |t| == |v|
    ensures forall j :: 0 <= j < |v| && j != s && !(s < j < s + len) ==> t[j] == v[j]
    ensures 0 <= s < |v| ==> t[s] == pid
    ensures forall j :: 0 <= j < |v| && s < j < s + len ==> t[j] == CONT
  {
    seq(|v|, j requires 0 <= j < |v| => if j == s then pid else if s < j < s + len then CONT else v[j])
  }

  /** Entries [a, b) set to FREE, the others kept. */
  function Zeroed(v: seq<bv8>, a: int, b: int): (z: seq<bv8>)
    ensures |z| == |v|
    ensures forall j :: 0 <= j < |v| && a <= j < b ==> z[j] == FREE
    ensures forall j :: 0 <= j < |v| && !(a <= j < b) ==> z[j] == v[j]
  {
    seq(|v|, j requires 0 <= j < |v| => if a <= j < b then FREE else v[j])
  }

  /**
   * The head of the chunk that entry i belongs to: the nearest index h <= i
   * whose entry is not CONT, or -1 when every entry in [0, i] is CONT.
   */
  function ChunkHead(v: seq<bv8>, i: int): (h: int)
    requires -1 <= i < |v|
    ensures -1 <= h <= i
    ensures h >= 0 ==> v[h] != CONT
    ensures forall t :: h < t <= i ==> v[t] == CONT
    decreases i + 1
  {
    if i < 0 then -1 else if v[i] != CONT then i else ChunkHead(v, i - 1)
  }

  /** The end of the run of CONT entries that starts at j. */
  function RunEnd(v: seq<bv8>, j: int): (e: int)
    requires 0 <= j <= |v|
    ensures j <= e <= |v|
    ensures forall t :: j <= t < e ==> v[t] == CONT
    ensures e < |v| ==> v[e] != CONT
    decreases |v| - j
  {
    if j == |v| || v[j] != CONT then j else RunEnd(v, j + 1)
  }

  /**
   * The forward walk of os_freeAsOwner, from map byte k on: a byte whose high
   * entry is CONT gets that entry cleared and its low entry cleared too when
   * it is CONT; the walk goes on to the next byte only when the byte is then
   * all FREE, and stops at the end of the map or at a byte whose high entry
   * is not CONT.
   */
  function ClearRun(v: seq<bv8>, k: nat): (w: seq<bv8>)
    requires |v| % 2 == 0
    ensures |w| == |v|
    decreases |v| - 2 * k
  {
    if 2 * k >= |v| then v
    else if v[2 * k] != CONT then v
    else
      var lo := if v[2 * k + 1] == CONT then FREE else v[2 * k + 1];
      var w := v[2 * k := FREE][2 * k + 1 := lo];
      if lo == FREE then ClearRun(w, k + 1) else w
  }

  /**
   * Freeing the chunk whose head is entry h: a low head is cleared and the
   * walk starts at the next byte; a high head is first overwritten with CONT
   * and the walk starts at its own byte (which then clears it).
   */
  function FreeChunk(v: seq<bv8>, h: int): (w: seq<bv8>)
    requires |v| % 2 == 0 && 0 <= h < |v|
    ensures |w| == |v|
  {
    if h % 2 == 1 then ClearRun(v[h := FREE], h / 2 + 1) else ClearRun(v[h := CONT], h / 2)
  }

  /**
   * os_freeAsOwner on the map: find the head of the chunk holding entry i;
   * nothing happens when there is none or when its owner is not `owner`.
   */
  function FreeAsOwnerSpec(v: seq<bv8>, i: int, owner: bv8): (w: seq<bv8>)
    requires |v| % 2 == 0 && 0 <= i < |v|
    ensures |w| == |v|
  {
    var h := ChunkHead(v, i);
    if h < 0 || v[h] != owner then v else FreeChunk(v, h)
  }

  /** The first s >= from at which Fits(v, s, size) holds, or -1. */
  function FirstFitFrom(v: seq<bv8>, size: nat, from: nat): (s: int)
    ensures s == -1 || (from <= s && Fits(v, s, size))
    ensures s == -1 ==> forall t :: from <= t && Fits(v, t, size) ==> false
    ensures forall t :: from <= t < s ==> !Fits(v, t, size)
    decreases |v| - from
  {
    if from >= |v| then -1 else if Fits(v, from, size) then from else FirstFitFrom(v, size, from + 1)
  }

  /** The first-fit placement of a `size`-byte request: the lowest fitting index, or -1. */
  function FirstFitIndex(v: seq<bv8>, size: nat): (s: int)
    ensures s == -1 || Fits(v, s, size)
    ensures s == -1 <==> forall t :: !Fits(v, t, size)
    ensures forall t :: 0 <= t < s ==> !Fits(v, t, size)
  {
    FirstFitFrom(v, size, 0)
  }

  /**
   * The entries as seen through an 8-bit index: entry i is read at i mod 256.
   */
  function TruncView(v: seq<bv8>): (t: seq<bv8>)
    ensures |t| == |v|
    ensures forall i :: 0 <= i < |v| ==> t[i] == v[i % 256]
    ensures forall i :: 0 <= i < |v| && i < 256 ==> t[i] == v[i]
  {
    seq(|v|, i requires 0 <= i < |v| => v[i % 256])
  }

  /** RunEnd is pinned down by the run it ends. */
  lemma {:induction false} RunEndIs(v: seq<bv8>, j: int, e: int)
    requires 0 <= j <= e <= |v|
    requires forall t :: j <= t < e ==> v[t] == CONT
    requires e == |v| || v[e] != CONT
    ensures RunEnd(v, j) == e
    decreases e - j
  {
    if j < e {
      RunEndIs(v, j + 1, e);
    }
  }

  /** ChunkHead is pinned down by the head it finds (or by an all-CONT prefix when it is -1). */
  lemma {:induction false} ChunkHeadIs(v: seq<bv8>, i: int, h: int)
    requires -1 <= h <= i < |v|
    requires h >= 0 ==> v[h] != CONT
    requires forall t :: h < t <= i ==> v[t] == CONT
    ensures ChunkHead(v, i) == h
    decreases i - h
  {
    if h < i {
      ChunkHeadIs(v, i - 1, h);
    }
  }

  /** Tagging one more entry of a chunk is writing CONT at its end. */
  lemma TagExtend(v: seq<bv8>, s: int, pid: bv8, len: nat)
    requires 0 <= s && 1 <= len && s + len < |v|
    ensures Tag(v, s, pid, len)[s + len := CONT] == Tag(v, s, pid, len + 1)
  {
  }

  /** A chunk of one or two entries whose head is the high half of a byte: one byte write. */
  lemma TagHighHead(v: seq<bv8>, s: int, pid: bv8, len: nat)
    requires 0 <= s && s + 1 < |v| && (len == 1 || len == 2)
    ensures Tag(v, s, pid, len) == v[s := pid][s + 1 := if len == 2 then CONT else v[s + 1]]
  {
  }

  /** A chunk whose head is the low half of a byte: the high half is written back as it was. */
  lemma TagLowHead(v: seq<bv8>, s: int, pid: bv8)
    requires 1 <= s < |v|
    ensures Tag(v, s, pid, 1) == v[s - 1 := v[s - 1]][s := pid]
  {
  }

  /**
   * The walk from byte k clears exactly the CONT run [2k, e) when it is
   * followed by a non-CONT entry (or the end of the map) and, when the run
   * ends in a high entry, the entry after a FREE stopper is not CONT.
   */
  lemma {:induction false} ClearRunZeroes(w: seq<bv8>, k: nat, e: int)
    requires |w| % 2 == 0 && 2 * k <= e <= |w|
    requires forall t :: 2 * k <= t < e ==> w[t] == CONT
    requires e < |w| ==> w[e] != CONT
    requires e % 2 == 1 && e + 1 < |w| && w[e] == FREE ==> w[e + 1] != CONT
    ensures ClearRun(w, k) == Zeroed(w, 2 * k, e)
    decreases |w| - 2 * k
  {
    if 2 * k >= |w| {
      assert Zeroed(w, 2 * k, e) == w;
    } else if w[2 * k] != CONT {
      assert Zeroed(w, 2 * k, e) == w;
    } else {
      var lo := if w[2 * k + 1] == CONT then FREE else w[2 * k + 1];
      var w' := w[2 * k := FREE][2 * k + 1 := lo];
      if w[2 * k + 1] == CONT {
        ClearRunZeroes(w', k + 1, e);
        assert Zeroed(w', 2 * k + 2, e) == Zeroed(w, 2 * k, e);
      } else if lo == FREE {
        assert e == 2 * k + 1;
        ClearRunZeroes(w', k + 1, 2 * k + 2);
        assert Zeroed(w', 2 * k + 2, 2 * k + 2) == Zeroed(w, 2 * k, e);
      } else {
        assert e == 2 * k + 1;
        assert w' == Zeroed(w, 2 * k, e);
      }
    }
  }

  /**
   * On a well-formed map, freeing from a non-CONT entry h clears h and the
   * whole CONT run after it, and nothing else.
   */
  lemma FreeChunkZeroes(v: seq<bv8>, h: int)
    requires |v| % 2 == 0 && WellFormed(v) && 0 <= h < |v| && v[h] != CONT
    ensures FreeChunk(v, h) == Zeroed(v, h, RunEnd(v, h + 1))
  {
    var e := RunEnd(v, h + 1);
    if e % 2 == 1 && e + 1 < |v| && v[e] == FREE && e > h {
      assert v[e + 1] != CONT;
    }
    if h % 2 == 1 {
      FreeLowHead(v, h, e);
    } else {
      FreeHighHead(v, h, e);
    }
  }

  /** FreeChunkZeroes for a head in the low half of its byte. */
  lemma FreeLowHead(v: seq<bv8>, h: int, e: int)
    requires |v| % 2 == 0 && 0 <= h < |v| && h % 2 == 1 && e == RunEnd(v, h + 1)
    requires e % 2 == 1 && e + 1 < |v| && v[e] == FREE && e > h ==> v[e + 1] != CONT
    ensures FreeChunk(v, h) == Zeroed(v, h, e)
  {
    var w := v[h := FREE];
    ClearRunZeroes(w, h / 2 + 1, e);
    assert Zeroed(w, h + 1, e) == Zeroed(v, h, e);
  }

  /** FreeChunkZeroes for a head in the high half of its byte. */
  lemma FreeHighHead(v: seq<bv8>, h: int, e: int)
    requires |v| % 2 == 0 && 0 <= h < |v| && h % 2 == 0 && e == RunEnd(v, h + 1)
    requires e % 2 == 1 && e + 1 < |v| && v[e] == FREE && e > h ==> v[e + 1] != CONT
    requires v[h] != CONT
    ensures FreeChunk(v, h) == Zeroed(v, h, e)
  {
    var w := v[h := CONT];
    ClearRunZeroes(w, h / 2, e);
    assert Zeroed(w, h, e) == Zeroed(v, h, e);
  }

  /** Placing a chunk of a real owner on free entries keeps the map well formed. */
  lemma TagPreservesWellFormed(v: seq<bv8>, s: int, size: nat, pid: bv8)
    requires WellFormed(v) && Fits(v, s, size) && pid != FREE && pid != CONT
    ensures WellFormed(Tag(v, s, pid, Span(size)))
  {
    var t := Tag(v, s, pid, Span(size));
    forall i | 0 <= i < |t| && t[i] == CONT ensures 0 < i && t[i - 1] != FREE {
      if !(s < i < s + Span(size)) {
        assert t[i] == v[i];
        assert v[i - 1] != FREE;
      }
    }
  }

  /** Freeing by any owner keeps a well-formed map well formed. */
  lemma FreePreservesWellFormed(v: seq<bv8>, i: int, owner: bv8)
    requires |v| % 2 == 0 && WellFormed(v) && 0 <= i < |v|
    ensures WellFormed(FreeAsOwnerSpec(v, i, owner))
  {
    var h := ChunkHead(v, i);
    if h >= 0 && v[h] == owner {
      FreeChunkZeroes(v, h);
      var e := RunEnd(v, h + 1);
      var z := Zeroed(v, h, e);
      forall j | 0 <= j < |z| && z[j] == CONT ensures 0 < j && z[j - 1] != FREE {
        assert z[j] == v[j];
      }
    }
  }

  /**
   * Freeing, as its owner, a chunk just placed on free entries of a
   * well-formed map gives back the map as it was.
   */
  lemma MallocFreeRoundTrip(v: seq<bv8>, s: int, size: nat, pid: bv8)
    requires |v| % 2 == 0 && WellFormed(v) && Fits(v, s, size) && pid != FREE && pid != CONT
    ensures FreeAsOwnerSpec(Tag(v, s, pid, Span(size)), s, pid) == v
  {
    var n := Span(size);
    var t := Tag(v, s, pid, n);
    TagPreservesWellFormed(v, s, size, pid);
    assert ChunkHead(t, s) == s;
    if s + n < |v| {
      assert v[s + n - 1] == FREE;
    }
    RunEndIs(t, s + 1, s + n);
    FreeChunkZeroes(t, s);
    assert Zeroed(t, s, s + n) == v;
  }

  /** A chunk whose recorded owner is not `owner` is left alone. */
  lemma FreeByOtherOwnerKeepsMap(v: seq<bv8>, i: int, owner: bv8)
    requires |v| % 2 == 0 && 0 <= i < |v|
    requires ChunkHead(v, i) >= 0 && v[ChunkHead(v, i)] != owner
    ensures FreeAsOwnerSpec(v, i, owner) == v
  {
  }

  /**
   * Freeing, as its owner, any entry of a chunk of a well-formed map clears
   * exactly its head and its CONT run.
   */
  lemma FreeByOwnerClearsChunk(v: seq<bv8>, i: int)
    requires |v| % 2 == 0 && WellFormed(v) && 0 <= i < |v|
    requires ChunkHead(v, i) >= 0
    ensures FreeAsOwnerSpec(v, i, v[ChunkHead(v, i)])
      == Zeroed(v, ChunkHead(v, i), RunEnd(v, ChunkHead(v, i) + 1))
  {
    FreeChunkZeroes(v, ChunkHead(v, i));
  }

  /** A request larger than the whole use region never fits. */
  lemma OversizedRequestFails(v: seq<bv8>, size: nat)
    requires size > |v|
    ensures FirstFitIndex(v, size) == -1
  {
  }

  /** A request for 0 bytes lands on the first FREE entry, if any. */
  lemma ZeroSizeTakesFirstFree(v: seq<bv8>, s: int)
    requires 0 <= s < |v| && v[s] == FREE
    requires forall t :: 0 <= t < s ==> v[t] != FREE
    ensures FirstFitIndex(v, 0) == s
  {
    assert Fits(v, s, 0);
    forall t | 0 <= t < s ensures !Fits(v, t, 0) {
      assert v[t] != FREE;
    }
  }
}
