/**
 * The allocation pattern of the memory test in progs.c, on the entries of a
 * map that starts empty: five first-fit requests of 15, 5, 10, 5 and 1 bytes
 * by one process, then the first, third and fifth chunks freed, then two
 * requests of 10 bytes, each freed right away, and finally the second and
 * fourth chunks freed.  Entry indices are relative to firstUseAddr.
 */
module AllocScenario {
  import opened NibbleMap

  /** The request sizes of the pattern. */
  const SIZES: seq<nat> := [15, 5, 10, 5, 1]

  /** Where first fit places each of them on an empty map. */
  const OFFSETS: seq<nat> := [0, 15, 20, 30, 35]

  /** A map with every entry FREE: the map right after initHeaps. */
  predicate Empty(v: seq<bv8>)
  {
    forall t :: 0 <= t < |v| ==> v[t] == FREE
  }

  /** The map after the first k requests of the pattern, each placed by first fit (none placed when it does not fit). */
  function Pattern(v: seq<bv8>, p: bv8, k: nat): (w: seq<bv8>)
    requires k <= |SIZES|
    ensures |w| == |v|
  {
    if k == 0 then v
    else
      var u := Pattern(v, p, k - 1);
      var s := FirstFitIndex(u, SIZES[k - 1]);
      if s < 0 then u else Tag(u, s, p, Span(SIZES[k - 1]))
  }

  /** The pattern with the chunks at 0, 20 and 35 freed by their owner. */
  function Holed(v: seq<bv8>, p: bv8): (w: seq<bv8>)
    requires |v| % 2 == 0 && |v| >= 36
    ensures |w| == |v|
  {
    FreeAsOwnerSpec(FreeAsOwnerSpec(FreeAsOwnerSpec(Pattern(v, p, 5), 0, p), 20, p), 35, p)
  }

  /** First fit lands on s when the request fits there and no earlier entry is FREE. */
  lemma FirstFitLands(v: seq<bv8>, s: int, size: nat)
    requires Fits(v, s, size)
    requires forall t :: 0 <= t < s ==> v[t] != FREE
    ensures FirstFitIndex(v, size) == s
  {
    forall t | 0 <= t < s
      ensures !Fits(v, t, size)
    {
      assert v[t] != FREE;
    }
  }

  /** Freeing, by its owner, a chunk with head h and run end e clears exactly [h, e) and keeps the map well formed. */
  lemma FreeChunkAt(v: seq<bv8>, h: int, e: int, p: bv8)
    requires |v| % 2 == 0 && WellFormed(v) && 0 <= h < e <= |v|
    requires v[h] == p && p != CONT
    requires forall t :: h < t < e ==> v[t] == CONT
    requires e == |v| || v[e] != CONT
    ensures FreeAsOwnerSpec(v, h, p) == Zeroed(v, h, e)
    ensures WellFormed(FreeAsOwnerSpec(v, h, p))
  {
    ChunkHeadIs(v, h, h);
    RunEndIs(v, h + 1, e);
    FreeByOwnerClearsChunk(v, h);
    FreePreservesWellFormed(v, h, p);
  }

  /** The first three requests on an empty map land at 0, 15 and 20. */
  lemma FirstThree(v: seq<bv8>, p: bv8)
    requires |v| >= 36 && Empty(v) && p != FREE && p != CONT
    ensures FirstFitIndex(v, SIZES[0]) == OFFSETS[0]
    ensures FirstFitIndex(Pattern(v, p, 1), SIZES[1]) == OFFSETS[1]
    ensures FirstFitIndex(Pattern(v, p, 2), SIZES[2]) == OFFSETS[2]
    ensures Pattern(v, p, 3) == Tag(Tag(Tag(v, 0, p, 15), 15, p, 5), 20, p, 10)
    ensures WellFormed(Pattern(v, p, 3))
  {
    FirstFitLands(v, 0, 15);
    var v1 := Tag(v, 0, p, 15);
    assert Pattern(v, p, 1) == v1;
    FirstFitLands(v1, 15, 5);
    var v2 := Tag(v1, 15, p, 5);
    assert Pattern(v, p, 2) == v2;
    FirstFitLands(v2, 20, 10);
    TagPreservesWellFormed(v, 0, 15, p);
    TagPreservesWellFormed(v1, 15, 5, p);
    TagPreservesWellFormed(v2, 20, 10, p);
  }

  /** The last two requests land at 30 and 35. */
  lemma LastTwo(v: seq<bv8>, p: bv8)
    requires |v| >= 36 && Empty(v) && p != FREE && p != CONT
    ensures FirstFitIndex(Pattern(v, p, 3), SIZES[3]) == OFFSETS[3]
    ensures FirstFitIndex(Pattern(v, p, 4), SIZES[4]) == OFFSETS[4]
    ensures Pattern(v, p, 5) == Tag(Tag(Pattern(v, p, 3), 30, p, 5), 35, p, 1)
    ensures WellFormed(Pattern(v, p, 5))
  {
    FirstThree(v, p);
    var v3 := Pattern(v, p, 3);
    FirstFitLands(v3, 30, 5);
    var v4 := Tag(v3, 30, p, 5);
    assert Pattern(v, p, 4) == v4;
    FirstFitLands(v4, 35, 1);
    TagPreservesWellFormed(v3, 30, 5, p);
    TagPreservesWellFormed(v4, 35, 1, p);
  }

  /**
   * The five requests land at 0, 15, 20, 30 and 35, so each chunk follows
   * the one before it with no gap.
   */
  lemma PatternPlacements(v: seq<bv8>, p: bv8)
    requires |v| >= 36 && Empty(v) && p != FREE && p != CONT
    ensures forall k :: 0 <= k < |SIZES| ==> FirstFitIndex(Pattern(v, p, k), SIZES[k]) == OFFSETS[k]
    ensures forall k :: 0 < k < |SIZES| ==> OFFSETS[k] == OFFSETS[k - 1] + SIZES[k - 1]
  {
    FirstThree(v, p);
    LastTwo(v, p);
  }

  /**
   * After the three frees, entries 0 to 14, 20 to 29 and from 35 on are FREE,
   * and the chunks at 15 and 30 are intact.
   */
  lemma HoledLayout(v: seq<bv8>, p: bv8)
    requires |v| % 2 == 0 && |v| >= 36 && Empty(v) && p != FREE && p != CONT
    ensures WellFormed(Holed(v, p))
    ensures forall t :: 0 <= t < |v| && !(15 <= t < 20) && !(30 <= t < 35) ==> Holed(v, p)[t] == FREE
    ensures Holed(v, p)[15] == p && Holed(v, p)[30] == p
    ensures forall t :: 15 < t < 20 || 30 < t < 35 ==> Holed(v, p)[t] == CONT
  {
    FirstThree(v, p);
    LastTwo(v, p);
    var v5 := Pattern(v, p, 5);
    FreeChunkAt(v5, 0, 15, p);
    var w1 := Zeroed(v5, 0, 15);
    FreeChunkAt(w1, 20, 30, p);
    var w2 := Zeroed(w1, 20, 30);
    FreeChunkAt(w2, 35, 36, p);
  }

  /**
   * The strategy check of the test under first fit: a 10-byte request on the
   * holed map lands at 0, where the first chunk was; freeing it restores the
   * holed map, so the second 10-byte request lands at 0 again.  Freeing the
   * remaining two chunks then leaves the map empty.
   */
  lemma FirstFitReusesFirstHole(v: seq<bv8>, p: bv8)
    requires |v| % 2 == 0 && |v| >= 36 && Empty(v) && p != FREE && p != CONT
    ensures FirstFitIndex(Holed(v, p), 10) == OFFSETS[0]
    ensures FreeAsOwnerSpec(Tag(Holed(v, p), 0, p, Span(10)), 0, p) == Holed(v, p)
    ensures Empty(FreeAsOwnerSpec(FreeAsOwnerSpec(Holed(v, p), 15, p), 30, p))
  {
    HoledLayout(v, p);
    var h := Holed(v, p);
    FirstFitLands(h, 0, 10);
    MallocFreeRoundTrip(h, 0, 10, p);
    FreeChunkAt(h, 15, 20, p);
    var z := Zeroed(h, 15, 20);
    FreeChunkAt(z, 30, 35, p);
  }
}
