/**
 * Walks over the 256-entry window of map entries that the chunk-size
 * helpers of os_memory.c read: positions step down and up round the window,
 * and indices are 16-bit values that wrap.
 */
module WindowWalk {
  import opened NibbleMap

  /** Indices getNibbleVal can reach through its 8-bit parameter. */
  const WINDOW: nat := 256

  /** Number of values of a 16-bit index. */
  const INDEX_RANGE: int := 0x1_0000
  /** The window position one step down, from 0 back round to 255. */
  function Down(p: nat): (q: nat)
    requires p < WINDOW
    ensures q < WINDOW
  {
    if p == 0 then WINDOW - 1 else p - 1
  }

  /** The window position one step up, from 255 round to 0. */
  function Up(p: nat): (q: nat)
    requires p < WINDOW
    ensures q < WINDOW
  {
    if p == WINDOW - 1 then 0 else p + 1
  }

  /**
   * The number of CONT entries met walking down the window from position
   * p, before the first other entry, giving up after n steps.
   */
  function BackSteps(w: seq<bv8>, p: nat, n: nat): (d: nat)
    requires |w| == WINDOW && p < WINDOW
    ensures d <= n
    decreases n
  {
    if n == 0 || w[p] != CONT then 0 else 1 + BackSteps(w, Down(p), n - 1)
  }

  /** The same walk up the window from position p. */
  function FwdSteps(w: seq<bv8>, p: nat, n: nat): (d: nat)
    requires |w| == WINDOW && p < WINDOW
    ensures d <= n
    decreases n
  {
    if n == 0 || w[p] != CONT then 0 else 1 + FwdSteps(w, Up(p), n - 1)
  }

  /** A walk down that never stopped passed CONT entries only, at every position k steps below p. */
  lemma {:induction false} BackStepsAllCont(w: seq<bv8>, p: nat, n: nat, k: nat)
    requires |w| == WINDOW && p < WINDOW && BackSteps(w, p, n) == n && k < n
    ensures w[(p - k) % WINDOW] == CONT
    decreases k
  {
    if k > 0 {
      BackStepsAllCont(w, Down(p), n - 1, k - 1);
      assert (Down(p) - (k - 1)) % WINDOW == (p - k) % WINDOW by {
        assert Down(p) - (k - 1) == p - k || Down(p) - (k - 1) == p - k + WINDOW;
      }
    }
  }

  /** A walk up that never stopped passed CONT entries only, at every position k steps above p. */
  lemma {:induction false} FwdStepsAllCont(w: seq<bv8>, p: nat, n: nat, k: nat)
    requires |w| == WINDOW && p < WINDOW && FwdSteps(w, p, n) == n && k < n
    ensures w[(p + k) % WINDOW] == CONT
    decreases k
  {
    if k > 0 {
      FwdStepsAllCont(w, Up(p), n - 1, k - 1);
      assert (Up(p) + (k - 1)) % WINDOW == (p + k) % WINDOW by {
        assert Up(p) + (k - 1) == p + k || Up(p) + (k - 1) == p + k - WINDOW;
      }
    }
  }

  /** When some window entry is not CONT, the walk down stops within one turn of the window. */
  lemma BackStepsEnds(w: seq<bv8>, p: nat, y: nat)
    requires |w| == WINDOW && p < WINDOW && y < WINDOW && w[y] != CONT
    ensures BackSteps(w, p, WINDOW) < WINDOW
  {
    if BackSteps(w, p, WINDOW) == WINDOW {
      var k := if p >= y then p - y else p - y + WINDOW;
      assert (p - k) % WINDOW == y by {
        assert p - k == y || p - k == y - WINDOW;
      }
      BackStepsAllCont(w, p, WINDOW, k);
    }
  }

  /** A 16-bit result of an index at most one turn out of range: the value the source's uint16_t holds. */
  function Wrap16(x: int): (r: nat)
    requires -INDEX_RANGE <= x < 2 * INDEX_RANGE
    ensures r < INDEX_RANGE && (r == x || r == x + INDEX_RANGE || r == x - INDEX_RANGE)
  {
    if x < 0 then x + INDEX_RANGE else if x >= INDEX_RANGE then x - INDEX_RANGE else x
  }

  /** Wrap16 is reduction modulo 2^16, so it keeps an index's window position. */
  lemma Wrap16IsMod(x: int)
    requires -INDEX_RANGE <= x < 2 * INDEX_RANGE
    ensures Wrap16(x) == x % INDEX_RANGE
    ensures Wrap16(x) % WINDOW == x % WINDOW
  {
  }

  /** A 16-bit decrement moves the window position one step down, an increment one step up. */
  lemma StepPositions(a: nat)
    requires a < INDEX_RANGE
    ensures (if a == 0 then 0xFFFF else a - 1) % WINDOW == Down(a % WINDOW)
    ensures (if a == 0xFFFF then 0 else a + 1) % WINDOW == Up(a % WINDOW)
  {
    var q, r := a / WINDOW, a % WINDOW;
    assert a == q * WINDOW + r;
    if r == 0 && a != 0 {
      assert a - 1 == (q - 1) * WINDOW + (WINDOW - 1);
    }
    if r == WINDOW - 1 && a != 0xFFFF {
      assert a + 1 == (q + 1) * WINDOW;
    }
  }

  /**
   * The index getStartOfBlock returns for addr: addr less the CONT entries
   * below it, as a 16-bit value.
   */
  function BlockStart(w: seq<bv8>, addr: nat): (r: nat)
    requires |w| == WINDOW && addr < INDEX_RANGE
    ensures r < INDEX_RANGE
  {
    Wrap16(addr - BackSteps(w, addr % WINDOW, WINDOW))
  }

  /** The window w holds the entries of the map v at every index below both lengths. */
  ghost predicate Agrees(w: seq<bv8>, v: seq<bv8>)
    requires |w| == WINDOW
  {
    forall t :: 0 <= t < |v| && t < WINDOW ==> w[t] == v[t]
  }

  /**
   * On a window that agrees with the map v below 256, the walk down from
   * entry x of a chunk ends at the chunk's head.
   */
  lemma {:induction false} BackStepsReachHead(w: seq<bv8>, v: seq<bv8>, x: nat, n: nat)
    requires |w| == WINDOW && x < |v| && x < WINDOW
    requires Agrees(w, v)
    requires 0 <= ChunkHead(v, x) && x - ChunkHead(v, x) < n
    ensures BackSteps(w, x, n) == x - ChunkHead(v, x)
    decreases n
  {
    if v[x] == CONT {
      BackStepsReachHead(w, v, x - 1, n - 1);
    }
  }

  /**
   * On a window that agrees with the map v below 256, the walk up from
   * entry j stops where the run of CONT entries from j ends, when that is
   * inside both.
   */
  lemma {:induction false} FwdStepsReachRunEnd(w: seq<bv8>, v: seq<bv8>, j: nat, n: nat)
    requires |w| == WINDOW && j <= |v| && j < WINDOW
    requires Agrees(w, v)
    requires RunEnd(v, j) < |v| && RunEnd(v, j) < WINDOW && RunEnd(v, j) - j < n
    ensures FwdSteps(w, j, n) == RunEnd(v, j) - j
    decreases n
  {
    if v[j] == CONT {
      FwdStepsReachRunEnd(w, v, j + 1, n - 1);
    }
  }

  /**
   * On a window that agrees with the map v below 256, one more than the
   * walk up from just above head h is the number of entries of h's chunk,
   * when that chunk ends inside both.
   */
  lemma RunFromHead(w: seq<bv8>, v: seq<bv8>, h: nat)
    requires |w| == WINDOW && h < |v| && h < WINDOW
    requires Agrees(w, v)
    requires RunEnd(v, h + 1) < |v| && RunEnd(v, h + 1) < WINDOW
    ensures 1 + FwdSteps(w, Up(h % WINDOW), WINDOW - 1) == RunEnd(v, h + 1) - h
  {
    assert h % WINDOW == h && Up(h) == h + 1;
    FwdStepsReachRunEnd(w, v, h + 1, WINDOW - 1);
  }

  /**
   * On a window that agrees with the map v below 256, the block start found
   * for entry x of a chunk is the chunk's head.
   */
  lemma StartFromEntry(w: seq<bv8>, v: seq<bv8>, x: nat)
    requires |w| == WINDOW && x < |v| && x < WINDOW
    requires Agrees(w, v)
    requires ChunkHead(v, x) >= 0
    ensures BlockStart(w, x) == ChunkHead(v, x)
  {
    assert x % WINDOW == x;
    BackStepsReachHead(w, v, x, WINDOW);
  }

  /** A whole turn of 256 increments brings a 16-bit index back to its window position. */
  lemma FullTurn(start: nat)
    requires start < INDEX_RANGE
    ensures Wrap16(start + WINDOW) % WINDOW == start % WINDOW
  {
    Wrap16IsMod(start + WINDOW);
  }

  /**
   * The state of getStartOfBlock's loop after WINDOW - m steps down from
   * addr: index a, its window position p, and d the total number of steps
   * the walk takes.
   */
  ghost predicate DownState(w: seq<bv8>, addr: nat, a: nat, p: nat, m: nat, d: nat)
  {
    |w| == WINDOW && addr < INDEX_RANGE && d == BackSteps(w, addr % WINDOW, WINDOW) < WINDOW
    && WINDOW - d <= m <= WINDOW
    && a == Wrap16(addr - (WINDOW - m)) && p == a % WINDOW
    && d == (WINDOW - m) + BackSteps(w, p, m)
  }

  /** The loop starts at addr itself. */
  lemma DownStart(w: seq<bv8>, addr: nat)
    requires |w| == WINDOW && addr < INDEX_RANGE && BackSteps(w, addr % WINDOW, WINDOW) < WINDOW
    ensures DownState(w, addr, addr, addr % WINDOW, WINDOW, BackSteps(w, addr % WINDOW, WINDOW))
  {
  }

  /** On a CONT entry the loop steps down once, with a 16-bit decrement. */
  lemma DownStep(w: seq<bv8>, addr: nat, a: nat, p: nat, m: nat, d: nat)
    requires DownState(w, addr, a, p, m, d) && w[p] == CONT
    ensures 0 < m && DownState(w, addr, if a == 0 then 0xFFFF else a - 1, Down(p), m - 1, d)
  {
    assert 0 < m;
    StepPositions(a);
    assert BackSteps(w, p, m) == 1 + BackSteps(w, Down(p), m - 1);
    assert (if a == 0 then 0xFFFF else a - 1) == Wrap16(addr - (WINDOW - (m - 1)));
  }

  /** On any other entry the loop has reached the block start. */
  lemma DownStop(w: seq<bv8>, addr: nat, a: nat, p: nat, m: nat, d: nat)
    requires DownState(w, addr, a, p, m, d) && w[p] != CONT
    ensures a == BlockStart(w, addr) && w[a % WINDOW] != CONT
  {
    assert d == WINDOW - m;
  }

  /**
   * The state of os_getChunkSize's loop after WINDOW - 1 - m steps up from
   * the entry above start: index a, its window position p, and d the total
   * number of steps the walk takes.
   */
  ghost predicate UpState(w: seq<bv8>, start: nat, a: nat, p: nat, m: nat, d: nat)
  {
    |w| == WINDOW && start < INDEX_RANGE && w[start % WINDOW] != CONT && m <= WINDOW - 1
    && a == Wrap16(start + WINDOW - m) && p == a % WINDOW
    && d == (WINDOW - 1 - m) + FwdSteps(w, p, m)
  }

  /** The loop starts one index above start. */
  lemma UpStart(w: seq<bv8>, start: nat)
    requires |w| == WINDOW && start < INDEX_RANGE && w[start % WINDOW] != CONT
    ensures UpState(w, start, if start == 0xFFFF then 0 else start + 1, Up(start % WINDOW),
                    WINDOW - 1, FwdSteps(w, Up(start % WINDOW), WINDOW - 1))
  {
    StepPositions(start);
  }

  /** On a CONT entry the loop steps up once, with a 16-bit increment; it never comes round to start. */
  lemma UpStep(w: seq<bv8>, start: nat, a: nat, p: nat, m: nat, d: nat)
    requires UpState(w, start, a, p, m, d) && w[p] == CONT
    ensures 0 < m && UpState(w, start, if a == 0xFFFF then 0 else a + 1, Up(p), m - 1, d)
  {
    if m == 0 {
      FullTurn(start);
      assert false;
    }
    StepPositions(a);
  }

  /** On any other entry the 16-bit distance from start is one more than the steps taken. */
  lemma UpStop(w: seq<bv8>, start: nat, a: nat, p: nat, m: nat, d: nat)
    requires UpState(w, start, a, p, m, d) && w[p] != CONT
    ensures (if a >= start then a - start else a + INDEX_RANGE - start) == 1 + d
  {
  }

  /**
   * On a window that agrees with the map v below 256, one more than the
   * walk up from just above the block start found for entry x is the number
   * of entries of x's chunk, when that chunk ends inside both.
   */
  lemma SizeFromEntry(w: seq<bv8>, v: seq<bv8>, x: nat)
    requires |w| == WINDOW && x < |v| && x < WINDOW && Agrees(w, v)
    requires ChunkHead(v, x) >= 0
    requires RunEnd(v, ChunkHead(v, x) + 1) < |v| && RunEnd(v, ChunkHead(v, x) + 1) < WINDOW
    ensures 1 + FwdSteps(w, Up(BlockStart(w, x) % WINDOW), WINDOW - 1) == RunEnd(v, ChunkHead(v, x) + 1) - ChunkHead(v, x)
  {
    StartFromEntry(w, v, x);
    RunFromHead(w, v, ChunkHead(v, x));
  }
}
