/**
 * The bookkeeping of os_scheduler.c: the process table, the current
 * process, the nestable critical-section counter with the scheduler tick it
 * switches off, the stack checksum, starting (os_exec) and killing
 * (os_kill) processes, and the state changes of the scheduler's timer
 * interrupt.  Register saving, stack-pointer switching and the task
 * manager are not part of this model.
 */
module Scheduler {
  import opened Processes
  import opened SchedulingStrategies

  // ---------------------------------------------------------------------
  // Critical sections
  // ---------------------------------------------------------------------

  /** The nesting depth of critical sections and whether the scheduler tick (OCIE2A in TIMSK2) is enabled. */
  datatype Section = Section(count: nat, tickEnabled: bool)

  /** The deepest nesting the 8-bit counter holds. */
  const MAX_NESTING: nat := 255

  /** os_enterCriticalSection: below 255 the depth grows by one and the tick is disabled; at 255 nothing changes. */
  function Enter(s: Section): (r: Section)
  {
    if s.count == MAX_NESTING then s else Section(s.count + 1, false)
  }

  /** os_leaveCriticalSection: above 0 the depth drops by one and the tick is re-enabled when it reaches 0; at 0 nothing changes. */
  function Leave(s: Section): (r: Section)
  {
    if s.count == 0 then s else Section(s.count - 1, if s.count == 1 then true else s.tickEnabled)
  }

  /** The error os_enterCriticalSection reports, if any. */
  function EnterErrors(s: Section): (e: seq<string>)
    ensures |e| <= 1 && (|e| == 1 <==> s.count == MAX_NESTING)
  {
    if s.count == MAX_NESTING then ["Overflow on critical sections"] else []
  }

  /** The error os_leaveCriticalSection reports, if any. */
  function LeaveErrors(s: Section): (e: seq<string>)
    ensures |e| <= 1 && (|e| == 1 <==> s.count == 0)
  {
    if s.count == 0 then ["Underflow on critical sections"] else []
  }

  /** The depth fits the counter, and the tick is enabled exactly outside every critical section. */
  predicate Consistent(s: Section)
  {
    s.count <= MAX_NESTING && s.tickEnabled == (s.count == 0)
  }

  /** Entering and leaving keep a consistent section state consistent. */
  lemma EnterLeaveKeepConsistent(s: Section)
    requires Consistent(s)
    ensures Consistent(Enter(s)) && Consistent(Leave(s))
  {
  }

  /** A balanced enter/leave pair below the limit restores the depth; the tick is then on exactly when the depth is 0. */
  lemma EnterLeaveBalanced(s: Section)
    requires s.count < MAX_NESTING
    ensures Leave(Enter(s)).count == s.count
    ensures Leave(Enter(s)).tickEnabled == (s.count == 0)
  {
  }

  /** A balanced enter/leave pair on a consistent state below the limit reports nothing and changes nothing. */
  lemma BalancedPairIsNeutral(s: Section)
    requires Consistent(s) && s.count < MAX_NESTING
    ensures Leave(Enter(s)) == s
    ensures EnterErrors(s) == [] && LeaveErrors(Enter(s)) == []
  {
    EnterLeaveBalanced(s);
  }

  /** n calls of os_enterCriticalSection. */
  function EnterN(s: Section, n: nat): (r: Section)
    decreases n
  {
    if n == 0 then s else Enter(EnterN(s, n - 1))
  }

  /** n calls of os_leaveCriticalSection. */
  function LeaveN(s: Section, n: nat): (r: Section)
    decreases n
  {
    if n == 0 then s else Leave(LeaveN(s, n - 1))
  }

  /** n nested enters below the limit add n to the depth and leave the tick disabled. */
  lemma {:induction false} EnterNDepth(s: Section, n: nat)
    requires s.count + n <= MAX_NESTING
    ensures EnterN(s, n).count == s.count + n
    ensures n > 0 ==> !EnterN(s, n).tickEnabled
  {
    if n > 0 {
      EnterNDepth(s, n - 1);
    }
  }

  /**
   * After n nested enters, each leave takes one level off; the tick stays
   * disabled until the n-th leave, which re-enables it when the nesting
   * started outside every critical section.
   */
  lemma {:induction false} NestedSections(s: Section, n: nat, j: nat)
    requires s.count + n <= MAX_NESTING && 0 < n && j <= n
    ensures LeaveN(EnterN(s, n), j).count == s.count + n - j
    ensures j < n ==> !LeaveN(EnterN(s, n), j).tickEnabled
    ensures j == n ==> LeaveN(EnterN(s, n), j).tickEnabled == (s.count == 0)
    decreases j
  {
    if j == 0 {
      EnterNDepth(s, n);
    } else {
      NestedSections(s, n, j - 1);
    }
  }

  // ---------------------------------------------------------------------
  // Stack checksum
  // ---------------------------------------------------------------------

  /** The bytes a stack checksum covers: PROCESS_STACK_BOTTOM(pid) and the 35 bytes below it. */
  const CHECKED_BYTES: nat := 36

  /** XOR of mem[lo .. hi-1]. */
  function XorRange(mem: seq<bv8>, lo: nat, hi: nat): (x: bv8)
    requires lo <= hi <= |mem|
    decreases hi - lo
  {
    if lo == hi then 0 else mem[lo] ^ XorRange(mem, lo + 1, hi)
  }

  /** os_getStackChecksum for a stack whose bottom is at address bottom: 11 XOR the 36 checked bytes. */
  function Checksum(mem: seq<bv8>, bottom: nat): (c: bv8)
    requires CHECKED_BYTES - 1 <= bottom < |mem|
  {
    11 ^ XorRange(mem, bottom + 1 - CHECKED_BYTES, bottom + 1)
  }

  /** Replacing one byte inside the range XORs the range with the old and the new byte. */
  lemma {:induction false} XorRangeUpdate(mem: seq<bv8>, lo: nat, hi: nat, i: nat, b: bv8)
    requires lo <= i < hi <= |mem|
    ensures XorRange(mem[i := b], lo, hi) == XorRange(mem, lo, hi) ^ mem[i] ^ b
    decreases hi - lo
  {
    if i > lo {
      XorRangeUpdate(mem, lo + 1, hi, i, b);
    } else {
      XorRangeOutside(mem, lo + 1, hi, i, b);
    }
  }

  /** Replacing a byte outside the range leaves its XOR unchanged. */
  lemma {:induction false} XorRangeOutside(mem: seq<bv8>, lo: nat, hi: nat, i: nat, b: bv8)
    requires lo <= hi <= |mem| && i < |mem| && (i < lo || hi <= i)
    ensures XorRange(mem[i := b], lo, hi) == XorRange(mem, lo, hi)
    decreases hi - lo
  {
    if lo < hi {
      XorRangeOutside(mem, lo + 1, hi, i, b);
    }
  }

  /**
   * Any change of a single byte of the 36 checked bytes changes the
   * checksum, and a change of a byte outside them does not.
   */
  lemma ChecksumDetectsByteChange(mem: seq<bv8>, bottom: nat, i: nat, b: bv8)
    requires CHECKED_BYTES - 1 <= bottom < |mem| && i < |mem|
    ensures bottom + 1 - CHECKED_BYTES <= i <= bottom && b != mem[i] ==>
      Checksum(mem[i := b], bottom) != Checksum(mem, bottom)
    ensures (i < bottom + 1 - CHECKED_BYTES || bottom < i) ==>
      Checksum(mem[i := b], bottom) == Checksum(mem, bottom)
  {
    if bottom + 1 - CHECKED_BYTES <= i <= bottom {
      XorRangeUpdate(mem, bottom + 1 - CHECKED_BYTES, bottom + 1, i, b);
    } else {
      XorRangeOutside(mem, bottom + 1 - CHECKED_BYTES, bottom + 1, i, b);
    }
  }

  // ---------------------------------------------------------------------
  // The process table as a value
  // ---------------------------------------------------------------------

  /** The first UNUSED slot at i or above, or the table size when there is none. */
  function FirstUnused(ps: seq<Process>, i: nat): (r: nat)
    requires i <= |ps|
    ensures i <= r <= |ps|
    ensures r < |ps| ==> ps[r].state == Unused
    ensures forall j :: i <= j < r ==> ps[j].state != Unused
    decreases |ps| - i
  {
    if i == |ps| || ps[i].state == Unused then i else FirstUnused(ps, i + 1)
  }

  /** Every stack bottom lies in memory with its 36 checked bytes, above address 35. */
  predicate StacksFit(bottoms: seq<nat>, memSize: nat)
  {
    forall pid :: 0 <= pid < |bottoms| ==> CHECKED_BYTES <= bottoms[pid] < memSize
  }

  /**
   * The table after os_exec(program, priority): the lowest UNUSED slot
   * becomes READY with the program, the priority, the stack pointer below
   * the initial frame and the checksum of its stack; when no slot is UNUSED
   * or the program is null the table is unchanged.
   */
  function Launched(ps: seq<Process>, program: Program, priority: Priority, bottoms: seq<nat>, mem: seq<bv8>): (t: seq<Process>)
    requires |bottoms| == |ps| && StacksFit(bottoms, |mem|)
    ensures |t| == |ps|
  {
    var pid := FirstUnused(ps, 0);
    if pid == |ps| || program == Null then ps
    else ps[pid := Process(Ready, priority, program, bottoms[pid] - 35, Checksum(mem, bottoms[pid]))]
  }

  /** The table after starting each of the programs in turn. */
  function LaunchedAll(ps: seq<Process>, programs: seq<Program>, priority: Priority, bottoms: seq<nat>, mem: seq<bv8>): (t: seq<Process>)
    requires |bottoms| == |ps| && StacksFit(bottoms, |mem|)
    ensures |t| == |ps|
    decreases |programs|
  {
    if programs == [] then ps
    else LaunchedAll(Launched(ps, programs[0], priority, bottoms, mem), programs[1..], priority, bottoms, mem)
  }

  /** Slots 0 .. |programs|-1 are READY and run the given programs in order; the other slots are UNUSED. */
  predicate FilledWith(t: seq<Process>, programs: seq<Program>)
  {
    |programs| <= |t|
    && (forall k :: 0 <= k < |programs| ==> t[k].state == Ready && t[k].program == programs[k])
    && (forall j :: |programs| <= j < |t| ==> t[j].state == Unused)
  }

  /** The slots in use have age 0; the UNUSED slots keep the ages of `init`. */
  ghost predicate AgesMatch(ps: seq<Process>, ages: seq<nat>, init: seq<nat>)
  {
    |ages| == |ps| && |init| == |ps|
    && forall i :: 0 <= i < |ps| ==> ages[i] == if ps[i].state == Unused then init[i] else 0
  }

  /** An exec that resets the age of the slot it fills keeps AgesMatch. */
  lemma LaunchResetsAge(ps: seq<Process>, ages: seq<nat>, init: seq<nat>, program: Program, priority: Priority, bottoms: seq<nat>, mem: seq<bv8>)
    requires |bottoms| == |ps| && StacksFit(bottoms, |mem|) && AgesMatch(ps, ages, init)
    ensures var free := FirstUnused(ps, 0);
      AgesMatch(Launched(ps, program, priority, bottoms, mem),
                if free == |ps| || program == Null then ages else ages[free := 0], init)
  {
  }

  /** Starting a non-null program on a table filled up to slot k puts it in slot k. */
  lemma LaunchExtends(t: seq<Process>, programs: seq<Program>, p: Program, priority: Priority, bottoms: seq<nat>, mem: seq<bv8>)
    requires |bottoms| == |t| && StacksFit(bottoms, |mem|)
    requires FilledWith(t, programs) && |programs| < |t| && p != Null
    ensures FilledWith(Launched(t, p, priority, bottoms, mem), programs + [p])
  {
    assert t[|programs|].state == Unused;
    assert forall k :: 0 <= k < |programs| ==> t[k].state != Unused;
    assert FirstUnused(t, 0) == |programs|;
  }

  /** Starting non-null programs one after another fills the slots in order while they last. */
  lemma {:induction false} LaunchAllFills(t: seq<Process>, done: seq<Program>, programs: seq<Program>, priority: Priority, bottoms: seq<nat>, mem: seq<bv8>)
    requires |bottoms| == |t| && StacksFit(bottoms, |mem|)
    requires FilledWith(t, done) && |done| + |programs| <= |t|
    requires forall k :: 0 <= k < |programs| ==> programs[k] != Null
    ensures FilledWith(LaunchedAll(t, programs, priority, bottoms, mem), done + programs)
    decreases |programs|
  {
    if programs == [] {
      assert done + programs == done;
    } else {
      LaunchExtends(t, done, programs[0], priority, bottoms, mem);
      LaunchAllFills(Launched(t, programs[0], priority, bottoms, mem), done + [programs[0]], programs[1..], priority, bottoms, mem);
      assert done + [programs[0]] + programs[1..] == done + programs;
    }
  }

  /** Every slot of the table UNUSED, all else kept: the first loop of os_initScheduler. */
  function Cleared(ps: seq<Process>): (t: seq<Process>)
    ensures |t| == |ps| && FilledWith(t, [])
  {
    seq(|ps|, i requires 0 <= i < |ps| => ps[i].(state := Unused))
  }

  /**
   * After os_initScheduler with a non-null idle program and non-null
   * autostart programs that fit the table, slot 0 runs idle, the autostart
   * programs follow in order, and the remaining slots are UNUSED.
   */
  lemma InitFillsTable(ps: seq<Process>, idle: Program, autostart: seq<Program>, priority: Priority, bottoms: seq<nat>, mem: seq<bv8>)
    requires |bottoms| == |ps| && StacksFit(bottoms, |mem|)
    requires idle != Null && 1 + |autostart| <= |ps|
    requires forall k :: 0 <= k < |autostart| ==> autostart[k] != Null
    ensures FilledWith(LaunchedAll(Launched(Cleared(ps), idle, priority, bottoms, mem), autostart, priority, bottoms, mem), [idle] + autostart)
  {
    LaunchExtends(Cleared(ps), [], idle, priority, bottoms, mem);
    assert [] + [idle] == [idle];
    LaunchAllFills(Launched(Cleared(ps), idle, priority, bottoms, mem), [idle], autostart, priority, bottoms, mem);
  }

  /** The interrupted slot gets the checksum of its stack and, unless UNUSED, becomes READY. */
  function Interrupted(ps: seq<Process>, cur: nat, checksum: bv8): (t: seq<Process>)
    requires cur < |ps|
    ensures |t| == |ps|
  {
    ps[cur := ps[cur].(checksum := checksum, state := if ps[cur].state == Unused then Unused else Ready)]
  }

  /** The chosen slot becomes RUNNING. */
  function Dispatched(ps: seq<Process>, next: nat): (t: seq<Process>)
    requires next < |ps|
    ensures |t| == |ps|
  {
    ps[next := ps[next].(state := Running)]
  }

  /** No slot other than cur is RUNNING. */
  predicate OnlyRunning(ps: seq<Process>, cur: nat)
  {
    forall i :: 0 <= i < |ps| && i != cur ==> ps[i].state != Running
  }

  /**
   * The state changes of a tick: the chosen slot runs, the interrupted one
   * is READY unless UNUSED, every other slot is kept, so when only the
   * interrupted process was RUNNING, only the chosen one is afterwards.
   */
  lemma TickStates(ps: seq<Process>, cur: nat, checksum: bv8, next: nat)
    requires cur < |ps| && next < |ps|
    ensures Dispatched(Interrupted(ps, cur, checksum), next)[next].state == Running
    ensures cur != next ==>
      Dispatched(Interrupted(ps, cur, checksum), next)[cur].state == (if ps[cur].state == Unused then Unused else Ready)
    ensures forall i :: 0 <= i < |ps| && i != cur && i != next ==> Dispatched(Interrupted(ps, cur, checksum), next)[i] == ps[i]
    ensures OnlyRunning(ps, cur) ==> OnlyRunning(Dispatched(Interrupted(ps, cur, checksum), next), next)
  {
    var t := Dispatched(Interrupted(ps, cur, checksum), next);
    assert t[next].state == Running;
  }

  /**
   * The process the timer interrupt switches to under each strategy, on the
   * table with the interrupted slot marked: always the idle slot or a READY
   * slot.
   */
  function NextProcess(strategy: SchedulingStrategy, ps: seq<Process>, cur: nat, rand: nat, slice: nat, ages: seq<nat>): (r: nat)
    requires cur < |ps| && |ages| == |ps|
    ensures r < |ps| && (r == 0 || ps[r].state == Ready)
  {
    EvenChoiceIsNearest(ps, cur);
    RandomChoiceIsRanked(ps, cur, rand);
    OldestIsBest(ps, Aged(ages, ps, cur));
    match strategy
    case Even => EvenChoice(ps, cur)
    case Random => RandomChoice(ps, cur, rand)
    case RoundRobin => RoundRobinStep(ps, cur, slice).0
    case RunToCompletion => RunToCompletionChoice(ps, cur)
    case InactiveAging => Oldest(ps, Aged(ages, ps, cur))
  }

  // ---------------------------------------------------------------------
  // os_kill's guard
  // ---------------------------------------------------------------------

  /** The guard of os_kill as written: pid 0 and pids above the table size are refused. */
  predicate KillAdmitsAsWritten(pid: nat, n: nat)
  {
    !(pid == 0 || pid > n)
  }

  /** The guard os_kill needs: pid 0 and pids outside the table are refused. */
  predicate KillAdmits(pid: nat, n: nat)
  {
    !(pid == 0 || pid >= n)
  }

  /** The written guard lets pid MAX_NUMBER_OF_PROCESSES through, which indexes past the table. */
  lemma KillAsWrittenAdmitsTableSize(n: nat)
    requires n >= 1
    ensures KillAdmitsAsWritten(n, n) && !(n < n)
    ensures !KillAdmits(n, n)
  {
  }

  /** The corrected guard admits exactly the slots 1 .. n-1. */
  lemma KillAdmitsSlots(pid: nat, n: nat)
    ensures KillAdmits(pid, n) <==> 1 <= pid < n
    ensures KillAdmits(pid, n) ==> KillAdmitsAsWritten(pid, n)
  {
  }

  // ---------------------------------------------------------------------
  // The scheduler's globals
  // ---------------------------------------------------------------------

  /**
   * os_processes, currentProc, currStrategy and criticalSectionCount with the
   * tick-enable bit, the scheduling information, the memory holding the
   * process stacks, and the constants PROCESS_STACK_BOTTOM(pid) and
   * INVALID_PROCESS.  Errors reported through os_error are collected in
   * order.
   */
  class Scheduler {
    const processes: array<Process>
    var currentProc: nat
    var currStrategy: SchedulingStrategy
    var criticalSectionCount: nat
    var tickEnabled: bool
    var errors: seq<string>
    const info: SchedulingInformation
    const memSize: nat
    const stackBottom: seq<nat>
    const invalidProcess: nat

    /** The table has an idle slot, the constants fit it, and the current process is a slot. */
    ghost predicate Valid()
      reads this
    {
      1 <= processes.Length && info.age.Length == processes.Length
      && |stackBottom| == processes.Length && StacksFit(stackBottom, memSize)
      && invalidProcess >= processes.Length
      && currentProc < processes.Length && criticalSectionCount <= MAX_NESTING
    }

    /** The critical-section state as a value. */
    function CriticalState(): (s: Section)
      reads this
      ensures s.count == criticalSectionCount && s.tickEnabled == tickEnabled
    {
      Section(criticalSectionCount, tickEnabled)
    }

    /** The zero-initialised globals for a table of n slots; the tick starts enabled. */
    constructor (n: nat, size: nat, bottoms: seq<nat>, invalid: nat)
      requires 1 <= n && |bottoms| == n && StacksFit(bottoms, size) && invalid >= n
      ensures Valid() && fresh(processes) && fresh(info) && fresh(info.age)
      ensures processes.Length == n && memSize == size && stackBottom == bottoms && invalidProcess == invalid
      ensures forall i :: 0 <= i < n ==> processes[i].state == Unused
      ensures currentProc == 0 && currStrategy == Even && CriticalState() == Section(0, true) && errors == []
    {
      processes := new Process[n](_ => Process(Unused, 0, Null, 0, 0));
      currentProc := 0;
      currStrategy := Even;
      criticalSectionCount := 0;
      tickEnabled := true;
      errors := [];
      info := new SchedulingInformation(n);
      memSize := size;
      stackBottom := bottoms;
      invalidProcess := invalid;
    }

    /** os_enterCriticalSection. */
    method EnterCriticalSection()
      requires Valid()
      modifies this
      ensures Valid()
      ensures CriticalState() == Enter(old(CriticalState()))
      ensures errors == old(errors) + EnterErrors(old(CriticalState()))
      ensures currentProc == old(currentProc) && currStrategy == old(currStrategy)
    {
      if criticalSectionCount == MAX_NESTING {
        errors := errors + ["Overflow on critical sections"];
        return;
      }
      criticalSectionCount := criticalSectionCount + 1;
      tickEnabled := false;
    }

    /** os_leaveCriticalSection. */
    method LeaveCriticalSection()
      requires Valid()
      modifies this
      ensures Valid()
      ensures CriticalState() == Leave(old(CriticalState()))
      ensures errors == old(errors) + LeaveErrors(old(CriticalState()))
      ensures currentProc == old(currentProc) && currStrategy == old(currStrategy)
    {
      if criticalSectionCount == 0 {
        errors := errors + ["Underflow on critical sections"];
        return;
      }
      criticalSectionCount := criticalSectionCount - 1;
      if criticalSectionCount == 0 {
        tickEnabled := true;
      }
    }

    /** os_getStackChecksum: XORs 11 with the bytes from the stack bottom down to 35 below it. */
    method GetStackChecksum(mem: seq<bv8>, pid: nat) returns (c: bv8)
      requires Valid() && |mem| == memSize && pid < processes.Length
      ensures c == Checksum(mem, stackBottom[pid])
    {
      var bottom := stackBottom[pid];
      assert CHECKED_BYTES <= bottom < |mem|;
      c := 11;
      var a: int := bottom;
      while a >= bottom - 35
        invariant CHECKED_BYTES <= bottom < |mem| && bottom - 36 <= a <= bottom
        invariant c == 11 ^ XorRange(mem, a + 1, bottom + 1)
        decreases a
      {
        c := c ^ mem[a];
        a := a - 1;
      }
    }

    /** os_getProcessSlot. */
    function GetProcessSlot(pid: nat): (p: Process)
      reads processes
      requires pid < processes.Length
      ensures p == processes[pid]
    {
      processes[pid]
    }

    /** os_getCurrentProc. */
    function GetCurrentProc(): (pid: nat)
      reads this
      ensures pid == currentProc
    {
      currentProc
    }

    /** os_setSchedulingStrategy: a plain setter that does not reset the scheduling information. */
    method SetSchedulingStrategy(strategy: SchedulingStrategy)
      modifies this
      ensures currStrategy == strategy && GetSchedulingStrategy() == strategy
      ensures currentProc == old(currentProc) && CriticalState() == old(CriticalState()) && errors == old(errors)
    {
      currStrategy := strategy;
    }

    /** os_getSchedulingStrategy. */
    function GetSchedulingStrategy(): (s: SchedulingStrategy)
      reads this
      ensures s == currStrategy
    {
      currStrategy
    }

    /** The slot search of os_exec: the lowest UNUSED slot, or the table size. */
    method FindFreeSlot() returns (pid: nat)
      requires Valid()
      ensures pid == FirstUnused(processes[..], 0)
    {
      pid := 0;
      var i := 0;
      while i < processes.Length
        invariant 0 <= i <= processes.Length && pid == i
        invariant FirstUnused(processes[..], 0) == FirstUnused(processes[..], i)
      {
        if processes[pid].state != Unused {
          pid := pid + 1;
        } else {
          break;
        }
        i := i + 1;
      }
    }

    /**
     * os_exec: inside a critical section, starts the program in the lowest
     * UNUSED slot and clears that slot's age; returns the slot, or
     * INVALID_PROCESS when the table is full or the program is null.
     */
    method Exec(program: Program, priority: Priority, mem: seq<bv8>) returns (pid: nat)
      requires Valid() && |mem| == memSize
      modifies this, processes, info.age
      ensures Valid()
      ensures processes[..] == Launched(old(processes[..]), program, priority, stackBottom, mem)
      ensures var free := FirstUnused(old(processes[..]), 0);
        if free == processes.Length || program == Null then pid == invalidProcess && info.age[..] == old(info.age[..])
        else pid == free && info.age[..] == old(info.age[..])[pid := 0]
      ensures CriticalState() == Leave(Enter(old(CriticalState())))
      ensures errors == old(errors) + EnterErrors(old(CriticalState())) + LeaveErrors(Enter(old(CriticalState())))
      ensures currentProc == old(currentProc) && currStrategy == old(currStrategy)
    {
      EnterCriticalSection();
      pid := FindFreeSlot();
      if pid == processes.Length {
        LeaveCriticalSection();
        return invalidProcess;
      }
      if program == Null {
        LeaveCriticalSection();
        return invalidProcess;
      }
      var checksum := GetStackChecksum(mem, pid);
      processes[pid] := Process(Ready, priority, program, stackBottom[pid] - 35, checksum);
      ResetProcessSchedulingInformation(info, pid);
      LeaveCriticalSection();
    }

    /**
     * os_kill with the guard corrected to refuse pids outside the table:
     * refuses pid 0 and pids from MAX_NUMBER_OF_PROCESSES up; otherwise marks
     * the slot UNUSED inside a critical section.  Killing the current process
     * forces the depth to 1 before leaving, so it ends at 0 with the tick on.
     */
    method Kill(pid: nat) returns (ok: bool)
      requires Valid()
      modifies this, processes
      ensures Valid()
      ensures ok <==> KillAdmits(pid, processes.Length)
      ensures ok ==> processes[..] == old(processes[..])[pid := old(processes[pid]).(state := Unused)]
      ensures !ok ==> processes[..] == old(processes[..]) && CriticalState() == old(CriticalState()) && errors == old(errors)
      ensures ok && pid == old(currentProc) ==>
        CriticalState() == Section(0, true) && errors == old(errors) + EnterErrors(old(CriticalState()))
      ensures ok && pid != old(currentProc) ==>
        CriticalState() == Leave(Enter(old(CriticalState())))
        && errors == old(errors) + EnterErrors(old(CriticalState())) + LeaveErrors(Enter(old(CriticalState())))
      ensures currentProc == old(currentProc) && currStrategy == old(currStrategy)
    {
      if pid == 0 || pid >= processes.Length {
        return false;
      }
      EnterCriticalSection();
      processes[pid] := processes[pid].(state := Unused);
      if pid == currentProc {
        criticalSectionCount := 1;
      }
      LeaveCriticalSection();
      return true;
    }

    /** The first part of the timer interrupt: the interrupted slot's checksum is stored and the slot made READY unless UNUSED. */
    method SuspendCurrent(mem: seq<bv8>)
      requires Valid() && |mem| == memSize
      modifies processes
      ensures processes[..] == Interrupted(old(processes[..]), currentProc, Checksum(mem, stackBottom[currentProc]))
    {
      var checksum := GetStackChecksum(mem, currentProc);
      var p := processes[currentProc];
      processes[currentProc] := p.(checksum := checksum, state := if p.state != Unused then Ready else p.state);
    }

    /** The strategy switch of the timer interrupt. */
    method ChooseNext(rand: nat) returns (next: nat)
      requires Valid()
      modifies info, info.age
      ensures next == NextProcess(currStrategy, processes[..], currentProc, rand, old(info.timeSlice), old(info.age[..]))
      ensures currStrategy == InactiveAging ==> info.age[..] == Aged(old(info.age[..]), processes[..], currentProc)
      ensures currStrategy != InactiveAging ==> info.age[..] == old(info.age[..])
      ensures currStrategy == RoundRobin ==> info.timeSlice == RoundRobinStep(processes[..], currentProc, old(info.timeSlice)).1
      ensures currStrategy != RoundRobin ==> info.timeSlice == old(info.timeSlice)
    {
      match currStrategy
      case Even =>
        next := SchedulerEven(processes[..], currentProc);
      case Random =>
        next := SchedulerRandom(processes[..], currentProc, rand);
      case RoundRobin =>
        next := SchedulerRoundRobin(info, processes[..], currentProc);
      case RunToCompletion =>
        next := RunToCompletionChoice(processes[..], currentProc);
      case InactiveAging =>
        next := SchedulerInactiveAging(info, processes[..], currentProc);
    }

    /**
     * The state changes of the scheduler's timer interrupt: the interrupted
     * process is suspended, the strategy chooses, a stack whose checksum no
     * longer matches is reported, and the chosen process becomes RUNNING.
     * rand is the value rand() yields if the random strategy draws.
     */
    method Tick(rand: nat, mem: seq<bv8>)
      requires Valid() && |mem| == memSize
      modifies this, processes, info, info.age
      ensures Valid()
      ensures processes[..] == Dispatched(
        Interrupted(old(processes[..]), old(currentProc), Checksum(mem, stackBottom[old(currentProc)])), currentProc)
      ensures currentProc == NextProcess(old(currStrategy),
        Interrupted(old(processes[..]), old(currentProc), Checksum(mem, stackBottom[old(currentProc)])),
        old(currentProc), rand, old(info.timeSlice), old(info.age[..]))
      ensures errors == old(errors) +
        (if Interrupted(old(processes[..]), old(currentProc), Checksum(mem, stackBottom[old(currentProc)]))[currentProc].checksum
            == Checksum(mem, stackBottom[currentProc])
         then [] else ["The stack is inconsistent"])
      ensures old(currStrategy) == InactiveAging ==> info.age[..] == Aged(old(info.age[..]),
        Interrupted(old(processes[..]), old(currentProc), Checksum(mem, stackBottom[old(currentProc)])), old(currentProc))
      ensures old(currStrategy) != InactiveAging ==> info.age[..] == old(info.age[..])
      ensures old(currStrategy) == RoundRobin ==> info.timeSlice == RoundRobinStep(
        Interrupted(old(processes[..]), old(currentProc), Checksum(mem, stackBottom[old(currentProc)])), old(currentProc), old(info.timeSlice)).1
      ensures old(currStrategy) != RoundRobin ==> info.timeSlice == old(info.timeSlice)
      ensures CriticalState() == old(CriticalState()) && currStrategy == old(currStrategy)
    {
      SuspendCurrent(mem);
      var next := ChooseNext(rand);
      currentProc := next;
      var checksum := GetStackChecksum(mem, currentProc);
      if processes[currentProc].checksum != checksum {
        errors := errors + ["The stack is inconsistent"];
      }
      processes[currentProc] := processes[currentProc].(state := Running);
    }

    /** os_startScheduler without the jump into idle: slot 0 becomes current and RUNNING. */
    method StartScheduler()
      requires Valid()
      modifies this, processes
      ensures Valid()
      ensures currentProc == 0 && processes[..] == old(processes[..])[0 := old(processes[0]).(state := Running)]
      ensures CriticalState() == old(CriticalState()) && errors == old(errors) && currStrategy == old(currStrategy)
    {
      currentProc := 0;
      processes[currentProc] := processes[currentProc].(state := Running);
    }

    /** The first loop of os_initScheduler: every slot becomes UNUSED. */
    method ClearTable()
      modifies processes
      ensures processes[..] == Cleared(old(processes[..]))
    {
      var i := 0;
      while i < processes.Length
        invariant 0 <= i <= processes.Length
        invariant forall j :: 0 <= j < processes.Length ==>
          processes[j] == if j < i then old(processes[j]).(state := Unused) else old(processes[j])
      {
        processes[i] := processes[i].(state := Unused);
        i := i + 1;
      }
    }

    /**
     * os_initScheduler: marks every slot UNUSED, starts idle, then starts
     * each program of the autostart list in order, all with the default
     * priority.
     */
    method InitScheduler(idle: Program, autostart: seq<Program>, defaultPriority: Priority, mem: seq<bv8>)
      requires Valid() && |mem| == memSize
      modifies this, processes, info.age
      ensures Valid()
      ensures processes[..] == LaunchedAll(Launched(Cleared(old(processes[..])), idle, defaultPriority, stackBottom, mem),
                                           autostart, defaultPriority, stackBottom, mem)
      ensures currentProc == old(currentProc) && currStrategy == old(currStrategy)
      ensures Consistent(old(CriticalState())) && old(criticalSectionCount) < MAX_NESTING ==>
        CriticalState() == old(CriticalState()) && errors == old(errors)
      ensures AgesMatch(processes[..], info.age[..], old(info.age[..]))
    {
      ghost var quiet := Consistent(CriticalState()) && criticalSectionCount < MAX_NESTING;
      ghost var s0, a0 := CriticalState(), info.age[..];
      ClearTable();
      ghost var t := processes[..];
      assert AgesMatch(t, a0, a0);
      LaunchResetsAge(t, a0, a0, idle, defaultPriority, stackBottom, mem);
      if quiet { BalancedPairIsNeutral(s0); }
      var pid := Exec(idle, defaultPriority, mem);
      ExecAll(autostart, defaultPriority, mem, a0);
    }

    /** The autostart loop of os_initScheduler: each program is started in turn. */
    method ExecAll(programs: seq<Program>, priority: Priority, mem: seq<bv8>, ghost init: seq<nat>)
      requires Valid() && |mem| == memSize && AgesMatch(processes[..], info.age[..], init)
      modifies this, processes, info.age
      ensures Valid()
      ensures processes[..] == LaunchedAll(old(processes[..]), programs, priority, stackBottom, mem)
      ensures currentProc == old(currentProc) && currStrategy == old(currStrategy)
      ensures Consistent(old(CriticalState())) && old(criticalSectionCount) < MAX_NESTING ==>
        CriticalState() == old(CriticalState()) && errors == old(errors)
      ensures AgesMatch(processes[..], info.age[..], init)
    {
      ghost var quiet := Consistent(CriticalState()) && criticalSectionCount < MAX_NESTING;
      ghost var s0, e0 := CriticalState(), errors;
      ghost var base := processes[..];
      var k := 0;
      while k < |programs|
        invariant 0 <= k <= |programs| && Valid()
        invariant processes[..] == LaunchedAll(base, programs[..k], priority, stackBottom, mem)
        invariant currentProc == old(currentProc) && currStrategy == old(currStrategy)
        invariant quiet ==> CriticalState() == s0 && errors == e0
        invariant AgesMatch(processes[..], info.age[..], init)
      {
        LaunchResetsAge(processes[..], info.age[..], init, programs[k], priority, stackBottom, mem);
        if quiet { BalancedPairIsNeutral(s0); }
        var pid := Exec(programs[k], priority, mem);
        LaunchedAllSnoc(base, programs[..k], programs[k], priority, stackBottom, mem);
        assert programs[..k + 1] == programs[..k] + [programs[k]];
        k := k + 1;
      }
      assert programs[..k] == programs;
    }
  }

  /** Starting one more program after a list of them is starting the longer list. */
  lemma {:induction false} LaunchedAllSnoc(ps: seq<Process>, programs: seq<Program>, p: Program, priority: Priority, bottoms: seq<nat>, mem: seq<bv8>)
    requires |bottoms| == |ps| && StacksFit(bottoms, |mem|)
    ensures LaunchedAll(ps, programs + [p], priority, bottoms, mem)
      == Launched(LaunchedAll(ps, programs, priority, bottoms, mem), p, priority, bottoms, mem)
    decreases |programs|
  {
    if programs == [] {
      assert programs + [p] == [p];
    } else {
      assert (programs + [p])[1..] == programs[1..] + [p];
      LaunchedAllSnoc(Launched(ps, programs[0], priority, bottoms, mem), programs[1..], p, priority, bottoms, mem);
    }
  }
}
