/**
 * The scheduling strategies of os_scheduling_strategies.c.  Each selector
 * reads the process table (passed read-only) and the index of the current
 * process and returns the next process to run; RoundRobin and
 * InactiveAging also update the global scheduling information (the time
 * slice and the ages).  rand() is an oracle argument.
 */
module SchedulingStrategies {
  import opened Processes

  /** The strategies the scheduler can be set to. */
  datatype SchedulingStrategy = Even | Random | RoundRobin | InactiveAging | RunToCompletion

  /** The global schedulingInfo: the round-robin time slice and one age per slot. */
  class SchedulingInformation {
    var timeSlice: nat
    const age: array<nat>

    /** The zero-initialised global for a table of n slots. */
    constructor (n: nat)
      ensures timeSlice == 0 && age.Length == n && fresh(age)
      ensures forall i :: 0 <= i < n ==> age[i] == 0
    {
      timeSlice := 0;
      age := new nat[n](_ => 0);
    }
  }

  // ---------------------------------------------------------------------
  // Cyclic order of the even strategy: current+1 .. n-1, then 1 .. current
  // ---------------------------------------------------------------------

  /** The position of slot x (1 .. n-1) in the cyclic order that starts after slot c, counting from 1. */
  function CyclicDist(n: nat, c: nat, x: nat): (d: nat)
    requires c < n && 1 <= x < n
    ensures 1 <= d <= n - 1
  {
    if x > c then x - c else x + (n - 1) - c
  }

  /** The slot at position d (1 .. n-1) of the cyclic order that starts after slot c. */
  function SlotAt(n: nat, c: nat, d: nat): (s: nat)
    requires c < n && 1 <= d <= n - 1
    ensures 1 <= s < n && CyclicDist(n, c, s) == d
  {
    if c + d <= n - 1 then c + d else c + d - (n - 1)
  }

  /** Every slot 1 .. n-1 sits at exactly one position of the cyclic order. */
  lemma SlotAtDist(n: nat, c: nat, x: nat)
    requires c < n && 1 <= x < n
    ensures SlotAt(n, c, CyclicDist(n, c, x)) == x
  {
  }

  /** The first schedulable slot at position d or later of the cyclic order after c; 0 when there is none. */
  function FirstReadyFrom(ps: seq<Process>, c: nat, d: nat): (r: nat)
    requires c < |ps| && 1 <= d
    ensures r < |ps|
    decreases |ps| - d
  {
    if d >= |ps| then 0
    else if Schedulable(ps, SlotAt(|ps|, c, d)) then SlotAt(|ps|, c, d)
    else FirstReadyFrom(ps, c, d + 1)
  }

  /** The choice of os_Scheduler_Even for current process c. */
  function EvenChoice(ps: seq<Process>, c: nat): (r: nat)
    requires c < |ps|
    ensures r < |ps|
  {
    FirstReadyFrom(ps, c, 1)
  }

  /** FirstReadyFrom finds the schedulable slot nearest to c at position d or later, or reports there is none. */
  lemma {:induction false} FirstReadyFromNearest(ps: seq<Process>, c: nat, d: nat)
    requires c < |ps| && 1 <= d
    ensures FirstReadyFrom(ps, c, d) == 0 ==>
      forall j :: Schedulable(ps, j) ==> CyclicDist(|ps|, c, j) < d
    ensures FirstReadyFrom(ps, c, d) != 0 ==>
      Schedulable(ps, FirstReadyFrom(ps, c, d)) && d <= CyclicDist(|ps|, c, FirstReadyFrom(ps, c, d))
    ensures FirstReadyFrom(ps, c, d) != 0 ==>
      forall j :: Schedulable(ps, j) && d <= CyclicDist(|ps|, c, j) ==>
        CyclicDist(|ps|, c, FirstReadyFrom(ps, c, d)) <= CyclicDist(|ps|, c, j)
    decreases |ps| - d
  {
    if d < |ps| && !Schedulable(ps, SlotAt(|ps|, c, d)) {
      FirstReadyFromNearest(ps, c, d + 1);
      forall j | Schedulable(ps, j)
        ensures CyclicDist(|ps|, c, j) != d
      {
        SlotAtDist(|ps|, c, j);
      }
    }
  }

  /**
   * The even strategy returns 0 exactly when no slot 1 .. n-1 is READY, and
   * otherwise the READY slot that comes first in the cyclic order
   * current+1 .. n-1, 1 .. current.
   */
  lemma EvenChoiceIsNearest(ps: seq<Process>, c: nat)
    requires c < |ps|
    ensures EvenChoice(ps, c) == 0 <==> forall j :: !Schedulable(ps, j)
    ensures EvenChoice(ps, c) != 0 ==> Schedulable(ps, EvenChoice(ps, c))
    ensures EvenChoice(ps, c) != 0 ==>
      forall j :: Schedulable(ps, j) ==> CyclicDist(|ps|, c, EvenChoice(ps, c)) <= CyclicDist(|ps|, c, j)
  {
    FirstReadyFromNearest(ps, c, 1);
  }

  /** When the current process is the only READY one, the even strategy keeps it. */
  lemma EvenKeepsSoleReady(ps: seq<Process>, c: nat)
    requires c < |ps| && Schedulable(ps, c)
    requires forall j :: Schedulable(ps, j) ==> j == c
    ensures EvenChoice(ps, c) == c
  {
    EvenChoiceIsNearest(ps, c);
  }

  /** os_Scheduler_Even: counts the READY slots, then searches cyclically from current+1. */
  method SchedulerEven(ps: seq<Process>, c: nat) returns (r: nat)
    requires c < |ps|
    ensures r == EvenChoice(ps, c)
  {
    var rdy := 0;
    var i := 1;
    while i < |ps|
      invariant 1 <= i <= |ps|
      invariant rdy == CountReady(ps, i)
    {
      if ps[i].state == Ready {
        rdy := rdy + 1;
      }
      i := i + 1;
    }
    EvenChoiceIsNearest(ps, c);
    CountReadyZero(ps, |ps|);
    if rdy == 0 {
      return 0;
    }
    ghost var e := EvenChoice(ps, c);
    FirstReadyFromNearest(ps, c, 1);
    var j := c + 1;
    ghost var d: nat := 1;
    var found := false;
    r := 0;
    while !found
      invariant found ==> r == e
      invariant !found ==> 1 <= d <= CyclicDist(|ps|, c, e) && FirstReadyFrom(ps, c, d) == e
      invariant !found ==> j == if c + d <= |ps| then c + d else c + d - (|ps| - 1)
      decreases !found, CyclicDist(|ps|, c, e) - d
    {
      if j == |ps| {
        j := 1;
      }
      if ps[j].state == Ready {
        r := j;
        found := true;
      } else {
        FirstReadyFromNearest(ps, c, d + 1);
        j := j + 1;
        d := d + 1;
      }
    }
  }

  // ---------------------------------------------------------------------
  // Random
  // ---------------------------------------------------------------------

  /**
   * The slot the second loop of os_Scheduler_Random returns, scanning up from
   * slot i for the READY slot with k READY slots below it; current when the
   * scan runs off the table.
   */
  function RankFrom(ps: seq<Process>, c: nat, k: nat, i: nat): (r: nat)
    requires 1 <= i <= |ps| && c < |ps|
    ensures r < |ps|
    decreases |ps| - i
  {
    if i == |ps| then c
    else if Schedulable(ps, i) && CountReady(ps, i) == k then i
    else RankFrom(ps, c, k, i + 1)
  }

  /** The choice of os_Scheduler_Random for current process c when rand() yields rnd. */
  function RandomChoice(ps: seq<Process>, c: nat, rnd: nat): (r: nat)
    requires c < |ps|
    ensures r < |ps|
  {
    if CountReady(ps, |ps|) == 0 then 0 else RankFrom(ps, c, rnd % CountReady(ps, |ps|), 1)
  }

  /** The scan finds the READY slot of rank k whenever fewer than k READY slots lie below i and more than k in all. */
  lemma {:induction false} RankFromFinds(ps: seq<Process>, c: nat, k: nat, i: nat)
    requires 1 <= i <= |ps| && c < |ps|
    requires CountReady(ps, i) <= k < CountReady(ps, |ps|)
    ensures Schedulable(ps, RankFrom(ps, c, k, i))
    ensures CountReady(ps, RankFrom(ps, c, k, i)) == k
    decreases |ps| - i
  {
    if i < |ps| && !(Schedulable(ps, i) && CountReady(ps, i) == k) {
      RankFromFinds(ps, c, k, i + 1);
    }
  }

  /**
   * The random strategy returns 0 exactly when no slot is READY, and
   * otherwise the READY slot with (rnd mod ready) READY slots below it.
   */
  lemma RandomChoiceIsRanked(ps: seq<Process>, c: nat, rnd: nat)
    requires c < |ps|
    ensures RandomChoice(ps, c, rnd) == 0 <==> forall j :: !Schedulable(ps, j)
    ensures RandomChoice(ps, c, rnd) != 0 ==>
      Schedulable(ps, RandomChoice(ps, c, rnd))
      && CountReady(ps, RandomChoice(ps, c, rnd)) == rnd % CountReady(ps, |ps|)
  {
    CountReadyZero(ps, |ps|);
    if CountReady(ps, |ps|) != 0 {
      RankFromFinds(ps, c, rnd % CountReady(ps, |ps|), 1);
    }
  }

  /** os_Scheduler_Random: counts the READY slots, draws rand() mod that count and returns the READY slot of that rank. */
  method SchedulerRandom(ps: seq<Process>, c: nat, rand: nat) returns (r: nat)
    requires c < |ps|
    ensures r == RandomChoice(ps, c, rand)
  {
    var ready := 0;
    var i := 1;
    while i < |ps|
      invariant 1 <= i <= |ps|
      invariant ready == CountReady(ps, i)
    {
      if ps[i].state == Ready {
        ready := ready + 1;
      }
      i := i + 1;
    }
    if ready == 0 {
      return 0;
    }
    var randNum := rand % ready;
    ready := 0;
    i := 1;
    while i < |ps|
      invariant 1 <= i <= |ps|
      invariant ready == CountReady(ps, i)
      invariant RankFrom(ps, c, randNum, i) == RandomChoice(ps, c, rand)
    {
      if ps[i].state == Ready {
        if ready == randNum {
          return i;
        }
        ready := ready + 1;
      }
      i := i + 1;
    }
    return c;
  }

  // ---------------------------------------------------------------------
  // Round robin and run to completion
  // ---------------------------------------------------------------------

  /**
   * One call of os_Scheduler_RoundRobin: the next process and the new time
   * slice.  A READY current process keeps running while its slice exceeds 1;
   * otherwise the even strategy chooses and the slice becomes the chosen
   * process's priority.  The result is the idle slot or a READY one.
   */
  function RoundRobinStep(ps: seq<Process>, c: nat, slice: nat): (r: (nat, nat))
    requires c < |ps|
    ensures r.0 < |ps| && (r.0 == 0 || ps[r.0].state == Ready)
  {
    EvenChoiceIsNearest(ps, c);
    if slice > 1 && ps[c].state == Ready then (c, slice - 1)
    else (EvenChoice(ps, c), ps[EvenChoice(ps, c)].priority)
  }

  /** n successive calls of the round-robin strategy on an unchanged table. */
  function RoundRobinRun(ps: seq<Process>, c: nat, slice: nat, n: nat): (r: (nat, nat))
    requires c < |ps|
    ensures r.0 < |ps|
    decreases n
  {
    if n == 0 then (c, slice)
    else RoundRobinStep(ps, RoundRobinRun(ps, c, slice, n - 1).0, RoundRobinRun(ps, c, slice, n - 1).1)
  }

  /**
   * A READY process p whose time slice was set to its priority k is returned
   * again by each of the next k - 1 calls, the slice counting down.
   */
  lemma {:induction false} RoundRobinHoldsSlot(ps: seq<Process>, p: nat, j: nat)
    requires p < |ps| && ps[p].state == Ready && j < ps[p].priority
    ensures RoundRobinRun(ps, p, ps[p].priority, j) == (p, ps[p].priority - j)
  {
    if j > 0 {
      RoundRobinHoldsSlot(ps, p, j - 1);
    }
  }

  /** So a process of priority k >= 1 runs for k ticks: the k-th later call is decided by the even strategy. */
  lemma RoundRobinSliceEnds(ps: seq<Process>, p: nat)
    requires p < |ps| && ps[p].state == Ready && ps[p].priority >= 1
    ensures RoundRobinRun(ps, p, ps[p].priority, ps[p].priority).0 == EvenChoice(ps, p)
  {
    RoundRobinHoldsSlot(ps, p, ps[p].priority - 1);
  }

  /** os_Scheduler_RoundRobin, updating the time slice of the scheduling information. */
  method SchedulerRoundRobin(info: SchedulingInformation, ps: seq<Process>, c: nat) returns (r: nat)
    requires c < |ps|
    modifies info
    ensures (r, info.timeSlice) == RoundRobinStep(ps, c, old(info.timeSlice))
  {
    if info.timeSlice > 1 && ps[c].state == Ready {
      info.timeSlice := info.timeSlice - 1;
      return c;
    } else {
      var next := SchedulerEven(ps, c);
      info.timeSlice := ps[next].priority;
      return next;
    }
  }

  /**
   * os_Scheduler_RunToCompletion: a READY current process is kept, otherwise
   * the even strategy chooses; the result is the idle slot or a READY one.
   */
  function RunToCompletionChoice(ps: seq<Process>, c: nat): (r: nat)
    requires c < |ps|
    ensures r < |ps| && (r == 0 || ps[r].state == Ready)
    ensures ps[c].state == Ready ==> r == c
    ensures ps[c].state != Ready ==> r == EvenChoice(ps, c)
  {
    EvenChoiceIsNearest(ps, c);
    if ps[c].state == Ready then c else EvenChoice(ps, c)
  }

  // ---------------------------------------------------------------------
  // Inactive aging
  // ---------------------------------------------------------------------

  /** The ages after one aging step: the current slot's age is zeroed, then each READY slot 1 .. n-1 gains its priority. */
  function Aged(ages: seq<nat>, ps: seq<Process>, c: nat): (a: seq<nat>)
    requires |ages| == |ps| && c < |ps|
    ensures |a| == |ages|
  {
    seq(|ages|, i requires 0 <= i < |ages| =>
      (if i == c then 0 else ages[i]) + (if Schedulable(ps, i) then ps[i].priority else 0))
  }

  /** Slot i is preferred to slot j: it is older, or as old with a higher priority. */
  predicate Beats(ps: seq<Process>, ages: seq<nat>, i: nat, j: nat)
    requires |ages| == |ps| && i < |ps| && j < |ps|
  {
    ages[i] > ages[j] || (ages[i] == ages[j] && ps[i].priority > ps[j].priority)
  }

  /** The second loop of os_Scheduler_InactiveAging from slot i on, with candidate next so far. */
  function Pick(ps: seq<Process>, ages: seq<nat>, next: nat, i: nat): (r: nat)
    requires |ages| == |ps| && next < |ps| && 1 <= i
    ensures r < |ps|
    decreases |ps| - i
  {
    if i >= |ps| then next
    else Pick(ps, ages, if Schedulable(ps, i) && Beats(ps, ages, i, next) then i else next, i + 1)
  }

  /** The slot os_Scheduler_InactiveAging returns for the given ages. */
  function Oldest(ps: seq<Process>, ages: seq<nat>): (r: nat)
    requires |ages| == |ps| && 1 <= |ps|
    ensures r < |ps|
  {
    Pick(ps, ages, 0, 1)
  }

  /** The scan keeps the best candidate: no READY slot beats it, and it beats every earlier READY slot and the idle slot. */
  lemma {:induction false} PickIsBest(ps: seq<Process>, ages: seq<nat>, next: nat, i: nat)
    requires |ages| == |ps| && 1 <= i && next < i && next < |ps|
    requires next == 0 || Schedulable(ps, next)
    requires forall j :: Schedulable(ps, j) && j < i ==> !Beats(ps, ages, j, next)
    requires forall j :: Schedulable(ps, j) && j < next ==> Beats(ps, ages, next, j)
    requires next != 0 ==> Beats(ps, ages, next, 0)
    ensures Pick(ps, ages, next, i) == 0 || Schedulable(ps, Pick(ps, ages, next, i))
    ensures forall j :: Schedulable(ps, j) ==> !Beats(ps, ages, j, Pick(ps, ages, next, i))
    ensures forall j :: Schedulable(ps, j) && j < Pick(ps, ages, next, i) ==> Beats(ps, ages, Pick(ps, ages, next, i), j)
    ensures Pick(ps, ages, next, i) != 0 ==> Beats(ps, ages, Pick(ps, ages, next, i), 0)
    decreases |ps| - i
  {
    if i < |ps| {
      if Schedulable(ps, i) && Beats(ps, ages, i, next) {
        PickIsBest(ps, ages, i, i + 1);
      } else {
        PickIsBest(ps, ages, next, i + 1);
      }
    }
  }

  /**
   * The inactive-aging strategy returns the idle slot or a READY slot of
   * greatest age; among equally old ones the highest priority wins, and
   * among those the lowest id; a READY slot wins over the idle slot only
   * when it beats it.
   */
  lemma OldestIsBest(ps: seq<Process>, ages: seq<nat>)
    requires |ages| == |ps| && 1 <= |ps|
    ensures Oldest(ps, ages) == 0 || Schedulable(ps, Oldest(ps, ages))
    ensures forall j :: Schedulable(ps, j) ==> !Beats(ps, ages, j, Oldest(ps, ages))
    ensures forall j :: Schedulable(ps, j) && j < Oldest(ps, ages) ==> Beats(ps, ages, Oldest(ps, ages), j)
    ensures Oldest(ps, ages) != 0 ==> Beats(ps, ages, Oldest(ps, ages), 0)
  {
    PickIsBest(ps, ages, 0, 1);
  }

  /**
   * os_Scheduler_InactiveAging: ages the table, then picks the oldest READY
   * slot.  The winner's age is left as aged, not reset.
   */
  method SchedulerInactiveAging(info: SchedulingInformation, ps: seq<Process>, c: nat) returns (r: nat)
    requires c < |ps| && info.age.Length == |ps|
    modifies info.age
    ensures info.age[..] == Aged(old(info.age[..]), ps, c)
    ensures r == Oldest(ps, info.age[..])
  {
    ghost var ages := info.age[..];
    info.age[c] := 0;
    var i := 1;
    while i <= |ps| - 1
      invariant 1 <= i <= |ps|
      invariant forall j :: 0 <= j < |ps| ==>
        info.age[j] == if j < i then Aged(ages, ps, c)[j] else ages[c := 0][j]
    {
      if ps[i].state == Ready {
        info.age[i] := info.age[i] + ps[i].priority;
      }
      i := i + 1;
    }
    assert info.age[..] == Aged(ages, ps, c);
    var next := 0;
    i := 1;
    while i < |ps|
      invariant 1 <= i <= |ps| && next < |ps|
      invariant Pick(ps, info.age[..], next, i) == Oldest(ps, info.age[..])
    {
      if ps[i].state == Ready {
        if info.age[i] > info.age[next] {
          next := i;
        } else if info.age[i] == info.age[next] && ps[i].priority > ps[next].priority {
          next := i;
        }
      }
      i := i + 1;
    }
    return next;
  }

  // ---------------------------------------------------------------------
  // Resetting the scheduling information
  // ---------------------------------------------------------------------

  /**
   * os_resetSchedulingInformation: for round robin the time slice becomes
   * the current process's priority, for inactive aging every age becomes 0;
   * other strategies change nothing.
   */
  method ResetSchedulingInformation(info: SchedulingInformation, strategy: SchedulingStrategy, ps: seq<Process>, c: nat)
    requires c < |ps| && info.age.Length == |ps|
    modifies info, info.age
    ensures strategy == RoundRobin ==> info.timeSlice == ps[c].priority && info.age[..] == old(info.age[..])
    ensures strategy == InactiveAging ==>
      info.timeSlice == old(info.timeSlice) && forall i :: 0 <= i < |ps| ==> info.age[i] == 0
    ensures strategy != RoundRobin && strategy != InactiveAging ==>
      info.timeSlice == old(info.timeSlice) && info.age[..] == old(info.age[..])
  {
    if strategy == RoundRobin {
      info.timeSlice := ps[c].priority;
    } else if strategy == InactiveAging {
      var i := 0;
      while i <= |ps| - 1
        invariant 0 <= i <= |ps|
        invariant forall j :: 0 <= j < i ==> info.age[j] == 0
        invariant info.timeSlice == old(info.timeSlice)
      {
        info.age[i] := 0;
        i := i + 1;
      }
    }
  }

  /** os_resetProcessSchedulingInformation: zeroes the age of slot id and nothing else. */
  method ResetProcessSchedulingInformation(info: SchedulingInformation, id: nat)
    requires id < info.age.Length
    modifies info.age
    ensures info.age[..] == old(info.age[..])[id := 0]
  {
    info.age[id] := 0;
  }
}
