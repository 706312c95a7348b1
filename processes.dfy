/**
 * The process table entries of the scheduler.  The number of slots
 * (MAX_NUMBER_OF_PROCESSES) is the length of the table; slot 0 is the idle
 * process.
 */
module Processes {
  /** The states a slot of the process table takes in the scheduler. */
  datatype ProcessState = Unused | Ready | Running

  /** A program entry point; Null is the null function pointer. */
  datatype Program = Null | Entry(address: nat)

  /** Priorities range over 0..255, 255 being the most favourable. */
  type Priority = p: nat | p < 256

  /** One slot of the process table: its state, priority, program, saved stack pointer and stack checksum. */
  datatype Process = Process(state: ProcessState, priority: Priority, program: Program, sp: nat, checksum: bv8)

  /** Slot i is one the strategies may choose: not the idle slot, and READY. */
  predicate Schedulable(ps: seq<Process>, i: int)
  {
    1 <= i < |ps| && ps[i].state == Ready
  }

  /** The number of schedulable slots among 1 .. n-1. */
  function CountReady(ps: seq<Process>, n: nat): (c: nat)
    requires n <= |ps|
    ensures c <= n
  {
    if n <= 1 then 0 else CountReady(ps, n - 1) + (if ps[n - 1].state == Ready then 1 else 0)
  }

  /** No schedulable slot lies in 1 .. n-1 exactly when CountReady is 0 there. */
  lemma {:induction false} CountReadyZero(ps: seq<Process>, n: nat)
    requires n <= |ps|
    ensures CountReady(ps, n) == 0 <==> forall i :: 1 <= i < n ==> !Schedulable(ps, i)
  {
    if n > 1 {
      CountReadyZero(ps, n - 1);
      assert Schedulable(ps, n - 1) <==> ps[n - 1].state == Ready;
    }
  }
}
