/**
  The scheduling state the boot code leaves (kernel/start.c), and how create_proc()
  (kernel/proc.c) puts a process into the run queue: the queue invariant holds
  there, and the traps that break it do arrive in such states.
 */
module SchedulerBoot {
  import opened Basics
  import opened Rings
  import opened Scheduler

  const SHELL: nat := 0
  const IDLE: nat := 1

  /** The links at boot: two heads linked to themselves, every process node null. */
  function BootLink(n: nat, i: nat): int {
    if i < n then NIL else i
  }

  function BootState(p: nat): ProcState {
    if p == SHELL || p == IDLE then Running else Unused
  }

  /** After shell_init() and setup_idle_proc(), with room for `others` more processes. */
  function BootCpu(others: nat): Cpu {
    var n := others + 2;
    Cpu(Links(seq(n + 2, i requires 0 <= i => BootLink(n, i)), seq(n + 2, i requires 0 <= i => BootLink(n, i))),
        seq(n, p requires 0 <= p => BootState(p)), seq(n, _ => 0), SHELL, IDLE, false)
  }

  lemma BootIsConsistent(others: nat)
    ensures Consistent(BootCpu(others), [], [])
  {
  }

  /** The end of create_proc(): RUNNABLE, and last in the run queue. */
  function Enqueue(c: Cpu, ghost rq: seq<nat>, ghost sq: seq<nat>, p: nat): Cpu
    requires Queues(c, rq, sq) && p < |c.state|
  {
    RingEnds(c.links, RunHead(c), rq);
    c.(links := AddTail(c.links, p, RunHead(c)), state := c.state[p := Runnable])
  }

  lemma EnqueueKeeps(c: Cpu, rq: seq<nat>, sq: seq<nat>, p: nat)
    requires Consistent(c, rq, sq) && p < |c.state| && p != c.idle && c.state[p] == Unused
    ensures Consistent(Enqueue(c, rq, sq, p), rq + [p], sq)
  {
    hide Ring, Path, NoDuplicates;
    assert Placed(c, rq, sq, p);
    AppendToRun(c, rq, sq, p);
    RingEnds(c.links, RunHead(c), rq);
    var c', rq' := Enqueue(c, rq, sq, p), rq + [p];
    forall x: nat | x < |c'.state| ensures Unqueued(c', rq', sq, x) {
      assert Unqueued(c, rq, sq, x);
      if x != p && x !in rq { AddTailElsewhere(c.links, p, RunHead(c), rq, x); }
    }
    forall x: nat | x < |c'.state| && x != c'.idle ensures Placed(c', rq', sq, x) { assert Placed(c, rq, sq, x); }
  }

  /** At boot nobody is queued: a yield of the shell loses it. */
  lemma BootYieldLosesShell(others: nat)
    ensures Consistent(BootCpu(others), [], []) && !Sound(Trap(BootCpu(others), Yield, [], []).cpu)
  {
    BootIsConsistent(others);
    hide BootCpu, Consistent, Sound;
    assert BootCpu(others).proc != BootCpu(others).idle by { BootProcs(others); }
    YieldTrap(BootCpu(others), [], []);
  }

  lemma BootProcs(others: nat)
    ensures var c := BootCpu(others);
            && c.proc == SHELL != IDLE == c.idle && |c.state| == others + 2 && !c.needsSched
            && forall p: nat :: 2 <= p < others + 2 ==> c.state[p] == Unused
  {
  }

  /** With a second process created, an accepted sleep of the shell corrupts the rings, and its exit is undone. */
  lemma BootSleepCorrupts(ms: nat, now: nat)
    requires !Refused(ms)
    ensures Consistent(BootCpu(1), [], [])
    ensures var c := Enqueue(BootCpu(1), [], [], 2);
            && Consistent(c, [2], []) && !Sound(Trap(c, Sleep(ms, now), [2], []).cpu)
            && Trap(c, Exit, [2], []) == Trap(c, Yield, [2], [])
  {
    BootIsConsistent(1);
    BootProcs(1);
    hide BootCpu, Consistent, Sound;
    EnqueueKeeps(BootCpu(1), [], [], 2);
    var c := Enqueue(BootCpu(1), [], [], 2);
    assert [] + [2] == [2] && [2] + [] == [2];
    SleepCorrupts(c, ms, now, 2, [], []);
    ExitIsYield(c, [2], []);
  }
}
