/**
  Whole runs of one CPU: sequences of traps, and schedule() called again and again.
 */
module SchedulerRuns {
  import opened Basics
  import opened Rings
  import opened Scheduler

  // ----- sequences of traps

  ghost function NextCpu(c: Cpu, ev: Event): TrapOutcome
    requires Sound(c)
  {
    var rq: seq<nat>, sq: seq<nat> :| Consistent(c, rq, sq);
    Trap(c, ev, rq, sq)
  }

  /** Every trap of the run is one that keeps the queues, judged when it arrives. */
  ghost predicate SafeRun(c: Cpu, evs: seq<Event>)
    requires Sound(c)
    decreases |evs|
  {
    evs != [] ==>
      && Sized(c.links, |c.state| + 2) && Safe(c, evs[0])
      && (NextCpu(c, evs[0]).Resumed? && Sound(NextCpu(c, evs[0]).cpu) ==> SafeRun(NextCpu(c, evs[0]).cpu, evs[1..]))
  }

  /** How far the run gets before a trap breaks the queues or halts the CPU. */
  ghost function Survived(c: Cpu, evs: seq<Event>): nat
    requires Sound(c)
    decreases |evs|
  {
    if evs == [] then 0
    else
      match NextCpu(c, evs[0])
      case Stuck => 0
      case Resumed(c') => if Sound(c') then 1 + Survived(c', evs[1..]) else 0
  }

  /** No system call arrives while the idle process runs (that halts the CPU). */
  ghost predicate NeverIdleSyscall(c: Cpu, evs: seq<Event>)
    requires Sound(c)
    decreases |evs|
  {
    evs != [] ==>
      && NextCpu(c, evs[0]).Resumed?
      && (Sound(NextCpu(c, evs[0]).cpu) ==> NeverIdleSyscall(NextCpu(c, evs[0]).cpu, evs[1..]))
  }

  /** A run of traps survives to its end if and only if every trap in it was safe. */
  lemma {:induction false} RunSurvivesExactly(c: Cpu, evs: seq<Event>)
    requires Sound(c) && !c.needsSched && NeverIdleSyscall(c, evs)
    ensures Survived(c, evs) == |evs| <==> SafeRun(c, evs)
    decreases |evs|
  {
    if evs != [] {
      var rq: seq<nat>, sq: seq<nat> :| Consistent(c, rq, sq) && NextCpu(c, evs[0]) == Trap(c, evs[0], rq, sq);
      TrapKeepsExactly(c, evs[0], rq, sq);
      hide Trap, Consistent, Safe;
      var c' := NextCpu(c, evs[0]).cpu;
      if Sound(c') { RunSurvivesExactly(c', evs[1..]); }
      assert Survived(c, evs) == if Sound(c') then 1 + Survived(c', evs[1..]) else 0;
    }
  }

  // ----- round robin

  ghost predicate Busy(c: Cpu, rq: seq<nat>, sq: seq<nat>) {
    Consistent(c, rq, sq) && c.proc != c.idle && rq != []
  }

  lemma BusyStep(c: Cpu, rq: seq<nat>, sq: seq<nat>)
    requires Busy(c, rq, sq)
    ensures Busy(Schedule(c, rq, sq), NextRun(c, rq), sq) && Schedule(c, rq, sq).proc == rq[0]
    ensures Schedule(c, rq, sq).idle == c.idle
  {
    ScheduleKeeps(c, rq, sq);
    assert rq[0] in rq;
  }

  lemma BusyQueues(c: Cpu, rq: seq<nat>, sq: seq<nat>)
    requires Busy(c, rq, sq)
    ensures Queues(c, rq, sq) && c.proc !in rq && rq != []
  {
  }

  /** schedule() called k times in a row. */
  ghost function ScheduleTimes(c: Cpu, rq: seq<nat>, sq: seq<nat>, k: nat): Cpu
    requires Busy(c, rq, sq)
    decreases k
  {
    if k == 0 then c
    else
      BusyStep(c, rq, sq);
      ScheduleTimes(Schedule(c, rq, sq), NextRun(c, rq), sq, k - 1)
  }

  function Rotated(q: seq<nat>, k: nat): seq<nat>
    requires k <= |q|
  {
    q[k..] + q[..k]
  }

  lemma RotateStep(p: nat, rq: seq<nat>, k: nat)
    requires rq != [] && k <= |rq|
    ensures Rotated([rq[0]] + (rq[1..] + [p]), k) == Rotated([p] + rq, k + 1)
  {
    var full, turned := [p] + rq, [rq[0]] + (rq[1..] + [p]);
    assert turned == full[1..] + [p];
    assert turned[k..] == full[k + 1..] + [p];
    assert turned[..k] == full[1..k + 1];
    assert [p] + full[1..k + 1] == full[..k + 1];
  }

  /** Repeated scheduling rotates the current process and the run queue, taken together. */
  lemma {:induction false} ScheduleRotates(c: Cpu, rq: seq<nat>, sq: seq<nat>, k: nat)
    requires Busy(c, rq, sq) && k <= |rq| + 1
    ensures var c', r := ScheduleTimes(c, rq, sq, k), Rotated([c.proc] + rq, k);
            Consistent(c', r[1..], sq) && c'.proc == r[0]
    decreases k
  {
    hide Consistent, Schedule, Queues;
    BusyQueues(c, rq, sq);
    var c1 := Schedule(c, rq, sq);
    var full := [c.proc] + rq;
    if k == 0 {
      assert Rotated(full, 0) == full && full[1..] == rq;
    } else {
      BusyStep(c, rq, sq);
      RotateStep(c.proc, rq, k - 1);
      hide Rotated;
      ScheduleRotates(c1, NextRun(c, rq), sq, k - 1);
    }
  }

  lemma ScheduleTouchesOnce(c: Cpu, rq: seq<nat>, sq: seq<nat>)
    requires Busy(c, rq, sq)
    ensures var c' := Schedule(c, rq, sq);
            && |c'.state| == |c.state| && c'.idle == c.idle && c'.sleepUntil == c.sleepUntil
            && c'.needsSched == c.needsSched && c'.proc == rq[0]
            && (forall x: nat :: x < |c.state| && x != c.proc && x !in rq ==> c'.state[x] == c.state[x])
            && (forall x :: x in NextRun(c, rq) || x == c'.proc <==> x in rq || x == c.proc)
  {
    hide Ring, Path, NoDuplicates;
    assert rq == [rq[0]] + rq[1..];
    ScheduleQueues(c, rq[0], rq[1..], sq);
    RingEnds(c.links, RunHead(c), rq);
    assert forall x :: x in rq <==> x == rq[0] || x in rq[1..];
    assert forall x :: x in NextRun(c, rq) <==> x in rq[1..] || x == c.proc;
  }

  lemma {:induction false} ScheduleTouches(c: Cpu, rq: seq<nat>, sq: seq<nat>, k: nat, x: nat)
    requires Busy(c, rq, sq)
    ensures var c' := ScheduleTimes(c, rq, sq, k);
            && |c'.state| == |c.state| && c'.idle == c.idle && c'.sleepUntil == c.sleepUntil
            && c'.needsSched == c.needsSched
            && (x < |c.state| && x != c.proc && x !in rq ==> c'.state[x] == c.state[x])
    decreases k
  {
    hide Consistent, Schedule, NextRun, Busy, Queues;
    BusyQueues(c, rq, sq);
    if k > 0 {
      var c1 := Schedule(c, rq, sq);
      BusyStep(c, rq, sq);
      ScheduleTouchesOnce(c, rq, sq);
      ScheduleTouches(c1, NextRun(c, rq), sq, k - 1, x);
    }
  }

  /**
    The round-robin bound: the process at position j of the run queue runs after
    exactly j + 1 calls of schedule(), and after none of the calls before.
   */
  lemma RoundRobin(c: Cpu, rq: seq<nat>, sq: seq<nat>, j: nat)
    requires Busy(c, rq, sq) && j < |rq|
    ensures ScheduleTimes(c, rq, sq, j + 1).proc == rq[j]
    ensures forall i: nat :: i <= j ==> ScheduleTimes(c, rq, sq, i).proc != rq[j]
  {
    var full := [c.proc] + rq;
    ScheduleRotates(c, rq, sq, j + 1);
    assert Rotated(full, j + 1)[0] == full[j + 1] == rq[j];
    forall i: nat | i <= j ensures ScheduleTimes(c, rq, sq, i).proc != rq[j] {
      ScheduleRotates(c, rq, sq, i);
      assert Rotated(full, i)[0] == full[i];
      assert i > 0 ==> full[i] == rq[i - 1];
    }
  }

  /** Two consistent CPUs with the same queues have the same links. */
  lemma SameLinks(c: Cpu, c': Cpu, rq: seq<nat>, sq: seq<nat>)
    requires Consistent(c, rq, sq) && Consistent(c', rq, sq) && |c.state| == |c'.state|
    ensures c.links == c'.links
  {
    var n := |c.state|;
    PathAgree(c.links, c'.links, n, rq, n);
    PathAgree(c.links, c'.links, n + 1, sq, n + 1);
    hide Path, Ring;
    forall x: nat | x < n + 2 ensures c.links.next[x] == c'.links.next[x] && c.links.prev[x] == c'.links.prev[x] {
      if x < n && x !in rq && x !in sq { assert Unqueued(c, rq, sq, x) && Unqueued(c', rq, sq, x); }
    }
    assert c.links.next == c'.links.next && c.links.prev == c'.links.prev;
  }

  /** After one more call than there are queued processes, everything is back where it was. */
  lemma FullTurn(c: Cpu, rq: seq<nat>, sq: seq<nat>)
    requires Busy(c, rq, sq)
    ensures ScheduleTimes(c, rq, sq, |rq| + 1) == c
  {
    var c', full := ScheduleTimes(c, rq, sq, |rq| + 1), [c.proc] + rq;
    ScheduleRotates(c, rq, sq, |rq| + 1);
    assert Rotated(full, |rq| + 1) == full && full[1..] == rq;
    ScheduleTouches(c, rq, sq, |rq| + 1, 0);
    SameLinks(c, c', rq, sq);
    hide Queues, ScheduleTimes, Unqueued;
    forall x: nat | x < |c.state| ensures c'.state[x] == c.state[x] {
      ScheduleTouches(c, rq, sq, |rq| + 1, x);
      if x != c.idle { assert Placed(c, rq, sq, x) && Placed(c', rq, sq, x); }
    }
    assert c'.state == c.state;
  }
}
