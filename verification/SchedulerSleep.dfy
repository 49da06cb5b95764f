/**
  Sleeping over whole runs: whatever traps arrive in between, a sleeper stays in
  the sleep queue until the first timer interrupt at or after its wake-up time; and
  a timer interrupt does nothing else, so it does not preempt.
 */
module SchedulerSleep {
  import opened Basics
  import opened Rings
  import opened Scheduler
  import opened SchedulerRuns

  /** Process p sleeps until `wake`. */
  predicate Asleep(c: Cpu, p: nat, wake: nat) {
    p < |c.state| && p < |c.sleepUntil| && p != c.idle && c.state[p] == Sleeping && c.sleepUntil[p] == wake
  }

  /** A trap that is no timer interrupt at or after `wake`. */
  predicate Early(ev: Event, wake: nat) {
    ev.Timer? ==> ev.now < wake
  }

  // ----- one trap

  /** schedule() touches only the current process and the first queued one. */
  lemma ScheduleLeaves(c: Cpu, rq: seq<nat>, sq: seq<nat>, p: nat)
    requires Queues(c, rq, sq) && (c.proc != c.idle ==> c.proc !in rq) && p < |c.state| && p != c.proc && p !in rq
    ensures var c' := Schedule(c, rq, sq);
            |c'.state| == |c.state| && c'.state[p] == c.state[p] && c'.sleepUntil == c.sleepUntil && c'.idle == c.idle
  {
    hide Ring, Path, NoDuplicates;
    RingEnds(c.links, RunHead(c), rq);
    if rq != [] {
      assert rq == [rq[0]] + rq[1..];
      TakeFromRun(c, rq[0], rq[1..], sq);
    }
  }

  lemma SleeperPlace(c: Cpu, rq: seq<nat>, sq: seq<nat>, p: nat, wake: nat)
    requires Consistent(c, rq, sq) && Asleep(c, p, wake)
    ensures p in sq && p !in rq && p != c.proc && Queues(c, rq, sq) && c.proc !in rq && c.proc !in sq
    ensures c.proc < |c.state| && |c.sleepUntil| == |c.state|
  {
    hide Ring, Path, NoDuplicates, Unqueued;
    assert Placed(c, rq, sq, p);
  }

  /** timer_handle() before the wake-up time. */
  lemma TimerLeaves(c: Cpu, t: nat, rq: seq<nat>, sq: seq<nat>, p: nat, wake: nat)
    requires Consistent(c, rq, sq) && Asleep(c, p, wake)
    ensures var c' := TimerHandle(c, t, rq, sq);
            && Consistent(c', rq + Due(c, t, sq), NotDue(c, t, sq)) && c'.proc == c.proc && c'.idle == c.idle
            && c'.sleepUntil == c.sleepUntil && |c'.state| == |c.state|
            && (c'.needsSched <==> c.needsSched || Due(c, t, sq) != [])
            && (t < wake ==> Asleep(c', p, wake))
            && (t >= wake ==> p in rq + Due(c, t, sq) && p != c'.idle)
  {
    SleeperPlace(c, rq, sq, p, wake);
    assert [] + sq == sq;
    WakePartitions(c, t, rq, [], sq);
    TimerHandleKeeps(c, t, rq, sq);
    DueMembers(c, t, sq);
    var c' := TimerHandle(c, t, rq, sq);
    assert c'.sleepUntil == c.sleepUntil && |c'.state| == |c.state|;
    hide Queues, Due, NotDue, TimerHandle, Unqueued;
    assert Placed(c', rq + Due(c, t, sq), NotDue(c, t, sq), p);
  }

  lemma TimerStaysAsleep(c: Cpu, t: nat, rq: seq<nat>, sq: seq<nat>, p: nat, wake: nat)
    requires Consistent(c, rq, sq) && Asleep(c, p, wake) && t < wake
    ensures Asleep(Trap(c, Timer(t), rq, sq).cpu, p, wake)
  {
    hide Ring, Path, NoDuplicates, TimerHandle, Due, NotDue;
    TimerLeaves(c, t, rq, sq, p, wake);
    var c1, rq1, sq1 := TimerHandle(c, t, rq, sq), rq + Due(c, t, sq), NotDue(c, t, sq);
    SleeperPlace(c1, rq1, sq1, p, wake);
    if c1.needsSched {
      WithFlag(c1, rq1, sq1, false);
      hide Consistent, Schedule;
      ScheduleLeaves(c1.(needsSched := false), rq1, sq1, p);
    }
  }

  /** The tail of any other trap, with whatever became of the current process. */
  lemma TailLeaves(c1: Cpu, rq: seq<nat>, sq: seq<nat>, p: nat, wake: nat)
    requires Queues(c1, rq, sq) && (c1.proc != c1.idle ==> c1.proc !in rq)
    requires p != c1.proc && p !in rq && Asleep(c1, p, wake)
    ensures Asleep(Tail(c1, rq, sq), p, wake)
  {
    if c1.needsSched {
      hide Schedule, Ring;
      assert Queues(c1.(needsSched := false), rq, sq);
      hide Queues;
      ScheduleLeaves(c1.(needsSched := false), rq, sq, p);
    }
  }

  /** Any trap but a late timer interrupt leaves the sleeper asleep. */
  lemma StaysAsleep(c: Cpu, ev: Event, rq: seq<nat>, sq: seq<nat>, p: nat, wake: nat)
    requires Consistent(c, rq, sq) && Trap(c, ev, rq, sq).Resumed? && Asleep(c, p, wake) && Early(ev, wake)
    ensures Asleep(Trap(c, ev, rq, sq).cpu, p, wake)
  {
    SleeperPlace(c, rq, sq, p, wake);
    hide Ring, Path, NoDuplicates, Schedule, TimerHandle, Tail;
    match ev
    case Timer(t) => TimerStaysAsleep(c, t, rq, sq, p, wake);
    case Yield => TailLeaves(c.(needsSched := true), rq, sq, p, wake);
    case Exit => TailLeaves(c.(state := c.state[c.proc := Zombie], needsSched := true), rq, sq, p, wake);
    case Sleep(ms, now) =>
      if Refused(ms) {
        TailLeaves(c.(needsSched := true), rq, sq, p, wake);
      } else {
        AppendToSleep(c, rq, sq, c.proc);
        var c1 := FallAsleep(c, ms, now, rq, sq).(needsSched := true);
        TailLeaves(c1, rq, sq + [c.proc], p, wake);
      }
  }

  /** A timer interrupt at or after the wake-up time makes it runnable, or runs it at once. */
  lemma Wakes(c: Cpu, t: nat, rq: seq<nat>, sq: seq<nat>, p: nat, wake: nat)
    requires Consistent(c, rq, sq) && Asleep(c, p, wake) && t >= wake
    ensures var c' := Trap(c, Timer(t), rq, sq).cpu;
            p < |c'.state| && (c'.state[p] == Runnable || (c'.state[p] == Running && c'.proc == p))
  {
    hide Ring, Path, NoDuplicates, TimerHandle, Due, NotDue, Queues, Unqueued;
    SleeperPlace(c, rq, sq, p, wake);
    TimerLeaves(c, t, rq, sq, p, wake);
    DueMembers(c, t, sq);
    var c1, rq1, sq1 := TimerHandle(c, t, rq, sq), rq + Due(c, t, sq), NotDue(c, t, sq);
    assert p in Due(c, t, sq);
    WithFlag(c1, rq1, sq1, false);
    var c2 := c1.(needsSched := false);
    ScheduleKeeps(c2, rq1, sq1);
    var c' := Schedule(c2, rq1, sq1);
    hide Schedule;
    assert rq1 == [rq1[0]] + rq1[1..];
    assert p == rq1[0] || p in rq1[1..];
    ScheduleIdle(c2, rq1, sq1);
    assert p < |c'.state| && p != c'.idle;
    assert Placed(c', NextRun(c2, rq1), sq1, p);
  }

  lemma ScheduleIdle(c: Cpu, rq: seq<nat>, sq: seq<nat>)
    requires Queues(c, rq, sq) && (c.proc != c.idle ==> c.proc !in rq)
    ensures Schedule(c, rq, sq).idle == c.idle && |Schedule(c, rq, sq).state| == |c.state|
  {
    hide Ring, Path, NoDuplicates;
    RingEnds(c.links, RunHead(c), rq);
    if rq != [] {
      assert rq == [rq[0]] + rq[1..];
      TakeFromRun(c, rq[0], rq[1..], sq);
    }
  }

  // ----- runs

  /** The CPU after a run of safe traps. */
  ghost function After(c: Cpu, evs: seq<Event>): (c': Cpu)
    requires Sound(c) && !c.needsSched && NeverIdleSyscall(c, evs) && SafeRun(c, evs)
    ensures Sound(c') && !c'.needsSched
    decreases |evs|
  {
    if evs == [] then c
    else
      SafeStep(c, evs[0]);
      After(NextCpu(c, evs[0]).cpu, evs[1..])
  }

  lemma SafeStep(c: Cpu, ev: Event)
    requires Sound(c) && !c.needsSched && NextCpu(c, ev).Resumed? && Sized(c.links, |c.state| + 2) && Safe(c, ev)
    ensures Sound(NextCpu(c, ev).cpu) && !NextCpu(c, ev).cpu.needsSched
  {
    var rq: seq<nat>, sq: seq<nat> :| Consistent(c, rq, sq) && NextCpu(c, ev) == Trap(c, ev, rq, sq);
    hide Consistent, Trap, Safe;
    TrapKeepsExactly(c, ev, rq, sq);
  }

  ghost predicate AllEarly(evs: seq<Event>, wake: nat) {
    forall i: nat :: i < |evs| ==> Early(evs[i], wake)
  }

  lemma {:induction false} SleepsThrough(c: Cpu, evs: seq<Event>, p: nat, wake: nat)
    requires Sound(c) && !c.needsSched && NeverIdleSyscall(c, evs) && SafeRun(c, evs)
    requires Asleep(c, p, wake) && AllEarly(evs, wake)
    ensures Asleep(After(c, evs), p, wake)
    decreases |evs|
  {
    if evs != [] {
      var rq: seq<nat>, sq: seq<nat> :| Consistent(c, rq, sq) && NextCpu(c, evs[0]) == Trap(c, evs[0], rq, sq);
      hide Consistent, Trap, Safe, Asleep;
      SafeStep(c, evs[0]);
      assert Early(evs[0], wake);
      StaysAsleep(c, evs[0], rq, sq, p, wake);
      assert forall i: nat :: i < |evs[1..]| ==> evs[1..][i] == evs[i + 1];
      SleepsThrough(NextCpu(c, evs[0]).cpu, evs[1..], p, wake);
    }
  }

  /**
    After an accepted sleep of ms milliseconds at time `now`: through every run of
    safe traps without a timer interrupt at or after now + 10000 * ms ticks the
    process stays asleep, and the first such interrupt makes it runnable or
    runs it.
   */
  lemma SleepsUntilDue(c: Cpu, ms: nat, now: nat, sq: seq<nat>, evs: seq<Event>, t: nat)
    requires Consistent(c, [], sq) && c.proc != c.idle && 0 < ms <= 60000 && now + 10000 * ms < TIME_LIMIT
    requires var c1 := Trap(c, Sleep(ms, now), [], sq).cpu;
             && Sound(c1) && !c1.needsSched && NeverIdleSyscall(c1, evs) && SafeRun(c1, evs)
             && AllEarly(evs, now + 10000 * ms) && t >= now + 10000 * ms
    ensures var c2 := After(Trap(c, Sleep(ms, now), [], sq).cpu, evs);
            && Asleep(c2, c.proc, now + 10000 * ms)
            && var c3 := NextCpu(c2, Timer(t)).cpu;
               && c.proc < |c3.state|
               && (c3.state[c.proc] == Runnable || (c3.state[c.proc] == Running && c3.proc == c.proc))
  {
    var wake := now + 10000 * ms;
    var c1 := Trap(c, Sleep(ms, now), [], sq).cpu;
    FellAsleep(c, ms, now, sq);
    hide Trap, Consistent, SafeRun, NeverIdleSyscall, Asleep, AllEarly;
    SleepsThrough(c1, evs, c.proc, wake);
    var c2 := After(c1, evs);
    TimerNext(c2, t, c.proc, wake);
  }

  lemma FellAsleep(c: Cpu, ms: nat, now: nat, sq: seq<nat>)
    requires Consistent(c, [], sq) && c.proc != c.idle && 0 < ms <= 60000 && now + 10000 * ms < TIME_LIMIT
    ensures Asleep(Trap(c, Sleep(ms, now), [], sq).cpu, c.proc, now + 10000 * ms)
  {
    SleepTrap(c, ms, now, [], sq);
    var c' := Trap(c, Sleep(ms, now), [], sq).cpu;
    hide Trap, Ring, Path, NoDuplicates, Unqueued, Sound;
    assert c.proc in sq + [c.proc] by { assert (sq + [c.proc])[|sq|] == c.proc; }
    assert Placed(c', [], sq + [c.proc], c.proc);
  }

  lemma TimerNext(c: Cpu, t: nat, p: nat, wake: nat)
    requires Sound(c) && Asleep(c, p, wake) && t >= wake
    ensures NextCpu(c, Timer(t)).Resumed?
    ensures var c' := NextCpu(c, Timer(t)).cpu;
            p < |c'.state| && (c'.state[p] == Runnable || (c'.state[p] == Running && c'.proc == p))
  {
    var rq: seq<nat>, sq: seq<nat> :| Consistent(c, rq, sq) && NextCpu(c, Timer(t)) == Trap(c, Timer(t), rq, sq);
    hide Consistent, TimerHandle, Tail;
    Wakes(c, t, rq, sq, p, wake);
  }

  // ----- the timer does not preempt

  /** No process is asleep past its wake-up time. */
  ghost predicate NobodyDue(c: Cpu, t: nat) {
    forall p: nat :: p < |c.state| && p < |c.sleepUntil| && p != c.idle && c.state[p] == Sleeping ==> !IsDue(c, t, p)
  }

  lemma {:induction false} WakeNobody(c: Cpu, t: nat, rq: seq<nat>, kept: seq<nat>, q: seq<nat>)
    requires Queues(c, rq, kept + q) && forall x :: x in q ==> !IsDue(c, t, x)
    ensures Wake(c, t, rq, kept, q) == c && Due(c, t, q) == [] && NotDue(c, t, q) == q
    decreases |q|
  {
    hide Queues;
    if q != [] {
      assert kept + q == kept + [q[0]] + q[1..];
      WakeNobody(c, t, rq, kept + [q[0]], q[1..]);
    }
  }

  /** Who is due is in the sleep queue. */
  lemma DuePlaces(c: Cpu, t: nat, rq: seq<nat>, sq: seq<nat>)
    requires Consistent(c, rq, sq)
    ensures NobodyDue(c, t) <==> forall x :: x in sq ==> !IsDue(c, t, x)
  {
    hide Ring, Path, NoDuplicates, Unqueued;
    forall p: nat | p < |c.state| && p != c.idle ensures p in sq <==> c.state[p] == Sleeping {
      assert Placed(c, rq, sq, p);
    }
  }

  /**
    A timer interrupt takes the CPU away exactly when a sleeper is due. Otherwise
    it changes nothing, however many processes are queued.
   */
  lemma TimerSwitchesExactly(c: Cpu, t: nat, rq: seq<nat>, sq: seq<nat>)
    requires Consistent(c, rq, sq) && !c.needsSched
    ensures NobodyDue(c, t) ==> Trap(c, Timer(t), rq, sq) == Resumed(c)
    ensures !NobodyDue(c, t) ==> Trap(c, Timer(t), rq, sq).cpu.proc != c.proc
  {
    DuePlaces(c, t, rq, sq);
    assert [] + sq == sq;
    hide Ring, Path, NoDuplicates, Unqueued, NobodyDue;
    TimerHandleKeeps(c, t, rq, sq);
    if NobodyDue(c, t) {
      WakeNobody(c, t, rq, [], sq);
    } else {
      DueMembers(c, t, sq);
      var c1, rq1, sq1 := TimerHandle(c, t, rq, sq), rq + Due(c, t, sq), NotDue(c, t, sq);
      hide TimerHandle, Due, NotDue, Schedule;
      WithFlag(c1, rq1, sq1, false);
      ScheduleKeeps(c1.(needsSched := false), rq1, sq1);
      assert rq1[0] in rq1;
    }
  }

  /** Only timer interrupts, none of them late for any sleeper of c. */
  ghost predicate Quiet(c: Cpu, evs: seq<Event>) {
    forall i: nat :: i < |evs| ==> evs[i].Timer? && NobodyDue(c, evs[i].now)
  }

  lemma QuietStep(c: Cpu, t: nat)
    requires Sound(c) && !c.needsSched && NobodyDue(c, t)
    ensures NextCpu(c, Timer(t)) == Resumed(c) && Sized(c.links, |c.state| + 2)
  {
    var rq: seq<nat>, sq: seq<nat> :| Consistent(c, rq, sq) && NextCpu(c, Timer(t)) == Trap(c, Timer(t), rq, sq);
    TimerSwitchesExactly(c, t, rq, sq);
  }

  /**
    So whoever runs keeps the CPU through every run of such interrupts, and no
    queued process gets a turn.
   */
  lemma {:induction false} NoPreemption(c: Cpu, evs: seq<Event>)
    requires Sound(c) && !c.needsSched && Quiet(c, evs)
    ensures NeverIdleSyscall(c, evs) && SafeRun(c, evs) && After(c, evs) == c
    decreases |evs|
  {
    hide Sound, NobodyDue;
    if evs != [] {
      assert evs[0] == Timer(evs[0].now);
      QuietStep(c, evs[0].now);
      assert forall i: nat :: i < |evs[1..]| ==> evs[1..][i] == evs[i + 1];
      NoPreemption(c, evs[1..]);
    }
  }
}
