/**
  Who runs after a trap: a process that gives up the CPU goes to the end of the run
  queue and the first queued process runs, so yields serve everybody in turn; a timer
  interrupt puts the sleepers that are due at the end of the queue and then does the
  same.
 */
module SchedulerTurns {
  import opened Basics
  import opened Rings
  import opened Scheduler
  import opened SchedulerRuns
  import opened SchedulerSleep

  /** sched_yield, exit, or a sleep of no time or of more than a minute. */
  predicate GivesUp(ev: Event) {
    match ev
    case Timer(_) => false
    case Yield => true
    case Exit => true
    case Sleep(ms, _) => ms == 0 || ms > 60000
  }

  lemma GiveUpIsSchedule(c: Cpu, ev: Event, rq: seq<nat>, sq: seq<nat>)
    requires Consistent(c, rq, sq) && c.proc != c.idle && GivesUp(ev) && rq != []
    ensures Trap(c, ev, rq, sq) == Resumed(Schedule(c.(needsSched := false), rq, sq))
  {
    hide Ring, Path, NoDuplicates, Schedule, Placed, Unqueued;
    if ev.Exit? { ExitIsYield(c, rq, sq); }
  }

  /**
    With somebody queued, a process that gives up the CPU is put last and the first
    queued one runs; nothing else changes.
   */
  lemma GiveUpSwitches(c: Cpu, ev: Event, rq: seq<nat>, sq: seq<nat>)
    requires Consistent(c, rq, sq) && c.proc != c.idle && GivesUp(ev) && rq != []
    ensures rq[0] < |c.state| && c.proc < |c.state| && Trap(c, ev, rq, sq).Resumed?
    ensures var c' := Trap(c, ev, rq, sq).cpu;
            && Consistent(c', rq[1..] + [c.proc], sq) && c'.proc == rq[0] && c'.idle == c.idle && !c'.needsSched
            && c'.sleepUntil == c.sleepUntil && c'.state == c.state[rq[0] := Running][c.proc := Runnable]
  {
    var c0 := c.(needsSched := false);
    GiveUpIsSchedule(c, ev, rq, sq);
    WithFlag(c, rq, sq, false);
    ScheduleKeeps(c0, rq, sq);
    hide Ring, Path, NoDuplicates, Placed, Unqueued, Trap;
    assert rq == [rq[0]] + rq[1..] && rq[0] in rq;
    ScheduleQueues(c0, rq[0], rq[1..], sq);
    RingEnds(c.links, RunHead(c), rq);
  }

  /** With nobody queued the idle process runs, and all that changes besides is that an exit leaves a zombie. */
  lemma GiveUpAlone(c: Cpu, ev: Event, sq: seq<nat>)
    requires Consistent(c, [], sq) && c.proc != c.idle && GivesUp(ev)
    ensures c.proc < |c.state|
    ensures Trap(c, ev, [], sq) ==
              Resumed(c.(proc := c.idle, needsSched := false,
                         state := if ev.Exit? then c.state[c.proc := Zombie] else c.state))
  {
    hide Ring, Path, NoDuplicates, Placed, Unqueued;
    RingEnds(c.links, RunHead(c), []);
  }

  /** A timer interrupt that finds sleepers due queues them, and then switches in the same way. */
  lemma TimerSwitches(c: Cpu, t: nat, rq: seq<nat>, sq: seq<nat>)
    requires Consistent(c, rq, sq) && Due(c, t, sq) != []
    ensures var c', q := Trap(c, Timer(t), rq, sq).cpu, rq + Due(c, t, sq);
            && Consistent(c', q[1..] + (if c.proc != c.idle then [c.proc] else []), NotDue(c, t, sq))
            && c'.proc == q[0] && c'.idle == c.idle && !c'.needsSched && c'.sleepUntil == c.sleepUntil
  {
    hide Ring, Path, NoDuplicates, Placed, Unqueued, Wake, Due, NotDue;
    assert [] + sq == sq;
    WakePartitions(c, t, rq, [], sq);
    TimerHandleKeeps(c, t, rq, sq);
    var c1, q, rest := TimerHandle(c, t, rq, sq), rq + Due(c, t, sq), NotDue(c, t, sq);
    assert c1.sleepUntil == c.sleepUntil;
    hide TimerHandle, Schedule;
    WithFlag(c1, q, rest, false);
    var c0 := c1.(needsSched := false);
    ScheduleKeeps(c0, q, rest);
    ScheduleKeepsTimes(c0, q, rest);
    assert q[1..] + [] == q[1..];
  }

  lemma ScheduleKeepsTimes(c: Cpu, rq: seq<nat>, sq: seq<nat>)
    requires Consistent(c, rq, sq)
    ensures var c' := Schedule(c, rq, sq);
            c'.sleepUntil == c.sleepUntil && c'.idle == c.idle && c'.needsSched == c.needsSched
  {
    hide Ring, Path, NoDuplicates, Placed, Unqueued;
  }

  /** An accepted sleep with somebody queued also runs the first of them, and the sleeper reads Runnable. */
  lemma SleepSwitches(c: Cpu, ms: nat, now: nat, rq: seq<nat>, sq: seq<nat>)
    requires Consistent(c, rq, sq) && c.proc != c.idle && 0 < ms <= 60000 && rq != []
    ensures rq[0] < |c.state| && c.proc < |c.state| == |c.sleepUntil| && Trap(c, Sleep(ms, now), rq, sq).Resumed?
    ensures var c' := Trap(c, Sleep(ms, now), rq, sq).cpu;
            && c'.proc == rq[0] && c'.idle == c.idle && !c'.needsSched
            && c'.sleepUntil == c.sleepUntil[c.proc := (now + 10000 * ms) % TIME_LIMIT]
            && c'.state == c.state[rq[0] := Running][c.proc := Runnable]
  {
    hide Ring, Path, NoDuplicates, Placed, Unqueued;
    assert rq[0] in rq;
    AppendToSleep(c, rq, sq, c.proc);
    RingEnds(AddTail(c.links, c.proc, SleepHead(c)), RunHead(c), rq);
  }

  // ----- everybody in turn

  ghost predicate AllGiveUp(evs: seq<Event>) {
    forall i: nat :: i < |evs| ==> GivesUp(evs[i])
  }

  /** What a trap does does not depend on which queue contents are named. */
  lemma NextIsSchedule(c: Cpu, ev: Event, rq: seq<nat>, sq: seq<nat>)
    requires Busy(c, rq, sq) && !c.needsSched && GivesUp(ev)
    ensures NextCpu(c, ev) == Resumed(Schedule(c, rq, sq)) && Sized(c.links, |c.state| + 2) && Safe(c, ev)
  {
    ConsistentRun(c, rq, sq);
    var rq': seq<nat>, sq': seq<nat> :| Consistent(c, rq', sq') && NextCpu(c, ev) == Trap(c, ev, rq', sq');
    hide Trap, Placed, Unqueued, Ring, Sized;
    ConsistentRun(c, rq', sq');
    GiveUpIsSchedule(c, ev, rq', sq');
    assert c.(needsSched := false) == c;
  }

  lemma ConsistentRun(c: Cpu, rq: seq<nat>, sq: seq<nat>)
    requires Consistent(c, rq, sq)
    ensures Sized(c.links, |c.state| + 2) && (RunEmpty(c) <==> rq == [])
  {
    hide Ring, Placed, Unqueued;
    SoundSized(c, rq, sq);
  }

  lemma RestGivesUp(evs: seq<Event>)
    requires evs != [] && AllGiveUp(evs)
    ensures GivesUp(evs[0]) && AllGiveUp(evs[1..])
  {
    hide GivesUp;
    assert forall i: nat :: i < |evs[1..]| ==> evs[1..][i] == evs[i + 1];
  }

  lemma ScheduleFlag(c: Cpu, rq: seq<nat>, sq: seq<nat>)
    requires Busy(c, rq, sq)
    ensures Schedule(c, rq, sq).needsSched == c.needsSched
  {
    ScheduleTouchesOnce(c, rq, sq);
  }

  /** One more trap in front of a run. */
  lemma AfterCons(c: Cpu, d: Cpu, evs: seq<Event>)
    requires Sound(c) && !c.needsSched && evs != [] && NextCpu(c, evs[0]) == Resumed(d) && Sound(d) && !d.needsSched
    requires Sized(c.links, |c.state| + 2) && Safe(c, evs[0])
    requires NeverIdleSyscall(d, evs[1..]) && SafeRun(d, evs[1..])
    ensures NeverIdleSyscall(c, evs) && SafeRun(c, evs) && After(c, evs) == After(d, evs[1..])
  {
    hide Sound, NextCpu, Sized, Safe;
  }

  lemma TimesCons(c: Cpu, rq: seq<nat>, sq: seq<nat>, k: nat)
    requires Busy(c, rq, sq) && k > 0
    ensures Queues(c, rq, sq) && c.proc !in rq && Busy(Schedule(c, rq, sq), NextRun(c, rq), sq)
    ensures ScheduleTimes(c, rq, sq, k) == ScheduleTimes(Schedule(c, rq, sq), NextRun(c, rq), sq, k - 1)
  {
    BusyQueues(c, rq, sq);
    BusyStep(c, rq, sq);
    hide Busy, Schedule, NextRun, Queues;
  }

  lemma BusySound(c: Cpu, rq: seq<nat>, sq: seq<nat>)
    requires Busy(c, rq, sq)
    ensures Sound(c)
  {
    hide Consistent;
  }

  lemma RunNone(c: Cpu)
    requires Sound(c) && !c.needsSched
    ensures NeverIdleSyscall(c, []) && SafeRun(c, []) && After(c, []) == c
  {
    hide Sound;
  }

  /** A run of traps in each of which the current process gives up the CPU is a run of schedule(). */
  lemma {:induction false} TurnsAreSchedules(c: Cpu, rq: seq<nat>, sq: seq<nat>, evs: seq<Event>)
    requires Busy(c, rq, sq) && !c.needsSched && AllGiveUp(evs)
    ensures Sound(c) && NeverIdleSyscall(c, evs) && SafeRun(c, evs)
    ensures After(c, evs) == ScheduleTimes(c, rq, sq, |evs|)
    decreases |evs|
  {
    hide Consistent, Schedule, Sound, Safe, NextRun, Queues, NextCpu, Sized, GivesUp, Busy, NeverIdleSyscall, SafeRun,
         After, AllGiveUp;
    BusySound(c, rq, sq);
    if evs == [] {
      RunNone(c);
    } else {
      RestGivesUp(evs);
      NextIsSchedule(c, evs[0], rq, sq);
      TimesCons(c, rq, sq, |evs|);
      ScheduleFlag(c, rq, sq);
      hide ScheduleTimes;
      var d := Schedule(c, rq, sq);
      TurnsAreSchedules(d, NextRun(c, rq), sq, evs[1..]);
      AfterCons(c, d, evs);
    }
  }

  /**
    Round robin over traps: whatever way the processes give up the CPU, the one at
    position j of the run queue runs after exactly j + 1 traps and after none before,
    and when everybody has had a turn the whole state is the first one again.
   */
  lemma EverybodyInTurn(c: Cpu, rq: seq<nat>, sq: seq<nat>, evs: seq<Event>, j: nat)
    requires Busy(c, rq, sq) && !c.needsSched && AllGiveUp(evs)
    ensures Sound(c) && forall i: nat :: i <= |evs| ==> NeverIdleSyscall(c, evs[..i]) && SafeRun(c, evs[..i])
    ensures j < |rq| && j < |evs| ==>
              && After(c, evs[..j + 1]).proc == rq[j]
              && forall i: nat :: i <= j ==> After(c, evs[..i]).proc != rq[j]
    ensures |evs| == |rq| + 1 ==> After(c, evs[..|evs|]) == c
  {
    hide Busy, NeverIdleSyscall, SafeRun, After, ScheduleTimes, Consistent, GivesUp;
    assert Sound(c) by { TurnsAreSchedules(c, rq, sq, []); }
    hide Sound;
    forall i: nat | i <= |evs|
      ensures NeverIdleSyscall(c, evs[..i]) && SafeRun(c, evs[..i])
      ensures After(c, evs[..i]) == ScheduleTimes(c, rq, sq, i)
    {
      TurnsAreSchedules(c, rq, sq, evs[..i]);
    }
    if j < |rq| && j < |evs| { RoundRobin(c, rq, sq, j); }
    if |evs| == |rq| + 1 { FullTurn(c, rq, sq); }
  }
}
