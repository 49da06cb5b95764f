/**
  One CPU's scheduling state and its traps: kernel/sched.c, the wake loop of
  kernel/timer.h, sys_sleep_ms and the dispatch in kernel/trap/trap.c.

  Process p owns list node p; the heads of the run queue and the sleep queue
  are the two nodes after the processes. The context switch, the trap vector
  and the page table register are not part of the state.
 */
module Scheduler {
  import opened Basics
  import opened Rings

  datatype ProcState = Unused | Sleeping | Runnable | Running | Zombie

  datatype Cpu = Cpu(
    links: Links,
    state: seq<ProcState>,
    sleepUntil: seq<nat>,
    proc: nat,               // the current process
    idle: nat,               // this CPU's idle process
    needsSched: bool
  )

  const MAX_SLEEP_MS: nat := 60 * 1000
  const TICKS_PER_MS: nat := 10_000_000 / 1000
  const TIME_LIMIT: nat := 0x1_0000_0000_0000_0000

  function RunHead(c: Cpu): nat { |c.state| }
  function SleepHead(c: Cpu): nat { |c.state| + 1 }

  /** The two rings hold rq and sq, processes all of them and none twice. */
  ghost predicate Queues(c: Cpu, rq: seq<nat>, sq: seq<nat>) {
    match c
    case Cpu(links, state, sleepUntil, proc, idle, _) =>
      && |sleepUntil| == |state| && Sized(links, |state| + 2) && proc < |state| && idle < |state|
      && Ring(links, |state|, rq) && Ring(links, |state| + 1, sq)
      && (forall x :: x in rq ==> x < |state|) && (forall x :: x in sq ==> x < |state|)
      && (forall x :: x in rq ==> x !in sq)
  }

  /** Each live process is current or in exactly the queue that matches its state. */
  ghost predicate Placed(c: Cpu, rq: seq<nat>, sq: seq<nat>, p: nat)
    requires p < |c.state|
  {
    && (p in rq <==> c.state[p] == Runnable)
    && (p in sq <==> c.state[p] == Sleeping)
    && (c.state[p] == Running <==> p == c.proc)
  }

  ghost predicate Unqueued(c: Cpu, rq: seq<nat>, sq: seq<nat>, p: nat)
    requires p < |c.links.next| && p < |c.links.prev|
  {
    p !in rq && p !in sq ==> c.links.next[p] == NIL && c.links.prev[p] == NIL
  }

  /** The queue invariant. The idle process is never queued; an unqueued node has null links. */
  ghost predicate Consistent(c: Cpu, rq: seq<nat>, sq: seq<nat>) {
    match c
    case Cpu(links, state, _, proc, idle, _) =>
      && Queues(c, rq, sq)
      && proc !in rq && proc !in sq && idle !in rq && idle !in sq
      && (forall p: nat :: p < |state| && p != idle ==> Placed(c, rq, sq, p))
      && (forall p: nat :: p < |state| ==> Unqueued(c, rq, sq, p))
  }

  ghost predicate Sound(c: Cpu) {
    exists rq: seq<nat>, sq: seq<nat> :: Consistent(c, rq, sq)
  }

  // ----- moving nodes between the queues

  lemma AppendToRun(c: Cpu, rq: seq<nat>, sq: seq<nat>, p: nat)
    requires Queues(c, rq, sq) && p < |c.state| && p !in rq && p !in sq
    ensures RunHead(c) < |c.links.next| && 0 <= c.links.prev[RunHead(c)] < |c.links.next|
    ensures Queues(c.(links := AddTail(c.links, p, RunHead(c))), rq + [p], sq)
  {
    hide Ring, Path, NoDuplicates;
    AddTailRing(c.links, p, RunHead(c), rq);
    AddTailFrame(c.links, p, RunHead(c), rq, SleepHead(c), sq);
  }

  lemma AppendToSleep(c: Cpu, rq: seq<nat>, sq: seq<nat>, p: nat)
    requires Queues(c, rq, sq) && p < |c.state| && p !in rq && p !in sq
    ensures SleepHead(c) < |c.links.next| && 0 <= c.links.prev[SleepHead(c)] < |c.links.next|
    ensures Queues(c.(links := AddTail(c.links, p, SleepHead(c))), rq, sq + [p])
  {
    hide Ring, Path, NoDuplicates;
    AddTailRing(c.links, p, SleepHead(c), sq);
    AddTailFrame(c.links, p, SleepHead(c), sq, RunHead(c), rq);
  }

  lemma TakeFromRun(c: Cpu, p: nat, rest: seq<nat>, sq: seq<nat>)
    requires Queues(c, [p] + rest, sq)
    ensures p < |c.state| && 0 <= c.links.next[p] < |c.links.next| && 0 <= c.links.prev[p] < |c.links.next|
    ensures Queues(c.(links := Del(c.links, p)), rest, sq) && p !in rest && p !in sq
    ensures c.links.next[RunHead(c)] == p
  {
    hide Ring, Path, NoDuplicates;
    assert [] + [p] + rest == [p] + rest && [] + rest == rest && ([p] + rest)[0] == p;
    RingOnce(c.links, RunHead(c), [], p, rest);
    RingEnds(c.links, RunHead(c), [p] + rest);
    DelRing(c.links, RunHead(c), [], p, rest);
    DelFrame(c.links, RunHead(c), [], p, rest, SleepHead(c), sq);
    assert p in [p] + rest;
    assert forall x :: x in rest ==> x in [p] + rest;
  }

  lemma TakeFromSleep(c: Cpu, rq: seq<nat>, a: seq<nat>, p: nat, b: seq<nat>)
    requires Queues(c, rq, a + [p] + b)
    ensures p < |c.state| && 0 <= c.links.next[p] < |c.links.next| && 0 <= c.links.prev[p] < |c.links.next|
    ensures Queues(c.(links := Del(c.links, p)), rq, a + b) && p !in rq && p !in a + b
  {
    hide Ring, Path, NoDuplicates;
    RingOnce(c.links, SleepHead(c), a, p, b);
    var sq := a + [p] + b;
    DelRing(c.links, SleepHead(c), a, p, b);
    DelFrame(c.links, SleepHead(c), a, p, b, RunHead(c), rq);
    assert sq[|a|] == p;
    assert forall i :: 0 <= i < |a + b| ==> (a + b)[i] == sq[if i < |a| then i else i + 1];
    assert forall x :: x in a + b ==> x in sq;
  }

  // ----- schedule

  /** schedule(): switch to the first queued process, requeueing the old one, or to idle. */
  function Schedule(c: Cpu, ghost rq: seq<nat>, ghost sq: seq<nat>): Cpu
    requires Queues(c, rq, sq) && (c.proc != c.idle ==> c.proc !in rq)
  {
    RingEnds(c.links, RunHead(c), rq);
    var node := c.links.next[RunHead(c)];
    if node != RunHead(c) then
      assert rq == [rq[0]] + rq[1..];
      TakeFromRun(c, rq[0], rq[1..], sq);
      var c1 := c.(links := Del(c.links, node), state := c.state[node := Running]);
      if c.proc != c.idle then
        RingEnds(c1.links, RunHead(c1), rq[1..]);
        c1.(links := AddTail(c1.links, c.proc, RunHead(c)), state := c1.state[c.proc := Runnable], proc := node)
      else c1.(proc := node)
    else if c.proc != c.idle then c.(proc := c.idle)
    else c
  }

  /** The run queue after schedule(). */
  function NextRun(c: Cpu, rq: seq<nat>): seq<nat>
  {
    if rq == [] then [] else if c.proc != c.idle then rq[1..] + [c.proc] else rq[1..]
  }

  /** schedule() with first queued process p: p leaves the run queue, the old process joins its end. */
  lemma ScheduleQueues(c: Cpu, p: nat, rest: seq<nat>, sq: seq<nat>)
    requires Queues(c, [p] + rest, sq) && c.proc !in [p] + rest && c.proc !in sq
    ensures var c' := Schedule(c, [p] + rest, sq);
            && Queues(c', NextRun(c, [p] + rest), sq) && c'.proc == p && c'.idle == c.idle
            && c'.state == if c.proc != c.idle then c.state[p := Running][c.proc := Runnable] else c.state[p := Running]
  {
    hide Ring, Path, NoDuplicates;
    var rq := [p] + rest;
    assert rq[0] == p && rq[1..] == rest;
    RingEnds(c.links, RunHead(c), rq);
    TakeFromRun(c, p, rest, sq);
    var c1 := c.(links := Del(c.links, p), state := c.state[p := Running]);
    assert Queues(c1, rest, sq);
    if c.proc != c.idle {
      assert forall x :: x in rest ==> x in rq;
      AppendToRun(c1, rest, sq, c.proc);
      assert forall x :: x in rest + [c.proc] <==> x in rest || x == c.proc;
    }
  }

  /** schedule() clears the links of the process it picks and touches no unqueued node but the old process. */
  lemma ScheduleUnqueued(c: Cpu, p: nat, rest: seq<nat>, sq: seq<nat>, x: nat)
    requires Queues(c, [p] + rest, sq) && c.proc !in [p] + rest && c.proc !in sq && x < |c.state|
    requires Unqueued(c, [p] + rest, sq, x)
    ensures var c' := Schedule(c, [p] + rest, sq);
            x < |c'.links.next| && x < |c'.links.prev| && Unqueued(c', NextRun(c, [p] + rest), sq, x)
  {
    hide Ring, Path, NoDuplicates;
    var rq := [p] + rest;
    assert rq[0] == p && rq[1..] == rest && rq == [] + [p] + rest;
    assert forall z :: z in rq <==> z == p || z in rest;
    RingEnds(c.links, RunHead(c), rq);
    TakeFromRun(c, p, rest, sq);
    var c1 := c.(links := Del(c.links, p), state := c.state[p := Running]);
    ScheduleQueues(c, p, rest, sq);
    if x !in NextRun(c, rq) && x !in sq {
      if x != p { DelElsewhere(c.links, RunHead(c), [], p, rest, x); }
      if c.proc != c.idle {
        assert x !in rest && x != c.proc;
        AddTailElsewhere(c1.links, c.proc, RunHead(c), rest, x);
      }
    }
  }

  /** With a process to switch to, schedule() keeps the queue invariant. */
  lemma ScheduleKeeps(c: Cpu, rq: seq<nat>, sq: seq<nat>)
    requires Consistent(c, rq, sq) && rq != []
    ensures Consistent(Schedule(c, rq, sq), NextRun(c, rq), sq) && Schedule(c, rq, sq).proc == rq[0]
  {
    var p, rest := rq[0], rq[1..];
    assert rq == [p] + rest;
    ScheduleQueues(c, p, rest, sq);
    var c', rq' := Schedule(c, rq, sq), NextRun(c, rq);
    forall x: nat | x < |c'.state| ensures Unqueued(c', rq', sq, x) {
      assert Unqueued(c, rq, sq, x);
      ScheduleUnqueued(c, p, rest, sq, x);
    }
    hide Queues, Unqueued, Schedule;
    assert forall x :: x in rq <==> x == p || x in rest;
    assert forall x :: x in rest + [c.proc] <==> x in rest || x == c.proc;
    forall x: nat | x < |c'.state| && x != c'.idle ensures Placed(c', rq', sq, x) {
      assert Placed(c, rq, sq, x);
    }
  }

  // ----- timer_handle

  predicate IsDue(c: Cpu, now: nat, p: nat) {
    p < |c.sleepUntil| && now >= c.sleepUntil[p]
  }

  /** The processes of q whose time has come, in order. */
  function Due(c: Cpu, now: nat, q: seq<nat>): seq<nat> {
    if q == [] then [] else if IsDue(c, now, q[0]) then [q[0]] + Due(c, now, q[1..]) else Due(c, now, q[1..])
  }

  /** The processes of q still to sleep, in order. */
  function NotDue(c: Cpu, now: nat, q: seq<nat>): seq<nat> {
    if q == [] then [] else if IsDue(c, now, q[0]) then NotDue(c, now, q[1..]) else [q[0]] + NotDue(c, now, q[1..])
  }

  /** Move a process from the sleep queue, where it stands between a and b, to the run queue. */
  function WakeOne(c: Cpu, p: nat, ghost rq: seq<nat>, ghost a: seq<nat>, ghost b: seq<nat>): Cpu
    requires Queues(c, rq, a + [p] + b)
  {
    TakeFromSleep(c, rq, a, p, b);
    var links := Del(c.links, p);
    RingEnds(links, RunHead(c), rq);
    c.(links := AddTail(links, p, RunHead(c)), state := c.state[p := Runnable])
  }

  lemma WakeOneQueues(c: Cpu, p: nat, rq: seq<nat>, a: seq<nat>, b: seq<nat>)
    requires Queues(c, rq, a + [p] + b)
    ensures Queues(WakeOne(c, p, rq, a, b), rq + [p], a + b)
  {
    hide Ring, Path, NoDuplicates;
    TakeFromSleep(c, rq, a, p, b);
    var c1 := c.(links := Del(c.links, p));
    AppendToRun(c1, rq, a + b, p);
  }

  /** The wake loop over the rest q of the sleep queue; `kept` has been passed over. */
  function Wake(c: Cpu, now: nat, ghost rq: seq<nat>, ghost kept: seq<nat>, q: seq<nat>): Cpu
    requires Queues(c, rq, kept + q)
    decreases |q|
  {
    if q == [] then c
    else
      assert kept + q == kept + [q[0]] + q[1..];
      if IsDue(c, now, q[0]) then
        WakeOneQueues(c, q[0], rq, kept, q[1..]);
        Wake(WakeOne(c, q[0], rq, kept, q[1..]), now, rq + [q[0]], kept, q[1..])
      else Wake(c, now, rq, kept + [q[0]], q[1..])
  }

  /** timer_handle */
  function TimerHandle(c: Cpu, now: nat, ghost rq: seq<nat>, sq: seq<nat>): Cpu
    requires Queues(c, rq, sq)
  {
    assert [] + sq == sq;
    var c1 := Wake(c, now, rq, [], sq);
    if Due(c, now, sq) != [] then c1.(needsSched := true) else c1
  }

  lemma {:induction false} DueMembers(c: Cpu, now: nat, q: seq<nat>)
    ensures forall x :: x in Due(c, now, q) <==> x in q && IsDue(c, now, x)
    ensures forall x :: x in NotDue(c, now, q) <==> x in q && !IsDue(c, now, x)
    decreases |q|
  {
    if q != [] {
      DueMembers(c, now, q[1..]);
      assert forall x :: x in q <==> x == q[0] || x in q[1..];
    }
  }

  lemma {:induction false} DueSame(c: Cpu, c': Cpu, now: nat, q: seq<nat>)
    requires c'.sleepUntil == c.sleepUntil
    ensures Due(c', now, q) == Due(c, now, q) && NotDue(c', now, q) == NotDue(c, now, q)
    decreases |q|
  {
    if q != [] { DueSame(c, c', now, q[1..]); }
  }

  /** The wake loop is a stable partition of the sleep queue. */
  lemma {:induction false} WakePartitions(c: Cpu, now: nat, rq: seq<nat>, kept: seq<nat>, q: seq<nat>)
    requires Queues(c, rq, kept + q)
    ensures var c' := Wake(c, now, rq, kept, q);
            && Queues(c', rq + Due(c, now, q), kept + NotDue(c, now, q))
            && c'.proc == c.proc && c'.idle == c.idle && c'.sleepUntil == c.sleepUntil
            && c'.needsSched == c.needsSched && |c'.state| == |c.state|
    decreases |q|
  {
    if q == [] {
      assert rq + [] == rq && kept + [] == kept;
    } else {
      var p, b := q[0], q[1..];
      assert kept + q == kept + [p] + b && q == [p] + b;
      hide Queues, Ring, Path, IsDue;
      if IsDue(c, now, p) {
        WakeOneQueues(c, p, rq, kept, b);
        var c1 := WakeOne(c, p, rq, kept, b);
        WakePartitions(c1, now, rq + [p], kept, b);
        DueSame(c, c1, now, b);
        assert rq + [p] + Due(c, now, b) == rq + Due(c, now, q);
      } else {
        WakePartitions(c, now, rq, kept + [p], b);
        assert kept + [p] + NotDue(c, now, b) == kept + NotDue(c, now, q);
      }
    }
  }

  /** Exactly the due processes become runnable; nobody else's state changes. */
  lemma {:induction false} WakeStates(c: Cpu, now: nat, rq: seq<nat>, kept: seq<nat>, q: seq<nat>)
    requires Queues(c, rq, kept + q)
    ensures var c' := Wake(c, now, rq, kept, q);
            && |c'.state| == |c.state|
            && forall x: nat :: x < |c.state| ==>
                 c'.state[x] == if x in q && IsDue(c, now, x) then Runnable else c.state[x]
    decreases |q|
  {
    if q != [] {
      var p, b := q[0], q[1..];
      assert kept + q == kept + [p] + b;
      assert forall x :: x in q <==> x == p || x in b;
      hide Queues, Ring, Path;
      if IsDue(c, now, p) {
        WakeOneQueues(c, p, rq, kept, b);
        WakeStates(WakeOne(c, p, rq, kept, b), now, rq + [p], kept, b);
      } else {
        WakeStates(c, now, rq, kept + [p], b);
      }
    }
  }

  lemma {:induction false} WakeUnqueued(c: Cpu, now: nat, rq: seq<nat>, kept: seq<nat>, q: seq<nat>, x: nat)
    requires Queues(c, rq, kept + q) && x < |c.state| && x !in rq && x !in kept + q
    ensures var c' := Wake(c, now, rq, kept, q);
            && x < |c'.links.next| && x < |c'.links.prev| && x < |c.links.next| && x < |c.links.prev|
            && c'.links.next[x] == c.links.next[x] && c'.links.prev[x] == c.links.prev[x]
    decreases |q|
  {
    if q != [] {
      var p, b := q[0], q[1..];
      assert kept + q == kept + [p] + b;
      assert p in kept + q && forall z :: z in kept + b ==> z in kept + q;
      hide Ring, Path, NoDuplicates;
      if IsDue(c, now, p) {
        TakeFromSleep(c, rq, kept, p, b);
        var c0 := c.(links := Del(c.links, p));
        DelElsewhere(c.links, SleepHead(c), kept, p, b, x);
        AddTailElsewhere(c0.links, p, RunHead(c), rq, x);
        WakeOneQueues(c, p, rq, kept, b);
        WakeUnqueued(WakeOne(c, p, rq, kept, b), now, rq + [p], kept, b, x);
      } else {
        WakeUnqueued(c, now, rq, kept + [p], b, x);
      }
    }
  }

  /**
    timer_handle keeps the queue invariant: the sleep queue keeps exactly the
    processes not yet due, in order, the run queue gains the due ones, in order,
    and needs_sched is set exactly if it was set or somebody woke.
   */
  lemma TimerHandleKeeps(c: Cpu, now: nat, rq: seq<nat>, sq: seq<nat>)
    requires Consistent(c, rq, sq)
    ensures var c' := TimerHandle(c, now, rq, sq);
            && Consistent(c', rq + Due(c, now, sq), NotDue(c, now, sq))
            && c'.proc == c.proc && c'.idle == c.idle
            && (c'.needsSched <==> c.needsSched || Due(c, now, sq) != [])
  {
    hide Ring, Path, NoDuplicates, Wake, Due, NotDue, IsDue;
    assert [] + sq == sq;
    WakePartitions(c, now, rq, [], sq);
    WakeStates(c, now, rq, [], sq);
    DueMembers(c, now, sq);
    var c', rq', sq' := TimerHandle(c, now, rq, sq), rq + Due(c, now, sq), NotDue(c, now, sq);
    assert [] + sq' == sq';
    assert Queues(c', rq', sq');
    assert forall x :: x in rq' <==> x in rq || x in Due(c, now, sq);
    forall x: nat | x < |c'.state| ensures Unqueued(c', rq', sq', x) {
      assert Unqueued(c, rq, sq, x);
      if x !in rq && x !in sq { WakeUnqueued(c, now, rq, [], sq, x); }
    }
    forall x: nat | x < |c'.state| && x != c'.idle ensures Placed(c', rq', sq', x) {
      assert Placed(c, rq, sq, x);
    }
  }

  // ----- traps

  datatype Event = Timer(now: nat) | Yield | Exit | Sleep(ms: nat, now: nat)

  /** Stuck: a trap on the idle process that is not the timer halts the CPU. */
  datatype TrapOutcome = Stuck | Resumed(cpu: Cpu)

  predicate Refused(ms: nat) {
    ms == 0 || ms > MAX_SLEEP_MS
  }

  /** sys_sleep_ms, for an accepted time. */
  function FallAsleep(c: Cpu, ms: nat, now: nat, ghost rq: seq<nat>, ghost sq: seq<nat>): Cpu
    requires Queues(c, rq, sq)
  {
    RingEnds(c.links, SleepHead(c), sq);
    c.(links := AddTail(c.links, c.proc, SleepHead(c)),
       state := c.state[c.proc := Sleeping],
       sleepUntil := c.sleepUntil[c.proc := (now + ms * TICKS_PER_MS) % TIME_LIMIT])
  }

  /** The needs_sched tail of trap_handler. */
  function Tail(c: Cpu, ghost rq: seq<nat>, ghost sq: seq<nat>): Cpu
    requires Queues(c, rq, sq) && (c.proc != c.idle ==> c.proc !in rq)
  {
    if c.needsSched then Schedule(c.(needsSched := false), rq, sq) else c
  }

  /** trap_handler for the events that reach the scheduler. */
  function Trap(c: Cpu, ev: Event, ghost rq: seq<nat>, sq: seq<nat>): TrapOutcome
    requires Consistent(c, rq, sq)
  {
    match ev
    case Timer(now) =>
      TimerHandleKeeps(c, now, rq, sq);
      Resumed(Tail(TimerHandle(c, now, rq, sq), rq + Due(c, now, sq), NotDue(c, now, sq)))
    case Yield =>
      if c.proc == c.idle then Stuck
      else Resumed(Tail(c.(needsSched := true), rq, sq))
    case Exit =>
      if c.proc == c.idle then Stuck
      else Resumed(Tail(c.(state := c.state[c.proc := Zombie], needsSched := true), rq, sq))
    case Sleep(ms, now) =>
      if c.proc == c.idle then Stuck
      else if Refused(ms) then Resumed(Tail(c.(needsSched := true), rq, sq))
      else
        AppendToSleep(c, rq, sq, c.proc);
        Resumed(Tail(FallAsleep(c, ms, now, rq, sq).(needsSched := true), rq, sq + [c.proc]))
  }

  /** What a caller can check before the trap: list_empty on the run queue. */
  predicate RunEmpty(c: Cpu)
    requires Sized(c.links, |c.state| + 2)
  {
    Empty(c.links, RunHead(c))
  }

  /** The traps that keep the queue invariant. */
  predicate Safe(c: Cpu, ev: Event)
    requires Sized(c.links, |c.state| + 2)
  {
    match ev
    case Timer(_) => true
    case Exit => true
    case Yield => !RunEmpty(c)
    case Sleep(ms, _) => if Refused(ms) then !RunEmpty(c) else RunEmpty(c)
  }

  lemma SoundSized(c: Cpu, rq: seq<nat>, sq: seq<nat>)
    requires Queues(c, rq, sq)
    ensures Sized(c.links, |c.state| + 2) && (RunEmpty(c) <==> rq == [])
  {
    RingEnds(c.links, RunHead(c), rq);
  }

  lemma WithFlag(c: Cpu, rq: seq<nat>, sq: seq<nat>, flag: bool)
    requires Consistent(c, rq, sq)
    ensures Consistent(c.(needsSched := flag), rq, sq)
  {
    var c' := c.(needsSched := flag);
    forall p: nat | p < |c.state| && p != c.idle ensures Placed(c', rq, sq, p) { assert Placed(c, rq, sq, p); }
    forall p: nat | p < |c.state| ensures Unqueued(c', rq, sq, p) { assert Unqueued(c, rq, sq, p); }
  }

  lemma TimerTrap(c: Cpu, now: nat, rq: seq<nat>, sq: seq<nat>)
    requires Consistent(c, rq, sq) && !c.needsSched
    ensures var c' := Trap(c, Timer(now), rq, sq).cpu; Sound(c') && !c'.needsSched
  {
    hide Wake, Ring, Path, TimerHandle;
    TimerHandleKeeps(c, now, rq, sq);
    var c1, rq1, sq1 := TimerHandle(c, now, rq, sq), rq + Due(c, now, sq), NotDue(c, now, sq);
    if c1.needsSched {
      WithFlag(c1, rq1, sq1, false);
      ScheduleKeeps(c1.(needsSched := false), rq1, sq1);
    }
  }

  /** Giving up the CPU with nobody queued loses the process: it still reads Running but is not current. */
  lemma YieldTrap(c: Cpu, rq: seq<nat>, sq: seq<nat>)
    requires Consistent(c, rq, sq) && c.proc != c.idle
    ensures var c' := Trap(c, Yield, rq, sq).cpu; !c'.needsSched && (Sound(c') <==> rq != [])
  {
    hide Ring, Path;
    var c1 := c.(needsSched := true);
    WithFlag(c, rq, sq, true);
    WithFlag(c1, rq, sq, false);
    RingEnds(c.links, RunHead(c), rq);
    if rq != [] {
      ScheduleKeeps(c1.(needsSched := false), rq, sq);
    } else {
      var c' := Trap(c, Yield, rq, sq).cpu;
      assert Placed(c, rq, sq, c.proc);
      assert c'.state == c.state && c'.proc == c.idle;
      forall rq': seq<nat>, sq': seq<nat> ensures !Consistent(c', rq', sq') {
        assert c.proc < |c'.state| && !Placed(c', rq', sq', c.proc);
      }
    }
  }

  /** The links after an accepted sleep of `me` with p queued: the last sleeper leads into the run queue. */
  lemma SleepLinks(c: Cpu, ms: nat, now: nat, p: nat, rest: seq<nat>, sq: seq<nat>)
    requires Consistent(c, [p] + rest, sq) && c.proc != c.idle && 0 < ms <= 60000
    ensures Trap(c, Sleep(ms, now), [p] + rest, sq).Resumed?
    ensures var c' := Trap(c, Sleep(ms, now), [p] + rest, sq).cpu;
            && Sized(c'.links, |c'.state| + 2) && c.proc < |c'.state|
            && c'.links.prev[SleepHead(c')] == c.proc && c'.links.next[c.proc] == RunHead(c')
  {
    hide Ring, Path, NoDuplicates, Placed, Unqueued, Schedule, AddTail;
    var rq, me := [p] + rest, c.proc;
    AppendToSleep(c, rq, sq, me);
    var c1 := FallAsleep(c, ms, now, rq, sq).(needsSched := false);
    assert Queues(c1, rq, sq + [me]);
    hide Consistent, Queues;
    SwitchLinks(c1, p, rest, sq + [me]);
    LastOf(SleepHead(c), sq, me);
  }

  lemma LastOf(head: nat, q: seq<nat>, x: nat)
    ensures Last(head, q + [x]) == x
  {
  }

  /**
    schedule() with p queued: the old process is last in the run queue's ring, and the sleep
    queue's head is untouched.
   */
  lemma SwitchLinks(c: Cpu, p: nat, rest: seq<nat>, sq: seq<nat>)
    requires Queues(c, [p] + rest, sq) && c.proc != c.idle && c.proc !in [p] + rest
    ensures var c' := Schedule(c, [p] + rest, sq);
            && Sized(c'.links, |c'.state| + 2) && |c'.state| == |c.state| && c.proc < |c.state|
            && c'.links.next[c.proc] == RunHead(c) && c'.links.prev[SleepHead(c)] == Last(SleepHead(c), sq)
  {
    hide Ring, Path, NoDuplicates;
    var rq := [p] + rest;
    assert rq[0] == p && rq[1..] == rest;
    TakeFromRun(c, p, rest, sq);
    RingEnds(c.links, RunHead(c), rq);
    RingEnds(c.links, SleepHead(c), sq);
    assert [] + [p] + rest == rq;
    assert SleepHead(c) !in rq;
    hide Queues;
    DelElsewhere(c.links, RunHead(c), [], p, rest, SleepHead(c));
    RingEnds(Del(c.links, p), RunHead(c), rest);
  }

  /** No queue contents explain a sleep ring whose last node leads to the run queue's head. */
  lemma BothRings(c: Cpu, me: nat, rq: seq<nat>, sq: seq<nat>)
    requires Sized(c.links, |c.state| + 2) && me < |c.state|
    requires c.links.prev[SleepHead(c)] == me && c.links.next[me] == RunHead(c)
    ensures !Consistent(c, rq, sq)
  {
    hide Ring, Path, NoDuplicates, Placed, Unqueued;
    if Queues(c, rq, sq) { RingEnds(c.links, SleepHead(c), sq); }
  }

  /** After an accepted sleep with somebody queued, one node is linked into both rings at once. */
  lemma SleepCorrupts(c: Cpu, ms: nat, now: nat, p: nat, rest: seq<nat>, sq: seq<nat>)
    requires Consistent(c, [p] + rest, sq) && c.proc != c.idle && 0 < ms <= 60000
    ensures !Sound(Trap(c, Sleep(ms, now), [p] + rest, sq).cpu)
  {
    hide Consistent, Trap;
    SleepLinks(c, ms, now, p, rest, sq);
    var c' := Trap(c, Sleep(ms, now), [p] + rest, sq).cpu;
    forall rq': seq<nat>, sq': seq<nat> ensures !Consistent(c', rq', sq') { BothRings(c', c.proc, rq', sq'); }
  }

  lemma SleepTrap(c: Cpu, ms: nat, now: nat, rq: seq<nat>, sq: seq<nat>)
    requires Consistent(c, rq, sq) && c.proc != c.idle && 0 < ms <= 60000
    ensures var c' := Trap(c, Sleep(ms, now), rq, sq).cpu;
            && !c'.needsSched && (Sound(c') <==> rq == [])
            && (rq == [] ==>
                  && Consistent(c', rq, sq + [c.proc]) && c'.proc == c.idle && c'.idle == c.idle
                  && c'.sleepUntil == c.sleepUntil[c.proc := (now + 10000 * ms) % TIME_LIMIT])
  {
    SleepFlag(c, ms, now, rq, sq);
    hide Consistent, Trap;
    if rq != [] {
      assert rq == [rq[0]] + rq[1..];
      SleepCorrupts(c, ms, now, rq[0], rq[1..], sq);
    } else {
      SleepAlone(c, ms, now, sq);
    }
  }

  lemma SleepFlag(c: Cpu, ms: nat, now: nat, rq: seq<nat>, sq: seq<nat>)
    requires Consistent(c, rq, sq) && c.proc != c.idle && 0 < ms <= 60000
    ensures Trap(c, Sleep(ms, now), rq, sq).Resumed? && !Trap(c, Sleep(ms, now), rq, sq).cpu.needsSched
  {
    hide Ring, Path, NoDuplicates, Placed, Unqueued, AddTail, Del;
  }

  /** An accepted sleep with nobody queued: the idle process runs, and the sleeper is last in the sleep queue. */
  lemma SleepAlone(c: Cpu, ms: nat, now: nat, sq: seq<nat>)
    requires Consistent(c, [], sq) && c.proc != c.idle && 0 < ms <= 60000
    ensures Trap(c, Sleep(ms, now), [], sq).Resumed?
    ensures var c' := Trap(c, Sleep(ms, now), [], sq).cpu;
            && Consistent(c', [], sq + [c.proc]) && c'.proc == c.idle && c'.idle == c.idle
            && c'.sleepUntil == c.sleepUntil[c.proc := (now + 10000 * ms) % TIME_LIMIT]
  {
    hide Ring, Path, NoDuplicates;
    var me, sq' := c.proc, sq + [c.proc];
    AppendToSleep(c, [], sq, me);
    RingEnds(c.links, RunHead(c), []);
    var c' := Trap(c, Sleep(ms, now), [], sq).cpu;
    RingEnds(AddTail(c.links, me, SleepHead(c)), RunHead(c), []);
    assert c'.proc == c.idle && Queues(c', [], sq');
    forall x: nat | x < |c'.state| ensures Unqueued(c', [], sq', x) {
      assert Unqueued(c, [], sq, x);
      if x != me && x !in sq { AddTailElsewhere(c.links, me, SleepHead(c), sq, x); }
    }
    forall x: nat | x < |c'.state| && x != c'.idle ensures Placed(c', [], sq', x) { assert Placed(c, [], sq, x); }
  }

  /** Exit keeps the queues well formed, but the process is gone only if nobody was queued. */
  lemma ExitTrap(c: Cpu, rq: seq<nat>, sq: seq<nat>)
    requires Consistent(c, rq, sq) && c.proc != c.idle
    ensures var c' := Trap(c, Exit, rq, sq).cpu;
            && !c'.needsSched && Sound(c') && c.proc < |c'.state| && Sized(c'.links, |c'.state| + 2)
            && (c'.state[c.proc] == Zombie <==> rq == [])
            && (!InQueue(c'.links, c.proc) <==> rq == [])
  {
    hide Ring, Path, NoDuplicates;
    var me := c.proc;
    assert Placed(c, rq, sq, me) && Unqueued(c, rq, sq, me);
    RingEnds(c.links, RunHead(c), rq);
    var c' := Trap(c, Exit, rq, sq).cpu;
    if rq == [] {
      forall x: nat | x < |c'.state| ensures Unqueued(c', rq, sq, x) { assert Unqueued(c, rq, sq, x); }
      forall x: nat | x < |c'.state| && x != c'.idle ensures Placed(c', rq, sq, x) { assert Placed(c, rq, sq, x); }
      assert Consistent(c', rq, sq);
    } else {
      assert c' == Trap(c, Yield, rq, sq).cpu by { ExitIsYield(c, rq, sq); }
      YieldTrap(c, rq, sq);
      WithFlag(c, rq, sq, false);
      ScheduleKeeps(c.(needsSched := false), rq, sq);
      var rq' := NextRun(c, rq);
      assert rq' == rq[1..] + [me] + [];
      RingNode(c'.links, RunHead(c), rq[1..], me, []);
      RingOnce(c'.links, RunHead(c), rq[1..], me, []);
      assert Placed(c', rq', sq, me);
    }
  }

  /** With somebody queued, schedule() overwrites the zombie state: exit is the same as yield. */
  lemma ExitIsYield(c: Cpu, rq: seq<nat>, sq: seq<nat>)
    requires Consistent(c, rq, sq) && c.proc != c.idle && rq != []
    ensures Trap(c, Exit, rq, sq) == Trap(c, Yield, rq, sq)
  {
    hide Ring, Path, NoDuplicates;
    RingEnds(c.links, RunHead(c), rq);
    assert rq == [rq[0]] + rq[1..];
    TakeFromRun(c, rq[0], rq[1..], sq);
  }

  /**
    The queue invariant under traps, exactly: a timer trap and an exit always
    keep it, a yield or a refused sleep keeps it if and only if the run queue is
    not empty, an accepted sleep if and only if it is empty.
   */
  lemma TrapKeepsExactly(c: Cpu, ev: Event, rq: seq<nat>, sq: seq<nat>)
    requires Consistent(c, rq, sq) && !c.needsSched && Trap(c, ev, rq, sq).Resumed?
    ensures Sized(c.links, |c.state| + 2)
    ensures Sound(Trap(c, ev, rq, sq).cpu) <==> Safe(c, ev)
    ensures !Trap(c, ev, rq, sq).cpu.needsSched
  {
    SoundSized(c, rq, sq);
    hide Consistent, Queues, Sound, Schedule, TimerHandle, FallAsleep;
    match ev
    case Timer(now) => TimerTrap(c, now, rq, sq);
    case Yield => YieldTrap(c, rq, sq);
    case Exit => ExitTrap(c, rq, sq);
    case Sleep(ms, now) =>
      if Refused(ms) { YieldTrap(c, rq, sq); } else { SleepTrap(c, ms, now, rq, sq); }
  }
}
