/**
  The same CPU in place: list links, process states and wake-up times in arrays,
  with the pointer updates of kernel/list.h and the loop of kernel/timer.h. Each
  method is proved to compute the function of Scheduler on the same state.
 */
module SchedulerCpu {
  import opened Basics
  import opened Rings
  import opened Scheduler

  /** One turn of the wake loop, in the terms of Wake. */
  lemma WakeStep(c: Cpu, now: nat, run: seq<nat>, kept: seq<nat>, rest: seq<nat>)
    requires Queues(c, run, kept + rest) && rest != []
    ensures var p, b := rest[0], rest[1..];
            && Queues(c, run, kept + [p] + b)
            && (IsDue(c, now, p) ==>
                  && Queues(WakeOne(c, p, run, kept, b), run + [p], kept + b)
                  && Wake(c, now, run, kept, rest) == Wake(WakeOne(c, p, run, kept, b), now, run + [p], kept, b))
            && (!IsDue(c, now, p) ==> Wake(c, now, run, kept, rest) == Wake(c, now, run, kept + [p], b))
  {
    assert kept + rest == kept + [rest[0]] + rest[1..];
    hide Queues, WakeOne, IsDue;
    WakeOneQueues(c, rest[0], run, kept, rest[1..]);
  }

  /** The nodes that waking p writes are where list_del() and list_add_tail() expect them. */
  lemma WakeReady(c: Cpu, p: nat, rq: seq<nat>, a: seq<nat>, b: seq<nat>)
    requires Queues(c, rq, a + [p] + b)
    ensures Queues(WakeOne(c, p, rq, a, b), rq + [p], a + b) && Sized(c.links, |c.state| + 2) && p < |c.state|
    ensures 0 <= c.links.next[p] < |c.state| + 2 && 0 <= c.links.prev[p] < |c.state| + 2 && c.links.next[p] != p
    ensures var l := Del(c.links, p);
            && Sized(l, |c.state| + 2) && 0 <= l.prev[|c.state|] < |c.state| + 2
            && WakeOne(c, p, rq, a, b) == c.(links := AddTail(l, p, |c.state|), state := c.state[p := Runnable])
  {
    WakeOneQueues(c, p, rq, a, b);
    TakeFromSleep(c, rq, a, p, b);
    hide Ring, Path, NoDuplicates;
    RingNode(c.links, SleepHead(c), a, p, b);
    RingOnce(c.links, SleepHead(c), a, p, b);
    RingEnds(Del(c.links, p), RunHead(c), rq);
  }

  lemma DueStep(c: Cpu, now: nat, rest: seq<nat>)
    requires rest != []
    ensures Due(c, now, rest) != [] <==> IsDue(c, now, rest[0]) || Due(c, now, rest[1..]) != []
  {
  }

  lemma WakeEnd(c0: Cpu, c: Cpu, now: nat, run: seq<nat>, kept: seq<nat>, rest: seq<nat>)
    requires Queues(c, run, kept + rest) && rest == []
    ensures Wake(c, now, run, kept, rest) == c && Due(c0, now, rest) == []
  {
    hide Queues;
  }

  class CpuCore {
    var next: array<int>
    var prev: array<int>
    var state: array<ProcState>
    var sleepUntil: array<nat>
    var proc: nat
    var idle: nat
    var needsSched: bool
    ghost var cpu: Cpu         // the same state as a value

    ghost predicate Holds()
      reads this, next, prev, state, sleepUntil
    {
      && next != prev && sleepUntil as object != next && sleepUntil as object != prev
      && next.Length == prev.Length == state.Length + 2 && sleepUntil.Length == state.Length
      && cpu == Cpu(Links(next[..], prev[..]), state[..], sleepUntil[..], proc, idle, needsSched)
    }

    /** list_add_tail (kernel/list.h:26-33) */
    method ListAddTail(x: nat, head: nat)
      requires Holds() && x < next.Length && head < next.Length && x != head && 0 <= prev[head] < next.Length
      modifies next, prev, `cpu
      ensures Holds() && cpu == old(cpu).(links := AddTail(old(cpu).links, x, head))
    {
      next[x] := head;
      prev[x] := prev[head];
      next[prev[head]] := x;
      prev[head] := x;
      cpu := cpu.(links := AddTail(cpu.links, x, head));
    }

    /** list_del (kernel/list.h:35-41) */
    method ListDel(e: nat)
      requires Holds() && e < next.Length && 0 <= next[e] < next.Length && 0 <= prev[e] < next.Length
      requires next[e] != e
      modifies next, prev, `cpu
      ensures Holds() && cpu == old(cpu).(links := Del(old(cpu).links, e))
    {
      prev[next[e]] := prev[e];
      next[prev[e]] := next[e];
      next[e], prev[e] := NIL, NIL;
      cpu := cpu.(links := Del(cpu.links, e));
    }

    /** The body of the wake loop for a process that is due (kernel/timer.h:40-42). */
    method WakeUp(p: nat, ghost rq: seq<nat>, ghost a: seq<nat>, ghost b: seq<nat>)
      requires Holds() && Queues(cpu, rq, a + [p] + b)
      modifies next, prev, state, `cpu
      ensures Holds() && cpu == WakeOne(old(cpu), p, rq, a, b) && Queues(cpu, rq + [p], a + b)
    {
      WakeReady(cpu, p, rq, a, b);
      hide Ring, Path, NoDuplicates, Queues, AddTail, Del;
      ListDel(p);
      state[p] := Runnable;
      cpu := cpu.(state := cpu.state[p := Runnable]);
      ListAddTail(p, state.Length);
    }

    /** One turn of the wake loop (kernel/timer.h:37-53): the next position, and whether the process woke. */
    method WakeTurn(pos: nat, now: nat, ghost rq: seq<nat>, ghost kept: seq<nat>, ghost b: seq<nat>)
        returns (tmp: nat, woke: bool)
      requires Holds() && Queues(cpu, rq, kept + [pos] + b)
      modifies next, prev, state, `cpu
      ensures Holds() && cpu.sleepUntil == old(cpu).sleepUntil && needsSched == old(needsSched)
      ensures tmp == (if b == [] then state.Length + 1 else b[0]) && (woke <==> IsDue(old(cpu), now, pos))
      ensures cpu == if woke then WakeOne(old(cpu), pos, rq, kept, b) else old(cpu)
      ensures woke ==> Queues(cpu, rq + [pos], kept + b)
    {
      hide Ring, Path, NoDuplicates, Queues;
      tmp := NextOf(pos, rq, kept, b);
      woke := now >= sleepUntil[pos];
      if woke { WakeUp(pos, rq, kept, b); }
    }

    /** The wake loop (kernel/timer.h:36-53). */
    method WakeLoop(now: nat, ghost rq: seq<nat>, ghost sq: seq<nat>) returns (someone: bool)
      requires Holds() && Queues(cpu, rq, sq) && Queues(cpu, rq, [] + sq)
      modifies next, prev, state, `cpu
      ensures Holds() && needsSched == old(needsSched)
      ensures cpu == Wake(old(cpu), now, rq, [], sq) && (someone <==> Due(old(cpu), now, sq) != [])
    {
      var head := state.Length + 1;
      RingEnds(cpu.links, head, sq);
      hide Ring, Path, NoDuplicates, Queues, WakeOne, Wake, Due;
      ghost var run: seq<nat>, kept: seq<nat>, rest: seq<nat> := rq, [], sq;
      var pos := next[head];
      someone := false;
      while pos != head
        invariant Holds() && cpu.sleepUntil == old(cpu).sleepUntil && needsSched == old(needsSched)
        invariant Queues(cpu, run, kept + rest) && Wake(cpu, now, run, kept, rest) == Wake(old(cpu), now, rq, [], sq)
        invariant pos == if rest == [] then head else rest[0]
        invariant someone || Due(old(cpu), now, rest) != [] <==> Due(old(cpu), now, sq) != []
        decreases |rest|
      {
        ghost var p, b := rest[0], rest[1..];
        WakeStep(cpu, now, run, kept, rest);
        DueStep(old(cpu), now, rest);
        var tmp, woke := WakeTurn(pos, now, run, kept, b);
        run, kept := if woke then run + [p] else run, if woke then kept else kept + [p];
        someone := someone || woke;
        pos, rest := tmp, b;
      }
      WakeEnd(old(cpu), cpu, now, run, kept, rest);
    }

    /** timer_handle (kernel/timer.h:24-58), given the time it reads. */
    method HandleTimer(now: nat, ghost rq: seq<nat>, ghost sq: seq<nat>)
      requires Holds() && Queues(cpu, rq, sq)
      modifies next, prev, state, `needsSched, `cpu
      ensures Holds() && cpu == TimerHandle(old(cpu), now, rq, sq)
    {
      hide Queues, Wake, Due;
      assert [] + sq == sq;
      var someone := WakeLoop(now, rq, sq);
      if someone { needsSched := true; cpu := cpu.(needsSched := true); }
    }

    /** pos->next for a node of the sleep ring (kernel/list.h:61-63). */
    method NextOf(pos: nat, ghost rq: seq<nat>, ghost a: seq<nat>, ghost b: seq<nat>) returns (n: nat)
      requires Holds() && Queues(cpu, rq, a + [pos] + b)
      ensures pos < state.Length && n == if b == [] then state.Length + 1 else b[0]
    {
      RingNode(cpu.links, SleepHead(cpu), a, pos, b);
      assert pos in a + [pos] + b;
      n := next[pos];
    }

    /** The branch of schedule() for a queued process (kernel/sched.c:29-44). */
    method SwitchTo(node: nat)
      requires Holds() && node < state.Length && proc < state.Length
      requires 0 <= next[node] < next.Length && 0 <= prev[node] < next.Length && next[node] != node
      requires var prev' := Del(cpu.links, node).prev; 0 <= prev'[state.Length] < next.Length
      modifies next, prev, state, `proc, `cpu
      ensures Holds()
      ensures var c1 := old(cpu).(links := Del(old(cpu).links, node), state := old(cpu).state[node := Running]);
              cpu == if old(proc) != idle then
                       c1.(links := AddTail(c1.links, old(proc), state.Length),
                           state := c1.state[old(proc) := Runnable], proc := node)
                     else c1.(proc := node)
    {
      ListDel(node);
      state[node] := Running;
      cpu := cpu.(state := cpu.state[node := Running]);
      if proc != idle {
        state[proc] := Runnable;
        cpu := cpu.(state := cpu.state[proc := Runnable]);
        ListAddTail(proc, state.Length);
      }
      proc := node;
      cpu := cpu.(proc := node);
    }

    /** schedule() without the context switch (kernel/sched.c:23-71). */
    method RunSchedule(ghost rq: seq<nat>, ghost sq: seq<nat>)
      requires Holds() && Queues(cpu, rq, sq) && (proc != idle ==> proc !in rq)
      modifies next, prev, state, `proc, `cpu
      ensures Holds() && cpu == Schedule(old(cpu), rq, sq)
    {
      hide Ring, Path, NoDuplicates;
      var head := state.Length;
      RingEnds(cpu.links, head, rq);
      var node := next[head];
      if node != head {
        assert rq == [rq[0]] + rq[1..] && rq == [] + [rq[0]] + rq[1..];
        TakeFromRun(cpu, rq[0], rq[1..], sq);
        RingNode(cpu.links, head, [], rq[0], rq[1..]);
        RingOnce(cpu.links, head, [], rq[0], rq[1..]);
        RingEnds(Del(cpu.links, rq[0]), head, rq[1..]);
        hide Queues;
        SwitchTo(node);
      } else if proc != idle {
        proc := idle;
        cpu := cpu.(proc := idle);
      }
    }

    /** sys_sleep_ms (kernel/syscall.c:49-70), given the time it reads. */
    method SysSleepMs(ms: nat, now: nat, ghost rq: seq<nat>, ghost sq: seq<nat>) returns (r: int)
      requires Holds() && Queues(cpu, rq, sq)
      modifies next, prev, state, sleepUntil, `cpu
      ensures Holds() && (r == -1 <==> Refused(ms)) && (r == 0 <==> !Refused(ms))
      ensures cpu == if Refused(ms) then old(cpu) else FallAsleep(old(cpu), ms, now, rq, sq)
    {
      if ms == 0 || ms > MAX_SLEEP_MS { return -1; }
      RingEnds(cpu.links, SleepHead(cpu), sq);
      hide Ring, Path, NoDuplicates, Queues;
      state[proc] := Sleeping;
      cpu := cpu.(state := cpu.state[proc := Sleeping]);
      ListAddTail(proc, state.Length + 1);
      sleepUntil[proc] := (now + ms * TICKS_PER_MS) % TIME_LIMIT;
      cpu := cpu.(sleepUntil := cpu.sleepUntil[proc := (now + ms * TICKS_PER_MS) % TIME_LIMIT]);
      return 0;
    }

    /** The needs_sched tail of trap_handler (kernel/trap/trap.c:231-235). */
    method FinishTrap(ghost rq: seq<nat>, ghost sq: seq<nat>)
      requires Holds() && Queues(cpu, rq, sq) && (proc != idle ==> proc !in rq)
      modifies next, prev, state, `proc, `needsSched, `cpu
      ensures Holds() && cpu == Tail(old(cpu), rq, sq)
    {
      if needsSched {
        needsSched := false;
        cpu := cpu.(needsSched := false);
        RunSchedule(rq, sq);
      }
    }

    /** trap_handler for the events that reach the scheduler (kernel/trap/trap.c:29-46, 90-102, 180-192, 231-235). */
    method HandleTrap(ev: Event, ghost rq: seq<nat>, ghost sq: seq<nat>) returns (stuck: bool)
      requires Holds() && Consistent(cpu, rq, sq)
      modifies next, prev, state, sleepUntil, `proc, `needsSched, `cpu
      ensures stuck <==> Trap(old(cpu), ev, rq, sq).Stuck?
      ensures !stuck ==> Holds() && Trap(old(cpu), ev, rq, sq) == Resumed(cpu)
    {
      hide Ring, Path, NoDuplicates, Wake, Schedule, Placed, Unqueued;
      ghost var c := cpu;
      stuck := false;
      if ev.Timer? {
        TimerHandleKeeps(c, ev.now, rq, sq);
        HandleTimer(ev.now, rq, sq);
        FinishTrap(rq + Due(c, ev.now, sq), NotDue(c, ev.now, sq));
        return;
      }
      if proc == idle { return true; }
      match ev
      case Yield =>
        needsSched := true;
        cpu := cpu.(needsSched := true);
        FinishTrap(rq, sq);
      case Exit =>
        state[proc] := Zombie;
        needsSched := true;
        cpu := cpu.(state := cpu.state[proc := Zombie], needsSched := true);
        FinishTrap(rq, sq);
      case Sleep(ms, now) =>
        AppendToSleep(c, rq, sq, c.proc);
        var r := SysSleepMs(ms, now, rq, sq);
        needsSched := true;
        cpu := cpu.(needsSched := true);
        FinishTrap(rq, if Refused(ms) then sq else sq + [c.proc]);
    }
  }
}
