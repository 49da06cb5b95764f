/**
  kernel/spinlock.c as an interleaving of atomic steps of any number of harts,
  under sequential consistency. spin_lock() is: save and disable interrupts and
  raise the depth (one step), then test-and-set until the lock was free.
  spin_unlock() is: lower the depth, clear the lock, restore interrupts if the
  depth is zero. Outside lock sections a hart may change its interrupt enable at
  any time (traps do).
 */
module Spinlocks {
  datatype Lock = Cache(index: nat) | Buddy | Uart

  /** The nesting order: a slab cache, then the page allocator, then the console. */
  function Rank(l: Lock): nat {
    match l
    case Cache(_) => 0
    case Buddy => 1
    case Uart => 2
  }

  /** Where a hart is in the lock code. */
  datatype Pc = Out | Spinning(lock: Lock) | Clearing(lock: Lock) | Restoring

  datatype Hart = Hart(
    pc: Pc,
    depth: nat,        // lock_depth
    sie: bool,         // interrupts enabled
    saved: bool,       // that bit of the saved sstatus
    held: set<Lock>    // specification only: locks taken and not yet cleared
  )

  datatype System = System(harts: seq<Hart>, locked: set<Lock>)

  datatype Step =
    | Toggle(hart: nat, sie: bool)
    | Enter(hart: nat, lock: Lock)
    | Try(hart: nat)
    | Leave(hart: nat, lock: Lock)
    | Clear(hart: nat)
    | Restore(hart: nat)

  /** What a hart's program counter allows, and what callers promise: nest upwards, unlock what you hold. */
  predicate Enabled(s: System, step: Step) {
    step.hart < |s.harts| &&
    var h := s.harts[step.hart];
    match step
    case Toggle(_, _) => h.pc == Out && h.depth == 0
    case Enter(_, l) => h.pc == Out && forall m :: m in h.held ==> Rank(m) < Rank(l)
    case Try(_) => h.pc.Spinning?
    case Leave(_, l) => h.pc == Out && l in h.held
    case Clear(_) => h.pc.Clearing?
    case Restore(_) => h.pc == Restoring
  }

  datatype Outcome = Panic | Next(system: System)

  function Put(s: System, k: nat, h: Hart): (s': System)
    requires k < |s.harts|
  {
    s.(harts := s.harts[k := h])
  }

  function Perform(s: System, step: Step): Outcome
    requires Enabled(s, step)
  {
    var k := step.hart;
    var h := s.harts[k];
    match step
    case Toggle(_, b) => Next(Put(s, k, h.(sie := b)))
    case Enter(_, l) =>
      var h1 := if h.depth == 0 then h.(saved := h.sie, sie := false) else h;
      Next(Put(s, k, h1.(depth := h.depth + 1, pc := Spinning(l))))
    case Try(_) =>
      var l := h.pc.lock;
      if l in s.locked then Next(s)
      else Next(Put(s.(locked := s.locked + {l}), k, h.(pc := Out, held := h.held + {l})))
    case Leave(_, l) =>
      if h.depth == 0 then Panic
      else Next(Put(s, k, h.(depth := h.depth - 1, pc := Clearing(l))))
    case Clear(_) =>
      var l := h.pc.lock;
      Next(Put(s.(locked := s.locked - {l}), k, h.(pc := Restoring, held := h.held - {l})))
    case Restore(_) =>
      Next(Put(s, k, h.(pc := Out, sie := if h.depth == 0 then h.saved else h.sie)))
  }

  // ----- the invariant

  predicate HartOk(h: Hart) {
    && h.depth == |h.held| + (if h.pc.Spinning? then 1 else 0) - (if h.pc.Clearing? then 1 else 0)
    && (h.depth > 0 || h.pc != Out ==> !h.sie)
    && (h.pc.Spinning? ==> forall m :: m in h.held ==> Rank(m) < Rank(h.pc.lock))
    && (h.pc.Clearing? ==> h.pc.lock in h.held)
  }

  predicate Holds(s: System, k: nat, l: Lock) {
    k < |s.harts| && l in s.harts[k].held
  }

  ghost predicate Exclusive(s: System) {
    forall j: nat, k: nat, l: Lock :: Holds(s, j, l) && Holds(s, k, l) ==> j == k
  }

  ghost predicate LockedExactly(s: System) {
    forall l: Lock :: l in s.locked <==> exists k: nat :: Holds(s, k, l)
  }

  ghost predicate SystemOk(s: System) {
    && (forall k: nat :: k < |s.harts| ==> HartOk(s.harts[k]))
    && Exclusive(s) && LockedExactly(s)
  }

  /** All harts outside, every lock free. */
  predicate Initial(s: System) {
    s.locked == {} && forall k: nat :: k < |s.harts| ==>
        s.harts[k].pc == Out && s.harts[k].depth == 0 && s.harts[k].held == {}
  }

  lemma InitialOk(s: System)
    requires Initial(s)
    ensures SystemOk(s)
  {
  }

  lemma HeldCount(h: Hart, l: Lock)
    ensures l in h.held ==> |h.held - {l}| == |h.held| - 1 && |h.held| > 0
    ensures l !in h.held ==> |h.held + {l}| == |h.held| + 1
  {
    if l in h.held { assert h.held == (h.held - {l}) + {l}; }
  }

  lemma EnterHart(h: Hart, l: Lock)
    requires HartOk(h) && h.pc == Out && forall m :: m in h.held ==> Rank(m) < Rank(l)
    ensures var h1 := if h.depth == 0 then h.(saved := h.sie, sie := false) else h;
            HartOk(h1.(depth := h.depth + 1, pc := Spinning(l)))
  {
  }

  lemma OutHart(h: Hart, b: bool)
    requires HartOk(h)
    ensures h.pc == Out && h.depth == 0 ==> HartOk(h.(sie := b))
    ensures h.pc == Restoring ==> HartOk(h.(pc := Out, sie := if h.depth == 0 then h.saved else h.sie))
    ensures h.pc.Spinning? ==> h.depth > 0
  {
  }

  lemma TryHart(h: Hart)
    requires HartOk(h) && h.pc.Spinning?
    ensures HartOk(h.(pc := Out, held := h.held + {h.pc.lock}))
  {
    HeldCount(h, h.pc.lock);
  }

  lemma LeaveHart(h: Hart, l: Lock)
    requires HartOk(h) && h.pc == Out && l in h.held
    ensures h.depth > 0 && HartOk(h.(depth := h.depth - 1, pc := Clearing(l)))
  {
    HeldCount(h, l);
  }

  lemma ClearHart(h: Hart)
    requires HartOk(h) && h.pc.Clearing?
    ensures HartOk(h.(pc := Restoring, held := h.held - {h.pc.lock}))
  {
    HeldCount(h, h.pc.lock);
  }

  /** A step's own hart stays well formed, and a lock section is never left by panic. */
  lemma HartKeeps(s: System, step: Step)
    requires SystemOk(s) && Enabled(s, step)
    ensures Perform(s, step).Next?
    ensures HartOk(Perform(s, step).system.harts[step.hart])
  {
    hide Exclusive, LockedExactly, Rank, HartOk;
    var h := s.harts[step.hart];
    assert HartOk(h);
    match step
    case Toggle(_, b) => OutHart(h, b);
    case Enter(_, l) => EnterHart(h, l);
    case Try(_) => TryHart(h);
    case Leave(_, l) => LeaveHart(h, l);
    case Clear(_) => ClearHart(h);
    case Restore(_) => OutHart(h, true);
  }

  /** Only the step's hart changes, and its locks change together with the lock bits. */
  lemma StepFrame(s: System, step: Step)
    requires SystemOk(s) && Enabled(s, step) && Perform(s, step).Next?
    ensures var s' := Perform(s, step).system;
            && |s'.harts| == |s.harts|
            && (forall k: nat :: k < |s.harts| && k != step.hart ==> s'.harts[k] == s.harts[k])
  {
  }

  /** Who holds what, after a step that takes lock l for hart k, gives it up, or does neither. */
  lemma HoldersSame(s: System, s': System)
    requires Exclusive(s) && LockedExactly(s) && s'.locked == s.locked
    requires forall j: nat, m: Lock :: Holds(s', j, m) <==> Holds(s, j, m)
    ensures Exclusive(s') && LockedExactly(s')
  {
    hide Holds;
  }

  lemma HoldersGain(s: System, s': System, k: nat, l: Lock)
    requires Exclusive(s) && LockedExactly(s) && l !in s.locked && s'.locked == s.locked + {l}
    requires forall j: nat, m: Lock :: Holds(s', j, m) <==> Holds(s, j, m) || (j == k && m == l)
    ensures Exclusive(s') && LockedExactly(s')
  {
    hide Holds;
    forall m: Lock ensures m in s'.locked <==> exists j: nat :: Holds(s', j, m) {
      if m == l { assert Holds(s', k, l); }
    }
  }

  lemma HoldersLose(s: System, s': System, k: nat, l: Lock)
    requires Exclusive(s) && LockedExactly(s) && Holds(s, k, l) && s'.locked == s.locked - {l}
    requires forall j: nat, m: Lock :: Holds(s', j, m) <==> Holds(s, j, m) && !(j == k && m == l)
    ensures Exclusive(s') && LockedExactly(s')
  {
    hide Holds;
    forall m: Lock ensures m in s'.locked <==> exists j: nat :: Holds(s', j, m) {
      if m in s'.locked {
        var j: nat :| Holds(s, j, m);
        assert Holds(s', j, m);
      }
    }
  }

  lemma HoldersKeep(s: System, step: Step)
    requires SystemOk(s) && Enabled(s, step) && Perform(s, step).Next?
    ensures Exclusive(Perform(s, step).system) && LockedExactly(Perform(s, step).system)
  {
    var s', k := Perform(s, step).system, step.hart;
    StepFrame(s, step);
    assert HartOk(s.harts[k]);
    hide Exclusive, LockedExactly;
    match step
    case Try(_) => if s.harts[k].pc.lock !in s.locked { HoldersGain(s, s', k, s.harts[k].pc.lock); }
    case Clear(_) => HoldersLose(s, s', k, s.harts[k].pc.lock);
    case _ => HoldersSame(s, s');
  }

  lemma StepKeeps(s: System, step: Step)
    requires SystemOk(s) && Enabled(s, step)
    ensures Perform(s, step).Next? && SystemOk(Perform(s, step).system)
  {
    HartKeeps(s, step);
    StepFrame(s, step);
    HoldersKeep(s, step);
    var s' := Perform(s, step).system;
    hide Perform, Enabled, HartOk, Exclusive, LockedExactly;
    forall k: nat | k < |s'.harts| ensures HartOk(s'.harts[k]) {
      if k != step.hart { assert s'.harts[k] == s.harts[k]; }
    }
  }

  // ----- runs

  /** The states of a run from s under these steps, each enabled when taken. */
  ghost predicate EnabledRun(s: System, steps: seq<Step>)
    decreases |steps|
  {
    steps == [] ||
    (Enabled(s, steps[0]) && (Perform(s, steps[0]).Next? ==> EnabledRun(Perform(s, steps[0]).system, steps[1..])))
  }

  function Run(s: System, steps: seq<Step>): Outcome
    requires EnabledRun(s, steps)
    decreases |steps|
  {
    if steps == [] then Next(s)
    else
      match Perform(s, steps[0])
      case Panic => Panic
      case Next(s') => Run(s', steps[1..])
  }

  lemma {:induction false} RunKeeps(s: System, steps: seq<Step>)
    requires SystemOk(s) && EnabledRun(s, steps)
    ensures Run(s, steps).Next? && SystemOk(Run(s, steps).system)
    decreases |steps|
  {
    hide SystemOk, Perform, Enabled;
    if steps != [] {
      StepKeeps(s, steps[0]);
      RunKeeps(Perform(s, steps[0]).system, steps[1..]);
    }
  }

  /**
    In every interleaving: no unlock panics, each lock has at most one holder,
    and it reads as locked exactly while it has one; interrupts are off on every
    hart whose lock depth is positive.
   */
  lemma RunSafe(s: System, steps: seq<Step>)
    requires Initial(s) && EnabledRun(s, steps)
    ensures Run(s, steps).Next?
    ensures var t := Run(s, steps).system;
            && (forall j: nat, k: nat, l: Lock :: Holds(t, j, l) && Holds(t, k, l) ==> j == k)
            && (forall l: Lock :: l in t.locked <==> exists k: nat :: Holds(t, k, l))
            && (forall k: nat :: k < |t.harts| && t.harts[k].depth > 0 ==> !t.harts[k].sie)
  {
    InitialOk(s);
    RunKeeps(s, steps);
    hide Run, EnabledRun, Initial;
    var t := Run(s, steps).system;
    forall k: nat | k < |t.harts| && t.harts[k].depth > 0 ensures !t.harts[k].sie { assert HartOk(t.harts[k]); }
  }

  // ----- no circular wait

  /** Hart j spins on a lock that hart k holds. */
  predicate WaitsFor(s: System, j: nat, k: nat) {
    j < |s.harts| && k < |s.harts| && s.harts[j].pc.Spinning? && s.harts[j].pc.lock in s.harts[k].held
  }

  function WaitRank(s: System, j: nat): nat {
    if j < |s.harts| && s.harts[j].pc.Spinning? then Rank(s.harts[j].pc.lock) else 3
  }

  lemma WaitsUpwards(s: System, j: nat, k: nat)
    requires SystemOk(s) && WaitsFor(s, j, k)
    ensures WaitRank(s, j) < WaitRank(s, k)
  {
    assert HartOk(s.harts[k]);
  }

  /** Each hart of the chain waits for the next. */
  ghost predicate WaitChain(s: System, chain: seq<nat>) {
    forall i: nat :: i + 1 < |chain| ==> WaitsFor(s, chain[i], chain[i + 1])
  }

  lemma {:induction false} ChainClimbs(s: System, chain: seq<nat>)
    requires SystemOk(s) && WaitChain(s, chain) && |chain| >= 2
    ensures WaitRank(s, chain[0]) < WaitRank(s, chain[|chain| - 1])
    decreases |chain|
  {
    hide SystemOk, WaitRank, WaitsFor;
    var n := |chain|;
    assert n - 2 + 1 < n;
    assert chain[n - 2 + 1] == chain[n - 1];
    WaitsUpwards(s, chain[n - 2], chain[n - 1]);
    if n > 2 { ChainClimbs(s, chain[..n - 1]); }
  }

  /** No circular wait, whatever its length, in any state of any run. */
  lemma NoCircularWait(s: System, steps: seq<Step>, chain: seq<nat>)
    requires Initial(s) && EnabledRun(s, steps) && Run(s, steps).Next?
    requires |chain| >= 2 && WaitChain(Run(s, steps).system, chain)
    ensures chain[0] != chain[|chain| - 1]
  {
    InitialOk(s);
    RunKeeps(s, steps);
    hide Run, EnabledRun, Initial, SystemOk, WaitChain;
    ChainClimbs(Run(s, steps).system, chain);
  }

  /** The hart can take a step that is not a failed attempt. */
  predicate CanProgress(s: System, k: nat) {
    k < |s.harts| && (s.harts[k].pc.Spinning? ==> s.harts[k].pc.lock !in s.locked)
  }

  /** No deadlock: a hart that cannot proceed waits, in the end, for a hart that holds a lock and can. */
  lemma {:induction false} SomeoneProgresses(s: System, k: nat) returns (j: nat)
    requires SystemOk(s) && k < |s.harts|
    ensures CanProgress(s, j) && (j == k || s.harts[j].held != {})
    decreases 3 - WaitRank(s, k)
  {
    if CanProgress(s, k) {
      j := k;
    } else {
      var l := s.harts[k].pc.lock;
      var m: nat :| Holds(s, m, l);
      WaitsUpwards(s, k, m);
      j := SomeoneProgresses(s, m);
    }
  }

  /** Such a hart really moves on: it has a step that changes where it is and touches no other hart. */
  lemma ProgressIsReal(s: System, k: nat) returns (step: Step)
    requires SystemOk(s) && CanProgress(s, k)
    ensures step.hart == k && Enabled(s, step) && Perform(s, step).Next?
    ensures var t := Perform(s, step).system;
            && |t.harts| == |s.harts| && t.harts[k].pc != s.harts[k].pc
            && forall j: nat :: j < |s.harts| && j != k ==> t.harts[j] == s.harts[j]
  {
    var h := s.harts[k];
    assert HartOk(h);
    step := match h.pc
      case Spinning(_) => Try(k)
      case Clearing(_) => Clear(k)
      case Restoring => Restore(k)
      case Out => if h.held == {} then Enter(k, Uart) else Leave(k, AnyOf(h.held));
    StepKeeps(s, step);
  }

  ghost function AnyOf(held: set<Lock>): (l: Lock)
    requires held != {}
    ensures l in held
  {
    var l :| l in held;
    l
  }

  // ----- taking and releasing one lock

  lemma RunNone(s: System)
    ensures EnabledRun(s, []) && Run(s, []) == Next(s)
  {
  }

  lemma RunFirst(s: System, step: Step, steps: seq<Step>)
    requires Enabled(s, step) && Perform(s, step).Next? && EnabledRun(Perform(s, step).system, steps)
    ensures EnabledRun(s, [step] + steps) && Run(s, [step] + steps) == Run(Perform(s, step).system, steps)
  {
    hide Perform, Enabled;
    assert ([step] + steps)[0] == step && ([step] + steps)[1..] == steps;
  }

  lemma TwoSteps(s: System, s1: System, s2: System, a: Step, b: Step)
    requires Enabled(s, a) && Perform(s, a) == Next(s1) && Enabled(s1, b) && Perform(s1, b) == Next(s2)
    ensures EnabledRun(s, [a, b]) && Run(s, [a, b]) == Next(s2)
  {
    hide Perform, Enabled;
    RunNone(s2);
    RunFirst(s1, b, []);
    RunFirst(s, a, [b]);
    assert [b] + [] == [b] && [a] + [b] == [a, b];
  }

  lemma TwoPuts(s: System, k: nat, a: Hart, b: Hart, locked: set<Lock>)
    requires k < |s.harts|
    ensures Put(Put(s, k, a).(locked := locked), k, b) == Put(s.(locked := locked), k, b)
    ensures Put(Put(s.(locked := locked), k, a), k, b) == Put(s.(locked := locked), k, b)
  {
  }

  lemma EnterIs(s: System, k: nat, l: Lock, h1: Hart)
    requires Enabled(s, Enter(k, l)) && (s.harts[k].depth > 0 ==> !s.harts[k].sie)
    requires var h := s.harts[k];
             h1 == Hart(Spinning(l), h.depth + 1, false, if h.depth == 0 then h.sie else h.saved, h.held)
    ensures Perform(s, Enter(k, l)) == Next(Put(s, k, h1))
  {
  }

  lemma TryIs(s: System, s1: System, k: nat, l: Lock, h1: Hart, h2: Hart)
    requires k < |s.harts| && s1 == Put(s, k, h1) && h1.pc == Spinning(l) && l !in s.locked
    requires h2 == h1.(pc := Out, held := h1.held + {l})
    ensures Enabled(s1, Try(k)) && Perform(s1, Try(k)) == Next(Put(s.(locked := s.locked + {l}), k, h2))
  {
    TwoPuts(s, k, h1, h2, s.locked + {l});
  }

  /** spin_lock() on a free lock takes it at once: one level deeper, interrupts off, and nothing else changes. */
  lemma LockTaken(s: System, k: nat, l: Lock)
    requires SystemOk(s) && Enabled(s, Enter(k, l)) && l !in s.locked
    ensures EnabledRun(s, [Enter(k, l), Try(k)])
    ensures var h := s.harts[k];
            Run(s, [Enter(k, l), Try(k)]) ==
              Next(Put(s.(locked := s.locked + {l}), k,
                   h.(depth := h.depth + 1, sie := false, saved := if h.depth == 0 then h.sie else h.saved,
                      held := h.held + {l})))
  {
    assert HartOk(s.harts[k]);
    var h := s.harts[k];
    assert h.depth > 0 ==> !h.sie;
    hide SystemOk, EnabledRun, Run, HartOk, Rank;
    var taken := s.(locked := s.locked + {l});
    var h2 := h.(depth := h.depth + 1, sie := false, saved := if h.depth == 0 then h.sie else h.saved,
                 held := h.held + {l});
    var h1 := Hart(Spinning(l), h2.depth, h2.sie, h2.saved, h.held);
    var s1, s2 := Put(s, k, h1), Put(taken, k, h2);
    EnterIs(s, k, l, h1);
    assert h2.pc == Out;
    TryIs(s, s1, k, l, h1, h2);
    hide Perform, Put, Enabled;
    TwoSteps(s, s1, s2, Enter(k, l), Try(k));
  }

  /** On a lock somebody holds it goes on spinning. */
  lemma LockBusy(s: System, k: nat)
    requires Enabled(s, Try(k)) && s.harts[k].pc.lock in s.locked
    ensures Perform(s, Try(k)) == Next(s)
  {
  }

  /** spin_unlock() frees the lock, and restores the interrupt enable exactly at the outermost level. */
  lemma LockReleased(s: System, k: nat, l: Lock)
    requires SystemOk(s) && Enabled(s, Leave(k, l))
    ensures s.harts[k].depth > 0 && EnabledRun(s, [Leave(k, l), Clear(k), Restore(k)])
    ensures var h := s.harts[k];
            Run(s, [Leave(k, l), Clear(k), Restore(k)]) ==
              Next(Put(s.(locked := s.locked - {l}), k,
                   h.(depth := h.depth - 1, sie := if h.depth == 1 then h.saved else false, held := h.held - {l})))
  {
    var h := s.harts[k];
    assert HartOk(h);
    HeldCount(h, l);
    assert h.depth > 0 && !h.sie;
    hide SystemOk, EnabledRun, Run, HartOk, Rank;
    var free := s.(locked := s.locked - {l});
    var h1 := h.(depth := h.depth - 1, pc := Clearing(l));
    var h2 := h1.(pc := Restoring, held := h.held - {l});
    var h3 := h2.(pc := Out, sie := if h.depth == 1 then h.saved else false);
    var s1, s2, s3 := Put(s, k, h1), Put(free, k, h2), Put(free, k, h3);
    TwoPuts(s, k, h1, h2, s.locked - {l});
    TwoPuts(s, k, h2, h3, s.locked - {l});
    assert Perform(s, Leave(k, l)) == Next(s1) && Enabled(s1, Clear(k)) && Perform(s1, Clear(k)) == Next(s2);
    assert Enabled(s2, Restore(k)) && Perform(s2, Restore(k)) == Next(s3);
    hide Perform, Enabled, Put;
    TwoSteps(s1, s2, s3, Clear(k), Restore(k));
    RunFirst(s, Leave(k, l), [Clear(k), Restore(k)]);
    assert [Leave(k, l)] + [Clear(k), Restore(k)] == [Leave(k, l), Clear(k), Restore(k)];
  }

  // ----- restoring interrupts

  /** The interrupt state of hart k outside its lock sections is b. */
  predicate Baseline(s: System, k: nat, b: bool) {
    k < |s.harts| &&
    var h := s.harts[k];
    if h.depth == 0 && h.pc == Out then h.sie == b else h.saved == b
  }

  predicate TogglesNever(steps: seq<Step>, k: nat) {
    forall i: nat :: i < |steps| ==> !(steps[i].Toggle? && steps[i].hart == k)
  }

  lemma BaselineStep(s: System, step: Step, k: nat, b: bool)
    requires SystemOk(s) && Enabled(s, step) && Baseline(s, k, b) && !(step.Toggle? && step.hart == k)
    ensures Perform(s, step).Next? && Baseline(Perform(s, step).system, k, b)
  {
    StepKeeps(s, step);
    OutHart(s.harts[k], true);
    hide SystemOk;
  }

  lemma {:induction false} BaselineRun(s: System, steps: seq<Step>, k: nat, b: bool)
    requires SystemOk(s) && EnabledRun(s, steps) && Baseline(s, k, b) && TogglesNever(steps, k)
    ensures Run(s, steps).Next? && Baseline(Run(s, steps).system, k, b)
    decreases |steps|
  {
    hide SystemOk, Perform, Enabled, Baseline;
    if steps != [] {
      assert !(steps[0].Toggle? && steps[0].hart == k);
      assert forall i: nat :: i < |steps[1..]| ==> steps[1..][i] == steps[i + 1];
      BaselineStep(s, steps[0], k, b);
      StepKeeps(s, steps[0]);
      BaselineRun(Perform(s, steps[0]).system, steps[1..], k, b);
    }
  }

  /**
    Whatever a hart locks and unlocks, and whatever the others do meanwhile: when
    it is outside all lock sections again, its interrupts are as they were when
    it last was. Only the hart itself, outside, changes them.
   */
  lemma InterruptsRestored(s: System, steps: seq<Step>, k: nat)
    requires SystemOk(s) && EnabledRun(s, steps) && TogglesNever(steps, k)
    requires k < |s.harts| && s.harts[k].pc == Out && s.harts[k].depth == 0
    ensures Run(s, steps).Next? && k < |Run(s, steps).system.harts|
    ensures var h := Run(s, steps).system.harts[k]; h.pc == Out && h.depth == 0 ==> h.sie == s.harts[k].sie
  {
    hide SystemOk, Run, EnabledRun;
    BaselineRun(s, steps, k, s.harts[k].sie);
  }
}
