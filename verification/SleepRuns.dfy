/** What the steps of sleep, wakeup and the scheduler mean for one process and for one CPU, over
    whole runs (proc.c, spinlock.c). */
module SleepRuns {
  import opened Common
  import opened ProcStates
  import opened SleepWakeup

  datatype Step = Step(cpu: nat, action: Action)

  ghost predicate Taken(s: State, x: Step, s': State) {
    && Enabled(s, x.cpu, x.action) && (s.cpus[x.cpu].proc.Some? ==> s.cpus[x.cpu].proc.value < |s.procs|)
    && s' == Apply(s, x.cpu, x.action)
  }

  /** A run with the step taken at each point. */
  ghost predicate Traced(run: seq<State>, trace: seq<Step>) {
    && |run| == |trace| + 1 && Init(run[0])
    && forall i :: 0 <= i < |trace| ==> Taken(run[i], trace[i], run[i + 1])
  }

  lemma TracedInv(run: seq<State>, trace: seq<Step>, n: nat)
    requires Traced(run, trace) && n < |run|
    ensures Inv(run[n])
  {
    forall i | 0 < i < |run| ensures StepTo(run, i) { assert Taken(run[i - 1], trace[i - 1], run[i]); }
    RunInv(run, n);
  }

  lemma TracedStep(run: seq<State>, trace: seq<Step>, n: nat)
    requires Traced(run, trace) && n < |trace|
    ensures Inv(run[n]) && Taken(run[n], trace[n], run[n + 1])
  {
    TracedInv(run, trace, n);
  }

  /** The step is by the process p itself. */
  ghost predicate By(s: State, x: Step, p: nat) { x.cpu < |s.cpus| && s.cpus[x.cpu].proc == Some(p) }

  /** The step is the turn of a wakeup on ch at slot p. */
  ghost predicate WakesSlot(s: State, x: Step, p: nat, ch: Option<Chan>) {
    && x.action == WakeSlot && x.cpu < |s.cpus| && s.cpus[x.cpu].code.Waking?
    && s.cpus[x.cpu].code.i == p && Some(s.cpus[x.cpu].code.chan) == ch
  }

  /** The life of a process: which step takes process p, asleep on ch, from which state to which. */
  ghost predicate Diagram(s: State, x: Step, p: nat, ch: Option<Chan>, from: ProcState, to: ProcState) {
    && (from == Unused && to == Embryo <==> x.action == AllocProc(p))
    && (from == Embryo && to == Runnable <==> x.action == ForkDone(p))
    && (from == Runnable && to == Running <==> x.action == Dispatch(p))
    && (from == Running && to == Runnable <==> x.action == LeaveCpu(false) && By(s, x, p))
    && (from == Running && to == Zombie <==> x.action == LeaveCpu(true) && By(s, x, p))
    && (from == Running && to == Sleeping <==> x.action == GoToSleep && By(s, x, p))
    && (from == Sleeping && to == Runnable <==> from == Sleeping && (x.action == Kill(p) || WakesSlot(s, x, p, ch)))
    && (from == Zombie && to == Unused <==> x.action == Reap(p))
    && (from != to ==> Edge(from, to))
  }

  predicate Edge(from: ProcState, to: ProcState) {
    match from
    case Unused => to == Embryo
    case Embryo => to == Runnable
    case Runnable => to == Running
    case Running => to == Runnable || to == Zombie || to == Sleeping
    case Sleeping => to == Runnable
    case Zombie => to == Unused
  }

  /** The process on a CPU is RUNNING until `sched` is about to switch away from it. */
  ghost predicate OnFits(s: State, k: nat) {
    k < |s.cpus| && (s.cpus[k].proc.Some? ==>
      s.cpus[k].proc.value < |s.procs| && StateFits(s.procs[s.cpus[k].proc.value].state, s.cpus[k].code))
  }

  predicate LeavesProcs(a: Action) {
    || a.Acquire? || a.Release? || a.MakeTrue? || a.LockTable? || a.DropLock? || a.BeginScan? || a.EndScan?
    || a.CallWakeup? || a.CallWakeup1? || a.FinishWakeup?
  }

  lemma SameProcs(s: State, x: Step, s': State)
    requires Taken(s, x, s') && LeavesProcs(x.action)
    ensures s'.procs == s.procs
  {
  }

  /** The new state of process p. */
  lemma OneProc(s: State, x: Step, s': State, p: nat)
    requires Taken(s, x, s') && !LeavesProcs(x.action) && OnFits(s, x.cpu) && p < |s.procs|
    ensures |s'.procs| == |s.procs| && Diagram(s, x, p, s.procs[p].chan, s.procs[p].state, s'.procs[p].state)
    ensures s.procs[p].state == Sleeping ==> s'.procs[p].chan == s.procs[p].chan
    ensures By(s, x, p) && x.action == GoToSleep ==> s'.procs[p].chan == SleepChan(s, x)
  {
    match x.action
    case CallSleep(_) =>
    case GoToSleep =>
    case LeaveCpu(_) =>
    case Swtch =>
    case Dispatch(_) =>
    case Resume =>
    case WakeSlot =>
    case Kill(_) =>
    case AllocProc(_) =>
    case ForkDone(_) =>
    case Reap(_) =>
  }

  /** Every step of every run moves every process as the diagram says, and no process otherwise; a
      process that sleeps keeps its channel. */
  lemma LifeCycle(run: seq<State>, trace: seq<Step>, i: nat, p: nat)
    requires Traced(run, trace) && i < |trace| && p < |run[i].procs|
    ensures |run[i + 1].procs| == |run[i].procs|
    ensures Diagram(run[i], trace[i], p, run[i].procs[p].chan, run[i].procs[p].state, run[i + 1].procs[p].state)
    ensures run[i].procs[p].state == Sleeping ==> run[i + 1].procs[p].chan == run[i].procs[p].chan
    ensures By(run[i], trace[i], p) && trace[i].action == GoToSleep ==>
      run[i + 1].procs[p].chan == SleepChan(run[i], trace[i])
  {
    TracedFits(run, trace, i);
    if LeavesProcs(trace[i].action) { SameProcs(run[i], trace[i], run[i + 1]); }
    else { OneProc(run[i], trace[i], run[i + 1], p); }
  }

  lemma TracedFits(run: seq<State>, trace: seq<Step>, i: nat)
    requires Traced(run, trace) && i < |trace|
    ensures Taken(run[i], trace[i], run[i + 1]) && OnFits(run[i], trace[i].cpu)
  {
    TracedInv(run, trace, i);
    assert Taken(run[i], trace[i], run[i + 1]);
    assert CpuOk(run[i], run[i].cpus[trace[i].cpu]);
  }

  lemma {:induction false} SameSize(run: seq<State>, trace: seq<Step>, n: nat)
    requires Traced(run, trace) && n < |run|
    ensures |run[n].procs| == |run[0].procs|
  {
    if n > 0 {
      SameSize(run, trace, n - 1);
      TracedFits(run, trace, n - 1);
      StepSize(run[n - 1], trace[n - 1], run[n]);
    }
  }

  lemma StepSize(s: State, x: Step, s': State)
    requires Taken(s, x, s') && OnFits(s, x.cpu)
    ensures |s'.procs| == |s.procs|
  {
    if LeavesProcs(x.action) { SameProcs(s, x, s'); }
    else if |s.procs| > 0 { OneProc(s, x, s', 0); }
  }

  /** In every run a process is a zombie only after it has called exit itself. */
  lemma {:induction false} ZombiesHaveExited(run: seq<State>, trace: seq<Step>, n: nat, p: nat)
    requires Traced(run, trace) && n < |run| && p < |run[n].procs| && run[n].procs[p].state == Zombie
    ensures exists m :: 0 <= m < n && trace[m].action == LeaveCpu(true) && By(run[m], trace[m], p)
    decreases n
  {
    if n > 0 {
      SameSize(run, trace, n - 1);
      SameSize(run, trace, n);
      LifeCycle(run, trace, n - 1, p);
      if run[n - 1].procs[p].state == Zombie { ZombiesHaveExited(run, trace, n - 1, p); }
    }
  }

  /** ... so that while nobody exits, there are no zombies. */
  lemma NoExitNoZombie(run: seq<State>, trace: seq<Step>, n: nat, p: nat)
    requires Traced(run, trace) && n < |run| && p < |run[n].procs|
    requires forall m :: 0 <= m < n ==> trace[m].action != LeaveCpu(true)
    ensures run[n].procs[p].state != Zombie
  {
    if run[n].procs[p].state == Zombie { ZombiesHaveExited(run, trace, n, p); }
  }

  /** A process that exits at step m stays a zombie until it is reaped, and so is not dispatched
      again before that. */
  lemma {:induction false} ExitIsFinal(run: seq<State>, trace: seq<Step>, m: nat, n: nat, p: nat)
    requires Traced(run, trace) && m < n < |run| && trace[m].action == LeaveCpu(true) && By(run[m], trace[m], p)
    requires forall i :: m < i < n ==> trace[i].action != Reap(p)
    ensures p < |run[n].procs| && run[n].procs[p].state == Zombie
    ensures n < |trace| ==> trace[n].action != Dispatch(p)
    decreases n
  {
    if n > m + 1 {
      ExitIsFinal(run, trace, m, n - 1, p);
      StillZombie(run, trace, n - 1, p);
    } else {
      TracedFits(run, trace, m);
      LifeCycle(run, trace, m, p);
    }
    if n < |trace| { LifeCycle(run, trace, n, p); }
  }

  lemma StillZombie(run: seq<State>, trace: seq<Step>, i: nat, p: nat)
    requires Traced(run, trace) && i < |trace| && p < |run[i].procs| && run[i].procs[p].state == Zombie
    requires trace[i].action != Reap(p)
    ensures p < |run[i + 1].procs| && run[i + 1].procs[p].state == Zombie
  {
    LifeCycle(run, trace, i, p);
  }

  /** A process that yields at step m stays runnable until it is dispatched. */
  lemma {:induction false} YielderIsRunnable(run: seq<State>, trace: seq<Step>, m: nat, n: nat, p: nat)
    requires Traced(run, trace) && m < n < |run| && trace[m].action == LeaveCpu(false) && By(run[m], trace[m], p)
    requires forall i :: m < i < n ==> trace[i].action != Dispatch(p)
    ensures p < |run[n].procs| && run[n].procs[p].state == Runnable
    decreases n
  {
    if n > m + 1 {
      YielderIsRunnable(run, trace, m, n - 1, p);
      StillRunnable(run, trace, n - 1, p);
    } else {
      TracedFits(run, trace, m);
      LifeCycle(run, trace, m, p);
    }
  }

  lemma StillRunnable(run: seq<State>, trace: seq<Step>, i: nat, p: nat)
    requires Traced(run, trace) && i < |trace| && p < |run[i].procs| && run[i].procs[p].state == Runnable
    requires trace[i].action != Dispatch(p)
    ensures p < |run[i + 1].procs| && run[i + 1].procs[p].state == Runnable
  {
    LifeCycle(run, trace, i, p);
  }

  /** The channel that the process of the step is in `sleep` on. */
  ghost function SleepChan(s: State, x: Step): Option<Chan> {
    if x.cpu < |s.cpus| && s.cpus[x.cpu].code.Sleep3? then Some(s.cpus[x.cpu].code.chan) else None
  }

  /** A process that goes to sleep on ch at step m sleeps on it until a kill of it, or until the turn
      of a wakeup on that channel at its slot: no other wakeup ends its sleep. */
  lemma {:induction false} SleeperStaysAsleep(run: seq<State>, trace: seq<Step>, m: nat, n: nat, p: nat, ch: Chan)
    requires Traced(run, trace) && m < n < |run| && trace[m].action == GoToSleep && By(run[m], trace[m], p)
    requires SleepChan(run[m], trace[m]) == Some(ch)
    requires forall i :: m < i < n ==> trace[i].action != Kill(p) && !WakesSlot(run[i], trace[i], p, Some(ch))
    ensures p < |run[n].procs| && SleepsOn(run[n].procs[p], ch)
    decreases n
  {
    if n > m + 1 {
      SleeperStaysAsleep(run, trace, m, n - 1, p, ch);
      StillAsleep(run, trace, n - 1, p, ch);
    } else {
      TracedFits(run, trace, m);
      LifeCycle(run, trace, m, p);
    }
  }

  lemma StillAsleep(run: seq<State>, trace: seq<Step>, i: nat, p: nat, ch: Chan)
    requires Traced(run, trace) && i < |trace| && p < |run[i].procs| && SleepsOn(run[i].procs[p], ch)
    requires trace[i].action != Kill(p) && !WakesSlot(run[i], trace[i], p, Some(ch))
    ensures p < |run[i + 1].procs| && SleepsOn(run[i + 1].procs[p], ch)
  {
    LifeCycle(run, trace, i, p);
  }

  // Interrupts: pushcli and popcli, and what `sched` saves.

  /** The CPU neither switches to another process nor scans for one. */
  predicate StaysOn(a: Action) { !a.Swtch? && !a.Dispatch? && !a.BeginScan? }

  /** Interrupts are b, or they will be once all locks are given up. */
  ghost predicate WillBe(c: Cpu, b: bool) { if c.ncli == 0 then c.interrupts == b else c.intena == b }

  lemma LockedWillBe(c: Cpu, l: nat, b: bool)
    requires c.ncli >= 0 && WillBe(c, b)
    ensures WillBe(Locked(c, l), b)
  {
  }

  lemma UnlockedWillBe(c: Cpu, l: nat, b: bool)
    requires c.ncli > 0 && !c.interrupts && WillBe(c, b)
    ensures WillBe(Unlocked(c, l), b)
  {
  }

  /** A CPU that gives up a lock holds one, and its interrupts are off. */
  lemma HoldsOne(c: Cpu, l: nat)
    requires CliFits(c) && l in c.held
    ensures c.ncli > 0 && !c.interrupts
  {
  }

  lemma OwnWillBe(s: State, x: Step, s': State, b: bool)
    requires Taken(s, x, s') && LocksFit(s.cpus[x.cpu]) && CliFits(s.cpus[x.cpu])
    requires WillBe(s.cpus[x.cpu], b) && StaysOn(x.action)
    ensures |s'.cpus| == |s.cpus| && WillBe(s'.cpus[x.cpu], b)
  {
    var c := s.cpus[x.cpu];
    match x.action
    case Acquire(l) => LockedWillBe(c, l, b);
    case LockTable => LockedWillBe(c, PTABLE, b);
    case CallWakeup(_) => LockedWillBe(c, PTABLE, b);
    case Release(l) => HoldsOne(c, l); UnlockedWillBe(c, l, b);
    case DropLock => HoldsOne(c, c.code.chan.lock); UnlockedWillBe(c, c.code.chan.lock, b);
    case EndScan => HoldsOne(c, PTABLE); UnlockedWillBe(c, PTABLE, b);
    case FinishWakeup => HoldsOne(c, PTABLE); UnlockedWillBe(c, PTABLE, b);
    case _ =>
  }

  lemma WillBeStep(run: seq<State>, trace: seq<Step>, i: nat, k: nat, b: bool)
    requires Traced(run, trace) && i < |trace| && k < |run[i].cpus| && WillBe(run[i].cpus[k], b)
    requires trace[i].cpu == k ==> StaysOn(trace[i].action)
    ensures k < |run[i + 1].cpus| && WillBe(run[i + 1].cpus[k], b)
  {
    TracedStep(run, trace, i);
    if trace[i].cpu == k {
      assert CpuOk(run[i], run[i].cpus[k]);
      OwnWillBe(run[i], trace[i], run[i + 1], b);
    } else {
      OthersStep(run[i], trace[i].cpu, trace[i].action, k);
    }
  }

  /** A CPU that holds no lock at m and none at n, and has not switched in between, has its
      interrupts at n as they were at m, however the locks were nested. */
  lemma InterruptsComeBack(run: seq<State>, trace: seq<Step>, m: nat, n: nat, k: nat)
    requires Traced(run, trace) && m <= n < |run| && k < |run[m].cpus| && k < |run[n].cpus|
    requires run[m].cpus[k].held == {} && run[n].cpus[k].held == {}
    requires forall i :: m <= i < n && trace[i].cpu == k ==> StaysOn(trace[i].action)
    ensures run[n].cpus[k].interrupts == run[m].cpus[k].interrupts
  {
    TracedInv(run, trace, m);
    TracedInv(run, trace, n);
    assert CpuOk(run[m], run[m].cpus[k]) && CpuOk(run[n], run[n].cpus[k]);
    WillBeRun(run, trace, m, n, k);
  }

  lemma {:induction false} WillBeRun(run: seq<State>, trace: seq<Step>, m: nat, n: nat, k: nat)
    requires Traced(run, trace) && m <= n < |run| && k < |run[m].cpus|
    requires WillBe(run[m].cpus[k], run[m].cpus[k].interrupts)
    requires forall i :: m <= i < n && trace[i].cpu == k ==> StaysOn(trace[i].action)
    ensures k < |run[n].cpus| && WillBe(run[n].cpus[k], run[m].cpus[k].interrupts)
    decreases n
  {
    if m < n {
      WillBeRun(run, trace, m, n - 1, k);
      WillBeStep(run, trace, n - 1, k, run[m].cpus[k].interrupts);
    }
  }

  /** No CPU has process p, and b is saved with it. */
  ghost predicate Saved(s: State, p: nat, b: bool) {
    p < |s.procs| && s.procs[p].intena == b && forall k :: 0 <= k < |s.cpus| ==> s.cpus[k].proc != Some(p)
  }

  lemma SavedStep(s: State, x: Step, s': State, p: nat, b: bool)
    requires Taken(s, x, s') && Saved(s, p, b) && x.action != Dispatch(p)
    ensures Saved(s', p, b)
  {
  }

  lemma SwtchSaves(s: State, x: Step, s': State, p: nat)
    requires Inv(s) && Taken(s, x, s') && x.action == Swtch && By(s, x, p)
    ensures Saved(s', p, s.cpus[x.cpu].intena)
  {
    RunsOnce(s, x.cpu);
  }

  /** `sched` saves whether interrupts were enabled and gives it back: the process p that switched
      away at step m finds at its next dispatch, on whichever CPU, what it left. */
  lemma SchedKeepsIntena(run: seq<State>, trace: seq<Step>, m: nat, n: nat, p: nat)
    requires Traced(run, trace) && m < n < |trace| && trace[m].action == Swtch && By(run[m], trace[m], p)
    requires trace[n].action == Dispatch(p) && forall i :: m < i < n ==> trace[i].action != Dispatch(p)
    ensures trace[n].cpu < |run[n + 1].cpus|
    ensures run[n + 1].cpus[trace[n].cpu].intena == run[m].cpus[trace[m].cpu].intena
  {
    TracedStep(run, trace, m);
    SwtchSaves(run[m], trace[m], run[m + 1], p);
    SavedRun(run, trace, m + 1, n, p, run[m].cpus[trace[m].cpu].intena);
    assert Taken(run[n], trace[n], run[n + 1]);
  }

  lemma {:induction false} SavedRun(run: seq<State>, trace: seq<Step>, m: nat, n: nat, p: nat, b: bool)
    requires Traced(run, trace) && m <= n < |run| && Saved(run[m], p, b)
    requires forall i :: m <= i < n ==> trace[i].action != Dispatch(p)
    ensures Saved(run[n], p, b)
    decreases n
  {
    if m < n {
      SavedRun(run, trace, m, n - 1, p, b);
      assert Taken(run[n - 1], trace[n - 1], run[n]);
      SavedStep(run[n - 1], trace[n - 1], run[n], p, b);
    }
  }
}
