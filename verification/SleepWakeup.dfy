/** Spin locks, the scheduler hand-off and sleep/wakeup (spinlock.c, proc.c) as one state
    machine, for any number of processes, CPUs, locks and channels.

    Code outside sleep, wakeup and the scheduler is arbitrary: a CPU may acquire and release
    locks, change a condition whose lock it holds, and call sleep or wakeup. */
module SleepWakeup {
  import opened Common
  import opened ProcStates

  /** A sleep channel, together with the lock that its condition is checked under. */
  datatype Chan = Chan(id: nat, lock: nat)

  /** ptable.lock */
  const PTABLE: nat := 0

  /** `seen` is the generation of the condition that the process found false when it last
      called sleep; `intena` is what `sched` saves on the kernel stack. */
  datatype Proc = Proc(state: ProcState, chan: Option<Chan>, seen: nat, intena: bool)

  /** Where the code of a CPU stands. */
  datatype Code =
    | Scheduler(scanning: bool)                            // in scheduler(), with or without ptable.lock
    | Run                                                  // any code of the current process
    | Waking(chan: Chan, i: nat, covers: nat, own: bool)   // in wakeup1, at slot i
    | Sleep1(chan: Chan)                                   // in sleep(), holding the condition's lock
    | Sleep2(chan: Chan)                                   // and ptable.lock
    | Sleep3(chan: Chan)                                   // only ptable.lock
    | Switching                                            // in sched(), the state already changed
    | Resumed                                              // back from swtch

  /** `extra` is history: the locks that the last caller of sleep or sched held beside the one
      that the call is about. */
  datatype Cpu = Cpu(code: Code, proc: Option<nat>, held: set<nat>, ncli: int, intena: bool, interrupts: bool,
                     extra: set<nat>)

  /** `gen` counts how often each condition was made true, `woken` the newest generation that a
      completed wakeup covers. */
  datatype State = State(procs: seq<Proc>, cpus: seq<Cpu>, gen: map<Chan, nat>, woken: map<Chan, nat>)

  datatype Action =
    | Acquire(lock: nat) | Release(lock: nat)
    | MakeTrue(chan: Chan)
    | CallSleep(chan: Chan) | LockTable | DropLock | GoToSleep
    | LeaveCpu(exiting: bool)
    | Swtch | Dispatch(p: nat) | Resume
    | BeginScan | EndScan
    | CallWakeup(chan: Chan) | CallWakeup1(chan: Chan) | WakeSlot | FinishWakeup
    | Kill(p: nat) | AllocProc(p: nat) | ForkDone(p: nat) | Reap(p: nat)

  function Count(m: map<Chan, nat>, c: Chan): nat { if c in m then m[c] else 0 }

  /** pushcli, then take the lock. */
  function Locked(c: Cpu, l: nat): Cpu {
    c.(held := c.held + {l}, ncli := c.ncli + 1, interrupts := false,
       intena := if c.ncli == 0 then c.interrupts else c.intena)
  }

  /** Give the lock up, then popcli. */
  function Unlocked(c: Cpu, l: nat): Cpu {
    c.(held := c.held - {l}, ncli := c.ncli - 1, interrupts := c.interrupts || (c.ncli == 1 && c.intena))
  }

  ghost predicate Free(s: State, l: nat) {
    forall j :: 0 <= j < |s.cpus| ==> l !in s.cpus[j].held
  }

  /** The CPU runs ordinary code: that of its process, or an interrupt in the idle scheduler. */
  predicate Ordinary(c: Cpu) { c.code == Run || c.code == Scheduler(false) }

  function Back(c: Cpu): Code { if c.proc.Some? then Run else Scheduler(false) }

  /** The tests at the start of `sched`: each panics when it fails. */
  predicate HoldsTable(c: Cpu) { PTABLE in c.held }

  predicate OneLock(c: Cpu) { c.ncli == 1 }

  predicate NotRunning(s: State, c: Cpu) {
    c.proc.Some? && c.proc.value < |s.procs| && s.procs[c.proc.value].state != Running
  }

  predicate Uninterruptible(c: Cpu) { !c.interrupts }

  /** When CPU k may take the action. Where the kernel panics instead, the action is not enabled;
      SchedPanics says which of the panics of `sched` can be reached, and from where. */
  ghost predicate Enabled(s: State, k: nat, a: Action)
  {
    k < |s.cpus| &&
    var c := s.cpus[k];
    match a
    case Acquire(l) => Ordinary(c) && Free(s, l)
    case Release(l) => Ordinary(c) && l in c.held
    case MakeTrue(ch) => Ordinary(c) && ch.lock in c.held
    case CallSleep(ch) => c.code == Run && ch.lock in c.held
    case LockTable => c.code.Sleep1? && Free(s, PTABLE)
    case DropLock => c.code.Sleep2?
    case GoToSleep => c.code.Sleep3?
    case LeaveCpu(_) => c.code == Run && PTABLE in c.held
    case Swtch => c.code.Switching? && HoldsTable(c) && OneLock(c) && NotRunning(s, c) && Uninterruptible(c)
    case Dispatch(p) => c.code == Scheduler(true) && p < |s.procs| && s.procs[p].state == Runnable
    case Resume => c.code.Resumed?
    case BeginScan => c.code == Scheduler(false) && c.held == {} && Free(s, PTABLE)
    case EndScan => c.code == Scheduler(true)
    case CallWakeup(_) => Ordinary(c) && Free(s, PTABLE)
    case CallWakeup1(_) => c.code == Run && PTABLE in c.held
    case WakeSlot => c.code.Waking? && c.code.i < |s.procs|
    case FinishWakeup => c.code.Waking? && c.code.i == |s.procs|
    case Kill(p) => c.code == Run && PTABLE in c.held && p < |s.procs|
    case AllocProc(p) => c.code == Run && PTABLE in c.held && p < |s.procs| && s.procs[p].state == Unused
    case ForkDone(p) => c.code == Run && p < |s.procs| && s.procs[p].state == Embryo
    case Reap(p) => c.code == Run && PTABLE in c.held && p < |s.procs| && s.procs[p].state == Zombie
  }

  function SetCpu(s: State, k: nat, c: Cpu): State
    requires k < |s.cpus|
  {
    s.(cpus := s.cpus[k := c])
  }

  function SetProc(s: State, p: nat, pr: Proc): State
    requires p < |s.procs|
  {
    s.(procs := s.procs[p := pr])
  }

  /** Only RUNNABLE replaces SLEEPING. */
  function Awake(pr: Proc): Proc { if pr.state == Sleeping then pr.(state := Runnable) else pr }

  /** The state after the action. */
  function Apply(s: State, k: nat, a: Action): State
    requires k < |s.cpus| && (s.cpus[k].proc.Some? ==> s.cpus[k].proc.value < |s.procs|)
  {
    var c := s.cpus[k];
    match a
    case Acquire(l) => SetCpu(s, k, Locked(c, l))
    case Release(l) => SetCpu(s, k, Unlocked(c, l))
    case MakeTrue(ch) => s.(gen := s.gen[ch := Count(s.gen, ch) + 1])
    case CallSleep(ch) =>
      if c.proc.None? then s else   // panic("sleep")
      var p := c.proc.value;
      SetProc(SetCpu(s, k, c.(code := if ch.lock == PTABLE then Sleep3(ch) else Sleep1(ch),
                              extra := c.held - {ch.lock})),
              p, s.procs[p].(seen := Count(s.gen, ch)))
    case LockTable => if !c.code.Sleep1? then s else SetCpu(s, k, Locked(c, PTABLE).(code := Sleep2(c.code.chan)))
    case DropLock =>
      if !c.code.Sleep2? then s
      else SetCpu(s, k, Unlocked(c, c.code.chan.lock).(code := Sleep3(c.code.chan)))
    case GoToSleep =>
      if c.proc.None? || !c.code.Sleep3? then s else
      SetProc(SetCpu(s, k, c.(code := Switching)), c.proc.value,
              s.procs[c.proc.value].(chan := Some(c.code.chan), state := Sleeping))
    case LeaveCpu(exiting) =>
      if c.proc.None? then s else
      SetProc(SetCpu(s, k, c.(code := Switching, extra := c.held - {PTABLE})), c.proc.value,
              s.procs[c.proc.value].(state := if exiting then Zombie else Runnable))
    case Swtch =>
      if c.proc.None? then s else
      SetProc(SetCpu(s, k, c.(code := Scheduler(true), proc := None)), c.proc.value,
              s.procs[c.proc.value].(intena := c.intena))
    case Dispatch(p) =>
      if p >= |s.procs| then s else
      SetProc(SetCpu(s, k, c.(code := Resumed, proc := Some(p), intena := s.procs[p].intena)), p,
        s.procs[p].(state := Running))
    case Resume =>
      if c.proc.None? then s else
      SetProc(SetCpu(s, k, c.(code := Run)), c.proc.value, s.procs[c.proc.value].(chan := None))
    case BeginScan => SetCpu(s, k, Locked(c.(interrupts := true), PTABLE).(code := Scheduler(true)))
    case EndScan => SetCpu(s, k, Unlocked(c, PTABLE).(code := Scheduler(false)))
    case CallWakeup(ch) => SetCpu(s, k, Locked(c, PTABLE).(code := Waking(ch, 0, Count(s.gen, ch), true)))
    case CallWakeup1(ch) => SetCpu(s, k, c.(code := Waking(ch, 0, Count(s.gen, ch), false)))
    case WakeSlot =>
      if !c.code.Waking? || c.code.i >= |s.procs| then s else
      var i, pr := c.code.i, s.procs[c.code.i];
      SetProc(SetCpu(s, k, c.(code := c.code.(i := i + 1))), i, if pr.chan == Some(c.code.chan) then Awake(pr) else pr)
    case FinishWakeup =>
      if !c.code.Waking? then s else
      var ch, n := c.code.chan, c.code.covers;
      var s' := s.(woken := s.woken[ch := if n > Count(s.woken, ch) then n else Count(s.woken, ch)]);
      SetCpu(s', k, (if c.code.own then Unlocked(c, PTABLE) else c).(code := Back(c)))
    case Kill(p) => if p >= |s.procs| then s else SetProc(s, p, Awake(s.procs[p]))
    case AllocProc(p) => if p >= |s.procs| then s else SetProc(s, p, s.procs[p].(state := Embryo, chan := None))
    case ForkDone(p) => if p >= |s.procs| then s else SetProc(s, p, s.procs[p].(state := Runnable))
    case Reap(p) => if p >= |s.procs| then s else SetProc(s, p, s.procs[p].(state := Unused))
  }

  /** The locks a CPU holds at each point of sleep, wakeup and the scheduler. */
  ghost predicate LocksFit(c: Cpu) {
    match c.code
    case Scheduler(scanning) => c.proc.None? && (scanning ==> c.held == {PTABLE})
    case Run => c.proc.Some?
    case Waking(_, _, _, _) => PTABLE in c.held
    case Sleep1(ch) => c.proc.Some? && c.held == {ch.lock} + c.extra && ch.lock != PTABLE && ch.lock !in c.extra
    case Sleep2(ch) =>
      && c.proc.Some? && c.held == {ch.lock, PTABLE} + c.extra && ch.lock != PTABLE && ch.lock !in c.extra &&
           PTABLE !in c.extra
    case Sleep3(_) => c.proc.Some? && c.held == {PTABLE} + c.extra && PTABLE !in c.extra
    case Switching => c.proc.Some? && c.held == {PTABLE} + c.extra && PTABLE !in c.extra
    case Resumed => c.proc.Some? && c.held == {PTABLE}
  }

  /** ncli counts the locks held, and interrupts are off while there are any. */
  ghost predicate CliFits(c: Cpu) {
    c.ncli == |c.held| && (c.held != {} ==> !c.interrupts)
  }

  /** The process on a CPU is RUNNING until `sched` is about to switch away from it. */
  predicate StateFits(st: ProcState, code: Code) {
    if code.Switching? then st == Sleeping || st == Runnable || st == Zombie else st == Running
  }

  ghost predicate CpuOk(s: State, c: Cpu) {
    && LocksFit(c) && CliFits(c)
    && (c.proc.Some? ==> c.proc.value < |s.procs| && StateFits(s.procs[c.proc.value].state, c.code))
  }

  /** No lock is held twice and no process runs twice. */
  ghost predicate Exclusive(s: State) {
    forall j, k :: 0 <= j < k < |s.cpus| ==>
      s.cpus[j].held !! s.cpus[k].held && (s.cpus[j].proc.Some? ==> s.cpus[j].proc != s.cpus[k].proc)
  }

  /** A process in sleep() found the condition false, and it has not been made true and woken since. */
  ghost predicate SeenOk(s: State, c: Cpu)
    requires CpuOk(s, c)
  {
    match c.code
    case Sleep1(ch) => s.procs[c.proc.value].seen == Count(s.gen, ch)
    case Sleep2(ch) => s.procs[c.proc.value].seen == Count(s.gen, ch)
    case Sleep3(ch) => s.procs[c.proc.value].seen >= Count(s.woken, ch)
    case Waking(ch, i, n, _) =>
      && i <= |s.procs| && n <= Count(s.gen, ch)
      && forall q :: 0 <= q < i ==> !SleepsOn(s.procs[q], ch)
    case _ => true
  }

  predicate SleepsOn(pr: Proc, ch: Chan) { pr.state == Sleeping && pr.chan == Some(ch) }

  /** No lost wakeup: a process asleep on a channel checked its condition no earlier than the
      newest change that a completed wakeup covers. */
  ghost predicate NoLostWakeup(s: State) {
    forall p, ch :: 0 <= p < |s.procs| && SleepsOn(s.procs[p], ch) ==> Count(s.woken, ch) <= s.procs[p].seen
  }

  ghost predicate Inv(s: State) {
    && (forall k :: 0 <= k < |s.cpus| ==> CpuOk(s, s.cpus[k]) && SeenOk(s, s.cpus[k]))
    && Exclusive(s)
    && NoLostWakeup(s)
    && (forall p :: 0 <= p < |s.procs| && s.procs[p].state == Sleeping ==> s.procs[p].chan.Some?)
    && (forall ch :: Count(s.woken, ch) <= Count(s.gen, ch))
  }

  /** The new CPU c' of k and the new process pr of slot p clash with nothing else. */
  ghost predicate Fits(s: State, k: nat, c': Cpu, p: nat, pr: Proc)
    requires k < |s.cpus| && p < |s.procs|
  {
    var s' := SetProc(SetCpu(s, k, c'), p, pr);
    && CpuOk(s', c') && SeenOk(s', c')
    && (forall j :: 0 <= j < |s.cpus| && j != k ==> c'.held !! s.cpus[j].held && s.cpus[j].proc != Some(p))
    && (c'.proc == s.cpus[k].proc || c'.proc == None || c'.proc == Some(p))
    && (pr.state == Sleeping ==> pr.chan.Some? && Count(s.woken, pr.chan.value) <= pr.seen)
    && (pr.state == Sleeping ==> pr == s.procs[p] || forall j :: 0 <= j < |s.cpus| ==> !s.cpus[j].code.Waking?)
  }

  lemma InvUpdate(s: State, k: nat, c': Cpu, p: nat, pr: Proc)
    requires Inv(s) && k < |s.cpus| && p < |s.procs| && Fits(s, k, c', p, pr)
    ensures Inv(SetProc(SetCpu(s, k, c'), p, pr))
  {
  }

  lemma InvCpu(s: State, k: nat, c': Cpu)
    requires Inv(s) && k < |s.cpus| && CpuOk(s, c') && SeenOk(s, c') && c'.proc == s.cpus[k].proc
    requires forall j :: 0 <= j < |s.cpus| && j != k ==> c'.held !! s.cpus[j].held
    ensures Inv(SetCpu(s, k, c'))
  {
  }

  /** Acquiring and releasing locks, by whatever code. */
  lemma LockStep(s: State, k: nat, a: Action)
    requires Inv(s) && Enabled(s, k, a)
    requires a.Acquire? || a.Release? || a.BeginScan? || a.EndScan? || a.CallWakeup? || a.CallWakeup1?
    ensures Inv(Apply(s, k, a))
  {
    InvCpu(s, k, Apply(s, k, a).cpus[k]);
  }

  lemma SleepLockStep(s: State, k: nat, a: Action)
    requires Inv(s) && Enabled(s, k, a) && (a.LockTable? || a.DropLock?)
    ensures Inv(Apply(s, k, a))
  {
    InvCpu(s, k, Apply(s, k, a).cpus[k]);
  }

  /** Who holds ptable.lock has the process states to itself. */
  lemma TableIsMine(s: State, k: nat)
    requires Inv(s) && k < |s.cpus| && PTABLE in s.cpus[k].held
    ensures forall j :: 0 <= j < |s.cpus| && j != k ==>
      !s.cpus[j].code.Waking? && !s.cpus[j].code.Switching? && !s.cpus[j].code.Sleep3?
  {
    forall j | 0 <= j < |s.cpus| && j != k ensures PTABLE !in s.cpus[j].held {
      assert s.cpus[j].held !! s.cpus[k].held by { if j < k {} else {} }
    }
  }

  /** The running process of CPU k runs nowhere else. */
  lemma RunsOnce(s: State, k: nat)
    requires Inv(s) && k < |s.cpus| && s.cpus[k].proc.Some?
    ensures forall j :: 0 <= j < |s.cpus| && j != k ==> s.cpus[j].proc != s.cpus[k].proc
  {
    forall j | 0 <= j < |s.cpus| && j != k ensures s.cpus[j].proc != s.cpus[k].proc {
      if j < k {} else {}
    }
  }

  // The steps by which a process gives up its CPU or gets it back.

  lemma CallSleepStep(s: State, k: nat, ch: Chan)
    requires Inv(s) && Enabled(s, k, CallSleep(ch))
    ensures Inv(Apply(s, k, CallSleep(ch)))
  {
    var s', p := Apply(s, k, CallSleep(ch)), s.cpus[k].proc.value;
    RunsOnce(s, k);
    if PTABLE in s.cpus[k].held { TableIsMine(s, k); }
    InvUpdate(s, k, s'.cpus[k], p, s'.procs[p]);
  }

  lemma GoToSleepStep(s: State, k: nat)
    requires Inv(s) && Enabled(s, k, GoToSleep)
    ensures Inv(Apply(s, k, GoToSleep))
  {
    var s', p := Apply(s, k, GoToSleep), s.cpus[k].proc.value;
    RunsOnce(s, k);
    if PTABLE in s.cpus[k].held { TableIsMine(s, k); }
    InvUpdate(s, k, s'.cpus[k], p, s'.procs[p]);
  }

  lemma LeaveStep(s: State, k: nat, exiting: bool)
    requires Inv(s) && Enabled(s, k, LeaveCpu(exiting))
    ensures Inv(Apply(s, k, LeaveCpu(exiting)))
  {
    var s', p := Apply(s, k, LeaveCpu(exiting)), s.cpus[k].proc.value;
    RunsOnce(s, k);
    if PTABLE in s.cpus[k].held { TableIsMine(s, k); }
    InvUpdate(s, k, s'.cpus[k], p, s'.procs[p]);
  }

  lemma SwtchStep(s: State, k: nat)
    requires Inv(s) && Enabled(s, k, Swtch)
    ensures Inv(Apply(s, k, Swtch))
  {
    var s', p := Apply(s, k, Swtch), s.cpus[k].proc.value;
    Alone(s.cpus[k].held, s.cpus[k].extra);
    RunsOnce(s, k);
    if PTABLE in s.cpus[k].held { TableIsMine(s, k); }
    InvUpdate(s, k, s'.cpus[k], p, s'.procs[p]);
  }

  lemma ResumeStep(s: State, k: nat)
    requires Inv(s) && Enabled(s, k, Resume)
    ensures Inv(Apply(s, k, Resume))
  {
    var s', p := Apply(s, k, Resume), s.cpus[k].proc.value;
    RunsOnce(s, k);
    if PTABLE in s.cpus[k].held { TableIsMine(s, k); }
    InvUpdate(s, k, s'.cpus[k], p, s'.procs[p]);
  }

  lemma DispatchStep(s: State, k: nat, p: nat)
    requires Inv(s) && Enabled(s, k, Dispatch(p))
    ensures Inv(Apply(s, k, Dispatch(p)))
  {
    var s' := Apply(s, k, Dispatch(p));
    TableIsMine(s, k);
    InvUpdate(s, k, s'.cpus[k], p, s'.procs[p]);
  }

  /** One CPU changes the state of some other process. */
  lemma OtherStep(s: State, k: nat, a: Action)
    requires Inv(s) && Enabled(s, k, a) && (a.Kill? || a.AllocProc? || a.ForkDone? || a.Reap?)
    ensures Inv(Apply(s, k, a))
  {
    if PTABLE in s.cpus[k].held { TableIsMine(s, k); }
    var pr := Apply(s, k, a).procs[a.p];
    if s.procs[a.p].state == Running {
      assert s.procs[a.p := pr] == s.procs;
    } else {
      assert s.cpus[k := s.cpus[k]] == s.cpus;
      InvUpdate(s, k, s.cpus[k], a.p, pr);
    }
  }

  /** One turn of the loop in wakeup1. */
  lemma WakeSlotStep(s: State, k: nat)
    requires Inv(s) && Enabled(s, k, WakeSlot)
    ensures Inv(Apply(s, k, WakeSlot))
  {
    TableIsMine(s, k);
    var s', i := Apply(s, k, WakeSlot), s.cpus[k].code.i;
    if s.procs[i].state == Sleeping {
      InvUpdate(s, k, s'.cpus[k], i, s'.procs[i]);
    } else {
      assert s'.procs == s.procs;
      InvCpu(s, k, s'.cpus[k]);
    }
  }

  /** A condition changes: nobody else is between checking it and holding ptable.lock. */
  lemma MakeTrueStep(s: State, k: nat, ch: Chan)
    requires Inv(s) && Enabled(s, k, MakeTrue(ch))
    ensures Inv(Apply(s, k, MakeTrue(ch)))
  {
    var s' := Apply(s, k, MakeTrue(ch));
    forall j | 0 <= j < |s.cpus| ensures CpuOk(s', s'.cpus[j]) && SeenOk(s', s'.cpus[j]) {
      assert j != k ==> s.cpus[j].held !! s.cpus[k].held by { if j < k {} else {} }
    }
  }

  /** A wakeup completes: nobody sleeps on its channel, or is on the way to. */
  lemma FinishStep(s: State, k: nat)
    requires Inv(s) && Enabled(s, k, FinishWakeup)
    ensures Inv(Apply(s, k, FinishWakeup))
  {
    var c := s.cpus[k];
    var n := if c.code.covers > Count(s.woken, c.code.chan) then c.code.covers else Count(s.woken, c.code.chan);
    CoveredInv(s, k, n);
    InvCpu(s.(woken := s.woken[c.code.chan := n]), k, Apply(s, k, FinishWakeup).cpus[k]);
  }

  lemma CoveredInv(s: State, k: nat, n: nat)
    requires Inv(s) && Enabled(s, k, FinishWakeup) && n <= Count(s.gen, s.cpus[k].code.chan)
    ensures Inv(s.(woken := s.woken[s.cpus[k].code.chan := n]))
  {
    TableIsMine(s, k);
    var c := s.cpus[k];
    var mid := s.(woken := s.woken[c.code.chan := n]);
    assert SeenOk(s, c);
    forall p, ch | 0 <= p < |mid.procs| && SleepsOn(mid.procs[p], ch)
      ensures Count(mid.woken, ch) <= mid.procs[p].seen
    {
      assert c.code.i == |s.procs|;
      assert !SleepsOn(s.procs[p], c.code.chan);
      assert Count(s.woken, ch) <= s.procs[p].seen;
    }
    forall j | 0 <= j < |s.cpus| ensures CpuOk(mid, mid.cpus[j]) && SeenOk(mid, mid.cpus[j]) {
      assert CpuOk(s, s.cpus[j]) && SeenOk(s, s.cpus[j]);
    }
  }

  /** Every action of every CPU keeps the invariant. */
  lemma InvStep(s: State, k: nat, a: Action)
    requires Inv(s) && Enabled(s, k, a)
    ensures Inv(Apply(s, k, a))
  {
    match a
    case Acquire(_) => LockStep(s, k, a);
    case Release(_) => LockStep(s, k, a);
    case BeginScan => LockStep(s, k, a);
    case EndScan => LockStep(s, k, a);
    case CallWakeup(_) => LockStep(s, k, a);
    case CallWakeup1(_) => LockStep(s, k, a);
    case LockTable => SleepLockStep(s, k, a);
    case DropLock => SleepLockStep(s, k, a);
    case CallSleep(ch) => CallSleepStep(s, k, ch);
    case GoToSleep => GoToSleepStep(s, k);
    case LeaveCpu(exiting) => LeaveStep(s, k, exiting);
    case Swtch => SwtchStep(s, k);
    case Resume => ResumeStep(s, k);
    case Dispatch(p) => DispatchStep(s, k, p);
    case WakeSlot => WakeSlotStep(s, k);
    case Kill(_) => OtherStep(s, k, a);
    case AllocProc(_) => OtherStep(s, k, a);
    case ForkDone(_) => OtherStep(s, k, a);
    case Reap(_) => OtherStep(s, k, a);
    case MakeTrue(ch) => MakeTrueStep(s, k, ch);
    case FinishWakeup => FinishStep(s, k);
  }

  /** Every CPU in the scheduler with no lock, nobody asleep yet. */
  ghost predicate Init(s: State) {
    && (forall k :: 0 <= k < |s.cpus| ==>
          s.cpus[k].code == Scheduler(false) && s.cpus[k].proc == None && s.cpus[k].held == {} && s.cpus[k].ncli == 0)
    && (forall p :: 0 <= p < |s.procs| ==> s.procs[p].state == Unused || s.procs[p].state == Runnable)
    && s.gen == map[] && s.woken == map[]
  }

  /** A run: each state follows from the one before by some action of some CPU. */
  ghost predicate IsRun(run: seq<State>) {
    && |run| > 0 && Init(run[0])
    && forall i :: 0 < i < |run| ==> StepTo(run, i)
  }

  ghost predicate StepTo(run: seq<State>, i: nat)
    requires 0 < i < |run|
  {
    Follows(run[i - 1], run[i])
  }

  ghost predicate Follows(s: State, s': State) {
    exists k: nat, a: Action :: Enabled(s, k, a)
      && (s.cpus[k].proc.Some? ==> s.cpus[k].proc.value < |s.procs|) && s' == Apply(s, k, a)
  }

  lemma {:induction false} RunInv(run: seq<State>, n: nat)
    requires IsRun(run) && n < |run|
    ensures Inv(run[n])
  {
    if n > 0 {
      RunInv(run, n - 1);
      assert StepTo(run, n);
      var k: nat, a: Action :| Enabled(run[n - 1], k, a)
        && (run[n - 1].cpus[k].proc.Some? ==> run[n - 1].cpus[k].proc.value < |run[n - 1].procs|)
        && run[n] == Apply(run[n - 1], k, a);
      InvStep(run[n - 1], k, a);
    }
  }

  /** In no state of any run is a wakeup lost: if the condition became true after a sleeper
      checked it, no wakeup that began later has completed. */
  lemma WakeupsAreNeverLost(run: seq<State>, n: nat, p: nat, ch: Chan)
    requires IsRun(run) && n < |run| && p < |run[n].procs| && SleepsOn(run[n].procs[p], ch)
    ensures Count(run[n].woken, ch) <= run[n].procs[p].seen
  {
    RunInv(run, n);
  }

  /** Whenever `sched` is entered, in any run, three of its four tests pass, so their panics are
      not reached. The fourth, "sched locks", panics exactly if the caller of sleep, yield or exit
      held a lock beside the one the call is about. */
  lemma SchedPanics(run: seq<State>, n: nat, k: nat)
    requires IsRun(run) && n < |run| && k < |run[n].cpus| && run[n].cpus[k].code.Switching?
    ensures var c := run[n].cpus[k]; HoldsTable(c) && NotRunning(run[n], c) && Uninterruptible(c)
    ensures OneLock(run[n].cpus[k]) <==> run[n].cpus[k].extra == {}
  {
    RunInv(run, n);
    var c := run[n].cpus[k];
    Alone(c.held, c.extra);
  }

  lemma Alone(held: set<nat>, extra: set<nat>)
    requires held == {PTABLE} + extra && PTABLE !in extra
    ensures |held| == 1 + |extra| && (|held| == 1 <==> extra == {})
  {
  }

  /** What `extra` is: in every run, from the step in which a CPU calls sleep or enters sched until
      it has switched, it is what the CPU held at that step beside the lock of the call. */
  lemma {:induction false} ExtraIsTheCallers(run: seq<State>, m: nat, n: nat, k: nat, lock: nat)
    requires IsRun(run) && 0 < m <= n < |run| && k < |run[m - 1].cpus| && lock in run[m - 1].cpus[k].held
    requires CallsWith(run[m - 1], run[m], k, lock)
    requires forall i :: m <= i <= n ==> InCallAt(run, i, k)
    ensures k < |run[n].cpus| && run[n].cpus[k].extra == run[m - 1].cpus[k].held - {lock}
    decreases n
  {
    if m < n {
      ExtraIsTheCallers(run, m, n - 1, k, lock);
      assert StepTo(run, n) && InCallAt(run, n - 1, k) && InCallAt(run, n, k);
      ExtraStays(run[n - 1], run[n], k);
    }
  }

  ghost predicate InCallAt(run: seq<State>, i: nat, k: nat) {
    i < |run| && k < |run[i].cpus| && InCall(run[i].cpus[k])
  }

  /** CPU k calls sleep with this lock, or leaves the CPU with ptable.lock. */
  ghost predicate Calls(s: State, s': State, k: nat, a: Action, lock: nat) {
    && Enabled(s, k, a) && s.cpus[k].proc.Some? && s.cpus[k].proc.value < |s.procs| && s' == Apply(s, k, a)
    && ((a.CallSleep? && a.chan.lock == lock) || (a.LeaveCpu? && lock == PTABLE))
  }

  ghost predicate CallsWith(s: State, s': State, k: nat, lock: nat) { exists a: Action :: Calls(s, s', k, a, lock) }

  predicate InCall(c: Cpu) { c.code.Sleep1? || c.code.Sleep2? || c.code.Sleep3? || c.code.Switching? }

  lemma ExtraStays(s: State, s': State, k: nat)
    requires Follows(s, s') && k < |s.cpus| && k < |s'.cpus| && InCall(s.cpus[k]) && InCall(s'.cpus[k])
    ensures s'.cpus[k].extra == s.cpus[k].extra
  {
    var j: nat, a: Action :| Enabled(s, j, a) && (s.cpus[j].proc.Some? ==> s.cpus[j].proc.value < |s.procs|) &&
      s' == Apply(s, j, a);
    if j == k { OwnStep(s, k, a); } else { OthersStep(s, j, a, k); }
  }

  /** A step of CPU j changes no other CPU. */
  lemma OthersStep(s: State, j: nat, a: Action, k: nat)
    requires j < |s.cpus| && (s.cpus[j].proc.Some? ==> s.cpus[j].proc.value < |s.procs|) && k < |s.cpus| && j != k
    ensures |Apply(s, j, a).cpus| == |s.cpus| && Apply(s, j, a).cpus[k] == s.cpus[k]
  {
  }

  lemma OwnStep(s: State, k: nat, a: Action)
    requires Enabled(s, k, a) && (s.cpus[k].proc.Some? ==> s.cpus[k].proc.value < |s.procs|) && InCall(s.cpus[k])
    ensures |Apply(s, k, a).cpus| == |s.cpus| && Apply(s, k, a).cpus[k].extra == s.cpus[k].extra
  {
  }

  /** A switch hands over ptable.lock as the only lock held, from a process to the scheduler and
      from the scheduler to a process. */
  lemma SwitchHandsOverTable(run: seq<State>, n: nat, k: nat, a: Action)
    requires IsRun(run) && n < |run| && Enabled(run[n], k, a) && (a.Swtch? || a.Dispatch?)
    ensures run[n].cpus[k].proc.Some? ==> run[n].cpus[k].proc.value < |run[n].procs|
    ensures run[n].cpus[k].held == {PTABLE} && Apply(run[n], k, a).cpus[k].held == {PTABLE}
  {
    RunInv(run, n);
    if a.Swtch? { SchedPanics(run, n, k); }
  }

  /** "sched locks" is reached: a process that was just dispatched, and so holds ptable.lock, takes
      another lock and yields. */
  lemma SchedLocksReached() returns (run: seq<State>)
    ensures IsRun(run) && |run| == 6 && |run[5].cpus| == 1
    ensures run[5].cpus[0].code.Switching? && !OneLock(run[5].cpus[0])
  {
    var idle := Cpu(Scheduler(false), None, {}, 0, false, true, {});
    var s0 := State([Proc(Runnable, None, 0, true)], [idle], map[], map[]);
    var s1 := Apply(s0, 0, BeginScan);
    var s2 := Apply(s1, 0, Dispatch(0));
    var s3 := Apply(s2, 0, Resume);
    var s4 := Apply(s3, 0, Acquire(1));
    var s5 := Apply(s4, 0, LeaveCpu(false));
    run := [s0, s1, s2, s3, s4, s5];
    Took(s0, 0, BeginScan);
    Took(s1, 0, Dispatch(0));
    Took(s2, 0, Resume);
    Took(s3, 0, Acquire(1));
    Took(s4, 0, LeaveCpu(false));
    forall i | 0 < i < |run| ensures StepTo(run, i) {
      assert i == 1 || i == 2 || i == 3 || i == 4 || i == 5;
    }
  }

  lemma Took(s: State, k: nat, a: Action)
    requires Enabled(s, k, a) && (s.cpus[k].proc.Some? ==> s.cpus[k].proc.value < |s.procs|)
    ensures Follows(s, Apply(s, k, a))
  {
  }

  /** Between CPUs, no lock is held twice and no process runs twice. */
  lemma MutualExclusion(run: seq<State>, n: nat, j: nat, k: nat)
    requires IsRun(run) && n < |run| && j < |run[n].cpus| && k < |run[n].cpus| && j != k
    ensures run[n].cpus[j].held !! run[n].cpus[k].held
    ensures run[n].cpus[j].proc.Some? ==> run[n].cpus[j].proc != run[n].cpus[k].proc
  {
    RunInv(run, n);
    if j < k {} else {}
  }
}
