/** What fork, exit, wait, kill and the scheduler do to one process, over whole runs (proc.c). */
module ProcRuns {
  import opened Common
  import opened ProcStates
  import opened ProcTree

  /** Who a step wakes: the sleepers on a channel, the first process with the pid of a kill, or the
      parent of a process that exits and init. */
  ghost predicate Wakes(t: Table, a: Action, i: nat)
    requires Enabled(t, a) && i < |t.procs|
  {
    && t.procs[i].state == Sleeping
    && match a
       case WakeOther(id) => t.procs[i].chan == Some(Other(id))
       case DoKill(pid) => t.procs[i].pid == pid && forall j :: 0 <= j < i ==> t.procs[j].pid != pid
       case DoExit(cur) => WokenByExit(t.procs, t.init, cur, t.procs[i])
       case _ => false
  }

  /** The life of a process: which step on process i takes it from which state to which. */
  predicate Diagram(a: Action, i: nat, woken: bool, x: ProcState, y: ProcState) {
    && (x == Unused && y == Embryo <==> a == Alloc(i))
    && (x == Embryo && y == Unused <==> a == ForkFails(i))
    && (x == Embryo && y == Runnable <==> a == ForkDone(i))
    && (x == Runnable && y == Running <==> a == Schedule(i))
    && (x == Running && y == Runnable <==> a == Yield(i))
    && (x == Running && y == Sleeping <==> (a.WaitSleeps? || a.SleepOther?) && a.cur == i)
    && (x == Running && y == Zombie <==> a == DoExit(i))
    && (x == Sleeping && y == Runnable <==> woken)
    && (x == Zombie && y == Unused <==> a.Reap? && a.i == i)
    && (x != y ==> Edge(x, y))
  }

  predicate Edge(x: ProcState, y: ProcState) {
    match x
    case Unused => y == Embryo
    case Embryo => y == Unused || y == Runnable
    case Runnable => y == Running
    case Running => y == Runnable || y == Sleeping || y == Zombie
    case Sleeping => y == Runnable
    case Zombie => y == Unused
  }

  /** Every step moves every process as the diagram says, and no process otherwise. */
  lemma LifeCycle(t: Table, a: Action, i: nat)
    requires Enabled(t, a) && i < |t.procs|
    ensures i < |Apply(t, a).procs|
    ensures Diagram(a, i, Wakes(t, a, i), t.procs[i].state, Apply(t, a).procs[i].state)
  {
    match a
    case DoKill(pid) => KilledSlot(t.procs, pid, i);
    case DoExit(cur) => ExitedSlots(t.procs, t.init, cur);
    case _ =>
  }

  ghost predicate IsFirst(ps: seq<Proc>, pid: int, i: nat)
    requires i < |ps|
  {
    ps[i].pid == pid && forall j :: 0 <= j < i ==> ps[j].pid != pid
  }

  lemma {:induction false} FirstPidIs(ps: seq<Proc>, pid: int)
    ensures var f := FirstPid(ps, pid);
      (forall j :: 0 <= j < f ==> ps[j].pid != pid) && (f < |ps| ==> ps[f].pid == pid)
  {
    if ps != [] && ps[0].pid != pid {
      FirstPidIs(ps[1..], pid);
      var f := FirstPid(ps, pid);
      forall j | 0 <= j < f ensures ps[j].pid != pid { if j > 0 { assert ps[1..][j - 1] == ps[j]; } }
    }
  }

  lemma KilledSlot(ps: seq<Proc>, pid: int, i: nat)
    requires i < |ps|
    ensures var state := if ps[i].state == Sleeping then Runnable else ps[i].state;
      Killed(ps, pid)[i] == if IsFirst(ps, pid, i) then ps[i].(killed := true, state := state) else ps[i]
  {
    FirstPidIs(ps, pid);
  }

  /** No pid but 0 is on two slots, not even on a free one that a failed fork left behind. */
  ghost predicate PidsUnique(t: Table) {
    && (forall p, q :: 0 <= p < q < |t.procs| && t.procs[p].pid != 0 ==> t.procs[p].pid != t.procs[q].pid)
    && forall p :: 0 <= p < |t.procs| ==> t.procs[p].pid < t.nextpid
  }

  /** Only alloc and reap change a pid, and only in their slot. */
  lemma PidStep(t: Table, a: Action, p: nat)
    requires Enabled(t, a) && p < |t.procs|
    ensures var t' := Apply(t, a);
      && |t'.procs| == |t.procs| && t'.nextpid == (if a.Alloc? then t.nextpid + 1 else t.nextpid)
      && t'.procs[p].pid == if a == Alloc(p) then t.nextpid else if a.Reap? && a.i == p then 0 else t.procs[p].pid
  {
  }

  lemma PidsUniqueStep(t: Table, a: Action)
    requires 0 < t.nextpid && PidsUnique(t) && Enabled(t, a)
    ensures PidsUnique(Apply(t, a))
  {
    var t' := Apply(t, a);
    var n := |t.procs|;
    var i := if a.Alloc? || a.Reap? then a.i else n;
    forall p | 0 <= p < n ensures |t'.procs| == n && (p != i ==> t'.procs[p].pid == t.procs[p].pid) {
      PidStep(t, a, p);
    }
    if i < n {
      PidStep(t, a, i);
      NewPid(t, t', i);
    } else if n > 0 {
      PidStep(t, a, 0);
    }
  }

  lemma NewPid(t: Table, t': Table, i: nat)
    requires PidsUnique(t) && t'.nextpid >= t.nextpid > 0 && i < |t.procs| == |t'.procs|
    requires forall p :: 0 <= p < |t.procs| && p != i ==> t'.procs[p].pid == t.procs[p].pid
    requires t'.procs[i].pid == 0 || t'.procs[i].pid == t.nextpid < t'.nextpid
    ensures PidsUnique(t')
  {
  }

  lemma {:induction false} TracedInv(run: seq<Table>, trace: seq<Action>, n: nat)
    requires Traced(run, trace) && n < |run|
    ensures Inv(run[n])
  {
    if n == 0 {
      InitInv(run[0]);
    } else {
      TracedInv(run, trace, n - 1);
      InvStep(run[n - 1], trace[n - 1]);
    }
  }

  lemma {:induction false} PidsUniqueRun(run: seq<Table>, trace: seq<Action>, n: nat)
    requires Traced(run, trace) && n < |run|
    ensures PidsUnique(run[n])
  {
    if n > 0 {
      PidsUniqueRun(run, trace, n - 1);
      assert 0 < run[n - 1].nextpid by { TracedInv(run, trace, n - 1); }
      PidsUniqueStep(run[n - 1], trace[n - 1]);
    }
  }

  /** In every run, a kill of a process that is not yet reaped marks that process and no other: it
      is runnable if it slept and otherwise in the state it was in, and nothing else changes. */
  lemma KillHitsTheProcess(run: seq<Table>, trace: seq<Action>, n: nat, i: nat)
    requires Traced(run, trace) && n < |trace| && i < |run[n].procs| && run[n].procs[i].state != Unused
    requires trace[n] == DoKill(run[n].procs[i].pid)
    ensures var p := run[n].procs[i];
      var state := if p.state == Sleeping then Runnable else p.state;
      run[n + 1] == run[n].(procs := run[n].procs[i := p.(killed := true, state := state)])
  {
    PidsUniqueRun(run, trace, n);
    assert run[n].procs[i].pid != 0 by { TracedInv(run, trace, n); }
    var ps, pid := run[n].procs, run[n].procs[i].pid;
    forall j | 0 <= j < |ps| && j != i ensures ps[j].pid != pid { if j < i {} else {} }
    forall j | 0 <= j < |ps| ensures IsFirst(ps, pid, j) <==> j == i {}
    forall j | 0 <= j < |ps| ensures j != i ==> Killed(ps, pid)[j] == ps[j] { KilledSlot(ps, pid, j); }
    KilledSlot(ps, pid, i);
  }

  /** A kill of a pid that no process has, in use or left behind, changes nothing. */
  lemma KillOfNoOne(t: Table, pid: int)
    requires forall i :: 0 <= i < |t.procs| ==> t.procs[i].pid != pid
    ensures Apply(t, DoKill(pid)) == t
  {
    FirstPidIs(t.procs, pid);
  }

  lemma KilledStep(t: Table, a: Action, i: nat)
    requires Enabled(t, a) && i < |t.procs| && t.procs[i].killed
    ensures i < |Apply(t, a).procs|
    ensures Apply(t, a).procs[i].killed || (a.Reap? && a.i == i)
  {
    match a
    case DoKill(pid) => KilledSlot(t.procs, pid, i);
    case _ =>
  }

  /** In every run, a killed process stays killed as long as it has its slot. */
  lemma {:induction false} KilledStaysKilled(run: seq<Table>, trace: seq<Action>, m: nat, n: nat, i: nat)
    requires Traced(run, trace) && m <= n < |run| && i < |run[m].procs| && run[m].procs[i].killed
    requires forall k :: m <= k < n ==> !(trace[k].Reap? && trace[k].i == i)
    ensures i < |run[n].procs| && run[n].procs[i].killed
    decreases n
  {
    if m < n {
      KilledStaysKilled(run, trace, m, n - 1, i);
      KilledStep(run[n - 1], trace[n - 1], i);
    }
  }
}
