/** Every run of the calls that pass file references around. */
module FileRuns {
  import opened FileSpec
  import opened FileCalls
  import opened FileEffects

  /** The table and the processes that are there. */
  datatype Sys = Sys(t: Table, alive: set<nat>)

  datatype Action =
    | DoClose(p: nat, fd: int)
    | DoDup(p: nat, fd: int)
    | DoOpen(p: nat, ip: int)
    | DoPipe(p: nat, page: bool)
    | DoFork(p: nat, q: nat)
    | DoExit(p: nat)

  ghost predicate Init(s: Sys) {
    && Shape(s.t) && s.t.pipes == map[] && s.t.freed == [] && s.t.count == 0 && s.alive == {0}
    && (forall f :: 0 <= f < NFILE ==> s.t.files[f] == File(0, FdNone))
    && (forall i :: 0 <= i < |s.t.slots| ==> s.t.slots[i] == NONE)
  }

  ghost predicate SysInv(s: Sys) {
    && Inv(s.t, NOTHING) && (forall p :: p in s.alive ==> p < NPROC)
    && forall p :: 0 <= p < NPROC && p !in s.alive ==> RowEmpty(s.t, p, 0)
  }

  ghost predicate Enabled(s: Sys, a: Action) {
    a.p in s.alive && (a.DoFork? ==> a.q < NPROC && a.q !in s.alive)
  }

  /** The state after a call. */
  ghost function Apply(s: Sys, a: Action): Sys
    requires SysInv(s) && Enabled(s, a)
  {
    match a
    case DoClose(p, fd) => s.(t := SysClose(s.t, p, fd))
    case DoDup(p, fd) => s.(t := SysDup(s.t, p, fd))
    case DoOpen(p, ip) => s.(t := SysOpen(s.t, p, ip))
    case DoPipe(p, page) => s.(t := SysPipe(s.t, p, page))
    case DoFork(p, q) => Sys(Fork(s.t, p, q, 0), s.alive + {q})
    case DoExit(p) => Sys(Exit(s.t, p, 0), s.alive - {p})
  }

  /** What descriptor i of process p names. */
  ghost function At(slots: seq<int>, p: nat, i: nat): int
    requires |slots| == NPROC * NOFILE && p < NPROC && i < NOFILE
  {
    slots[Slot(p, i)]
  }

  /** From `from` on the descriptors of q are those that p has. */
  ghost predicate Copied(before: seq<int>, after: seq<int>, p: nat, q: nat, from: nat)
    requires |before| == |after| == NPROC * NOFILE && p < NPROC && q < NPROC
  {
    forall i :: 0 <= i < NOFILE ==> At(after, q, i) == if from <= i then At(before, p, i) else At(before, q, i)
  }

  /** The child's descriptors name the parent's files. */
  lemma ForkCopies(t: Table, p: nat, q: nat)
    requires Forking(t, p, q, 0)
    ensures Copied(t.slots, Fork(t, p, q, 0).slots, p, q, 0)
  {
    ForkTouchesSlots(t, p, q, 0);
    SlotsCopied(t.slots, p, q, 0);
  }

  lemma {:induction false} SlotsCopied(slots: seq<int>, p: nat, q: nat, fd: nat)
    requires |slots| == NPROC * NOFILE && p < NPROC && q < NPROC && p != q && fd <= NOFILE
    ensures Copied(slots, ForkSlots(slots, p, q, fd), p, q, fd)
    decreases NOFILE - fd
  {
    if fd < NOFILE {
      var next := slots[Slot(q, fd) := slots[Slot(p, fd)]];
      SlotsCopied(next, p, q, fd + 1);
      CopiedFrom(slots, ForkSlots(next, p, q, fd + 1), p, q, fd);
    }
  }

  lemma CopiedFrom(before: seq<int>, after: seq<int>, p: nat, q: nat, fd: nat)
    requires |before| == |after| == NPROC * NOFILE && p < NPROC && q < NPROC && p != q && fd < NOFILE
    requires Copied(before[Slot(q, fd) := before[Slot(p, fd)]], after, p, q, fd + 1)
    ensures Copied(before, after, p, q, fd)
  {
    var next := before[Slot(q, fd) := before[Slot(p, fd)]];
    forall i | 0 <= i < NOFILE ensures At(next, p, i) == At(before, p, i) {}
    forall i | 0 <= i < NOFILE && i != fd ensures At(next, q, i) == At(before, q, i) {}
    assert At(next, q, fd) == At(before, p, fd);
  }

  /** `exit` leaves no descriptor behind. */
  lemma {:induction false} ExitEmpties(t: Table, p: nat, fd: nat)
    requires Inv(t, NOTHING) && p < NPROC && fd <= NOFILE
    requires forall s :: Slot(p, 0) <= s < Slot(p, fd) ==> t.slots[s] == NONE
    ensures RowEmpty(Exit(t, p, fd), p, 0)
    decreases NOFILE - fd
  {
    if fd < NOFILE {
      ExitEmpties(SysClose(t, p, fd), p, fd + 1);
    }
  }

  lemma OthersStayEmpty(s: Sys, r: Table, p: nat)
    requires SysInv(s) && Inv(r, NOTHING) && p in s.alive && OthersKeep(s.t, r, p)
    ensures SysInv(s.(t := r))
  {
    forall q | 0 <= q < NPROC && q !in s.alive ensures RowEmpty(r, q, 0) { assert RowEmpty(s.t, q, 0); }
  }

  lemma InvStep(s: Sys, a: Action)
    requires SysInv(s) && Enabled(s, a)
    ensures SysInv(Apply(s, a))
  {
    match a
    case DoFork(p, q) => ForkStep(s, p, q);
    case DoExit(p) =>
      OthersStayEmpty(s, Apply(s, a).t, p);
      ExitEmpties(s.t, p, 0);
    case _ => OthersStayEmpty(s, Apply(s, a).t, a.p);
  }

  lemma ForkStep(s: Sys, p: nat, q: nat)
    requires SysInv(s) && Enabled(s, DoFork(p, q))
    ensures SysInv(Apply(s, DoFork(p, q)))
  {
    RowsStay(s, Fork(s.t, p, q, 0), q);
  }

  lemma RowsStay(s: Sys, r: Table, q: nat)
    requires SysInv(s) && Inv(r, NOTHING) && OthersKeep(s.t, r, q) && q < NPROC
    ensures SysInv(Sys(r, s.alive + {q}))
  {
    forall x | 0 <= x < NPROC && x !in s.alive && x != q ensures RowEmpty(r, x, 0) { assert RowEmpty(s.t, x, 0); }
  }

  /** A run of calls. `Apply` says what a call does where the invariant holds; nothing is
      assumed of a call made elsewhere, and RunInv shows that none is. */
  ghost predicate IsRun(run: seq<Sys>, trace: seq<Action>) {
    && |run| == |trace| + 1 && Init(run[0])
    && forall i :: 0 <= i < |trace| ==> Step(run[i], trace[i], run[i + 1])
  }

  ghost predicate Step(s: Sys, a: Action, s': Sys) { Enabled(s, a) && (SysInv(s) ==> s' == Apply(s, a)) }

  lemma InitInv(s: Sys)
    requires Init(s)
    ensures SysInv(s)
  {
    forall f | 0 <= f < NFILE ensures multiset(s.t.slots)[f] == 0 { assert f !in s.t.slots; }
  }

  lemma {:induction false} RunInv(run: seq<Sys>, trace: seq<Action>, n: nat)
    requires IsRun(run, trace) && n < |run|
    ensures SysInv(run[n])
  {
    if n == 0 {
      InitInv(run[0]);
    } else {
      RunInv(run, trace, n - 1);
      assert Step(run[n - 1], trace[n - 1], run[n]);
      InvStep(run[n - 1], trace[n - 1]);
    }
  }

  /** Between any two calls of any run the count of a file is the number of descriptors that
      name it. */
  lemma RefIsDescriptors(run: seq<Sys>, trace: seq<Action>, n: nat, f: int)
    requires IsRun(run, trace) && n < |run| && 0 <= f < NFILE
    ensures Shape(run[n].t) && run[n].t.files[f].ref == multiset(run[n].t.slots)[f]
  {
    RunInv(run, trace, n);
  }

  /** What a call makes of the table, without reference to how: where it can, what it is for, and
      otherwise nothing. */
  ghost predicate Does(t: Table, a: Action, r: Table)
    requires Shape(t) && a.p < NPROC
  {
    match a
    case DoDup(p, fd) =>
      if IsOpen(t, p, fd) && !NoneFree(t.slots, p, 0) then exists n :: Duplicated(t, r, p, fd, n) else r == t
    case DoOpen(p, ip) =>
      if !NoneUnused(t.files, 0) && !NoneFree(t.slots, p, 0) then exists n :: Opened(t, r, p, ip, n) else r == t
    case DoClose(p, fd) => if IsOpen(t, p, fd) then Closed(t, r, p, fd) else r == t
    case DoPipe(p, page) =>
      if page && TwoUnused(t.files) && SecondFree(t.slots, p, FreeFd(t.slots, p, 0)) < NOFILE
      then exists n0, n1 :: Piped(t, r, p, n0, n1) else NotPiped(t, r)
    case DoFork(p, q) => |r.slots| == |t.slots| && q < NPROC && Copied(t.slots, r.slots, p, q, 0)
    case DoExit(p) => Shape(r) && RowEmpty(r, p, 0)
  }

  /** Every call of every run has its effect and leaves the descriptors of the other processes alone. */
  lemma CallsHaveTheirEffect(run: seq<Sys>, trace: seq<Action>, n: nat)
    requires IsRun(run, trace) && n < |trace|
    ensures Shape(run[n].t) && trace[n].p < NPROC && Does(run[n].t, trace[n], run[n + 1].t)
    ensures OthersKeep(run[n].t, run[n + 1].t, if trace[n].DoFork? then trace[n].q else trace[n].p)
  {
    RunInv(run, trace, n);
    assert Step(run[n], trace[n], run[n + 1]);
    DoesStep(run[n], trace[n]);
  }

  lemma DoesStep(s: Sys, a: Action)
    requires SysInv(s) && Enabled(s, a)
    ensures a.p < NPROC && Does(s.t, a, Apply(s, a).t)
    ensures OthersKeep(s.t, Apply(s, a).t, if a.DoFork? then a.q else a.p)
  {
    match a
    case DoDup(p, fd) => DupDoes(s.t, p, fd);
    case DoOpen(p, ip) => OpenDoes(s.t, p, ip);
    case DoClose(p, fd) => CloseDoes(s.t, p, fd);
    case DoPipe(p, page) => PipeDoes(s.t, p, page);
    case DoFork(p, q) => ForkCopies(s.t, p, q);
    case DoExit(p) => ExitEmpties(s.t, p, 0);
  }

  ghost predicate Names(t: Table, i: nat)
    requires Shape(t)
  {
    exists s :: 0 <= s < |t.slots| && 0 <= t.slots[s] < NFILE && t.files[t.slots[s]].kind.FdPipe? &&
      t.files[t.slots[s]].kind.pipe == i
  }

  /** In every run the page of a pipe has been freed, and then once, exactly when no
      descriptor names either end. */
  lemma PageFreedOnce(run: seq<Sys>, trace: seq<Action>, n: nat, i: nat)
    requires IsRun(run, trace) && n < |run| && i < run[n].t.count
    ensures Shape(run[n].t) && (i in run[n].t.freed <==> !Names(run[n].t, i))
    ensures multiset(run[n].t.freed)[i] <= 1
  {
    RunInv(run, trace, n);
    var t := run[n].t;
    if i in t.pipes {
      var w := t.pipes[i].reader == NONE;
      assert EndOk(t, i, w);
      var f := End(t.pipes[i], w);
      assert multiset(t.slots)[f] > 0;
      assert f in t.slots;
    }
    Distinct(t.freed, i);
  }

  lemma {:induction false} Distinct(s: seq<nat>, i: nat)
    requires forall a, b :: 0 <= a < b < |s| ==> s[a] != s[b]
    ensures multiset(s)[i] <= 1
  {
    if s != [] {
      Distinct(s[1..], i);
      assert s == [s[0]] + s[1..];
      if s[0] == i { assert i !in s[1..]; }
    }
  }
}
