/** The process tree (proc.c): fork, exit, wait and kill, each critical section under
    ptable.lock one step.

    The functions give each section's effect on the table; the class runs the table-scanning
    loops and is proved against them. */
module ProcTree {
  import opened Common
  import opened ProcStates

  /** A sleep channel: the address of a process slot, which only `wait` sleeps on, or any other. */
  datatype Chan = OfProc(p: nat) | Other(id: nat)

  datatype Proc = Proc(state: ProcState, pid: int, parent: Option<nat>, chan: Option<Chan>, killed: bool)

  /** The table, the next pid, and the pids that `wait` has returned so far. */
  datatype Table = Table(procs: seq<Proc>, init: nat, nextpid: int, reaped: seq<int>)

  predicate SleepsOn(p: Proc, ch: Chan) { p.state == Sleeping && p.chan == Some(ch) }

  predicate Alive(p: Proc) { p.state == Sleeping || p.state == Runnable || p.state == Running }

  /** `wakeup1` of one slot. */
  function Woken(p: Proc, ch: Chan): Proc { if SleepsOn(p, ch) then p.(state := Runnable) else p }

  /** `wakeup1`: everyone asleep on ch becomes runnable. */
  function WakeAll(procs: seq<Proc>, ch: Chan): (r: seq<Proc>)
    ensures |r| == |procs|
  {
    seq(|procs|, i requires 0 <= i < |procs| => Woken(procs[i], ch))
  }

  predicate IsChild(p: Proc, q: nat) { p.parent == Some(q) }

  /** The children of cur among the first n slots pass to init. */
  function Adopted(procs: seq<Proc>, cur: nat, init: nat, n: nat): (r: seq<Proc>)
    ensures |r| == |procs|
  {
    seq(|procs|, i requires 0 <= i < |procs| =>
      if i < n && IsChild(procs[i], cur) then procs[i].(parent := Some(init)) else procs[i])
  }

  ghost predicate ZombieChild(procs: seq<Proc>, q: nat, n: nat) {
    exists i :: 0 <= i < |procs| && i < n && IsChild(procs[i], q) && procs[i].state == Zombie
  }

  /** The table after `exit` by cur: its parent is woken, its children go to init (which is woken
      if one of them is a zombie), and cur is a zombie. */
  ghost function Exited(procs: seq<Proc>, init: nat, cur: nat): (r: seq<Proc>)
    requires cur < |procs| && procs[cur].parent.Some?
    ensures |r| == |procs|
  {
    var ps := WakeAll(procs, OfProc(procs[cur].parent.value));
    var qs := Adopted(ps, cur, init, |ps|);
    var rs := if ZombieChild(procs, cur, |procs|) then WakeAll(qs, OfProc(init)) else qs;
    rs[cur := rs[cur].(state := Zombie)]
  }

  /** p sleeps in `wait` as the parent of cur, or as init to whom cur leaves a zombie. */
  ghost predicate WokenByExit(procs: seq<Proc>, init: nat, cur: nat, p: Proc)
    requires cur < |procs| && procs[cur].parent.Some?
  {
    SleepsOn(p, OfProc(procs[cur].parent.value)) ||
    (SleepsOn(p, OfProc(init)) && ZombieChild(procs, cur, |procs|))
  }

  datatype WaitResult = Reaped(slot: nat, pid: int) | NoChild | Asleep

  /** A slot that `wait` has reaped. */
  function Cleared(p: Proc): Proc { Proc(Unused, 0, None, p.chan, false) }

  class ProcTable {
    var procs: seq<Proc>
    const init: nat
    var nextpid: int
    ghost var reaped: seq<int>

    constructor (procs: seq<Proc>, init: nat, nextpid: int)
      ensures this.procs == procs && this.init == init && this.nextpid == nextpid && reaped == []
    {
      this.procs, this.init, this.nextpid, reaped := procs, init, nextpid, [];
    }

    method Wakeup1(ch: Chan)
      modifies this`procs
      ensures procs == WakeAll(old(procs), ch)
      ensures |procs| == |old(procs)| && forall i :: 0 <= i < |procs| ==>
        if old(procs)[i].state == Sleeping && old(procs)[i].chan == Some(ch)
        then procs[i] == old(procs)[i].(state := Runnable) else procs[i] == old(procs)[i]
    {
      var i := 0;
      while i < |procs|
        invariant 0 <= i <= |procs| == |old(procs)|
        invariant forall j :: 0 <= j < i ==> procs[j] == Woken(old(procs)[j], ch)
        invariant forall j :: i <= j < |procs| ==> procs[j] == old(procs)[j]
      {
        if procs[i].state == Sleeping && procs[i].chan == Some(ch) {
          procs := procs[i := procs[i].(state := Runnable)];
        }
        i := i + 1;
      }
    }

    /** Find an unused slot and make it an embryo with a fresh pid. */
    method AllocProc() returns (r: Option<nat>)
      modifies this`procs, this`nextpid
      ensures r.None? ==>
        procs == old(procs) && nextpid == old(nextpid) && forall i :: 0 <= i < |procs| ==> procs[i].state != Unused
      ensures r.Some? ==>
        && r.value < |old(procs)| && old(procs)[r.value].state == Unused && nextpid == old(nextpid) + 1
        && (forall j :: 0 <= j < r.value ==> old(procs)[j].state != Unused)
        && procs == old(procs)[r.value := old(procs)[r.value].(state := Embryo, pid := old(nextpid))]
    {
      var i := 0;
      while i < |procs|
        invariant 0 <= i <= |procs| && procs == old(procs) && nextpid == old(nextpid)
        invariant forall j :: 0 <= j < i ==> procs[j].state != Unused
      {
        if procs[i].state == Unused {
          procs := procs[i := procs[i].(state := Embryo, pid := nextpid)];
          nextpid := nextpid + 1;
          return Some(i);
        }
        i := i + 1;
      }
      r := None;
    }

    /** The part of `exit` under ptable.lock, for a process other than init. */
    method Exit(cur: nat)
      requires cur < |procs| && init < |procs| && cur != init && procs[cur].parent.Some?
      modifies this`procs
      ensures procs == Exited(old(procs), init, cur)
      ensures |procs| == |old(procs)|
      ensures forall i :: 0 <= i < |procs| ==>
        && procs[i].parent == (if old(procs)[i].parent == Some(cur) then Some(init) else old(procs)[i].parent)
        && procs[i].pid == old(procs)[i].pid && procs[i].chan == old(procs)[i].chan
        && procs[i].killed == old(procs)[i].killed
        && procs[i].state ==
          (if i == cur then Zombie
           else if WokenByExit(old(procs), init, cur, old(procs)[i]) then Runnable else old(procs)[i].state)
    {
      Wakeup1(OfProc(procs[cur].parent.value));
      ghost var ps := procs;
      var i := 0;
      while i < |procs|
        invariant 0 <= i <= |procs| == |ps|
        invariant procs == AdoptedAndWoken(ps, cur, init, i)
      {
        AdoptOne(ps, cur, init, i);
        if procs[i].parent == Some(cur) {
          procs := procs[i := procs[i].(parent := Some(init))];
          if procs[i].state == Zombie {
            Wakeup1(OfProc(init));
          }
        }
        i := i + 1;
      }
      SameZombies(old(procs), OfProc(old(procs)[cur].parent.value), cur, |ps|);
      procs := procs[cur := procs[cur].(state := Zombie)];
      ExitedSlots(old(procs), init, cur);
    }

    /** One pass of the loop in `wait`: reap a zombie child, give up, or go to sleep. */
    method Wait(cur: nat) returns (r: WaitResult)
      requires cur < |procs|
      modifies this`procs, this`reaped
      ensures match r
        case Reaped(i, pid) =>
          && i < |old(procs)| && IsChild(old(procs)[i], cur) && old(procs)[i].state == Zombie
          && pid == old(procs)[i].pid && !ZombieChild(old(procs), cur, i)
          && procs == old(procs)[i := Proc(Unused, 0, None, old(procs)[i].chan, false)]
          && reaped == old(reaped) + [pid]
        case NoChild =>
          && procs == old(procs) && cur < |procs| && reaped == old(reaped) && !ZombieChild(procs, cur, |procs|)
          && (procs[cur].killed || forall i :: 0 <= i < |procs| ==> !IsChild(procs[i], cur))
        case Asleep =>
          && !ZombieChild(old(procs), cur, |procs|) && !old(procs)[cur].killed && reaped == old(reaped)
          && (exists i :: 0 <= i < |old(procs)| && IsChild(old(procs)[i], cur))
          && procs == old(procs)[cur := old(procs)[cur].(chan := Some(OfProc(cur)), state := Sleeping)]
    {
      var havekids := false;
      var i := 0;
      while i < |procs|
        invariant 0 <= i <= |procs| && procs == old(procs) && reaped == old(reaped)
        invariant havekids == exists j :: 0 <= j < i && IsChild(procs[j], cur)
        invariant forall j :: 0 <= j < i && IsChild(procs[j], cur) ==> procs[j].state != Zombie
      {
        if procs[i].parent == Some(cur) {
          havekids := true;
          assert IsChild(procs[i], cur);
          if procs[i].state == Zombie {
            var pid := procs[i].pid;
            procs := procs[i := procs[i].(state := Unused, pid := 0, parent := None, killed := false)];
            reaped := reaped + [pid];
            return Reaped(i, pid);
          }
        }
        i := i + 1;
      }
      if !havekids || procs[cur].killed {
        return NoChild;
      }
      procs := procs[cur := procs[cur].(chan := Some(OfProc(cur)), state := Sleeping)];
      r := Asleep;
    }

    /** Mark the first slot with this pid killed, whatever its state, and wake it if it sleeps. */
    method Kill(pid: int) returns (found: bool)
      modifies this`procs
      ensures found == exists i :: 0 <= i < |old(procs)| && old(procs)[i].pid == pid
      ensures procs == Killed(old(procs), pid)
      ensures |procs| == |old(procs)| && forall i :: 0 <= i < |procs| ==>
        if old(procs)[i].pid == pid && (forall j :: 0 <= j < i ==> old(procs)[j].pid != pid) then
          && procs[i].killed && procs[i].state != Sleeping
          && (old(procs)[i].state == Sleeping ==> procs[i].state == Runnable)
          && (old(procs)[i].state != Sleeping ==> procs[i].state == old(procs)[i].state)
          && procs[i].pid == pid && procs[i].parent == old(procs)[i].parent && procs[i].chan == old(procs)[i].chan
        else procs[i] == old(procs)[i]
    {
      var i := 0;
      while i < |procs|
        invariant 0 <= i <= |procs| && procs == old(procs)
        invariant forall j :: 0 <= j < i ==> procs[j].pid != pid
      {
        if procs[i].pid == pid {
          procs := procs[i := procs[i].(killed := true)];
          if procs[i].state == Sleeping {
            procs := procs[i := procs[i].(state := Runnable)];
          }
          FirstIs(old(procs), pid, i);
          return true;
        }
        i := i + 1;
      }
      FirstIs(old(procs), pid, |procs|);
      found := false;
    }
  }

  /** The loop of `exit` after n slots. */
  ghost function AdoptedAndWoken(ps: seq<Proc>, cur: nat, init: nat, n: nat): (r: seq<Proc>)
    ensures |r| == |ps|
  {
    var qs := Adopted(ps, cur, init, n);
    if ZombieChild(ps, cur, n) then WakeAll(qs, OfProc(init)) else qs
  }

  lemma AdoptOne(ps: seq<Proc>, cur: nat, init: nat, n: nat)
    requires n < |ps| && cur != init
    ensures var p := AdoptedAndWoken(ps, cur, init, n)[n];
      && (p.parent == Some(cur) <==> IsChild(ps[n], cur)) && (p.state == Zombie <==> ps[n].state == Zombie)
    ensures !IsChild(ps[n], cur) ==> AdoptedAndWoken(ps, cur, init, n + 1) == AdoptedAndWoken(ps, cur, init, n)
    ensures IsChild(ps[n], cur) ==>
      var qs := AdoptedAndWoken(ps, cur, init, n);
      var rs := qs[n := qs[n].(parent := Some(init))];
      AdoptedAndWoken(ps, cur, init, n + 1) == if ps[n].state == Zombie then WakeAll(rs, OfProc(init)) else rs
  {
    var a, b := Adopted(ps, cur, init, n), Adopted(ps, cur, init, n + 1);
    assert b == if IsChild(ps[n], cur) then a[n := a[n].(parent := Some(init))] else a;
    ZombieOne(ps, cur, n);
  }

  lemma ZombieOne(ps: seq<Proc>, cur: nat, n: nat)
    requires n < |ps|
    ensures ZombieChild(ps, cur, n + 1) == (ZombieChild(ps, cur, n) || (IsChild(ps[n], cur) && ps[n].state == Zombie))
  {
  }

  lemma SameZombies(procs: seq<Proc>, ch: Chan, cur: nat, n: nat)
    ensures ZombieChild(WakeAll(procs, ch), cur, n) == ZombieChild(procs, cur, n)
  {
    var ps := WakeAll(procs, ch);
    if i :| 0 <= i < |procs| && i < n && IsChild(procs[i], cur) && procs[i].state == Zombie {
      assert IsChild(ps[i], cur) && ps[i].state == Zombie;
    }
  }

  /** The first slot with this pid, or the table size. */
  function FirstPid(procs: seq<Proc>, pid: int): (i: nat)
    ensures i <= |procs|
  {
    if procs == [] then 0 else if procs[0].pid == pid then 0 else 1 + FirstPid(procs[1..], pid)
  }

  lemma {:induction false} FirstIs(procs: seq<Proc>, pid: int, i: nat)
    requires i <= |procs| && (i < |procs| ==> procs[i].pid == pid) && forall j :: 0 <= j < i ==> procs[j].pid != pid
    ensures FirstPid(procs, pid) == i
  {
    if i > 0 { FirstIs(procs[1..], pid, i - 1); }
  }

  /** The table after `kill(pid)`. */
  function Killed(procs: seq<Proc>, pid: int): (r: seq<Proc>)
    ensures |r| == |procs|
  {
    var i := FirstPid(procs, pid);
    if i == |procs| then procs
    else procs[i := procs[i].(killed := true, state := if procs[i].state == Sleeping then Runnable else procs[i].state)]
  }

  datatype Action =
    | Alloc(i: nat) | ForkFails(i: nat) | SetParent(cur: nat, i: nat) | ForkDone(i: nat)
    | DoExit(cur: nat) | Reap(cur: nat, i: nat) | WaitSleeps(cur: nat)
    | SleepOther(cur: nat, id: nat) | WakeOther(id: nat) | DoKill(pid: int)
    | Schedule(i: nat) | Yield(i: nat)

  ghost predicate Enabled(t: Table, a: Action) {
    var n := |t.procs|;
    match a
    case Alloc(i) => i < n && t.procs[i].state == Unused
    case ForkFails(i) => i < n && t.procs[i].state == Embryo && t.procs[i].parent == None
    case SetParent(cur, i) => cur < n && t.procs[cur].state == Running && i < n && t.procs[i].state == Embryo
    case ForkDone(i) => i < n && t.procs[i].state == Embryo && t.procs[i].parent.Some?
    case DoExit(cur) => cur < n && t.procs[cur].state == Running && cur != t.init && t.procs[cur].parent.Some?
    case Reap(cur, i) => cur < n && t.procs[cur].state == Running && i < n && IsChild(t.procs[i], cur) &&
      t.procs[i].state == Zombie
    case WaitSleeps(cur) => cur < n && t.procs[cur].state == Running && !ZombieChild(t.procs, cur, n)
    case SleepOther(cur, _) => cur < n && t.procs[cur].state == Running
    case WakeOther(_) => true
    case DoKill(_) => true
    case Schedule(i) => i < n && t.procs[i].state == Runnable
    case Yield(i) => i < n && t.procs[i].state == Running
  }

  ghost function Apply(t: Table, a: Action): Table
    requires Enabled(t, a)
  {
    var ps := t.procs;
    match a
    case Alloc(i) => t.(procs := ps[i := ps[i].(state := Embryo, pid := t.nextpid)], nextpid := t.nextpid + 1)
    case ForkFails(i) => t.(procs := ps[i := ps[i].(state := Unused)])
    case SetParent(cur, i) => t.(procs := ps[i := ps[i].(parent := Some(cur))])
    case ForkDone(i) => t.(procs := ps[i := ps[i].(state := Runnable)])
    case DoExit(cur) => t.(procs := Exited(ps, t.init, cur))
    case Reap(cur, i) => t.(procs := ps[i := Cleared(ps[i])], reaped := t.reaped + [ps[i].pid])
    case WaitSleeps(cur) => t.(procs := ps[cur := ps[cur].(chan := Some(OfProc(cur)), state := Sleeping)])
    case SleepOther(cur, id) => t.(procs := ps[cur := ps[cur].(chan := Some(Other(id)), state := Sleeping)])
    case WakeOther(id) => t.(procs := WakeAll(ps, Other(id)))
    case DoKill(pid) => t.(procs := Killed(ps, pid))
    case Schedule(i) => t.(procs := ps[i := ps[i].(state := Running)])
    case Yield(i) => t.(procs := ps[i := ps[i].(state := Runnable)])
  }

  /** The parent of a process is alive: neither a zombie nor a free slot. */
  ghost predicate ParentsAlive(ps: seq<Proc>) {
    forall p :: 0 <= p < |ps| ==> ParentAlive(ps, ps[p]) && ps[p].parent != Some(p)
  }

  ghost predicate ParentAlive(ps: seq<Proc>, p: Proc) {
    p.parent.Some? ==> p.parent.value < |ps| && Alive(ps[p.parent.value]) && p.state != Unused
  }

  /** Every live process and every zombie but init has a parent to reap it. */
  ghost predicate HaveParents(ps: seq<Proc>, init: nat) {
    && init < |ps| && Alive(ps[init]) && ps[init].parent == None
    && forall p :: 0 <= p < |ps| && p != init && (Alive(ps[p]) || ps[p].state == Zombie) ==> ps[p].parent.Some?
  }

  /** A parent asleep in `wait` has no zombie child. */
  ghost predicate NoMissedZombie(ps: seq<Proc>) {
    forall q, r :: 0 <= q < |ps| && SleepsOn(ps[q], OfProc(r)) ==> r == q && !ZombieChild(ps, q, |ps|)
  }

  /** Pids in use are distinct, and no pid has been reaped twice or is in use again. */
  ghost predicate PidsOk(t: Table) {
    && (forall p :: 0 <= p < |t.procs| && t.procs[p].state != Unused ==>
         0 < t.procs[p].pid < t.nextpid && t.procs[p].pid !in t.reaped)
    && (forall p, q :: 0 <= p < q < |t.procs| && t.procs[p].state != Unused && t.procs[q].state != Unused ==>
         t.procs[p].pid != t.procs[q].pid)
    && 0 < t.nextpid
    && (forall k :: 0 <= k < |t.reaped| ==> t.reaped[k] < t.nextpid)
    && (forall j, k :: 0 <= j < k < |t.reaped| ==> t.reaped[j] != t.reaped[k])
  }

  ghost predicate Inv(t: Table) {
    ParentsAlive(t.procs) && HaveParents(t.procs, t.init) && NoMissedZombie(t.procs) && PidsOk(t)
  }

  /** Only scheduling states differ: nobody is born, dies or changes parent. */
  ghost predicate Rescheduled(ps: seq<Proc>, ps': seq<Proc>) {
    && |ps'| == |ps|
    && forall i :: 0 <= i < |ps| ==>
         && ps'[i].pid == ps[i].pid && ps'[i].parent == ps[i].parent
         && (ps'[i].state == ps[i].state ||
              (Alive(ps'[i]) && (Alive(ps[i]) || (ps[i].state == Embryo && ps[i].parent.Some?))))
  }

  lemma RescheduleStep(t: Table, ps': seq<Proc>)
    requires Inv(t) && Rescheduled(t.procs, ps') && NoMissedZombie(ps')
    ensures Inv(t.(procs := ps'))
  {
  }

  lemma NoNewZombie(ps: seq<Proc>, ps': seq<Proc>, q: nat)
    requires |ps| == |ps'|
    requires forall i :: 0 <= i < |ps| && IsChild(ps'[i], q) && ps'[i].state == Zombie ==>
      IsChild(ps[i], q) && ps[i].state == Zombie
    ensures ZombieChild(ps', q, |ps'|) ==> ZombieChild(ps, q, |ps|)
  {
  }

  /** Where nobody newly sleeps in `wait`, no zombie is missed. */
  lemma StillNoneMissed(ps: seq<Proc>, ps': seq<Proc>)
    requires NoMissedZombie(ps) && Rescheduled(ps, ps')
    requires forall i, r :: 0 <= i < |ps| && SleepsOn(ps'[i], OfProc(r)) ==>
      SleepsOn(ps[i], OfProc(r)) || (r == i && !ZombieChild(ps, i, |ps|))
    ensures NoMissedZombie(ps')
  {
    forall q, r | 0 <= q < |ps'| && SleepsOn(ps'[q], OfProc(r)) ensures r == q && !ZombieChild(ps', q, |ps'|) {
      NoNewZombie(ps, ps', q);
    }
  }

  /** Changing the scheduling state of one slot, without putting it to sleep. */
  ghost predicate Stirred(p: Proc, p': Proc) {
    && p'.pid == p.pid && p'.parent == p.parent
    && ((p'.state == p.state && p'.chan == p.chan)
        || ((p'.state == Runnable || p'.state == Running) && (Alive(p) || (p.state == Embryo && p.parent.Some?))))
  }

  lemma StirredSlots(t: Table, ps': seq<Proc>)
    requires Inv(t) && |ps'| == |t.procs| && forall i :: 0 <= i < |ps'| ==> Stirred(t.procs[i], ps'[i])
    ensures Inv(t.(procs := ps'))
  {
    var ps := t.procs;
    forall i | 0 <= i < |ps| && ps'[i].state != ps[i].state ensures Alive(ps'[i]) { assert Stirred(ps[i], ps'[i]); }
    StillNoneMissed(ps, ps');
    RescheduleStep(t, ps');
  }

  lemma OneSlot(t: Table, i: nat, p': Proc)
    requires Inv(t) && i < |t.procs| && Stirred(t.procs[i], p')
    ensures Inv(t.(procs := t.procs[i := p']))
  {
    forall j | 0 <= j < |t.procs| ensures Stirred(t.procs[j], t.procs[i := p'][j]) {}
    StirredSlots(t, t.procs[i := p']);
  }

  lemma SlotSteps(t: Table, a: Action)
    requires Inv(t) && Enabled(t, a) && (a.ForkDone? || a.Schedule? || a.Yield?)
    ensures Inv(Apply(t, a))
  {
    OneSlot(t, a.i, Apply(t, a).procs[a.i]);
  }

  lemma SleepSteps(t: Table, a: Action)
    requires Inv(t) && Enabled(t, a) && (a.WaitSleeps? || a.SleepOther?)
    ensures Inv(Apply(t, a))
  {
    StillNoneMissed(t.procs, Apply(t, a).procs);
    RescheduleStep(t, Apply(t, a).procs);
  }

  lemma WakeStep(t: Table, id: nat)
    requires Inv(t)
    ensures Inv(t.(procs := WakeAll(t.procs, Other(id))))
  {
    var ps' := WakeAll(t.procs, Other(id));
    forall j | 0 <= j < |ps'| ensures Stirred(t.procs[j], ps'[j]) {}
    StirredSlots(t, ps');
  }

  lemma KillStep(t: Table, pid: int)
    requires Inv(t)
    ensures Inv(t.(procs := Killed(t.procs, pid)))
  {
    var i := FirstPid(t.procs, pid);
    if i < |t.procs| { OneSlot(t, i, Killed(t.procs, pid)[i]); }
  }

  lemma AllocStep(t: Table, i: nat)
    requires Inv(t) && Enabled(t, Alloc(i))
    ensures Inv(Apply(t, Alloc(i)))
  {
    var t' := Apply(t, Alloc(i));
    BirthKeepsWaiters(t.procs, t'.procs, i);
    assert t.nextpid !in t.reaped;
  }

  /** A slot that is neither zombie before nor after concerns no one asleep in `wait`. */
  lemma BirthKeepsWaiters(ps: seq<Proc>, ps': seq<Proc>, i: nat)
    requires NoMissedZombie(ps) && i < |ps| == |ps'| && ps' == ps[i := ps'[i]]
    requires ps'[i].state == Unused || ps'[i].state == Embryo
    ensures NoMissedZombie(ps')
  {
    forall q, r | 0 <= q < |ps'| && SleepsOn(ps'[q], OfProc(r)) ensures r == q && !ZombieChild(ps', q, |ps'|) {
      assert SleepsOn(ps[q], OfProc(r));
      NoNewZombie(ps, ps', q);
    }
  }

  lemma ForkFailsStep(t: Table, i: nat)
    requires Inv(t) && Enabled(t, ForkFails(i))
    ensures Inv(Apply(t, ForkFails(i)))
  {
    BirthKeepsWaiters(t.procs, Apply(t, ForkFails(i)).procs, i);
  }

  lemma SetParentStep(t: Table, cur: nat, i: nat)
    requires Inv(t) && Enabled(t, SetParent(cur, i))
    ensures Inv(Apply(t, SetParent(cur, i)))
  {
    BirthKeepsWaiters(t.procs, Apply(t, SetParent(cur, i)).procs, i);
  }

  lemma ReapStep(t: Table, cur: nat, i: nat)
    requires Inv(t) && Enabled(t, Reap(cur, i))
    ensures Inv(Apply(t, Reap(cur, i)))
  {
    BirthKeepsWaiters(t.procs, Apply(t, Reap(cur, i)).procs, i);
    ReapPids(t, cur, i);
  }

  lemma ReapPids(t: Table, cur: nat, i: nat)
    requires PidsOk(t) && Enabled(t, Reap(cur, i))
    ensures PidsOk(Apply(t, Reap(cur, i)))
  {
    var t' := Apply(t, Reap(cur, i));
    forall p | 0 <= p < |t'.procs| && t'.procs[p].state != Unused ensures t'.procs[p].pid !in t'.reaped {
      assert t.procs[p].pid != t.procs[i].pid by { if p < i {} else {} }
    }
  }

  /** What `exit` by cur makes of slot i. */
  ghost predicate ExitSlot(t: Table, cur: nat, i: nat, p': Proc)
    requires cur < |t.procs| && t.procs[cur].parent.Some? && i < |t.procs|
  {
    var p := t.procs[i];
    && p'.pid == p.pid && p'.parent == (if IsChild(p, cur) then Some(t.init) else p.parent)
    && (i == cur ==> p'.state == Zombie)
    && (i != cur ==> p'.state == p.state || (p.state == Sleeping && p'.state == Runnable))
    && (p'.state == Sleeping ==> p'.chan == p.chan)
    && !SleepsOn(p', OfProc(t.procs[cur].parent.value))
    && (ZombieChild(t.procs, cur, |t.procs|) ==> !SleepsOn(p', OfProc(t.init)))
  }

  lemma ExitedSlots(ps: seq<Proc>, init: nat, cur: nat)
    requires cur < |ps| && ps[cur].parent.Some?
    ensures var rs := Exited(ps, init, cur); forall i :: 0 <= i < |rs| ==>
      && rs[i].parent == (if ps[i].parent == Some(cur) then Some(init) else ps[i].parent)
      && rs[i].pid == ps[i].pid && rs[i].chan == ps[i].chan && rs[i].killed == ps[i].killed
      && rs[i].state ==
        (if i == cur then Zombie else if WokenByExit(ps, init, cur, ps[i]) then Runnable else ps[i].state)
  {
  }

  lemma ExitedAt(t: Table, cur: nat, i: nat)
    requires Enabled(t, DoExit(cur)) && i < |t.procs|
    ensures ExitSlot(t, cur, i, Exited(t.procs, t.init, cur)[i])
  {
  }

  /** After `exit`, whoever still sleeps in `wait` has no zombie child: cur's parent and, if cur
      leaves a zombie to it, init have been woken. */
  lemma ExitMissesNone(t: Table, cur: nat, ps': seq<Proc>, q: nat, r: nat, i: nat)
    requires Enabled(t, DoExit(cur)) && |ps'| == |t.procs| && q < |ps'| && i < |ps'|
    requires NoMissedZombie(t.procs) && t.procs[cur].parent != Some(cur)
    requires ExitSlot(t, cur, q, ps'[q]) && ExitSlot(t, cur, i, ps'[i]) && SleepsOn(ps'[q], OfProc(r))
    ensures r == q && !(IsChild(ps'[i], q) && ps'[i].state == Zombie)
  {
    var ps := t.procs;
    assert SleepsOn(ps[q], OfProc(r));
    assert ps[i].state == Zombie && IsChild(ps[i], q) ==> ZombieChild(ps, q, |ps|);
    assert ps[i].state == Zombie && IsChild(ps[i], cur) ==> ZombieChild(ps, cur, |ps|);
  }

  lemma ExitKeepsParents(t: Table, cur: nat, ps': seq<Proc>)
    requires Inv(t) && Enabled(t, DoExit(cur)) && |ps'| == |t.procs|
    requires forall i :: 0 <= i < |ps'| ==> ExitSlot(t, cur, i, ps'[i])
    ensures ParentsAlive(ps') && HaveParents(ps', t.init)
  {
    forall i | 0 <= i < |ps'| ensures ParentAlive(ps', ps'[i]) && ps'[i].parent != Some(i) {
      assert ParentAlive(t.procs, t.procs[i]);
    }
  }

  lemma ExitStep(t: Table, cur: nat)
    requires Inv(t) && Enabled(t, DoExit(cur))
    ensures Inv(Apply(t, DoExit(cur)))
  {
    var ps' := Exited(t.procs, t.init, cur);
    forall i | 0 <= i < |ps'| ensures ExitSlot(t, cur, i, ps'[i]) { ExitedAt(t, cur, i); }
    ExitInv(t, cur, ps');
  }

  lemma ExitPids(t: Table, cur: nat, ps': seq<Proc>)
    requires PidsOk(t) && Enabled(t, DoExit(cur)) && |ps'| == |t.procs|
    requires forall i :: 0 <= i < |ps'| ==> ExitSlot(t, cur, i, ps'[i])
    ensures PidsOk(t.(procs := ps'))
  {
    forall i | 0 <= i < |ps'|
      ensures ps'[i].pid == t.procs[i].pid && (ps'[i].state != Unused ==> t.procs[i].state != Unused)
    {
      assert ExitSlot(t, cur, i, ps'[i]);
    }
  }

  lemma ExitWaiters(t: Table, cur: nat, ps': seq<Proc>)
    requires Enabled(t, DoExit(cur)) && |ps'| == |t.procs| && NoMissedZombie(t.procs)
    requires t.procs[cur].parent != Some(cur)
    requires forall i :: 0 <= i < |ps'| ==> ExitSlot(t, cur, i, ps'[i])
    ensures NoMissedZombie(ps')
  {
    forall q, r | 0 <= q < |ps'| && SleepsOn(ps'[q], OfProc(r)) ensures r == q && !ZombieChild(ps', q, |ps'|) {
      ExitMissesNone(t, cur, ps', q, r, q);
      forall i | 0 <= i < |ps'| ensures !(IsChild(ps'[i], q) && ps'[i].state == Zombie) {
        ExitMissesNone(t, cur, ps', q, r, i);
      }
    }
  }

  lemma ExitInv(t: Table, cur: nat, ps': seq<Proc>)
    requires Inv(t) && Enabled(t, DoExit(cur)) && |ps'| == |t.procs|
    requires forall i :: 0 <= i < |ps'| ==> ExitSlot(t, cur, i, ps'[i])
    ensures Inv(t.(procs := ps'))
  {
    ExitKeepsParents(t, cur, ps');
    ExitWaiters(t, cur, ps');
    ExitPids(t, cur, ps');
  }

  /** Every step of fork, exit, wait, kill and the scheduler keeps the process tree sound. */
  lemma InvStep(t: Table, a: Action)
    requires Inv(t) && Enabled(t, a)
    ensures Inv(Apply(t, a))
  {
    match a
    case Alloc(i) => AllocStep(t, i);
    case ForkFails(i) => ForkFailsStep(t, i);
    case SetParent(cur, i) => SetParentStep(t, cur, i);
    case Reap(cur, i) => ReapStep(t, cur, i);
    case DoExit(cur) => ExitStep(t, cur);
    case ForkDone(_) => SlotSteps(t, a);
    case Schedule(_) => SlotSteps(t, a);
    case Yield(_) => SlotSteps(t, a);
    case WaitSleeps(_) => SleepSteps(t, a);
    case SleepOther(_, _) => SleepSteps(t, a);
    case WakeOther(id) => WakeStep(t, id);
    case DoKill(pid) => KillStep(t, pid);
  }

  /** The table when userinit has made the first process. */
  ghost predicate Init(t: Table) {
    && t.init < |t.procs| && t.nextpid == 2 && t.reaped == []
    && t.procs[t.init] == Proc(Runnable, 1, None, None, false)
    && forall p :: 0 <= p < |t.procs| && p != t.init ==> t.procs[p] == Proc(Unused, 0, None, None, false)
  }

  lemma InitInv(t: Table)
    requires Init(t)
    ensures Inv(t)
  {
  }

  ghost predicate Follows(t: Table, t': Table) {
    exists a :: Enabled(t, a) && t' == Apply(t, a)
  }

  ghost predicate IsRun(run: seq<Table>) {
    && |run| > 0 && Init(run[0])
    && forall i :: 0 < i < |run| ==> StepTo(run, i)
  }

  ghost predicate StepTo(run: seq<Table>, i: nat)
    requires 0 < i < |run|
  {
    Follows(run[i - 1], run[i])
  }

  lemma InvFollows(t: Table, t': Table)
    requires Inv(t) && Follows(t, t')
    ensures Inv(t')
  {
    var a :| Enabled(t, a) && t' == Apply(t, a);
    InvStep(t, a);
  }

  /** In every state of every run: parents are alive, every zombie has one, a parent asleep in
      `wait` has no zombie child, and no pid has been returned twice. */
  lemma {:induction false} TreeIsSound(run: seq<Table>, n: nat)
    requires IsRun(run) && n < |run|
    ensures Inv(run[n])
  {
    if n == 0 {
      InitInv(run[0]);
    } else {
      TreeIsSound(run, n - 1);
      RunStep(run, n);
      InvFollows(run[n - 1], run[n]);
    }
  }

  lemma RunStep(run: seq<Table>, n: nat)
    requires IsRun(run) && 0 < n < |run|
    ensures Follows(run[n - 1], run[n])
  {
    assert StepTo(run, n);
  }

  /** A zombie stays as it is, but for its parent, until that parent reaps it. */
  lemma ZombieStep(t: Table, a: Action, i: nat)
    requires Inv(t) && Enabled(t, a) && i < |t.procs| && t.procs[i].state == Zombie
    ensures var t' := Apply(t, a);
      && |t'.procs| == |t.procs| && t.reaped <= t'.reaped
      && if a.Reap? && a.i == i
         then t.procs[i].parent == Some(a.cur) && t'.reaped == t.reaped + [t.procs[i].pid]
         else t'.procs[i].state == Zombie && t'.procs[i].pid == t.procs[i].pid
  {
    if a.DoExit? { ExitedAt(t, a.cur, i); }
  }

  lemma ReapedGrows(t: Table, a: Action)
    requires Enabled(t, a)
    ensures t.reaped <= Apply(t, a).reaped && |Apply(t, a).procs| == |t.procs|
  {
  }

  /** Slot i holds the zombie with this pid, or the pid has been returned by a `wait`. */
  ghost predicate ZombieOrReaped(t: Table, i: nat, pid: int) {
    i < |t.procs| && (pid in t.reaped || (t.procs[i].state == Zombie && t.procs[i].pid == pid))
  }

  lemma ZombieOrReapedStep(t: Table, a: Action, i: nat, pid: int)
    requires Inv(t) && Enabled(t, a) && ZombieOrReaped(t, i, pid)
    ensures ZombieOrReaped(Apply(t, a), i, pid)
  {
    ReapedGrows(t, a);
    if pid !in t.reaped { ZombieStep(t, a, i); }
  }

  lemma ZombieOrReapedFollows(t: Table, t': Table, i: nat, pid: int)
    requires Inv(t) && Follows(t, t') && ZombieOrReaped(t, i, pid)
    ensures ZombieOrReaped(t', i, pid)
  {
    var a :| Enabled(t, a) && t' == Apply(t, a);
    ZombieOrReapedStep(t, a, i, pid);
  }

  /** Along every run, a zombie is still there or its pid has been returned by a `wait`; by
      TreeIsSound it has been returned only once. */
  lemma {:induction false} ZombieIsReapedOnce(run: seq<Table>, m: nat, n: nat, i: nat)
    requires IsRun(run) && m <= n < |run| && i < |run[m].procs| && run[m].procs[i].state == Zombie
    ensures ZombieOrReaped(run[n], i, run[m].procs[i].pid)
    decreases n
  {
    if n > m {
      ZombieIsReapedOnce(run, m, n - 1, i);
      ZombieRunStep(run, n, i, run[m].procs[i].pid);
    }
  }

  lemma ZombieRunStep(run: seq<Table>, n: nat, i: nat, pid: int)
    requires IsRun(run) && 0 < n < |run| && ZombieOrReaped(run[n - 1], i, pid)
    ensures ZombieOrReaped(run[n], i, pid)
  {
    TreeIsSound(run, n - 1);
    RunStep(run, n);
    ZombieOrReapedFollows(run[n - 1], run[n], i, pid);
  }

  /** No free slot carries a kill, so a new process starts unkilled. */
  ghost predicate FreeSlotsClean(ps: seq<Proc>) {
    forall p :: 0 <= p < |ps| && ps[p].state == Unused ==> !ps[p].killed
  }

  /** `kill` does not look at the state of the slot it finds: it leaves the free slots clean
      exactly when the first slot with that pid is in use. */
  lemma KillCleanness(ps: seq<Proc>, pid: int)
    requires FreeSlotsClean(ps)
    ensures FreeSlotsClean(Killed(ps, pid)) <==>
      (var i := FirstPid(ps, pid); i < |ps| ==> ps[i].state != Unused)
  {
    var i := FirstPid(ps, pid);
    if i < |ps| && ps[i].state == Unused {
      assert Killed(ps, pid)[i].killed;
    }
  }

  /** The two steps that leave a kill on a free slot: a kill whose first slot with that pid is free,
      and a fork that fails after its embryo was killed. */
  ghost predicate Dirties(t: Table, a: Action)
    requires Enabled(t, a)
  {
    || (a.DoKill? && var i := FirstPid(t.procs, a.pid); i < |t.procs| && t.procs[i].state == Unused)
    || (a.ForkFails? && t.procs[a.i].killed)
  }

  /** Of all steps exactly those two do. */
  lemma CleanStep(t: Table, a: Action)
    requires Enabled(t, a) && FreeSlotsClean(t.procs)
    ensures FreeSlotsClean(Apply(t, a).procs) <==> !Dirties(t, a)
  {
    match a
    case DoKill(pid) => KillCleanness(t.procs, pid);
    case ForkFails(i) => assert Apply(t, a).procs[i].killed == t.procs[i].killed;
    case DoExit(cur) => ExitClean(t, cur);
    case _ =>
  }

  lemma ExitClean(t: Table, cur: nat)
    requires Enabled(t, DoExit(cur)) && FreeSlotsClean(t.procs)
    ensures FreeSlotsClean(Exited(t.procs, t.init, cur))
  {
    var ps := Exited(t.procs, t.init, cur);
    forall i | 0 <= i < |ps| && ps[i].state == Unused ensures !ps[i].killed { assert t.procs[i].state == Unused; }
  }

  /** A run with the step taken at each point. */
  ghost predicate Traced(run: seq<Table>, trace: seq<Action>) {
    && |run| == |trace| + 1 && Init(run[0])
    && forall k :: 0 <= k < |trace| ==> Enabled(run[k], trace[k]) && run[k + 1] == Apply(run[k], trace[k])
  }

  /** Up to point n of a run every free slot has been clean exactly if no such step was taken. */
  lemma {:induction false} CleanRun(run: seq<Table>, trace: seq<Action>, n: nat)
    requires Traced(run, trace) && n < |run|
    ensures CleanTo(run, n) <==> NoneDirties(run, trace, n)
  {
    if n > 0 {
      CleanRun(run, trace, n - 1);
      assert CleanTo(run, n) <==> CleanTo(run, n - 1) && FreeSlotsClean(run[n].procs);
      assert NoneDirties(run, trace, n) <==> NoneDirties(run, trace, n - 1) && !Dirties(run[n - 1], trace[n - 1]);
      if FreeSlotsClean(run[n - 1].procs) { CleanStep(run[n - 1], trace[n - 1]); }
    }
  }

  ghost predicate CleanTo(run: seq<Table>, n: nat)
    requires n < |run|
  {
    forall k :: 0 <= k <= n ==> FreeSlotsClean(run[k].procs)
  }

  ghost predicate NoneDirties(run: seq<Table>, trace: seq<Action>, n: nat)
    requires Traced(run, trace) && n < |run|
  {
    forall k :: 0 <= k < n ==> !Dirties(run[k], trace[k])
  }

  /** A new process is killed from the start exactly if its slot was not clean. */
  lemma BornKilled(t: Table, i: nat)
    requires Enabled(t, Alloc(i))
    ensures Apply(t, Alloc(i)).procs[i].killed <==> t.procs[i].killed
  {
  }

  /** A fork that fails leaves the kill of its embryo to the next process in that slot. */
  lemma FailedForkKeepsKill(t: Table, i: nat) returns (run: seq<Table>, trace: seq<Action>)
    requires Init(t) && i < |t.procs| && i != t.init
    ensures Traced(run, trace) && |trace| == 4 && |run[4].procs| == |t.procs|
    ensures run[4].procs[i] == Proc(Embryo, 3, None, None, true)
    ensures trace[1] == DoKill(2) && Dirties(run[2], trace[2])
  {
    var t1 := Apply(t, Alloc(i));
    FirstIs(t1.procs, 2, i);
    var t2 := Apply(t1, DoKill(2));
    var t3 := Apply(t2, ForkFails(i));
    run, trace := [t, t1, t2, t3, Apply(t3, Alloc(i))], [Alloc(i), DoKill(2), ForkFails(i), Alloc(i)];
  }

  /** After the first process starts, kill(0) marks the next free slot, and the next fork gets
      a process that is already killed. */
  lemma KillZeroHitsTheNextChild(t: Table)
    requires Init(t) && |t.procs| > 1
    ensures var i, t1 := if t.init == 0 then 1 else 0, Apply(t, DoKill(0));
      Enabled(t1, Alloc(i)) && Apply(t1, Alloc(i)).procs[i].killed
  {
    var i := if t.init == 0 then 1 else 0;
    assert t.procs[i].pid == 0;
    assert t.init == 0 ==> t.procs[1..][0] == t.procs[1];
    assert FirstPid(t.procs, 0) == i;
  }
}
