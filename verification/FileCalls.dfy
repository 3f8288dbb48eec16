/** The system calls that pass file references around (sysfile.c, pipe.c, proc.c), and what
    holds after every sequence of them. */
module FileCalls {
  import opened FileSpec

  const NOTHING: multiset<int> := multiset{}

  /** `argfd`: an open descriptor. */
  predicate IsOpen(t: Table, p: nat, fd: int)
    requires Shape(t) && p < NPROC
  {
    0 <= fd < NOFILE && t.slots[Slot(p, fd)] != NONE
  }

  ghost function SysClose(t: Table, p: nat, fd: int): (r: Table)
    requires Inv(t, NOTHING) && p < NPROC
    ensures Inv(r, NOTHING) && OthersKeep(t, r, p)
  {
    if !IsOpen(t, p, fd) then t
    else
      var s, f := Slot(p, fd), t.slots[Slot(p, fd)];
      SlotGives(t, NOTHING, s);
      CloseDrops(SetSlot(t, s, NONE), multiset{f}, f);
      assert multiset{f} - multiset{f} == NOTHING;
      FileClose(SetSlot(t, s, NONE), f)
  }

  ghost function SysDup(t: Table, p: nat, fd: int): (r: Table)
    requires Inv(t, NOTHING) && p < NPROC
    ensures Inv(r, NOTHING) && OthersKeep(t, r, p)
  {
    if !IsOpen(t, p, fd) || FreeFd(t.slots, p, 0) == NOFILE then t
    else
      var f, s := t.slots[Slot(p, fd)], Slot(p, FreeFd(t.slots, p, 0));
      DupFd(t, Slot(p, fd), s);
      SetSlot(FileDup(t, f), s, f)
  }

  lemma RowOnly(slots: seq<int>, p: nat, fd: nat, f: int)
    requires |slots| == NPROC * NOFILE && p < NPROC && fd < NOFILE
    ensures forall s :: 0 <= s < |slots| && !InRow(p, s) ==> slots[Slot(p, fd) := f][s] == slots[s]
  {
  }

  /** A file that a descriptor names is in use and has a kind. */
  lemma InUse(t: Table, s: nat)
    requires Inv(t, NOTHING) && s < |t.slots| && t.slots[s] != NONE
    ensures t.files[t.slots[s]].ref > 0 && t.files[t.slots[s]].kind != FdNone
  {
    assert t.slots[s] in multiset(t.slots);
  }

  function Alloc(t: Table, f: int): Table
    requires 0 <= f < |t.files|
  {
    SetFile(t, f, t.files[f].(ref := 1))
  }

  /** The end of `sys_open`, for an inode that was found. */
  ghost function SysOpen(t: Table, p: nat, ip: int): (r: Table)
    requires Inv(t, NOTHING) && p < NPROC
    ensures Inv(r, NOTHING) && OthersKeep(t, r, p)
  {
    var f := FreeFile(t.files, 0);
    if f == NFILE then t
    else
      AllocHolds(t, NOTHING, f);
      var fd := FreeFd(t.slots, p, 0);
      if fd == NOFILE then
        CloseDrops(Alloc(t, f), multiset{f}, f);
        assert multiset{f} - multiset{f} == NOTHING;
        FileClose(Alloc(t, f), f)
      else
        OpenTakes(t, Slot(p, fd), f, ip);
        RowOnly(t.slots, p, fd, f);
        SetFile(SetSlot(Alloc(t, f), Slot(p, fd), f), f, File(1, FdInode(ip)))
  }

  lemma OpenTakes(t: Table, s: nat, f: int, ip: int)
    requires Inv(t, NOTHING) && s < |t.slots| && t.slots[s] == NONE && 0 <= f < NFILE && t.files[f].ref == 0
    ensures Inv(SetFile(SetSlot(Alloc(t, f), s, f), f, File(1, FdInode(ip))), NOTHING)
  {
    var u := SetFile(SetSlot(Alloc(t, f), s, f), f, File(1, FdInode(ip)));
    forall j | j in u.pipes ensures u.pipes[j] != Ends(NONE, NONE) && EndOk(u, j, false) && EndOk(u, j, true) {
      assert EndOk(t, j, false) && EndOk(t, j, true);
    }
  }

  /** A failed open leaves everything as it was. */
  lemma FailedOpen(t: Table, p: nat, ip: int)
    requires Inv(t, NOTHING) && p < NPROC && FreeFd(t.slots, p, 0) == NOFILE
    ensures SysOpen(t, p, ip) == t
  {
    var f := FreeFile(t.files, 0);
    if f < NFILE { assert FileClose(Alloc(t, f), f).files == t.files; }
  }

  /** The two files and the page become a pipe. */
  function MakePipe(t: Table, f0: int, f1: int): Table
    requires 0 <= f0 < |t.files| && 0 <= f1 < |t.files|
  {
    t.(files := t.files[f0 := File(t.files[f0].ref, FdPipe(t.count, false))]
                       [f1 := File(t.files[f1].ref, FdPipe(t.count, true))],
       pipes := t.pipes[t.count := Ends(f0, f1)], count := t.count + 1)
  }

  lemma NewPipeOk(t: Table, f0: int, f1: int)
    requires Shape(t) && PipesOk(t) && FreedOnce(t) && f0 != f1 && 0 <= f0 < NFILE && 0 <= f1 < NFILE
    requires t.files[f0].kind == FdNone == t.files[f1].kind
    ensures PipesOk(MakePipe(t, f0, f1))
  {
    var u := MakePipe(t, f0, f1);
    forall j | j in u.pipes ensures u.pipes[j] != Ends(NONE, NONE) && EndOk(u, j, false) && EndOk(u, j, true) {
      if j != t.count { assert EndOk(t, j, false) && EndOk(t, j, true); }
    }
  }

  lemma PipeMade(t: Table, f0: int, f1: int)
    requires f0 != f1 && Inv(t, multiset{f0, f1}) && t.files[f0].kind == FdNone == t.files[f1].kind
    ensures Inv(MakePipe(t, f0, f1), multiset{f0, f1})
  {
    assert f0 in multiset{f0, f1} && f1 in multiset{f0, f1};
    NewPipeOk(t, f0, f1);
    PipeCounted(t, f0, f1);
  }

  lemma PipeCounted(t: Table, f0: int, f1: int)
    requires f0 != f1 && Inv(t, multiset{f0, f1}) && 0 <= f0 < NFILE && 0 <= f1 < NFILE
    ensures Counted(MakePipe(t, f0, f1), multiset{f0, f1}) && Kinds(MakePipe(t, f0, f1), multiset{f0, f1})
  {
    assert multiset{f0, f1}[f0] == 1 && multiset{f0, f1}[f1] == 1;
  }

  /** Both files given up again. */
  ghost function CloseBoth(t: Table, f0: int, f1: int): (r: Table)
    requires f0 != f1 && Inv(t, multiset{f0, f1})
    ensures Inv(r, NOTHING) && r.slots == t.slots
  {
    CloseDrops(t, multiset{f0, f1}, f0);
    assert multiset{f0, f1} - multiset{f0} == multiset{f1};
    CloseDrops(FileClose(t, f0), multiset{f1}, f1);
    assert multiset{f1} - multiset{f1} == NOTHING;
    FileClose(FileClose(t, f0), f1)
  }

  /** The descriptors of a new pipe, or none. */
  ghost function PipeFds(t: Table, p: nat, f0: int, f1: int): (r: Table)
    requires f0 != f1 && Inv(t, multiset{f0, f1}) && p < NPROC
    requires t.files[f0].kind != FdNone && t.files[f1].kind != FdNone
    ensures Inv(r, NOTHING) && OthersKeep(t, r, p)
  {
    var fd0 := FreeFd(t.slots, p, 0);
    if fd0 == NOFILE then CloseBoth(t, f0, f1) else SecondFd(t, p, f0, f1, fd0)
  }

  ghost function SecondFd(t: Table, p: nat, f0: int, f1: int, fd0: nat): (r: Table)
    requires f0 != f1 && Inv(t, multiset{f0, f1}) && p < NPROC && fd0 < NOFILE && t.slots[Slot(p, fd0)] == NONE
    requires t.files[f0].kind != FdNone && t.files[f1].kind != FdNone
    ensures Inv(r, NOTHING) && OthersKeep(t, r, p)
  {
    var u := SetSlot(t, Slot(p, fd0), f0);
    FirstTaken(t, Slot(p, fd0), f0, f1);
    var fd1 := FreeFd(u.slots, p, 0);
    if fd1 == NOFILE then CloseBoth(t, f0, f1)   // the first descriptor is cleared again
    else
      LastTaken(u, Slot(p, fd1), f1);
      RowOnly(t.slots, p, fd0, f0);
      RowOnly(u.slots, p, fd1, f1);
      SetSlot(u, Slot(p, fd1), f1)
  }

  lemma FirstTaken(t: Table, s: nat, f0: int, f1: int)
    requires f0 != f1 && Inv(t, multiset{f0, f1}) && s < |t.slots| && t.slots[s] == NONE && t.files[f0].kind != FdNone
    ensures Inv(SetSlot(t, s, f0), multiset{f1})
  {
    SlotTakes(t, multiset{f0, f1}, s, f0);
    assert multiset{f0, f1} - multiset{f0} == multiset{f1};
  }

  lemma LastTaken(t: Table, s: nat, f: int)
    requires Inv(t, multiset{f}) && s < |t.slots| && t.slots[s] == NONE && t.files[f].kind != FdNone
    ensures Inv(SetSlot(t, s, f), NOTHING)
  {
    SlotTakes(t, multiset{f}, s, f);
    assert multiset{f} - multiset{f} == NOTHING;
  }

  /** `sys_pipe` with `pipealloc`; `page` says whether a page can be had. */
  ghost function SysPipe(t: Table, p: nat, page: bool): (r: Table)
    requires Inv(t, NOTHING) && p < NPROC
    ensures Inv(r, NOTHING) && OthersKeep(t, r, p)
  {
    var f0 := FreeFile(t.files, 0);
    if f0 == NFILE then t
    else
      AllocHolds(t, NOTHING, f0);
      SecondFile(Alloc(t, f0), p, page, f0)
  }

  ghost function SecondFile(t: Table, p: nat, page: bool, f0: int): (r: Table)
    requires Inv(t, multiset{f0}) && p < NPROC && t.files[f0].kind == FdNone
    ensures Inv(r, NOTHING) && OthersKeep(t, r, p)
  {
    var f1 := FreeFile(t.files, 0);
    if f1 == NFILE then
      CloseDrops(t, multiset{f0}, f0);
      assert multiset{f0} - multiset{f0} == NOTHING;
      FileClose(t, f0)
    else
      AllocHolds(t, multiset{f0}, f1);
      assert multiset{f0} + multiset{f1} == multiset{f0, f1};
      ThePipe(Alloc(t, f1), p, page, f0, f1)
  }

  ghost function ThePipe(t: Table, p: nat, page: bool, f0: int, f1: int): (r: Table)
    requires Inv(t, multiset{f0, f1}) && f0 != f1 && p < NPROC && t.files[f0].kind == FdNone == t.files[f1].kind
    ensures Inv(r, NOTHING) && OthersKeep(t, r, p)
  {
    if !page then CloseBoth(t, f0, f1)
    else
      PipeMade(t, f0, f1);
      PipeFds(MakePipe(t, f0, f1), p, f0, f1)
  }

  /** Process p has no descriptor from `from` on. */
  ghost predicate RowEmpty(t: Table, p: nat, from: nat)
    requires Shape(t) && p < NPROC && from <= NOFILE
  {
    forall s :: Slot(p, from) <= s < Slot(p, NOFILE) ==> t.slots[s] == NONE
  }

  /** Process q is new: the loop of `fork` has reached descriptor fd. */
  ghost predicate Forking(t: Table, p: nat, q: nat, fd: nat) {
    Inv(t, NOTHING) && p < NPROC && q < NPROC && p != q && fd <= NOFILE && RowEmpty(t, q, fd)
  }

  /** The descriptors after that loop. */
  function ForkSlots(slots: seq<int>, p: nat, q: nat, fd: nat): (r: seq<int>)
    requires |slots| == NPROC * NOFILE && p < NPROC && q < NPROC && fd <= NOFILE
    ensures |r| == |slots|
    decreases |slots| - fd
  {
    if fd == NOFILE then slots else ForkSlots(slots[Slot(q, fd) := slots[Slot(p, fd)]], p, q, fd + 1)
  }

  /** The loop of `fork` over the descriptors, from fd on. */
  ghost function Fork(t: Table, p: nat, q: nat, fd: nat): (r: Table)
    requires Forking(t, p, q, fd)
    ensures Inv(r, NOTHING) && OthersKeep(t, r, q)
    decreases |t.slots| - fd
  {
    if fd == NOFILE then t else Fork(ForkOne(t, p, q, fd), p, q, fd + 1)
  }

  lemma {:induction false} ForkTouchesSlots(t: Table, p: nat, q: nat, fd: nat)
    requires Forking(t, p, q, fd)
    ensures Fork(t, p, q, fd).slots == ForkSlots(t.slots, p, q, fd)
    decreases NOFILE - fd
  {
    if fd < NOFILE { ForkTouchesSlots(ForkOne(t, p, q, fd), p, q, fd + 1); }
  }

  lemma ForkUnfold(t: Table, p: nat, q: nat, fd: nat)
    requires Forking(t, p, q, fd) && fd < NOFILE
    ensures Fork(t, p, q, fd) == Fork(ForkOne(t, p, q, fd), p, q, fd + 1)
  {
  }

  ghost function ForkOne(t: Table, p: nat, q: nat, fd: nat): (r: Table)
    requires Forking(t, p, q, fd) && fd < NOFILE
    ensures Forking(r, p, q, fd + 1) && OthersKeep(t, r, q)
    ensures r.slots == t.slots[Slot(q, fd) := t.slots[Slot(p, fd)]] && r.pipes == t.pipes && r.freed == t.freed
  {
    var f := t.slots[Slot(p, fd)];
    if f == NONE then
      RowShrinks(t.slots, t.slots, q, fd);
      t
    else
      DupFd(t, Slot(p, fd), Slot(q, fd));
      RowShrinks(t.slots, t.slots[Slot(q, fd) := f], q, fd);
      SetSlot(FileDup(t, f), Slot(q, fd), f)
  }

  /** A free descriptor takes over a duplicate of what another names. */
  lemma DupFd(t: Table, from: nat, to: nat)
    requires Inv(t, NOTHING) && from < |t.slots| && to < |t.slots| && t.slots[from] != NONE && t.slots[to] == NONE
    ensures 0 <= t.slots[from] < NFILE && Inv(SetSlot(FileDup(t, t.slots[from]), to, t.slots[from]), NOTHING)
  {
    var f := t.slots[from];
    InUse(t, from);
    DupHolds(t, NOTHING, f);
    LastTaken(FileDup(t, f), to, f);
  }

  lemma RowShrinks(slots: seq<int>, after: seq<int>, q: nat, fd: nat)
    requires |slots| == |after| == NPROC * NOFILE && q < NPROC && fd < NOFILE
    requires forall s :: 0 <= s < |slots| && s != Slot(q, fd) ==> after[s] == slots[s]
    requires forall s :: Slot(q, fd) <= s < Slot(q, NOFILE) ==> slots[s] == NONE
    ensures forall s :: Slot(q, fd + 1) <= s < Slot(q, NOFILE) ==> after[s] == NONE
    ensures forall s :: 0 <= s < |slots| && !InRow(q, s) ==> after[s] == slots[s]
  {
  }

  /** The loop of `exit` over the descriptors, from fd on. */
  ghost function Exit(t: Table, p: nat, fd: nat): (r: Table)
    requires Inv(t, NOTHING) && p < NPROC && fd <= NOFILE
    ensures Inv(r, NOTHING) && OthersKeep(t, r, p)
    decreases |t.slots| - fd
  {
    if fd == NOFILE then t else Exit(SysClose(t, p, fd), p, fd + 1)
  }
}
