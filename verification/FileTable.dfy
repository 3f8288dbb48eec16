/** The file table and the descriptors as the kernel updates them (file.c, sysfile.c, proc.c). */
module FileTable {
  import opened FileSpec
  import opened FileCalls
  import opened FileEffects
  import opened FileRuns

  class Files {
    var files: seq<File>
    var slots: seq<int>
    var pipes: map<nat, Ends>
    var count: nat
    ghost var freed: seq<nat>

    ghost function T(): Table
      reads this
    {
      Table(files, slots, pipes, freed, count)
    }

    constructor ()
      ensures Inv(T(), NOTHING)
    {
      files, slots := seq(NFILE, _ => File(0, FdNone)), seq(NPROC * NOFILE, _ => NONE);
      pipes, count, freed := map[], 0, [];
      new;
      forall f | 0 <= f < NFILE ensures multiset(slots)[f] == 0 { assert f !in slots; }
    }

    /** `filealloc`; NFILE stands for the null pointer. */
    method FileAlloc() returns (f: nat)
      requires |files| == NFILE
      modifies this`files
      ensures f == FreeFile(old(files), 0)
      ensures T() == if f < NFILE then Alloc(old(T()), f) else old(T())
    {
      f := 0;
      while f < NFILE
        invariant f <= NFILE && files == old(files) && FreeFile(files, 0) == FreeFile(files, f)
      {
        if files[f].ref == 0 {
          files := files[f := files[f].(ref := 1)];
          return;
        }
        f := f + 1;
      }
    }

    /** `fdalloc`; NOFILE stands for -1. */
    method FdAlloc(p: nat, f: int) returns (fd: nat)
      requires |slots| == NPROC * NOFILE && p < NPROC
      modifies this`slots
      ensures fd == FreeFd(old(slots), p, 0)
      ensures T() == if fd < NOFILE then SetSlot(old(T()), Slot(p, fd), f) else old(T())
    {
      fd := 0;
      while fd < NOFILE
        invariant fd <= NOFILE && slots == old(slots) && FreeFd(slots, p, 0) == FreeFd(slots, p, fd)
      {
        if slots[Slot(p, fd)] == NONE {
          slots := slots[Slot(p, fd) := f];
          return;
        }
        fd := fd + 1;
      }
    }

    method Dup(f: int)
      requires 0 <= f < |files| && files[f].ref >= 1
      modifies this`files
      ensures T() == FileDup(old(T()), f)
    {
      files := files[f := files[f].(ref := files[f].ref + 1)];
    }

    /** `pipeclose`, for the part that decides about the page. */
    method ClosePipe(pipe: nat, writable: bool)
      requires pipe in pipes
      modifies this`pipes, this`freed
      ensures T() == PipeClose(old(T()), pipe, writable)
    {
      if writable {
        pipes := pipes[pipe := pipes[pipe].(writer := NONE)];
      } else {
        pipes := pipes[pipe := pipes[pipe].(reader := NONE)];
      }
      if pipes[pipe].reader == NONE && pipes[pipe].writer == NONE {
        pipes := pipes - {pipe};
        freed := freed + [pipe];
      }
    }

    /** `fileclose`; the panic on a file that is not in use is not reached. */
    method Close(f: int)
      requires 0 <= f < |files| && files[f].ref >= 1
      requires files[f].kind.FdPipe? ==> files[f].kind.pipe in pipes
      modifies this`files, this`pipes, this`freed
      ensures T() == FileClose(old(T()), f)
    {
      files := files[f := files[f].(ref := files[f].ref - 1)];
      if files[f].ref > 0 {
        return;
      }
      var ff := files[f];
      files := files[f := File(0, FdNone)];
      if ff.kind.FdPipe? {
        ClosePipe(ff.kind.pipe, ff.kind.writable);
      }
    }

    /** A reference the call holds can be closed. */
    lemma HeldIsOpen(held: multiset<int>, f: int)
      requires Inv(T(), held) && f in held
      ensures 0 <= f < |files| && files[f].ref >= 1
      ensures files[f].kind.FdPipe? ==> files[f].kind.pipe in pipes
    {
    }

    method SysCloseFd(p: nat, fd: int) returns (r: int)
      requires Inv(T(), NOTHING) && p < NPROC
      modifies this
      ensures T() == SysClose(old(T()), p, fd) && (r == 0 <==> IsOpen(old(T()), p, fd))
      ensures r == 0 ==> slots == old(slots)[Slot(p, fd) := NONE] && Closed(old(T()), T(), p, fd)
      ensures r != 0 ==> r == -1 && T() == old(T())
    {
      CloseDoes(T(), p, fd);
      if !(0 <= fd < NOFILE) || slots[Slot(p, fd)] == NONE {
        return -1;
      }
      var f := slots[Slot(p, fd)];
      SlotGives(T(), NOTHING, Slot(p, fd));
      slots := slots[Slot(p, fd) := NONE];
      HeldIsOpen(multiset{f}, f);
      Close(f);
      return 0;
    }

    method SysDupFd(p: nat, fd: int) returns (r: int)
      requires Inv(T(), NOTHING) && p < NPROC
      modifies this
      ensures T() == SysDup(old(T()), p, fd)
      ensures r >= 0 ==>
        && Duplicated(old(T()), T(), p, fd, r)
        && slots == old(slots)[Slot(p, r) := old(slots)[Slot(p, fd)]]
      ensures r < 0 ==> r == -1 && T() == old(T()) && (IsOpen(old(T()), p, fd) ==> NoneFree(old(slots), p, 0))
    {
      DupDoes(T(), p, fd);
      if !(0 <= fd < NOFILE) || slots[Slot(p, fd)] == NONE {
        return -1;
      }
      var f := slots[Slot(p, fd)];
      InUse(T(), Slot(p, fd));
      var new_fd := FdAlloc(p, f);
      if new_fd == NOFILE {
        return -1;
      }
      Dup(f);
      return new_fd;
    }

    /** The end of `sys_open`: its inode was found. */
    method SysOpenInode(p: nat, ip: int) returns (r: int)
      requires Inv(T(), NOTHING) && p < NPROC
      modifies this
      ensures T() == SysOpen(old(T()), p, ip)
      ensures r >= 0 ==>
        && Opened(old(T()), T(), p, ip, r)
        && slots == old(slots)[Slot(p, r) := slots[Slot(p, r)]] && files[slots[Slot(p, r)]].kind == FdInode(ip)
      ensures r < 0 ==> r == -1 && T() == old(T()) && (NoneUnused(old(files), 0) || NoneFree(old(slots), p, 0))
    {
      var f := FileAlloc();
      if f == NFILE {
        r := -1;
      } else {
        AllocHolds(old(T()), NOTHING, f);
        r := OpenFd(p, f, ip);
      }
      OpenDoes(old(T()), p, ip);
    }

    method OpenFd(p: nat, f: nat, ip: int) returns (r: int)
      requires Inv(T(), multiset{f}) && p < NPROC && files[f].ref == 1
      modifies this
      ensures FreeFd(old(slots), p, 0) == NOFILE ==> r == -1 && T() == FileClose(old(T()), f)
      ensures FreeFd(old(slots), p, 0) < NOFILE ==>
        r == FreeFd(old(slots), p, 0) && T() == SetFile(SetSlot(old(T()), Slot(p, r), f), f, File(1, FdInode(ip)))
    {
      var fd := FdAlloc(p, f);
      if fd == NOFILE {
        HeldIsOpen(multiset{f}, f);
        Close(f);
        return -1;
      }
      files := files[f := files[f].(kind := FdInode(ip))];
      return fd;
    }

    /** `pipealloc`; `page` says whether `kalloc` has one. On success the call holds the two
        files, which are the ends of a new pipe. */
    method PipeAlloc(page: bool) returns (ok: bool, f0: nat, f1: nat)
      requires Inv(T(), NOTHING)
      modifies this
      ensures f0 == FreeFile(old(files), 0) && (f0 == NFILE ==> !ok && T() == old(T()))
      ensures f0 < NFILE ==> Allocated(Alloc(old(T()), f0), f0, f1, page, ok, T())
    {
      f1, ok := NFILE, false;
      f0 := FileAlloc();
      if f0 < NFILE {
        AllocHolds(old(T()), NOTHING, f0);
        ok, f1 := SecondAlloc(page, f0);
      }
    }

    /** What `pipealloc` has done once the first file is there. */
    static ghost predicate Allocated(t: Table, f0: nat, f1: nat, page: bool, ok: bool, r: Table) {
      && Inv(t, multiset{f0}) && f1 == FreeFile(t.files, 0)
      && if f1 == NFILE then !ok && r == FileClose(t, f0)
         else
           && f0 != f1 && Inv(Alloc(t, f1), multiset{f0, f1}) && ok == page
           && r == if page then MakePipe(Alloc(t, f1), f0, f1) else CloseBoth(Alloc(t, f1), f0, f1)
    }

    method SecondAlloc(page: bool, f0: nat) returns (ok: bool, f1: nat)
      requires Inv(T(), multiset{f0})
      modifies this
      ensures Allocated(old(T()), f0, f1, page, ok, T())
    {
      HeldIsOpen(multiset{f0}, f0);
      f1 := FileAlloc();
      if f1 == NFILE {
        Close(f0);
        return false, f1;
      }
      AllocHolds(old(T()), multiset{f0}, f1);
      assert multiset{f0} + multiset{f1} == multiset{f0, f1};
      FinishPipe(page, f0, f1);
      return page, f1;
    }

    /** The last steps of `pipealloc`. */
    method FinishPipe(page: bool, f0: nat, f1: nat)
      requires f0 != f1 && Inv(T(), multiset{f0, f1}) && f0 < |files| && f1 < |files|
      modifies this
      ensures T() == if page then MakePipe(old(T()), f0, f1) else CloseBoth(old(T()), f0, f1)
    {
      if !page {
        CloseTwo(f0, f1);
        return;
      }
      files := files[f0 := File(files[f0].ref, FdPipe(count, false))][f1 := File(files[f1].ref, FdPipe(count, true))];
      pipes := pipes[count := Ends(f0, f1)];
      count := count + 1;
    }

    method CloseTwo(f0: nat, f1: nat)
      requires f0 != f1 && Inv(T(), multiset{f0, f1})
      modifies this
      ensures T() == CloseBoth(old(T()), f0, f1)
    {
      HeldIsOpen(multiset{f0, f1}, f0);
      CloseDrops(T(), multiset{f0, f1}, f0);
      assert multiset{f0, f1} - multiset{f0} == multiset{f1};
      Close(f0);
      HeldIsOpen(multiset{f1}, f1);
      Close(f1);
    }

    /** The rest of `sys_pipe`. */
    method TakeFds(p: nat, f0: nat, f1: nat) returns (r: int, fd0: nat, fd1: nat)
      requires f0 != f1 && Inv(T(), multiset{f0, f1}) && p < NPROC
      requires files[f0].kind != FdNone && files[f1].kind != FdNone
      modifies this
      ensures T() == PipeFds(old(T()), p, f0, f1) && (r == 0 <==> slots != old(slots)) && (r == 0 || r == -1)
      ensures fd0 == FreeFd(old(slots), p, 0) && fd1 == SecondFree(old(slots), p, fd0)
    {
      fd0 := FdAlloc(p, f0);
      if fd0 == NOFILE {
        CloseTwo(f0, f1);
        r, fd1 := -1, NOFILE;
      } else {
        SkipsFd(old(slots), p, fd0, f0, 0);
        r, fd1 := TakeSecond(p, f0, f1, fd0, old(T()));
      }
    }

    method TakeSecond(p: nat, f0: nat, f1: nat, fd0: nat, ghost t: Table) returns (r: int, fd1: nat)
      requires f0 != f1 && Inv(t, multiset{f0, f1}) && p < NPROC && fd0 < NOFILE && t.slots[Slot(p, fd0)] == NONE
      requires t.files[f0].kind != FdNone && t.files[f1].kind != FdNone
      requires T() == SetSlot(t, Slot(p, fd0), f0)
      modifies this
      ensures T() == SecondFd(t, p, f0, f1, fd0) && (r == 0 <==> slots != t.slots) && (r == 0 || r == -1)
      ensures fd1 == FreeFd(old(slots), p, 0)
    {
      fd1 := FdAlloc(p, f1);
      if fd1 == NOFILE {
        slots := slots[Slot(p, fd0) := NONE];
        assert T() == t;
        CloseTwo(f0, f1);
        return -1, fd1;
      }
      assert slots[Slot(p, fd0)] == f0;
      return 0, fd1;
    }

    /** `sys_pipe`; fd0 and fd1 are what it stores for its caller. */
    method SysPipeFds(p: nat, page: bool) returns (r: int, fd0: nat, fd1: nat)
      requires Inv(T(), NOTHING) && p < NPROC
      modifies this
      ensures T() == SysPipe(old(T()), p, page)
      ensures r == 0 ==> Piped(old(T()), T(), p, fd0, fd1)
      ensures r != 0 ==> r == -1 && NotPiped(old(T()), T())
      ensures r == 0 <==> page && TwoUnused(old(files)) && SecondFree(old(slots), p, FreeFd(old(slots), p, 0)) < NOFILE
    {
      r, fd0, fd1 := RunPipe(p, page);
      PipeEnd(old(T()), T(), p, page, r, fd0, fd1);
    }

    method RunPipe(p: nat, page: bool) returns (r: int, fd0: nat, fd1: nat)
      requires Inv(T(), NOTHING) && p < NPROC
      modifies this
      ensures T() == SysPipe(old(T()), p, page) && (r == 0 <==> slots != old(slots)) && (r == 0 || r == -1)
      ensures r == 0 ==> fd0 == FreeFd(old(slots), p, 0) && fd1 == SecondFree(old(slots), p, fd0)
    {
      ghost var t := T();
      fd0, fd1 := 0, 0;
      var ok, rf, wf := PipeAlloc(page);
      if !ok {
        return -1, fd0, fd1;
      }
      PipeMade(Alloc(Alloc(t, rf), wf), rf, wf);
      r, fd0, fd1 := TakeFds(p, rf, wf);
    }

    /** The loop of `fork`. */
    method ForkFds(p: nat, q: nat)
      requires Forking(T(), p, q, 0)
      modifies this
      ensures T() == Fork(old(T()), p, q, 0)
      ensures OthersKeep(old(T()), T(), q) && Copied(old(slots), slots, p, q, 0)
    {
      ForkCopies(T(), p, q);
      ghost var t := T();
      ghost var goal := Fork(t, p, q, 0);
      var i := 0;
      while i < NOFILE
        invariant i <= NOFILE && T() == t && Forking(t, p, q, i) && Fork(t, p, q, i) == goal
      {
        ForkUnfold(t, p, q, i);
        ForkFd(p, q, i);
        t := ForkOne(t, p, q, i);
        i := i + 1;
      }
    }

    method ForkFd(p: nat, q: nat, i: nat)
      requires i < NOFILE && Forking(T(), p, q, i)
      modifies this
      ensures T() == ForkOne(old(T()), p, q, i)
    {
      if slots[Slot(p, i)] != NONE {
        InUse(T(), Slot(p, i));
        Dup(slots[Slot(p, i)]);
        slots := slots[Slot(q, i) := slots[Slot(p, i)]];
      }
    }

    /** The loop of `exit`. */
    method ExitFds(p: nat)
      requires Inv(T(), NOTHING) && p < NPROC
      modifies this
      ensures T() == Exit(old(T()), p, 0)
      ensures OthersKeep(old(T()), T(), p) && RowEmpty(T(), p, 0)
    {
      ExitEmpties(T(), p, 0);
      ghost var t := T();
      ghost var goal := Exit(t, p, 0);
      var fd := 0;
      while fd < NOFILE
        invariant fd <= NOFILE && T() == t && Inv(t, NOTHING) && Exit(t, p, fd) == goal
      {
        var r := SysCloseFd(p, fd);
        t := SysClose(t, p, fd);
        fd := fd + 1;
      }
    }
  }
}
