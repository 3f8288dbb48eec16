/** What dup, open, close and pipe change, said of the table before and after alone. */
module FileEffects {
  import opened FileSpec
  import opened FileCalls

  /** Descriptor n is the first free one of process p from `from` on. */
  ghost predicate NextFree(slots: seq<int>, p: nat, from: nat, n: int) {
    && |slots| == NPROC * NOFILE && p < NPROC && from <= n < NOFILE && slots[Slot(p, n)] == NONE
    && forall s :: Slot(p, from) <= s < Slot(p, n) ==> slots[s] != NONE
  }

  /** Process p has no free descriptor from `from` on. */
  ghost predicate NoneFree(slots: seq<int>, p: nat, from: nat)
    requires |slots| == NPROC * NOFILE && p < NPROC && from <= NOFILE
  {
    forall s :: Slot(p, from) <= s < Slot(p, NOFILE) ==> slots[s] != NONE
  }

  /** File f is the first one from `from` on that is not in use. */
  ghost predicate NextUnused(files: seq<File>, from: nat, f: int) {
    from <= f < |files| && files[f].ref == 0 && forall g :: from <= g < f ==> files[g].ref != 0
  }

  ghost predicate NoneUnused(files: seq<File>, from: nat) { forall f :: from <= f < |files| ==> files[f].ref != 0 }

  /** Descriptor n, which was free, names what fd names, and that file has one more reference. */
  ghost predicate Duplicated(t: Table, r: Table, p: nat, fd: int, n: int) {
    && Shape(t) && p < NPROC && IsOpen(t, p, fd) && NextFree(t.slots, p, 0, n)
    && var f := t.slots[Slot(p, fd)];
       && 0 <= f < NFILE
       && r == t.(slots := t.slots[Slot(p, n) := f], files := t.files[f := File(t.files[f].ref + 1, t.files[f].kind)])
  }

  /** Descriptor n, which was free, names a file that was not in use and is now the inode's. */
  ghost predicate Opened(t: Table, r: Table, p: nat, ip: int, n: int) {
    && NextFree(t.slots, p, 0, n) && |r.slots| == |t.slots|
    && var f := r.slots[Slot(p, n)];
       && NextUnused(t.files, 0, f)
       && r == t.(slots := t.slots[Slot(p, n) := f], files := t.files[f := File(1, FdInode(ip))])
  }

  /** Descriptor fd is free, and its file has one reference less or is out of use. */
  ghost predicate Closed(t: Table, r: Table, p: nat, fd: int) {
    && Shape(t) && p < NPROC && IsOpen(t, p, fd)
    && var f := t.slots[Slot(p, fd)];
       && 0 <= f < NFILE && r.slots == t.slots[Slot(p, fd) := NONE] && r.count == t.count
       && if t.files[f].ref > 1 then
            && r.files == t.files[f := File(t.files[f].ref - 1, t.files[f].kind)]
            && r.pipes == t.pipes && r.freed == t.freed
          else r.files == t.files[f := File(0, FdNone)] && EndsClosed(t, r, t.files[f].kind)
  }

  /** A file of this kind went out of use: the end of a pipe is closed, and the page of the pipe is
      freed if the other end was closed already. */
  ghost predicate EndsClosed(t: Table, r: Table, kind: Kind) {
    if !kind.FdPipe? then r.pipes == t.pipes && r.freed == t.freed
    else
      && kind.pipe in t.pipes
      && var other := End(t.pipes[kind.pipe], !kind.writable);
         if other == NONE then r.pipes == t.pipes - {kind.pipe} && r.freed == t.freed + [kind.pipe]
         else
           && r.pipes == t.pipes[kind.pipe := if kind.writable then Ends(other, NONE) else Ends(NONE, other)]
           && r.freed == t.freed
  }

  /** Two descriptors that were free name two files that were not in use: the lower one is the read
      end and the other the write end of a pipe that is new. */
  ghost predicate Piped(t: Table, r: Table, p: nat, n0: int, n1: int) {
    && NextFree(t.slots, p, 0, n0) && NextFree(t.slots, p, n0 + 1, n1) && |r.slots| == |t.slots|
    && var f0, f1 := r.slots[Slot(p, n0)], r.slots[Slot(p, n1)];
       && NextUnused(t.files, 0, f0) && NextUnused(t.files, f0 + 1, f1)
       && r.slots == t.slots[Slot(p, n0) := f0][Slot(p, n1) := f1]
       && r.files == t.files[f0 := File(1, FdPipe(t.count, false))][f1 := File(1, FdPipe(t.count, true))]
       && r.pipes == t.pipes[t.count := Ends(f0, f1)] && r.count == t.count + 1 && r.freed == t.freed
  }

  /** No pipe: descriptors and files are as they were, and so are the pipes in use; the page of a
      pipe that was begun has been freed. */
  ghost predicate NotPiped(t: Table, r: Table) {
    && r.slots == t.slots && r.files == t.files && r.pipes == t.pipes
    && ((r.count == t.count && r.freed == t.freed) || (r.count == t.count + 1 && r.freed == t.freed + [t.count]))
  }

  /** `pipe` succeeds exactly if there is a page, two files are not in use and two descriptors are
      free; n0 and n1 are those descriptors, or NOFILE. */
  ghost predicate PipeOutcome(t: Table, r: Table, p: nat, page: bool, n0: nat, n1: nat) {
    if page && n1 < NOFILE && TwoUnused(t.files) then Piped(t, r, p, n0, n1) else NotPiped(t, r)
  }

  ghost predicate TwoUnused(files: seq<File>) {
    exists f, g :: 0 <= f < g < |files| && files[f].ref == 0 && files[g].ref == 0
  }

  /** The first free descriptor behind n0. */
  function SecondFree(slots: seq<int>, p: nat, n0: nat): nat
    requires |slots| == NPROC * NOFILE && p < NPROC
  {
    if n0 < NOFILE then FreeFd(slots, p, n0 + 1) else NOFILE
  }

  lemma FreeFdIs(slots: seq<int>, p: nat, from: nat)
    requires |slots| == NPROC * NOFILE && p < NPROC && from <= NOFILE
    ensures var n := FreeFd(slots, p, from);
      if n < NOFILE then NextFree(slots, p, from, n) else NoneFree(slots, p, from)
  {
  }

  lemma FreeFileIs(files: seq<File>, from: nat)
    requires from <= |files|
    ensures var f := FreeFile(files, from); if f < |files| then NextUnused(files, from, f) else NoneUnused(files, from)
  {
  }

  lemma DupDoes(t: Table, p: nat, fd: int)
    requires Inv(t, NOTHING) && p < NPROC
    ensures var n := FreeFd(t.slots, p, 0);
      if IsOpen(t, p, fd) && n < NOFILE then Duplicated(t, SysDup(t, p, fd), p, fd, n)
      else SysDup(t, p, fd) == t && (IsOpen(t, p, fd) ==> NoneFree(t.slots, p, 0))
  {
    FreeFdIs(t.slots, p, 0);
    if IsOpen(t, p, fd) && FreeFd(t.slots, p, 0) < NOFILE {
      InUse(t, Slot(p, fd));
      DupIs(t, p, fd, FreeFd(t.slots, p, 0));
    }
  }

  lemma DupIs(t: Table, p: nat, fd: int, n: nat)
    requires Shape(t) && p < NPROC && IsOpen(t, p, fd) && 0 <= t.slots[Slot(p, fd)] < NFILE
    requires NextFree(t.slots, p, 0, n)
    ensures var f := t.slots[Slot(p, fd)]; Duplicated(t, SetSlot(FileDup(t, f), Slot(p, n), f), p, fd, n)
  {
  }

  lemma OpenDoes(t: Table, p: nat, ip: int)
    requires Inv(t, NOTHING) && p < NPROC
    ensures var n := FreeFd(t.slots, p, 0);
      if FreeFile(t.files, 0) < NFILE && n < NOFILE then Opened(t, SysOpen(t, p, ip), p, ip, n)
      else SysOpen(t, p, ip) == t && (NoneUnused(t.files, 0) || NoneFree(t.slots, p, 0))
  {
    FreeFdIs(t.slots, p, 0);
    FreeFileIs(t.files, 0);
    if FreeFd(t.slots, p, 0) == NOFILE {
      FailedOpen(t, p, ip);
    } else if FreeFile(t.files, 0) < NFILE {
      OpenIs(t, p, ip, FreeFd(t.slots, p, 0), FreeFile(t.files, 0));
    }
  }

  lemma OpenIs(t: Table, p: nat, ip: int, n: nat, f: nat)
    requires NextFree(t.slots, p, 0, n) && NextUnused(t.files, 0, f)
    ensures Opened(t, SetFile(SetSlot(Alloc(t, f), Slot(p, n), f), f, File(1, FdInode(ip))), p, ip, n)
  {
  }

  lemma CloseDoes(t: Table, p: nat, fd: int)
    requires Inv(t, NOTHING) && p < NPROC
    ensures if IsOpen(t, p, fd) then Closed(t, SysClose(t, p, fd), p, fd) else SysClose(t, p, fd) == t
  {
    if IsOpen(t, p, fd) { InUse(t, Slot(p, fd)); }
  }

  // pipe: the second file and the second descriptor are the next ones behind the first.

  lemma {:induction false} SkipsFile(files: seq<File>, f0: nat, x: File, from: nat)
    requires f0 < |files| && x.ref != 0 && from <= |files| && forall g :: from <= g < f0 ==> files[g].ref != 0
    ensures FreeFile(files[f0 := x], from) == FreeFile(files, if from <= f0 then f0 + 1 else from)
    decreases |files| - from
  {
    if from < |files| && files[f0 := x][from].ref != 0 { SkipsFile(files, f0, x, from + 1); }
  }

  lemma {:induction false} SkipsFd(slots: seq<int>, p: nat, n0: nat, f: int, from: nat)
    requires |slots| == NPROC * NOFILE && p < NPROC && n0 < NOFILE && f != NONE && from <= NOFILE
    requires forall s :: Slot(p, from) <= s < Slot(p, n0) ==> slots[s] != NONE
    ensures FreeFd(slots[Slot(p, n0) := f], p, from) == FreeFd(slots, p, if from <= n0 then n0 + 1 else from)
    decreases NOFILE - from
  {
    if from < NOFILE && slots[Slot(p, n0) := f][Slot(p, from)] != NONE { SkipsFd(slots, p, n0, f, from + 1); }
  }

  /** The two files that `pipealloc` takes, the first time it has both. */
  ghost predicate Fresh(t: Table, f0: nat, f1: nat) {
    && Shape(t) && f0 < f1 < NFILE && t.files[f0] == File(0, FdNone) == t.files[f1]
    && t.count !in t.pipes
  }

  function Two(t: Table, f0: nat, f1: nat): Table
    requires f0 < |t.files| && f1 < |t.files|
  {
    Alloc(Alloc(t, f0), f1)
  }

  lemma NoPageNoPipe(t: Table, f0: nat, f1: nat)
    requires Fresh(t, f0, f1) && Inv(Two(t, f0, f1), multiset{f0, f1})
    ensures NotPiped(t, CloseBoth(Two(t, f0, f1), f0, f1))
  {
    assert CloseBoth(Two(t, f0, f1), f0, f1).files == t.files;
  }

  lemma NoFdNoPipe(t: Table, f0: nat, f1: nat)
    requires Fresh(t, f0, f1) && Inv(MakePipe(Two(t, f0, f1), f0, f1), multiset{f0, f1})
    ensures NotPiped(t, CloseBoth(MakePipe(Two(t, f0, f1), f0, f1), f0, f1))
  {
    var u := MakePipe(Two(t, f0, f1), f0, f1);
    assert u.files[f0] == File(1, FdPipe(t.count, false)) && u.files[f1] == File(1, FdPipe(t.count, true));
    var v := FileClose(u, f0);
    assert v.pipes == u.pipes[t.count := Ends(NONE, f1)] && v.files == u.files[f0 := File(0, FdNone)];
    var w := FileClose(v, f1);
    assert w.pipes == v.pipes - {t.count} == t.pipes;
    assert w.files == t.files;
  }

  /** The second descriptor is the next free one. */
  lemma PipeFdsIs(t: Table, p: nat, f0: nat, f1: nat)
    requires f0 != f1 && Inv(t, multiset{f0, f1}) && p < NPROC
    requires t.files[f0].kind != FdNone && t.files[f1].kind != FdNone
    ensures var n0 := FreeFd(t.slots, p, 0);
      var n1 := SecondFree(t.slots, p, n0);
      PipeFds(t, p, f0, f1) ==
        if n1 < NOFILE then SetSlot(SetSlot(t, Slot(p, n0), f0), Slot(p, n1), f1) else CloseBoth(t, f0, f1)
  {
    var n0 := FreeFd(t.slots, p, 0);
    if n0 < NOFILE { SkipsFd(t.slots, p, n0, f0, 0); }
  }

  lemma PipeIs(t: Table, p: nat, f0: nat, f1: nat, n0: nat, n1: nat)
    requires Shape(t) && NextUnused(t.files, 0, f0) && NextUnused(t.files, f0 + 1, f1)
    requires NextFree(t.slots, p, 0, n0) && NextFree(t.slots, p, n0 + 1, n1)
    ensures Piped(t, SetSlot(SetSlot(MakePipe(Two(t, f0, f1), f0, f1), Slot(p, n0), f0), Slot(p, n1), f1), p, n0, n1)
  {
    var r := SetSlot(SetSlot(MakePipe(Two(t, f0, f1), f0, f1), Slot(p, n0), f0), Slot(p, n1), f1);
    assert r.slots[Slot(p, n0)] == f0 && r.slots[Slot(p, n1)] == f1;
    assert r.files == t.files[f0 := File(1, FdPipe(t.count, false))][f1 := File(1, FdPipe(t.count, true))];
  }

  /** Both files are there; what the call makes of the table is r. */
  lemma BothDo(t: Table, p: nat, page: bool, f0: nat, f1: nat, r: Table)
    requires Fresh(t, f0, f1) && p < NPROC && Inv(Two(t, f0, f1), multiset{f0, f1})
    requires NextUnused(t.files, 0, f0) && NextUnused(t.files, f0 + 1, f1)
    requires r == ThePipe(Two(t, f0, f1), p, page, f0, f1)
    ensures var n0 := FreeFd(t.slots, p, 0); PipeOutcome(t, r, p, page, n0, SecondFree(t.slots, p, n0))
  {
    if page {
      PipeMade(Two(t, f0, f1), f0, f1);
      PipeFdsIs(MakePipe(Two(t, f0, f1), f0, f1), p, f0, f1);
      PageDo(t, p, f0, f1, r);
    } else {
      NoPageNoPipe(t, f0, f1);
    }
  }

  lemma PageDo(t: Table, p: nat, f0: nat, f1: nat, r: Table)
    requires Fresh(t, f0, f1) && p < NPROC && Inv(MakePipe(Two(t, f0, f1), f0, f1), multiset{f0, f1})
    requires NextUnused(t.files, 0, f0) && NextUnused(t.files, f0 + 1, f1)
    requires var n0, u := FreeFd(t.slots, p, 0), MakePipe(Two(t, f0, f1), f0, f1);
      var n1 := SecondFree(t.slots, p, n0);
      r == if n1 < NOFILE then SetSlot(SetSlot(u, Slot(p, n0), f0), Slot(p, n1), f1) else CloseBoth(u, f0, f1)
    ensures var n0 := FreeFd(t.slots, p, 0); PipeOutcome(t, r, p, true, n0, SecondFree(t.slots, p, n0))
  {
    var n0 := FreeFd(t.slots, p, 0);
    FreeFdIs(t.slots, p, 0);
    if SecondFree(t.slots, p, n0) < NOFILE {
      FreeFdIs(t.slots, p, n0 + 1);
      PipeIs(t, p, f0, f1, n0, SecondFree(t.slots, p, n0));
    } else {
      NoFdNoPipe(t, f0, f1);
    }
  }

  lemma OneHeld(t: Table, f0: nat)
    requires Inv(t, NOTHING) && NextUnused(t.files, 0, f0)
    ensures Inv(Alloc(t, f0), multiset{f0}) && t.files[f0] == File(0, FdNone)
    ensures FileClose(Alloc(t, f0), f0) == t
  {
    AllocHolds(t, NOTHING, f0);
    assert FileClose(Alloc(t, f0), f0).files == t.files;
  }

  lemma TwoHeld(t: Table, f0: nat, f1: nat)
    requires Inv(t, NOTHING) && NextUnused(t.files, 0, f0) && NextUnused(t.files, f0 + 1, f1)
    ensures Fresh(t, f0, f1) && Inv(Two(t, f0, f1), multiset{f0, f1})
  {
    AllocHolds(t, NOTHING, f0);
    AllocHolds(Alloc(t, f0), multiset{f0}, f1);
    assert multiset{f0} + multiset{f1} == multiset{f0, f1};
  }

  /** The second file is the next one not in use. */
  lemma SecondFileIs(t: Table, p: nat, page: bool, f0: nat)
    requires Inv(t, NOTHING) && p < NPROC && NextUnused(t.files, 0, f0) && Inv(Alloc(t, f0), multiset{f0})
    requires t.files[f0].kind == FdNone
    ensures var f1 := FreeFile(t.files, f0 + 1);
      var r := SecondFile(Alloc(t, f0), p, page, f0);
      if f1 == NFILE then r == FileClose(Alloc(t, f0), f0)
      else Fresh(t, f0, f1) && Inv(Two(t, f0, f1), multiset{f0, f1}) && r == ThePipe(Two(t, f0, f1), p, page, f0, f1)
  {
    SkipsFile(t.files, f0, t.files[f0].(ref := 1), 0);
    FreeFileIs(t.files, f0 + 1);
    var f1 := FreeFile(t.files, f0 + 1);
    if f1 < NFILE { TwoHeld(t, f0, f1); }
  }

  lemma PipeDoes(t: Table, p: nat, page: bool)
    requires Inv(t, NOTHING) && p < NPROC
    ensures var n0 := FreeFd(t.slots, p, 0);
      PipeOutcome(t, SysPipe(t, p, page), p, page, n0, SecondFree(t.slots, p, n0))
  {
    var f0 := FreeFile(t.files, 0);
    FreeFileIs(t.files, 0);
    SysPipeIs(t, p, page);
    if f0 < NFILE { FileDo(t, p, page, f0, SysPipe(t, p, page)); } else { NoPipe(t, p, page); }
  }

  /** A call that reports success exactly if the descriptors changed, and which ones, is right. */
  lemma PipeEnd(t: Table, u: Table, p: nat, page: bool, r: int, fd0: nat, fd1: nat)
    requires Inv(t, NOTHING) && p < NPROC && u == SysPipe(t, p, page) && (r == 0 <==> u.slots != t.slots)
    requires r == 0 ==> fd0 == FreeFd(t.slots, p, 0) && fd1 == SecondFree(t.slots, p, fd0)
    ensures r == 0 ==> Piped(t, u, p, fd0, fd1)
    ensures r != 0 ==> NotPiped(t, u)
    ensures r == 0 <==> page && TwoUnused(t.files) && SecondFree(t.slots, p, FreeFd(t.slots, p, 0)) < NOFILE
  {
    var n0 := FreeFd(t.slots, p, 0);
    PipeDoes(t, p, page);
    PipeSides(t, u, p, page, n0, SecondFree(t.slots, p, n0));
  }

  lemma PipeSides(t: Table, u: Table, p: nat, page: bool, n0: nat, n1: nat)
    requires Shape(t) && PipeOutcome(t, u, p, page, n0, n1)
    ensures Piped(t, u, p, n0, n1) ==> u.slots != t.slots
    ensures NotPiped(t, u) ==> u.slots == t.slots
  {
    if Piped(t, u, p, n0, n1) { assert u.slots[Slot(p, n0)] != t.slots[Slot(p, n0)]; }
  }

  lemma SysPipeIs(t: Table, p: nat, page: bool)
    requires Inv(t, NOTHING) && p < NPROC
    ensures var f0 := FreeFile(t.files, 0);
      if f0 == NFILE then SysPipe(t, p, page) == t
      else
        && Inv(Alloc(t, f0), multiset{f0}) && t.files[f0].kind == FdNone
        && SysPipe(t, p, page) == SecondFile(Alloc(t, f0), p, page, f0)
  {
    FreeFileIs(t.files, 0);
    if FreeFile(t.files, 0) < NFILE { OneHeld(t, FreeFile(t.files, 0)); }
  }

  lemma NoPipe(t: Table, p: nat, page: bool)
    requires Shape(t) && p < NPROC && !TwoUnused(t.files)
    ensures var n0 := FreeFd(t.slots, p, 0); PipeOutcome(t, t, p, page, n0, SecondFree(t.slots, p, n0))
  {
  }

  lemma FileDo(t: Table, p: nat, page: bool, f0: nat, r: Table)
    requires Inv(t, NOTHING) && p < NPROC && NextUnused(t.files, 0, f0)
    requires t.files[f0].kind == FdNone && Inv(Alloc(t, f0), multiset{f0})
    requires r == SecondFile(Alloc(t, f0), p, page, f0)
    ensures var n0 := FreeFd(t.slots, p, 0); PipeOutcome(t, r, p, page, n0, SecondFree(t.slots, p, n0))
  {
    OneHeld(t, f0);
    SecondFileIs(t, p, page, f0);
    FreeFileIs(t.files, f0 + 1);
    var f1 := FreeFile(t.files, f0 + 1);
    if f1 < NFILE { BothDo(t, p, page, f0, f1, r); } else { NoPipe(t, p, page); }
  }
}
