/** Open files: the file table with its reference counts, the processes' descriptors and the
    pipes (file.c, sysfile.c, pipe.c, proc.c), as values. */
module FileSpec {
  const NFILE := 100
  const NOFILE := 16
  const NPROC := 64
  const NONE := -1

  datatype Kind = FdNone | FdPipe(pipe: nat, writable: bool) | FdInode(ip: int)

  datatype File = File(ref: int, kind: Kind)

  /** The two ends of a pipe: the file that holds each, or NONE once it is closed. */
  datatype Ends = Ends(reader: int, writer: int)

  /** `slots` holds the descriptors of all processes, NOFILE for each in turn. Pipes are
      numbered in the order of their allocation; `pipes` has those whose page is in use and
      `freed` those whose page was returned, in that order. */
  datatype Table = Table(files: seq<File>, slots: seq<int>, pipes: map<nat, Ends>, freed: seq<nat>, count: nat)

  function Slot(p: nat, fd: nat): nat { p * NOFILE + fd }

  /** The descriptors of process p. */
  predicate InRow(p: nat, s: int) { p * NOFILE <= s < p * NOFILE + NOFILE }

  /** The descriptors of every other process are as they were. */
  ghost predicate OthersKeep(t: Table, r: Table, p: nat) {
    |r.slots| == |t.slots| && forall s :: 0 <= s < |t.slots| && !InRow(p, s) ==> r.slots[s] == t.slots[s]
  }

  predicate Shape(t: Table) { |t.files| == NFILE && |t.slots| == NPROC * NOFILE }

  /** The first file that is not in use, NFILE if there is none. */
  function FreeFile(files: seq<File>, from: nat): (f: nat)
    requires from <= |files|
    ensures from <= f <= |files| && (f < |files| ==> files[f].ref == 0)
    ensures forall g :: from <= g < f ==> files[g].ref != 0
    decreases |files| - from
  {
    if from == |files| || files[from].ref == 0 then from else FreeFile(files, from + 1)
  }

  /** The first free descriptor of process p from fd on, NOFILE if there is none. */
  function FreeFd(slots: seq<int>, p: nat, fd: nat): (r: nat)
    requires |slots| == NPROC * NOFILE && p < NPROC && fd <= NOFILE
    ensures fd <= r <= NOFILE && (r < NOFILE ==> slots[Slot(p, r)] == NONE)
    ensures forall s :: Slot(p, fd) <= s < Slot(p, r) ==> slots[s] != NONE
    decreases NOFILE - fd
  {
    if fd == NOFILE || slots[Slot(p, fd)] == NONE then fd else FreeFd(slots, p, fd + 1)
  }

  function SetSlot(t: Table, s: nat, f: int): Table
    requires s < |t.slots|
  {
    t.(slots := t.slots[s := f])
  }

  function SetFile(t: Table, f: int, x: File): Table
    requires 0 <= f < |t.files|
  {
    t.(files := t.files[f := x])
  }

  /** `pipeclose` */
  function PipeClose(t: Table, pipe: nat, writable: bool): (r: Table)
    requires pipe in t.pipes
    ensures r.slots == t.slots && r.files == t.files
  {
    var e := if writable then t.pipes[pipe].(writer := NONE) else t.pipes[pipe].(reader := NONE);
    if e == Ends(NONE, NONE) then t.(pipes := t.pipes - {pipe}, freed := t.freed + [pipe])
    else t.(pipes := t.pipes[pipe := e])
  }

  function FileDup(t: Table, f: int): Table
    requires 0 <= f < |t.files|
  {
    SetFile(t, f, t.files[f].(ref := t.files[f].ref + 1))
  }

  /** `fileclose` */
  function FileClose(t: Table, f: int): (r: Table)
    requires 0 <= f < |t.files|
    requires t.files[f].kind.FdPipe? ==> t.files[f].kind.pipe in t.pipes
    ensures r.slots == t.slots
  {
    var x := t.files[f];
    if x.ref > 1 then SetFile(t, f, x.(ref := x.ref - 1))
    else
      var u := SetFile(t, f, File(0, FdNone));
      if x.kind.FdPipe? then PipeClose(u, x.kind.pipe, x.kind.writable) else u
  }

  /** Each count is the number of descriptors that name the file, plus the references that
      the running call holds itself. */
  ghost predicate Counted(t: Table, held: multiset<int>) {
    && Shape(t)
    && (forall s :: 0 <= s < |t.slots| ==> t.slots[s] == NONE || 0 <= t.slots[s] < NFILE)
    && (forall f :: 0 <= f < NFILE ==> t.files[f].ref == multiset(t.slots)[f] + held[f])
    && (forall f :: f in held ==> 0 <= f < NFILE)
  }

  /** A file out of use has no kind; one in use has, unless the running call has just
      allocated it. */
  ghost predicate Kinds(t: Table, held: multiset<int>)
    requires Shape(t)
  {
    forall f :: 0 <= f < NFILE ==>
      (t.files[f].ref == 0 ==> t.files[f].kind == FdNone) && (t.files[f].kind == FdNone ==> t.files[f].ref == held[f])
  }

  function End(e: Ends, writable: bool): int { if writable then e.writer else e.reader }

  /** The open ends of the pipes in use and the files of kind pipe match one to one. */
  ghost predicate PipesOk(t: Table)
    requires Shape(t)
  {
    && (forall f :: 0 <= f < NFILE && t.files[f].kind.FdPipe? ==>
          t.files[f].kind.pipe in t.pipes && End(t.pipes[t.files[f].kind.pipe], t.files[f].kind.writable) == f)
    && (forall i :: i in t.pipes ==> t.pipes[i] != Ends(NONE, NONE) && EndOk(t, i, false) && EndOk(t, i, true))
  }

  ghost predicate EndOk(t: Table, i: nat, writable: bool)
    requires Shape(t) && i in t.pipes
  {
    var f := End(t.pipes[i], writable);
    f == NONE || (0 <= f < NFILE && t.files[f].kind == FdPipe(i, writable))
  }

  /** Every pipe so far is either in use or was freed, and was freed once. */
  ghost predicate FreedOnce(t: Table) {
    && (forall i: nat :: i < t.count <==> i in t.pipes || i in t.freed)
    && (forall i :: i in t.pipes ==> i !in t.freed)
    && (forall a, b :: 0 <= a < b < |t.freed| ==> t.freed[a] != t.freed[b])
  }

  ghost predicate Inv(t: Table, held: multiset<int>) {
    Counted(t, held) && Kinds(t, held) && PipesOk(t) && FreedOnce(t)
  }

  /** A held reference goes into a free descriptor. */
  lemma SlotTakes(t: Table, held: multiset<int>, s: nat, f: int)
    requires Inv(t, held) && s < |t.slots| && t.slots[s] == NONE && f in held
    requires t.files[f].kind == FdNone ==> held[f] == 1
    ensures Counted(SetSlot(t, s, f), held - multiset{f})
    ensures t.files[f].kind != FdNone ==> Inv(SetSlot(t, s, f), held - multiset{f})
  {
  }

  /** A descriptor gives its reference back to the call. */
  lemma SlotGives(t: Table, held: multiset<int>, s: nat)
    requires Inv(t, held) && s < |t.slots| && t.slots[s] != NONE
    ensures Inv(SetSlot(t, s, NONE), held + multiset{t.slots[s]})
  {
    SlotGivesCounted(t, held, s);
    SlotGivesKinds(t, held, s);
    assert PipesOk(SetSlot(t, s, NONE)) && FreedOnce(SetSlot(t, s, NONE));
  }

  lemma SlotGivesCounted(t: Table, held: multiset<int>, s: nat)
    requires Counted(t, held) && s < |t.slots| && t.slots[s] != NONE
    ensures Counted(SetSlot(t, s, NONE), held + multiset{t.slots[s]})
  {
    assert multiset(t.slots)[t.slots[s]] > 0;
  }

  lemma SlotGivesKinds(t: Table, held: multiset<int>, s: nat)
    requires Counted(t, held) && Kinds(t, held) && s < |t.slots| && t.slots[s] != NONE
    ensures Kinds(SetSlot(t, s, NONE), held + multiset{t.slots[s]})
  {
    assert multiset(t.slots)[t.slots[s]] > 0;
  }

  /** `filealloc` */
  lemma AllocHolds(t: Table, held: multiset<int>, f: int)
    requires Inv(t, held) && 0 <= f < NFILE && t.files[f].ref == 0
    ensures Inv(SetFile(t, f, t.files[f].(ref := 1)), held + multiset{f}) && f !in held
  {
  }

  lemma DupHolds(t: Table, held: multiset<int>, f: int)
    requires Inv(t, held) && 0 <= f < NFILE && t.files[f].kind != FdNone
    ensures Inv(FileDup(t, f), held + multiset{f})
  {
    DupPipes(t, f);
  }

  lemma DupPipes(t: Table, f: int)
    requires Shape(t) && PipesOk(t) && 0 <= f < NFILE
    ensures Shape(FileDup(t, f)) && PipesOk(FileDup(t, f))
  {
    forall i | i in t.pipes ensures EndOk(FileDup(t, f), i, false) && EndOk(FileDup(t, f), i, true) {
      assert EndOk(t, i, false) && EndOk(t, i, true);
    }
  }

  /** The file goes out of use; if it was an end of a pipe, that end is still to be closed. */
  lemma LastDropped(t: Table, held: multiset<int>, f: int)
    requires Counted(t, held) && Kinds(t, held) && f in held && t.files[f].ref <= 1
    ensures Counted(SetFile(t, f, File(0, FdNone)), held - multiset{f})
    ensures Kinds(SetFile(t, f, File(0, FdNone)), held - multiset{f})
  {
    assert held[f] == 1;
  }

  lemma EndClosed(t: Table, f: int)
    requires Shape(t) && PipesOk(t) && FreedOnce(t) && 0 <= f < NFILE && t.files[f].kind.FdPipe?
    ensures var u := PipeClose(SetFile(t, f, File(0, FdNone)), t.files[f].kind.pipe, t.files[f].kind.writable);
      PipesOk(u) && FreedOnce(u)
  {
    var i, w := t.files[f].kind.pipe, t.files[f].kind.writable;
    var u := PipeClose(SetFile(t, f, File(0, FdNone)), i, w);
    assert EndOk(t, i, w) && EndOk(t, i, !w);
    forall j | j in u.pipes ensures u.pipes[j] != Ends(NONE, NONE) && EndOk(u, j, false) && EndOk(u, j, true) {
      assert EndOk(t, j, false) && EndOk(t, j, true);
    }
  }

  lemma OtherClosed(t: Table, f: int)
    requires Shape(t) && PipesOk(t) && FreedOnce(t) && 0 <= f < NFILE && !t.files[f].kind.FdPipe?
    ensures var u := SetFile(t, f, File(0, FdNone)); PipesOk(u) && FreedOnce(u)
  {
    var u := SetFile(t, f, File(0, FdNone));
    forall j | j in u.pipes ensures u.pipes[j] != Ends(NONE, NONE) && EndOk(u, j, false) && EndOk(u, j, true) {
      assert EndOk(t, j, false) && EndOk(t, j, true);
    }
  }

  lemma StillOpen(t: Table, held: multiset<int>, f: int)
    requires Inv(t, held) && f in held && t.files[f].ref > 1
    ensures Inv(FileClose(t, f), held - multiset{f})
  {
    var u := FileClose(t, f);
    forall j | j in u.pipes ensures u.pipes[j] != Ends(NONE, NONE) && EndOk(u, j, false) && EndOk(u, j, true) {
      assert EndOk(t, j, false) && EndOk(t, j, true);
    }
  }

  /** `fileclose` gives up one held reference. */
  lemma CloseDrops(t: Table, held: multiset<int>, f: int)
    requires Inv(t, held) && f in held
    ensures Inv(FileClose(t, f), held - multiset{f})
  {
    if t.files[f].ref > 1 {
      StillOpen(t, held, f);
    } else {
      LastDropped(t, held, f);
      if t.files[f].kind.FdPipe? { EndClosed(t, f); } else { OtherClosed(t, f); }
    }
  }
}
