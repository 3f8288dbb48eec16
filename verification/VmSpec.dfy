/** Physical pages and page tables (kalloc.c, vm.c) as values: the free list, the page
    directories, the page tables and the contents of the user pages, with a map that gives
    every page the kernel manages its one place. */
module VmSpec {
  /** Entries of a directory or a table, NPDENTRIES == NPTENTRIES. */
  const ENTRIES := 1024

  /** Directory entries below KERNBASE. */
  const USERDIR := 512

  /** Virtual pages below KERNBASE. */
  const USERPAGES := 524288

  const NONE := -1

  datatype Data = Data(bytes: seq<int>)

  datatype Pte = Absent | Present(page: int, flags: int)

  datatype Mem = Mem(free: seq<int>, dirs: map<int, seq<int>>, tables: map<int, seq<Pte>>, data: map<int, Data>)

  /** Where a page is: on the free list, a directory, a table of a directory, a user page that
      an entry of a table maps, in the hands of a kernel routine, or out of everyone's reach. */
  datatype Place = Free(i: int) | Dir | TableOf(d: int, i: int) | UserAt(t: int, j: int) | Held | Lost

  ghost predicate FreeOk(m: Mem, o: map<int, Place>) {
    forall i :: 0 <= i < |m.free| ==> m.free[i] in o && o[m.free[i]] == Free(i)
  }

  ghost predicate DirOk(m: Mem, o: map<int, Place>, d: int)
    requires d in m.dirs
  {
    && d in o && o[d] == Dir && |m.dirs[d]| == ENTRIES
    && forall i :: 0 <= i < ENTRIES && m.dirs[d][i] != NONE ==>
         m.dirs[d][i] in m.tables && m.dirs[d][i] in o && o[m.dirs[d][i]] == TableOf(d, i)
  }

  ghost predicate TableOk(m: Mem, o: map<int, Place>, t: int)
    requires t in m.tables
  {
    && t in o && o[t].TableOf? && |m.tables[t]| == ENTRIES
    && (o[t].i < USERDIR ==> forall j :: 0 <= j < ENTRIES && m.tables[t][j].Present? ==>
          m.tables[t][j].page in m.data && m.tables[t][j].page in o && o[m.tables[t][j].page] == UserAt(t, j))
  }

  ghost predicate PlaceOk(m: Mem, o: map<int, Place>, p: int)
    requires p in o
  {
    match o[p]
    case Free(i) => 0 <= i < |m.free| && m.free[i] == p
    case Dir => p in m.dirs
    case TableOf(d, i) =>
      p in m.tables && d in m.dirs && 0 <= i < ENTRIES && |m.dirs[d]| == ENTRIES && m.dirs[d][i] == p
    case UserAt(t, j) =>
      && p in m.data && t in m.tables && 0 <= j < ENTRIES && |m.tables[t]| == ENTRIES
      && m.tables[t][j].Present? && m.tables[t][j].page == p
      && t in o && o[t].TableOf? && o[t].i < USERDIR
    case Held => true
    case Lost => true
  }

  /** Every page is in exactly one place. */
  ghost predicate Inv(m: Mem, o: map<int, Place>) {
    && NONE !in o && FreeOk(m, o)
    && (forall d :: d in m.dirs ==> DirOk(m, o, d))
    && (forall t :: t in m.tables ==> TableOk(m, o, t))
    && (forall p :: p in o ==> PlaceOk(m, o, p))
    && (forall p :: p in m.data ==> p in o && o[p].UserAt?)
  }

  function EmptyDir(): seq<int> { seq(ENTRIES, i => NONE) }

  function EmptyTable(): seq<Pte> { seq(ENTRIES, j => Absent) }

  // ----- the updates that everything else is made of

  function Popped(m: Mem): Mem
    requires m.free != []
  {
    m.(free := m.free[..|m.free| - 1])
  }

  function Pushed(m: Mem, p: int): Mem { m.(free := m.free + [p]) }

  function NewDir(m: Mem, d: int): Mem { m.(dirs := m.dirs[d := EmptyDir()]) }

  function NewTable(m: Mem, d: int, i: int, t: int): Mem
    requires d in m.dirs && 0 <= i < |m.dirs[d]|
  {
    m.(dirs := m.dirs[d := m.dirs[d][i := t]], tables := m.tables[t := EmptyTable()])
  }

  function SetPte(m: Mem, t: int, j: int, e: Pte): Mem
    requires t in m.tables && 0 <= j < |m.tables[t]|
  {
    m.(tables := m.tables[t := m.tables[t][j := e]])
  }

  function DropTable(m: Mem, d: int, i: int): Mem
    requires d in m.dirs && 0 <= i < |m.dirs[d]|
  {
    m.(dirs := m.dirs[d := m.dirs[d][i := NONE]], tables := m.tables - {m.dirs[d][i]})
  }

  function DropDir(m: Mem, d: int): Mem { m.(dirs := m.dirs - {d}) }

  lemma PopInv(m: Mem, o: map<int, Place>)
    requires Inv(m, o) && m.free != []
    ensures Inv(Popped(m), o[m.free[|m.free| - 1] := Held])
  {
    var p := m.free[|m.free| - 1];
    var o' := o[p := Held];
    assert o[p] == Free(|m.free| - 1);
    forall d | d in m.dirs ensures DirOk(Popped(m), o', d) { assert DirOk(m, o, d); }
    forall t | t in m.tables ensures TableOk(Popped(m), o', t) { assert TableOk(m, o, t); }
    forall q | q in o' ensures PlaceOk(Popped(m), o', q) { assert PlaceOk(m, o, q); }
  }

  lemma PushInv(m: Mem, o: map<int, Place>, p: int)
    requires Inv(m, o) && p in o && o[p] == Held
    ensures Inv(Pushed(m, p), o[p := Free(|m.free|)])
  {
    var o' := o[p := Free(|m.free|)];
    forall d | d in m.dirs ensures DirOk(Pushed(m, p), o', d) { assert DirOk(m, o, d); }
    forall t | t in m.tables ensures TableOk(Pushed(m, p), o', t) { assert TableOk(m, o, t); }
    forall q | q in o' ensures PlaceOk(Pushed(m, p), o', q) { assert PlaceOk(m, o, q); }
  }

  lemma NewDirInv(m: Mem, o: map<int, Place>, p: int)
    requires Inv(m, o) && p in o && o[p] == Held
    ensures Inv(NewDir(m, p), o[p := Dir])
  {
    var o', m' := o[p := Dir], NewDir(m, p);
    assert p !in m.dirs;
    forall d | d in m'.dirs ensures DirOk(m', o', d) { if d != p { assert DirOk(m, o, d); } }
    forall t | t in m.tables ensures TableOk(m', o', t) { assert TableOk(m, o, t); }
    forall q | q in o' ensures PlaceOk(m', o', q) { assert PlaceOk(m, o, q); }
  }

  lemma NewTableInv(m: Mem, o: map<int, Place>, d: int, i: int, p: int)
    requires Inv(m, o) && p in o && o[p] == Held && d in m.dirs && 0 <= i < ENTRIES && |m.dirs[d]| == ENTRIES
    requires m.dirs[d][i] == NONE
    ensures Inv(NewTable(m, d, i, p), o[p := TableOf(d, i)])
  {
    var o', m' := o[p := TableOf(d, i)], NewTable(m, d, i, p);
    assert DirOk(m, o, d);
    assert p !in m.tables;
    forall x | x in m'.dirs ensures DirOk(m', o', x) { assert DirOk(m, o, x); }
    forall t | t in m'.tables ensures TableOk(m', o', t) { if t != p { assert TableOk(m, o, t); } }
    forall q | q in o' ensures PlaceOk(m', o', q) { assert PlaceOk(m, o, q); }
  }

  /** An entry of a kernel table maps a page that is not managed here. */
  lemma KernelPteInv(m: Mem, o: map<int, Place>, t: int, j: int, e: Pte)
    requires Inv(m, o) && t in m.tables && 0 <= j < ENTRIES && TableOk(m, o, t) && o[t].i >= USERDIR
    ensures Inv(SetPte(m, t, j, e), o)
  {
    var m' := SetPte(m, t, j, e);
    forall x | x in m'.dirs ensures DirOk(m', o, x) { assert DirOk(m, o, x); }
    forall x | x in m'.tables ensures TableOk(m', o, x) { assert TableOk(m, o, x); }
    forall q | q in o ensures PlaceOk(m', o, q) { assert PlaceOk(m, o, q); }
  }

  function MapUser(m: Mem, t: int, j: int, p: int, flags: int, x: Data): Mem
    requires t in m.tables && 0 <= j < |m.tables[t]|
  {
    SetPte(m, t, j, Present(p, flags)).(data := m.data[p := x])
  }

  lemma MapUserInv(m: Mem, o: map<int, Place>, t: int, j: int, p: int, flags: int, x: Data)
    requires Inv(m, o) && p in o && o[p] == Held && t in m.tables && 0 <= j < ENTRIES
    requires TableOk(m, o, t) && o[t].i < USERDIR && m.tables[t][j] == Absent
    ensures Inv(MapUser(m, t, j, p, flags, x), o[p := UserAt(t, j)])
  {
    var o', m' := o[p := UserAt(t, j)], MapUser(m, t, j, p, flags, x);
    forall d | d in m'.dirs ensures DirOk(m', o', d) { assert DirOk(m, o, d); }
    forall y | y in m'.tables ensures TableOk(m', o', y) { assert TableOk(m, o, y); }
    forall q | q in o' ensures PlaceOk(m', o', q) { assert PlaceOk(m, o, q); }
  }

  function Unmap(m: Mem, t: int, j: int): Mem
    requires t in m.tables && 0 <= j < |m.tables[t]| && m.tables[t][j].Present?
  {
    SetPte(m, t, j, Absent).(data := m.data - {m.tables[t][j].page})
  }

  lemma UnmapInv(m: Mem, o: map<int, Place>, t: int, j: int)
    requires Inv(m, o) && t in m.tables && 0 <= j < ENTRIES
    requires TableOk(m, o, t) && o[t].i < USERDIR && m.tables[t][j].Present?
    ensures m.tables[t][j].page in o && Inv(Unmap(m, t, j), o[m.tables[t][j].page := Held])
  {
    var p := m.tables[t][j].page;
    var o', m' := o[p := Held], Unmap(m, t, j);
    forall d | d in m'.dirs ensures DirOk(m', o', d) { assert DirOk(m, o, d); }
    forall y | y in m'.tables ensures TableOk(m', o', y) { assert TableOk(m, o, y); }
    forall q | q in o' ensures PlaceOk(m', o', q) { assert PlaceOk(m, o, q); }
  }

  lemma DropTableInv(m: Mem, o: map<int, Place>, d: int, i: int)
    requires Inv(m, o) && d in m.dirs && 0 <= i < ENTRIES && |m.dirs[d]| == ENTRIES && m.dirs[d][i] != NONE
    requires i < USERDIR ==> m.dirs[d][i] in m.tables && forall j :: 0 <= j < |m.tables[m.dirs[d][i]]| ==>
      m.tables[m.dirs[d][i]][j] == Absent
    ensures m.dirs[d][i] in o && Inv(DropTable(m, d, i), o[m.dirs[d][i] := Held])
  {
    var t := m.dirs[d][i];
    assert DirOk(m, o, d);
    var o', m' := o[t := Held], DropTable(m, d, i);
    forall x | x in m'.dirs ensures DirOk(m', o', x) { assert DirOk(m, o, x); }
    forall y | y in m'.tables ensures TableOk(m', o', y) { assert TableOk(m, o, y); }
    assert TableOk(m, o, t);
    forall q | q in o' ensures PlaceOk(m', o', q) { assert PlaceOk(m, o, q); }
  }

  lemma DropDirInv(m: Mem, o: map<int, Place>, d: int)
    requires Inv(m, o) && d in m.dirs && forall i :: 0 <= i < |m.dirs[d]| ==> m.dirs[d][i] == NONE
    ensures d in o && Inv(DropDir(m, d), o[d := Held])
  {
    assert DirOk(m, o, d);
    var o', m' := o[d := Held], DropDir(m, d);
    forall x | x in m'.dirs ensures DirOk(m', o', x) { assert DirOk(m, o, x); }
    forall y | y in m'.tables ensures TableOk(m', o', y) { assert TableOk(m, o, y); }
    forall q | q in o' ensures PlaceOk(m', o', q) { assert PlaceOk(m, o, q); }
  }
}
