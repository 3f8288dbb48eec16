/** `freevm` (vm.c): the pages of one address space go back to the free list, each once. */
module FreeSpace {
  import opened VmSpec
  import opened VmView
  import opened Vm
  import opened Uvm

  /** Every other address space is as it was. */
  ghost predicate OthersSame(m: Mem, m': Mem, d: int) {
    forall x :: x in m.dirs && x != d ==> SameOutside(m, m', x, 0, 0)
  }

  lemma OthersTrans(a: Mem, b: Mem, c: Mem, d: int)
    requires OthersSame(a, b, d) && OthersSame(b, c, d)
    ensures OthersSame(a, c, d)
  {
    forall x | x in a.dirs && x != d ensures SameOutside(a, c, x, 0, 0) {
      assert SameOutside(a, b, x, 0, 0);
      forall v | 0 <= v < PAGES ensures Same(a, c, x, v) { assert Same(a, b, x, v) && Same(b, c, x, v); }
    }
  }

  lemma OnlyOthers(a: Mem, b: Mem, d: int, lo: int, hi: int)
    requires Only(a, b, d, lo, hi)
    ensures OthersSame(a, b, d)
  {
  }

  lemma DropTableOthers(m: Mem, o: map<int, Place>, d: int, i: int)
    requires Inv(m, o) && d in m.dirs && 0 <= i < ENTRIES && |m.dirs[d]| == ENTRIES && m.dirs[d][i] != NONE
    ensures OthersSame(m, DropTable(m, d, i), d)
  {
    var m' := DropTable(m, d, i);
    assert DirOk(m, o, d);
    forall x | x in m.dirs && x != d ensures SameOutside(m, m', x, 0, 0) {
      assert DirOk(m, o, x);
      forall v | 0 <= v < PAGES ensures Same(m, m', x, v) {
        if v < USERPAGES && View(m, x, v).Present? { Placed(m, o, x, v); }
      }
    }
  }

  lemma DropDirOthers(m: Mem, o: map<int, Place>, d: int)
    requires Inv(m, o)
    ensures OthersSame(m, DropDir(m, d), d)
  {
    var m' := DropDir(m, d);
    forall x | x in m.dirs && x != d ensures SameOutside(m, m', x, 0, 0) {
      forall v | 0 <= v < PAGES ensures Same(m, m', x, v) {
        if v < USERPAGES && View(m, x, v).Present? { Placed(m, o, x, v); }
      }
    }
  }

  /** Page q is a user page of the address space of d. */
  ghost predicate UserOf(o: map<int, Place>, d: int, q: int) {
    q in o && o[q].UserAt? && o[q].t in o && o[o[q].t].TableOf? && o[o[q].t].d == d
  }

  /** Page q is the directory d, one of its tables or one of its user pages. */
  ghost predicate BelongsTo(o: map<int, Place>, d: int, q: int) {
    q == d || (q in o && o[q].TableOf? && o[q].d == d) || UserOf(o, d, q)
  }

  /** A user page is what its place says that some virtual page maps. */
  lemma UserPlace(m: Mem, o: map<int, Place>, q: int) returns (d: int, v: int)
    requires Inv(m, o) && q in o && o[q].UserAt?
    ensures d in m.dirs && UserOf(o, d, q) && 0 <= v < USERPAGES && View(m, d, v).Present? && View(m, d, v).page == q
    ensures TableFor(m, d, v) == o[q].t && v % ENTRIES == o[q].j
  {
    assert PlaceOk(m, o, q);
    var t, j := o[q].t, o[q].j;
    assert PlaceOk(m, o, t);
    d, v := o[t].d, o[t].i * ENTRIES + j;
    assert v / ENTRIES == o[t].i && v % ENTRIES == j;
  }

  /** What clearing the user part of d has done to the places. */
  lemma ClearedOwners(m: Mem, o: map<int, Place>, m': Mem, o': map<int, Place>, d: int, q: int)
    requires Inv(m, o) && Inv(m', o') && Frees(o, o') && Only(m, m', d, 0, USERPAGES) && m'.dirs == m.dirs && q in o
    requires forall v :: 0 <= v < USERPAGES ==> View(m', d, v) == Absent
    ensures if UserOf(o, d, q) then o'[q].Free? else o'[q] == o[q]
  {
    if o[q].UserAt? {
      var x, v := UserPlace(m, o, q);
      if x == d {
        if o'[q] == o[q] {
          var x', v' := UserPlace(m', o', q);
          assert false;
        }
      } else {
        assert Same(m, m', x, v);
        Placed(m', o', x, v);
        assert o'[q] == o[q];
      }
    } else {
      assert PlaceOk(m, o, q);
      if o[q].Dir? { assert DirOk(m', o', q); }
      if o[q].TableOf? { assert DirOk(m', o', o[q].d); }
      if o[q].Free? { assert PlaceOk(m', o', q); }
    }
  }

  /** A table with no entry in use. */
  ghost predicate Blank(m: Mem, t: int) {
    t in m.tables && |m.tables[t]| == ENTRIES && forall j :: 0 <= j < ENTRIES ==> m.tables[t][j] == Absent
  }

  lemma TablesBlank(m: Mem, o: map<int, Place>, d: int, i: int)
    requires Inv(m, o) && d in m.dirs && |m.dirs[d]| == ENTRIES && 0 <= i < USERDIR && m.dirs[d][i] != NONE
    requires forall v :: 0 <= v < USERPAGES ==> View(m, d, v) == Absent
    ensures Blank(m, m.dirs[d][i])
  {
    assert DirOk(m, o, d);
    var t := m.dirs[d][i];
    assert TableOk(m, o, t);
    forall j | 0 <= j < ENTRIES ensures m.tables[t][j] == Absent {
      var v := i * ENTRIES + j;
      assert v / ENTRIES == i && v % ENTRIES == j;
      assert View(m, d, v) == Absent;
    }
  }

  /** `freevm` after clearing the user part, with the tables below i already freed. */
  ghost predicate Freeing(m: Mem, o: map<int, Place>, m1: Mem, o1: map<int, Place>, d: int, i: int) {
    && Inv(m, o) && d in m1.dirs && d in m.dirs && |m.dirs[d]| == |m1.dirs[d]| == ENTRIES && 0 <= i <= ENTRIES
    && (forall k :: 0 <= k < ENTRIES ==> m.dirs[d][k] == if k < i then NONE else m1.dirs[d][k])
    && (forall k :: i <= k < USERDIR && m1.dirs[d][k] != NONE ==> Blank(m, m1.dirs[d][k]))
    && m.dirs.Keys == m1.dirs.Keys && OthersSame(m1, m, d) && o.Keys == o1.Keys
    && forall q :: q in o1 ==> if o1[q].TableOf? && o1[q].d == d && o1[q].i < i then o[q].Free? else o[q] == o1[q]
  }

  /** One step of the loop over the directory. */
  method FreeTable(k: Machine, d: int, i: int, ghost m1: Mem, ghost o1: map<int, Place>)
    requires Inv(m1, o1) && i < ENTRIES && Freeing(k.m, k.o, m1, o1, d, i)
    modifies k
    ensures Freeing(k.m, k.o, m1, o1, d, i + 1)
  {
    assert DirOk(k.m, k.o, d) && DirOk(m1, o1, d);
    var t := k.m.dirs[d][i];
    if t != NONE {
      DropTableInv(k.m, k.o, d, i);
      DropTableOthers(k.m, k.o, d, i);
      ghost var first, mid := k.m, DropTable(k.m, d, i);
      k.o := k.o[t := Held];
      k.m := DropTable(k.m, d, i);
      ListQuiet(k.m, k.o, k.m.free + [t]);
      k.Kfree(t);
      OnlyOthers(mid, k.m, NONE, 0, 0);
      OthersTrans(first, mid, k.m, d);
      OthersTrans(m1, first, k.m, d);
    }
    OtherTables(m1, o1, d, i);
  }

  /** Only the directory's own entry i holds the table that the places say is number i. */
  lemma OtherTables(m: Mem, o: map<int, Place>, d: int, i: int)
    requires Inv(m, o) && d in m.dirs && |m.dirs[d]| == ENTRIES && 0 <= i < ENTRIES
    ensures forall q :: q in o && o[q] == TableOf(d, i) ==> q == m.dirs[d][i]
  {
    forall q | q in o && o[q] == TableOf(d, i) ensures q == m.dirs[d][i] { assert PlaceOk(m, o, q); }
  }

  /** `freevm`: exactly the pages of the address space become free, and every other space
      stays as it was. */
  method FreeVm(k: Machine, d: int)
    requires k.Valid() && d in k.m.dirs
    modifies k
    ensures k.Valid() && k.m.dirs.Keys == old(k.m).dirs.Keys - {d} && OthersSame(old(k.m), k.m, d)
    ensures k.o.Keys == old(k.o).Keys
    ensures forall q :: q in k.o ==> if BelongsTo(old(k.o), d, q) then k.o[q].Free? else k.o[q] == old(k.o)[q]
  {
    ghost var m0, o0 := k.m, k.o;
    assert DirOk(k.m, k.o, d);
    var _ := k.DeallocUvm(d, KERNBASE, 0);
    ghost var m1, o1 := k.m, k.o;
    UserCleared(m0, o0, m1, o1, d);
    var i := 0;
    while i < ENTRIES
      invariant 0 <= i <= ENTRIES && Freeing(k.m, k.o, m1, o1, d, i)
    {
      FreeTable(k, d, i, m1, o1);
      i := i + 1;
    }
    FreeDir(k, d, m0, o0, m1, o1);
  }

  /** After the first step: the user pages are free, the tables blank, the rest untouched. */
  lemma UserCleared(m0: Mem, o0: map<int, Place>, m1: Mem, o1: map<int, Place>, d: int)
    requires Inv(m0, o0) && Inv(m1, o1) && d in m0.dirs && m1.dirs == m0.dirs && Frees(o0, o1)
    requires Cleared(m0, m1, d, 0, USERPAGES)
    ensures Freeing(m1, o1, m1, o1, d, 0) && OthersSame(m0, m1, d)
    ensures forall q :: q in o0 ==> if UserOf(o0, d, q) then o1[q].Free? else o1[q] == o0[q]
  {
    assert DirOk(m1, o1, d);
    AllCleared(m0, o0, m1, d);
    Widen(m0, m1, d, Reach(m0.dirs[d], 0, USERPAGES), USERPAGES, d, 0, USERPAGES);
    OnlyOthers(m0, m1, d, 0, USERPAGES);
    forall q | q in o0 ensures if UserOf(o0, d, q) then o1[q].Free? else o1[q] == o0[q] {
      ClearedOwners(m0, o0, m1, o1, d, q);
    }
    forall i | 0 <= i < USERDIR && m1.dirs[d][i] != NONE ensures Blank(m1, m1.dirs[d][i]) { TablesBlank(m1, o1, d, i); }
    ListQuiet(m1, o1, m1.free);
    OnlyOthers(m1, m1, NONE, 0, 0);
  }

  lemma AllCleared(m0: Mem, o0: map<int, Place>, m1: Mem, d: int)
    requires Inv(m0, o0) && Cleared(m0, m1, d, 0, USERPAGES)
    ensures forall v :: 0 <= v < USERPAGES ==> View(m1, d, v) == Absent
  {
    forall v | 0 <= v < USERPAGES ensures View(m1, d, v) == Absent {
      if v < Reach(m0.dirs[d], 0, USERPAGES) {
        SkipIsSafe(m0, o0, d, 0, USERPAGES, 0, v);
        assert Same(m0, m1, d, v);
      }
    }
  }

  /** The last step: the directory's own page. */
  method FreeDir(k: Machine, d: int, ghost m0: Mem, ghost o0: map<int, Place>, ghost m1: Mem, ghost o1: map<int, Place>)
    requires Inv(m0, o0) && Inv(m1, o1) && Freeing(k.m, k.o, m1, o1, d, ENTRIES)
    requires m1.dirs == m0.dirs && OthersSame(m0, m1, d) && o1.Keys == o0.Keys
    requires forall q :: q in o0 ==> if UserOf(o0, d, q) then o1[q].Free? else o1[q] == o0[q]
    modifies k
    ensures k.Valid() && k.m.dirs.Keys == m0.dirs.Keys - {d} && OthersSame(m0, k.m, d) && k.o.Keys == o0.Keys
    ensures forall q :: q in o0 ==> if BelongsTo(o0, d, q) then k.o[q].Free? else k.o[q] == o0[q]
  {
    assert DirOk(m0, o0, d) && DirOk(m1, o1, d);
    DropDirInv(k.m, k.o, d);
    DropDirOthers(k.m, k.o, d);
    ghost var first, mid, was := k.m, DropDir(k.m, d), k.o;
    k.o := k.o[d := Held];
    k.m := DropDir(k.m, d);
    ListQuiet(k.m, k.o, k.m.free + [d]);
    k.Kfree(d);
    OnlyOthers(mid, k.m, NONE, 0, 0);
    OthersTrans(first, mid, k.m, d);
    OthersTrans(m1, first, k.m, d);
    OthersTrans(m0, m1, k.m, d);
    forall q | q in o0 ensures if BelongsTo(o0, d, q) then k.o[q].Free? else k.o[q] == o0[q] {
      if q != d { AllFreed(m0, o0, o1, was, d, q); }
    }
  }

  lemma AllFreed(m0: Mem, o0: map<int, Place>, o1: map<int, Place>, o: map<int, Place>, d: int, q: int)
    requires Inv(m0, o0) && o1.Keys == o0.Keys && o.Keys == o1.Keys && q in o0 && q != d
    requires if UserOf(o0, d, q) then o1[q].Free? else o1[q] == o0[q]
    requires if o1[q].TableOf? && o1[q].d == d && o1[q].i < ENTRIES then o[q].Free? else o[q] == o1[q]
    ensures if BelongsTo(o0, d, q) then o[q].Free? else o[q] == o0[q]
  {
    assert PlaceOk(m0, o0, q);
  }
}
