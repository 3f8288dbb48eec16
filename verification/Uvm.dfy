/** Growing, shrinking, copying and freeing address spaces (vm.c, `growproc` in proc.c). */
module Uvm {
  import opened VmSpec
  import opened VmView
  import opened Vm

  // ----- the skip in `deallocuvm`

  /** The mapped user pages are the first n. */
  ghost predicate Contiguous(m: Mem, d: int, n: int) {
    forall v :: 0 <= v < USERPAGES ==> (View(m, d, v).Present? <==> v < n)
  }

  /** What the skip jumps over has no table, if it starts at a table's first page or the
      space is contiguous. */
  lemma {:induction false} SkipIsSafe(m: Mem, o: map<int, Place>, d: int, lo: int, hi: int, n: int, v: int)
    requires Inv(m, o) && d in m.dirs && |m.dirs[d]| == ENTRIES && 0 <= lo && hi <= USERPAGES
    requires lo % ENTRIES == 0 || Contiguous(m, d, n)
    requires lo <= v < hi && v < Reach(m.dirs[d], lo, hi)
    ensures View(m, d, v) == Absent
    decreases hi - lo
  {
    assert NONE !in m.tables;
    if v / ENTRIES != lo / ENTRIES {
      if lo % ENTRIES == 0 || v >= lo + ENTRIES {
        SkipIsSafe(m, o, d, lo + ENTRIES, hi, n, v);
      } else {
        assert View(m, d, lo) == Absent;
      }
    }
  }

  /** `deallocuvm` leaves nothing mapped in its range exactly when nothing was mapped in the
      part that the skip jumps over. */
  lemma ShrinksCompletely(m: Mem, m': Mem, d: int, lo: int, hi: int)
    requires Cleared(m, m', d, lo, hi) && hi <= USERPAGES
    ensures (forall v :: lo <= v < hi ==> View(m', d, v) == Absent) <==>
      (forall v :: lo <= v < hi && v < Reach(m.dirs[d], lo, hi) ==> View(m, d, v) == Absent)
  {
    forall v | lo <= v < hi && v < Reach(m.dirs[d], lo, hi) ensures View(m', d, v) == View(m, d, v) {
      assert Same(m, m', d, v);
    }
  }

  /** The skip can jump over a mapped page: from page 1 over a missing first table to page
      1025, past page 1024. */
  lemma SkipMissesPage(m': Mem) returns (m: Mem, o: map<int, Place>)
    ensures Inv(m, o) && 0 in m.dirs && View(m, 0, 1024).Present?
    ensures Cleared(m, m', 0, 1, 2048) ==> View(m', 0, 1024).Present?
  {
    var dir, table := EmptyDir()[1 := 1], EmptyTable()[0 := Present(2, USERFLAGS)];
    m := Mem([], map[0 := dir], map[1 := table], map[2 := Zero()]);
    o := map[0 := Dir, 1 := TableOf(0, 1), 2 := UserAt(1, 0)];
    assert DirOk(m, o, 0) && TableOk(m, o, 1);
    assert Reach(dir, 1, 2048) == 1025;
    if Cleared(m, m', 0, 1, 2048) { assert Same(m, m', 0, 1024); }
  }

  // ----- `allocuvm`

  /** After a failure the address space is what it was before. */
  lemma GrowUndone(m0: Mem, m1: Mem, m2: Mem, d: int, lo: int, v: int, hi: int, lost: int)
    requires Growing(m0, m1, d, lo, v, lost) && v <= hi <= USERPAGES && Cleared(m1, m2, d, lo, hi)
    requires m0.dirs.Keys == m1.dirs.Keys
    requires forall u :: lo <= u < hi ==> View(m0, d, u) == Absent
    ensures Quiet(m0, m2)
  {
    var b := Reach(m1.dirs[d], lo, hi);
    assert lo < v ==> m1.dirs[d][lo / ENTRIES] != NONE && b == lo;
    forall x | x in m0.dirs ensures SameOutside(m0, m2, x, 0, 0) {
      forall u | 0 <= u < PAGES ensures Same(m0, m2, x, u) {
        if x != d || u < b || hi <= u {
          assert Same(m0, m1, x, u) && Same(m1, m2, x, u);
        }
      }
    }
  }

  /** The last page needs a table and exactly that page is lacking. */
  predicate LastTableLacking(m: Mem, d: int, lo: int, hi: int)
    requires d in m.dirs && |m.dirs[d]| == ENTRIES && 0 <= lo && hi <= PAGES
  {
    lo < hi && NeedsTable(m.dirs[d], lo, hi - 1) && |m.free| == Need(m.dirs[d], lo, hi) - 1
  }

  /** What `allocuvm` does for a size that it accepts. */
  ghost predicate Allocated(m: Mem, m': Mem, d: int, lo: int, hi: int, r: int, newsz: int, lost: int)
    requires d in m.dirs && |m.dirs[d]| == ENTRIES && 0 <= lo && hi <= PAGES
  {
    && (lost != NONE <==> Loses(m.dirs[d], lo, hi, |m.free|))
    && if |m.free| >= Need(m.dirs[d], lo, hi) then
      && r == newsz && lost == NONE && |m'.free| == |m.free| - Need(m.dirs[d], lo, hi)
      && Only(m, m', d, lo, hi) && forall u :: lo <= u < hi ==> ZeroPage(m', d, u)
    else if LastTableLacking(m, d, lo, hi) then
      && r == newsz && lost != NONE && View(m', d, hi - 1) == Absent
      && Only(m, m', d, lo, hi - 1) && forall u :: lo <= u < hi - 1 ==> ZeroPage(m', d, u)
    else r == 0 && Quiet(m, m')
  }

  /** `allocuvm`. It succeeds with every page in place exactly when there are enough pages for
      them and their tables. One page short of that, with the last page's table lacking, it
      reports success although the last page is not mapped. Else it fails, and every address
      space maps what it did. Either way a page is lost exactly if it was the last one free when
      it was taken for a page whose table was lacking. */
  method AllocUvm(k: Machine, d: int, oldsz: int, newsz: int) returns (r: int, ghost lost: int)
    requires k.Valid() && d in k.m.dirs && |k.m.dirs[d]| == ENTRIES && 0 <= oldsz && 0 <= newsz
    requires forall u :: Up(oldsz) <= u < USERPAGES ==> View(k.m, d, u) == Absent
    modifies k
    ensures k.Valid() && k.m.dirs.Keys == old(k.m).dirs.Keys && KeptBut(old(k.o), k.o, lost)
    ensures newsz >= KERNBASE ==> r == 0 && k.m == old(k.m) && k.o == old(k.o)
    ensures oldsz > newsz && newsz < KERNBASE ==> r == oldsz && k.m == old(k.m) && k.o == old(k.o)
    ensures oldsz <= newsz < KERNBASE ==> Allocated(old(k.m), k.m, d, Up(oldsz), Up(newsz), r, newsz, lost)
  {
    lost := NONE;
    if newsz >= KERNBASE {
      return 0, NONE;
    }
    if newsz < oldsz {
      return oldsz, NONE;
    }
    var lo, hi := Up(oldsz), Up(newsz);
    var enough;
    ghost var v;
    enough, v, lost := k.GrowFrom(d, lo, hi);
    if enough {
      GrewAll(old(k.m), k.m, d, lo, v, hi, newsz, lost);
      return newsz, lost;
    }
    GrewShort(old(k.m), k.m, d, lo, v, hi, lost);
    ghost var mid, was := k.m, k.o;
    var _ := k.DeallocUvm(d, newsz, oldsz);
    GrowUndone(old(k.m), mid, k.m, d, lo, v, hi, lost);
    FreesKeeps(old(k.o), was, k.o, lost);
    return 0, lost;
  }

  lemma FreesKeeps(a: map<int, Place>, b: map<int, Place>, c: map<int, Place>, lost: int)
    requires KeptBut(a, b, lost) && Frees(b, c)
    ensures KeptBut(a, c, lost)
  {
  }

  lemma GrewAll(m: Mem, m': Mem, d: int, lo: int, v: int, hi: int, newsz: int, lost: int)
    requires Growing(m, m', d, lo, v, lost) && hi <= USERPAGES && (lo < hi ==> View(m, d, hi - 1) == Absent)
    requires lo < hi ==> v == if lost == NONE then hi else hi - 1
    requires hi <= lo ==> v == lo && lost == NONE
    ensures Allocated(m, m', d, lo, hi, newsz, newsz, lost)
  {
    LosesExactly(m.dirs[d], lo, v, hi, |m.free|, |m'.free|, lost != NONE);
    if lost != NONE { GrowingView(m, m', d, lo, v, v, lost); }
    if hi <= lo { Widen(m, m', d, lo, v, d, lo, hi); }
  }

  lemma GrewShort(m: Mem, m': Mem, d: int, lo: int, v: int, hi: int, lost: int)
    requires Growing(m, m', d, lo, v, lost) && m'.free == [] && hi <= USERPAGES
    requires if lost == NONE then v < hi else v < hi - 1
    ensures |m.free| < Need(m.dirs[d], lo, hi) && !LastTableLacking(m, d, lo, hi)
    ensures lost != NONE <==> Loses(m.dirs[d], lo, hi, |m.free|)
  {
    LosesExactly(m.dirs[d], lo, v, hi, |m.free|, 0, lost != NONE);
    ShortNeed(m.dirs[d], lo, v, hi, |m.free|, lost != NONE);
  }

  lemma ShortNeed(dir: seq<int>, lo: int, v: int, hi: int, pages: int, lost: bool)
    requires |dir| == ENTRIES && 0 <= lo <= v <= hi <= PAGES && pages == Need(dir, lo, v) + (if lost then 1 else 0)
    requires if lost then v < hi - 1 && NeedsTable(dir, lo, v) else v < hi
    ensures pages < Need(dir, lo, hi) && !(NeedsTable(dir, lo, hi - 1) && pages == Need(dir, lo, hi) - 1)
  {
    NeedGrows(dir, lo, if lost then v + 1 else v, hi - 1);
  }

  /** It does happen: one page is free and an empty space grows by one page. */
  lemma LastTableLacks() returns (m: Mem, o: map<int, Place>)
    ensures Inv(m, o) && 0 in m.dirs && |m.dirs[0]| == ENTRIES && LastTableLacking(m, 0, 0, 1)
    ensures Loses(m.dirs[0], 0, 2, |m.free|) && !LastTableLacking(m, 0, 0, 2)
  {
    m := Mem([1], map[0 := EmptyDir()], map[], map[]);
    o := map[0 := Dir, 1 := Free(0)];
    assert DirOk(m, o, 0);
    var dir := m.dirs[0];
    assert Need(dir, 0, 0) == 0 && Need(dir, 0, 1) == 2 && Need(dir, 0, 2) == 3;
    assert NeedsTable(dir, 0, 0);
  }

  // ----- `growproc`

  const UINT := 0x1_0000_0000

  lemma ShrunkContiguous(m: Mem, o: map<int, Place>, m': Mem, d: int, lo: int, hi: int)
    requires Inv(m, o) && Contiguous(m, d, hi) && Cleared(m, m', d, lo, hi) && lo <= hi <= USERPAGES
    ensures Contiguous(m', d, lo)
  {
    forall v | 0 <= v < USERPAGES ensures View(m', d, v).Present? <==> v < lo {
      if lo <= v < hi && v < Reach(m.dirs[d], lo, hi) { SkipIsSafe(m, o, d, lo, hi, hi, v); }
      if !(Reach(m.dirs[d], lo, hi) <= v < hi) { assert Same(m, m', d, v); }
    }
  }

  lemma GrownContiguous(m: Mem, m': Mem, d: int, lo: int, hi: int, r: int, newsz: int, lost: int)
    requires d in m.dirs && |m.dirs[d]| == ENTRIES && 0 <= lo <= hi <= USERPAGES && newsz > 0
    requires Contiguous(m, d, lo) && Allocated(m, m', d, lo, hi, r, newsz, lost)
    ensures r == 0 ==> Contiguous(m', d, lo)
    ensures r != 0 ==> Contiguous(m', d, if LastTableLacking(m, d, lo, hi) then hi - 1 else hi)
  {
    forall v | 0 <= v < USERPAGES && !(lo <= v < hi)
      ensures View(m', d, v) == View(m, d, v)
    {
      assert Same(m, m', d, v);
    }
    if r == 0 {
      forall v | lo <= v < hi ensures View(m', d, v) == View(m, d, v) { assert Same(m, m', d, v); }
    } else {
      var top := if LastTableLacking(m, d, lo, hi) then hi - 1 else hi;
      forall v | lo <= v < top ensures View(m', d, v).Present? { assert ZeroPage(m', d, v); }
    }
  }

  /** There are enough pages to grow, or just so many that `allocuvm` does not notice. */
  predicate CanGrow(m: Mem, d: int, oldsz: int, newsz: int)
    requires d in m.dirs && |m.dirs[d]| == ENTRIES && 0 <= oldsz <= newsz
  {
    newsz < KERNBASE &&
    (|m.free| >= Need(m.dirs[d], Up(oldsz), Up(newsz)) || LastTableLacking(m, d, Up(oldsz), Up(newsz)))
  }

  /** `growproc` for a process of size sz with the pages for it; n is a 32-bit integer. The
      pages fit the size afterwards unless the process shrinks to nothing, which is reported
      as a failure after the pages are gone, or the last page's table was lacking. */
  method GrowProc(k: Machine, d: int, sz: int, n: int) returns (r: int, size: int)
    requires k.Valid() && d in k.m.dirs && |k.m.dirs[d]| == ENTRIES && 0 <= sz < KERNBASE && Contiguous(k.m, d, Up(sz))
    requires -0x8000_0000 <= n < 0x8000_0000
    modifies k
    ensures k.Valid() && (r == 0 || r == -1) && 0 <= size < KERNBASE
    ensures Contiguous(k.m, d, Up(size)) <==>
      !(sz > 0 && sz + n == 0) && !(n > 0 && sz + n < KERNBASE && LastTableLacking(old(k.m), d, Up(sz), Up(sz + n)))
    ensures r == 0 <==> if n > 0 then CanGrow(old(k.m), d, sz, sz + n) else n == 0 || (sz != 0 && sz + n != 0)
    ensures r == 0 ==> size == if sz + n >= 0 then sz + n else sz
    ensures r == -1 ==> size == sz
  {
    size := sz;
    if n > 0 {
      var got := GrowUp(k, d, sz, sz + n);
      if got == 0 {
        return -1, size;
      }
      size := got;
    } else if n < 0 {
      var got := ShrinkDown(k, d, sz, (sz + n) % UINT);
      if got == 0 {
        assert sz > 0 ==> View(k.m, d, 0) == Absent;
        return -1, size;
      }
      size := got;
    }
    r := 0;
  }

  /** `allocuvm` as `growproc` uses it. */
  method GrowUp(k: Machine, d: int, sz: int, newsz: int) returns (got: int)
    requires k.Valid() && d in k.m.dirs && |k.m.dirs[d]| == ENTRIES && 0 <= sz < KERNBASE && sz < newsz
    requires Contiguous(k.m, d, Up(sz))
    modifies k
    ensures k.Valid() && got == if CanGrow(old(k.m), d, sz, newsz) then newsz else 0
    ensures got == 0 ==> Contiguous(k.m, d, Up(sz))
    ensures got != 0 ==>
      Contiguous(k.m, d, if LastTableLacking(old(k.m), d, Up(sz), Up(newsz)) then Up(newsz) - 1 else Up(newsz))
    ensures got != 0 ==> (Contiguous(k.m, d, Up(newsz)) <==> !LastTableLacking(old(k.m), d, Up(sz), Up(newsz)))
  {
    ghost var lost;
    got, lost := AllocUvm(k, d, sz, newsz);
    if newsz < KERNBASE {
      GrownContiguous(old(k.m), k.m, d, Up(sz), Up(newsz), got, newsz, lost);
      if LastTableLacking(old(k.m), d, Up(sz), Up(newsz)) { assert !View(k.m, d, Up(newsz) - 1).Present?; }
    }
  }

  /** `deallocuvm` as `growproc` uses it. */
  method ShrinkDown(k: Machine, d: int, sz: int, newsz: int) returns (got: int)
    requires k.Valid() && d in k.m.dirs && 0 <= sz < KERNBASE && 0 <= newsz && Contiguous(k.m, d, Up(sz))
    modifies k
    ensures k.Valid() && got == (if newsz < sz then newsz else sz) && Contiguous(k.m, d, Up(got))
  {
    got := k.DeallocUvm(d, sz, newsz);
    if newsz < sz { ShrunkContiguous(old(k.m), old(k.o), k.m, d, Up(newsz), Up(sz)); }
  }
}
