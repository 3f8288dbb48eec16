/** The page allocator (kalloc.c) and the address spaces (vm.c). */
module Vm {
  import opened VmSpec
  import opened VmView

  const PGSIZE := 4096
  const KERNBASE := 0x8000_0000

  /** PGROUNDUP, as a number of pages. */
  function Up(sz: int): int { (sz + PGSIZE - 1) / PGSIZE }

  /** No page changes hands with the rest of the kernel, and none gets out of reach. */
  ghost predicate Kept(o: map<int, Place>, o': map<int, Place>) {
    o'.Keys == o.Keys && forall q :: q in o ==> (o'[q].Held? <==> o[q].Held?) && (o'[q].Lost? <==> o[q].Lost?)
  }

  /** Pages only go to the free list. */
  ghost predicate Frees(o: map<int, Place>, o': map<int, Place>) {
    o'.Keys == o.Keys && forall q :: q in o ==>
      o'[q] == o[q] || (o'[q].Free? && !o[q].Free? && !o[q].Held? && !o[q].Lost?)
  }

  /** The first page from `lo` on in steps of a whole table whose table is there, or the first
      such step that is not below `hi`. */
  function Reach(dir: seq<int>, lo: int, hi: int): (b: int)
    requires |dir| == ENTRIES && 0 <= lo && hi <= PAGES
    ensures lo <= b && (hi <= lo ==> b == lo)
    decreases hi - lo
  {
    if lo >= hi || dir[lo / ENTRIES] != NONE then lo else Reach(dir, lo + ENTRIES, hi)
  }

  ghost function AllHeld(lo: nat, hi: nat): (o: map<int, Place>)
    requires lo <= hi
    ensures forall p :: p in o <==> lo <= p < hi
    ensures forall p :: p in o ==> o[p] == Held
    decreases hi - lo
  {
    if lo == hi then map[] else AllHeld(lo + 1, hi)[lo := Held]
  }

  /** The directory has the tables it had and the one with number i. */
  ghost predicate TableAdded(m: Mem, m': Mem, d: int, i: int) {
    && d in m.dirs && d in m'.dirs && |m.dirs[d]| == |m'.dirs[d]| == ENTRIES
    && forall k :: 0 <= k < ENTRIES ==> (m'.dirs[d][k] == NONE <==> m.dirs[d][k] == NONE && k != i)
  }

  class Machine {
    var m: Mem
    ghost var o: map<int, Place>

    ghost predicate Valid()
      reads this
    {
      Inv(m, o)
    }

    /** `kinit1` and `kinit2`: the pages lo..hi go on the free list. */
    constructor (lo: nat, hi: nat)
      requires lo <= hi
      ensures Valid() && m.dirs == map[] && m.tables == map[] && m.data == map[]
      ensures forall p :: p in o <==> lo <= p < hi
      ensures forall p :: p in o ==> o[p].Free?
    {
      m := Mem([], map[], map[], map[]);
      o := AllHeld(lo, hi);
      new;
      FreeRange(lo, hi);
    }

    /** `freerange`, in pages. */
    method FreeRange(lo: nat, hi: nat)
      requires Valid() && lo <= hi && forall p :: lo <= p < hi ==> p in o && o[p] == Held
      modifies this
      ensures Valid() && Quiet(old(m), m) && m == old(m).(free := m.free) && o.Keys == old(o).Keys
      ensures forall p :: p in o ==> if lo <= p < hi then o[p].Free? else o[p] == old(o)[p]
    {
      var p := lo;
      ListQuiet(m, o, m.free);
      while p < hi
        invariant lo <= p <= hi && Valid() && m == old(m).(free := m.free) && o.Keys == old(o).Keys
        invariant forall q :: q in o ==> if lo <= q < p then o[q].Free? else o[q] == old(o)[q]
      {
        Kfree(p);
        p := p + 1;
      }
      ListQuiet(old(m), old(o), m.free);
    }

    /** `kfree` */
    method Kfree(p: int)
      requires Valid() && p in o && o[p] == Held
      modifies this
      ensures Valid() && m == Pushed(old(m), p) && o == old(o)[p := Free(|old(m).free|)]
    {
      PushInv(m, o, p);
      o := o[p := Free(|m.free|)];
      m := m.(free := m.free + [p]);
    }

    /** `kalloc` */
    method Kalloc() returns (p: int)
      requires Valid()
      modifies this
      ensures Valid()
      ensures old(m).free == [] ==> p == NONE && m == old(m) && o == old(o)
      ensures old(m).free != [] ==>
        p == old(m).free[|old(m).free| - 1] && m == Popped(old(m)) && o == old(o)[p := Held] && p in old(o) &&
          old(o)[p].Free?
    {
      if m.free == [] {
        return NONE;
      }
      PopInv(m, o);
      p := m.free[|m.free| - 1];
      m := m.(free := m.free[..|m.free| - 1]);
      o := o[p := Held];
    }

    /** `walkpgdir`, for the table rather than the entry in it. */
    method WalkPgdir(d: int, v: int, alloc: bool) returns (t: int)
      requires Valid() && d in m.dirs && 0 <= v < PAGES
      modifies this
      ensures Valid() && t == TableFor(m, d, v)
      ensures (t != NONE ==> t in m.tables && |m.tables[t]| == ENTRIES && o[t] == TableOf(d, v / ENTRIES))
      ensures !alloc || TableFor(old(m), d, v) != NONE || old(m).free == [] ==> m == old(m) && o == old(o)
      ensures alloc && TableFor(old(m), d, v) == NONE && old(m).free != [] ==>
        t != NONE && m == NewTable(Popped(old(m)), d, v / ENTRIES, t) && o == old(o)[t := TableOf(d, v / ENTRIES)] &&
          t in old(o) && old(o)[t].Free?
      ensures Quiet(old(m), m)
    {
      assert DirOk(m, o, d);
      ListQuiet(m, o, m.free);
      t := m.dirs[d][v / ENTRIES];
      if t != NONE {
        return;
      }
      if !alloc {
        return;
      }
      t := Kalloc();
      if t == NONE {
        return;
      }
      ListQuiet(old(m), old(o), m.free);
      NewTableInv(m, o, d, v / ENTRIES, t);
      NewTableQuiet(m, o, d, v / ENTRIES, t);
      OnlyTrans(old(m), m, NewTable(m, d, v / ENTRIES, t), NONE, 0, 0, 0);
      m := NewTable(m, d, v / ENTRIES, t);
      o := o[t := TableOf(d, v / ENTRIES)];
    }

    /** `mappages` for one user page that the caller has allocated and filled with x. */
    method MapUserPage(d: int, v: int, p: int, flags: int, x: Data) returns (ok: bool)
      requires Valid() && d in m.dirs && 0 <= v < USERPAGES && p in o && o[p] == Held && View(m, d, v) == Absent
      modifies this
      ensures Valid() && m.dirs.Keys == old(m).dirs.Keys
      ensures ok <==> TableFor(old(m), d, v) != NONE || old(m).free != []
      ensures !ok ==> m == old(m) && o == old(o)
      ensures ok ==> Only(old(m), m, d, v, v + 1) && View(m, d, v) == Present(p, flags) && m.data == old(m).data[p := x]
      ensures ok ==> Kept(old(o)[p := Dir], o) && o[p].UserAt?
      ensures ok ==> |m.free| == |old(m).free| - (if TableFor(old(m), d, v) == NONE then 1 else 0)
      ensures ok ==> TableAdded(old(m), m, d, v / ENTRIES) && m.free <= old(m).free
    {
      var t := WalkPgdir(d, v, true);
      if t == NONE {
        return false;
      }
      MapUserInv(m, o, t, v % ENTRIES, p, flags, x);
      MapUserOnly(m, o, d, v, p, flags, x);
      ghost var mid := m;
      m := MapUser(m, t, v % ENTRIES, p, flags, x);
      o := o[p := UserAt(t, v % ENTRIES)];
      QuietThen(old(m), mid, m, d, v, v + 1);
      return true;
    }

    /** One step of `deallocuvm` at a page whose table is there. */
    method ClearPage(d: int, v: int, t: int)
      requires Valid() && d in m.dirs && 0 <= v < USERPAGES && t == TableFor(m, d, v) && t in m.tables
      requires |m.tables[t]| == ENTRIES
      modifies this
      ensures Valid() && m.dirs == old(m).dirs && Frees(old(o), o)
      ensures Only(old(m), m, d, v, v + 1) && View(m, d, v) == Absent
    {
      ListQuiet(m, o, m.free);
      if m.tables[t][v % ENTRIES].Present? {
        Placed(m, o, d, v);
        assert TableOk(m, o, t);
        UnmapInv(m, o, t, v % ENTRIES);
        UnmapOnly(m, o, d, v);
        var p := m.tables[t][v % ENTRIES].page;
        m := Unmap(m, t, v % ENTRIES);
        o := o[p := Held];
        ListQuiet(m, o, m.free + [p]);
        ghost var mid := m;
        Kfree(p);
        ThenQuiet(old(m), mid, m, d, v, v + 1);
      } else {
        Widen(m, m, NONE, 0, 0, d, v, v + 1);
      }
    }

    /** `deallocuvm`. The pages from the first table that is found on are gone; the skip over
        missing tables jumps over the pages before. */
    method DeallocUvm(d: int, oldsz: int, newsz: int) returns (r: int)
      requires Valid() && d in m.dirs && 0 <= newsz && 0 <= oldsz <= KERNBASE
      modifies this
      ensures Valid() && m.dirs == old(m).dirs && Frees(old(o), o)
      ensures newsz >= oldsz ==> r == oldsz && m == old(m) && o == old(o)
      ensures newsz < oldsz ==> r == newsz && Cleared(old(m), m, d, Up(newsz), Up(oldsz))
    {
      if newsz >= oldsz {
        return oldsz;
      }
      ClearFrom(d, Up(newsz), Up(oldsz));
      return newsz;
    }

    /** The loop of `deallocuvm`. */
    method ClearFrom(d: int, lo: int, hi: int)
      requires Valid() && d in m.dirs && 0 <= lo && hi <= USERPAGES
      modifies this
      ensures Valid() && m.dirs == old(m).dirs && Frees(old(o), o) && Cleared(old(m), m, d, lo, hi)
    {
      ghost var first, was := m, o;
      StartClearing(m, o, d, lo, hi);
      var v := lo;
      while v < hi
        invariant lo <= v && Clearing(first, was, m, o, d, lo, hi, v)
        decreases hi - v
      {
        v := ClearNext(d, v, first, was, lo, hi);
      }
    }

    /** One turn of that loop. */
    method ClearNext(d: int, v: int, ghost first: Mem, ghost was: map<int, Place>, ghost lo: int, ghost hi: int)
      returns (v': int)
      requires lo <= v < hi && Clearing(first, was, m, o, d, lo, hi, v)
      modifies this
      ensures v < v' && Clearing(first, was, m, o, d, lo, hi, v')
    {
      var t := WalkPgdir(d, v, false);
      if t == NONE {
        ClearSkip(first, was, m, o, d, lo, hi, v);
        return v + ENTRIES;
      }
      ghost var mid, own := m, o;
      ClearPage(d, v, t);
      ClearOne(first, was, mid, own, m, o, d, lo, hi, v);
      return v + 1;
    }

    /** A page that is allocated but not put anywhere. */
    ghost method Lose(p: int)
      requires Valid() && p in o && o[p] == Held
      modifies this`o
      ensures Valid() && o == old(o)[p := Lost]
    {
      LoseInv(m, o, p);
      o := o[p := Lost];
    }

    /** One step of `allocuvm`. The result of `mappages` is ignored, so a page for which no
        table can be had is lost. */
    method GrowPage(d: int, v: int) returns (got: bool, ghost lost: int)
      requires Valid() && d in m.dirs && 0 <= v < USERPAGES && View(m, d, v) == Absent
      modifies this
      ensures Valid() && GrewPage(old(m), old(o), m, o, d, v, got, lost)
    {
      lost := NONE;
      var p := Kalloc();
      if p == NONE {
        return false, NONE;
      }
      ListQuiet(old(m), old(o), m.free);
      assert TableFor(m, d, v) == TableFor(old(m), d, v);
      ghost var mid := m;
      var ok := MapUserPage(d, v, p, USERFLAGS, Zero());
      if ok {
        QuietThen(old(m), mid, m, d, v, v + 1);
      } else {
        Lose(p);
        lost := p;
      }
      return true, lost;
    }

    /** One turn of the loop of `allocuvm`, with the pages lo..v in place. */
    method GrowNext(d: int, a: int, ghost first: Mem, ghost o0: map<int, Place>, ghost lo: int, ghost v: int,
          ghost lost: int)
      returns (got: bool, ghost v': int, ghost lost': int)
      requires Valid() && Growing(first, m, d, lo, v, lost) && KeptBut(o0, o, lost)
      requires a < USERPAGES && v == (if lost == NONE then a else a - 1) && View(first, d, a) == Absent
      modifies this
      ensures Valid() && m.dirs.Keys == old(m).dirs.Keys && KeptBut(o0, o, lost') && Growing(first, m, d, lo, v', lost')
      ensures got ==> v' == if lost' == NONE then a + 1 else a
      ensures !got ==> m.free == [] && v' == v && lost' == lost
    {
      GrowingView(first, m, d, lo, v, a, lost);
      v', lost' := v, lost;
      ghost var mid, was := m, o;
      ghost var gone;
      got, gone := GrowPage(d, a);
      if got {
        GrewOne(first, o0, mid, was, m, o, d, lo, v, lost, gone);
        v', lost' := if gone == NONE then v + 1 else v, gone;
      }
    }

    /** The loop of `allocuvm`: all pages are there, or the last one is missing because there
        was no page left for its table, or it stopped for lack of pages. */
    method GrowFrom(d: int, lo: int, hi: int) returns (enough: bool, ghost v: int, ghost lost: int)
      requires Valid() && d in m.dirs && 0 <= lo <= USERPAGES && hi <= USERPAGES && forall u :: lo <= u < hi ==>
        View(m, d, u) == Absent
      modifies this
      ensures Valid() && m.dirs.Keys == old(m).dirs.Keys && KeptBut(old(o), o, lost)
      ensures Growing(old(m), m, d, lo, v, lost)
      ensures enough ==>
        (lo < hi ==> v == if lost == NONE then hi else hi - 1) && (hi <= lo ==> v == lo && lost == NONE)
      ensures !enough ==> m.free == [] && (if lost == NONE then v < hi else v < hi - 1)
    {
      ghost var first, was := m, o;
      StartGrowing(m, o, d, lo);
      var a := lo;
      v, lost := lo, NONE;
      while a < hi
        invariant lo <= a && (a <= hi || a == lo) && Valid() && m.dirs.Keys == first.dirs.Keys && KeptBut(was, o, lost)
        invariant v == (if lost == NONE then a else a - 1) && Growing(first, m, d, lo, v, lost)
      {
        var got;
        got, v, lost := GrowNext(d, a, first, was, lo, v, lost);
        if !got {
          return false, v, lost;
        }
        a := a + 1;
      }
      enough := true;
    }
  }

  /** Pages that growing from lo to v takes: one for each virtual page and one for each table
      that is not there yet. */
  function Need(dir: seq<int>, lo: int, v: int): (n: nat)
    requires |dir| == ENTRIES && 0 <= lo && v <= PAGES
    ensures v <= lo ==> n == 0
    decreases v - lo
  {
    if v <= lo then 0 else Need(dir, lo, v - 1) + (if NeedsTable(dir, lo, v - 1) then 2 else 1)
  }

  predicate NeedsTable(dir: seq<int>, lo: int, v: int)
    requires |dir| == ENTRIES && 0 <= v < PAGES
  {
    dir[v / ENTRIES] == NONE && (v == lo || v % ENTRIES == 0)
  }

  lemma {:induction false} NeedGrows(dir: seq<int>, lo: int, a: int, b: int)
    requires |dir| == ENTRIES && 0 <= lo <= a <= b <= PAGES
    ensures Need(dir, lo, a) + (b - a) <= Need(dir, lo, b)
    decreases b
  {
    if a < b { NeedGrows(dir, lo, a, b - 1); }
  }

  /** With this many pages free, some page on the way from lo to hi is taken as the last one and
      finds no page for its table. */
  ghost predicate Loses(dir: seq<int>, lo: int, hi: int, pages: int)
    requires |dir| == ENTRIES && 0 <= lo && hi <= PAGES
  {
    exists v :: lo <= v < hi && NeedsTable(dir, lo, v) && pages == Need(dir, lo, v) + 1
  }

  /** Growing came to page v with `rest` pages left, and one lost or none. */
  lemma LosesExactly(dir: seq<int>, lo: int, v: int, hi: int, pages: int, rest: nat, lost: bool)
    requires |dir| == ENTRIES && 0 <= lo <= v <= PAGES && hi <= PAGES
    requires pages == Need(dir, lo, v) + rest + (if lost then 1 else 0)
    requires if lost then rest == 0 && v < hi && NeedsTable(dir, lo, v) else rest == 0 || hi <= v
    ensures Loses(dir, lo, hi, pages) <==> lost
  {
    if !lost {
      forall u | lo <= u < hi && NeedsTable(dir, lo, u) ensures pages != Need(dir, lo, u) + 1 {
        if u < v { NeedGrows(dir, lo, u + 1, v); } else { NeedGrows(dir, lo, v, u); }
      }
    }
  }

  /** The state of `allocuvm` with the pages lo..v in place, and perhaps one page lost. */
  ghost predicate Growing(m0: Mem, m: Mem, d: int, lo: int, v: int, lost: int) {
    && d in m0.dirs && d in m.dirs && |m0.dirs[d]| == |m.dirs[d]| == ENTRIES && 0 <= lo <= v <= USERPAGES
    && Only(m0, m, d, lo, v) && (forall u :: lo <= u < v ==> ZeroPage(m, d, u))
    && (forall i :: 0 <= i < ENTRIES ==>
          (m.dirs[d][i] == NONE <==> m0.dirs[d][i] == NONE && !(lo < v && lo / ENTRIES <= i <= (v - 1) / ENTRIES)))
    && |m0.free| == |m.free| + Need(m0.dirs[d], lo, v) + (if lost == NONE then 0 else 1)
    && (lost != NONE ==> m.free == [] && NeedsTable(m0.dirs[d], lo, v))
  }

  lemma StartGrowing(m: Mem, o: map<int, Place>, d: int, lo: int)
    requires Inv(m, o) && d in m.dirs && 0 <= lo <= USERPAGES
    ensures Growing(m, m, d, lo, lo, NONE)
  {
    assert DirOk(m, o, d);
    ListQuiet(m, o, m.free);
    Widen(m, m, NONE, 0, 0, d, lo, lo);
  }

  lemma GrowingView(m0: Mem, m: Mem, d: int, lo: int, v: int, a: int, lost: int)
    requires Growing(m0, m, d, lo, v, lost) && v <= a < USERPAGES && View(m0, d, a) == Absent
    ensures View(m, d, a) == Absent
    ensures TableFor(m, d, v) == NONE <==> NeedsTable(m0.dirs[d], lo, v)
  {
    assert Same(m0, m, d, a);
  }

  lemma GrowStep(m0: Mem, m: Mem, m': Mem, d: int, lo: int, v: int)
    requires Growing(m0, m, d, lo, v, NONE) && v < USERPAGES && Only(m, m', d, v, v + 1) && ZeroPage(m', d, v)
    requires TableAdded(m, m', d, v / ENTRIES)
    requires |m'.free| == |m.free| - (if TableFor(m, d, v) == NONE then 2 else 1)
    requires TableFor(m, d, v) == NONE <==> NeedsTable(m0.dirs[d], lo, v)
    ensures Growing(m0, m', d, lo, v + 1, NONE)
  {
    Widen(m, m', d, v, v + 1, d, lo, v + 1);
    OnlyTrans(m0, m, m', d, lo, v + 1, v);
    forall u | lo <= u < v ensures ZeroPage(m', d, u) { assert ZeroPage(m, d, u) && Same(m, m', d, u); }
  }

  /** What one step of `allocuvm` at page v has done. */
  ghost predicate GrewPage(m: Mem, o: map<int, Place>, m': Mem, o': map<int, Place>, d: int, v: int, got: bool,
        lost: int) {
    && m'.dirs.Keys == m.dirs.Keys && KeptBut(o, o', lost) && (got <==> m.free != [])
    && (!got ==> m' == m && o' == o && lost == NONE)
    && (lost != NONE <==> |m.free| == 1 && TableFor(m, d, v) == NONE)
    && (lost != NONE ==> m' == Popped(m))
    && (got && lost == NONE ==>
          && Only(m, m', d, v, v + 1) && ZeroPage(m', d, v) && TableAdded(m, m', d, v / ENTRIES)
          && |m'.free| == |m.free| - (if TableFor(m, d, v) == NONE then 2 else 1))
  }

  lemma GrewOne(first: Mem, o0: map<int, Place>, m: Mem, o: map<int, Place>, m': Mem, o': map<int, Place>,
                d: int, lo: int, v: int, lost: int, gone: int)
    requires Growing(first, m, d, lo, v, lost) && KeptBut(o0, o, lost) && v < USERPAGES
    requires lost == NONE ==> GrewPage(m, o, m', o', d, v, true, gone)
    requires m.free != []
    requires TableFor(m, d, v) == NONE <==> NeedsTable(first.dirs[d], lo, v)
    ensures KeptBut(o0, o', gone) && Growing(first, m', d, lo, if gone == NONE then v + 1 else v, gone)
  {
    KeptTwice(o0, o, o', gone);
    if gone == NONE { GrowStep(first, m, m', d, lo, v); } else { LoseStep(first, m, m', d, lo, v, gone); }
  }

  lemma LoseStep(m0: Mem, m: Mem, m': Mem, d: int, lo: int, v: int, lost: int)
    requires Growing(m0, m, d, lo, v, NONE) && v < USERPAGES && lost != NONE && |m.free| == 1 && m' == Popped(m)
    requires NeedsTable(m0.dirs[d], lo, v)
    ensures Growing(m0, m', d, lo, v, lost)
  {
    forall x | x in m0.dirs ensures SameOutside(m0, m', x, if x == d then lo else 0, if x == d then v else 0) {
      forall u | 0 <= u < PAGES && !((if x == d then lo else 0) <= u < (if x == d then v else 0))
        ensures Same(m0, m', x, u)
      {
        assert Same(m0, m, x, u);
      }
    }
    forall u | lo <= u < v ensures ZeroPage(m', d, u) { assert ZeroPage(m, d, u); }
  }

  lemma KeptTwice(a: map<int, Place>, b: map<int, Place>, c: map<int, Place>, lost: int)
    requires Kept(a, b) && KeptBut(b, c, lost)
    ensures KeptBut(a, c, lost)
  {
  }

  const USERFLAGS := 6   // PTE_W | PTE_U

  /** What `memset` leaves in a new page. */
  function Zero(): (z: Data)
    ensures |z.bytes| == PGSIZE && forall i :: 0 <= i < PGSIZE ==> z.bytes[i] == 0
  {
    Data(seq(PGSIZE, i => 0))
  }

  /** Virtual page v is mapped to a zero page for the user. */
  ghost predicate ZeroPage(m: Mem, d: int, v: int) {
    View(m, d, v).Present? && View(m, d, v).flags == USERFLAGS && View(m, d, v).page in m.data &&
      m.data[View(m, d, v).page] == Zero()
  }

  /** No page changes hands, but for one that got out of reach. */
  ghost predicate KeptBut(o: map<int, Place>, o': map<int, Place>, lost: int) {
    if lost == NONE then Kept(o, o') else lost in o && !o[lost].Held? && !o[lost].Lost? && Kept(o[lost := Lost], o')
  }

  lemma LoseInv(m: Mem, o: map<int, Place>, p: int)
    requires Inv(m, o) && p in o && o[p] == Held
    ensures Inv(m, o[p := Lost])
  {
    var o' := o[p := Lost];
    forall d | d in m.dirs ensures DirOk(m, o', d) { assert DirOk(m, o, d); }
    forall t | t in m.tables ensures TableOk(m, o', t) { assert TableOk(m, o, t); }
    forall q | q in o' ensures PlaceOk(m, o', q) { assert PlaceOk(m, o, q); }
  }

  /** The state of `deallocuvm` at page v: everything from the first table found on is
      cleared up to v, and a missing table is met at its first page once one was found. */
  ghost predicate Clearing(first: Mem, was: map<int, Place>, m: Mem, o: map<int, Place>, d: int, lo: int, hi: int,
        v: int) {
    && Inv(m, o) && d in first.dirs && |first.dirs[d]| == ENTRIES && m.dirs == first.dirs && Frees(was, o) && 0 <= lo &&
         hi <= USERPAGES
    && var b := Reach(first.dirs[d], lo, hi);
    && (v <= b ==> 0 <= v && Reach(first.dirs[d], v, hi) == b)
    && (b < v < hi && first.dirs[d][v / ENTRIES] == NONE ==> v % ENTRIES == 0)
    && Only(first, m, d, b, hi) && forall u :: b <= u < v && u < hi ==> View(m, d, u) == Absent
  }

  lemma StartClearing(m: Mem, o: map<int, Place>, d: int, lo: int, hi: int)
    requires Inv(m, o) && d in m.dirs && 0 <= lo && hi <= USERPAGES
    ensures |m.dirs[d]| == ENTRIES && Clearing(m, o, m, o, d, lo, hi, lo)
  {
    assert DirOk(m, o, d);
    ListQuiet(m, o, m.free);
    Widen(m, m, NONE, 0, 0, d, Reach(m.dirs[d], lo, hi), hi);
  }

  lemma ClearSkip(first: Mem, was: map<int, Place>, m: Mem, o: map<int, Place>, d: int, lo: int, hi: int, v: int)
    requires lo <= v < hi && Clearing(first, was, m, o, d, lo, hi, v) && TableFor(m, d, v) == NONE
    ensures Clearing(first, was, m, o, d, lo, hi, v + ENTRIES)
  {
    MissingTable(m, o, d, v);
  }

  lemma ClearOne(first: Mem, was: map<int, Place>, m: Mem, o: map<int, Place>, m': Mem, o': map<int, Place>, d: int,
        lo: int, hi: int, v: int)
    requires lo <= v < hi && Clearing(first, was, m, o, d, lo, hi, v) && TableFor(m, d, v) != NONE
    requires Inv(m', o') && m'.dirs == m.dirs && Frees(o, o') && Only(m, m', d, v, v + 1) && View(m', d, v) == Absent
    ensures Clearing(first, was, m', o', d, lo, hi, v + 1)
  {
    ClearedMore(first, m, m', d, Reach(first.dirs[d], lo, hi), v, hi);
  }

  lemma MissingTable(m: Mem, o: map<int, Place>, d: int, v: int)
    requires Inv(m, o) && 0 <= v < PAGES && TableFor(m, d, v) == NONE
    ensures forall u :: v <= u < PAGES && u / ENTRIES == v / ENTRIES ==> View(m, d, u) == Absent
  {
    assert NONE !in m.tables;
  }

  lemma ClearedMore(a: Mem, b: Mem, c: Mem, d: int, lo: int, v: int, hi: int)
    requires Only(a, b, d, lo, hi) && Only(b, c, d, v, v + 1) && lo <= v < hi && d in b.dirs && View(c, d, v) == Absent
    requires forall u :: lo <= u < v ==> View(b, d, u) == Absent
    requires 0 <= lo && hi <= PAGES
    ensures Only(a, c, d, lo, hi) && forall u :: lo <= u < v + 1 ==> View(c, d, u) == Absent
  {
    Widen(b, c, d, v, v + 1, d, lo, hi);
    OnlyTrans(a, b, c, d, lo, hi, hi);
    forall u | lo <= u < v ensures View(c, d, u) == Absent { assert Same(b, c, d, u); }
  }

  /** From the first table that is found on no page is mapped, and the rest is as it was. */
  ghost predicate Cleared(m: Mem, m': Mem, d: int, lo: int, hi: int) {
    && d in m.dirs && |m.dirs[d]| == ENTRIES && 0 <= lo && hi <= PAGES
    && var b := Reach(m.dirs[d], lo, hi);
    Only(m, m', d, b, hi) && forall u :: b <= u < hi ==> View(m', d, u) == Absent
  }

  lemma Widen(a: Mem, b: Mem, d: int, lo: int, hi: int, d': int, lo': int, hi': int)
    requires Only(a, b, d, lo, hi) && (lo < hi ==> d == d' && lo' <= lo && hi <= hi')
    ensures Only(a, b, d', lo', hi')
  {
    forall x | x in a.dirs ensures SameOutside(a, b, x, if x == d' then lo' else 0, if x == d' then hi' else 0) {
      assert SameOutside(a, b, x, if x == d then lo else 0, if x == d then hi else 0);
    }
  }

  lemma ThenQuiet(a: Mem, b: Mem, c: Mem, d: int, lo: int, hi: int)
    requires Only(a, b, d, lo, hi) && Quiet(b, c)
    ensures Only(a, c, d, lo, hi)
  {
    forall x | x in a.dirs ensures SameOutside(a, c, x, if x == d then lo else 0, if x == d then hi else 0) {
      assert SameOutside(a, b, x, if x == d then lo else 0, if x == d then hi else 0);
      assert SameOutside(b, c, x, 0, 0);
      forall v | 0 <= v < PAGES && !((if x == d then lo else 0) <= v < (if x == d then hi else 0))
        ensures Same(a, c, x, v)
      {
        assert Same(a, b, x, v) && Same(b, c, x, v);
      }
    }
  }

  lemma QuietThen(a: Mem, b: Mem, c: Mem, d: int, lo: int, hi: int)
    requires Quiet(a, b) && Only(b, c, d, lo, hi)
    ensures Only(a, c, d, lo, hi)
  {
    forall x | x in a.dirs ensures SameOutside(a, c, x, if x == d then lo else 0, if x == d then hi else 0) {
      assert SameOutside(a, b, x, 0, 0);
      forall v | 0 <= v < PAGES && !((if x == d then lo else 0) <= v < (if x == d then hi else 0))
        ensures Same(a, c, x, v)
      {
        assert Same(a, b, x, v) && Same(b, c, x, v);
      }
    }
  }
}
