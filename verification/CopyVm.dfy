/** `setupkvm` and `copyuvm` (vm.c). */
module CopyVm {
  import opened VmSpec
  import opened VmView
  import opened Vm
  import opened FreeSpace

  /** A range of the kernel's part, in pages: n pages from virtual page v to physical page pa. */
  datatype Range = Range(v: int, n: int, pa: int, perm: int)

  ghost predicate RangesOk(kmap: seq<Range>) {
    && (forall i :: 0 <= i < |kmap| ==> USERPAGES <= kmap[i].v && 0 < kmap[i].n && kmap[i].v + kmap[i].n <= PAGES)
    && forall i, j :: 0 <= i < j < |kmap| ==> kmap[i].v + kmap[i].n <= kmap[j].v
  }

  /** The first n pages of a range are mapped. */
  ghost predicate RangeMapped(m: Mem, d: int, r: Range, n: int) {
    forall u :: r.v <= u < r.v + n ==> View(m, d, u) == Present(r.pa + (u - r.v), r.perm)
  }

  // ----- how many pages it takes

  /** The last directory entry that has a table once n pages from v on are mapped, with `top` the
      last one before. */
  function Entry(top: int, v: int, n: int): int { if n <= 0 then top else (v + n - 1) / ENTRIES }

  function Top(kmap: seq<Range>, n: nat): int
    requires n <= |kmap|
  {
    if n == 0 then USERDIR - 1 else Entry(USERDIR - 1, kmap[n - 1].v, kmap[n - 1].n)
  }

  /** The tables that these n pages take. */
  function TablesFor(top: int, v: int, n: int): (c: nat)
    decreases n
  {
    if n <= 0 then 0 else TablesFor(top, v, n - 1) + (if Entry(top, v, n) == Entry(top, v, n - 1) then 0 else 1)
  }

  /** The tables that the first n ranges of the kernel's part take, in order. */
  function TablesTo(kmap: seq<Range>, n: nat): nat
    requires n <= |kmap|
  {
    if n == 0 then 0 else TablesTo(kmap, n - 1) + TablesFor(Top(kmap, n - 1), kmap[n - 1].v, kmap[n - 1].n)
  }

  function KernelTables(kmap: seq<Range>): nat { TablesTo(kmap, |kmap|) }

  lemma {:induction false} TablesGrow(kmap: seq<Range>, i: nat, n: nat)
    requires i <= n <= |kmap|
    ensures TablesTo(kmap, i) <= TablesTo(kmap, n)
  {
    if i < n { TablesGrow(kmap, i, n - 1); }
  }

  lemma TopBelow(kmap: seq<Range>, i: nat)
    requires RangesOk(kmap) && i < |kmap|
    ensures USERDIR - 1 <= Top(kmap, i) <= kmap[i].v / ENTRIES
  {
  }

  /** The directory entries for n pages from v on. */
  ghost function Entries(v: int, n: int): set<int>
    decreases n
  {
    if n <= 0 then {} else Entries(v, n - 1) + {(v + n - 1) / ENTRIES}
  }

  /** The directory entries that the first n ranges cover. */
  ghost function KernelEntries(kmap: seq<Range>, n: nat): set<int>
    requires n <= |kmap|
  {
    if n == 0 then {} else KernelEntries(kmap, n - 1) + Entries(kmap[n - 1].v, kmap[n - 1].n)
  }

  /** Adding entry e, of which `last` was the last before, to the c entries beside s. */
  lemma AddsEntry(s: set<int>, a: set<int>, b: set<int>, e: int, last: int, c: nat, c': nat)
    requires b == a + {e} && last <= e && (forall x :: x in s + a ==> x <= last) && (e == last ==> e in s + a)
    requires |s + a| == |s| + c && c' == c + (if e == last then 0 else 1)
    ensures |s + b| == |s| + c'
  {
    if e == last { assert s + b == s + a; } else { assert s + b == s + a + {e}; }
  }

  /** The entries for i pages are at most the last one, which is one of them. */
  lemma {:induction false} EntriesBelow(s: set<int>, top: int, v: int, i: int)
    requires 0 <= i && 0 <= v && top <= v / ENTRIES && (forall e :: e in s ==> e <= top)
    ensures forall e :: e in s + Entries(v, i) ==> e <= Entry(top, v, i)
    ensures i > 0 ==> Entry(top, v, i) in Entries(v, i)
    decreases i
  {
    if i > 0 {
      EntriesBelow(s, top, v, i - 1);
      EntriesRise(top, v, i - 1);
    }
  }

  /** The last of i pages adds the last entry, which may have been there. */
  lemma LastEntry(s: set<int>, top: int, v: int, i: int)
    requires 0 < i && 0 <= v && top <= v / ENTRIES && (v / ENTRIES == top ==> top in s)
    ensures Entries(v, i) == Entries(v, i - 1) + {Entry(top, v, i)} && Entry(top, v, i - 1) <= Entry(top, v, i)
    ensures Entry(top, v, i) == Entry(top, v, i - 1) ==> Entry(top, v, i) in s + Entries(v, i - 1)
  {
    EntriesRise(top, v, i - 1);
    if i > 1 { assert Entry(top, v, i - 1) in Entries(v, i - 1); }
  }

  /** Mapping i pages makes one table for each directory entry they add to those in s. */
  lemma {:induction false} PagesTakeEntries(s: set<int>, top: int, v: int, i: int)
    requires 0 <= i && 0 <= v && top <= v / ENTRIES && (forall e :: e in s ==> e <= top)
    requires v / ENTRIES == top ==> top in s
    ensures |s + Entries(v, i)| == |s| + TablesFor(top, v, i)
    decreases i
  {
    if i == 0 {
      assert s + Entries(v, 0) == s;
    } else {
      var a, c := Entries(v, i - 1), TablesFor(top, v, i - 1);
      assert |s + a| == |s| + c by { PagesTakeEntries(s, top, v, i - 1); }
      assert forall x :: x in s + a ==> x <= Entry(top, v, i - 1) by { EntriesBelow(s, top, v, i - 1); }
      LastEntry(s, top, v, i);
      AddsEntry(s, a, Entries(v, i), Entry(top, v, i), Entry(top, v, i - 1), c, TablesFor(top, v, i));
    }
  }

  /** The tables of the kernel's part are one for each directory entry that it covers. */
  lemma {:induction false} TablesAreEntries(kmap: seq<Range>, n: nat)
    requires RangesOk(kmap) && n <= |kmap|
    ensures |KernelEntries(kmap, n)| == TablesTo(kmap, n)
    ensures forall e :: e in KernelEntries(kmap, n) ==> e <= Top(kmap, n)
    ensures n > 0 ==> Top(kmap, n) in KernelEntries(kmap, n)
  {
    if n > 0 {
      TablesAreEntries(kmap, n - 1);
      TopBelow(kmap, n - 1);
      PagesTakeEntries(KernelEntries(kmap, n - 1), Top(kmap, n - 1), kmap[n - 1].v, kmap[n - 1].n);
      EntriesBelow(KernelEntries(kmap, n - 1), Top(kmap, n - 1), kmap[n - 1].v, kmap[n - 1].n);
    }
  }

  /** Of so many pages `count` have become tables, the last for entry `top`; the rest is free. */
  ghost predicate Stocked(m: Mem, d: int, top: int, count: int, pages: int) {
    && d in m.dirs && |m.dirs[d]| == ENTRIES && |m.free| + count == pages && USERDIR - 1 <= top < ENTRIES
    && (USERDIR <= top ==> m.dirs[d][top] != NONE)
    && forall e :: 0 <= e < USERDIR || top < e < ENTRIES ==> m.dirs[d][e] == NONE
  }

  /** One step of `mappages` in the kernel's part. */
  method MapKernelPage(k: Machine, d: int, v: int, e: Pte, ghost top: int, ghost count: int, ghost pages: int)
    returns (ok: bool)
    requires k.Valid() && d in k.m.dirs && USERPAGES <= v < PAGES && View(k.m, d, v) == Absent
    requires Stocked(k.m, d, top, count, pages) && top <= v / ENTRIES
    modifies k
    ensures if ok then Stocked(k.m, d, v / ENTRIES, count + (if v / ENTRIES == top then 0 else 1), pages)
      else k.m.free == [] && pages == count && v / ENTRIES != top
    ensures k.Valid() && k.m.dirs.Keys == old(k.m).dirs.Keys && Kept(old(k.o), k.o) && k.m.free <= old(k.m).free
    ensures Only(old(k.m), k.m, d, v, v + 1) && View(k.m, d, v) == if ok then e else Absent
  {
    var t := k.WalkPgdir(d, v, true);
    if t == NONE {
      Widen(old(k.m), k.m, NONE, 0, 0, d, v, v + 1);
      return false;
    }
    assert TableOk(k.m, k.o, t);
    KernelPteInv(k.m, k.o, t, v % ENTRIES, e);
    KernelPteOnly(k.m, k.o, d, v, e);
    ghost var mid := k.m;
    k.m := SetPte(k.m, t, v % ENTRIES, e);
    QuietThen(old(k.m), mid, k.m, d, v, v + 1);
    return true;
  }

  /** The first i pages of the range are mapped, and nothing else has changed. */
  ghost predicate Mapping(first: Mem, was: map<int, Place>, m: Mem, o: map<int, Place>, d: int, r: Range, i: int) {
    && Inv(m, o) && d in m.dirs && m.dirs.Keys == first.dirs.Keys && Kept(was, o) && m.free <= first.free
    && Only(first, m, d, r.v, r.v + i) && RangeMapped(m, d, r, i)
  }

  /** The tables are those for the first i pages of the range. */
  ghost predicate StockedTo(m: Mem, d: int, r: Range, i: int, top: int, count: int, pages: int) {
    Stocked(m, d, Entry(top, r.v, i), count + TablesFor(top, r.v, i), pages)
  }

  lemma EntriesRise(top: int, v: int, i: int)
    requires 0 <= i && 0 <= v && top <= v / ENTRIES
    ensures Entry(top, v, i) <= (v + i) / ENTRIES == Entry(top, v, i + 1)
  {
  }

  lemma {:induction false} TablesForGrow(top: int, v: int, i: int, n: int)
    requires 0 <= i <= n
    ensures TablesFor(top, v, i) <= TablesFor(top, v, n)
    decreases n
  {
    if i < n { TablesForGrow(top, v, i, n - 1); }
  }

  /** `mappages` for a range of the kernel's part. */
  method MapPages(k: Machine, d: int, r: Range, ghost top: int, ghost count: int, ghost pages: int) returns (ok: bool)
    requires k.Valid() && d in k.m.dirs && USERPAGES <= r.v && 0 < r.n && r.v + r.n <= PAGES
    requires Stocked(k.m, d, top, count, pages) && top <= r.v / ENTRIES
    requires forall u :: r.v <= u < PAGES ==> View(k.m, d, u) == Absent
    modifies k
    ensures if ok then StockedTo(k.m, d, r, r.n, top, count, pages)
      else k.m.free == [] && pages < count + TablesFor(top, r.v, r.n)
    ensures k.Valid() && k.m.dirs.Keys == old(k.m).dirs.Keys && Kept(old(k.o), k.o) && k.m.free <= old(k.m).free
    ensures Only(old(k.m), k.m, d, r.v, r.v + r.n) && (ok ==> RangeMapped(k.m, d, r, r.n))
  {
    ghost var first, was := k.m, k.o;
    ListQuiet(k.m, k.o, k.m.free);
    Widen(k.m, k.m, NONE, 0, 0, d, r.v, r.v);
    var i := 0;
    while true
      invariant 0 <= i < r.n && Mapping(first, was, k.m, k.o, d, r, i) && StockedTo(k.m, d, r, i, top, count, pages)
      decreases r.n - i
    {
      TablesForGrow(top, r.v, i + 1, r.n);
      ok := MapTurn(k, d, r, i, first, was, top, count, pages);
      if !ok {
        Widen(first, k.m, d, r.v, r.v + i + 1, d, r.v, r.v + r.n);
        return false;
      }
      if i == r.n - 1 {
        return true;
      }
      i := i + 1;
    }
  }

  /** One turn of that loop. */
  method MapTurn(k: Machine, d: int, r: Range, i: int, ghost first: Mem, ghost was: map<int, Place>, ghost top: int,
        ghost count: int, ghost pages: int)
    returns (ok: bool)
    requires USERPAGES <= r.v && 0 <= i < r.n && r.v + r.n <= PAGES && Mapping(first, was, k.m, k.o, d, r, i)
    requires View(first, d, r.v + i) == Absent && StockedTo(k.m, d, r, i, top, count, pages) && top <= r.v / ENTRIES
    modifies k
    ensures if ok then StockedTo(k.m, d, r, i + 1, top, count, pages)
      else k.m.free == [] && pages < count + TablesFor(top, r.v, i + 1)
    ensures k.Valid() && k.m.dirs.Keys == first.dirs.Keys && Kept(was, k.o) && k.m.free <= first.free
    ensures Only(first, k.m, d, r.v, r.v + i + 1) && (ok ==> Mapping(first, was, k.m, k.o, d, r, i + 1))
  {
    EntriesRise(top, r.v, i);
    ok := MapNext(k, d, r, i, first, was, Entry(top, r.v, i), count + TablesFor(top, r.v, i), pages);
  }

  /** Its step, with `top` the last entry that has a table and `count` tables made. */
  method MapNext(k: Machine, d: int, r: Range, i: int, ghost first: Mem, ghost was: map<int, Place>, ghost top: int,
        ghost count: int, ghost pages: int)
    returns (ok: bool)
    requires USERPAGES <= r.v && 0 <= i < r.n && r.v + r.n <= PAGES && Mapping(first, was, k.m, k.o, d, r, i)
    requires View(first, d, r.v + i) == Absent && Stocked(k.m, d, top, count, pages) && top <= (r.v + i) / ENTRIES
    modifies k
    ensures if ok
      then Stocked(k.m, d, (r.v + i) / ENTRIES, count + (if (r.v + i) / ENTRIES == top then 0 else 1), pages)
      else k.m.free == [] && pages == count && (r.v + i) / ENTRIES != top
    ensures k.Valid() && k.m.dirs.Keys == first.dirs.Keys && Kept(was, k.o) && k.m.free <= first.free
    ensures Only(first, k.m, d, r.v, r.v + i + 1) && (ok ==> Mapping(first, was, k.m, k.o, d, r, i + 1))
  {
    ghost var mid, own := k.m, k.o;
    assert Same(first, mid, d, r.v + i);
    ok := MapKernelPage(k, d, r.v + i, Present(r.pa + i, r.perm), top, count, pages);
    if ok {
      MappingMore(first, was, mid, own, k.m, k.o, d, r, i);
    } else {
      MappedMore(first, mid, k.m, d, r, i);
    }
  }

  lemma MappingMore(first: Mem, was: map<int, Place>, m: Mem, o: map<int, Place>, m': Mem, o': map<int, Place>, d: int,
        r: Range, i: int)
    requires Mapping(first, was, m, o, d, r, i) && Inv(m', o') && m'.dirs.Keys == m.dirs.Keys && Kept(o, o')
    requires 0 <= i < r.n && 0 <= r.v && r.v + r.n <= PAGES
    requires m'.free <= m.free && Only(m, m', d, r.v + i, r.v + i + 1)
    requires View(m', d, r.v + i) == Present(r.pa + i, r.perm)
    ensures Mapping(first, was, m', o', d, r, i + 1)
  {
    MappedMore(first, m, m', d, r, i);
  }

  lemma MappedMore(a: Mem, b: Mem, c: Mem, d: int, r: Range, i: int)
    requires d in a.dirs && d in b.dirs && 0 <= i < r.n && 0 <= r.v && r.v + r.n <= PAGES
    requires Only(a, b, d, r.v, r.v + i) && Only(b, c, d, r.v + i, r.v + i + 1) && RangeMapped(b, d, r, i)
    ensures Only(a, c, d, r.v, r.v + i + 1)
    ensures View(c, d, r.v + i) == Present(r.pa + i, r.perm) ==> RangeMapped(c, d, r, i + 1)
  {
    Widen(b, c, d, r.v + i, r.v + i + 1, d, r.v, r.v + i + 1);
    OnlyTrans(a, b, c, d, r.v, r.v + i + 1, r.v + i);
    forall u | r.v <= u < r.v + i ensures View(c, d, u) == View(b, d, u) { assert Same(b, c, d, u); }
  }

  /** The first n ranges are mapped and nothing beyond. */
  ghost predicate KernelPart(m: Mem, d: int, kmap: seq<Range>, n: int)
    requires 0 <= n <= |kmap|
  {
    && (forall i :: 0 <= i < n ==> RangeMapped(m, d, kmap[i], kmap[i].n))
    && (forall u :: (if n == 0 then USERPAGES else kmap[n - 1].v + kmap[n - 1].n) <= u < PAGES ==>
         View(m, d, u) == Absent)
    && (forall u :: 0 <= u < USERPAGES ==> View(m, d, u) == Absent)
  }

  /** An empty directory, if there is a page for it. */
  method NewSpace(k: Machine) returns (d: int)
    requires k.Valid()
    modifies k
    ensures k.Valid() && (d == NONE <==> old(k.m).free == [])
    ensures d == NONE ==> k.m == old(k.m) && k.o == old(k.o)
    ensures d != NONE ==>
      Fresh(old(k.m), old(k.o), k.m, k.o, d) && forall v :: 0 <= v < PAGES ==> View(k.m, d, v) == Absent
    ensures d != NONE ==> Stocked(k.m, d, USERDIR - 1, 0, |old(k.m).free| - 1)
  {
    d := k.Kalloc();
    if d != NONE {
      ListQuiet(old(k.m), old(k.o), k.m.free);
      NewDirInv(k.m, k.o, d);
      NewDirQuiet(k.m, k.o, d);
      QuietThen(old(k.m), k.m, NewDir(k.m, d), NONE, 0, 0);
      k.m := NewDir(k.m, d);
      k.o := k.o[d := Dir];
    }
  }

  /** The address space d is new since the state first, and no page changed hands. */
  ghost predicate Fresh(first: Mem, was: map<int, Place>, m: Mem, o: map<int, Place>, d: int) {
    && Inv(m, o) && Kept(was, o) && Quiet(first, m) && m.free <= first.free
    && d != NONE && d !in first.dirs && m.dirs.Keys == first.dirs.Keys + {d}
  }

  /** `setupkvm` has mapped the first i ranges. */
  ghost predicate Setting(first: Mem, was: map<int, Place>, m: Mem, o: map<int, Place>, d: int, kmap: seq<Range>,
        i: nat, pages: int) {
    && RangesOk(kmap) && i <= |kmap| && Fresh(first, was, m, o, d) && KernelPart(m, d, kmap, i)
    && Stocked(m, d, Top(kmap, i), TablesTo(kmap, i), pages)
  }

  /** One turn of the loop of `setupkvm`. */
  method MapRange(k: Machine, d: int, kmap: seq<Range>, i: nat, ghost first: Mem, ghost was: map<int, Place>,
        ghost pages: int)
    returns (ok: bool, i': nat)
    requires i < |kmap| && Setting(first, was, k.m, k.o, d, kmap, i, pages)
    modifies k
    ensures i' == i + 1
    ensures ok ==> Setting(first, was, k.m, k.o, d, kmap, i', pages)
    ensures !ok ==> Fresh(first, was, k.m, k.o, d) && k.m.free == [] && pages < KernelTables(kmap)
  {
    ghost var mid, own := k.m, k.o;
    i' := i + 1;
    Ready(first, was, mid, own, d, kmap, i, pages);
    ok := MapPages(k, d, kmap[i], Top(kmap, i), TablesTo(kmap, i), pages);
    if ok {
      RangeDone(first, was, mid, own, k.m, k.o, d, kmap, i, i', pages);
    } else {
      RangeFails(first, was, mid, own, k.m, k.o, d, kmap, i, pages);
    }
  }

  lemma Ready(first: Mem, was: map<int, Place>, m: Mem, o: map<int, Place>, d: int, kmap: seq<Range>, i: nat,
        pages: int)
    requires i < |kmap| && Setting(first, was, m, o, d, kmap, i, pages)
    ensures Inv(m, o) && d in m.dirs && USERPAGES <= kmap[i].v && 0 < kmap[i].n && kmap[i].v + kmap[i].n <= PAGES
    ensures Stocked(m, d, Top(kmap, i), TablesTo(kmap, i), pages) && Top(kmap, i) <= kmap[i].v / ENTRIES
    ensures forall u :: kmap[i].v <= u < PAGES ==> View(m, d, u) == Absent
  {
    TopBelow(kmap, i);
  }

  /** What `mappages` leaves alone when it maps range r. */
  ghost predicate RangeOnly(m: Mem, o: map<int, Place>, m': Mem, o': map<int, Place>, d: int, r: Range) {
    && Inv(m', o') && m'.dirs.Keys == m.dirs.Keys && Kept(o, o') && m'.free <= m.free
    && Only(m, m', d, r.v, r.v + r.n)
  }

  lemma RangeDone(first: Mem, was: map<int, Place>, m: Mem, o: map<int, Place>, m': Mem, o': map<int, Place>, d: int,
        kmap: seq<Range>, i: nat, i': nat, pages: int)
    requires i < |kmap| && i' == i + 1 && Setting(first, was, m, o, d, kmap, i, pages)
    requires RangeOnly(m, o, m', o', d, kmap[i])
    requires RangeMapped(m', d, kmap[i], kmap[i].n)
    requires StockedTo(m', d, kmap[i], kmap[i].n, Top(kmap, i), TablesTo(kmap, i), pages)
    ensures Setting(first, was, m', o', d, kmap, i', pages)
  {
    StillFresh(first, was, m, o, m', o', d, kmap[i].v, kmap[i].v + kmap[i].n);
    KernelMore(m, m', d, kmap, i);
  }

  lemma RangeFails(first: Mem, was: map<int, Place>, m: Mem, o: map<int, Place>, m': Mem, o': map<int, Place>, d: int,
        kmap: seq<Range>, i: nat, pages: int)
    requires i < |kmap| && Setting(first, was, m, o, d, kmap, i, pages) && RangeOnly(m, o, m', o', d, kmap[i])
    requires pages < TablesTo(kmap, i) + TablesFor(Top(kmap, i), kmap[i].v, kmap[i].n)
    ensures Fresh(first, was, m', o', d) && pages < KernelTables(kmap)
  {
    StillFresh(first, was, m, o, m', o', d, kmap[i].v, kmap[i].v + kmap[i].n);
    TablesGrow(kmap, i + 1, |kmap|);
  }

  lemma StillFresh(first: Mem, was: map<int, Place>, m: Mem, o: map<int, Place>, m': Mem, o': map<int, Place>, d: int,
        lo: int, hi: int)
    requires Fresh(first, was, m, o, d) && Inv(m', o') && m'.dirs.Keys == m.dirs.Keys && Kept(o, o')
    requires m'.free <= m.free
    requires Only(m, m', d, lo, hi)
    ensures Fresh(first, was, m', o', d)
  {
    NewSpaceQuiet(first, m, m', d, lo, hi);
  }

  /** `setupkvm`. It succeeds exactly if there are pages for the directory and the tables. With
      fewer, but some, all of them are taken: the directory and its tables stay allocated and no
      one knows them. `leaked` is that directory. */
  method SetupKvm(k: Machine, kmap: seq<Range>) returns (d: int, ghost leaked: int)
    requires k.Valid() && RangesOk(kmap)
    modifies k
    ensures k.Valid()
    ensures old(k.m).free == [] ==> d == NONE && leaked == NONE && k.m == old(k.m) && k.o == old(k.o)
    ensures old(k.m).free != [] ==>
      (d == NONE <==> leaked != NONE) && Fresh(old(k.m), old(k.o), k.m, k.o, if d == NONE then leaked else d)
    ensures d != NONE ==> KernelPart(k.m, d, kmap, |kmap|)
    ensures d != NONE ==> Stocked(k.m, d, Top(kmap, |kmap|), KernelTables(kmap), |old(k.m).free| - 1)
    ensures d != NONE <==> |old(k.m).free| >= 1 + KernelTables(kmap)
    ensures leaked != NONE <==> 0 < |old(k.m).free| < 1 + KernelTables(kmap)
    ensures leaked != NONE ==> k.m.free == []
  {
    ghost var first, was := k.m, k.o;
    leaked := NONE;
    TablesGrow(kmap, 0, |kmap|);
    d := NewSpace(k);
    if d != NONE {
      var ok := MapRanges(k, d, kmap, first, was, |old(k.m).free| - 1);
      if !ok {
        d, leaked := NONE, d;
      }
    }
  }

  /** The loop of `setupkvm`. */
  method MapRanges(k: Machine, d: int, kmap: seq<Range>, ghost first: Mem, ghost was: map<int, Place>, ghost pages: int)
    returns (ok: bool)
    requires Setting(first, was, k.m, k.o, d, kmap, 0, pages)
    modifies k
    ensures ok <==> pages >= KernelTables(kmap)
    ensures if ok then Setting(first, was, k.m, k.o, d, kmap, |kmap|, pages)
      else Fresh(first, was, k.m, k.o, d) && k.m.free == []
  {
    var i := 0;
    while i < |kmap|
      invariant i <= |kmap| && Setting(first, was, k.m, k.o, d, kmap, i, pages)
    {
      ok, i := MapRange(k, d, kmap, i, first, was, pages);
      if !ok {
        return;
      }
    }
    ok := true;
  }

  /** A change in a new address space is none in the old ones. */
  lemma NewSpaceQuiet(a: Mem, b: Mem, c: Mem, d: int, lo: int, hi: int)
    requires Quiet(a, b) && Only(b, c, d, lo, hi) && d !in a.dirs
    ensures Quiet(a, c)
  {
    forall x | x in a.dirs ensures SameOutside(a, c, x, 0, 0) {
      assert SameOutside(a, b, x, 0, 0) && SameOutside(b, c, x, 0, 0);
      forall v | 0 <= v < PAGES ensures Same(a, c, x, v) { assert Same(a, b, x, v) && Same(b, c, x, v); }
    }
  }

  lemma KernelMore(m: Mem, m': Mem, d: int, kmap: seq<Range>, n: int)
    requires RangesOk(kmap) && 0 <= n < |kmap| && d in m.dirs && KernelPart(m, d, kmap, n)
    requires Only(m, m', d, kmap[n].v, kmap[n].v + kmap[n].n) && RangeMapped(m', d, kmap[n], kmap[n].n)
    ensures KernelPart(m', d, kmap, n + 1)
  {
    forall u | 0 <= u < PAGES && !(kmap[n].v <= u < kmap[n].v + kmap[n].n) ensures View(m', d, u) == View(m, d, u) {
      assert Same(m, m', d, u);
    }
    forall i | 0 <= i < n
      ensures RangeMapped(m', d, kmap[i], kmap[i].n)
    {
      assert RangeMapped(m, d, kmap[i], kmap[i].n);
    }
  }

  /** Virtual page u of n is a copy of that page of d in a frame that was free. */
  ghost predicate Copy(first: Mem, was: map<int, Place>, m: Mem, d: int, n: int, u: int) {
    var e, c := View(first, d, u), View(m, n, u);
    && e.Present? && c.Present? && c.flags == e.flags
    && e.page in first.data && c.page in m.data && m.data[c.page] == first.data[e.page]
    && c.page in was && was[c.page].Free?
  }

  /** The first v pages are copied, the others of the user part are not there, and the
      kernel's part is. */
  ghost predicate Copied(first: Mem, was: map<int, Place>, m: Mem, d: int, n: int, v: int, kmap: seq<Range>) {
    && (forall u :: 0 <= u < v ==> Copy(first, was, m, d, n, u))
    && (forall u :: v <= u < USERPAGES ==> View(m, n, u) == Absent)
    && (forall i :: 0 <= i < |kmap| ==> RangeMapped(m, n, kmap[i], kmap[i].n))
  }

  lemma CopiedMore(first: Mem, was: map<int, Place>, m: Mem, m': Mem, d: int, n: int, v: int, kmap: seq<Range>)
    requires RangesOk(kmap) && n in m.dirs && Copied(first, was, m, d, n, v, kmap) && 0 <= v < USERPAGES
    requires Only(m, m', n, v, v + 1) && Copy(first, was, m', d, n, v)
    ensures Copied(first, was, m', d, n, v + 1, kmap)
  {
    forall u | 0 <= u < v
      ensures Copy(first, was, m', d, n, u)
    {
      assert Copy(first, was, m, d, n, u) && Same(m, m', n, u);
    }
    forall u | v < u < PAGES ensures View(m', n, u) == View(m, n, u) { assert Same(m, m', n, u); }
    forall i | 0 <= i < |kmap|
      ensures RangeMapped(m', n, kmap[i], kmap[i].n)
    {
      assert RangeMapped(m, n, kmap[i], kmap[i].n);
    }
  }

  /** Like Fresh, with page p in hand. */
  ghost predicate Holding(first: Mem, was: map<int, Place>, m: Mem, o: map<int, Place>, n: int, p: int) {
    && Inv(m, o) && Quiet(first, m) && m.free <= first.free
    && n != NONE && n !in first.dirs && m.dirs.Keys == first.dirs.Keys + {n}
    && p in was && was[p].Free? && p in o && o[p] == Held && Kept(was[p := Held], o)
  }

  lemma TakenFresh(first: Mem, was: map<int, Place>, m: Mem, o: map<int, Place>, n: int)
    requires Inv(first, was) && Fresh(first, was, m, o, n) && m.free != []
    ensures Holding(first, was, Popped(m), o[m.free[|m.free| - 1] := Held], n, m.free[|m.free| - 1])
  {
    var p := m.free[|m.free| - 1];
    PopInv(m, o);
    ListQuiet(m, o, Popped(m).free);
    assert NONE !in first.dirs && p == first.free[|m.free| - 1];
    NewSpaceQuiet(first, m, Popped(m), NONE, 0, 0);
  }

  lemma TakenCopied(first: Mem, was: map<int, Place>, m: Mem, d: int, n: int, v: int, kmap: seq<Range>)
    requires Copied(first, was, m, d, n, v, kmap) && m.free != []
    ensures Copied(first, was, Popped(m), d, n, v, kmap)
  {
    var m' := Popped(m);
    forall u ensures View(m', n, u) == View(m, n, u) {}
    forall u | 0 <= u < v ensures Copy(first, was, m', d, n, u) { assert Copy(first, was, m, d, n, u); }
    forall i | 0 <= i < |kmap|
      ensures RangeMapped(m', n, kmap[i], kmap[i].n)
    {
      assert RangeMapped(m, n, kmap[i], kmap[i].n);
    }
  }

  /** Of so many pages the first v user pages of the new space and their tables have been made,
      the rest is free. */
  ghost predicate UserStock(m: Mem, n: int, v: int, pages: int) {
    && n in m.dirs && |m.dirs[n]| == ENTRIES && 0 <= v <= USERPAGES && |m.free| + Need(EmptyDir(), 0, v) == pages
    && forall e :: 0 <= e < USERDIR ==> (m.dirs[n][e] == NONE <==> !(0 < v && e <= (v - 1) / ENTRIES))
  }

  lemma UserTable(m: Mem, n: int, v: int, pages: int)
    requires UserStock(m, n, v, pages) && v < USERPAGES
    ensures TableFor(m, n, v) == NONE <==> NeedsTable(EmptyDir(), 0, v)
  {
  }

  lemma UserStockMore(m: Mem, m': Mem, n: int, v: int, pages: int)
    requires UserStock(m, n, v, pages) && v < USERPAGES && TableAdded(m, m', n, v / ENTRIES)
    requires |m'.free| == |m.free| - (if NeedsTable(EmptyDir(), 0, v) then 2 else 1)
    ensures UserStock(m', n, v + 1, pages)
  {
  }

  /** The page goes into the new space. */
  method PlaceCopy(k: Machine, n: int, v: int, p: int, flags: int, x: Data, ghost first: Mem,
        ghost was: map<int, Place>)
    returns (ok: bool)
    requires 0 <= v < USERPAGES && Holding(first, was, k.m, k.o, n, p) && View(k.m, n, v) == Absent
    modifies k
    ensures ok ==> Fresh(first, was, k.m, k.o, n) && Only(old(k.m), k.m, n, v, v + 1)
    ensures ok ==> View(k.m, n, v) == Present(p, flags) && p in k.m.data && k.m.data[p] == x
    ensures !ok ==> k.m == old(k.m) && k.o == old(k.o)
    ensures ok <==> TableFor(old(k.m), n, v) != NONE || old(k.m).free != []
    ensures ok ==> |k.m.free| == |old(k.m).free| - (if TableFor(old(k.m), n, v) == NONE then 1 else 0)
    ensures ok ==> TableAdded(old(k.m), k.m, n, v / ENTRIES)
  {
    ghost var mid := k.m;
    ok := k.MapUserPage(n, v, p, flags, x);
    if ok { NewSpaceQuiet(first, mid, k.m, n, v, v + 1); }
  }

  /** One turn of the loop of `copyuvm`; `lost` is a page that was taken but could not be
      mapped. */
  method CopyPage(k: Machine, d: int, n: int, v: int, kmap: seq<Range>, ghost first: Mem, ghost was: map<int, Place>,
        ghost pages: int)
    returns (ok: bool, ghost lost: int)
    requires RangesOk(kmap) && 0 <= v < USERPAGES && d in first.dirs && View(first, d, v).Present? && Inv(first, was)
    requires Fresh(first, was, k.m, k.o, n) && Copied(first, was, k.m, d, n, v, kmap) && UserStock(k.m, n, v, pages)
    modifies k
    ensures ok ==> UserStock(k.m, n, v + 1, pages)
    ensures !ok ==> pages == Need(EmptyDir(), 0, v) + (if lost == NONE then 0 else 1)
    ensures lost != NONE ==> NeedsTable(EmptyDir(), 0, v)
    ensures ok ==> lost == NONE && Fresh(first, was, k.m, k.o, n) && Copied(first, was, k.m, d, n, v + 1, kmap)
    ensures !ok ==> Broken(first, was, k.m, k.o, n, lost)
  {
    lost := NONE;
    UserTable(k.m, n, v, pages);
    ghost var before := k.m;
    Placed(first, was, d, v);
    assert Same(first, k.m, d, v);
    var pte := View(k.m, d, v);
    var x := k.m.data[pte.page];
    if k.m.free == [] {
      FreshBroken(first, was, k.m, k.o, n);
    } else {
      TakenFresh(first, was, k.m, k.o, n);
      TakenCopied(first, was, k.m, d, n, v, kmap);
    }
    var p := k.Kalloc();
    if p == NONE {
      return false, NONE;
    }
    ghost var mid := k.m;
    ok := PlaceCopy(k, n, v, p, pte.flags, x, first, was);
    if ok {
      CopiedMore(first, was, mid, k.m, d, n, v, kmap);
      UserStockMore(before, k.m, n, v, pages);
    } else {
      LostBroken(first, was, k.m, k.o, n, p);
      k.Lose(p);
      lost := p;
    }
  }

  lemma FreshBroken(first: Mem, was: map<int, Place>, m: Mem, o: map<int, Place>, n: int)
    requires Fresh(first, was, m, o, n)
    ensures Broken(first, was, m, o, n, NONE)
  {
  }

  lemma LostBroken(first: Mem, was: map<int, Place>, m: Mem, o: map<int, Place>, n: int, p: int)
    requires Holding(first, was, m, o, n, p) && NONE !in was
    ensures Broken(first, was, m, o[p := Lost], n, p)
  {
    LoseInv(m, o, p);
  }

  /** The copy has failed; the new space is still there. */
  ghost predicate Broken(first: Mem, was: map<int, Place>, m: Mem, o: map<int, Place>, n: int, lost: int) {
    && Inv(m, o) && Quiet(first, m) && m.dirs.Keys == first.dirs.Keys + {n} && n !in first.dirs && KeptBut(was, o, lost)
  }

  /** What is left after a copy that failed: every address space that was there is as it was,
      the new one is gone, and at most one page is out of reach. */
  ghost predicate Undone(first: Mem, was: map<int, Place>, m: Mem, o: map<int, Place>, lost: int) {
    Inv(m, o) && Quiet(first, m) && m.dirs.Keys == first.dirs.Keys && KeptBut(was, o, lost)
  }

  lemma BrokenFreed(first: Mem, was: map<int, Place>, m: Mem, o: map<int, Place>, m': Mem, o': map<int, Place>, n: int,
        lost: int)
    requires Broken(first, was, m, o, n, lost) && Inv(m', o') && m'.dirs.Keys == m.dirs.Keys - {n}
    requires OthersSame(m, m', n)
    requires o'.Keys == o.Keys && forall q :: q in o' ==> if BelongsTo(o, n, q) then o'[q].Free? else o'[q] == o[q]
    ensures Undone(first, was, m', o', lost)
  {
    forall x | x in first.dirs ensures SameOutside(first, m', x, 0, 0) {
      assert SameOutside(first, m, x, 0, 0) && SameOutside(m, m', x, 0, 0);
      forall v | 0 <= v < PAGES ensures Same(first, m', x, v) { assert Same(first, m, x, v) && Same(m, m', x, v); }
    }
    assert n in m.dirs && DirOk(m, o, n);
  }

  /** `copyuvm`. A copy has equal contents and flags in frames that were free, and no other
      address space changes; it is made exactly if there are pages for the directory, the
      kernel's tables, the user pages and their tables. A failure leaves every address space as
      it was. It leaks what `setupkvm` leaks, or loses a page exactly if that was the last one
      free when it was taken for a page whose table was lacking. */
  method CopyUvm(k: Machine, d: int, sz: int, kmap: seq<Range>) returns (n: int, ghost lost: int, ghost leaked: int)
    requires k.Valid() && RangesOk(kmap) && d in k.m.dirs && 0 <= sz <= KERNBASE
    requires forall v :: 0 <= v < Up(sz) ==> View(k.m, d, v).Present?
    modifies k
    ensures n != NONE ==>
      Fresh(old(k.m), old(k.o), k.m, k.o, n) && Copied(old(k.m), old(k.o), k.m, d, n, Up(sz), kmap)
    ensures n == NONE && leaked == NONE ==> Undone(old(k.m), old(k.o), k.m, k.o, lost)
    ensures n == NONE && leaked != NONE ==> Fresh(old(k.m), old(k.o), k.m, k.o, leaked) && k.m.free == []
    ensures n != NONE <==> |old(k.m).free| >= 1 + KernelTables(kmap) + Need(EmptyDir(), 0, Up(sz))
    ensures leaked != NONE <==> 0 < |old(k.m).free| < 1 + KernelTables(kmap)
    ensures lost != NONE <==> Loses(EmptyDir(), 0, Up(sz), |old(k.m).free| - 1 - KernelTables(kmap))
  {
    ghost var first, was := k.m, k.o;
    ListQuiet(k.m, k.o, k.m.free);
    lost := NONE;
    ghost var pages := |k.m.free| - 1 - KernelTables(kmap);
    n, leaked := SetupKvm(k, kmap);
    if n == NONE {
      return;
    }
    SetUp(first, was, k.m, d, n, kmap);
    var ok;
    ok, lost := CopyPages(k, d, n, Up(sz), kmap, first, was, pages);
    if !ok {
      ghost var mid, own := k.m, k.o;
      FreeVm(k, n);
      BrokenFreed(first, was, mid, own, k.m, k.o, n, lost);
      n := NONE;
    }
  }

  lemma SetUp(first: Mem, was: map<int, Place>, m: Mem, d: int, n: int, kmap: seq<Range>)
    requires KernelPart(m, n, kmap, |kmap|)
    ensures Copied(first, was, m, d, n, 0, kmap)
  {
  }

  /** The loop of `copyuvm`. */
  method CopyPages(k: Machine, d: int, n: int, hi: int, kmap: seq<Range>, ghost first: Mem, ghost was: map<int, Place>,
        ghost pages: int)
    returns (ok: bool, ghost lost: int)
    requires RangesOk(kmap) && 0 <= hi <= USERPAGES && d in first.dirs && Inv(first, was)
    requires forall v :: 0 <= v < hi ==> View(first, d, v).Present?
    requires Fresh(first, was, k.m, k.o, n) && Copied(first, was, k.m, d, n, 0, kmap) && UserStock(k.m, n, 0, pages)
    modifies k
    ensures ok ==> Fresh(first, was, k.m, k.o, n) && Copied(first, was, k.m, d, n, hi, kmap)
    ensures !ok ==> Broken(first, was, k.m, k.o, n, lost)
    ensures ok <==> pages >= Need(EmptyDir(), 0, hi)
    ensures lost != NONE <==> Loses(EmptyDir(), 0, hi, pages)
  {
    var v := 0;
    while v < hi
      invariant 0 <= v <= hi && Copying(first, was, k.m, k.o, d, n, v, kmap, pages)
    {
      ghost var at := v;
      ok, lost, v := CopyNext(k, d, n, v, kmap, first, was, pages);
      if !ok {
        LosesExactly(EmptyDir(), 0, at, hi, pages, 0, lost != NONE);
        NeedGrows(EmptyDir(), 0, at + 1, hi);
        return;
      }
    }
    ok, lost := true, NONE;
    LosesExactly(EmptyDir(), 0, v, hi, pages, |k.m.free|, false);
  }

  /** `copyuvm` has copied the first v pages. */
  ghost predicate Copying(first: Mem, was: map<int, Place>, m: Mem, o: map<int, Place>, d: int, n: int, v: int,
        kmap: seq<Range>, pages: int) {
    Fresh(first, was, m, o, n) && Copied(first, was, m, d, n, v, kmap) && UserStock(m, n, v, pages)
  }

  /** One turn of that loop. */
  method CopyNext(k: Machine, d: int, n: int, v: int, kmap: seq<Range>, ghost first: Mem, ghost was: map<int, Place>,
        ghost pages: int)
    returns (ok: bool, ghost lost: int, v': int)
    requires RangesOk(kmap) && 0 <= v < USERPAGES && d in first.dirs && View(first, d, v).Present? && Inv(first, was)
    requires Copying(first, was, k.m, k.o, d, n, v, kmap, pages)
    modifies k
    ensures v' == v + 1 && (ok ==> Copying(first, was, k.m, k.o, d, n, v', kmap, pages))
    ensures !ok ==> pages == Need(EmptyDir(), 0, v) + (if lost == NONE then 0 else 1)
    ensures lost != NONE ==> !ok && NeedsTable(EmptyDir(), 0, v)
    ensures !ok ==> Broken(first, was, k.m, k.o, n, lost)
  {
    ok, lost := CopyPage(k, d, n, v, kmap, first, was, pages);
    v' := v + 1;
  }

  /** With one page free `setupkvm` leaks it, whatever it has to map. */
  lemma SetupLeaks(kmap: seq<Range>) returns (m: Mem, o: map<int, Place>)
    requires RangesOk(kmap) && kmap != []
    ensures Inv(m, o) && 0 < |m.free| < 1 + KernelTables(kmap)
  {
    TablesGrow(kmap, 1, |kmap|);
    TablesForGrow(USERDIR - 1, kmap[0].v, 1, kmap[0].n);
    m, o := FreePages(1);
  }

  /** With pages for the kernel's part and one more, `copyuvm` of a one-page space loses that one. */
  lemma CopyLoses(kmap: seq<Range>) returns (m: Mem, o: map<int, Place>, d: int)
    requires RangesOk(kmap)
    ensures Inv(m, o) && d in m.dirs && View(m, d, 0).Present?
    ensures Loses(EmptyDir(), 0, Up(1), |m.free| - 1 - KernelTables(kmap))
  {
    m, o, d := OnePageSpace(2 + KernelTables(kmap));
    assert NeedsTable(EmptyDir(), 0, 0) && Need(EmptyDir(), 0, 0) == 0;
  }

  /** A machine with n free pages and an address space of one page. */
  lemma OnePageSpace(n: nat) returns (m: Mem, o: map<int, Place>, d: int)
    ensures Inv(m, o) && |m.free| == n && d in m.dirs && View(m, d, 0).Present?
  {
    var t;
    m, o, d, t := OneTableSpace(n + 1);
    var p := m.free[n];
    PopInv(m, o);
    m, o := Popped(m), o[p := Held];
    assert DirOk(m, o, d) && TableOk(m, o, t);
    MapUserInv(m, o, t, 0, p, USERFLAGS, Zero());
    m, o := MapUser(m, t, 0, p, USERFLAGS, Zero()), o[p := UserAt(t, 0)];
  }

  lemma OneTableSpace(n: nat) returns (m: Mem, o: map<int, Place>, d: int, t: int)
    ensures Inv(m, o) && |m.free| == n && d in m.dirs && |m.dirs[d]| == ENTRIES && m.dirs[d][0] == t
    ensures t in m.tables && m.tables[t] == EmptyTable()
  {
    m, o, d := EmptySpace(n + 1);
    t := m.free[n];
    PopInv(m, o);
    m, o := Popped(m), o[t := Held];
    NewTableInv(m, o, d, 0, t);
    m, o := NewTable(m, d, 0, t), o[t := TableOf(d, 0)];
  }

  lemma EmptySpace(n: nat) returns (m: Mem, o: map<int, Place>, d: int)
    ensures Inv(m, o) && |m.free| == n && d in m.dirs && m.dirs[d] == EmptyDir()
  {
    m, o := FreePages(n + 1);
    d := m.free[n];
    PopInv(m, o);
    m, o := Popped(m), o[d := Held];
    NewDirInv(m, o, d);
    m, o := NewDir(m, d), o[d := Dir];
  }

  /** A machine with n free pages. */
  lemma {:induction false} FreePages(n: nat) returns (m: Mem, o: map<int, Place>)
    ensures Inv(m, o) && |m.free| == n && m.dirs == map[] && forall p :: p in o <==> 0 <= p < n
  {
    if n == 0 {
      m, o := Mem([], map[], map[], map[]), map[];
    } else {
      m, o := FreePages(n - 1);
      m, o := Pushed(m, n - 1), o[n - 1 := Free(n - 1)];
    }
  }
}
