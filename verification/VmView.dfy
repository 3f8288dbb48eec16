/** Address spaces: what each virtual page of a directory maps to, and what the updates of
    VmSpec do to that. */
module VmView {
  import opened VmSpec

  const PAGES := ENTRIES * ENTRIES

  /** The table that covers a virtual page, NONE if there is none. */
  function TableFor(m: Mem, d: int, v: int): int {
    if d in m.dirs && 0 <= v < PAGES && |m.dirs[d]| == ENTRIES then m.dirs[d][v / ENTRIES] else NONE
  }

  /** The entry for a virtual page. */
  function View(m: Mem, d: int, v: int): Pte {
    var t := TableFor(m, d, v);
    if t in m.tables && |m.tables[t]| == ENTRIES then m.tables[t][v % ENTRIES] else Absent
  }

  /** Virtual page v of d maps what it mapped, with the same contents. */
  ghost predicate Same(m: Mem, m': Mem, d: int, v: int) {
    && View(m', d, v) == View(m, d, v)
    && (0 <= v < USERPAGES && View(m, d, v).Present? ==>
          var p := View(m, d, v).page; p in m.data && p in m'.data && m'.data[p] == m.data[p])
  }

  ghost predicate SameOutside(m: Mem, m': Mem, d: int, lo: int, hi: int) {
    d in m'.dirs && forall v :: 0 <= v < PAGES && !(lo <= v < hi) ==> Same(m, m', d, v)
  }

  /** Every address space is as it was, but for the pages lo..hi of d. */
  ghost predicate Only(m: Mem, m': Mem, d: int, lo: int, hi: int) {
    forall x :: x in m.dirs ==> SameOutside(m, m', x, if x == d then lo else 0, if x == d then hi else 0)
  }

  ghost predicate Quiet(m: Mem, m': Mem) { Only(m, m', NONE, 0, 0) }

  lemma OnlyTrans(a: Mem, b: Mem, c: Mem, d: int, lo: int, hi: int, mid: int)
    requires Only(a, b, d, lo, mid) && Only(b, c, d, lo, hi) && lo <= mid <= hi
    ensures Only(a, c, d, lo, hi)
  {
    forall x | x in a.dirs ensures SameOutside(a, c, x, if x == d then lo else 0, if x == d then hi else 0) {
      forall v | 0 <= v < PAGES && !((if x == d then lo else 0) <= v < (if x == d then hi else 0))
        ensures Same(a, c, x, v)
      {
        assert Same(a, b, x, v) && Same(b, c, x, v);
      }
    }
  }

  /** The entry for a present user page: its page is owned by that place and has contents. */
  lemma Placed(m: Mem, o: map<int, Place>, d: int, v: int)
    requires Inv(m, o) && 0 <= v < USERPAGES && View(m, d, v).Present?
    ensures d in m.dirs && TableFor(m, d, v) in m.tables && TableFor(m, d, v) in o
    ensures o[TableFor(m, d, v)] == TableOf(d, v / ENTRIES)
    ensures View(m, d, v).page in m.data && View(m, d, v).page in o
    ensures o[View(m, d, v).page] == UserAt(TableFor(m, d, v), v % ENTRIES)
  {
    assert DirOk(m, o, d);
    assert TableOk(m, o, TableFor(m, d, v));
  }

  lemma PageOf(u: int, v: int)
    requires 0 <= u && 0 <= v && u / ENTRIES == v / ENTRIES && u % ENTRIES == v % ENTRIES
    ensures u == v
  {
  }

  /** Changes that leave the directories and tables alone. */
  lemma ListQuiet(m: Mem, o: map<int, Place>, free: seq<int>)
    requires Inv(m, o)
    ensures Quiet(m, m.(free := free))
  {
    forall x | x in m.dirs ensures SameOutside(m, m.(free := free), x, 0, 0) {
      forall v | 0 <= v < PAGES ensures Same(m, m.(free := free), x, v) {
        if v < USERPAGES && View(m, x, v).Present? { Placed(m, o, x, v); }
      }
    }
  }

  lemma NewDirQuiet(m: Mem, o: map<int, Place>, p: int)
    requires Inv(m, o) && p in o && o[p] == Held
    ensures Quiet(m, NewDir(m, p))
    ensures forall v :: 0 <= v < PAGES ==> View(NewDir(m, p), p, v) == Absent
  {
    var m' := NewDir(m, p);
    assert p !in m.dirs && NONE !in m.tables;
    forall x | x in m.dirs ensures SameOutside(m, m', x, 0, 0) {
      forall v | 0 <= v < PAGES ensures Same(m, m', x, v) {
        if v < USERPAGES && View(m, x, v).Present? { Placed(m, o, x, v); }
      }
    }
  }

  lemma NewTableQuiet(m: Mem, o: map<int, Place>, d: int, i: int, p: int)
    requires Inv(m, o) && p in o && o[p] == Held && d in m.dirs && 0 <= i < ENTRIES && |m.dirs[d]| == ENTRIES
    requires m.dirs[d][i] == NONE
    ensures Quiet(m, NewTable(m, d, i, p))
  {
    var m' := NewTable(m, d, i, p);
    assert p !in m.tables && NONE !in m.tables;
    forall x | x in m.dirs ensures SameOutside(m, m', x, 0, 0) {
      assert DirOk(m, o, x);
      forall v | 0 <= v < PAGES ensures Same(m, m', x, v) {
        if v < USERPAGES && View(m, x, v).Present? { Placed(m, o, x, v); }
      }
    }
  }

  /** An entry of the table for v of d is set, and no other. */
  lemma SetPteView(m: Mem, o: map<int, Place>, d: int, v: int, e: Pte, x: int, u: int)
    requires Inv(m, o) && d in m.dirs && x in m.dirs && 0 <= v < PAGES && 0 <= u < PAGES
    requires TableFor(m, d, v) in m.tables && |m.tables[TableFor(m, d, v)]| == ENTRIES
    ensures View(SetPte(m, TableFor(m, d, v), v % ENTRIES, e), x, u) == if x == d && u == v then e else View(m, x, u)
  {
    assert DirOk(m, o, d) && DirOk(m, o, x);
    var t := TableFor(m, d, v);
    assert o[t] == TableOf(d, v / ENTRIES);
    if TableFor(m, x, u) == t {
      assert o[t] == TableOf(x, u / ENTRIES);
      if u % ENTRIES == v % ENTRIES { PageOf(u, v); }
    }
  }

  lemma KernelPteOnly(m: Mem, o: map<int, Place>, d: int, v: int, e: Pte)
    requires Inv(m, o) && d in m.dirs && USERPAGES <= v < PAGES
    requires TableFor(m, d, v) in m.tables && |m.tables[TableFor(m, d, v)]| == ENTRIES
    ensures Only(m, SetPte(m, TableFor(m, d, v), v % ENTRIES, e), d, v, v + 1)
    ensures View(SetPte(m, TableFor(m, d, v), v % ENTRIES, e), d, v) == e
  {
    var m' := SetPte(m, TableFor(m, d, v), v % ENTRIES, e);
    forall x | x in m.dirs ensures SameOutside(m, m', x, if x == d then v else 0, if x == d then v + 1 else 0) {
      forall u | 0 <= u < PAGES && !(x == d && u == v) ensures Same(m, m', x, u) {
        SetPteView(m, o, d, v, e, x, u);
        if u < USERPAGES && View(m, x, u).Present? { Placed(m, o, x, u); }
      }
    }
    SetPteView(m, o, d, v, e, d, v);
  }

  lemma MapUserOnly(m: Mem, o: map<int, Place>, d: int, v: int, p: int, flags: int, y: Data)
    requires Inv(m, o) && d in m.dirs && 0 <= v < USERPAGES && p in o && o[p] == Held
    requires TableFor(m, d, v) in m.tables && |m.tables[TableFor(m, d, v)]| == ENTRIES
    ensures var m' := MapUser(m, TableFor(m, d, v), v % ENTRIES, p, flags, y);
      Only(m, m', d, v, v + 1) && View(m', d, v) == Present(p, flags) && m'.data[p] == y
  {
    var m' := MapUser(m, TableFor(m, d, v), v % ENTRIES, p, flags, y);
    forall x | x in m.dirs ensures SameOutside(m, m', x, if x == d then v else 0, if x == d then v + 1 else 0) {
      forall u | 0 <= u < PAGES && !(x == d && u == v) ensures Same(m, m', x, u) {
        SetPteView(m, o, d, v, Present(p, flags), x, u);
        if u < USERPAGES && View(m, x, u).Present? { Placed(m, o, x, u); }
      }
    }
    SetPteView(m, o, d, v, Present(p, flags), d, v);
  }

  lemma UnmapOnly(m: Mem, o: map<int, Place>, d: int, v: int)
    requires Inv(m, o) && d in m.dirs && 0 <= v < USERPAGES && View(m, d, v).Present?
    ensures var m' := Unmap(m, TableFor(m, d, v), v % ENTRIES);
      Only(m, m', d, v, v + 1) && View(m', d, v) == Absent
  {
    Placed(m, o, d, v);
    var m' := Unmap(m, TableFor(m, d, v), v % ENTRIES);
    forall x | x in m.dirs ensures SameOutside(m, m', x, if x == d then v else 0, if x == d then v + 1 else 0) {
      forall u | 0 <= u < PAGES && !(x == d && u == v) ensures Same(m, m', x, u) {
        SetPteView(m, o, d, v, Absent, x, u);
        if u < USERPAGES && View(m, x, u).Present? {
          Placed(m, o, x, u);
          if View(m, x, u).page == View(m, d, v).page { PageOf(u, v); }
        }
      }
    }
    SetPteView(m, o, d, v, Absent, d, v);
  }
}
