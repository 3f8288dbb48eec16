/** The user-level allocator (umalloc.c): a circular free list in address order.

    Addresses count headers (8 bytes). Address 0 is the null pointer. */
module FreeLists {
  datatype Block = Block(addr: nat, size: nat) {
    function End(): nat { addr + size }
  }

  datatype Header = Header(ptr: nat, size: nat)

  /** The free list in address order: the empty `base` block first, then blocks that are
      neither empty nor adjacent. */
  ghost predicate FreeList(fl: seq<Block>, base: nat) {
    && |fl| > 0 && fl[0] == Block(base, 0)
    && (forall i :: 0 < i < |fl| ==> fl[i].size > 0)
    && (forall i, j :: 0 <= i < j < |fl| ==> fl[i].End() < fl[j].addr)
  }

  function Next(k: nat, n: nat): (r: nat)
    requires k < n
    ensures r < n
  {
    if k + 1 == n then 0 else k + 1
  }

  /** Memory holds the list as a ring: each header names the next block, the last one base. */
  ghost predicate Ring(mem: map<nat, Header>, fl: seq<Block>) {
    forall k {:trigger Next(k, |fl|)} {:trigger mem[fl[k].addr]} :: 0 <= k < |fl| ==>
      fl[k].addr in mem && mem[fl[k].addr] == Header(fl[Next(k, |fl|)].addr, fl[k].size)
  }

  /** Unit x belongs to a free block. */
  ghost predicate Free(fl: seq<Block>, x: nat) {
    exists i :: 0 <= i < |fl| && fl[i].addr <= x < fl[i].End()
  }

  /** Unit x belongs to an allocated block; `live` gives the size of each. */
  ghost predicate Used(live: map<nat, nat>, x: nat) {
    exists a :: a in live && a <= x < a + live[a]
  }

  /** Allocated blocks are disjoint from each other and from the free ones. */
  ghost predicate Disjoint(fl: seq<Block>, live: map<nat, nat>) {
    && (forall a :: a in live ==> live[a] > 0)
    && (forall a, b :: a in live && b in live && a < b ==> a + live[a] <= b)
    && (forall a, i :: a in live && 0 <= i < |fl| ==> fl[i].End() <= a || a + live[a] <= fl[i].addr)
  }

  /** Every unit got from sbrk is in exactly one block, and no other unit is in any. */
  ghost predicate Partition(fl: seq<Block>, live: map<nat, nat>, arena: set<nat>) {
    forall x :: x in arena <==> Free(fl, x) || Used(live, x)
  }

  /** The place where a block at `addr` belongs: behind fl[p]. */
  ghost predicate Place(fl: seq<Block>, p: nat, addr: nat) {
    && p < |fl| && fl[p].addr < addr
    && (p + 1 < |fl| ==> addr < fl[p + 1].addr)
  }

  /** `free`, first half: b goes behind fl[p], taking in the block it touches above. */
  function InsertUp(fl: seq<Block>, p: nat, b: Block): seq<Block>
    requires p < |fl|
  {
    if p + 1 < |fl| && b.End() == fl[p + 1].addr
    then fl[p + 1 := Block(b.addr, b.size + fl[p + 1].size)]
    else fl[..p + 1] + [b] + fl[p + 1..]
  }

  /** `free`, second half: fl[p] takes in the block behind it if they touch. */
  function MergeDown(fl: seq<Block>, p: nat): seq<Block>
    requires p + 1 < |fl|
  {
    if fl[p].End() == fl[p + 1].addr
    then fl[..p] + [Block(fl[p].addr, fl[p].size + fl[p + 1].size)] + fl[p + 2..]
    else fl
  }

  /** A free list in which fl[p] and its successor may touch. */
  ghost predicate AlmostFreeList(fl: seq<Block>, base: nat, p: nat) {
    && p + 1 < |fl| && fl[0] == Block(base, 0)
    && (forall i :: 0 < i < |fl| ==> fl[i].size > 0)
    && (forall i, j :: 0 <= i < j < |fl| && j != p + 1 ==> fl[i].End() < fl[j].addr)
    && (forall i :: 0 <= i < p ==> fl[i].End() < fl[p + 1].addr)
    && fl[p].End() <= fl[p + 1].addr && fl[p].addr < fl[p + 1].addr
  }

  /** Putting b into a gap it does not fill upwards. */
  lemma PutIn(fl: seq<Block>, base: nat, p: nat, b: Block)
    requires FreeList(fl, base) && p < |fl| && fl[p].addr < b.addr && fl[p].End() <= b.addr && b.size > 0
    requires forall j :: p < j < |fl| ==> b.End() < fl[j].addr
    requires forall i :: 0 <= i < p ==> fl[i].End() < b.addr
    ensures AlmostFreeList(fl[..p + 1] + [b] + fl[p + 1..], base, p)
  {
    var g := fl[..p + 1] + [b] + fl[p + 1..];
    forall i | 0 < i < |g| ensures g[i].size > 0 { PutAt(fl, p, b, i); }
    forall i, j | 0 <= i < j < |g| && j != p + 1 ensures g[i].End() < g[j].addr {
      PutAt(fl, p, b, i);
      PutAt(fl, p, b, j);
    }
    PutAt(fl, p, b, 0);
    PutAt(fl, p, b, p);
    PutAt(fl, p, b, p + 1);
  }

  /** The blocks of a list with b put in after block p. */
  lemma PutAt(fl: seq<Block>, p: nat, b: Block, i: nat)
    requires p < |fl| && i <= |fl|
    ensures (fl[..p + 1] + [b] + fl[p + 1..])[i] == if i <= p then fl[i] else if i == p + 1 then b else fl[i - 1]
  {
  }

  lemma InsertUpList(fl: seq<Block>, base: nat, p: nat, b: Block)
    requires FreeList(fl, base) && Place(fl, p, b.addr) && b.size > 0
    requires fl[p].End() <= b.addr && (p + 1 < |fl| ==> b.End() <= fl[p + 1].addr)
    ensures AlmostFreeList(InsertUp(fl, p, b), base, p)
  {
    if p + 1 == |fl| || b.End() < fl[p + 1].addr {
      PutIn(fl, base, p, b);
    }
  }

  lemma MergeDownList(fl: seq<Block>, base: nat, p: nat)
    requires AlmostFreeList(fl, base, p)
    ensures FreeList(MergeDown(fl, p), base)
  {
    if fl[p].End() == fl[p + 1].addr {
      MergeAt(fl, p, 0);
      forall i | 0 <= i < |MergeDown(fl, p)| ensures MergedAt(MergeDown(fl, p), fl, p, i) { MergeAt(fl, p, i); }
      MergedList(MergeDown(fl, p), fl, base, p);
    }
  }

  /** Block i of list g is that of fl with blocks p and p + 1 as one. */
  ghost predicate MergedAt(g: seq<Block>, fl: seq<Block>, p: nat, i: nat)
    requires p + 1 < |fl| && |g| == |fl| - 1 && i < |g|
  {
    g[i] == if i < p then fl[i] else if i == p then Block(fl[p].addr, fl[p].size + fl[p + 1].size) else fl[i + 1]
  }

  lemma MergedList(g: seq<Block>, fl: seq<Block>, base: nat, p: nat)
    requires AlmostFreeList(fl, base, p) && fl[p].End() == fl[p + 1].addr
    requires |g| == |fl| - 1 && forall i :: 0 <= i < |g| ==> MergedAt(g, fl, p, i)
    ensures FreeList(g, base)
  {
    assert p > 0 && MergedAt(g, fl, p, 0);
    forall i | 0 < i < |g| ensures g[i].size > 0 { assert MergedAt(g, fl, p, i); }
    forall i, j | 0 <= i < j < |g| ensures g[i].End() < g[j].addr {
      assert MergedAt(g, fl, p, i) && MergedAt(g, fl, p, j);
    }
  }

  /** The blocks after p and the block behind it have become one. */
  lemma MergeAt(fl: seq<Block>, p: nat, i: nat)
    requires p + 1 < |fl| && fl[p].End() == fl[p + 1].addr && i < |fl| - 1
    ensures |MergeDown(fl, p)| == |fl| - 1 && MergedAt(MergeDown(fl, p), fl, p, i)
  {
  }

  /** Merging keeps the same units free. */
  lemma MergeDownUnits(fl: seq<Block>, base: nat, p: nat, x: nat)
    requires AlmostFreeList(fl, base, p)
    ensures Free(MergeDown(fl, p), x) == Free(fl, x)
  {
    if fl[p].End() == fl[p + 1].addr {
      if Free(fl, x) { UnitsMerge(fl, p, x); }
      if Free(MergeDown(fl, p), x) { UnitsSplit(fl, p, x); }
    }
  }

  lemma IsFree(fl: seq<Block>, i: nat, x: nat)
    requires i < |fl| && fl[i].addr <= x < fl[i].End()
    ensures Free(fl, x)
  {
  }

  lemma UnitsMerge(fl: seq<Block>, p: nat, x: nat)
    requires p + 1 < |fl| && fl[p].End() == fl[p + 1].addr && Free(fl, x)
    ensures Free(MergeDown(fl, p), x)
  {
    var i :| 0 <= i < |fl| && fl[i].addr <= x < fl[i].End();
    var j := if i <= p then i else i - 1;
    MergeAt(fl, p, j);
    IsFree(MergeDown(fl, p), j, x);
  }

  lemma UnitsSplit(fl: seq<Block>, p: nat, x: nat)
    requires p + 1 < |fl| && fl[p].End() == fl[p + 1].addr && Free(MergeDown(fl, p), x)
    ensures Free(fl, x)
  {
    var g := MergeDown(fl, p);
    MergeAt(fl, p, p);
    var j :| 0 <= j < |g| && g[j].addr <= x < g[j].End();
    MergeAt(fl, p, j);
    IsFree(fl, if j < p || (j == p && x < fl[p].End()) then j else j + 1, x);
  }

  /** Inserting adds exactly the units of b. */
  lemma InsertUpUnits(fl: seq<Block>, base: nat, p: nat, b: Block, x: nat)
    requires FreeList(fl, base) && Place(fl, p, b.addr)
    ensures Free(InsertUp(fl, p, b), x) == (Free(fl, x) || b.addr <= x < b.End())
  {
    var g := InsertUp(fl, p, b);
    if p + 1 < |fl| && b.End() == fl[p + 1].addr {
      if Free(g, x) {
        var i :| 0 <= i < |g| && g[i].addr <= x < g[i].End();
        assert i != p + 1 ==> fl[i].addr <= x < fl[i].End();
      }
      if Free(fl, x) {
        var i :| 0 <= i < |fl| && fl[i].addr <= x < fl[i].End();
        assert g[i].addr <= x < g[i].End();
      }
      assert b.addr <= x < b.End() ==> g[p + 1].addr <= x < g[p + 1].End();
    } else {
      PutInUnits(fl, p, b, x);
    }
  }

  lemma PutInUnits(fl: seq<Block>, p: nat, b: Block, x: nat)
    requires p < |fl|
    ensures Free(fl[..p + 1] + [b] + fl[p + 1..], x) == (Free(fl, x) || b.addr <= x < b.End())
  {
    var g := fl[..p + 1] + [b] + fl[p + 1..];
    if Free(g, x) {
      var i :| 0 <= i < |g| && g[i].addr <= x < g[i].End();
      if i > p + 1 { assert g[i] == fl[i - 1]; }
    }
    if Free(fl, x) {
      var i :| 0 <= i < |fl| && fl[i].addr <= x < fl[i].End();
      assert g[if i <= p then i else i + 1] == fl[i];
    }
    assert g[p + 1] == b;
  }

  /** A ring in which the pointer of fl[p] is still to be set. */
  ghost predicate AlmostRing(mem: map<nat, Header>, fl: seq<Block>, p: nat) {
    && p < |fl| && fl[p].addr in mem && mem[fl[p].addr].size == fl[p].size
    && forall k {:trigger Next(k, |fl|)} {:trigger mem[fl[k].addr]} :: 0 <= k < |fl| && k != p ==>
         fl[k].addr in mem && mem[fl[k].addr] == Header(fl[Next(k, |fl|)].addr, fl[k].size)
  }

  /** The header that the first half of `free` writes for b. */
  function UpHeader(mem: map<nat, Header>, p: nat, b: Block): Header
    requires p in mem && mem[p].ptr in mem
  {
    var q := mem[p].ptr;
    if b.End() == q then Header(mem[q].ptr, b.size + mem[q].size) else Header(q, b.size)
  }

  /** When b takes in the block above it. */
  lemma TakeInRing(mem: map<nat, Header>, fl: seq<Block>, base: nat, p: nat, b: Block)
    requires FreeList(fl, base) && Ring(mem, fl) && p + 1 < |fl| && b.End() == fl[p + 1].addr
    requires forall i :: 0 <= i < |fl| ==> fl[i].addr != b.addr
    ensures fl[p].addr in mem && mem[fl[p].addr].ptr in mem
    ensures AlmostRing(mem[b.addr := UpHeader(mem, fl[p].addr, b)],
                       fl[p + 1 := Block(b.addr, b.size + fl[p + 1].size)], p)
  {
    var g := fl[p + 1 := Block(b.addr, b.size + fl[p + 1].size)];
    assert Next(p, |fl|) == p + 1;
    var n2 := Next(p + 1, |fl|);
    forall k | 0 <= k < |g| && k != p
      ensures g[k].addr != fl[p].addr && Next(k, |g|) != p + 1
    {
    }
  }

  /** When b touches nothing above it. */
  lemma PutInRing(mem: map<nat, Header>, fl: seq<Block>, base: nat, p: nat, b: Block)
    requires FreeList(fl, base) && Ring(mem, fl) && p < |fl| && b.End() != fl[Next(p, |fl|)].addr
    requires forall i :: 0 <= i < |fl| ==> fl[i].addr != b.addr
    ensures fl[p].addr in mem && mem[fl[p].addr].ptr in mem
    ensures AlmostRing(mem[b.addr := UpHeader(mem, fl[p].addr, b)], fl[..p + 1] + [b] + fl[p + 1..], p)
  {
    var g := fl[..p + 1] + [b] + fl[p + 1..];
    PutInHeader(mem, fl, p, b);
    var m := mem[b.addr := UpHeader(mem, fl[p].addr, b)];
    forall k | 0 <= k < |g| && k != p
      ensures g[k].addr in m && m[g[k].addr] == Header(g[Next(k, |g|)].addr, g[k].size)
    {
      PutInRingAt(mem, fl, p, b, k);
    }
  }

  lemma PutInHeader(mem: map<nat, Header>, fl: seq<Block>, p: nat, b: Block)
    requires Ring(mem, fl) && p < |fl| && b.End() != fl[Next(p, |fl|)].addr
    ensures fl[p].addr in mem && mem[fl[p].addr].ptr in mem && mem[fl[p].addr].size == fl[p].size
    ensures UpHeader(mem, fl[p].addr, b) == Header(fl[Next(p, |fl|)].addr, b.size)
  {
    assert Next(Next(p, |fl|), |fl|) < |fl|;
  }

  lemma PutInRingAt(mem: map<nat, Header>, fl: seq<Block>, p: nat, b: Block, k: nat)
    requires Ring(mem, fl) && p < |fl| && k <= |fl| && k != p
    requires forall i :: 0 <= i < |fl| ==> fl[i].addr != b.addr
    ensures var g, m := fl[..p + 1] + [b] + fl[p + 1..], mem[b.addr := Header(fl[Next(p, |fl|)].addr, b.size)];
      g[k].addr in m && m[g[k].addr] == Header(g[Next(k, |g|)].addr, g[k].size)
  {
    PutInNext(fl, p, b, k);
    var k' := if k < p then k else k - 1;
    assert Next(k', |fl|) < |fl|;
  }

  lemma InsertUpRing(mem: map<nat, Header>, fl: seq<Block>, base: nat, p: nat, b: Block)
    requires FreeList(fl, base) && Ring(mem, fl) && Place(fl, p, b.addr)
    requires forall i :: 0 <= i < |fl| ==> fl[i].addr != b.addr
    ensures fl[p].addr in mem && mem[fl[p].addr].ptr in mem
    ensures AlmostRing(mem[b.addr := UpHeader(mem, fl[p].addr, b)], InsertUp(fl, p, b), p)
  {
    if p + 1 < |fl| && b.End() == fl[p + 1].addr {
      TakeInRing(mem, fl, base, p, b);
    } else {
      PutInRing(mem, fl, base, p, b);
    }
  }

  /** Where the successor of each old block is once b stands behind fl[p]. */
  lemma PutInNext(fl: seq<Block>, p: nat, b: Block, k: nat)
    requires p < |fl| && k <= |fl| && k != p
    ensures var g := fl[..p + 1] + [b] + fl[p + 1..];
      if k == p + 1 then g[k] == b && g[Next(k, |g|)] == fl[Next(p, |fl|)]
      else var k' := if k < p then k else k - 1;
        g[k] == fl[k'] && g[Next(k, |g|)] == fl[Next(k', |fl|)]
  {
  }

  /** The header that the second half of `free` writes for p, with bp behind it. */
  function DownHeader(mem: map<nat, Header>, p: nat, bp: nat): Header
    requires p in mem && bp in mem
  {
    if p + mem[p].size == bp then Header(mem[bp].ptr, mem[p].size + mem[bp].size) else Header(bp, mem[p].size)
  }

  lemma MergeDownRing(mem: map<nat, Header>, fl: seq<Block>, base: nat, p: nat)
    requires AlmostFreeList(fl, base, p) && AlmostRing(mem, fl, p)
    ensures fl[p + 1].addr in mem
    ensures Ring(mem[fl[p].addr := DownHeader(mem, fl[p].addr, fl[p + 1].addr)], MergeDown(fl, p))
  {
    var n := Next(p + 1, |fl|);
    if fl[p].End() == fl[p + 1].addr {
      MergedRing(mem, fl, base, p);
    } else {
      var m := mem[fl[p].addr := DownHeader(mem, fl[p].addr, fl[p + 1].addr)];
      assert forall k :: 0 <= k < |fl| && k != p ==> fl[k].addr != fl[p].addr;
    }
  }

  lemma MergedRing(mem: map<nat, Header>, fl: seq<Block>, base: nat, p: nat)
    requires AlmostFreeList(fl, base, p) && AlmostRing(mem, fl, p) && fl[p].End() == fl[p + 1].addr
    requires fl[p + 1].addr in mem
    ensures Ring(mem[fl[p].addr := DownHeader(mem, fl[p].addr, fl[p + 1].addr)], MergeDown(fl, p))
  {
    var g := MergeDown(fl, p);
    var m := mem[fl[p].addr := DownHeader(mem, fl[p].addr, fl[p + 1].addr)];
    forall k | 0 <= k < |g|
      ensures g[k].addr in m && m[g[k].addr] == Header(g[Next(k, |g|)].addr, g[k].size)
    {
      MergedRingAt(mem, fl, base, p, k);
    }
  }

  lemma MergedRingAt(mem: map<nat, Header>, fl: seq<Block>, base: nat, p: nat, k: nat)
    requires AlmostFreeList(fl, base, p) && AlmostRing(mem, fl, p) && fl[p].End() == fl[p + 1].addr
    requires fl[p + 1].addr in mem && k < |MergeDown(fl, p)|
    ensures var g, m := MergeDown(fl, p), mem[fl[p].addr := DownHeader(mem, fl[p].addr, fl[p + 1].addr)];
      g[k].addr in m && m[g[k].addr] == Header(g[Next(k, |g|)].addr, g[k].size)
  {
    MergeNext(fl, p, k);
    var k' := if k < p then k else k + 1;
    assert Next(k', |fl|) < |fl| && Next(p + 1, |fl|) < |fl|;
    if k != p { assert fl[k'].addr != fl[p].addr; }
  }

  /** Where the successor of each block is once fl[p] has taken in fl[p + 1]. */
  lemma MergeNext(fl: seq<Block>, p: nat, k: nat)
    requires 0 < p && p + 1 < |fl| && fl[p].End() == fl[p + 1].addr && k + 1 < |fl|
    ensures var g := MergeDown(fl, p);
      && |g| == |fl| - 1
      && g[Next(k, |g|)].addr == fl[Next(if k < p then k else k + 1, |fl|)].addr
      && if k == p then g[k] == Block(fl[p].addr, fl[p].size + fl[p + 1].size)
         else g[k] == fl[if k < p then k else k + 1]
  {
  }
}

module Umalloc {
  import opened Common
  import opened FreeLists

  /** What the memory stands for: the free list in address order (base first), the allocated
      blocks with their sizes, the units got from sbrk, and the break. */
  datatype Blocks = Blocks(fl: seq<Block>, live: map<nat, nat>, arena: set<nat>, brk: nat)

  /** freep points into a well-formed ring of free blocks. */
  ghost predicate Listed(mem: map<nat, Header>, freep: nat, base: nat, fl: seq<Block>) {
    FreeList(fl, base) && Ring(mem, fl) && exists f :: 0 <= f < |fl| && fl[f].addr == freep
  }

  /** Allocated blocks keep their headers. */
  ghost predicate Headed(mem: map<nat, Header>, base: nat, live: map<nat, nat>) {
    forall a :: a in live ==> base < a && a in mem && mem[a].size == live[a]
  }

  ghost predicate BelowBreak(fl: seq<Block>, live: map<nat, nat>, brk: nat) {
    && (forall i :: 0 <= i < |fl| ==> fl[i].End() <= brk)
    && (forall a :: a in live ==> a + live[a] <= brk)
  }

  ghost predicate HeapOk(mem: map<nat, Header>, freep: nat, base: nat, g: Blocks) {
    && 0 < base < g.brk && BelowBreak(g.fl, g.live, g.brk)
    && Partition(g.fl, g.live, g.arena) && Disjoint(g.fl, g.live) && Headed(mem, base, g.live)
    && (if freep == 0 then g.fl == [] && g.live == map[] else Listed(mem, freep, base, g.fl))
  }

  class Heap {
    const base: nat
    var mem: map<nat, Header>
    var freep: nat
    ghost var g: Blocks

    ghost predicate Valid()
      reads this
    {
      HeapOk(mem, freep, base, g)
    }

    /** The search loop of `free`: walk the ring to the block behind which bp belongs. */
    method FindPlace(bp: nat) returns (p: nat, ghost t: nat)
      requires Listed(mem, freep, base, g.fl) && base < bp && forall i :: 0 <= i < |g.fl| ==> g.fl[i].addr != bp
      ensures Place(g.fl, t, bp) && g.fl[t].addr == p
    {
      ghost var fl := g.fl;
      ghost var last := LastBelow(fl, bp);
      p := freep;
      t :| 0 <= t < |fl| && fl[t].addr == freep;
      RingAt(mem, fl, t);
      while !(bp > p && bp < mem[p].ptr)
        invariant 0 <= t < |fl| && p == fl[t].addr && p in mem && mem[p].ptr == fl[Next(t, |fl|)].addr
        decreases if t <= last then last - t else last - t + |fl|
      {
        PlaceStep(fl, base, t, last, bp);
        if p >= mem[p].ptr && (bp > p || bp < mem[p].ptr) {
          break;
        }
        t := Next(t, |fl|);
        RingAt(mem, fl, t);
        p := mem[p].ptr;
      }
      PlaceFound(fl, base, t, bp);
    }

    /** The pointer writes of `free`, behind p. */
    method Splice(p: nat, bp: nat)
      requires p in mem && bp in mem && mem[p].ptr in mem && p != bp
      modifies this`mem, this`freep
      ensures mem == FreedMem(old(mem), p, bp) && freep == p
    {
      if bp + mem[bp].size == mem[p].ptr {
        var q := mem[p].ptr;
        mem := mem[bp := Header(mem[q].ptr, mem[bp].size + mem[q].size)];
      } else {
        mem := mem[bp := mem[bp].(ptr := mem[p].ptr)];
      }
      if p + mem[p].size == bp {
        mem := mem[p := Header(mem[bp].ptr, mem[p].size + mem[bp].size)];
      } else {
        mem := mem[p := mem[p].(ptr := bp)];
      }
      freep := p;
    }

    /** Return the allocated block at ap to the free list. */
    method Release(ap: nat)
      requires Valid() && ap > 0 && ap - 1 in g.live
      modifies this
      ensures Valid() && freep != 0
      ensures g == Released(old(g), ap - 1, g.fl) && Fits(g.fl, old(g).live[ap - 1])
    {
      var bp := ap - 1;
      LiveNotFree(g.fl, base, g.live, bp);
      var p, t := FindPlace(bp);
      ReleaseOk(mem, base, g, t, bp);
      Splice(p, bp);
      ReleasedFits(g.fl, t, Block(bp, g.live[bp]));
      g := Released(g, bp, MergeDown(InsertUp(g.fl, t, Block(bp, g.live[bp])), t));
    }

    constructor (base: nat, brk: nat)
      requires 0 < base < brk
      ensures Valid() && freep == 0 && g == Blocks([], map[], {}, brk)
    {
      this.base := base;
      mem := map[];
      freep := 0;
      g := Blocks([], map[], {}, brk);
    }

    /** Get at least nu units from sbrk and free them into the list. `grow` is where sbrk puts
        them, at or above the break, or None if it fails. */
    method Morecore(nu: nat, grow: Option<nat>) returns (ok: bool)
      requires Valid() && freep != 0 && nu > 0 && (grow.Some? ==> grow.value >= g.brk)
      modifies this
      ensures Valid() && freep != 0 && ok == grow.Some? && g.live == old(g).live
      ensures !ok ==> g == old(g)
      ensures ok ==> Fits(g.fl, nu) && g.brk == grow.value + CoreUnits(nu)
                     && g.arena == old(g).arena + Cells(grow.value, CoreUnits(nu))
    {
      if grow.None? { return false; }
      var n := if nu < 4096 then 4096 else nu;
      AddCore(grow.value, n);
      GrownReleased(old(g), grow.value, n, g.fl);
      ok := true;
    }

    /** The writes of `malloc` that take nunits from the free block p, which follows prevp. */
    method Carve(prevp: nat, p: nat, nunits: nat) returns (q: nat)
      requires prevp in mem && p in mem && nunits <= mem[p].size
      modifies this`mem, this`freep
      ensures mem == CarvedMem(old(mem), prevp, p, nunits) && freep == prevp
      ensures q == p + old(mem)[p].size - nunits
    {
      q := p;
      if mem[p].size == nunits {
        mem := mem[prevp := mem[prevp].(ptr := mem[p].ptr)];
      } else {
        mem := mem[p := mem[p].(size := mem[p].size - nunits)];
        q := p + mem[p].size;
        mem := mem[q := Header(0, nunits)];
      }
      freep := prevp;
    }

    /** The n fresh units at hp become a block, which is then freed. */
    method AddCore(hp: nat, n: nat)
      requires Valid() && freep != 0 && n > 0 && hp >= g.brk
      modifies this
      ensures Valid() && freep != 0 && hp !in old(g).live
      ensures g == Released(Grown(old(g), hp, n), hp, g.fl) && Fits(g.fl, n)
    {
      GrowOk(mem, freep, base, g, hp, n);
      mem := mem[hp := Header(0, n)];
      g := Grown(g, hp, n);
      Release(hp + 1);
    }

    /** Take nunits from free block k, which follows block j. */
    method Take(prevp: nat, p: nat, nunits: nat, ghost j: nat, ghost k: nat) returns (r: nat)
      requires Valid() && freep != 0 && j < |g.fl| && k == Next(j, |g.fl|)
      requires prevp == g.fl[j].addr && p == g.fl[k].addr && 0 < nunits <= g.fl[k].size
      modifies this
      ensures Valid() && freep != 0 && r > 0 && r - 1 == TakenAt(old(g).fl, k, nunits)
      ensures r - 1 !in old(g).live && g == Taken(old(g), k, nunits)
      ensures g.live == old(g).live[r - 1 := nunits] && g.arena == old(g).arena
    {
      ghost var was, now, at := g, Taken(g, k, nunits), TakenAt(g.fl, k, nunits);
      TakeStep(mem, freep, base, was, j, k, nunits);
      assert now.live == was.live[at := nunits] && now.arena == was.arena;
      var q := Carve(prevp, p, nunits);
      assert q == at;
      r := q + 1;
      g := now;
      assert HeapOk(mem, freep, base, g);
    }

    /** `base.s.ptr = freep = prevp = &base` on the first call. */
    method Start()
      requires Valid()
      modifies this
      ensures Valid() && freep != 0
      ensures g == if old(freep) == 0 then old(g).(fl := [Block(base, 0)]) else old(g)
    {
      if freep == 0 {
        mem := mem[base := Header(base, 0)];
        freep := base;
        StartOk(mem, base, g);
        g := g.(fl := [Block(base, 0)]);
      }
    }

    /** The turns of the loop in `malloc` from freep until a block fits or p is freep again. */
    method Walk(nunits: nat) returns (found: bool, prevp: nat, p: nat, ghost j: nat, ghost k: nat)
      requires freep != 0 && Listed(mem, freep, base, g.fl)
      ensures j < |g.fl| && k == Next(j, |g.fl|) && prevp == g.fl[j].addr && p == g.fl[k].addr
      ensures found == Fits(g.fl, nunits) && (found ==> g.fl[k].size >= nunits)
    {
      ghost var fl := g.fl;
      ghost var f: nat :| 0 <= f < |fl| && fl[f].addr == freep;
      prevp := freep;
      RingAt(mem, fl, f);
      p := mem[prevp].ptr;
      j, k := f, Next(f, |fl|);
      while true
        invariant At(fl, f, j, k, freep, prevp, p) && Passed(fl, f, k, nunits)
        decreases |fl| - Steps(f, k, |fl|)
      {
        RingAt(mem, fl, k);
        if mem[p].size >= nunits {
          return true, prevp, p, j, k;
        }
        if p == freep {
          AllPassed(fl, base, f, k, nunits);
          return false, prevp, p, j, k;
        }
        PassOne(fl, base, f, k, nunits);
        prevp, p, j, k := p, mem[p].ptr, k, Next(k, |fl|);
      }
    }

    /** Allocate nbytes: the address behind the header of a block of Units(nbytes) units, or 0.
        `grow` is the answer of sbrk, should it be asked. The request must not be so large that
        `nunits` or the argument of sbrk wraps around. */
    method Malloc(nbytes: nat, grow: Option<nat>) returns (r: nat)
      requires Valid() && NoWrap(nbytes) && (grow.Some? ==> grow.value >= g.brk)
      modifies this
      ensures Valid() && freep != 0
      ensures r == 0 <==> !Fits(old(g).fl, Units(nbytes)) && grow.None?
      ensures r == 0 ==> g.live == old(g).live && g.arena == old(g).arena
      ensures r != 0 ==> r - 1 !in old(g).live && g.live == old(g).live[r - 1 := Units(nbytes)]
      ensures r != 0 ==> g.arena == if Fits(old(g).fl, Units(nbytes)) then old(g).arena
                         else old(g).arena + Cells(grow.value, CoreUnits(Units(nbytes)))
    {
      var nunits := Units(nbytes);
      Start();
      StartFits(old(g).fl, base, nunits);
      ghost var g0 := g;
      ghost var grown := false;
      while true
        invariant Valid() && freep != 0 && g.live == g0.live
        invariant if grown then Fits(g.fl, nunits) && !Fits(g0.fl, nunits) && grow.Some?
                                && g.arena == g0.arena + Cells(grow.value, CoreUnits(nunits))
                  else g == g0
        decreases !grown
      {
        var found, prevp, p, j, k := Walk(nunits);
        if found {
          r := Take(prevp, p, nunits, j, k);
          return;
        }
        var ok := Morecore(nunits, grow);
        if !ok {
          return 0;
        }
        grown := true;
      }
    }
  }

  /** `nunits`, computed with 32-bit wrap-around: the request in headers, rounded up, plus one. */
  function Units(nbytes: nat): nat { (nbytes + 7) % 0x1_0000_0000 / 8 + 1 }

  /** Neither `nbytes + sizeof(Header) - 1` nor the signed argument of sbrk wraps. */
  predicate NoWrap(nbytes: nat) { nbytes + 7 < 0x1_0000_0000 && CoreUnits(Units(nbytes)) * 8 < 0x8000_0000 }

  /** The units hold the request behind one header exactly when the sum does not wrap. */
  lemma UnitsHoldRequest(nbytes: nat)
    requires nbytes < 0x1_0000_0000
    ensures (Units(nbytes) - 1) * 8 >= nbytes <==> nbytes + 7 < 0x1_0000_0000
  {
    if nbytes + 7 >= 0x1_0000_0000 { assert (nbytes + 7) % 0x1_0000_0000 == nbytes + 7 - 0x1_0000_0000; }
  }

  /** How many blocks behind f the walk has to pass to stand at k, going round once. */
  function Steps(f: nat, k: nat, n: nat): int
    requires f < n && k < n
  {
    if k > f then k - f - 1 else k - f - 1 + n
  }

  ghost predicate Passed(fl: seq<Block>, f: nat, k: nat, n: nat)
    requires f < |fl| && k < |fl|
  {
    forall i :: 0 <= i < |fl| && Steps(f, i, |fl|) < Steps(f, k, |fl|) ==> fl[i].size < n
  }

  /** freep, prevp and p are blocks f, j and k, and k follows j. */
  ghost predicate At(fl: seq<Block>, f: nat, j: nat, k: nat, freep: nat, prevp: nat, p: nat) {
    && f < |fl| && j < |fl| && k == Next(j, |fl|)
    && fl[f].addr == freep && fl[j].addr == prevp && fl[k].addr == p
  }

  lemma PassOne(fl: seq<Block>, base: nat, f: nat, k: nat, n: nat)
    requires FreeList(fl, base) && f < |fl| && k < |fl| && Passed(fl, f, k, n) && fl[k].size < n
    requires fl[k].addr != fl[f].addr
    ensures Passed(fl, f, Next(k, |fl|), n) && Steps(f, Next(k, |fl|), |fl|) == Steps(f, k, |fl|) + 1 <= |fl|
  {
  }

  /** Back at freep without a fit, no block fits. */
  lemma AllPassed(fl: seq<Block>, base: nat, f: nat, k: nat, n: nat)
    requires FreeList(fl, base) && f < |fl| && k < |fl| && Passed(fl, f, k, n) && fl[k].size < n
    requires fl[k].addr == fl[f].addr
    ensures !Fits(fl, n)
  {
    forall i | 0 <= i < |fl| ensures fl[i].size < n {
      assert k == f;
      assert i == f || Steps(f, i, |fl|) < Steps(f, k, |fl|);
    }
  }

  lemma StartOk(mem: map<nat, Header>, base: nat, g: Blocks)
    requires g.fl == [] && g.live == map[] && Partition(g.fl, g.live, g.arena) && 0 < base < g.brk
    requires base in mem && mem[base] == Header(base, 0)
    ensures HeapOk(mem, base, base, g.(fl := [Block(base, 0)]))
  {
    var fl := [Block(base, 0)];
    assert fl[0].addr == base;
    forall x: nat ensures !Free(fl, x) && !Free(g.fl, x) {}
  }

  lemma StartFits(fl: seq<Block>, base: nat, n: nat)
    requires n > 0
    ensures fl == [] ==> !Fits(fl, n) && !Fits([Block(base, 0)], n)
  {
  }

  /** The units that `morecore` asks for: at least 4096, and no more than that or the request. */
  function CoreUnits(nu: nat): (n: nat)
    ensures n >= nu && n >= 4096 && (n == nu || n == 4096)
  {
    if nu < 4096 then 4096 else nu
  }

  /** Memory after n units have been taken from block p behind block prevp. */
  function CarvedMem(mem: map<nat, Header>, prevp: nat, p: nat, n: nat): map<nat, Header>
    requires prevp in mem && p in mem && n <= mem[p].size
  {
    if mem[p].size == n then mem[prevp := mem[prevp].(ptr := mem[p].ptr)]
    else mem[p := mem[p].(size := mem[p].size - n)][p + mem[p].size - n := Header(0, n)]
  }

  lemma CarvedWhole(mem: map<nat, Header>, base: nat, fl: seq<Block>, j: nat, k: nat)
    requires FreeList(fl, base) && Ring(mem, fl) && j < |fl| && k == Next(j, |fl|) && 0 < k == j + 1 && 0 < fl[k].size
    requires fl[j].addr in mem && fl[k].addr in mem && mem[fl[k].addr].size == fl[k].size
    ensures Listed(CarvedMem(mem, fl[j].addr, fl[k].addr, fl[k].size), fl[j].addr, base, Drop(fl, k))
  {
    DropRing(mem, base, fl, j, k);
    DropList(fl, base, k);
    DropAt(fl, k, j);
  }

  lemma CarvedPart(mem: map<nat, Header>, base: nat, fl: seq<Block>, j: nat, k: nat, n: nat)
    requires FreeList(fl, base) && Ring(mem, fl) && j < |fl| && k == Next(j, |fl|) && 0 < k && 0 < n < fl[k].size
    requires fl[j].addr in mem && fl[k].addr in mem && mem[fl[k].addr].size == fl[k].size
    ensures Listed(CarvedMem(mem, fl[j].addr, fl[k].addr, n), fl[j].addr, base, Cut(fl, k, n))
  {
    CutList(fl, base, k, n);
    CutRing(mem, fl, k, n, Header(0, n));
    IsListed(CarvedMem(mem, fl[j].addr, fl[k].addr, n), fl[j].addr, base, Cut(fl, k, n), j);
  }

  lemma IsListed(mem: map<nat, Header>, freep: nat, base: nat, fl: seq<Block>, f: nat)
    requires FreeList(fl, base) && Ring(mem, fl) && f < |fl| && fl[f].addr == freep
    ensures Listed(mem, freep, base, fl)
  {
  }

  lemma CarvedRing(mem: map<nat, Header>, base: nat, fl: seq<Block>, j: nat, k: nat, n: nat)
    requires FreeList(fl, base) && Ring(mem, fl) && j < |fl| && k == Next(j, |fl|) && 0 < n <= fl[k].size
    ensures fl[j].addr in mem && fl[k].addr in mem && mem[fl[k].addr].size == fl[k].size && 0 < k == j + 1
    ensures var fl' := if fl[k].size == n then Drop(fl, k) else Cut(fl, k, n);
      Listed(CarvedMem(mem, fl[j].addr, fl[k].addr, n), fl[j].addr, base, fl')
  {
    var before, after := Next(j, |fl|), Next(k, |fl|);
    if fl[k].size == n { CarvedWhole(mem, base, fl, j, k); } else { CarvedPart(mem, base, fl, j, k, n); }
  }

  /** Any block of the list will do as freep. */
  lemma OkFrom(mem: map<nat, Header>, freep: nat, base: nat, g: Blocks, j: nat)
    requires HeapOk(mem, freep, base, g) && freep != 0 && j < |g.fl|
    ensures g.fl[j].addr > 0 && HeapOk(mem, g.fl[j].addr, base, g)
  {
    IsListed(mem, g.fl[j].addr, base, g.fl, j);
    assert j > 0 ==> g.fl[0].End() < g.fl[j].addr;
  }

  lemma TakeOk(mem: map<nat, Header>, base: nat, g: Blocks, j: nat, k: nat, n: nat)
    requires j < |g.fl| && k == Next(j, |g.fl|) && 0 < n <= g.fl[k].size && HeapOk(mem, g.fl[j].addr, base, g)
    ensures var p := g.fl[k].addr;
      && g.fl[j].addr in mem && p in mem && mem[p].size == g.fl[k].size && TakenAt(g.fl, k, n) !in g.live
      && g.fl[j].addr > 0 && HeapOk(CarvedMem(mem, g.fl[j].addr, p, n), g.fl[j].addr, base, Taken(g, k, n))
  {
    CarvedRing(mem, base, g.fl, j, k, n);
    TakenKeeps(g, base, k, n);
    CarvedHeads(mem, base, g, j, k, n);
  }

  lemma TakeStep(mem: map<nat, Header>, freep: nat, base: nat, g: Blocks, j: nat, k: nat, n: nat)
    requires HeapOk(mem, freep, base, g) && freep != 0 && j < |g.fl| && k == Next(j, |g.fl|) && 0 < n <= g.fl[k].size
    ensures var q, p := g.fl[j].addr, g.fl[k].addr;
      && q in mem && p in mem && mem[p].size == g.fl[k].size && TakenAt(g.fl, k, n) !in g.live
      && q > 0 && HeapOk(CarvedMem(mem, q, p, n), q, base, Taken(g, k, n))
  {
    OkFrom(mem, freep, base, g, j);
    TakeOk(mem, base, g, j, k, n);
  }

  lemma CarvedHeads(mem: map<nat, Header>, base: nat, g: Blocks, j: nat, k: nat, n: nat)
    requires j < |g.fl| && k < |g.fl| && g.fl[j].addr in mem && g.fl[k].addr in mem
    requires mem[g.fl[k].addr].size == g.fl[k].size
    requires 0 < k && 0 < n <= g.fl[k].size && FreeList(g.fl, base) && Disjoint(g.fl, g.live)
    requires Headed(mem, base, g.live)
    requires TakenAt(g.fl, k, n) !in g.live && (g.fl[k].size == n ==> j != k)
    ensures Headed(CarvedMem(mem, g.fl[j].addr, g.fl[k].addr, n), base, Taken(g, k, n).live)
  {
    var m, live' := CarvedMem(mem, g.fl[j].addr, g.fl[k].addr, n), Taken(g, k, n).live;
    forall a | a in live' ensures base < a && a in m && m[a].size == live'[a] {
      if a in g.live { LiveNotFree(g.fl, base, g.live, a); }
    }
  }

  ghost function Grown(g: Blocks, hp: nat, n: nat): Blocks {
    Blocks(g.fl, g.live[hp := n], g.arena + Cells(hp, n), hp + n)
  }

  lemma GrownReleased(g: Blocks, hp: nat, n: nat, fl: seq<Block>)
    requires hp !in g.live
    ensures Released(Grown(g, hp, n), hp, fl) == Blocks(fl, g.live, g.arena + Cells(hp, n), hp + n)
  {
    assert g.live[hp := n] - {hp} == g.live;
  }

  lemma GrownUnits(g: Blocks, hp: nat, n: nat, x: nat)
    requires hp !in g.live
    ensures Used(g.live[hp := n], x) <==> Used(g.live, x) || hp <= x < hp + n
  {
    var live' := g.live[hp := n];
    if Used(g.live, x) {
      var a :| a in g.live && a <= x < a + g.live[a];
      assert a in live' && a <= x < a + live'[a];
    }
    if hp <= x < hp + n { assert hp in live' && hp <= x < hp + live'[hp]; }
    if Used(live', x) {
      var a :| a in live' && a <= x < a + live'[a];
      assert a != hp ==> a in g.live && a <= x < a + g.live[a];
    }
  }

  /** Fresh core joins the heap as one allocated block. */
  lemma GrowOk(mem: map<nat, Header>, freep: nat, base: nat, g: Blocks, hp: nat, n: nat)
    requires HeapOk(mem, freep, base, g) && freep != 0 && hp >= g.brk && n > 0
    ensures hp !in g.live && HeapOk(mem[hp := Header(0, n)], freep, base, Grown(g, hp, n))
  {
    var g' := Grown(g, hp, n);
    GrowListed(mem, freep, base, g.fl, hp, Header(0, n));
    GrowDisjoint(g.fl, g.live, g.brk, hp, n);
    GrowPartition(g, hp, n);
    GrowHeads(mem, base, g.live, hp, Header(0, n));
  }

  lemma GrowPartition(g: Blocks, hp: nat, n: nat)
    requires Partition(g.fl, g.live, g.arena) && hp !in g.live
    ensures Partition(g.fl, g.live[hp := n], g.arena + Cells(hp, n))
  {
    var g' := Grown(g, hp, n);
    forall x: nat ensures x in g'.arena <==> Free(g'.fl, x) || Used(g'.live, x) { GrownUnits(g, hp, n, x); }
  }

  lemma GrowHeads(mem: map<nat, Header>, base: nat, live: map<nat, nat>, hp: nat, h: Header)
    requires Headed(mem, base, live) && hp !in live && base < hp
    ensures Headed(mem[hp := h], base, live[hp := h.size])
  {
  }

  lemma GrowDisjoint(fl: seq<Block>, live: map<nat, nat>, brk: nat, hp: nat, n: nat)
    requires Disjoint(fl, live) && BelowBreak(fl, live, brk) && hp >= brk && n > 0
    ensures Disjoint(fl, live[hp := n]) && BelowBreak(fl, live[hp := n], hp + n)
    ensures hp in live ==> live[hp] == 0
  {
  }

  lemma GrowListed(mem: map<nat, Header>, freep: nat, base: nat, fl: seq<Block>, hp: nat, h: Header)
    requires Listed(mem, freep, base, fl) && base < hp && forall i :: 0 <= i < |fl| ==> fl[i].End() <= hp
    ensures Listed(mem[hp := h], freep, base, fl)
  {
  }

  ghost function Released(g: Blocks, bp: nat, fl: seq<Block>): Blocks {
    Blocks(fl, g.live - {bp}, g.arena, g.brk)
  }

  lemma ReleasedFits(fl: seq<Block>, t: nat, b: Block)
    requires t < |fl|
    ensures Fits(MergeDown(InsertUp(fl, t, b), t), b.size)
  {
    var h := MergeDown(InsertUp(fl, t, b), t);
    assert InsertUp(fl, t, b)[t + 1].size >= b.size;
    if InsertUp(fl, t, b)[t].End() == b.addr { assert h[t].size >= b.size; } else { assert h[t + 1].size >= b.size; }
  }

  lemma ReleaseOk(mem: map<nat, Header>, base: nat, g: Blocks, t: nat, bp: nat)
    requires bp in g.live && Place(g.fl, t, bp) && HeapOk(mem, g.fl[t].addr, base, g)
    ensures var p := g.fl[t].addr;
      && p > 0 && p in mem && bp in mem && mem[p].ptr in mem
      && HeapOk(FreedMem(mem, p, bp), p, base, Released(g, bp, MergeDown(InsertUp(g.fl, t, Block(bp, g.live[bp])), t)))
  {
    var b, p := Block(bp, g.live[bp]), g.fl[t].addr;
    LiveNotFree(g.fl, base, g.live, bp);
    FreedRing(mem, g.fl, base, t, b);
    ReleaseKeeps(g.fl, base, t, b, g.live, g.arena, g.brk);
    FreedHeads(mem, base, g, t, bp);
  }

  lemma FreedHeads(mem: map<nat, Header>, base: nat, g: Blocks, t: nat, bp: nat)
    requires bp in g.live && t < |g.fl| && HeapOk(mem, g.fl[t].addr, base, g) && g.fl[t].addr > 0
    requires var p := g.fl[t].addr; p in mem && bp in mem && mem[p].ptr in mem
    ensures Headed(FreedMem(mem, g.fl[t].addr, bp), base, g.live - {bp})
  {
    var p := g.fl[t].addr;
    forall a | a in g.live - {bp} ensures a in FreedMem(mem, p, bp) && FreedMem(mem, p, bp)[a] == mem[a] {
      LiveNotFree(g.fl, base, g.live, a);
    }
  }

  lemma RingAt(mem: map<nat, Header>, fl: seq<Block>, t: nat)
    requires Ring(mem, fl) && t < |fl|
    ensures fl[t].addr in mem && mem[fl[t].addr] == Header(fl[Next(t, |fl|)].addr, fl[t].size)
  {
  }

  /** Neither exit test of the loop in `free` succeeds before the right place. */
  lemma PlaceStep(fl: seq<Block>, base: nat, t: nat, last: nat, bp: nat)
    requires FreeList(fl, base) && base < bp && t < |fl| && last < |fl| && fl[last].addr < bp
    requires forall j :: last < j < |fl| ==> bp < fl[j].addr
    ensures var p, q := fl[t].addr, fl[Next(t, |fl|)].addr;
      && (t == last && p < q ==> p < bp < q)
      && (p >= q ==> t == |fl| - 1 && (bp > p || bp < q ==> t == last))
  {
  }

  /** When either exit test succeeds, bp belongs behind block t. */
  lemma PlaceFound(fl: seq<Block>, base: nat, t: nat, bp: nat)
    requires FreeList(fl, base) && base < bp && t < |fl|
    requires var p, q := fl[t].addr, fl[Next(t, |fl|)].addr;
      p < bp < q || (p >= q && (bp > p || bp < q))
    ensures Place(fl, t, bp)
  {
  }

  /** The index of the last free block below addr. */
  ghost function LastBelow(fl: seq<Block>, addr: nat): (t: nat)
    requires |fl| > 0 && fl[0].addr < addr
    requires forall i, j :: 0 <= i < j < |fl| ==> fl[i].addr < fl[j].addr
    ensures t < |fl| && fl[t].addr < addr && forall j :: t < j < |fl| ==> addr <= fl[j].addr
    decreases |fl|
  {
    if fl[|fl| - 1].addr < addr then |fl| - 1 else LastBelow(fl[..|fl| - 1], addr)
  }

  /** Memory after `free` has spliced the block at bp in behind p. */
  function FreedMem(mem: map<nat, Header>, p: nat, bp: nat): map<nat, Header>
    requires p in mem && bp in mem && mem[p].ptr in mem
  {
    var m := mem[bp := UpHeader(mem, p, Block(bp, mem[bp].size))];
    m[p := DownHeader(m, p, bp)]
  }

  /** The splice makes the coalesced list. */
  lemma FreedRing(mem: map<nat, Header>, fl: seq<Block>, base: nat, t: nat, b: Block)
    requires FreeList(fl, base) && Ring(mem, fl) && Place(fl, t, b.addr)
    requires b.addr in mem && b.size == mem[b.addr].size > 0
    requires fl[t].End() <= b.addr && (t + 1 < |fl| ==> b.End() <= fl[t + 1].addr)
    requires forall i :: 0 <= i < |fl| ==> fl[i].addr != b.addr
    ensures fl[t].addr in mem && mem[fl[t].addr].ptr in mem
    ensures var fl' := MergeDown(InsertUp(fl, t, b), t);
      && FreeList(fl', base) && Ring(FreedMem(mem, fl[t].addr, b.addr), fl')
      && t < |fl'| && fl'[t].addr == fl[t].addr
  {
    InsertUpRing(mem, fl, base, t, b);
    InsertUpList(fl, base, t, b);
    var m := mem[b.addr := UpHeader(mem, fl[t].addr, b)];
    MergeDownRing(m, InsertUp(fl, t, b), base, t);
    MergeDownList(InsertUp(fl, t, b), base, t);
  }

  /** An allocated block is not on the free list. */
  lemma LiveNotFree(fl: seq<Block>, base: nat, live: map<nat, nat>, a: nat)
    requires FreeList(fl, base) && Disjoint(fl, live) && a in live && base < a
    ensures forall i :: 0 <= i < |fl| ==> fl[i].addr != a
    ensures forall t: nat :: Place(fl, t, a) ==> fl[t].End() <= a && (t + 1 < |fl| ==> a + live[a] <= fl[t + 1].addr)
  {
  }

  lemma DisjointInsertUp(fl: seq<Block>, t: nat, b: Block, live: map<nat, nat>)
    requires Disjoint(fl, live) && t < |fl| && b.addr in live && live[b.addr] == b.size
    ensures Disjoint(InsertUp(fl, t, b), live - {b.addr})
  {
    var g := InsertUp(fl, t, b);
    forall a, i | a in live - {b.addr} && 0 <= i < |g|
      ensures g[i].End() <= a || a + live[a] <= g[i].addr
    {
      if i <= t { assert g[i] == fl[i]; }
      else if i > t + 1 { assert g[i] in fl[t + 1..]; }
    }
  }

  lemma DisjointMergeDown(fl: seq<Block>, t: nat, live: map<nat, nat>)
    requires Disjoint(fl, live) && t + 1 < |fl|
    ensures Disjoint(MergeDown(fl, t), live)
  {
    var g := MergeDown(fl, t);
    forall a, i | a in live && 0 <= i < |g|
      ensures g[i].End() <= a || a + live[a] <= g[i].addr
    {
      if i < t { assert g[i] == fl[i]; }
      else if i > t && |g| < |fl| { assert g[i] == fl[i + 1]; }
    }
  }

  lemma PartitionRelease(fl: seq<Block>, base: nat, t: nat, b: Block, live: map<nat, nat>, arena: set<nat>, x: nat)
    requires FreeList(fl, base) && Place(fl, t, b.addr) && b.size > 0
    requires fl[t].End() <= b.addr && (t + 1 < |fl| ==> b.End() <= fl[t + 1].addr)
    requires b.addr in live && live[b.addr] == b.size && Partition(fl, live, arena)
    ensures x in arena <==> Free(MergeDown(InsertUp(fl, t, b), t), x) || Used(live - {b.addr}, x)
  {
    InsertUpList(fl, base, t, b);
    InsertUpUnits(fl, base, t, b, x);
    MergeDownUnits(InsertUp(fl, t, b), base, t, x);
    if Used(live, x) {
      var a :| a in live && a <= x < a + live[a];
      assert a != b.addr ==> a in live - {b.addr};
    }
    if Used(live - {b.addr}, x) {
      var a :| a in live - {b.addr} && a <= x < a + (live - {b.addr})[a];
      assert a in live && a <= x < a + live[a];
    }
    if b.addr <= x < b.End() { assert b.addr in live && b.addr <= x < b.addr + live[b.addr]; }
  }

  /** Freeing b loses no unit and leaves the other allocated blocks apart from the free ones. */
  lemma ReleaseKeeps(fl: seq<Block>, base: nat, t: nat, b: Block, live: map<nat, nat>, arena: set<nat>, brk: nat)
    requires FreeList(fl, base) && Place(fl, t, b.addr) && b.size > 0
    requires fl[t].End() <= b.addr && (t + 1 < |fl| ==> b.End() <= fl[t + 1].addr)
    requires b.addr in live && live[b.addr] == b.size && Disjoint(fl, live) && Partition(fl, live, arena)
    requires b.End() <= brk && forall i :: 0 <= i < |fl| ==> fl[i].End() <= brk
    ensures var fl' := MergeDown(InsertUp(fl, t, b), t);
      Disjoint(fl', live - {b.addr}) && Partition(fl', live - {b.addr}, arena)
      && forall i :: 0 <= i < |fl'| ==> fl'[i].End() <= brk
  {
    DisjointInsertUp(fl, t, b, live);
    DisjointMergeDown(InsertUp(fl, t, b), t, live - {b.addr});
    forall x ensures x in arena <==> Free(MergeDown(InsertUp(fl, t, b), t), x) || Used(live - {b.addr}, x) {
      PartitionRelease(fl, base, t, b, live, arena, x);
    }
  }

  /** Some free block has at least n units. */
  ghost predicate Fits(fl: seq<Block>, n: nat) {
    exists i :: 0 <= i < |fl| && fl[i].size >= n
  }

  /** The units a, a + 1, ..., a + n - 1. */
  ghost function Cells(a: nat, n: nat): (s: set<nat>)
    ensures forall x: nat :: x in s <==> a <= x < a + n
  {
    if n == 0 then {} else Cells(a, n - 1) + {a + n - 1}
  }

  function Drop(fl: seq<Block>, k: nat): seq<Block>
    requires k < |fl|
  {
    fl[..k] + fl[k + 1..]
  }

  lemma DropAt(fl: seq<Block>, k: nat, i: nat)
    requires k < |fl| && i + 1 < |fl|
    ensures Drop(fl, k)[i] == if i < k then fl[i] else fl[i + 1]
    ensures 0 < k && i + 1 != k ==>
      Drop(fl, k)[Next(i, |fl| - 1)] == fl[Next(if i < k then i else i + 1, |fl|)]
    ensures 0 < k && i + 1 == k ==> Drop(fl, k)[Next(i, |fl| - 1)] == fl[Next(k, |fl|)]
  {
  }

  lemma DropList(fl: seq<Block>, base: nat, k: nat)
    requires FreeList(fl, base) && 0 < k < |fl|
    ensures FreeList(Drop(fl, k), base)
  {
    var h := Drop(fl, k);
    forall i, j | 0 <= i < j < |h| ensures h[i].End() < h[j].addr && h[j].size > 0 {
      DropAt(fl, k, i);
      DropAt(fl, k, j);
    }
    DropAt(fl, k, 0);
  }

  /** Free block k is unlinked: its predecessor takes over its pointer. */
  lemma DropRing(mem: map<nat, Header>, base: nat, fl: seq<Block>, j: nat, k: nat)
    requires FreeList(fl, base) && Ring(mem, fl) && 0 < k < |fl| && k == j + 1
    ensures fl[j].addr in mem && fl[k].addr in mem
    ensures Ring(mem[fl[j].addr := mem[fl[j].addr].(ptr := mem[fl[k].addr].ptr)], Drop(fl, k))
  {
    var h := Drop(fl, k);
    assert Next(j, |fl|) == k;
    var n := Next(k, |fl|);
    var m := mem[fl[j].addr := mem[fl[j].addr].(ptr := mem[fl[k].addr].ptr)];
    forall i | 0 <= i < |h|
      ensures h[i].addr in m && m[h[i].addr] == Header(h[Next(i, |h|)].addr, h[i].size)
    {
      DropAt(fl, k, i);
      var n' := Next(if i < k then i else i + 1, |fl|);
    }
  }

  /** The list once free block k has lost its last n units. */
  function Cut(fl: seq<Block>, k: nat, n: nat): seq<Block>
    requires k < |fl| && n <= fl[k].size
  {
    fl[k := Block(fl[k].addr, fl[k].size - n)]
  }

  lemma CutList(fl: seq<Block>, base: nat, k: nat, n: nat)
    requires FreeList(fl, base) && 0 < k < |fl| && 0 < n < fl[k].size
    ensures FreeList(Cut(fl, k, n), base)
    ensures forall i :: 0 <= i < |fl| ==> fl[i].addr != fl[k].End() - n
    ensures forall i :: 0 <= i < |fl| && i != k ==> fl[i].addr != fl[k].addr
  {
  }

  /** The last n units of free block k are cut off and given the header h. */
  lemma CutRing(mem: map<nat, Header>, fl: seq<Block>, k: nat, n: nat, h: Header)
    requires Ring(mem, fl) && 0 < k < |fl| && 0 < n < fl[k].size
    requires forall i :: 0 <= i < |fl| ==> fl[i].addr != fl[k].End() - n
    requires forall i :: 0 <= i < |fl| && i != k ==> fl[i].addr != fl[k].addr
    ensures Next(k, |fl|) < |fl| && fl[k].addr in mem
    ensures Ring(mem[fl[k].addr := mem[fl[k].addr].(size := fl[k].size - n)][fl[k].End() - n := h], Cut(fl, k, n))
  {
    var fl', at := Cut(fl, k, n), fl[k].End() - n;
    var nk := Next(k, |fl|);
    var m := mem[fl[k].addr := mem[fl[k].addr].(size := fl[k].size - n)][at := h];
    forall i | 0 <= i < |fl'|
      ensures fl'[i].addr in m && m[fl'[i].addr] == Header(fl'[Next(i, |fl'|)].addr, fl'[i].size)
    {
      var n' := Next(i, |fl|);
    }
  }

  /** Where `malloc` puts the n units it takes from free block k. */
  function TakenAt(fl: seq<Block>, k: nat, n: nat): nat
    requires k < |fl| && n <= fl[k].size
  {
    fl[k].End() - n
  }

  /** The blocks after n units of free block k have been allocated. */
  ghost function Taken(g: Blocks, k: nat, n: nat): Blocks
    requires k < |g.fl| && n <= g.fl[k].size
  {
    g.(fl := if g.fl[k].size == n then Drop(g.fl, k) else Cut(g.fl, k, n), live := g.live[TakenAt(g.fl, k, n) := n])
  }

  lemma TakenUnits(g: Blocks, base: nat, k: nat, n: nat, x: nat)
    requires FreeList(g.fl, base) && 0 < k < |g.fl| && 0 < n <= g.fl[k].size && TakenAt(g.fl, k, n) !in g.live
    ensures var at := TakenAt(g.fl, k, n);
      && (Free(g.fl, x) <==> Free(Taken(g, k, n).fl, x) || at <= x < at + n)
      && (Used(Taken(g, k, n).live, x) <==> Used(g.live, x) || at <= x < at + n)
  {
    var at, g' := TakenAt(g.fl, k, n), Taken(g, k, n);
    FreeTaken(g.fl, k, n, x);
    if Used(g.live, x) {
      var a :| a in g.live && a <= x < a + g.live[a];
      assert a in g'.live && a <= x < a + g'.live[a];
    }
    if at <= x < at + n { assert at in g'.live && at <= x < at + g'.live[at]; }
    if Used(g'.live, x) {
      var a :| a in g'.live && a <= x < a + g'.live[a];
      assert a != at ==> a in g.live && a <= x < a + g.live[a];
    }
  }

  lemma FreeTaken(fl: seq<Block>, k: nat, n: nat, x: nat)
    requires 0 < k < |fl| && 0 < n <= fl[k].size
    ensures var at, fl' := TakenAt(fl, k, n), if fl[k].size == n then Drop(fl, k) else Cut(fl, k, n);
      Free(fl, x) <==> Free(fl', x) || at <= x < at + n
  {
    var at := TakenAt(fl, k, n);
    if at <= x < at + n { assert fl[k].addr <= x < fl[k].End(); }
    if fl[k].size == n {
      var h := Drop(fl, k);
      if Free(fl, x) {
        var i :| 0 <= i < |fl| && fl[i].addr <= x < fl[i].End();
        if i != k { DropAt(fl, k, if i < k then i else i - 1); }
      }
      if Free(h, x) {
        var i :| 0 <= i < |h| && h[i].addr <= x < h[i].End();
        DropAt(fl, k, i);
      }
    } else {
      var h := Cut(fl, k, n);
      if Free(fl, x) {
        var i :| 0 <= i < |fl| && fl[i].addr <= x < fl[i].End();
        assert i != k || x < at ==> h[i].addr <= x < h[i].End();
      }
      if Free(h, x) {
        var i :| 0 <= i < |h| && h[i].addr <= x < h[i].End();
        assert fl[i].addr <= x < fl[i].End();
      }
    }
  }

  /** Allocating loses no unit and overlaps nothing. */
  lemma TakenKeeps(g: Blocks, base: nat, k: nat, n: nat)
    requires FreeList(g.fl, base) && 0 < k < |g.fl| && 0 < n <= g.fl[k].size
    requires Disjoint(g.fl, g.live) && Partition(g.fl, g.live, g.arena) && BelowBreak(g.fl, g.live, g.brk)
    ensures var g' := Taken(g, k, n);
      && TakenAt(g.fl, k, n) !in g.live
      && Disjoint(g'.fl, g'.live) && Partition(g'.fl, g'.live, g'.arena) && BelowBreak(g'.fl, g'.live, g'.brk)
  {
    var at, g' := TakenAt(g.fl, k, n), Taken(g, k, n);
    if g.fl[k].size == n {
      forall i | 0 <= i < |g'.fl| ensures g'.fl[i] in g.fl && g'.fl[i] != g.fl[k] { DropAt(g.fl, k, i); }
    }
    forall x ensures x in g'.arena <==> Free(g'.fl, x) || Used(g'.live, x) { TakenUnits(g, base, k, n, x); }
    DisjointTaken(g, base, k, n);
  }

  lemma DisjointTaken(g: Blocks, base: nat, k: nat, n: nat)
    requires FreeList(g.fl, base) && 0 < k < |g.fl| && 0 < n <= g.fl[k].size && Disjoint(g.fl, g.live)
    ensures Disjoint(Taken(g, k, n).fl, Taken(g, k, n).live)
  {
    var at, g' := TakenAt(g.fl, k, n), Taken(g, k, n);
    forall a, i | a in g'.live && 0 <= i < |g'.fl|
      ensures g'.fl[i].End() <= a || a + g'.live[a] <= g'.fl[i].addr
    {
      if g.fl[k].size == n { DropAt(g.fl, k, i); }
    }
  }
}
