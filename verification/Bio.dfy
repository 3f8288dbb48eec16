/** The buffer cache (bio.c) over a disk whose sectors are written one at a time.

    The disk driver is the synchronous one of memide.c. A ghost history records the disk
    after every single sector write, which is where a crash can leave it. */
module Blocks {
  /** The number of 4-byte words in a sector, BSIZE / sizeof(uint). */
  const WORDS: nat := 128

  datatype Block = Block(words: seq<int>)

  type Disk = seq<Block>
}

module Bio {
  import opened Common
  import opened Blocks

  const NBUF: nat := 10

  /** The list head `bcache.head` is the node after the NBUF buffers. */
  const HEAD: nat := NBUF

  /** `sector == None` is the unused buffer that `binit` marks with `dev = -1`. */
  datatype Buf = Buf(sector: Option<nat>, busy: bool, valid: bool, dirty: bool, data: Block)

  /** The outcomes of `bget`: a busy buffer, a sleep on a buffer that another process holds,
      or the panic "bget: no buffers". */
  datatype Got = Got(index: nat) | MustWait(index: nat) | NoBuffers

  /** The nodes of the ring in order, from the head back to the head. */
  ghost function Ring(order: seq<nat>): seq<nat> {
    [HEAD] + order + [HEAD]
  }

  ghost predicate Adjacent(i: int, j: int) { j == i + 1 }

  /** next and prev are the circular doubly linked list HEAD, order[0], order[1], ..., HEAD. */
  ghost predicate Linked(next: seq<nat>, prev: seq<nat>, order: seq<nat>) {
    && |next| == |prev| == NBUF + 1
    && Distinct(order)
    && (forall k :: 0 <= k < |order| ==> order[k] < NBUF)
    && (forall i, j {:trigger Adjacent(i, j)} :: 0 <= i && Adjacent(i, j) && j < |Ring(order)| ==>
          next[Ring(order)[i]] == Ring(order)[j] && prev[Ring(order)[j]] == Ring(order)[i])
  }

  /** The order after moving its k-th member to the front. */
  function MoveToFront(order: seq<nat>, k: nat): (r: seq<nat>)
    requires k < |order|
  {
    [order[k]] + order[..k] + order[k + 1..]
  }

  /** Buffer i caches sector s. */
  ghost predicate Caches(bufs: seq<Buf>, i: int, s: nat) {
    0 <= i < |bufs| && bufs[i].sector == Some(s)
  }

  ghost predicate Cached(bufs: seq<Buf>, s: nat) {
    exists i :: Caches(bufs, i, s)
  }

  /** The only buffers `bget` may take over for another sector. */
  ghost predicate Recyclable(bufs: seq<Buf>, i: int) {
    0 <= i < |bufs| && !bufs[i].busy && !bufs[i].dirty
  }

  /** A clean buffer that nobody holds is a copy of its sector. */
  ghost predicate BufOk(disk: Disk, b: Buf) {
    && (b.valid ==> b.sector.Some?)
    && (b.sector.Some? ==> b.sector.value < |disk|)
    && (b.dirty ==> b.valid)
    && (b.valid && !b.dirty && !b.busy ==> b.data == disk[b.sector.value])
  }

  /** At most one buffer per sector, and idle clean buffers agree with the disk. */
  ghost predicate Coherent(disk: Disk, bufs: seq<Buf>) {
    && (forall i :: 0 <= i < |bufs| ==> BufOk(disk, bufs[i]))
    && (forall i, j :: 0 <= i < j < |bufs| && bufs[i].sector.Some? ==> bufs[i].sector != bufs[j].sector)
  }

  /** What a reader of sector s sees: its cached copy, or else the disk. */
  ghost function View(disk: Disk, bufs: seq<Buf>, s: nat): Block
    requires s < |disk|
  {
    if exists i :: Caches(bufs, i, s) && bufs[i].valid
    then var i :| Caches(bufs, i, s) && bufs[i].valid; bufs[i].data
    else disk[s]
  }

  /** Every reader sees the same blocks before and after. */
  ghost predicate SameView(disk: Disk, bufs: seq<Buf>, disk': Disk, bufs': seq<Buf>) {
    && |disk'| == |disk|
    && forall s: nat :: s < |disk| ==> View(disk', bufs', s) == View(disk, bufs, s)
  }

  lemma ViewOfCached(disk: Disk, bufs: seq<Buf>, i: nat)
    requires Coherent(disk, bufs) && i < |bufs| && bufs[i].valid
    ensures View(disk, bufs, bufs[i].sector.value) == bufs[i].data
  {
    assert Caches(bufs, i, bufs[i].sector.value);
  }

  /** Taking a cached buffer changes no view. */
  lemma TakeKeepsView(disk: Disk, bufs: seq<Buf>, b: nat)
    requires Coherent(disk, bufs) && b < |bufs| && !bufs[b].busy
    ensures var bufs' := bufs[b := bufs[b].(busy := true)];
      Coherent(disk, bufs') && SameView(disk, bufs, disk, bufs')
  {
    var bufs' := bufs[b := bufs[b].(busy := true)];
    assert Coherent(disk, bufs');
    forall s: nat | s < |disk| ensures View(disk, bufs', s) == View(disk, bufs, s) {
      assert forall i :: Caches(bufs', i, s) == Caches(bufs, i, s);
    }
  }

  /** Recycling a clean idle buffer changes no view: what it held is on the disk. */
  lemma RecycleKeepsView(disk: Disk, bufs: seq<Buf>, b: nat, s: nat)
    requires Coherent(disk, bufs) && Recyclable(bufs, b) && !Cached(bufs, s) && s < |disk|
    ensures var bufs' := bufs[b := bufs[b].(sector := Some(s), busy := true, valid := false, dirty := false)];
      Coherent(disk, bufs') && SameView(disk, bufs, disk, bufs')
  {
    var bufs' := bufs[b := bufs[b].(sector := Some(s), busy := true, valid := false, dirty := false)];
    forall i | 0 <= i < |bufs| ensures bufs[i].sector != Some(s) { assert !Caches(bufs, i, s); }
    assert Coherent(disk, bufs');
    forall t: nat | t < |disk| ensures View(disk, bufs', t) == View(disk, bufs, t) {
      assert forall i :: i != b ==> Caches(bufs', i, t) == Caches(bufs, i, t);
    }
  }

  /** Filling an invalid buffer from the disk changes no view. */
  lemma FillKeepsView(disk: Disk, bufs: seq<Buf>, i: nat)
    requires Coherent(disk, bufs) && i < |bufs| && bufs[i].busy && bufs[i].sector.Some? && !bufs[i].valid
    ensures SameView(disk, bufs, disk, bufs[i := bufs[i].(valid := true, data := disk[bufs[i].sector.value])])
  {
    var bufs' := bufs[i := bufs[i].(valid := true, data := disk[bufs[i].sector.value])];
    forall t: nat | t < |disk| ensures View(disk, bufs', t) == View(disk, bufs, t) {
      assert forall j :: Caches(bufs', j, t) == Caches(bufs, j, t);
    }
  }

  /** Releasing a buffer changes no view. */
  lemma ReleaseKeepsView(disk: Disk, bufs: seq<Buf>, i: nat)
    requires Coherent(disk, bufs) && i < |bufs| && bufs[i].busy
    requires bufs[i].valid ==> bufs[i].dirty || bufs[i].data == disk[bufs[i].sector.value]
    ensures var bufs' := bufs[i := bufs[i].(busy := false)];
      Coherent(disk, bufs') && SameView(disk, bufs, disk, bufs')
  {
    var bufs' := bufs[i := bufs[i].(busy := false)];
    forall t: nat | t < |disk| ensures View(disk, bufs', t) == View(disk, bufs, t) {
      assert forall j :: Caches(bufs', j, t) == Caches(bufs, j, t);
    }
  }

  lemma Neighbours(next: seq<nat>, prev: seq<nat>, order: seq<nat>, k: nat)
    requires Linked(next, prev, order) && k < |order|
    ensures order[k] != next[order[k]] == Ring(order)[k + 2] <= NBUF && prev[order[k]] == Ring(order)[k] <= NBUF
    ensures next[HEAD] == Ring(order)[1] <= NBUF && prev[HEAD] == Ring(order)[|order|] <= NBUF
  {
    var c := Ring(order);
    assert c[k + 1] == order[k];
    assert Adjacent(0, 1) && Adjacent(k, k + 1) && Adjacent(k + 1, k + 2) && Adjacent(|order|, |order| + 1);
    RingDistinct(order);
  }

  /** `b->next->prev = b->prev; b->prev->next = b->next` takes order[k] out of the ring. */
  lemma Unlink(next: seq<nat>, prev: seq<nat>, order: seq<nat>, k: nat)
    requires Linked(next, prev, order) && k < |order|
    requires next[order[k]] <= NBUF && prev[order[k]] <= NBUF
    ensures var i := order[k];
      Linked(next[prev[i] := next[i]], prev[next[i] := prev[i]], order[..k] + order[k + 1..])
  {
    Neighbours(next, prev, order, k);
    var i := order[k];
    var c, rest := Ring(order), order[..k] + order[k + 1..];
    var c' := Ring(rest);
    assert forall j :: 0 <= j <= k ==> c'[j] == c[j];
    assert forall j :: k < j <= |rest| + 1 ==> c'[j] == c[j + 1];
    RingDistinct(order);
    forall a, b | 0 <= a && Adjacent(a, b) && b < |c'|
      ensures var nx, pv := next[prev[i] := next[i]], prev[next[i] := prev[i]];
        nx[c'[a]] == c'[b] && pv[c'[b]] == c'[a]
    {
      if b <= k { assert Adjacent(a, b); } else { assert Adjacent(a + 1, b + 1); }
    }
  }

  /** The next four writes put i behind the head. */
  lemma Push(next: seq<nat>, prev: seq<nat>, order: seq<nat>, i: nat)
    requires Linked(next, prev, order) && i < NBUF && i !in order && next[HEAD] <= NBUF
    ensures Linked(next[i := next[HEAD]][HEAD := i], prev[i := HEAD][next[HEAD] := i], [i] + order)
  {
    var c, c' := Ring(order), Ring([i] + order);
    assert forall j :: 2 <= j < |c'| ==> c'[j] == c[j - 1];
    assert Adjacent(0, 1);
    RingDistinct(order);
    forall a, b | 0 <= a && Adjacent(a, b) && b < |c'|
      ensures var nx, pv := next[i := next[HEAD]][HEAD := i], prev[i := HEAD][next[HEAD] := i];
        nx[c'[a]] == c'[b] && pv[c'[b]] == c'[a]
    {
      if a >= 1 { assert Adjacent(a - 1, b - 1); }
    }
  }

  /** The links after `brelse` has moved i behind the head. */
  function MovedPrev(next: seq<nat>, prev: seq<nat>, i: nat): seq<nat>
    requires |next| == |prev| == NBUF + 1 && i < NBUF && next[i] <= NBUF && prev[i] <= NBUF
    requires next[prev[i] := next[i]][HEAD] <= NBUF
  {
    prev[next[i] := prev[i]][i := HEAD][next[prev[i] := next[i]][HEAD] := i]
  }

  function MovedNext(next: seq<nat>, prev: seq<nat>, i: nat): seq<nat>
    requires |next| == |prev| == NBUF + 1 && i < NBUF && prev[i] <= NBUF
  {
    var nx := next[prev[i] := next[i]];
    nx[i := nx[HEAD]][HEAD := i]
  }

  lemma Moved(next: seq<nat>, prev: seq<nat>, order: seq<nat>, k: nat)
    requires Linked(next, prev, order) && k < |order|
    ensures var i := order[k];
      && i != next[i] <= NBUF && prev[i] <= NBUF && next[prev[i] := next[i]][HEAD] <= NBUF
      && Linked(MovedNext(next, prev, i), MovedPrev(next, prev, i), MoveToFront(order, k))
  {
    var i, rest := order[k], order[..k] + order[k + 1..];
    Neighbours(next, prev, order, k);
    Unlink(next, prev, order, k);
    Push(next[prev[i] := next[i]], prev[next[i] := prev[i]], rest, i);
    assert [i] + rest == MoveToFront(order, k);
  }

  /** Only the two ends of the ring are the same node. */
  lemma RingDistinct(order: seq<nat>)
    requires Distinct(order) && forall k :: 0 <= k < |order| ==> order[k] < NBUF
    ensures var c := Ring(order);
      forall i, j :: 0 <= i < j < |c| && (0 < i || j < |c| - 1) ==> c[i] != c[j]
  {
  }

  /** If fewer sectors than buffers are held or pinned, some buffer can be recycled. */
  lemma FreeBuffer(disk: Disk, bufs: seq<Buf>, taken: set<nat>)
    requires Coherent(disk, bufs) && |taken| < |bufs|
    requires forall i :: 0 <= i < |bufs| && !Recyclable(bufs, i) ==>
      bufs[i].sector.Some? && bufs[i].sector.value in taken
    ensures exists i :: Recyclable(bufs, i)
  {
    if forall i :: 0 <= i < |bufs| ==> !Recyclable(bufs, i) {
      var homes := seq(|bufs|, i requires 0 <= i < |bufs| => bufs[i].sector.value);
      assert Distinct(homes);
      DistinctSize(homes, |homes|);
      SubsetSize(set i | 0 <= i < |homes| :: homes[i], taken);
    }
  }

  class BufferCache {
    var disk: Disk
    var bufs: seq<Buf>
    var next: seq<nat>
    var prev: seq<nat>
    ghost var order: seq<nat>      // the buffers, most recently released first
    ghost var history: seq<Disk>   // the disk after each sector write, in order

    ghost predicate Valid()
      reads this
    {
      && |bufs| == NBUF && |order| == NBUF
      && Linked(next, prev, order)
      && Coherent(disk, bufs)
    }

    constructor (disk: Disk)
      ensures Valid() && this.disk == disk && history == []
      ensures forall i :: 0 <= i < NBUF ==> !bufs[i].busy && !bufs[i].dirty && bufs[i].sector == None
    {
      this.disk := disk;
      history := [];
      bufs := seq(NBUF, _ => Buf(None, false, false, false, Block([])));
      var nx := seq(NBUF + 1, _ => HEAD);
      var pv := seq(NBUF + 1, _ => HEAD);
      ghost var ord: seq<nat> := [];
      var b := 0;
      while b < NBUF
        invariant 0 <= b <= NBUF
        invariant |nx| == |pv| == NBUF + 1 && |ord| == b
        invariant forall k :: 0 <= k < b ==> ord[k] == b - 1 - k
        invariant nx[HEAD] == if b == 0 then HEAD else b - 1
        invariant pv[HEAD] == if b == 0 then HEAD else 0
        invariant forall k :: 0 <= k < b ==> nx[k] == if k == 0 then HEAD else k - 1
        invariant forall k :: 0 <= k < b ==> pv[k] == if k == b - 1 then HEAD else k + 1
      {
        nx := nx[b := nx[HEAD]];
        pv := pv[b := HEAD];
        pv := pv[nx[HEAD] := b];
        nx := nx[HEAD := b];
        ord := [b] + ord;
        b := b + 1;
      }
      next, prev, order := nx, pv, ord;
    }

    /** Look through the cache for sector s; if it is not there, recycle the least recently
        released buffer that is neither busy nor dirty. */
    method Bget(s: nat) returns (r: Got)
      requires Valid() && s < |disk|
      modifies this`bufs
      ensures Valid() && SameView(disk, old(bufs), disk, bufs)
      ensures r.NoBuffers? ==> !Cached(bufs, s) && forall i :: !Recyclable(bufs, i)
      ensures r.MustWait? ==> Caches(bufs, r.index, s) && bufs[r.index].busy
      ensures !r.Got? ==> bufs == old(bufs)
      ensures r.Got? ==> r.index < NBUF && !old(bufs)[r.index].busy && bufs[r.index].busy
      ensures r.Got? && Cached(old(bufs), s) ==>
        bufs == old(bufs)[r.index := old(bufs)[r.index].(busy := true)] && Caches(bufs, r.index, s)
      ensures r.Got? && !Cached(old(bufs), s) ==>
        && Recyclable(old(bufs), r.index)
        && bufs == old(bufs)[r.index := Buf(Some(s), true, false, false, old(bufs)[r.index].data)]
        && exists k :: 0 <= k < NBUF && order[k] == r.index
                       && forall j :: k < j < NBUF ==> !Recyclable(old(bufs), order[j])
    {
      var b := next[HEAD];
      ghost var k := 0;
      Neighbours(next, prev, order, 0);
      while b != HEAD
        invariant 0 <= k <= NBUF
        invariant bufs == old(bufs) && b == Ring(order)[k + 1]
        invariant forall j :: 0 <= j < k ==> !Caches(bufs, order[j], s)
        decreases NBUF - k
      {
        if bufs[b].sector == Some(s) {
          assert Caches(bufs, b, s);
          if !bufs[b].busy {
            TakeKeepsView(disk, bufs, b);
            bufs := bufs[b := bufs[b].(busy := true)];
            return Got(b);
          }
          return MustWait(b);
        }
        Neighbours(next, prev, order, k);
        b, k := next[b], k + 1;
      }
      NotCached(s);

      b := prev[HEAD];
      k := NBUF;
      while b != HEAD
        invariant 0 <= k <= NBUF
        invariant bufs == old(bufs) && b == Ring(order)[k]
        invariant forall j :: k <= j < NBUF ==> !Recyclable(bufs, order[j])
        decreases k
      {
        if !bufs[b].busy && !bufs[b].dirty {
          RecycleKeepsView(disk, bufs, b, s);
          bufs := bufs[b := bufs[b].(sector := Some(s), busy := true, valid := false, dirty := false)];
          return Got(b);
        }
        Neighbours(next, prev, order, k - 1);
        b, k := prev[b], k - 1;
      }
      NoneRecyclable();
      r := NoBuffers;
    }

    lemma NotCached(s: nat)
      requires Valid() && forall j :: 0 <= j < NBUF ==> !Caches(bufs, order[j], s)
      ensures !Cached(bufs, s)
    {
      forall i | 0 <= i < NBUF ensures !Caches(bufs, i, s) { OrderCovers(order, NBUF, i); }
    }

    lemma NoneRecyclable()
      requires Valid() && forall j :: 0 <= j < NBUF ==> !Recyclable(bufs, order[j])
      ensures forall i :: !Recyclable(bufs, i)
    {
      forall i | 0 <= i < NBUF ensures !Recyclable(bufs, i) { OrderCovers(order, NBUF, i); }
    }

    /** The driver's `iderw`, as memide.c writes it: a dirty buffer goes to its sector, an
        invalid one is filled from it. Its panics are the preconditions. */
    method Iderw(i: nat)
      requires Valid() && i < NBUF && bufs[i].busy && bufs[i].sector.Some?
      requires !bufs[i].valid || bufs[i].dirty
      modifies this`disk, this`bufs, this`history
      ensures Valid()
      ensures var s := old(bufs)[i].sector.value;
        if old(bufs)[i].dirty then
          && disk == old(disk)[s := old(bufs)[i].data] && history == old(history) + [disk]
          && bufs == old(bufs)[i := old(bufs)[i].(dirty := false)]
        else
          && disk == old(disk) && history == old(history)
          && bufs == old(bufs)[i := old(bufs)[i].(valid := true, data := disk[s])]
    {
      var b := bufs[i];
      var s := b.sector.value;
      if b.dirty {
        disk := disk[s := b.data];
        history := history + [disk];
        bufs := bufs[i := b.(dirty := false)];
      } else {
        bufs := bufs[i := b.(valid := true, data := disk[s])];
      }
    }

    /** Return a busy, valid buffer holding what every reader sees of sector s. */
    method Bread(s: nat) returns (r: Got)
      requires Valid() && s < |disk|
      modifies this`disk, this`bufs, this`history
      ensures Valid() && disk == old(disk) && history == old(history)
      ensures SameView(disk, old(bufs), disk, bufs)
      ensures r.NoBuffers? ==> !Cached(old(bufs), s) && forall i :: !Recyclable(old(bufs), i)
      ensures r.MustWait? ==> Caches(old(bufs), r.index, s) && old(bufs)[r.index].busy
      ensures !r.Got? ==> bufs == old(bufs)
      ensures r.Got? ==>
        && r.index < NBUF && !old(bufs)[r.index].busy
        && (old(bufs)[r.index].dirty ==> Caches(old(bufs), r.index, s))
        && bufs == old(bufs)[r.index := Buf(Some(s), true, true, old(bufs)[r.index].dirty,
                                            View(old(disk), old(bufs), s))]
    {
      r := Bget(s);
      if r.Got? {
        var i := r.index;
        if !bufs[i].valid {
          ghost var before := bufs;
          Iderw(i);
          FillKeepsView(disk, before, i);
        }
        ViewOfCached(disk, bufs, i);
        assert View(disk, bufs, s) == View(disk, old(bufs), s);
      }
    }

    /** Write a busy buffer through to its sector. */
    method Bwrite(i: nat)
      requires Valid() && i < NBUF && bufs[i].busy && bufs[i].valid
      modifies this`disk, this`bufs, this`history
      ensures Valid()
      ensures disk == old(disk)[old(bufs)[i].sector.value := old(bufs)[i].data]
      ensures history == old(history) + [disk]
      ensures bufs == old(bufs)[i := old(bufs)[i].(dirty := false)]
    {
      bufs := bufs[i := bufs[i].(dirty := true)];
      Iderw(i);
    }

    /** The holder of a busy buffer changes its data in place. */
    method Store(i: nat, data: Block)
      requires Valid() && i < NBUF && bufs[i].busy && bufs[i].valid
      modifies this`bufs
      ensures Valid() && bufs == old(bufs)[i := old(bufs)[i].(data := data)]
    {
      bufs := bufs[i := bufs[i].(data := data)];
    }

    /** `b->flags |= B_DIRTY`, with which `log_write` keeps a buffer from being recycled. */
    method Pin(i: nat)
      requires Valid() && i < NBUF && bufs[i].busy && bufs[i].valid
      modifies this`bufs
      ensures Valid() && bufs == old(bufs)[i := old(bufs)[i].(dirty := true)]
    {
      bufs := bufs[i := bufs[i].(dirty := true)];
    }

    /** The pointer writes of `brelse`: unlink buffer i and push it behind the head. */
    method Promote(i: nat)
      requires Linked(next, prev, order) && |order| == NBUF && i < NBUF
      modifies this`next, this`prev, this`order
      ensures Linked(next, prev, order) && |order| == NBUF
      ensures exists k ::
        0 <= k < NBUF && old(order)[k] == i && order == [i] + old(order)[..k] + old(order)[k + 1..]
    {
      OrderCovers(order, NBUF, i);
      ghost var k :| 0 <= k < NBUF && order[k] == i;
      Moved(next, prev, order, k);
      var nx, pv := next, prev;
      pv := pv[nx[i] := pv[i]];
      nx := nx[pv[i] := nx[i]];
      nx := nx[i := nx[HEAD]];
      pv := pv[i := HEAD];
      pv := pv[nx[HEAD] := i];
      nx := nx[HEAD := i];
      assert nx == MovedNext(next, prev, i) && pv == MovedPrev(next, prev, i);
      next, prev, order := nx, pv, MoveToFront(order, k);
    }

    /** Release a busy buffer and move it to the front of the list. The holder has written or
        pinned what it changed, as the comment on the interface asks. */
    method Brelse(i: nat)
      requires Valid() && i < NBUF && bufs[i].busy
      requires bufs[i].valid ==> bufs[i].dirty || bufs[i].data == disk[bufs[i].sector.value]
      modifies this`bufs, this`next, this`prev, this`order
      ensures Valid() && SameView(disk, old(bufs), disk, bufs)
      ensures bufs == old(bufs)[i := old(bufs)[i].(busy := false)]
      ensures exists k ::
        0 <= k < NBUF && old(order)[k] == i && order == [i] + old(order)[..k] + old(order)[k + 1..]
    {
      Promote(i);
      ReleaseKeepsView(disk, bufs, i);
      bufs := bufs[i := bufs[i].(busy := false)];
    }
  }
}
