/** The image builder (mkfs.c): inodes and blocks handed out in order, the bitmap written last. */
module Mkfs {
  import opened Common
  import opened FsTypes
  import opened FsSpec
  import opened Fs

  /** What `main` sets aside before the first file: the boot block, the superblock, the inodes
      and the bitmap. */
  function MetaBlocks(size: nat, ninodes: nat): nat { ninodes / IPB + 3 + size / BPB + 1 }

  /** The sectors of inodes and of bitmap bits are metadata, apart from one another and from the
      first two. */
  lemma SectorsApart(size: nat, ninodes: nat, i: nat, b: nat)
    requires i < ninodes && b < size
    ensures 2 <= InodeSector(i) < BitmapSector(0, ninodes) <= BitmapSector(b, ninodes) < MetaBlocks(size, ninodes)
  {
    assert i / IPB <= ninodes / IPB && b / BPB <= size / BPB;
  }

  /** What the kernel's `balloc` does with a volume whose files are all below the log, which starts
      at sector `start`. The bitmap says nothing of the log, so once every data block is owned the
      header of the log is handed out as data; until then a block below it. */
  method BallocAtLog(fs: FileSystem, start: nat) returns (r: Option<nat>)
    requires Sound(fs.v, fs.meta, fs.owner) && fs.meta <= start < |fs.v.blocks|
    requires forall b :: b in fs.owner ==> b < start
    modifies fs`v, fs`logged
    ensures r.Some? && fs.meta <= r.value <= start && r.value !in fs.owner
    ensures r.value == start <==> forall b :: fs.meta <= b < start ==> b in fs.owner
  {
    assert !fs.v.bitmap[start];
    r := fs.Balloc();
  }

  /** The bitmap that `balloc(used)` writes: the first n bits set. */
  function FirstBits(size: nat, n: nat): (r: seq<bool>)
    ensures |r| == size && forall b :: 0 <= b < size ==> r[b] == (b < n)
  {
    seq(size, b => b < n)
  }

  /** The image as it would be with its bitmap written now. */
  function WithBitmap(v: Vol, n: nat): Vol { v.(bitmap := FirstBits(|v.blocks|, n)) }

  /** Blocks from `free` on are zero and unnamed, blocks from meta to `free` each named once. */
  ghost predicate Building(v: Vol, meta: nat, owner: Owner, free: nat) {
    && Owned(WithBitmap(v, free), meta, owner) && meta <= free <= |v.blocks|
    && forall b :: free <= b < |v.blocks| ==> v.blocks[b] == Zero()
  }

  /** No file block past the end has been allocated. */
  ghost predicate NoExtra(v: Vol, i: int)
    requires Shape(v) && 0 <= i < |v.inodes|
  {
    forall bn {:trigger SlotOf(bn)} :: 0 <= bn < MAXFILE && bn * BSIZE >= v.inodes[i].size ==>
      Name(v, i, SlotOf(bn)) == 0
  }

  class Image {
    const meta: nat
    var v: Vol
    var freeblock: nat
    var usedblocks: nat
    var freeinode: nat
    ghost var owner: Owner

    /** Taking the next block leaves ownership exact and every byte as it was. */
    method TakeBlock(i: nat, s: nat) returns (ok: bool)
      requires usedblocks == freeblock && Empty(v, meta, owner, freeblock, i, s)
      modifies this
      ensures ok == (old(freeblock) < |old(v).blocks|) && (!ok ==> freeblock == |v.blocks|)
      ensures ok ==>
        Building(v, meta, owner, freeblock) && usedblocks == freeblock == old(freeblock) + 1 &&
        freeinode == old(freeinode)
      ensures ok ==> Grown(WithBitmap(old(v), old(freeblock)), WithBitmap(v, freeblock), i)
      ensures ok ==> Name(WithBitmap(v, freeblock), i, s) == old(freeblock) != 0
      ensures ok ==> forall t :: 0 <= t < SLOTS && t != s ==>
        Name(WithBitmap(v, freeblock), i, t) == Name(WithBitmap(old(v), old(freeblock)), i, t)
    {
      ok := freeblock < |v.blocks|;
      if !ok { return; }
      ghost var v0, owner0 := v, owner;
      assert CanPut(v, i, s) by { TakeBuilds(v, meta, owner, freeblock, i, s); }
      PutName(i, s, freeblock);
      owner := owner[freeblock := (i, s)];
      freeblock := freeblock + 1;
      usedblocks := usedblocks + 1;
      TakeBuilds(v0, meta, owner0, freeblock - 1, i, s);
    }

    /** The inode or its indirect block written back with block number b in slot s. */
    method PutName(i: nat, s: nat, b: nat)
      requires CanPut(v, i, s)
      modifies this`v
      ensures v == Put(old(v), i, s, b)
    {
      var ip := v.inodes[i];
      if s <= NDIRECT {
        v := v.(inodes := v.inodes[i := ip.(addrs := ip.addrs[s := b])]);
      } else {
        var ind := ip.addrs[NDIRECT];
        v := v.(blocks := v.blocks[ind := SetWord(v.blocks[ind], s - NDIRECT - 1, b)]);
      }
    }

    /** The image with the bitmap it is going to get. */
    ghost function W(): Vol
      reads this
    {
      WithBitmap(v, freeblock)
    }

    ghost predicate Valid()
      reads this
    {
      Building(v, meta, owner, freeblock) && usedblocks == freeblock
    }

    /** File i has the blocks for its size and no others. */
    ghost predicate Complete(i: nat)
      reads this
    {
      Valid() && i < |v.inodes| && NoHoles(W(), i) && NoExtra(W(), i)
    }

    constructor (size: nat, ninodes: nat, meta: nat)
      requires 0 < meta <= size < U32
      ensures Valid() && freeblock == meta && freeinode == 1 && |v.inodes| == ninodes && |v.blocks| == size
      ensures forall i :: 0 <= i < ninodes ==> W().inodes[i] == Inode(0, 0, 0, seq(NDIRECT + 1, _ => 0))
      ensures Sound(W(), meta, owner)
    {
      this.meta := meta;
      v := Vol(seq(size, _ => false), seq(size, _ => Zero()),
        seq(ninodes, _ => Inode(0, 0, 0, seq(NDIRECT + 1, _ => 0))));
      freeblock, usedblocks, freeinode, owner := meta, meta, 1, map[];
    }

    /** The block for file block fbn, the next free one if it has none yet. */
    method MapBlock(i: nat, fbn: nat) returns (x: Option<nat>)
      requires Valid() && i < |v.inodes| && fbn < MAXFILE
      modifies this
      ensures x.None? ==> freeblock == |v.blocks|
      ensures x.Some? ==> Valid() && freeinode == old(freeinode) && Grown(old(W()), W(), i)
      ensures x.Some? ==> Name(W(), i, SlotOf(fbn)) == x.value && 0 < x.value < freeblock
      ensures x.Some? ==> forall t :: 0 <= t < SLOTS && t != SlotOf(fbn) && t != NDIRECT ==>
        Name(W(), i, t) == Name(old(W()), i, t)
    {
      if fbn < NDIRECT {
        x := MapDirect(i, fbn);
      } else {
        x := MapIndirect(i, fbn);
      }
    }

    method MapDirect(i: nat, fbn: nat) returns (x: Option<nat>)
      requires Valid() && i < |v.inodes| && fbn < NDIRECT
      modifies this
      ensures x.None? ==> freeblock == |v.blocks|
      ensures x.Some? ==> Valid() && freeinode == old(freeinode) && Grown(old(W()), W(), i)
      ensures x.Some? ==> Name(W(), i, fbn) == x.value && 0 < x.value < freeblock
      ensures x.Some? ==> forall t :: 0 <= t < SLOTS && t != fbn ==> Name(W(), i, t) == Name(old(W()), i, t)
    {
      NotGrown(W(), i);
      if v.inodes[i].addrs[fbn] == 0 {
        var ok := TakeBlock(i, fbn);
        if !ok { return None; }
      }
      NameIsUsed(v, meta, owner, freeblock, i, fbn);
      x := Some(v.inodes[i].addrs[fbn]);
    }

    method MapIndirect(i: nat, fbn: nat) returns (x: Option<nat>)
      requires Valid() && i < |v.inodes| && NDIRECT <= fbn < MAXFILE
      modifies this
      ensures x.None? ==> freeblock == |v.blocks|
      ensures x.Some? ==> Valid() && freeinode == old(freeinode) && Grown(old(W()), W(), i)
      ensures x.Some? ==> Name(W(), i, fbn + 1) == x.value && 0 < x.value < freeblock
      ensures x.Some? ==> forall t :: 0 <= t < SLOTS && t != fbn + 1 && t != NDIRECT ==>
        Name(W(), i, t) == Name(old(W()), i, t)
    {
      NotGrown(W(), i);
      if v.inodes[i].addrs[NDIRECT] == 0 {
        var ok := TakeBlock(i, NDIRECT);
        if !ok { return None; }
      }
      ghost var w1 := W();
      IndirectInRange(w1, meta, owner, i);
      x := MapWord(i, fbn);
      if x.Some? { GrownTwice(old(W()), w1, W(), i); }
    }

    /** The word for file block fbn in an indirect block that exists. */
    method MapWord(i: nat, fbn: nat) returns (x: Option<nat>)
      requires Valid() && i < |v.inodes| && NDIRECT <= fbn < MAXFILE && 0 < v.inodes[i].addrs[NDIRECT] < |v.blocks|
      modifies this
      ensures x.None? ==> freeblock == |v.blocks|
      ensures x.Some? ==> Valid() && freeinode == old(freeinode) && Grown(old(W()), W(), i)
      ensures x.Some? ==> Name(W(), i, fbn + 1) == x.value && 0 < x.value < freeblock
      ensures x.Some? ==> forall t :: 0 <= t < SLOTS && t != fbn + 1 ==> Name(W(), i, t) == Name(old(W()), i, t)
    {
      NotGrown(W(), i);
      var addr := Word(v.blocks[v.inodes[i].addrs[NDIRECT]], fbn - NDIRECT);
      assert Name(W(), i, fbn + 1) == addr;
      if addr == 0 {
        var ok := TakeBlock(i, fbn + 1);
        if !ok { return None; }
        addr := freeblock - 1;
      }
      NameIsUsed(v, meta, owner, freeblock, i, fbn + 1);
      x := Some(addr);
    }

    /** One turn of the loop of `iappend`: the part of the data that falls into one block. */
    method AppendPiece(i: nat, at: nat, data: seq<int>) returns (ok: bool)
      requires Valid() && i < |v.inodes| && |data| > 0 && at % BSIZE + |data| <= BSIZE && at + |data| <= MAXFILE * BSIZE
      modifies this
      ensures !ok ==> freeblock == |v.blocks|
      ensures ok ==> Valid() && freeinode == old(freeinode) && Patched(old(W()), W(), i, at, data)
      ensures ok ==> forall t :: 0 <= t < SLOTS && t != SlotOf(at / BSIZE) && t != NDIRECT ==>
        Name(W(), i, t) == Name(old(W()), i, t)
    {
      var fbn := at / BSIZE;
      var x := MapBlock(i, fbn);
      ok := x.Some?;
      if ok {
        ghost var w1 := W();
        StoreOwned(w1, meta, owner, i, SlotOf(fbn), at % BSIZE, data);
        StorePatches(old(W()), w1, meta, owner, i, at, data);
        forall t | 0 <= t < SLOTS ensures Name(Stored(w1, x.value, at % BSIZE, data), i, t) == Name(w1, i, t) {
          StoreNames(w1, meta, owner, i, SlotOf(fbn), at % BSIZE, data, i, t);
        }
        v := Stored(v, x.value, at % BSIZE, data);
        assert W() == Stored(w1, x.value, at % BSIZE, data);
      }
    }

    /** Append p to file i; not ok only if every block has been handed out. */
    method Iappend(i: nat, p: seq<int>) returns (ok: bool)
      requires Complete(i) && v.inodes[i].size + |p| <= MAXFILE * BSIZE
      modifies this
      ensures !ok ==> freeblock == |v.blocks|
      ensures ok ==> Complete(i) && freeinode == old(freeinode)
      ensures ok ==> Contents(W(), i) == Contents(old(W()), i) + p
      ensures ok ==> |v.inodes| == |old(v).inodes| && forall j :: 0 <= j < |v.inodes| && j != i ==>
        SameFile(old(W()), W(), j)
      ensures ok && Sound(old(W()), meta, old(owner)) ==> Sound(W(), meta, owner)
    {
      ghost var w0, owner0 := W(), owner;
      var off0 := v.inodes[i].size;
      ok := AppendAll(i, off0, p, w0);
      if ok {
        SetSize(i, p, w0, owner0);
      }
    }

    /** The end of `iappend`: the size. */
    method SetSize(i: nat, p: seq<int>, ghost w0: Vol, ghost owner0: Owner)
      requires usedblocks == freeblock && Appended(w0, v, meta, owner, freeblock, i, p)
      modifies this`v
      ensures Complete(i) && |v.inodes| == |w0.inodes| && Contents(W(), i) == Contents(w0, i) + p
      ensures forall j :: 0 <= j < |v.inodes| && j != i ==> SameFile(w0, W(), j)
      ensures Sound(w0, meta, owner0) ==> Sound(W(), meta, owner)
    {
      AppendedImage(w0, owner0, v, meta, owner, freeblock, i, p);
      ghost var w' := WithBitmap(Resized(v, i, w0.inodes[i].size + |p|), freeblock);
      v := Resized(v, i, v.inodes[i].size + |p|);
      assert W() == w';
    }

    /** The loop of `iappend`. */
    method AppendAll(i: nat, off0: nat, p: seq<int>, ghost w0: Vol) returns (ok: bool)
      requires Valid() && W() == w0 && i < |v.inodes| && off0 + |p| <= MAXFILE * BSIZE && NoneFrom(w0, i, off0)
      modifies this
      ensures !ok ==> freeblock == |v.blocks|
      ensures ok ==>
        Valid() && freeinode == old(freeinode) && Patched(w0, W(), i, off0, p) && NoneFrom(W(), i, off0 + |p|)
    {
      ghost var first := freeinode;
      var tot := 0;
      NotPatched(w0, i, off0);
      assert p[..0] == [];
      while tot < |p|
        invariant 0 <= tot <= |p| && Valid() && freeinode == first && Appending(w0, W(), i, off0, p, tot)
      {
        var n1 := Min(|p| - tot, ((off0 + tot) / BSIZE + 1) * BSIZE - (off0 + tot));
        ok := AppendStep(i, off0, p, tot, n1, w0);
        if !ok { return; }
        tot := tot + n1;
      }
      assert p[..tot] == p;
      ok := true;
    }

    /** One turn of that loop. */
    method AppendStep(i: nat, off0: nat, p: seq<int>, tot: nat, n1: nat, ghost w0: Vol) returns (ok: bool)
      requires Valid() && i < |v.inodes| && off0 + |p| <= MAXFILE * BSIZE && 0 < n1 && tot + n1 <= |p|
      requires Appending(w0, W(), i, off0, p, tot) && (off0 + tot) % BSIZE + n1 <= BSIZE
      modifies this
      ensures !ok ==> freeblock == |v.blocks|
      ensures ok ==> Valid() && freeinode == old(freeinode) && Appending(w0, W(), i, off0, p, tot + n1)
    {
      ghost var w1 := W();
      ok := AppendPiece(i, off0 + tot, p[tot..tot + n1]);
      if ok {
        PatchedTwice(w0, w1, W(), i, off0, p, tot, n1);
      }
    }

    /** Hand out the next inode, empty and with one link. */
    method Ialloc(kind: int) returns (inum: nat)
      requires Valid() && freeinode < |v.inodes| && v.inodes[freeinode].addrs == seq(NDIRECT + 1, _ => 0)
      modifies this
      ensures Valid() && inum == old(freeinode) && freeinode == inum + 1 && |v.inodes| == |old(v).inodes|
      ensures v.inodes[inum] == Inode(kind, 1, 0, seq(NDIRECT + 1, _ => 0)) && NoHoles(W(), inum) && NoExtra(W(), inum)
      ensures forall j :: 0 <= j < |v.inodes| && j != inum ==> SameFile(old(W()), W(), j)
      ensures Sound(old(W()), meta, old(owner)) ==> Sound(W(), meta, owner)
    {
      inum := freeinode;
      SameAddrs(W(), meta, owner, inum, Inode(kind, 1, 0, seq(NDIRECT + 1, _ => 0)));
      v := v.(inodes := v.inodes[inum := Inode(kind, 1, 0, seq(NDIRECT + 1, _ => 0))]);
      freeinode := freeinode + 1;
      assert W() == old(W()).(inodes := old(W()).inodes[inum := v.inodes[inum]]);
      if Sound(old(W()), meta, owner) { SoundStep(old(W()), W(), meta, owner, owner, inum); }
    }

    /** `balloc(usedblocks)` writes the bitmap: the image is one the kernel can run on. */
    method Finish()
      requires Valid()
      modifies this`v
      ensures v == old(W()) && Owned(v, meta, owner) && (Sound(old(W()), meta, owner) ==> Sound(v, meta, owner))
      ensures forall b :: 0 <= b < |v.blocks| ==> (v.bitmap[b] <==> b < freeblock)
      ensures forall b :: b in owner <==> meta <= b < freeblock
    {
      v := v.(bitmap := FirstBits(|v.blocks|, usedblocks));
    }
  }

  /** Slot s of inode i has no block yet. */
  ghost predicate Empty(v: Vol, meta: nat, owner: Owner, free: nat, i: nat, s: nat) {
    && Building(v, meta, owner, free) && i < |v.inodes|
    && IsSlot(WithBitmap(v, free), i, s) && Name(WithBitmap(v, free), i, s) == 0
    && (s > NDIRECT ==> v.inodes[i].addrs[NDIRECT] != 0)
  }

  /** It is then owned by that slot, and no other name and no byte has changed. */
  lemma TakeOwned(v: Vol, meta: nat, owner: Owner, free: nat, i: nat, s: nat)
    requires Empty(v, meta, owner, free, i, s) && free < |v.blocks|
    ensures s > NDIRECT ==> 0 < v.inodes[i].addrs[NDIRECT] < |v.blocks|
    ensures var w := WithBitmap(v, free);
      var w' := Named(Allocated(w, free), i, s, free);
      && Owned(w', meta, owner[free := (i, s)]) && Grown(w, w', i) && Name(w', i, s) == free != 0
      && forall t :: 0 <= t < SLOTS && t != s ==> Name(w', i, t) == Name(w, i, t)
  {
    var w := WithBitmap(v, free);
    AllocOwned(w, meta, owner, i, s, free);
    AllocGrows(w, meta, owner, i, s, free);
    forall t | 0 <= t < SLOTS && t != s ensures Name(Named(Allocated(w, free), i, s, free), i, t) == Name(w, i, t) {
      NameAfter(w, meta, owner, i, s, free, i, t);
    }
  }

  predicate CanPut(v: Vol, i: nat, s: nat) {
    && i < |v.inodes| && |v.inodes[i].addrs| == NDIRECT + 1 && s < SLOTS
    && (s > NDIRECT ==>
          var ind := v.inodes[i].addrs[NDIRECT]; 0 < ind < |v.blocks| && |v.blocks[ind]| == BSIZE)
  }

  /** Block number b written into slot s of inode i. */
  function Put(v: Vol, i: nat, s: nat, b: nat): Vol
    requires CanPut(v, i, s)
  {
    if s <= NDIRECT then v.(inodes := v.inodes[i := v.inodes[i].(addrs := v.inodes[i].addrs[s := b])])
    else
      var ind := v.inodes[i].addrs[NDIRECT];
      v.(blocks := v.blocks[ind := SetWord(v.blocks[ind], s - NDIRECT - 1, b)])
  }

  /** The image with the bitmap it will get is the one the kernel would have made. */
  lemma TakeImage(v: Vol, meta: nat, owner: Owner, free: nat, i: nat, s: nat)
    requires Empty(v, meta, owner, free, i, s) && free < |v.blocks|
    requires (s > NDIRECT ==> 0 < v.inodes[i].addrs[NDIRECT] < |v.blocks|)
    ensures s > NDIRECT ==> v.inodes[i].addrs[NDIRECT] < free
    ensures WithBitmap(Put(v, i, s, free), free + 1) == Named(Allocated(WithBitmap(v, free), free), i, s, free)
  {
    NextBit(v, free);
    assert Name(WithBitmap(v, free), i, NDIRECT) == v.inodes[i].addrs[NDIRECT];
  }

  lemma TakeBuilds(v: Vol, meta: nat, owner: Owner, free: nat, i: nat, s: nat)
    requires Empty(v, meta, owner, free, i, s) && free < |v.blocks|
    ensures CanPut(v, i, s)
    ensures var v' := Put(v, i, s, free);
      var w, w' := WithBitmap(v, free), WithBitmap(v', free + 1);
      && Building(v', meta, owner[free := (i, s)], free + 1) && Grown(w, w', i) && Name(w', i, s) == free != 0
      && forall t :: 0 <= t < SLOTS && t != s ==> Name(w', i, t) == Name(w, i, t)
  {
    TakeOwned(v, meta, owner, free, i, s);
    TakeImage(v, meta, owner, free, i, s);
  }

  /** Changing anything of an inode but its block numbers changes no name. */
  lemma SameAddrs(w: Vol, meta: nat, owner: Owner, i: nat, ip: Inode)
    requires Owned(w, meta, owner) && i < |w.inodes| && ip.addrs == w.inodes[i].addrs == seq(NDIRECT + 1, _ => 0)
    requires ip.size == 0
    ensures var w' := w.(inodes := w.inodes[i := ip]);
      && Owned(w', meta, owner) && NoHoles(w', i) && NoExtra(w', i)
      && forall j :: 0 <= j < |w.inodes| && j != i ==> SameFile(w, w', j)
  {
    var w' := w.(inodes := w.inodes[i := ip]);
    forall j, t | IsSlot(w, j, t) ensures Name(w', j, t) == Name(w, j, t) {}
  }

  lemma ResizedBitmap(v: Vol, i: nat, size: nat, free: nat)
    requires i < |v.inodes|
    ensures WithBitmap(Resized(v, i, size), free) == Resized(WithBitmap(v, free), i, size)
  {
  }

  /** No file block that starts at or past `end` has been allocated. */
  ghost predicate NoneFrom(v: Vol, i: int, end: nat)
    requires Shape(v) && 0 <= i < |v.inodes|
  {
    forall bn {:trigger SlotOf(bn)} :: 0 <= bn < MAXFILE && bn * BSIZE >= end ==> Name(v, i, SlotOf(bn)) == 0
  }

  /** A block number in an inode of the image is one already handed out. */
  lemma NameIsUsed(v: Vol, meta: nat, owner: Owner, free: nat, i: nat, s: nat)
    requires Building(v, meta, owner, free) && IsSlot(WithBitmap(v, free), i, s)
    ensures Name(WithBitmap(v, free), i, s) != 0 ==> 0 < Name(WithBitmap(v, free), i, s) < free
  {
  }

  /** The bytes of p are in place behind the end of file i of image w, and no block beyond. */
  ghost predicate Appended(w: Vol, v: Vol, meta: nat, owner: Owner, free: nat, i: nat, p: seq<int>) {
    && Building(v, meta, owner, free) && i < |w.inodes| && Patched(w, WithBitmap(v, free), i, w.inodes[i].size, p)
    && NoHoles(w, i) && NoneFrom(WithBitmap(v, free), i, w.inodes[i].size + |p|)
  }

  /** The image with the appended bytes in place and the size set. */
  lemma AppendedImage(w: Vol, owner0: Owner, v: Vol, meta: nat, owner: Owner, free: nat, i: nat, p: seq<int>)
    requires Appended(w, v, meta, owner, free, i, p)
    ensures var v' := Resized(v, i, w.inodes[i].size + |p|);
      var w' := WithBitmap(v', free);
      && Building(v', meta, owner, free) && NoHoles(w', i) && NoExtra(w', i) && Contents(w', i) == Contents(w, i) + p
      && |v'.inodes| == |w.inodes| && (forall j :: 0 <= j < |v'.inodes| && j != i ==> SameFile(w, w', j))
      && (Sound(w, meta, owner0) ==> Sound(w', meta, owner))
  {
    AppendedWell(w, WithBitmap(v, free), meta, owner, i, p);
    ResizedBitmap(v, i, w.inodes[i].size + |p|, free);
    if Sound(w, meta, owner0) {
      SoundStep(w, WithBitmap(Resized(v, i, w.inodes[i].size + |p|), free), meta, owner0, owner, i);
    }
  }

  /** `iappend` has appended the first tot bytes. */
  ghost predicate Appending(w0: Vol, w: Vol, i: nat, off0: nat, p: seq<int>, tot: nat) {
    tot <= |p| && Patched(w0, w, i, off0, p[..tot]) && NoneFrom(w, i, off0 + tot)
  }

  lemma AppendedWell(w: Vol, w': Vol, meta: nat, owner: Owner, i: nat, p: seq<int>)
    requires i < |w.inodes| && Patched(w, w', i, w.inodes[i].size, p) && NoHoles(w, i) && Owned(w', meta, owner)
    requires NoneFrom(w', i, w.inodes[i].size + |p|)
    ensures var w'' := Resized(w', i, w.inodes[i].size + |p|);
      && Shape(w'') && NoHoles(w'', i) && NoExtra(w'', i) && Owned(w'', meta, owner)
      && Contents(w'', i) == Contents(w, i) + p
      && forall j :: 0 <= j < |w.inodes| && j != i ==> SameFile(w, w'', j)
  {
    var size := w.inodes[i].size + |p|;
    var w'' := Resized(w', i, size);
    assert Shape(w'') && NoHoles(w'', i) && Contents(w'', i) == Contents(w, i) + p by { AppendedContents(w, w', i, p); }
    assert Owned(w'', meta, owner) by { ResizedOwned(w', meta, owner, i, size); }
    assert NoExtra(w'', i) by { ResizedNone(w', i, size); }
    AppendedOthers(w, w', i, p, size);
  }

  lemma AppendedOthers(w: Vol, w': Vol, i: nat, p: seq<int>, size: nat)
    requires i < |w.inodes| && Patched(w, w', i, w.inodes[i].size, p)
    ensures forall j :: 0 <= j < |w.inodes| && j != i ==> SameFile(w, Resized(w', i, size), j)
  {
    forall j | 0 <= j < |w.inodes| && j != i ensures SameFile(w, Resized(w', i, size), j) {
      ResizedOthers(w, w', i, w.inodes[i].size, p, size, j);
    }
  }

  lemma AppendedContents(w: Vol, w': Vol, i: nat, p: seq<int>)
    requires i < |w.inodes| && Patched(w, w', i, w.inodes[i].size, p) && NoHoles(w, i)
    ensures var w'' := Resized(w', i, w.inodes[i].size + |p|);
      Shape(w'') && NoHoles(w'', i) && Contents(w'', i) == Contents(w, i) + p
  {
    var off := w.inodes[i].size;
    PatchedContents(w, w', i, off, p);
    assert Contents(w, i) + p == Spliced(Contents(w, i), off, p);
  }

  lemma ResizedNone(v: Vol, i: nat, size: nat)
    requires Shape(v) && i < |v.inodes| && NoneFrom(v, i, size)
    ensures Shape(Resized(v, i, size)) && NoExtra(Resized(v, i, size), i)
  {
    ResizedAt(v, i, size, i, 0);
    forall bn {:trigger SlotOf(bn)} | 0 <= bn < MAXFILE && bn * BSIZE >= size
      ensures Name(Resized(v, i, size), i, SlotOf(bn)) == 0
    {
      ResizedAt(v, i, size, i, SlotOf(bn));
    }
  }

  lemma NextBit(v: Vol, free: nat)
    requires free < |v.blocks| && v.blocks[free] == Zero()
    ensures Allocated(WithBitmap(v, free), free) == WithBitmap(v, free + 1)
  {
    assert FirstBits(|v.blocks|, free)[free := true] == FirstBits(|v.blocks|, free + 1);
    assert v.blocks[free := Zero()] == v.blocks;
  }

  /** Rounding the size of the root directory up to whole blocks, as mkfs does last, leaves a
      sound image exactly when that size was not a multiple of the block size. */
  lemma RoundedImage(v: Vol, meta: nat, owner: Owner, i: nat, off: nat)
    requires Sound(v, meta, owner) && i < |v.inodes| && v.inodes[i].size == off && NoExtra(v, i)
    requires off + BSIZE <= MAXFILE * BSIZE
    ensures Sound(Resized(v, i, (off / BSIZE + 1) * BSIZE), meta, owner) <==> off % BSIZE != 0
  {
    var size := (off / BSIZE + 1) * BSIZE;
    var v' := Resized(v, i, size);
    RootRounding(v, i, off);
    ResizedOwned(v, meta, owner, i, size);
    if off % BSIZE != 0 {
      forall j | 0 <= j < |v.inodes| && j != i ensures SameFile(v, v', j) { UntouchedFile(v, v', j); }
      SoundStep(v, v', meta, owner, owner, i);
    }
  }

  /** The rounded directory has no holes exactly when its size was not a multiple of the block
      size: else the new size passes the blocks that exist. */
  lemma RootRounding(v: Vol, i: nat, off: nat)
    requires Shape(v) && i < |v.inodes| && v.inodes[i].size == off && NoHoles(v, i) && NoExtra(v, i)
    requires off + BSIZE <= MAXFILE * BSIZE
    ensures Shape(Resized(v, i, (off / BSIZE + 1) * BSIZE))
    ensures NoHoles(Resized(v, i, (off / BSIZE + 1) * BSIZE), i) <==> off % BSIZE != 0
  {
    var size := (off / BSIZE + 1) * BSIZE;
    var v' := Resized(v, i, size);
    ResizedAt(v, i, size, i, 0);
    forall bn {:trigger SlotOf(bn)} | 0 <= bn < MAXFILE ensures Name(v', i, SlotOf(bn)) == Name(v, i, SlotOf(bn)) {
      ResizedAt(v, i, size, i, SlotOf(bn));
    }
    var last := off / BSIZE;
    assert SlotOf(last) < SLOTS;
    assert last * BSIZE < size;
  }

  /** It does happen: an image whose root directory fills one block. */
  lemma RootFillsBlock() returns (v: Vol, owner: Owner)
    ensures Sound(v, 1, owner) && |v.inodes| == 1 && v.inodes[0].size == BSIZE && NoExtra(v, 0)
    ensures !Sound(Resized(v, 0, (BSIZE / BSIZE + 1) * BSIZE), 1, owner)
  {
    var addrs := seq(NDIRECT + 1, s => if s == 0 then 1 else 0);
    v := Vol([true, true], [Zero(), Zero()], [Inode(1, 1, BSIZE, addrs)]);
    owner := map[1 := (0, 0)];
    forall t | 0 <= t < SLOTS ensures Name(v, 0, t) == if t == 0 then 1 else 0 {}
    assert IsSlot(v, 0, 0);
    RoundedImage(v, 1, owner, 0, BSIZE);
  }
}
