/** The inode layer of the file system (fs.c): balloc, bfree, bmap, itrunc, readi and writei. */
module Fs {
  import opened Common
  import opened FsTypes
  import opened FsSpec

  /** BBLOCK(b, ninodes) */
  function BitmapSector(b: nat, ninodes: nat): nat { b / BPB + ninodes / IPB + 3 }

  /** IBLOCK(i) */
  function InodeSector(i: nat): nat { i / IPB + 2 }

  /** Every block is in use. */
  ghost predicate Full(v: Vol) {
    forall b :: 0 <= b < |v.bitmap| ==> v.bitmap[b]
  }

  /** Every block that differs and the bitmap sector of every bit that differs are in l. */
  ghost predicate Covers(v: Vol, v': Vol, l: set<int>, ninodes: nat) {
    && |v'.blocks| == |v.blocks| && |v'.bitmap| == |v.bitmap|
    && (forall b :: 0 <= b < |v.blocks| && v'.blocks[b] != v.blocks[b] ==> b in l)
    && (forall b :: 0 <= b < |v.bitmap| && v'.bitmap[b] != v.bitmap[b] ==> BitmapSector(b, ninodes) in l)
  }

  /** What has changed since v, with l logged, has been logged. */
  ghost predicate Journaled(v: Vol, l: set<int>, v': Vol, l': set<int>, ninodes: nat) {
    l <= l' && Covers(v, v', l', ninodes)
  }

  lemma JournaledTwice(a: Vol, la: set<int>, b: Vol, lb: set<int>, c: Vol, lc: set<int>, ninodes: nat)
    requires Journaled(a, la, b, lb, ninodes) && Journaled(b, lb, c, lc, ninodes)
    ensures Journaled(a, la, c, lc, ninodes)
  {
    forall k | 0 <= k < |a.blocks| && c.blocks[k] != a.blocks[k] ensures k in lc {
      assert b.blocks[k] != a.blocks[k] || c.blocks[k] != b.blocks[k];
    }
    forall k | 0 <= k < |a.bitmap| && c.bitmap[k] != a.bitmap[k] ensures BitmapSector(k, ninodes) in lc {
      assert b.bitmap[k] != a.bitmap[k] || c.bitmap[k] != b.bitmap[k];
    }
  }

  /** The sector of every disk inode that differs is in l. */
  ghost predicate InodesCovered(d: seq<Inode>, d': seq<Inode>, l: set<int>) {
    |d'| == |d| && forall j :: 0 <= j < |d| && d'[j] != d[j] ==> InodeSector(j) in l
  }

  class FileSystem {
    const meta: nat               // the first block that is not metadata
    const ninodes: nat
    var v: Vol                    // blocks, bitmap and the in-memory inodes
    var dinodes: seq<Inode>       // the inodes on the disk
    ghost var owner: Owner
    ghost var logged: set<int>    // the sectors given to log_write

    constructor (v: Vol, meta: nat, ghost owner: Owner)
      ensures this.v == v && this.meta == meta && this.owner == owner && ninodes == |v.inodes| && dinodes == v.inodes
      ensures logged == {}
    {
      this.v, this.meta, this.owner, ninodes, dinodes, logged := v, meta, owner, |v.inodes|, v.inodes, {};
    }

    /** Allocate the first free block and zero it. None is the panic "balloc: out of blocks". */
    method Balloc() returns (r: Option<nat>)
      requires Shape(v)
      modifies this`v, this`logged
      ensures r.None? ==> v == old(v) && logged == old(logged) && Full(v)
      ensures r.Some? ==> r.value < |old(v).bitmap| && !old(v).bitmap[r.value] && v == Allocated(old(v), r.value)
      ensures r.Some? ==> forall b :: 0 <= b < r.value ==> old(v).bitmap[b]
      ensures r.Some? ==> logged == old(logged) + {BitmapSector(r.value, ninodes), r.value}
    {
      var b := 0;
      while b < |v.bitmap|
        invariant v == old(v) && logged == old(logged)
        invariant forall c :: 0 <= c < b && c < |v.bitmap| ==> v.bitmap[c]
      {
        var bi := 0;
        while bi < BPB && b + bi < |v.bitmap|
          invariant 0 <= bi <= BPB && v == old(v) && logged == old(logged)
          invariant forall c :: 0 <= c < b + bi && c < |v.bitmap| ==> v.bitmap[c]
        {
          if !v.bitmap[b + bi] {
            v := Allocated(v, b + bi);
            logged := logged + {BitmapSector(b + bi, ninodes), b + bi};
            return Some(b + bi);
          }
          bi := bi + 1;
        }
        b := b + BPB;
      }
      r := None;
    }

    /** Clear the bit of block b. A clear bit is the panic "freeing free block". */
    method Bfree(b: nat)
      requires b < |v.bitmap| && v.bitmap[b]
      modifies this`v, this`logged
      ensures v == old(v).(bitmap := old(v).bitmap[b := false]) && logged == old(logged) + {BitmapSector(b, ninodes)}
    {
      v := v.(bitmap := v.bitmap[b := false]);
      logged := logged + {BitmapSector(b, ninodes)};
    }

    /** Copy a modified in-memory inode to disk. */
    method Iupdate(i: nat)
      requires i < |v.inodes| == |dinodes|
      modifies this`dinodes, this`logged
      ensures dinodes == old(dinodes)[i := v.inodes[i]] && logged == old(logged) + {InodeSector(i)}
    {
      dinodes := dinodes[i := v.inodes[i]];
      logged := logged + {InodeSector(i)};
    }

    /** Give the empty slot s of inode i a fresh block. */
    method AllocSlot(i: nat, s: nat) returns (r: Option<nat>)
      requires Owned(v, meta, owner) && IsSlot(v, i, s) && Name(v, i, s) == 0
      requires s > NDIRECT ==> v.inodes[i].addrs[NDIRECT] != 0
      modifies this`v, this`owner, this`logged
      ensures r.Some? ==> Owned(v, meta, owner) && Grown(old(v), v, i) && Name(v, i, s) == r.value != 0
      ensures r.Some? ==>
        logged == old(logged) + {BitmapSector(r.value, ninodes), r.value} +
        (if s > NDIRECT then {v.inodes[i].addrs[NDIRECT]} else {})
      ensures r.Some? ==> Journaled(old(v), old(logged), v, logged, ninodes)
      ensures r.None? ==> Full(v)
      ensures r.Some? && s > NDIRECT ==> v.inodes[i].addrs[NDIRECT] == old(v).inodes[i].addrs[NDIRECT]
    {
      r := Balloc();
      if r.Some? {
        var b := r.value;
        AllocOwned(old(v), meta, owner, i, s, b);
        AllocGrows(old(v), meta, owner, i, s, b);
        var ip := v.inodes[i];
        if s <= NDIRECT {
          v := v.(inodes := v.inodes[i := ip.(addrs := ip.addrs[s := b])]);
        } else {
          var ind := ip.addrs[NDIRECT];
          v := v.(blocks := v.blocks[ind := SetWord(v.blocks[ind], s - NDIRECT - 1, b)]);
          logged := logged + {ind};
        }
        owner := owner[b := (i, s)];
      }
    }

    /** The block address of file block bn of inode i, allocating it if need be. */
    method Bmap(i: nat, bn: nat) returns (r: Option<nat>)
      requires Owned(v, meta, owner) && i < |v.inodes| && bn < MAXFILE
      modifies this`v, this`owner, this`logged
      ensures r.Some? ==> Owned(v, meta, owner) && Grown(old(v), v, i) && Name(v, i, SlotOf(bn)) == r.value != 0
      ensures Name(old(v), i, SlotOf(bn)) != 0 ==>
        r.Some? && v == old(v) && logged == old(logged) && owner == old(owner)
      ensures r.Some? ==> logged <= old(logged) + {r.value} + Support(v, i, ninodes)
      ensures if r.Some? then Journaled(old(v), old(logged), v, logged, ninodes) else Full(v)
    {
      if bn < NDIRECT {
        var addr := v.inodes[i].addrs[bn];
        if addr == 0 {
          r := AllocSlot(i, bn);
        } else {
          NotGrown(v, i);
          assert Name(v, i, bn) == addr;
          r := Some(addr);
        }
        return;
      }
      r := BmapIndirect(i, bn);
    }

    /** The second half of `bmap`, through the indirect block. */
    method BmapIndirect(i: nat, bn: nat) returns (r: Option<nat>)
      requires Owned(v, meta, owner) && i < |v.inodes| && NDIRECT <= bn < MAXFILE
      modifies this`v, this`owner, this`logged
      ensures r.Some? ==> Owned(v, meta, owner) && Grown(old(v), v, i) && Name(v, i, bn + 1) == r.value != 0
      ensures Name(old(v), i, bn + 1) != 0 ==> r.Some? && v == old(v) && logged == old(logged) && owner == old(owner)
      ensures r.Some? ==> logged <= old(logged) + {r.value} + Support(v, i, ninodes)
      ensures if r.Some? then Journaled(old(v), old(logged), v, logged, ninodes) else Full(v)
    {
      if v.inodes[i].addrs[NDIRECT] == 0 {
        r := AllocSlot(i, NDIRECT);
        if r.None? { return; }
      } else {
        NotGrown(v, i);
      }
      IndirectInRange(v, meta, owner, i);
      ghost var v1, l1 := v, logged;
      var addr := Word(v.blocks[v.inodes[i].addrs[NDIRECT]], bn - NDIRECT);
      if addr == 0 {
        r := AllocSlot(i, bn + 1);
        if r.Some? {
          GrownTwice(old(v), v1, v, i);
          JournaledTwice(old(v), old(logged), v1, l1, v, logged, ninodes);
        }
      } else {
        assert Name(v, i, bn + 1) == addr;
        r := Some(addr);
      }
    }

    /** Read n bytes at off: nothing if off is past the end or off + n wraps around, else the bytes
        up to the end of the file. The file is not a device. */
    method Readi(i: nat, off: nat, n: nat) returns (r: Option<seq<int>>)
      requires Owned(v, meta, owner) && i < |v.inodes| && NoHoles(v, i) && off < U32 && n < U32
      modifies this`v, this`owner, this`logged
      ensures v == old(v) && owner == old(owner) && logged == old(logged)
      ensures r == if off > v.inodes[i].size || off + n >= U32 then None
                   else Some(Contents(v, i)[off..Min(off + n, v.inodes[i].size)])
    {
      if off > v.inodes[i].size || (off + n) % U32 < off {
        return None;
      }
      var n1 := if off + n > v.inodes[i].size then v.inodes[i].size - off else n;
      var dst := ReadLoop(i, off, n1);
      r := Some(dst);
    }

    /** The copy loop of `readi`. */
    method ReadLoop(i: nat, off: nat, n: nat) returns (dst: seq<int>)
      requires Readable(v, meta, owner, i, off + n)
      modifies this`v, this`owner, this`logged
      ensures v == old(v) && owner == old(owner) && logged == old(logged) && dst == Contents(v, i)[off..off + n]
    {
      ghost var c, v0, owner0, logged0 := Contents(v, i), v, owner, logged;
      dst := [];
      var tot := 0;
      while tot < n
        invariant 0 <= tot <= n && dst == c[off..off + tot]
        invariant v == v0 && owner == owner0 && logged == logged0
      {
        var m := Min(n - tot, BSIZE - (off + tot) % BSIZE);
        dst := ReadNext(i, off, tot, m, dst);
        tot := tot + m;
      }
    }

    /** One turn of that loop. */
    method ReadNext(i: nat, off: nat, tot: nat, m: nat, dst: seq<int>) returns (dst': seq<int>)
      requires Readable(v, meta, owner, i, off + tot + m) && 0 < m && (off + tot) % BSIZE + m <= BSIZE
      requires dst == Contents(v, i)[off..off + tot]
      modifies this`v, this`owner, this`logged
      ensures v == old(v) && owner == old(owner) && logged == old(logged) && dst' == Contents(v, i)[off..off + tot + m]
    {
      ghost var c := Contents(v, i);
      var piece := ReadPiece(i, off + tot, m);
      assert piece == c[off + tot..off + tot + m];
      dst' := dst + piece;
      assert dst' == c[off..off + tot + m] by { JoinSlices(c, off, off + tot, off + tot + m); }
    }

    /** m bytes of the file that lie in one block. */
    method ReadPiece(i: nat, at: nat, m: nat) returns (piece: seq<int>)
      requires Readable(v, meta, owner, i, at + m) && 0 < m && at % BSIZE + m <= BSIZE
      modifies this`v, this`owner, this`logged
      ensures v == old(v) && owner == old(owner) && logged == old(logged) && piece == Contents(v, i)[at..at + m]
    {
      var a := ReadBlock(i, at / BSIZE);
      SliceOfBlock(v, i, at, m);
      piece := v.blocks[a][at % BSIZE..at % BSIZE + m];
    }

    /** `bmap` of a block below the size never allocates. */
    method ReadBlock(i: nat, bn: nat) returns (a: nat)
      requires Owned(v, meta, owner) && i < |v.inodes| && NoHoles(v, i) && bn * BSIZE < v.inodes[i].size
      modifies this`v, this`owner, this`logged
      ensures v == old(v) && owner == old(owner) && logged == old(logged)
      ensures bn < MAXFILE && a == Name(v, i, SlotOf(bn)) && 0 < a < |v.blocks|
    {
      assert SlotOf(bn) < SLOTS && Name(v, i, SlotOf(bn)) != 0;
      var r := Bmap(i, bn);
      a := r.value;
    }

    /** The part of a write that falls into one block: map it, copy, log. */
    method WriteBlock(i: nat, at: nat, data: seq<int>) returns (ok: bool)
      requires Owned(v, meta, owner) && i < |v.inodes| && |data| > 0 && at % BSIZE + |data| <= BSIZE
      requires at + |data| <= MAXFILE * BSIZE
      modifies this`v, this`owner, this`logged
      ensures Name(old(v), i, SlotOf(at / BSIZE)) != 0 ==> ok && v.inodes == old(v).inodes
      ensures ok ==> Owned(v, meta, owner) && Patched(old(v), v, i, at, data)
      ensures ok ==> logged <= old(logged) + {Name(v, i, SlotOf(at / BSIZE))} + Support(v, i, ninodes)
      ensures if ok then Journaled(old(v), old(logged), v, logged, ninodes) else Full(v)
    {
      var bn := at / BSIZE;
      var r := Bmap(i, bn);
      ok := r.Some?;
      if ok {
        ghost var v1, l1 := v, logged;
        StoreOwned(v, meta, owner, i, SlotOf(bn), at % BSIZE, data);
        StorePatches(old(v), v, meta, owner, i, at, data);
        v := Stored(v, r.value, at % BSIZE, data);
        logged := logged + {r.value};
        JournaledTwice(old(v), old(logged), v1, l1, v, logged, ninodes);
      }
    }

    /** Write src at off. Refused if off is past the end, off + n wraps around or passes the largest
        file; OutOfBlocks is the panic of `balloc`: every block is in use, and the write needed one
        that the file did not have. Whatever changed on the disk has been logged. */
    method Writei(i: nat, src: seq<int>, off: nat) returns (r: WriteResult)
      requires Owned(v, meta, owner) && i < |v.inodes| && NoHoles(v, i) && off < U32 && |src| < U32
      requires dinodes == v.inodes
      modifies this`v, this`dinodes, this`owner, this`logged
      ensures r.Refused? <==> off > old(v).inodes[i].size || off + |src| >= U32 || off + |src| > MAXFILE * BSIZE
      ensures r.Refused? ==> v == old(v) && dinodes == old(dinodes) && owner == old(owner) && logged == old(logged)
      ensures r.Wrote? ==> Owned(v, meta, owner) && |v.inodes| == |old(v).inodes| && |v.blocks| == |old(v).blocks|
      ensures r.Wrote? ==> NoHoles(v, i) && dinodes == v.inodes
      ensures r.Wrote? ==> Contents(v, i) == Spliced(Contents(old(v), i), off, src)
      ensures r.Wrote? ==> forall j :: 0 <= j < |v.inodes| && j != i ==> SameFile(old(v), v, j)
      ensures r.Wrote? && Sound(old(v), meta, old(owner)) ==> Sound(v, meta, owner)
      ensures r.Wrote? ==> logged <= old(logged) + {InodeSector(i)} + Support(v, i, ninodes) + Touched(v, i, off, |src|)
      ensures r.Wrote? ==> Journaled(old(v), old(logged), v, logged, ninodes)
      ensures r.Wrote? ==> InodesCovered(old(dinodes), dinodes, logged)
      ensures r.OutOfBlocks? ==> Full(v) && Lacks(old(v), i, off, |src|)
    {
      var n := |src|;
      if off > v.inodes[i].size || (off + n) % U32 < off { return Refused; }
      if off + n > MAXFILE * BSIZE { return Refused; }
      ghost var v0, owner0, logged0 := v, owner, logged;
      var ok := WriteLoop(i, src, off);
      if !ok { return OutOfBlocks; }
      FinishWrite(i, src, off, v0, logged0);
      if Sound(v0, meta, owner0) { SoundStep(v0, v, meta, owner0, owner, i); }
      r := Wrote;
    }

    /** The end of `writei`: the size. */
    method FinishWrite(i: nat, src: seq<int>, off: nat, ghost v0: Vol, ghost logged0: set<int>)
      requires Owned(v, meta, owner) && i < |v.inodes| && Writing(v0, logged0, v, logged, ninodes, i, src, off, |src|)
      requires NoHoles(v0, i) && off <= v0.inodes[i].size && dinodes == v0.inodes
      modifies this`v, this`dinodes, this`logged
      ensures Owned(v, meta, owner) && |v.inodes| == |v0.inodes| && |v.blocks| == |v0.blocks| && NoHoles(v, i)
      ensures dinodes == v.inodes
      ensures Contents(v, i) == Spliced(Contents(v0, i), off, src)
      ensures forall j :: 0 <= j < |v.inodes| && j != i ==> SameFile(v0, v, j)
      ensures logged <= logged0 + {InodeSector(i)} + Support(v, i, ninodes) + Touched(v, i, off, |src|)
      ensures Journaled(v0, logged0, v, logged, ninodes) && InodesCovered(v0.inodes, dinodes, logged)
    {
      WrittenWell(v0, logged0, v, logged, meta, owner, ninodes, i, src, off);
      SetSize(i, off, |src|);
    }

    /** The file grows to the end of the write, if that is beyond it. */
    method SetSize(i: nat, off: nat, n: nat)
      requires Shape(v) && i < |v.inodes| == |dinodes|
      requires (!(n > 0 && off + n > v.inodes[i].size) ==> dinodes == v.inodes)
      requires forall j :: 0 <= j < |dinodes| && j != i ==> dinodes[j] == v.inodes[j]
      modifies this`v, this`dinodes, this`logged
      ensures v == Resized(old(v), i, NewSize(old(v).inodes[i].size, off, n)) && dinodes == v.inodes
      ensures old(logged) <= logged <= old(logged) + {InodeSector(i)} && InodesCovered(old(dinodes), dinodes, logged)
    {
      if n > 0 && off + n > v.inodes[i].size {
        v := Resized(v, i, off + n);
        Iupdate(i);
      } else {
        assert Resized(v, i, v.inodes[i].size) == v;
      }
    }

    /** The loop of `writei`. */
    method WriteLoop(i: nat, src: seq<int>, off: nat) returns (ok: bool)
      requires Owned(v, meta, owner) && i < |v.inodes| && NoHoles(v, i) && off <= v.inodes[i].size
      requires off + |src| <= MAXFILE * BSIZE
      modifies this`v, this`owner, this`logged
      ensures ok ==> Owned(v, meta, owner) && Writing(old(v), old(logged), v, logged, ninodes, i, src, off, |src|)
      ensures !ok ==> Full(v) && Lacks(old(v), i, off, |src|)
    {
      ghost var v0, logged0 := v, logged;
      var tot := 0;
      StartWriting(v, logged, ninodes, i, src, off);
      while tot < |src|
        invariant 0 <= tot <= |src| && Owned(v, meta, owner) &&
          Writing(v0, logged0, v, logged, ninodes, i, src, off, tot)
      {
        var m := Min(|src| - tot, BSIZE - (off + tot) % BSIZE);
        ok := WriteStep(i, src, off, tot, m, v0, logged0);
        if !ok { return; }
        tot := tot + m;
      }
      ok := true;
    }

    /** One turn of that loop: m bytes into one block. */
    method WriteStep(i: nat, src: seq<int>, off: nat, tot: nat, m: nat, ghost v0: Vol, ghost logged0: set<int>)
      returns (ok: bool)
      requires Owned(v, meta, owner) && i < |v.inodes| && Writing(v0, logged0, v, logged, ninodes, i, src, off, tot)
      requires NoHoles(v0, i)
      requires 0 < m && tot + m <= |src| && (off + tot) % BSIZE + m <= BSIZE
      modifies this`v, this`owner, this`logged
      ensures ok ==> Owned(v, meta, owner) && Writing(v0, logged0, v, logged, ninodes, i, src, off, tot + m)
      ensures !ok ==> Full(v) && Lacks(v0, i, off, |src|)
    {
      ghost var v1, logged1 := v, logged;
      NamedAlready(v0, v, i, off, src, tot);
      var data := src[tot..tot + m];
      assert |data| == m;
      ok := WriteBlock(i, off + tot, data);
      if ok {
        assert Patched(v1, v, i, off + tot, src[tot..tot + m]);
        assert Journaled(v1, logged1, v, logged, ninodes);
        assert off + |src| <= v0.inodes[i].size ==> v.inodes == v1.inodes;
        assert logged <= logged1 + {Name(v, i, SlotOf((off + tot) / BSIZE))} + Support(v, i, ninodes);
        WrittenMore(v0, logged0, v1, logged1, v, logged, ninodes, i, src, off, tot, m);
      }
    }

    /** Discard the contents of inode i. */
    method Itrunc(i: nat)
      requires Owned(v, meta, owner) && i < |v.inodes| == |dinodes|
      modifies this`v, this`dinodes, this`owner, this`logged
      ensures Owned(v, meta, owner) && owner == Without(old(owner), i)
      ensures v.blocks == old(v).blocks && |v.inodes| == |old(v).inodes|
      ensures v.inodes == old(v).inodes[i := old(v).inodes[i].(size := 0, addrs := v.inodes[i].addrs)]
      ensures forall s :: 0 <= s <= NDIRECT ==> v.inodes[i].addrs[s] == 0
      ensures dinodes == old(dinodes)[i := v.inodes[i]]
      ensures forall j :: 0 <= j < |v.inodes| && j != i ==> SameFile(old(v), v, j)
      ensures Sound(old(v), meta, old(owner)) ==> Sound(v, meta, owner)
      ensures logged <= old(logged) + {InodeSector(i)} + (set b | 0 <= b < |v.bitmap| :: BitmapSector(b, ninodes))
      ensures Journaled(old(v), old(logged), v, logged, ninodes) && InodesCovered(old(dinodes), dinodes, logged)
    {
      TruncDirect(i);
      ghost var v1, l1 := v, logged;
      WithoutSame(old(owner), owner, i, NDIRECT);
      if v.inodes[i].addrs[NDIRECT] != 0 {
        TruncIndirect(i);
        JournaledTwice(old(v), old(logged), v1, l1, v, logged, ninodes);
      } else {
        OwnsNothing(v, meta, owner, i);
        WithoutNone(owner, i);
      }
      ResizedOwned(v, meta, owner, i, 0);
      v := Resized(v, i, 0);
      Truncated(old(v), v, meta, old(owner), owner, i);
      Iupdate(i);
    }

    /** Free the direct blocks of inode i. */
    method TruncDirect(i: nat)
      requires Owned(v, meta, owner) && i < |v.inodes|
      modifies this`v, this`owner, this`logged
      ensures Owned(v, meta, owner) && v.blocks == old(v).blocks && |v.bitmap| == |old(v).bitmap|
      ensures |v.inodes| == |old(v).inodes|
      ensures v.inodes == old(v).inodes[i := old(v).inodes[i].(addrs := v.inodes[i].addrs)]
      ensures (forall s :: 0 <= s < NDIRECT ==> v.inodes[i].addrs[s] == 0)
      ensures v.inodes[i].addrs[NDIRECT] == old(v).inodes[i].addrs[NDIRECT]
      ensures forall b :: b in owner <==> b in old(owner) && !(old(owner)[b].0 == i && old(owner)[b].1 < NDIRECT)
      ensures forall b :: b in owner ==> owner[b] == old(owner)[b]
      ensures logged <= old(logged) + (set b | 0 <= b < |v.bitmap| :: BitmapSector(b, ninodes))
      ensures Journaled(old(v), old(logged), v, logged, ninodes)
    {
      var s := 0;
      ghost var v0, owner0, logged0 := v, owner, logged;
      while s < NDIRECT
        invariant 0 <= s <= NDIRECT && Owned(v, meta, owner) && DirectFreed(v0, owner0, v, owner, i, s)
        invariant logged <= logged0 + (set b | 0 <= b < |v.bitmap| :: BitmapSector(b, ninodes))
        invariant Journaled(v0, logged0, v, logged, ninodes)
      {
        if v.inodes[i].addrs[s] != 0 {
          ghost var v1, l1 := v, logged;
          FreeDirect(i, s, v0, owner0);
          JournaledTwice(v0, logged0, v1, l1, v, logged, ninodes);
        } else {
          SkipDirect(v0, meta, owner0, v, owner, i, s);
        }
        s := s + 1;
      }
    }

    /** Free the block in direct slot s. */
    method FreeDirect(i: nat, s: nat, ghost v0: Vol, ghost owner0: Owner)
      requires Owned(v, meta, owner) && Owned(v0, meta, owner0) && i < |v.inodes| && s < NDIRECT
      requires DirectFreed(v0, owner0, v, owner, i, s) && v.inodes[i].addrs[s] != 0
      modifies this`v, this`owner, this`logged
      ensures Owned(v, meta, owner) && DirectFreed(v0, owner0, v, owner, i, s + 1)
      ensures logged <= old(logged) + (set b | 0 <= b < |v.bitmap| :: BitmapSector(b, ninodes))
      ensures Journaled(old(v), old(logged), v, logged, ninodes)
    {
      var ip := v.inodes[i];
      OwnerOfSlot(v0, meta, owner0, i, s);
      EmptyDirect(v, meta, owner, i, s);
      Bfree(ip.addrs[s]);
      v := v.(inodes := v.inodes[i := ip.(addrs := ip.addrs[s := 0])]);
      owner := owner - {ip.addrs[s]};
    }

    /** Free everything the indirect block of inode i names, and the block itself. */
    method TruncIndirect(i: nat)
      requires Owned(v, meta, owner) && i < |v.inodes| && v.inodes[i].addrs[NDIRECT] != 0
      requires forall s :: 0 <= s < NDIRECT ==> v.inodes[i].addrs[s] == 0
      modifies this`v, this`owner, this`logged
      ensures Owned(v, meta, owner) && owner == Without(old(owner), i)
      ensures v.blocks == old(v).blocks && |v.bitmap| == |old(v).bitmap|
      ensures v.inodes == old(v).inodes[i := old(v).inodes[i].(addrs := old(v).inodes[i].addrs[NDIRECT := 0])]
      ensures logged <= old(logged) + (set b | 0 <= b < |v.bitmap| :: BitmapSector(b, ninodes))
      ensures Journaled(old(v), old(logged), v, logged, ninodes)
    {
      ghost var v0 := v;
      IndirectInRange(v, meta, owner, i);
      var ip := v.inodes[i];
      var a := v.blocks[ip.addrs[NDIRECT]];
      var j := 0;
      while j < NINDIRECT
        invariant 0 <= j <= NINDIRECT && v == v0.(bitmap := v.bitmap) && WordsFreed(v0.bitmap, v.bitmap, a, j)
        invariant owner == old(owner) && logged <= old(logged) +
          (set b | 0 <= b < |v.bitmap| :: BitmapSector(b, ninodes))
        invariant Journaled(v0, old(logged), v, logged, ninodes)
      {
        WordIsSet(v0, meta, owner, i, v.bitmap, j);
        WordsFreedStep(v0.bitmap, v.bitmap, a, j);
        if Word(a, j) != 0 {
          Bfree(Word(a, j));
        }
        j := j + 1;
      }
      IndirectIsSet(v0, meta, owner, i, v.bitmap);
      EmptyIndirect(v0, meta, owner, i, v.bitmap);
      Bfree(ip.addrs[NDIRECT]);
      v := v.(inodes := v.inodes[i := ip.(addrs := ip.addrs[NDIRECT := 0])]);
      owner := Without(owner, i);
    }
  }

  lemma WithoutSame(owner: Owner, owner': Owner, i: int, n: int)
    requires forall b :: b in owner' <==> b in owner && !(owner[b].0 == i && owner[b].1 < n)
    requires forall b :: b in owner' ==> owner'[b] == owner[b]
    ensures Without(owner', i) == Without(owner, i)
  {
    var w, w' := Without(owner, i), Without(owner', i);
    forall b: int ensures b in w <==> b in w' {}
    assert forall b: int :: b in w ==> w[b] == w'[b];
    assert w == w';
  }

  lemma WithoutNone(owner: Owner, i: int)
    requires forall b :: b in owner ==> owner[b].0 != i
    ensures Without(owner, i) == owner
  {
    var w := Without(owner, i);
    forall b: int ensures b in w <==> b in owner {}
  }

  /** An inode without direct or indirect blocks owns nothing. */
  lemma OwnsNothing(v: Vol, meta: nat, owner: Owner, i: nat)
    requires Owned(v, meta, owner) && i < |v.inodes| && forall s :: 0 <= s <= NDIRECT ==> v.inodes[i].addrs[s] == 0
    ensures forall b :: b in owner ==> owner[b].0 != i
  {
  }

  lemma OwnerOfSlot(v: Vol, meta: nat, owner: Owner, i: nat, s: nat)
    requires Owned(v, meta, owner) && i < |v.inodes| && s < NDIRECT
    ensures v.inodes[i].addrs[s] != 0 ==> v.inodes[i].addrs[s] in owner && owner[v.inodes[i].addrs[s]] == (i, s)
    ensures forall b :: b in owner && owner[b] == (i, s) ==> b == v.inodes[i].addrs[s]
  {
    assert Name(v, i, s) == v.inodes[i].addrs[s];
  }

  /** The first s direct blocks of inode i have been freed, and nothing else. */
  ghost predicate DirectFreed(v0: Vol, owner0: Owner, v: Vol, owner: Owner, i: nat, s: nat) {
    && Shape(v0) && Shape(v) && v.blocks == v0.blocks && |v.bitmap| == |v0.bitmap| && |v.inodes| == |v0.inodes|
    && i < |v.inodes| && v.inodes == v0.inodes[i := v0.inodes[i].(addrs := v.inodes[i].addrs)]
    && (forall t :: 0 <= t <= NDIRECT ==> v.inodes[i].addrs[t] == if t < s then 0 else v0.inodes[i].addrs[t])
    && (forall b :: b in owner <==> b in owner0 && !(owner0[b].0 == i && owner0[b].1 < s))
    && (forall b :: b in owner ==> owner[b] == owner0[b])
  }

  lemma SkipDirect(v0: Vol, meta: nat, owner0: Owner, v: Vol, owner: Owner, i: nat, s: nat)
    requires Owned(v0, meta, owner0) && s < NDIRECT && DirectFreed(v0, owner0, v, owner, i, s)
    requires v.inodes[i].addrs[s] == 0
    ensures DirectFreed(v0, owner0, v, owner, i, s + 1)
  {
    OwnerOfSlot(v0, meta, owner0, i, s);
  }

  lemma WordsFreedStep(bits: seq<bool>, bits': seq<bool>, ind: seq<int>, n: nat)
    requires |ind| == BSIZE && n < NINDIRECT && WordsFreed(bits, bits', ind, n)
    requires Word(ind, n) != 0 ==> 0 < Word(ind, n) < |bits|
    ensures WordsFreed(bits, if Word(ind, n) == 0 then bits' else bits'[Word(ind, n) := false], ind, n + 1)
  {
    forall b ensures HasWord(ind, b, n + 1) <==> HasWord(ind, b, n) || Word(ind, n) == b {}
  }

  datatype WriteResult = Refused | Wrote | OutOfBlocks

  /** The bytes of `data` put over those of c at off, extending c if need be. */
  function Spliced(c: seq<int>, off: nat, data: seq<int>): seq<int>
    requires off <= |c|
  {
    if off + |data| <= |c| then c[..off] + data + c[off + |data|..] else c[..off] + data
  }

  /** Inode j is the same, names the same blocks and has the same bytes. */
  ghost predicate SameFile(v: Vol, v': Vol, j: int) {
    && Shape(v) && Shape(v') && 0 <= j < |v.inodes| && |v'.inodes| == |v.inodes|
    && v'.inodes[j] == v.inodes[j] && (forall t :: 0 <= t < SLOTS ==> Name(v', j, t) == Name(v, j, t))
    && forall k: nat :: k < MAXFILE * BSIZE ==> ByteAt(v', j, k) == ByteAt(v, j, k)
  }

  /** A volume the kernel runs on: block ownership is exact and no file has holes. */
  ghost predicate Sound(v: Vol, meta: nat, owner: Owner) {
    Owned(v, meta, owner) && forall i :: 0 <= i < |v.inodes| ==> NoHoles(v, i)
  }

  lemma SameNoHoles(v: Vol, v': Vol, j: int)
    requires SameFile(v, v', j) && NoHoles(v, j)
    ensures NoHoles(v', j)
  {
    forall bn {:trigger SlotOf(bn)} | 0 <= bn < MAXFILE && bn * BSIZE < v'.inodes[j].size
      ensures Name(v', j, SlotOf(bn)) != 0
    {
      assert Name(v, j, SlotOf(bn)) != 0;
    }
  }

  /** A change to inode i that leaves it without holes and every other file as it was. */
  lemma SoundStep(v: Vol, v': Vol, meta: nat, owner: Owner, owner': Owner, i: nat)
    requires Sound(v, meta, owner) && Owned(v', meta, owner') && i < |v.inodes| == |v'.inodes| && NoHoles(v', i)
    requires forall j :: 0 <= j < |v.inodes| && j != i ==> SameFile(v, v', j)
    ensures Sound(v', meta, owner')
  {
    forall j | 0 <= j < |v'.inodes| ensures NoHoles(v', j) {
      if j != i { SameNoHoles(v, v', j); }
    }
  }

  /** With its inode and the blocks untouched, a file is the same. */
  lemma UntouchedFile(v: Vol, v': Vol, j: int)
    requires Shape(v) && Shape(v') && 0 <= j < |v.inodes| == |v'.inodes| && v'.inodes[j] == v.inodes[j]
    requires v'.blocks == v.blocks
    ensures SameFile(v, v', j)
  {
    forall t | 0 <= t < SLOTS ensures Name(v', j, t) == Name(v, j, t) {}
  }

  /** v' is v with the bytes of inode i at off overwritten by data, through blocks that now exist;
      no size, name or other byte has changed. */
  ghost predicate Patched(v: Vol, v': Vol, i: nat, off: nat, data: seq<int>) {
    && Shape(v) && Shape(v') && |v'.inodes| == |v.inodes| && |v'.blocks| == |v.blocks| && i < |v.inodes|
    && off + |data| <= MAXFILE * BSIZE
    && v'.inodes == v.inodes[i := v.inodes[i].(addrs := v'.inodes[i].addrs)]
    && (forall t :: 0 <= t < SLOTS && Name(v, i, t) != 0 ==> Name(v', i, t) == Name(v, i, t)) && OthersNamed(v, v', i)
    && (forall j, k: nat :: 0 <= j < |v.inodes| && k < MAXFILE * BSIZE ==>
          ByteAt(v', j, k) == if j == i && off <= k < off + |data| then data[k - off] else ByteAt(v, j, k))
    && (forall bn {:trigger SlotOf(bn)} :: off / BSIZE <= bn && bn * BSIZE < off + |data| && |data| > 0 ==>
         Name(v', i, SlotOf(bn)) != 0)
  }

  lemma NotPatched(v: Vol, i: nat, off: nat)
    requires Shape(v) && i < |v.inodes| && off <= MAXFILE * BSIZE
    ensures Patched(v, v, i, off, [])
  {
    assert v.inodes == v.inodes[i := v.inodes[i].(addrs := v.inodes[i].addrs)];
  }

  /** Mapping the block and copying into it patches the file. */
  lemma StorePatches(v: Vol, v1: Vol, meta: nat, owner: Owner, i: nat, at: nat, data: seq<int>)
    requires Owned(v1, meta, owner) && Grown(v, v1, i) && |data| > 0 && at % BSIZE + |data| <= BSIZE
    requires at + |data| <= MAXFILE * BSIZE
    requires at / BSIZE < MAXFILE && Name(v1, i, SlotOf(at / BSIZE)) != 0
    ensures 0 < Name(v1, i, SlotOf(at / BSIZE)) < |v1.blocks|
    ensures Patched(v, Stored(v1, Name(v1, i, SlotOf(at / BSIZE)), at % BSIZE, data), i, at, data)
  {
    var bn := at / BSIZE;
    StoreOwned(v1, meta, owner, i, SlotOf(bn), at % BSIZE, data);
    var v' := Stored(v1, Name(v1, i, SlotOf(bn)), at % BSIZE, data);
    forall j, t | IsSlot(v1, j, t) ensures Name(v', j, t) == Name(v1, j, t) {
      StoreNames(v1, meta, owner, i, SlotOf(bn), at % BSIZE, data, j, t);
    }
    forall j, k: nat | 0 <= j < |v.inodes| && k < MAXFILE * BSIZE
      ensures ByteAt(v', j, k) == if j == i && at <= k < at + |data| then data[k - at] else ByteAt(v, j, k)
    {
      StoreBytes(v1, meta, owner, i, bn, at % BSIZE, data, j, k);
      InBlock(at, |data|, k);
    }
  }

  /** Byte k lies in the m bytes at `at`, all in one block, exactly when it is in that block at the
      right offset. */
  lemma InBlock(at: nat, m: nat, k: nat)
    requires at % BSIZE + m <= BSIZE
    ensures at <= k < at + m <==> k / BSIZE == at / BSIZE && at % BSIZE <= k % BSIZE < at % BSIZE + m
    ensures at <= k < at + m ==> k % BSIZE - at % BSIZE == k - at
  {
  }

  lemma PatchedTwice(v: Vol, v1: Vol, v': Vol, i: nat, off: nat, src: seq<int>, tot: nat, m: nat)
    requires tot + m <= |src| && 0 < m && Patched(v, v1, i, off, src[..tot])
    requires Patched(v1, v', i, off + tot, src[tot..tot + m])
    ensures Patched(v, v', i, off, src[..tot + m])
  {
    assert v'.inodes == v.inodes[i := v.inodes[i].(addrs := v'.inodes[i].addrs)];
    forall bn {:trigger SlotOf(bn)} | off / BSIZE <= bn && bn * BSIZE < off + tot + m
      ensures Name(v', i, SlotOf(bn)) != 0
    {
      if bn * BSIZE < off + tot && tot > 0 { assert Name(v1, i, SlotOf(bn)) != 0; }
    }
  }

  function Resized(v: Vol, i: nat, size: nat): Vol
    requires i < |v.inodes|
  {
    v.(inodes := v.inodes[i := v.inodes[i].(size := size)])
  }

  lemma ResizedAt(v: Vol, i: nat, size: nat, j: int, t: int)
    requires Shape(v) && i < |v.inodes| && IsSlot(v, j, t)
    ensures Shape(Resized(v, i, size)) && Name(Resized(v, i, size), j, t) == Name(v, j, t)
  {
  }

  /** One more block of the copy loop extends the patch, and logs that block. */
  lemma PatchStep(v0: Vol, v1: Vol, v': Vol, i: nat, off: nat, src: seq<int>, tot: nat, m: nat,
                  logged0: set<int>, logged1: set<int>, logged': set<int>, ninodes: nat)
    requires tot + m <= |src| && 0 < m && off + |src| <= MAXFILE * BSIZE
    requires Patched(v0, v1, i, off, src[..tot]) && Patched(v1, v', i, off + tot, src[tot..tot + m])
    requires logged1 <= logged0 + Support(v1, i, ninodes) + Touched(v1, i, off, tot)
    requires logged' <= logged1 + {Name(v', i, SlotOf((off + tot) / BSIZE))} + Support(v', i, ninodes)
    ensures Patched(v0, v', i, off, src[..tot + m])
    ensures logged' <= logged0 + Support(v', i, ninodes) + Touched(v', i, off, tot + m)
  {
    PatchedTwice(v0, v1, v', i, off, src, tot, m);
    TouchedGrows(v1, v', i, off, src, tot, m);
    SupportGrows(v1, v', i, off + tot, src[tot..tot + m], ninodes);
    LoggedStep(logged0, logged1, logged', Support(v1, i, ninodes), Support(v', i, ninodes),
               Touched(v1, i, off, tot), Touched(v', i, off, tot + m), Name(v', i, SlotOf((off + tot) / BSIZE)));
  }

  lemma LoggedStep(l0: set<int>, l1: set<int>, l2: set<int>, s1: set<int>, s2: set<int>, t1: set<int>, t2: set<int>,
        b: int)
    requires l1 <= l0 + s1 + t1 && l2 <= l1 + {b} + s2 && s1 <= s2 && t1 <= t2 && b in t2
    ensures l2 <= l0 + s2 + t2
  {
  }

  /** `writei` has written the first tot bytes: what has changed, and what has been logged. */
  ghost predicate Writing(v0: Vol, logged0: set<int>, v: Vol, logged: set<int>, ninodes: nat, i: nat, src: seq<int>,
        off: nat, tot: nat) {
    && tot <= |src| && off + |src| <= MAXFILE * BSIZE && Patched(v0, v, i, off, src[..tot])
    && (off + |src| <= v0.inodes[i].size ==> v.inodes == v0.inodes)
    && logged <= logged0 + Support(v, i, ninodes) + Touched(v, i, off, tot)
    && Journaled(v0, logged0, v, logged, ninodes)
  }

  lemma StartWriting(v: Vol, logged: set<int>, ninodes: nat, i: nat, src: seq<int>, off: nat)
    requires Shape(v) && i < |v.inodes| && off + |src| <= MAXFILE * BSIZE
    ensures Writing(v, logged, v, logged, ninodes, i, src, off, 0)
  {
    NotPatched(v, i, off);
    assert src[..0] == [];
  }

  /** Some of the n bytes of inode i at off have no block. */
  ghost predicate Lacks(v: Vol, i: nat, off: nat, n: nat)
    requires Shape(v) && i < |v.inodes|
  {
    exists bn {:trigger SlotOf(bn)} :: off / BSIZE <= bn < MAXFILE && bn * BSIZE < off + n &&
      Name(v, i, SlotOf(bn)) == 0
  }

  /** A write inside the file finds its blocks there. */
  lemma NamedAlready(v0: Vol, v: Vol, i: nat, off: nat, src: seq<int>, tot: nat)
    requires tot < |src| && off + |src| <= MAXFILE * BSIZE && Patched(v0, v, i, off, src[..tot]) && NoHoles(v0, i)
    ensures SlotOf((off + tot) / BSIZE) < SLOTS
    ensures off + |src| <= v0.inodes[i].size ==> Name(v, i, SlotOf((off + tot) / BSIZE)) != 0
    ensures Name(v, i, SlotOf((off + tot) / BSIZE)) == 0 ==> Lacks(v0, i, off, |src|)
  {
    assert Name(v, i, SlotOf((off + tot) / BSIZE)) == 0 ==> Name(v0, i, SlotOf((off + tot) / BSIZE)) == 0;
    assert off + |src| <= v0.inodes[i].size ==> Name(v0, i, SlotOf((off + tot) / BSIZE)) != 0;
  }

  lemma WrittenMore(v0: Vol, logged0: set<int>, v1: Vol, logged1: set<int>, v: Vol, logged: set<int>, ninodes: nat,
                    i: nat, src: seq<int>, off: nat, tot: nat, m: nat)
    requires 0 < m && tot + m <= |src| && Writing(v0, logged0, v1, logged1, ninodes, i, src, off, tot)
    requires Patched(v1, v, i, off + tot, src[tot..tot + m])
    requires off + |src| <= v0.inodes[i].size ==> v.inodes == v1.inodes
    requires logged <= logged1 + {Name(v, i, SlotOf((off + tot) / BSIZE))} + Support(v, i, ninodes)
    requires Journaled(v1, logged1, v, logged, ninodes)
    ensures Writing(v0, logged0, v, logged, ninodes, i, src, off, tot + m)
  {
    PatchStep(v0, v1, v, i, off, src, tot, m, logged0, logged1, logged, ninodes);
    JournaledTwice(v0, logged0, v1, logged1, v, logged, ninodes);
  }

  /** With the new size set, the file is the old one with src spliced in. */
  lemma WrittenWell(v0: Vol, logged0: set<int>, v: Vol, logged: set<int>, meta: nat, owner: Owner, ninodes: nat,
        i: nat, src: seq<int>, off: nat)
    requires Owned(v, meta, owner) && Writing(v0, logged0, v, logged, ninodes, i, src, off, |src|)
    requires NoHoles(v0, i) && off <= v0.inodes[i].size
    ensures var v' := Resized(v, i, NewSize(v.inodes[i].size, off, |src|));
      && Owned(v', meta, owner) && |v'.inodes| == |v0.inodes| && |v'.blocks| == |v0.blocks| && NoHoles(v', i)
      && Contents(v', i) == Spliced(Contents(v0, i), off, src)
      && (forall j :: 0 <= j < |v'.inodes| && j != i ==> SameFile(v0, v', j))
      && logged <= logged0 + Support(v', i, ninodes) + Touched(v', i, off, |src|)
  {
    var size := NewSize(v.inodes[i].size, off, |src|);
    var v' := Resized(v, i, size);
    assert src[..|src|] == src;
    PatchedContents(v0, v, i, off, src);
    ResizedOwned(v, meta, owner, i, size);
    forall j | 0 <= j < |v'.inodes| && j != i
      ensures SameFile(v0, v', j)
    {
      ResizedOthers(v0, v, i, off, src, size, j);
    }
    ResizedLogs(v, i, size, off, |src|, ninodes);
  }

  /** Truncating inode i leaves the other files as they were. */
  lemma Truncated(v: Vol, v': Vol, meta: nat, owner: Owner, owner': Owner, i: nat)
    requires Owned(v, meta, owner) && Owned(v', meta, owner') && i < |v.inodes| == |v'.inodes| && v'.blocks == v.blocks
    requires v'.inodes == v.inodes[i := v'.inodes[i]] && v'.inodes[i].size == 0
    ensures forall j :: 0 <= j < |v.inodes| && j != i ==> SameFile(v, v', j)
    ensures Sound(v, meta, owner) ==> Sound(v', meta, owner')
  {
    forall j | 0 <= j < |v.inodes| && j != i ensures SameFile(v, v', j) { UntouchedFile(v, v', j); }
    if Sound(v, meta, owner) { SoundStep(v, v', meta, owner, owner', i); }
  }

  /** The first `end` bytes of file i are there. */
  ghost predicate Readable(v: Vol, meta: nat, owner: Owner, i: nat, end: nat) {
    Owned(v, meta, owner) && i < |v.inodes| && NoHoles(v, i) && end <= v.inodes[i].size
  }

  lemma JoinSlices(c: seq<int>, a: nat, b: nat, d: nat)
    requires a <= b <= d <= |c|
    ensures c[a..b] + c[b..d] == c[a..d]
  {
  }

  /** The size that a write leaves. */
  function NewSize(size: nat, off: nat, n: nat): nat { if n > 0 && off + n > size then off + n else size }

  lemma PatchedHasNoHoles(v: Vol, v': Vol, i: nat, off: nat, src: seq<int>)
    requires Patched(v, v', i, off, src) && NoHoles(v, i) && off <= v.inodes[i].size
    ensures var v'' := Resized(v', i, NewSize(v.inodes[i].size, off, |src|)); Shape(v'') && NoHoles(v'', i)
  {
    var v'' := Resized(v', i, NewSize(v.inodes[i].size, off, |src|));
    ResizedAt(v', i, NewSize(v.inodes[i].size, off, |src|), i, 0);
    forall bn {:trigger SlotOf(bn)} | 0 <= bn < MAXFILE && bn * BSIZE < v''.inodes[i].size
      ensures Name(v'', i, SlotOf(bn)) != 0
    {
      ResizedAt(v', i, NewSize(v.inodes[i].size, off, |src|), i, SlotOf(bn));
      if bn * BSIZE < v.inodes[i].size { assert Name(v, i, SlotOf(bn)) != 0; }
    }
  }

  /** A patch is a splice of the contents, once the size covers it. */
  lemma PatchedContents(v: Vol, v': Vol, i: nat, off: nat, src: seq<int>)
    requires Patched(v, v', i, off, src) && NoHoles(v, i) && off <= v.inodes[i].size
    ensures var v'' := Resized(v', i, NewSize(v.inodes[i].size, off, |src|));
      && Shape(v'') && NoHoles(v'', i) && Contents(v'', i) == Spliced(Contents(v, i), off, src)
  {
    PatchedHasNoHoles(v, v', i, off, src);
    var size' := NewSize(v.inodes[i].size, off, |src|);
    var c, c' := Spliced(Contents(v, i), off, src), Contents(Resized(v', i, size'), i);
    forall k | 0 <= k < size' ensures c'[k] == c[k] {
      ResizedAt(v', i, size', i, SlotOf(k / BSIZE));
      assert ByteAt(Resized(v', i, size'), i, k) == ByteAt(v', i, k);
    }
  }

  lemma ResizedOwned(v: Vol, meta: nat, owner: Owner, i: nat, size: nat)
    requires Owned(v, meta, owner) && i < |v.inodes|
    ensures Owned(Resized(v, i, size), meta, owner)
  {
    forall j, t | IsSlot(v, j, t)
      ensures Shape(Resized(v, i, size)) && Name(Resized(v, i, size), j, t) == Name(v, j, t)
    {
      ResizedAt(v, i, size, j, t);
    }
  }

  lemma ResizedOthers(v: Vol, v': Vol, i: nat, off: nat, src: seq<int>, size: nat, j: int)
    requires Patched(v, v', i, off, src) && 0 <= j < |v.inodes| && j != i
    ensures SameFile(v, Resized(v', i, size), j)
  {
    var v'' := Resized(v', i, size);
    ResizedAt(v', i, size, j, 0);
    forall t | 0 <= t < SLOTS ensures Name(v'', j, t) == Name(v, j, t) { ResizedAt(v', i, size, j, t); }
    forall k: nat | k < MAXFILE * BSIZE ensures ByteAt(v'', j, k) == ByteAt(v, j, k) {
      ResizedAt(v', i, size, j, SlotOf(k / BSIZE));
    }
  }

  /** The sectors besides data blocks that a write to inode i may log: bitmap sectors and the
      indirect block. */
  ghost function Support(v: Vol, i: nat, ninodes: nat): set<int>
    requires Shape(v) && i < |v.inodes|
  {
    (set b | 0 <= b < |v.blocks| :: BitmapSector(b, ninodes)) +
      (if v.inodes[i].addrs[NDIRECT] != 0 then {v.inodes[i].addrs[NDIRECT]} else {})
  }

  lemma SupportGrows(v: Vol, v': Vol, i: nat, off: nat, data: seq<int>, ninodes: nat)
    requires Patched(v, v', i, off, data)
    ensures Support(v, i, ninodes) <= Support(v', i, ninodes)
  {
    assert Name(v, i, NDIRECT) == v.inodes[i].addrs[NDIRECT] && Name(v', i, NDIRECT) == v'.inodes[i].addrs[NDIRECT];
  }

  /** The blocks that hold the n bytes of inode i at off. */
  ghost function Touched(v: Vol, i: nat, off: nat, n: nat): set<int>
    requires Shape(v) && i < |v.inodes| && off + n <= MAXFILE * BSIZE
  {
    set bn | off / BSIZE <= bn < MAXFILE && bn * BSIZE < off + n && n > 0 :: Name(v, i, SlotOf(bn))
  }

  lemma ResizedLogs(v: Vol, i: nat, size: nat, off: nat, n: nat, ninodes: nat)
    requires Shape(v) && i < |v.inodes| && off + n <= MAXFILE * BSIZE
    ensures Shape(Resized(v, i, size)) && Support(Resized(v, i, size), i, ninodes) == Support(v, i, ninodes)
    ensures Touched(Resized(v, i, size), i, off, n) == Touched(v, i, off, n)
  {
    forall t | 0 <= t < SLOTS ensures Shape(Resized(v, i, size)) && Name(Resized(v, i, size), i, t) == Name(v, i, t) {
      ResizedAt(v, i, size, i, t);
    }
    ResizedAt(v, i, size, i, 0);
  }

  lemma TouchedGrows(v1: Vol, v': Vol, i: nat, off: nat, src: seq<int>, tot: nat, m: nat)
    requires tot + m <= |src| && 0 < m && off + |src| <= MAXFILE * BSIZE
    requires Shape(v1) && Patched(v1, v', i, off + tot, src[tot..tot + m])
    requires forall bn {:trigger SlotOf(bn)} :: off / BSIZE <= bn && bn * BSIZE < off + tot && tot > 0 ==>
      Name(v1, i, SlotOf(bn)) != 0
    ensures Touched(v1, i, off, tot) <= Touched(v', i, off, tot + m)
    ensures Name(v', i, SlotOf((off + tot) / BSIZE)) in Touched(v', i, off, tot + m)
  {
  }

  const U32: nat := 0x1_0000_0000

  function Min(a: int, b: int): int { if a < b then a else b }

  /** m bytes of a file that lie in one block are bytes of that block. */
  lemma SliceOfBlock(v: Vol, i: nat, at: nat, m: nat)
    requires Shape(v) && i < |v.inodes| && v.inodes[i].size <= MAXFILE * BSIZE && at + m <= v.inodes[i].size && 0 < m
    requires at % BSIZE + m <= BSIZE && 0 < Name(v, i, SlotOf(at / BSIZE)) < |v.blocks|
    ensures Contents(v, i)[at..at + m] == v.blocks[Name(v, i, SlotOf(at / BSIZE))][at % BSIZE..at % BSIZE + m]
  {
    var c, b := Contents(v, i), v.blocks[Name(v, i, SlotOf(at / BSIZE))];
    var left, right := c[at..at + m], b[at % BSIZE..at % BSIZE + m];
    forall x | 0 <= x < m ensures left[x] == right[x] {
      SameBlock(at, x);
    }
  }

  lemma SameBlock(at: nat, x: nat)
    requires at % BSIZE + x < BSIZE
    ensures (at + x) / BSIZE == at / BSIZE && (at + x) % BSIZE == at % BSIZE + x
  {
  }
}
