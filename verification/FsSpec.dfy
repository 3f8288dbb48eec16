/** What the block-level operations of fs.c do to block ownership and to file bytes. */
module FsSpec {
  import opened FsTypes

  /** `balloc`: the bit set, the block zeroed. */
  function Allocated(v: Vol, b: nat): Vol
    requires b < |v.bitmap| == |v.blocks|
  {
    v.(bitmap := v.bitmap[b := true], blocks := v.blocks[b := Zero()])
  }

  /** `bmap` writes block number b into slot s of inode i. */
  ghost function Named(v: Vol, i: nat, s: nat, b: nat): Vol
    requires Shape(v) && IsSlot(v, i, s) && (s > NDIRECT ==> 0 < v.inodes[i].addrs[NDIRECT] < |v.blocks|)
  {
    if s <= NDIRECT then v.(inodes := v.inodes[i := v.inodes[i].(addrs := v.inodes[i].addrs[s := b])])
    else var ind := v.inodes[i].addrs[NDIRECT];
      v.(blocks := v.blocks[ind := SetWord(v.blocks[ind], s - NDIRECT - 1, b)])
  }

  /** Slot s of inode i is empty and can be given the free block b. */
  ghost predicate CanName(v: Vol, meta: nat, owner: Owner, i: nat, s: nat, b: nat) {
    && Owned(v, meta, owner) && IsSlot(v, i, s) && Name(v, i, s) == 0
    && b < |v.bitmap| && !v.bitmap[b]
    && (s > NDIRECT ==> v.inodes[i].addrs[NDIRECT] != 0)
  }

  /** An indirect block is a block that exists. */
  lemma IndirectInRange(v: Vol, meta: nat, owner: Owner, i: nat)
    requires Owned(v, meta, owner) && i < |v.inodes|
    ensures v.inodes[i].addrs[NDIRECT] == 0 || meta <= v.inodes[i].addrs[NDIRECT] < |v.blocks|
  {
    assert Name(v, i, NDIRECT) == v.inodes[i].addrs[NDIRECT];
  }

  /** Allocating a block into one slot leaves every other slot's name alone. */
  lemma NameAfter(v: Vol, meta: nat, owner: Owner, i: nat, s: nat, b: nat, j: int, t: int)
    requires CanName(v, meta, owner, i, s, b) && IsSlot(v, j, t)
    ensures s > NDIRECT ==> 0 < v.inodes[i].addrs[NDIRECT] < |v.blocks|
    ensures Shape(Named(Allocated(v, b), i, s, b))
    ensures Name(Named(Allocated(v, b), i, s, b), j, t) == if j == i && t == s then b else Name(v, j, t)
  {
    IndirectInRange(v, meta, owner, i);
    IndirectInRange(v, meta, owner, j);
    var v1 := Allocated(v, b);
    var v' := Named(v1, i, s, b);
    var ind := v.inodes[j].addrs[NDIRECT];
    assert ind != 0 ==> v.bitmap[ind] && ind != b by { assert Name(v, j, NDIRECT) == ind; }
    if s > NDIRECT {
      var w := v.inodes[i].addrs[NDIRECT];
      assert v.bitmap[w] by { assert Name(v, i, NDIRECT) == w; }
      assert v1.blocks[w] == v.blocks[w];
      if t > NDIRECT {
        if ind == w {
          NamedOnce(v, meta, owner, i, NDIRECT, j, NDIRECT);
          WordOfSet(v.blocks[w], s - NDIRECT - 1, b, t - NDIRECT - 1);
        }
      }
    }
  }

  /** Allocation keeps ownership exact: the new owner of b is the slot. */
  lemma AllocOwned(v: Vol, meta: nat, owner: Owner, i: nat, s: nat, b: nat)
    requires CanName(v, meta, owner, i, s, b)
    ensures s > NDIRECT ==> 0 < v.inodes[i].addrs[NDIRECT] < |v.blocks|
    ensures Owned(Named(Allocated(v, b), i, s, b), meta, owner[b := (i, s)])
  {
    NameAfter(v, meta, owner, i, s, b, i, s);
    var v' := Named(Allocated(v, b), i, s, b);
    var owner' := owner[b := (i, s)];
    forall j, t | IsSlot(v', j, t) && Name(v', j, t) != 0
      ensures Name(v', j, t) in owner' && owner'[Name(v', j, t)] == (j, t)
    {
      NameAfter(v, meta, owner, i, s, b, j, t);
    }
    forall c | c in owner'
      ensures meta <= c < |v'.blocks| && IsSlot(v', owner'[c].0, owner'[c].1) && Name(v', owner'[c].0, owner'[c].1) == c
    {
      NameAfter(v, meta, owner, i, s, b, owner'[c].0, owner'[c].1);
    }
  }

  /** Allocation changes no byte of any file: what had no block read as zero, and still does. */
  lemma AllocBytes(v: Vol, meta: nat, owner: Owner, i: nat, s: nat, b: nat, j: int, k: nat)
    requires CanName(v, meta, owner, i, s, b) && 0 <= j < |v.inodes| && k < MAXFILE * BSIZE
    ensures s > NDIRECT ==> 0 < v.inodes[i].addrs[NDIRECT] < |v.blocks|
    ensures Shape(Named(Allocated(v, b), i, s, b))
    ensures ByteAt(Named(Allocated(v, b), i, s, b), j, k) == ByteAt(v, j, k)
  {
    var t := SlotOf(k / BSIZE);
    NameAfter(v, meta, owner, i, s, b, j, t);
    var v' := Named(Allocated(v, b), i, s, b);
    var a, ind := Name(v, j, t), v.inodes[i].addrs[NDIRECT];
    IndirectInRange(v, meta, owner, i);
    assert ind != 0 ==> v.bitmap[ind] by { assert Name(v, i, NDIRECT) == ind; }
    if a != 0 {
      assert v.bitmap[a] && a != b;
      if a == ind { NamedOnce(v, meta, owner, j, t, i, NDIRECT); }
      assert v'.blocks[a] == v.blocks[a];
    }
  }

  /** `memmove(bp->data + o, src, m)` into block a. */
  function Stored(v: Vol, a: nat, o: nat, data: seq<int>): Vol
    requires a < |v.blocks| && o + |data| <= |v.blocks[a]|
  {
    v.(blocks := v.blocks[a := v.blocks[a][..o] + data + v.blocks[a][o + |data|..]])
  }

  /** A write into a data block changes no name. */
  lemma StoreNames(v: Vol, meta: nat, owner: Owner, i: nat, s: nat, o: nat, data: seq<int>, j: int, t: int)
    requires Owned(v, meta, owner) && IsSlot(v, i, s) && s != NDIRECT && Name(v, i, s) != 0 && o + |data| <= BSIZE
    requires IsSlot(v, j, t)
    ensures 0 < Name(v, i, s) < |v.blocks|
    ensures Shape(Stored(v, Name(v, i, s), o, data))
    ensures Name(Stored(v, Name(v, i, s), o, data), j, t) == Name(v, j, t)
  {
    var a := Name(v, i, s);
    assert v.inodes[j].addrs[NDIRECT] != a by {
      if v.inodes[j].addrs[NDIRECT] == a { NamedOnce(v, meta, owner, i, s, j, NDIRECT); }
    }
  }

  lemma StoreOwned(v: Vol, meta: nat, owner: Owner, i: nat, s: nat, o: nat, data: seq<int>)
    requires Owned(v, meta, owner) && IsSlot(v, i, s) && s != NDIRECT && Name(v, i, s) != 0 && o + |data| <= BSIZE
    ensures 0 < Name(v, i, s) < |v.blocks|
    ensures Owned(Stored(v, Name(v, i, s), o, data), meta, owner)
  {
    StoreNames(v, meta, owner, i, s, o, data, i, s);
    var v' := Stored(v, Name(v, i, s), o, data);
    forall j, t | IsSlot(v', j, t) ensures Name(v', j, t) == Name(v, j, t) {
      StoreNames(v, meta, owner, i, s, o, data, j, t);
    }
  }

  /** A write into file block bn of inode i changes exactly the bytes written, in no other file. */
  lemma StoreBytes(v: Vol, meta: nat, owner: Owner, i: nat, bn: nat, o: nat, data: seq<int>, j: int, k: nat)
    requires Owned(v, meta, owner) && i < |v.inodes| && bn < MAXFILE && Name(v, i, SlotOf(bn)) != 0
    requires o + |data| <= BSIZE
    requires 0 <= j < |v.inodes| && k < MAXFILE * BSIZE
    ensures 0 < Name(v, i, SlotOf(bn)) < |v.blocks|
    ensures Shape(Stored(v, Name(v, i, SlotOf(bn)), o, data))
    ensures ByteAt(Stored(v, Name(v, i, SlotOf(bn)), o, data), j, k) ==
      if j == i && k / BSIZE == bn && o <= k % BSIZE < o + |data| then data[k % BSIZE - o] else ByteAt(v, j, k)
  {
    var s, t := SlotOf(bn), SlotOf(k / BSIZE);
    StoreNames(v, meta, owner, i, s, o, data, j, t);
    if Name(v, j, t) == Name(v, i, s) { NamedOnce(v, meta, owner, i, s, j, t); }
  }

  /** Every inode but i names the blocks it named. */
  ghost predicate OthersNamed(v: Vol, v': Vol, i: int)
    requires Shape(v) && Shape(v') && |v'.inodes| == |v.inodes|
  {
    forall j, t :: IsSlot(v, j, t) && j != i ==> Name(v', j, t) == Name(v, j, t)
  }

  /** Nothing but new blocks for inode i: no name or byte of any file has changed. */
  ghost predicate Grown(v: Vol, v': Vol, i: nat) {
    && Shape(v) && Shape(v') && |v'.inodes| == |v.inodes| && |v'.blocks| == |v.blocks| && i < |v.inodes|
    && v'.inodes == v.inodes[i := v.inodes[i].(addrs := v'.inodes[i].addrs)]
    && (forall t :: 0 <= t < SLOTS && Name(v, i, t) != 0 ==> Name(v', i, t) == Name(v, i, t)) && OthersNamed(v, v', i)
    && (forall j, k: nat :: 0 <= j < |v.inodes| && k < MAXFILE * BSIZE ==> ByteAt(v', j, k) == ByteAt(v, j, k))
  }

  lemma AllocGrows(v: Vol, meta: nat, owner: Owner, i: nat, s: nat, b: nat)
    requires CanName(v, meta, owner, i, s, b)
    ensures s > NDIRECT ==> 0 < v.inodes[i].addrs[NDIRECT] < |v.blocks|
    ensures Grown(v, Named(Allocated(v, b), i, s, b), i) && Name(Named(Allocated(v, b), i, s, b), i, s) == b
  {
    NameAfter(v, meta, owner, i, s, b, i, s);
    var v' := Named(Allocated(v, b), i, s, b);
    forall j, t | IsSlot(v, j, t) && (j != i || Name(v, j, t) != 0) ensures Name(v', j, t) == Name(v, j, t) {
      NameAfter(v, meta, owner, i, s, b, j, t);
    }
    forall j, k: nat | 0 <= j < |v.inodes| && k < MAXFILE * BSIZE ensures ByteAt(v', j, k) == ByteAt(v, j, k) {
      AllocBytes(v, meta, owner, i, s, b, j, k);
    }
    assert v'.inodes == v.inodes[i := v.inodes[i].(addrs := v'.inodes[i].addrs)];
  }

  lemma GrownTwice(v: Vol, v': Vol, v'': Vol, i: nat)
    requires Grown(v, v', i) && Grown(v', v'', i)
    ensures Grown(v, v'', i)
  {
    assert v''.inodes == v.inodes[i := v.inodes[i].(addrs := v''.inodes[i].addrs)];
  }

  lemma NotGrown(v: Vol, i: nat)
    requires Shape(v) && i < |v.inodes|
    ensures Grown(v, v, i)
  {
    assert v.inodes == v.inodes[i := v.inodes[i].(addrs := v.inodes[i].addrs)];
  }

  /** Slot s of inode i, one of its 13 own, emptied and its block's bit cleared. */
  ghost function Emptied(v: Vol, i: nat, s: nat): Vol
    requires Shape(v) && i < |v.inodes| && s <= NDIRECT && 0 <= v.inodes[i].addrs[s] < |v.bitmap|
  {
    v.(bitmap := v.bitmap[v.inodes[i].addrs[s] := false],
       inodes := v.inodes[i := v.inodes[i].(addrs := v.inodes[i].addrs[s := 0])])
  }

  /** Emptying a direct slot keeps ownership exact. */
  lemma EmptyDirect(v: Vol, meta: nat, owner: Owner, i: nat, s: nat)
    requires Owned(v, meta, owner) && i < |v.inodes| && s < NDIRECT && v.inodes[i].addrs[s] != 0
    ensures var b := v.inodes[i].addrs[s];
      0 <= b < |v.bitmap| && v.bitmap[b] && Owned(Emptied(v, i, s), meta, owner - {b})
  {
    var b := v.inodes[i].addrs[s];
    assert Name(v, i, s) == b;
    var v', owner' := Emptied(v, i, s), owner - {b};
    forall j, t | IsSlot(v', j, t)
      ensures Name(v', j, t) == if j == i && t == s then 0 else Name(v, j, t)
    {
    }
    forall j, t | IsSlot(v', j, t) && Name(v', j, t) != 0
      ensures Name(v', j, t) in owner' && owner'[Name(v', j, t)] == (j, t)
    {
    }
  }

  /** The bits once the first n words of indirect block `ind` have been freed. */
  ghost predicate WordsFreed(bits: seq<bool>, bits': seq<bool>, ind: seq<int>, n: nat)
    requires |ind| == BSIZE && n <= NINDIRECT
  {
    && |bits'| == |bits|
    && forall b :: 0 <= b < |bits| ==> (bits'[b] <==> bits[b] && !(b != 0 && HasWord(ind, b, n)))
  }

  ghost predicate HasWord(ind: seq<int>, w: int, n: nat)
    requires |ind| == BSIZE && n <= NINDIRECT
  {
    exists j :: 0 <= j < n && Word(ind, j) == w
  }

  /** A word of the indirect block names a block whose bit is still set. */
  lemma WordIsSet(v: Vol, meta: nat, owner: Owner, i: nat, bits: seq<bool>, n: nat)
    requires Owned(v, meta, owner) && i < |v.inodes| && v.inodes[i].addrs[NDIRECT] != 0 && n < NINDIRECT
    requires 0 < v.inodes[i].addrs[NDIRECT] < |v.blocks|
    requires WordsFreed(v.bitmap, bits, v.blocks[v.inodes[i].addrs[NDIRECT]], n)
    ensures var w := Word(v.blocks[v.inodes[i].addrs[NDIRECT]], n); w != 0 ==> 0 < w < |bits| && bits[w]
  {
    var ind := v.blocks[v.inodes[i].addrs[NDIRECT]];
    var w := Word(ind, n);
    assert Name(v, i, NDIRECT + 1 + n) == w;
    forall j | 0 <= j < n ensures w != 0 ==> Word(ind, j) != w {
      assert Name(v, i, NDIRECT + 1 + j) == Word(ind, j);
    }
  }

  /** The bit of the indirect block itself is still set when its words are freed. */
  lemma IndirectIsSet(v: Vol, meta: nat, owner: Owner, i: nat, bits: seq<bool>)
    requires Owned(v, meta, owner) && i < |v.inodes| && v.inodes[i].addrs[NDIRECT] != 0
    requires 0 < v.inodes[i].addrs[NDIRECT] < |v.blocks|
    requires WordsFreed(v.bitmap, bits, v.blocks[v.inodes[i].addrs[NDIRECT]], NINDIRECT)
    ensures bits[v.inodes[i].addrs[NDIRECT]]
  {
    var a := v.inodes[i].addrs[NDIRECT];
    assert Name(v, i, NDIRECT) == a;
    forall j | 0 <= j < NINDIRECT ensures Word(v.blocks[a], j) != a {
      assert Name(v, i, NDIRECT + 1 + j) == Word(v.blocks[a], j);
    }
  }

  /** The owners that remain when inode i gives its blocks up. */
  ghost function Without(owner: Owner, i: int): (r: Owner)
    ensures forall b :: b in r <==> b in owner && owner[b].0 != i
    ensures forall b :: b in r ==> r[b] == owner[b]
  {
    map b | b in owner && owner[b].0 != i :: owner[b]
  }

  /** Freeing the indirect block and everything it names leaves inode i owning nothing, and nobody
      else's blocks touched. */
  lemma EmptyIndirect(v: Vol, meta: nat, owner: Owner, i: nat, bits: seq<bool>)
    requires Owned(v, meta, owner) && i < |v.inodes| && 0 < v.inodes[i].addrs[NDIRECT] < |v.blocks|
    requires forall s :: 0 <= s < NDIRECT ==> v.inodes[i].addrs[s] == 0
    requires WordsFreed(v.bitmap, bits, v.blocks[v.inodes[i].addrs[NDIRECT]], NINDIRECT)
    ensures |bits| == |v.bitmap| && Owned(Emptied(v.(bitmap := bits), i, NDIRECT), meta, Without(owner, i))
  {
    var a := v.inodes[i].addrs[NDIRECT];
    var v', owner' := Emptied(v.(bitmap := bits), i, NDIRECT), Without(owner, i);
    assert Name(v, i, NDIRECT) == a;
    forall j, t | IsSlot(v', j, t)
      ensures Name(v', j, t) == if j == i then 0 else Name(v, j, t)
    {
    }
    forall b | 0 <= b < |v'.bitmap| ensures v'.bitmap[b] <==> b < meta || b in owner' {
      FreedExactly(v, meta, owner, i, bits, b);
    }
  }

  lemma FreedExactly(v: Vol, meta: nat, owner: Owner, i: nat, bits: seq<bool>, b: nat)
    requires Owned(v, meta, owner) && i < |v.inodes| && 0 < v.inodes[i].addrs[NDIRECT] < |v.blocks| && b < |bits|
    requires forall s :: 0 <= s < NDIRECT ==> v.inodes[i].addrs[s] == 0
    requires WordsFreed(v.bitmap, bits, v.blocks[v.inodes[i].addrs[NDIRECT]], NINDIRECT)
    ensures bits[b] && b != v.inodes[i].addrs[NDIRECT] <==> b < meta || b in Without(owner, i)
  {
    var a := v.inodes[i].addrs[NDIRECT];
    assert Name(v, i, NDIRECT) == a;
    if b in owner && owner[b].0 == i {
      var s := owner[b].1;
      if s > NDIRECT { assert Word(v.blocks[a], s - NDIRECT - 1) == b; }
    }
    if b != 0 && HasWord(v.blocks[a], b, NINDIRECT) {
      var j :| 0 <= j < NINDIRECT && Word(v.blocks[a], j) == b;
      assert Name(v, i, NDIRECT + 1 + j) == b;
    }
  }
}
