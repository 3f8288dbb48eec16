/** The disk layout of the file system (fs.h, fs.c): the block bitmap, inodes with direct blocks
    and one indirect block, and who owns which block. */
module FsTypes {
  const BSIZE: nat := 512
  const NDIRECT: nat := 12
  const NINDIRECT: nat := 128
  const MAXFILE: nat := 140   // NDIRECT + NINDIRECT
  const BPB: nat := 4096      // bitmap bits per block
  const IPB: nat := 8         // inodes per block

  datatype Inode = Inode(kind: int, nlink: int, size: nat, addrs: seq<int>)

  /** What the file-system calls read and write: the block bitmap, the blocks as bytes, and the
      inodes. */
  datatype Vol = Vol(bitmap: seq<bool>, blocks: seq<seq<int>>, inodes: seq<Inode>)

  function Zero(): (r: seq<int>)
    ensures |r| == BSIZE && forall k :: 0 <= k < BSIZE ==> r[k] == 0
  {
    seq(BSIZE, _ => 0)
  }

  /** `((uint*)bp->data)[j]`, little-endian. */
  function Word(b: seq<int>, j: nat): int
    requires 4 * j + 3 < |b|
  {
    b[4 * j] + 256 * b[4 * j + 1] + 65536 * b[4 * j + 2] + 16777216 * b[4 * j + 3]
  }

  /** `((uint*)bp->data)[j] = w` */
  function SetWord(b: seq<int>, j: nat, w: nat): (r: seq<int>)
    requires 4 * j + 3 < |b|
    ensures |r| == |b|
  {
    b[4 * j := w % 256][4 * j + 1 := w / 256 % 256][4 * j + 2 := w / 65536 % 256][4 * j + 3 := w / 16777216 % 256]
  }

  lemma WordOfSet(b: seq<int>, j: nat, w: nat, k: nat)
    requires 4 * j + 3 < |b| && 4 * k + 3 < |b| && w < 0x1_0000_0000
    ensures Word(SetWord(b, j, w), k) == if k == j then w else Word(b, k)
  {
    if k == j { BytesOf(w); }
  }

  lemma BytesOf(w: nat)
    requires w < 0x1_0000_0000
    ensures w == w % 256 + 256 * (w / 256 % 256) + 65536 * (w / 65536 % 256) + 16777216 * (w / 16777216 % 256)
  {
    Shifts(w);
    var q := w / 256;
    var r := q / 256;
    assert r / 256 < 256;
  }

  lemma Shifts(w: nat)
    ensures w / 65536 == w / 256 / 256 && w / 16777216 == w / 256 / 256 / 256
  {
  }

  /** The places that can hold a block number: the 12 direct ones, the indirect block, and the
      128 words of the indirect block. */
  const SLOTS: nat := 141

  /** The slot of file block bn. */
  function SlotOf(bn: nat): nat { if bn < NDIRECT then bn else bn + 1 }

  ghost predicate Shape(v: Vol) {
    && |v.bitmap| == |v.blocks|
    && (forall b :: 0 <= b < |v.blocks| ==> |v.blocks[b]| == BSIZE)
    && (forall i :: 0 <= i < |v.inodes| ==> |v.inodes[i].addrs| == NDIRECT + 1)
  }

  ghost predicate IsSlot(v: Vol, i: int, s: int) { 0 <= i < |v.inodes| && 0 <= s < SLOTS }

  /** The block number in slot s of inode i, 0 if there is none. */
  ghost function Name(v: Vol, i: int, s: int): int
    requires Shape(v) && IsSlot(v, i, s)
  {
    var addrs := v.inodes[i].addrs;
    if s <= NDIRECT then addrs[s]
    else if 0 < addrs[NDIRECT] < |v.blocks| then Word(v.blocks[addrs[NDIRECT]], s - NDIRECT - 1)
    else 0
  }

  type Owner = map<int, (int, int)>

  /** Block ownership: a block is named by at most one slot, and its bit is set exactly when it is
      a metadata block or named. `owner` is the naming turned round. */
  ghost predicate Owned(v: Vol, meta: nat, owner: Owner) {
    && Shape(v) && 0 < meta <= |v.blocks| < 0x1_0000_0000
    && (forall i, s :: IsSlot(v, i, s) && Name(v, i, s) != 0 ==>
         Name(v, i, s) in owner && owner[Name(v, i, s)] == (i, s))
    && (forall b :: b in owner ==>
         meta <= b < |v.blocks| && IsSlot(v, owner[b].0, owner[b].1) && Name(v, owner[b].0, owner[b].1) == b)
    && (forall b :: 0 <= b < |v.bitmap| ==> (v.bitmap[b] <==> b < meta || b in owner))
  }

  /** No block is named twice. */
  lemma NamedOnce(v: Vol, meta: nat, owner: Owner, i: int, s: int, j: int, t: int)
    requires Owned(v, meta, owner) && IsSlot(v, i, s) && IsSlot(v, j, t) && Name(v, i, s) == Name(v, j, t) != 0
    ensures i == j && s == t
  {
  }

  /** Byte k of inode i, 0 where it has no block. */
  ghost function ByteAt(v: Vol, i: int, k: nat): int
    requires Shape(v) && 0 <= i < |v.inodes| && k < MAXFILE * BSIZE
  {
    var a := Name(v, i, SlotOf(k / BSIZE));
    if 0 < a < |v.blocks| then v.blocks[a][k % BSIZE] else 0
  }

  /** The bytes of a file. */
  ghost function Contents(v: Vol, i: int): (r: seq<int>)
    requires Shape(v) && 0 <= i < |v.inodes| && v.inodes[i].size <= MAXFILE * BSIZE
    ensures |r| == v.inodes[i].size
  {
    seq(v.inodes[i].size, k requires 0 <= k < v.inodes[i].size => ByteAt(v, i, k))
  }

  /** Every byte below the size has a block. */
  ghost predicate NoHoles(v: Vol, i: int)
    requires Shape(v) && 0 <= i < |v.inodes|
  {
    && v.inodes[i].size <= MAXFILE * BSIZE
    && forall bn {:trigger SlotOf(bn)} :: 0 <= bn < MAXFILE && bn * BSIZE < v.inodes[i].size ==>
         Name(v, i, SlotOf(bn)) != 0
  }
}
