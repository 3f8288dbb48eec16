/** `filewrite` (file.c): a long write cut into transactions that fit in the log. */
module FileWrite {
  import opened Common
  import opened FsTypes
  import opened FsSpec
  import opened Fs
  import LogSpec
  import Transaction

  /** The largest chunk, ((LOGSIZE-1-1-2) / 2) * 512. */
  const CHUNK: nat := ((LogSpec.LOGSIZE - 1 - 1 - 2) / 2) * 512

  /** The block numbers in file blocks lo..hi of inode i. */
  ghost function Blocks(v: Vol, i: nat, lo: nat, hi: nat): set<int>
    requires Shape(v) && i < |v.inodes| && hi <= MAXFILE
  {
    if hi <= lo then {} else Blocks(v, i, lo, hi - 1) + {Name(v, i, SlotOf(hi - 1))}
  }

  lemma {:induction false} BlocksHas(v: Vol, i: nat, lo: nat, hi: nat, bn: nat)
    requires Shape(v) && i < |v.inodes| && lo <= bn < hi <= MAXFILE
    ensures Name(v, i, SlotOf(bn)) in Blocks(v, i, lo, hi)
  {
    if bn < hi - 1 { BlocksHas(v, i, lo, hi - 1, bn); }
  }

  lemma {:induction false} BlocksCount(v: Vol, i: nat, lo: nat, hi: nat)
    requires Shape(v) && i < |v.inodes| && lo <= hi <= MAXFILE
    ensures |Blocks(v, i, lo, hi)| <= hi - lo
  {
    if lo < hi { BlocksCount(v, i, lo, hi - 1); }
  }

  /** A chunk at any offset touches at most four blocks. */
  lemma TouchesFour(v: Vol, i: nat, off: nat, n: nat)
    requires Shape(v) && i < |v.inodes| && off + n <= MAXFILE * BSIZE && n <= CHUNK
    ensures |Touched(v, i, off, n)| <= 4
  {
    var lo := off / BSIZE;
    var hi := if lo + 4 < MAXFILE then lo + 4 else MAXFILE;
    if n > 0 {
      BlocksCount(v, i, lo, hi);
      forall x | x in Touched(v, i, off, n) ensures x in Blocks(v, i, lo, hi) {
        var bn :| off / BSIZE <= bn <= (off + n - 1) / BSIZE && x == Name(v, i, SlotOf(bn));
        BlocksHas(v, i, lo, hi, bn);
      }
      SubsetSize(Touched(v, i, off, n), Blocks(v, i, lo, hi));
    } else {
      assert Touched(v, i, off, n) == {};
    }
  }

  /** The bitmap sectors of a disk whose bitmap fits in one block. */
  lemma OneBitmapSector(v: Vol, ninodes: nat)
    requires |v.blocks| <= BPB
    ensures (set b | 0 <= b < |v.blocks| :: BitmapSector(b, ninodes)) <= {BitmapSector(0, ninodes)}
  {
  }

  /** What one chunk of a write may log: four data blocks, the indirect block, the bitmap and the
      inode, seven sectors in all. */
  lemma WriteLogsSeven(v: Vol, i: nat, ninodes: nat, off: nat, n: nat, logged: set<int>)
    requires Shape(v) && i < |v.inodes| && off + n <= MAXFILE * BSIZE && n <= CHUNK && |v.blocks| <= BPB
    requires logged <= {InodeSector(i)} + Support(v, i, ninodes) + Touched(v, i, off, n)
    ensures |logged| <= 7
  {
    TouchesFour(v, i, off, n);
    OneBitmapSector(v, ninodes);
    var t := Touched(v, i, off, n);
    var s := {InodeSector(i), BitmapSector(0, ninodes), v.inodes[i].addrs[NDIRECT]};
    assert logged <= s + t;
    SubsetSize(logged, s + t);
    assert |s + t| <= |s| + |t|;
  }

  /** What truncating an inode may log: the bitmap and the inode. */
  lemma TruncLogsTwo(v: Vol, i: nat, ninodes: nat, logged: set<int>)
    requires |v.blocks| == |v.bitmap| <= BPB
    requires logged <= {InodeSector(i)} + (set b | 0 <= b < |v.bitmap| :: BitmapSector(b, ninodes))
    ensures |logged| <= 2
  {
    OneBitmapSector(v, ninodes);
    SubsetSize(logged, {InodeSector(i), BitmapSector(0, ninodes)});
  }

  /** The updates of one chunk never meet a full log of more than eight sectors, in whatever order
      and however often they log each sector. */
  lemma ChunkFits(v: Vol, i: nat, ninodes: nat, off: nat, n: nat, ws: seq<Transaction.Write>, size: nat)
    requires Shape(v) && i < |v.inodes| && off + n <= MAXFILE * BSIZE && n <= CHUNK && |v.blocks| <= BPB && size > 8
    requires Transaction.Sectors(ws) <= {InodeSector(i)} + Support(v, i, ninodes) + Touched(v, i, off, n)
    ensures Transaction.FitsLog(ws, size)
  {
    WriteLogsSeven(v, i, ninodes, off, n, Transaction.Sectors(ws));
    Transaction.FewSectorsFit(ws, Transaction.Sectors(ws), size);
  }

  /** Sequence x is c with data written at off. */
  ghost predicate IsSplice(x: seq<int>, c: seq<int>, off: nat, data: seq<int>) {
    && off <= |c| && |x| == (if off + |data| <= |c| then |c| else off + |data|)
    && forall k :: 0 <= k < |x| ==> x[k] == if off <= k < off + |data| then data[k - off] else c[k]
  }

  lemma SplicedIs(c: seq<int>, off: nat, data: seq<int>)
    requires off <= |c|
    ensures IsSplice(Spliced(c, off, data), c, off, data)
  {
  }

  lemma SpliceTwice(c: seq<int>, off: nat, a: seq<int>, b: seq<int>, d: seq<int>, x: seq<int>, y: seq<int>)
    requires IsSplice(d, c, off, a) && IsSplice(x, d, off + |a|, b) && IsSplice(y, c, off, a + b)
    ensures x == y
  {
  }

  /** Two splices in a row are one. */
  lemma SplicedTwice(c: seq<int>, off: nat, a: seq<int>, b: seq<int>)
    requires off <= |c|
    ensures off + |a| <= |Spliced(c, off, a)|
    ensures Spliced(Spliced(c, off, a), off + |a|, b) == Spliced(c, off, a + b)
  {
    var d := Spliced(c, off, a);
    SplicedIs(c, off, a);
    SplicedIs(d, off + |a|, b);
    SplicedIs(c, off, a + b);
    SpliceTwice(c, off, a, b, d, Spliced(d, off + |a|, b), Spliced(c, off, a + b));
  }

  lemma SplicedNothing(c: seq<int>, off: nat)
    requires off <= |c|
    ensures Spliced(c, off, []) == c
  {
  }

  lemma TakeMore(src: seq<int>, k: nat, m: nat)
    requires k + m <= |src|
    ensures src[..k] + src[k..k + m] == src[..k + m]
  {
  }

  lemma SplicedPrefix(c: seq<int>, off: nat, src: seq<int>, k: nat, m: nat)
    requires off <= |c| && k + m <= |src|
    ensures off + k <= |Spliced(c, off, src[..k])|
    ensures Spliced(Spliced(c, off, src[..k]), off + k, src[k..k + m]) == Spliced(c, off, src[..k + m])
    ensures Spliced(c, off, src[..0]) == c
  {
    SplicedTwice(c, off, src[..k], src[k..k + m]);
    TakeMore(src, k, m);
    SplicedNothing(c, off);
  }

  /** A file system between transactions, with a bitmap of one block. */
  ghost predicate Settled(fs: FileSystem, i: nat)
    reads fs
  {
    && Sound(fs.v, fs.meta, fs.owner) && i < |fs.v.inodes| && NoHoles(fs.v, i)
    && fs.dinodes == fs.v.inodes && |fs.v.blocks| <= BPB
  }

  /** No file but that of inode i has changed. */
  ghost predicate Elsewhere(v: Vol, v': Vol, i: nat) {
    |v'.inodes| == |v.inodes| && forall j :: 0 <= j < |v.inodes| && j != i ==> SameFile(v, v', j)
  }

  lemma ElsewhereTwice(a: Vol, b: Vol, c: Vol, i: nat)
    requires Elsewhere(a, b, i) && Elsewhere(b, c, i)
    ensures Elsewhere(a, c, i)
  {
    forall j | 0 <= j < |a.inodes| && j != i ensures SameFile(a, c, j) {
      assert SameFile(a, b, j) && SameFile(b, c, j);
    }
  }

  lemma ElsewhereNothing(v: Vol, i: nat)
    requires Shape(v)
    ensures Elsewhere(v, v, i)
  {
  }

  /** A transaction that logs the sectors in l takes volume v to v': everything that differs on the
      disk is in l, and l fits in the log. */
  ghost predicate OneTransaction(v: Vol, v': Vol, l: set<int>, ninodes: nat) {
    Covers(v, v', l, ninodes) && InodesCovered(v.inodes, v'.inodes, l) && |l| <= 7
  }

  /** The volumes after each of a series of transactions, and what each of these logs. */
  ghost predicate Series(vols: seq<Vol>, logs: seq<set<int>>, ninodes: nat) {
    && |vols| == |logs| + 1
    && forall k :: 0 <= k < |logs| ==> OneTransaction(vols[k], vols[k + 1], logs[k], ninodes)
  }

  lemma LongerSeries(vols: seq<Vol>, logs: seq<set<int>>, v: Vol, l: set<int>, ninodes: nat)
    requires Series(vols, logs, ninodes) && OneTransaction(vols[|vols| - 1], v, l, ninodes)
    ensures Series(vols + [v], logs + [l], ninodes)
  {
  }

  /** One transaction of `filewrite`. */
  method WriteChunk(fs: FileSystem, i: nat, off: nat, piece: seq<int>) returns (r: WriteResult)
    requires Settled(fs, i) && off < U32 && |piece| <= CHUNK
    modifies fs
    ensures r.Refused? <==> off > old(fs.v).inodes[i].size || off + |piece| > MAXFILE * BSIZE
    ensures !r.OutOfBlocks? ==> Settled(fs, i) && |fs.logged| <= 7
    ensures r.Refused? ==> fs.v == old(fs.v)
    ensures r.Wrote? ==> OneTransaction(old(fs.v), fs.v, fs.logged, fs.ninodes)
    ensures r.OutOfBlocks? ==> Full(fs.v) && off + |piece| > old(fs.v).inodes[i].size
    ensures r.Wrote? ==>
      Contents(fs.v, i) == Spliced(Contents(old(fs.v), i), off, piece) && Elsewhere(old(fs.v), fs.v, i)
  {
    fs.logged := {};
    r := fs.Writei(i, piece, off);
    if r.Wrote? {
      WriteLogsSeven(fs.v, i, fs.ninodes, off, |piece|, fs.logged);
    } else if r.Refused? {
      assert fs.logged == {};
    }
  }

  /** File c with the first k bytes of src written at off. */
  ghost function Written(c: seq<int>, off: nat, src: seq<int>, k: nat): seq<int>
    requires k <= |src|
  {
    if off <= |c| then Spliced(c, off, src[..k]) else c
  }

  /** The file is c with the first k bytes of src written at off; a write cannot start past
      the end. */
  ghost predicate SoFar(now: seq<int>, c: seq<int>, off: nat, src: seq<int>, k: nat) {
    k <= |src| && now == Written(c, off, src, k) && (off > |c| ==> k == 0)
  }

  lemma MoreWritten(c: seq<int>, off: nat, src: seq<int>, k: nat, m: nat)
    requires off <= |c| && k + m <= |src|
    ensures off + k <= |Spliced(c, off, src[..k])|
    ensures SoFar(Spliced(Spliced(c, off, src[..k]), off + k, src[k..k + m]), c, off, src, k + m)
  {
    SplicedPrefix(c, off, src, k, m);
  }

  lemma NothingWritten(c: seq<int>, off: nat, src: seq<int>)
    ensures SoFar(c, c, off, src, 0)
  {
    if off <= |c| {
      assert src[..0] == [];
      SplicedNothing(c, off);
    }
  }

  /** Volume u is v with the first k bytes of src in file i, and no other file changed. */
  ghost predicate PrefixAt(u: Vol, i: nat, v: Vol, off: nat, src: seq<int>, k: int) {
    && Shape(u) && Shape(v) && i < |u.inodes| && i < |v.inodes| && NoHoles(u, i) && NoHoles(v, i)
    && 0 <= k && SoFar(Contents(u, i), Contents(v, i), off, src, k) && Elsewhere(v, u, i)
  }

  /** Between two transactions of `filewrite` on volume v0. */
  ghost predicate Between(fs: FileSystem, i: nat, v0: Vol, off: nat, src: seq<int>, k: nat)
    reads fs
  {
    Settled(fs, i) && PrefixAt(fs.v, i, v0, off, src, k)
  }

  /** Whether the bytes at off fit in a file of maximal size and leave no hole. */
  predicate Fit(size: nat, off: nat, n: nat) {
    off <= size && off + n <= MAXFILE * BSIZE
  }

  /** One turn of the loop of `filewrite`: a chunk of src behind the first k bytes. */
  method ChunkStep(fs: FileSystem, i: nat, off: nat, src: seq<int>, k: nat, ghost v0: Vol)
    returns (r: WriteResult, k': nat)
    requires Between(fs, i, v0, off, src, k) && off + k < U32 && k < |src|
    modifies fs
    ensures k' == (if r.Wrote? then Min(k + CHUNK, |src|) else k)
    ensures r.Refused? <==> !Fit(v0.inodes[i].size, off, Min(k + CHUNK, |src|))
    ensures !r.OutOfBlocks? ==> Between(fs, i, v0, off, src, k')
    ensures r.Wrote? ==> OneTransaction(old(fs.v), fs.v, fs.logged, fs.ninodes)
    ensures r.Refused? ==> fs.v == old(fs.v)
    ensures r.OutOfBlocks? ==> Full(fs.v) && off + |src| > v0.inodes[i].size
  {
    var n1 := Min(|src| - k, CHUNK);
    ghost var v1 := fs.v;
    PrefixSize(v1, i, v0, off, src, k);
    r := WriteChunk(fs, i, off + k, src[k..k + n1]);
    k' := k;
    match r {
      case Wrote =>
        k' := k + n1;
        ChunkDone(v1, fs.v, i, v0, off, src, k, k');
      case Refused =>
      case OutOfBlocks =>
    }
  }

  lemma PrefixSize(u: Vol, i: nat, v: Vol, off: nat, src: seq<int>, k: nat)
    requires PrefixAt(u, i, v, off, src, k)
    ensures v.inodes[i].size <= u.inodes[i].size && (off + k > u.inodes[i].size <==> off > v.inodes[i].size)
  {
    var c := Contents(v, i);
    if off <= |c| { SplicedIs(c, off, src[..k]); }
  }

  lemma ChunkDone(u: Vol, u': Vol, i: nat, v: Vol, off: nat, src: seq<int>, k: nat, k': nat)
    requires PrefixAt(u, i, v, off, src, k) && k <= k' <= |src| && off <= v.inodes[i].size
    requires Elsewhere(u, u', i) && Shape(u') && i < |u'.inodes| && NoHoles(u', i) && off + k <= u.inodes[i].size
    requires Contents(u', i) == Spliced(Contents(u, i), off + k, src[k..k'])
    ensures PrefixAt(u', i, v, off, src, k')
  {
    ElsewhereTwice(v, u, u', i);
    ContentsDone(Contents(u, i), Contents(u', i), Contents(v, i), off, src, k, k');
  }

  lemma ContentsDone(now: seq<int>, now': seq<int>, c: seq<int>, off: nat, src: seq<int>, k: nat, k': nat)
    requires off <= |c| && k <= k' <= |src| && SoFar(now, c, off, src, k) && off + k <= |now|
    requires now' == Spliced(now, off + k, src[k..k'])
    ensures SoFar(now', c, off, src, k')
  {
    MoreWritten(c, off, src, k, k' - k);
  }

  /** `filewrite` on an inode. It writes chunk by chunk, each chunk in a transaction that logs every
      sector it changes and at most seven, so the log never overflows. It succeeds exactly if the
      bytes fit in a file of maximal size and start inside or at the end of this one. No other
      file changes. It is stuck in the panic of `balloc` only with every block in use and a write
      past the end. */
  method Filewrite(fs: FileSystem, i: nat, off: nat, src: seq<int>)
    returns (done: nat, all: bool, stuck: bool, ghost vols: seq<Vol>, ghost logs: seq<set<int>>)
    requires Settled(fs, i) && off < U32 && |src| < U32
    modifies fs
    ensures !stuck ==> Settled(fs, i) && all == (done == |src|)
    ensures !stuck ==> SoFar(Contents(fs.v, i), Contents(old(fs.v), i), off, src, done) && Elsewhere(old(fs.v), fs.v, i)
    ensures !stuck ==> (all <==> |src| == 0 || Fit(old(fs.v).inodes[i].size, off, |src|))
    ensures !stuck ==> Chunked(vols, logs, old(fs.v), fs.v, done, fs.ninodes)
    ensures !stuck ==> Prefixes(vols, i, old(fs.v), off, src, done)
    ensures stuck ==> Full(fs.v) && off + |src| > old(fs.v).inodes[i].size
  {
    NothingWritten(Contents(fs.v, i), off, src);
    ElsewhereNothing(fs.v, i);
    done, stuck, vols, logs := WriteChunks(fs, i, off, src, fs.v);
    all := done == |src|;
  }

  /** A transaction for each chunk of the first n bytes takes volume v to v'. */
  ghost predicate Chunked(vols: seq<Vol>, logs: seq<set<int>>, v: Vol, v': Vol, n: nat, ninodes: nat) {
    Series(vols, logs, ninodes) && vols[0] == v && vols[|vols| - 1] == v' && ChunkCount(|logs|, n)
  }

  /** Between any two chunks the file holds the bytes of whole chunks. */
  ghost predicate Prefixes(vols: seq<Vol>, i: nat, v: Vol, off: nat, src: seq<int>, n: nat) {
    forall j :: 0 <= j < |vols| ==> PrefixAt(vols[j], i, v, off, src, Min(j * 1536, n))
  }

  lemma MorePrefixes(vols: seq<Vol>, i: nat, v: Vol, off: nat, src: seq<int>, n: nat, u: Vol, n': nat)
    requires Prefixes(vols, i, v, off, src, n) && PrefixAt(u, i, v, off, src, n') && |vols| > 0
    requires n == (|vols| - 1) * 1536 && n < n' <= n + 1536
    ensures Prefixes(vols + [u], i, v, off, src, n')
  {
    var vols' := vols + [u];
    forall j | 0 <= j < |vols'| ensures PrefixAt(vols'[j], i, v, off, src, Min(j * 1536, n')) {
      if j < |vols| { assert PrefixAt(vols[j], i, v, off, src, Min(j * 1536, n)); }
    }
  }

  /** The first n bytes make this many chunks. */
  ghost predicate ChunkCount(count: nat, n: nat) {
    if n == 0 then count == 0 else count > 0 && (count - 1) * 1536 < n <= count * 1536
  }

  /** So many chunks are written of src, and the last is full unless src ends with it. */
  ghost predicate InChunks(count: nat, n: nat, len: nat) {
    n <= len && ChunkCount(count, n) && (n == count * 1536 || n == len)
  }

  lemma NextChunk(count: nat, n: nat, n': nat, len: nat)
    requires InChunks(count, n, len) && n < len && n' == Min(n + CHUNK, len)
    ensures InChunks(count + 1, n', len)
  {
    assert CHUNK == 1536;
  }

  /** The volumes between the chunks and what each chunk logged, after the first n bytes. */
  ghost predicate Recorded(vols: seq<Vol>, logs: seq<set<int>>, i: nat, v0: Vol, v: Vol, off: nat, src: seq<int>,
    n: nat, ninodes: nat)
  {
    && Series(vols, logs, ninodes) && vols[0] == v0 && vols[|vols| - 1] == v
    && InChunks(|logs|, n, |src|) && Prefixes(vols, i, v0, off, src, n)
  }

  lemma Record(vols: seq<Vol>, logs: seq<set<int>>, i: nat, v0: Vol, v: Vol, v': Vol, off: nat, src: seq<int>,
        n: nat, n': nat, log: set<int>, ninodes: nat)
    requires Recorded(vols, logs, i, v0, v, off, src, n, ninodes) && n < |src| && n' == Min(n + CHUNK, |src|)
    requires OneTransaction(v, v', log, ninodes) && PrefixAt(v', i, v0, off, src, n')
    ensures Recorded(vols + [v'], logs + [log], i, v0, v', off, src, n', ninodes)
  {
    LongerSeries(vols, logs, v', log, ninodes);
    NextChunk(|logs|, n, n', |src|);
    MorePrefixes(vols, i, v0, off, src, n, v', n');
  }

  /** The loop of `filewrite`. */
  method WriteChunks(fs: FileSystem, i: nat, off: nat, src: seq<int>, ghost v0: Vol)
    returns (done: nat, stuck: bool, ghost vols: seq<Vol>, ghost logs: seq<set<int>>)
    requires Between(fs, i, v0, off, src, 0) && off < U32 && |src| < U32 && fs.v == v0
    modifies fs
    ensures !stuck ==> Between(fs, i, v0, off, src, done) && Chunked(vols, logs, v0, fs.v, done, fs.ninodes)
    ensures !stuck ==> Prefixes(vols, i, v0, off, src, done)
    ensures !stuck ==> (done == |src| <==> |src| == 0 || Fit(v0.inodes[i].size, off, |src|))
    ensures stuck ==> Full(fs.v) && off + |src| > v0.inodes[i].size
  {
    done, stuck, vols, logs := 0, false, [v0], [];
    while done < |src|
      invariant Between(fs, i, v0, off, src, done)
      invariant done > 0 ==> Fit(v0.inodes[i].size, off, done)
      invariant Recorded(vols, logs, i, v0, fs.v, off, src, done, fs.ninodes)
    {
      var r;
      ghost var n, v := done, fs.v;
      r, done := ChunkStep(fs, i, off, src, done, v0);
      match r {
        case OutOfBlocks => stuck := true; return;
        case Refused => break;
        case Wrote =>
          Record(vols, logs, i, v0, v, fs.v, off, src, n, done, fs.logged, fs.ninodes);
          vols, logs := vols + [fs.v], logs + [fs.logged];
      }
    }
  }

  /** The last close of a file without links (`fileclose`, `iput`): one transaction that frees its
      blocks and its inode. */
  method TruncatingClose(fs: FileSystem, i: nat)
    requires Settled(fs, i)
    modifies fs
    ensures Settled(fs, i) && fs.owner == Without(old(fs.owner), i)
    ensures Elsewhere(old(fs.v), fs.v, i)
    ensures |fs.dinodes| == |old(fs.dinodes)| && fs.dinodes == old(fs.dinodes)[i := fs.dinodes[i]]
    ensures fs.dinodes[i].kind == 0
    ensures |fs.logged| <= 2 < LogSpec.LOGSIZE - 1 && OneTransaction(old(fs.v), fs.v, fs.logged, fs.ninodes)
  {
    fs.logged := {};
    fs.Itrunc(i);
    TypelessOwned(fs.v, fs.meta, fs.owner, i);
    fs.v := fs.v.(inodes := fs.v.inodes[i := fs.v.inodes[i].(kind := 0)]);
    fs.Iupdate(i);
    Truncated(old(fs.v), fs.v, fs.meta, old(fs.owner), fs.owner, i);
    TruncLogsTwo(fs.v, i, fs.ninodes, fs.logged);
  }

  lemma TypelessOwned(v: Vol, meta: nat, owner: Owner, i: nat)
    requires Owned(v, meta, owner) && i < |v.inodes|
    ensures Owned(v.(inodes := v.inodes[i := v.inodes[i].(kind := 0)]), meta, owner)
  {
    var v' := v.(inodes := v.inodes[i := v.inodes[i].(kind := 0)]);
    forall j, t | IsSlot(v, j, t) ensures Name(v', j, t) == Name(v, j, t) {}
  }
}
