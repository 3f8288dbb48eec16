/** The file system over the log: what a crash in the middle of a write leaves of the volume. */
module VolumeLog {
  import opened Common
  import opened Blocks
  import opened FsTypes
  import opened Fs
  import opened LogSpec
  import opened Log
  import opened Transaction
  import opened FileWrite

  // ----- a volume as the sectors of a disk

  /** The fields of a disk inode, in order. */
  ghost function Fields(ip: Inode): seq<int> { [ip.kind, ip.nlink, ip.size] + ip.addrs }

  /** The inodes of sector s, from number i on. */
  ghost function InodeWords(inodes: seq<Inode>, s: nat, i: nat): seq<int>
    decreases |inodes| - i
  {
    if i >= |inodes| then []
    else (if InodeSector(i) == s then Fields(inodes[i]) else []) + InodeWords(inodes, s, i + 1)
  }

  /** The bits of sector s, from block b on. */
  ghost function BitWords(bitmap: seq<bool>, ninodes: nat, s: nat, b: nat): seq<int>
    decreases |bitmap| - b
  {
    if b >= |bitmap| then []
    else
      (if BitmapSector(b, ninodes) == s then [if bitmap[b] then 1 else 0] else []) +
      BitWords(bitmap, ninodes, s, b + 1)
  }

  predicate HoldsInodes(v: Vol, s: nat) { 2 <= s < |v.inodes| / IPB + 3 }

  predicate HoldsBits(v: Vol, s: nat) { |v.inodes| / IPB + 3 <= s <= |v.inodes| / IPB + 3 + |v.bitmap| / BPB }

  /** What sector s of the disk holds. */
  ghost function Sector(v: Vol, s: nat): Block
    requires s < |v.blocks|
  {
    if HoldsInodes(v, s) then Block(InodeWords(v.inodes, s, 0))
    else if HoldsBits(v, s) then Block(BitWords(v.bitmap, |v.inodes|, s, 0))
    else Block(v.blocks[s])
  }

  /** The first n sectors. */
  ghost function Image(v: Vol, n: nat): (d: Disk)
    requires n <= |v.blocks|
    ensures |d| == n && forall s :: 0 <= s < n ==> d[s] == Sector(v, s)
  {
    seq(n, s requires 0 <= s < n => Sector(v, s))
  }

  // ----- the image determines the volume

  lemma {:induction false} SameInode(a: seq<Inode>, b: seq<Inode>, s: nat, i: nat, j: nat)
    requires |a| == |b| && i <= j < |a| && InodeSector(j) == s && InodeWords(a, s, i) == InodeWords(b, s, i)
    requires forall k :: 0 <= k < |a| ==> |a[k].addrs| == |b[k].addrs| == NDIRECT + 1
    ensures a[j] == b[j]
    decreases |a| - i
  {
    if InodeSector(i) == s {
      FirstFields(a[i], b[i], InodeWords(a, s, i + 1), InodeWords(b, s, i + 1));
    } else {
      assert InodeWords(a, s, i) == InodeWords(a, s, i + 1) && InodeWords(b, s, i) == InodeWords(b, s, i + 1);
    }
    if i < j { SameInode(a, b, s, i + 1, j); }
  }

  lemma FirstFields(x: Inode, y: Inode, p: seq<int>, q: seq<int>)
    requires |x.addrs| == |y.addrs| == NDIRECT + 1 && Fields(x) + p == Fields(y) + q
    ensures x == y && p == q
  {
    var f, g := Fields(x), Fields(y);
    assert f == (f + p)[..16] && g == (g + q)[..16] && p == (f + p)[16..] && q == (g + q)[16..];
    assert f[0] == x.kind && f[1] == x.nlink && f[2] == x.size && f[3..] == x.addrs;
    assert g[0] == y.kind && g[1] == y.nlink && g[2] == y.size && g[3..] == y.addrs;
  }

  lemma {:induction false} SameBit(a: seq<bool>, b: seq<bool>, ninodes: nat, s: nat, i: nat, j: nat)
    requires |a| == |b| && i <= j < |a| && BitmapSector(j, ninodes) == s
    requires BitWords(a, ninodes, s, i) == BitWords(b, ninodes, s, i)
    ensures a[j] == b[j]
    decreases |a| - i
  {
    if BitmapSector(i, ninodes) == s {
      FirstBit(a[i], b[i], BitWords(a, ninodes, s, i + 1), BitWords(b, ninodes, s, i + 1));
    } else {
      assert BitWords(a, ninodes, s, i) == BitWords(a, ninodes, s, i + 1);
      assert BitWords(b, ninodes, s, i) == BitWords(b, ninodes, s, i + 1);
    }
    if i < j { SameBit(a, b, ninodes, s, i + 1, j); }
  }

  lemma FirstBit(x: bool, y: bool, p: seq<int>, q: seq<int>)
    requires [if x then 1 else 0] + p == [if y then 1 else 0] + q
    ensures x == y && p == q
  {
    var f, g := [if x then 1 else 0] + p, [if y then 1 else 0] + q;
    assert f[0] == g[0] && p == f[1..] && q == g[1..];
  }

  /** Two volumes with the same sectors have the same inodes, the same bits and the same blocks,
      but for those that hold the inodes and the bits. */
  lemma ImageDetermines(v: Vol, v': Vol, n: nat)
    requires Shape(v) && Shape(v') && |v'.blocks| == |v.blocks| && |v'.inodes| == |v.inodes|
    requires |v.inodes| / IPB + 4 + |v.bitmap| / BPB <= n <= |v.blocks| && Image(v, n) == Image(v', n)
    ensures v'.inodes == v.inodes && v'.bitmap == v.bitmap
    ensures forall s :: 0 <= s < n && !HoldsInodes(v, s) && !HoldsBits(v, s) ==> v'.blocks[s] == v.blocks[s]
  {
    forall j | 0 <= j < |v.inodes| ensures v'.inodes[j] == v.inodes[j] {
      assert Image(v, n)[InodeSector(j)] == Image(v', n)[InodeSector(j)];
      SameInode(v.inodes, v'.inodes, InodeSector(j), 0, j);
    }
    forall b | 0 <= b < |v.bitmap| ensures v'.bitmap[b] == v.bitmap[b] {
      var s := BitmapSector(b, |v.inodes|);
      assert Image(v, n)[s] == Image(v', n)[s];
      SameBit(v.bitmap, v'.bitmap, |v.inodes|, s, 0, b);
    }
    forall s | 0 <= s < n && !HoldsInodes(v, s) && !HoldsBits(v, s) ensures v'.blocks[s] == v.blocks[s] {
      assert Image(v, n)[s] == Image(v', n)[s];
    }
  }

  // ----- what a transaction does not log has not changed

  lemma {:induction false} InodesKept(a: seq<Inode>, b: seq<Inode>, s: nat, i: nat)
    requires |a| == |b| && forall j :: 0 <= j < |a| && InodeSector(j) == s ==> a[j] == b[j]
    ensures InodeWords(a, s, i) == InodeWords(b, s, i)
    decreases |a| - i
  {
    if i < |a| { InodesKept(a, b, s, i + 1); }
  }

  lemma {:induction false} BitsKept(a: seq<bool>, b: seq<bool>, ninodes: nat, s: nat, i: nat)
    requires |a| == |b| && forall j :: 0 <= j < |a| && BitmapSector(j, ninodes) == s ==> a[j] == b[j]
    ensures BitWords(a, ninodes, s, i) == BitWords(b, ninodes, s, i)
    decreases |a| - i
  {
    if i < |a| { BitsKept(a, b, ninodes, s, i + 1); }
  }

  lemma SectorKept(v: Vol, v': Vol, l: set<int>, s: nat)
    requires Covers(v, v', l, |v.inodes|) && InodesCovered(v.inodes, v'.inodes, l) && s < |v.blocks| && s !in l
    ensures Sector(v', s) == Sector(v, s)
  {
    InodesKept(v.inodes, v'.inodes, s, 0);
    BitsKept(v.bitmap, v'.bitmap, |v.inodes|, s, 0);
  }

  // ----- the updates of a transaction

  /** The data of the last update of sector s. */
  function Last(ws: seq<Write>, s: nat): Block
    requires s in Sectors(ws)
  {
    if ws[|ws| - 1].sector == s then ws[|ws| - 1].data else Last(ws[..|ws| - 1], s)
  }

  lemma {:induction false} AppliedAt(home: Disk, ws: seq<Write>, s: nat)
    requires s < |home| && forall w :: w in ws ==> w.sector < |home|
    ensures Applied(home, ws)[s] == if s in Sectors(ws) then Last(ws, s) else home[s]
  {
    if ws != [] { AppliedAt(home, ws[..|ws| - 1], s); }
  }

  /** The updates are about the sectors in l, and leave in each what volume v has there. */
  ghost predicate Logs(ws: seq<Write>, l: set<int>, v: Vol, start: nat) {
    && start <= |v.blocks| && (forall w :: w in ws ==> w.sector < start)
    && (forall s: int :: s in l <==> 0 <= s && s in Sectors(ws))
    && forall s :: s in Sectors(ws) ==> s < start && Last(ws, s) == Sector(v, s)
  }

  lemma AppliedIsImage(v: Vol, v': Vol, l: set<int>, ws: seq<Write>, start: nat)
    requires Covers(v, v', l, |v.inodes|) && InodesCovered(v.inodes, v'.inodes, l) && Logs(ws, l, v', start)
    ensures Applied(Image(v, start), ws) == Image(v', start)
  {
    forall s | 0 <= s < start ensures Applied(Image(v, start), ws)[s] == Image(v', start)[s] {
      AppliedAt(Image(v, start), ws, s);
      if s !in Sectors(ws) { SectorKept(v, v', l, s); }
    }
  }

  lemma LogsFit(ws: seq<Write>, l: set<int>, v: Vol, start: nat, size: nat)
    requires Logs(ws, l, v, start) && |l| <= 7 && size > 8
    ensures FitsLog(ws, size)
  {
    var s: set<int> := Sectors(ws);
    assert s <= l;
    SubsetSize(s, l);
    FewSectorsFit(ws, Sectors(ws), size);
  }

  /** The log is idle over a disk whose home sectors are those of volume v. */
  ghost predicate Rests(log: RedoLog, v: Vol)
    reads log, log.bc
  {
    && log.Live() && !log.busy && log.pending == map[] && log.size > 8
    && log.start <= |v.blocks| && log.Mem() == Image(v, log.start)
  }

  /** A transaction of the file system on the log: it fits, and a crash at any sector write, with
      any number of recoveries cut off, leaves the volume as it was before, up to disk c of the
      history, or as it is after, from there on. */
  method CommitVolume(log: RedoLog, ws: seq<Write>, ghost v: Vol, ghost v': Vol, ghost l: set<int>)
    returns (ghost c: nat)
    requires Rests(log, v) && OneTransaction(v, v', l, |v.inodes|) && Logs(ws, l, v', log.start)
    modifies log, log.bc
    ensures Rests(log, v') && |old(log.bc.history)| <= c <= |log.bc.history| && old(log.bc.history) <= log.bc.history
    ensures AllSurvive(log.bc.history, |old(log.bc.history)| - 1, c, log.start, Image(v, log.start))
    ensures AllSurvive(log.bc.history, c, |log.bc.history|, log.start, Image(v', log.start))
  {
    AppliedIsImage(v, v', l, ws, log.start);
    LogsFit(ws, l, v', log.start, log.size);
    var ok;
    ok, c := Transact(log, ws);
  }

  /** The disks from mark j to the next recover to volume j. */
  ghost predicate Stage(h: seq<Disk>, start: nat, vols: seq<Vol>, marks: seq<nat>, j: nat)
    requires j < |vols| && |marks| == |vols| + 1
  {
    && marks[j] <= marks[j + 1] <= |h| && start <= |vols[j].blocks|
    && AllSurvive(h, marks[j], marks[j + 1], start, Image(vols[j], start))
  }

  /** Each disk of the history from mark 0 on recovers to one of these volumes, in their order. */
  ghost predicate Stages(h: seq<Disk>, start: nat, vols: seq<Vol>, marks: seq<nat>) {
    && |vols| > 0 && |marks| == |vols| + 1 && marks[|vols|] == |h|
    && forall j :: 0 <= j < |vols| ==> Stage(h, start, vols, marks, j)
  }

  lemma NextStage(h: seq<Disk>, h': seq<Disk>, start: nat, vols: seq<Vol>, marks: seq<nat>, v: Vol, c: nat)
    requires Stages(h, start, vols, marks) && h <= h' && |h| <= c <= |h'| && |h| > 0 && start <= |v.blocks|
    requires start <= |vols[|vols| - 1].blocks|
    requires AllSurvive(h', |h| - 1, c, start, Image(vols[|vols| - 1], start))
    requires AllSurvive(h', c, |h'|, start, Image(v, start))
    ensures Stages(h', start, vols + [v], marks[..|vols|] + [c, |h'|])
  {
    var vols', marks' := vols + [v], marks[..|vols|] + [c, |h'|];
    forall j | 0 <= j < |vols'| ensures Stage(h', start, vols', marks', j) {
      if j < |vols| {
        assert Stage(h, start, vols, marks, j);
        StillSurvive(h, h', marks[j], marks[j + 1], start, Image(vols[j], start));
        if j == |vols| - 1 { SurviveBoth(h', marks[j], |h|, c, start, Image(vols[j], start)); }
      }
    }
  }

  lemma StillSurvive(h: seq<Disk>, h': seq<Disk>, lo: nat, hi: nat, start: nat, home: Disk)
    requires h <= h' && hi <= |h| && AllSurvive(h, lo, hi, start, home)
    ensures AllSurvive(h', lo, hi, start, home)
  {
    assert forall k :: lo <= k < hi ==> h'[k] == h[k];
  }

  lemma SurviveBoth(h: seq<Disk>, lo: nat, mid: nat, hi: nat, start: nat, home: Disk)
    requires 0 < mid <= hi <= |h| && AllSurvive(h, lo, mid, start, home) && AllSurvive(h, mid - 1, hi, start, home)
    ensures AllSurvive(h, lo, hi, start, home)
  {
  }

  lemma FirstStage(h: seq<Disk>, d: Disk, start: nat, v: Vol)
    requires |h| > 0 && h[|h| - 1] == d && LogOk(d, start) && HeaderN(d[start]) == 0
    requires start <= |v.blocks| && d[..start] == Image(v, start)
    ensures Stages(h, start, [v], [|h| - 1, |h|])
  {
    BeforeSurvives(h, h, d, start);
    assert Stage(h, start, [v], [|h| - 1, |h|], 0);
  }

  /** The transactions of a whole `filewrite`, or any other series: a crash at any sector write,
      with any number of recoveries cut off, leaves the volume as one of the transactions left it,
      and never an earlier one than a crash before would have. */
  method CommitSeries(log: RedoLog, wss: seq<seq<Write>>, ghost vols: seq<Vol>, ghost logs: seq<set<int>>)
    returns (ghost marks: seq<nat>)
    requires |wss| == |logs| && Runs(vols, logs, wss, log.start) && Rests(log, vols[0])
    modifies log, log.bc
    ensures Rests(log, vols[|wss|]) && old(log.bc.history) <= log.bc.history
    ensures Stages(log.bc.history, log.start, vols, marks) && marks[0] == |old(log.bc.history)| - 1
  {
    ghost var h0 := log.bc.history;
    Nothing(log.bc.disk, log.start);
    FirstStage(h0, log.bc.disk, log.start, vols[0]);
    marks := [|h0| - 1, |h0|];
    var k := 0;
    assert vols[..1] == [vols[0]];
    while k < |wss|
      invariant k <= |wss| && Committed(log, h0, vols, k, marks)
    {
      assert RunAt(vols, logs, wss, log.start, k);
      k, marks := CommitNext(log, wss[k], h0, vols, k, marks, logs[k]);
    }
    assert vols[..k + 1] == vols;
  }

  /** The first k transactions are through. */
  ghost predicate Committed(log: RedoLog, h0: seq<Disk>, vols: seq<Vol>, k: nat, marks: seq<nat>)
    reads log, log.bc
  {
    && k < |vols| && Rests(log, vols[k]) && |h0| > 0 && h0 <= log.bc.history
    && Stages(log.bc.history, log.start, vols[..k + 1], marks) && marks[0] == |h0| - 1
  }

  method CommitNext(log: RedoLog, ws: seq<Write>, ghost h0: seq<Disk>, ghost vols: seq<Vol>, k: nat,
        ghost marks: seq<nat>, ghost l: set<int>)
    returns (k': nat, ghost marks': seq<nat>)
    requires k + 1 < |vols| && Committed(log, h0, vols, k, marks)
    requires OneTransaction(vols[k], vols[k + 1], l, |vols[k].inodes|) && Logs(ws, l, vols[k + 1], log.start)
    modifies log, log.bc
    ensures k' == k + 1 && Committed(log, h0, vols, k', marks')
  {
    ghost var h := log.bc.history;
    ghost var c := CommitVolume(log, ws, vols[k], vols[k + 1], l);
    NextStage(h, log.bc.history, log.start, vols[..k + 1], marks, vols[k + 1], c);
    assert vols[..k + 1] + [vols[k + 1]] == vols[..k + 2];
    k', marks' := k + 1, marks[..k + 1] + [c, |log.bc.history|];
  }

  /** Transaction k takes volume k to the next, and its updates leave that on the disk. */
  ghost predicate RunAt(vols: seq<Vol>, logs: seq<set<int>>, wss: seq<seq<Write>>, start: nat, k: nat)
    requires k < |logs| == |wss| && |vols| == |logs| + 1
  {
    OneTransaction(vols[k], vols[k + 1], logs[k], |vols[k].inodes|) && Logs(wss[k], logs[k], vols[k + 1], start)
  }

  ghost predicate Runs(vols: seq<Vol>, logs: seq<set<int>>, wss: seq<seq<Write>>, start: nat) {
    && |vols| == |logs| + 1 && |wss| == |logs|
    && forall k :: 0 <= k < |logs| ==> RunAt(vols, logs, wss, start, k)
  }

  /** The transactions of a `filewrite` are such a series, whatever updates log them. */
  lemma {:induction false} SeriesRuns(vols: seq<Vol>, logs: seq<set<int>>, wss: seq<seq<Write>>, start: nat, k: nat)
    requires |vols| == |logs| + 1 == |wss| + 1 && k <= |logs| && Series(vols, logs, |vols[0].inodes|)
    requires forall j :: 0 <= j < |logs| ==> Logs(wss[j], logs[j], vols[j + 1], start)
    ensures |vols[k].inodes| == |vols[0].inodes| && forall j :: 0 <= j < k ==> RunAt(vols, logs, wss, start, j)
  {
    if k > 0 {
      SeriesRuns(vols, logs, wss, start, k - 1);
      assert OneTransaction(vols[k - 1], vols[k], logs[k - 1], |vols[0].inodes|);
    }
  }

  /** A `filewrite` on the disk. It changes the file system in memory, chunk by chunk, and each chunk
      is a transaction on the log. Whenever the machine stops and however often recovery is cut
      off, the volume is left as after a whole number of chunks: the file holds the bytes of those
      chunks and its own for the rest, and every other file is as it was. */
  lemma WriteIsAtomic(vols: seq<Vol>, logs: seq<set<int>>, h: seq<Disk>, start: nat,
        marks: seq<nat>, v: Vol, v': Vol, i: nat, off: nat, src: seq<int>, done: nat, k: nat)
    returns (j: nat)
    requires Chunked(vols, logs, v, v', done, |v.inodes|) && Prefixes(vols, i, v, off, src, done)
    requires Stages(h, start, vols, marks) && marks[0] <= k < |h|
    ensures j < |vols| && start <= |vols[j].blocks| && AlwaysSurvives(h[k], start, Image(vols[j], start))
    ensures PrefixAt(vols[j], i, v, off, src, Min(j * 1536, done))
  {
    j := StageOf(h, start, vols, marks, k, |vols|);
    assert Stage(h, start, vols, marks, j);
    assert PrefixAt(vols[j], i, v, off, src, Min(j * 1536, done));
  }

  /** The stage that disk k of the history belongs to, among the first n. */
  lemma {:induction false} StageOf(h: seq<Disk>, start: nat, vols: seq<Vol>, marks: seq<nat>, k: nat, n: nat)
    returns (j: nat)
    requires Stages(h, start, vols, marks) && 0 < n <= |vols| && marks[0] <= k < marks[n]
    ensures j < n && marks[j] <= k < marks[j + 1]
  {
    if n == 1 || marks[n - 1] <= k { j := n - 1; } else { j := StageOf(h, start, vols, marks, k, n - 1); }
  }
}
