/** The redo log (log.c): one transaction at a time, over the buffer cache.

    Between calls the log and the cache present the home sectors as one block map, `Mem()`,
    beside the durable copy that a crash would bring back, `bc.disk[..start]`. */
module Log {
  import opened Common
  import opened Blocks
  import opened Bio
  import opened LogSpec

  /** The pinned buffers are exactly the pending sectors, each holding its pending block. */
  ghost predicate Pins(bufs: seq<Buf>, pending: map<nat, Block>) {
    && (forall i :: 0 <= i < |bufs| && bufs[i].dirty ==>
          bufs[i].sector.Some? && bufs[i].sector.value in pending && bufs[i].data == pending[bufs[i].sector.value])
    && (forall s :: s in pending ==> Pinned(bufs, s))
  }

  ghost predicate Pinned(bufs: seq<Buf>, s: nat) {
    exists i :: Caches(bufs, i, s) && bufs[i].dirty
  }

  /** Only buffers in `held` are busy. */
  ghost predicate OnlyBusy(bufs: seq<Buf>, held: set<nat>) {
    forall i :: 0 <= i < |bufs| && bufs[i].busy ==> i in held
  }

  /** Reading, releasing and writing clean buffers moves no pin. */
  lemma PinsStay(bufs: seq<Buf>, bufs': seq<Buf>, pending: map<nat, Block>)
    requires Pins(bufs, pending) && |bufs'| == |bufs|
    requires forall i :: 0 <= i < |bufs| ==> bufs'[i].dirty == bufs[i].dirty
    requires forall i :: 0 <= i < |bufs| && bufs[i].dirty ==>
      bufs'[i].sector == bufs[i].sector && bufs'[i].data == bufs[i].data
    ensures Pins(bufs', pending)
  {
    forall s | s in pending ensures Pinned(bufs', s) {
      var i :| Caches(bufs, i, s) && bufs[i].dirty;
      assert Caches(bufs', i, s);
    }
  }

  /** A pinned sector is read as its pending block, any other idle sector as the disk has it. */
  lemma ViewIsOverlay(disk: Disk, bufs: seq<Buf>, pending: map<nat, Block>, s: nat)
    requires Coherent(disk, bufs) && Pins(bufs, pending) && OnlyBusy(bufs, {}) && s < |disk|
    ensures View(disk, bufs, s) == if s in pending then pending[s] else disk[s]
  {
    if s in pending {
      var i :| Caches(bufs, i, s) && bufs[i].dirty;
      ViewOfCached(disk, bufs, i);
    } else if i :| Caches(bufs, i, s) && bufs[i].valid {
      ViewOfCached(disk, bufs, i);
    }
  }

  /** Bread moves no pin and takes only buffer i. */
  lemma ReadKeepsPins(disk: Disk, bufs: seq<Buf>, i: nat, s: nat, pending: map<nat, Block>)
    requires Coherent(disk, bufs) && Pins(bufs, pending) && i < |bufs| && s < |disk|
    requires bufs[i].dirty ==> Caches(bufs, i, s)
    ensures Pins(bufs[i := Buf(Some(s), true, true, bufs[i].dirty, View(disk, bufs, s))], pending)
  {
    if bufs[i].dirty { ViewOfCached(disk, bufs, i); }
    PinsStay(bufs, bufs[i := Buf(Some(s), true, true, bufs[i].dirty, View(disk, bufs, s))], pending);
  }

  /** The header block after `write_head` has filled in n and the first n sectors. */
  ghost predicate IsHeader(b: Block, old_b: Block, n: nat, sector: seq<nat>)
    requires n <= |sector| <= LOGSIZE && |old_b.words| == WORDS
  {
    && |b.words| == WORDS && HeaderN(b) == n
    && (forall i :: 0 <= i < n ==> HeaderSector(b, i) == sector[i])
    && (forall i :: n < i < WORDS ==> b.words[i] == old_b.words[i])
  }

  /** The copying of the in-memory header into its block. */
  method FillHeader(b: Block, n: nat, sector: seq<nat>) returns (r: Block)
    requires n <= |sector| <= LOGSIZE && |b.words| == WORDS
    ensures IsHeader(r, b, n, sector)
  {
    var hb, j := b.words[0 := n], 0;
    while j < n
      invariant 0 <= j <= n && |hb| == WORDS && hb[0] == n
      invariant forall k :: 0 <= k < j ==> hb[k + 1] == sector[k]
      invariant forall k :: j < k < WORDS ==> hb[k] == b.words[k]
    {
      hb := hb[j + 1 := sector[j]];
      j := j + 1;
    }
    r := Block(hb);
  }

  class RedoLog {
    const bc: BufferCache
    const start: nat
    const size: nat
    var busy: bool
    var n: nat
    var sector: seq<nat>
    ghost var pending: map<nat, Block>   // the blocks logged by this transaction
    ghost var durables: seq<Disk>        // the home sectors after each commit
    ghost var epoch: seq<nat>            // for each disk of the history, the durable state it recovers to

    /** The log is the last nlog sectors, at most NBUF as mkfs builds it. */
    ghost predicate Layout()
      reads this, bc
    {
      && bc.Valid()
      && 0 < size <= NBUF && start + size == |bc.disk| && |bc.disk[start].words| == WORDS
      && |sector| == LOGSIZE && n <= LOGSIZE && n < size
      && (forall j :: 0 <= j < n ==> sector[j] < start)
    }

    constructor (bc: BufferCache, size: nat)
      requires bc.Valid() && 0 < size <= NBUF && size <= |bc.disk| && |bc.disk[|bc.disk| - size].words| == WORDS
      ensures this.bc == bc && start == |bc.disk| - size && this.size == size && !busy && n == 0 && Layout()
    {
      this.bc := bc;
      start := |bc.disk| - size;
      this.size := size;
      busy := false;
      n := 0;
      sector := seq(LOGSIZE, _ => 0);
      pending := map[];
      durables := [];
      epoch := [];
    }

    /** memmove into a held buffer and `bwrite` it: its sector is no longer pinned. */
    method Overwrite(i: nat, data: Block, ghost rest: map<nat, Block>)
      requires bc.Valid() && i < NBUF && bc.bufs[i].busy && bc.bufs[i].valid && Pins(bc.bufs, rest)
      modifies bc
      ensures bc.Valid() && Pins(bc.bufs, rest - {old(bc.bufs)[i].sector.value})
      ensures bc.disk == old(bc.disk)[old(bc.bufs)[i].sector.value := data]
      ensures bc.history == old(bc.history) + [bc.disk]
      ensures bc.bufs == old(bc.bufs)[i := old(bc.bufs)[i].(dirty := false, data := data)]
    {
      ghost var s := bc.bufs[i].sector.value;
      Unpin(bc.bufs, rest, i, s);
      bc.Store(i, data);
      bc.Bwrite(i);
      PinsStay(old(bc.bufs)[i := old(bc.bufs)[i].(dirty := false)], bc.bufs, rest - {s});
    }

    /** `bread` where it neither waits nor panics. */
    method Hold(s: nat, ghost rest: map<nat, Block>) returns (i: nat)
      requires bc.Valid() && s < |bc.disk| && Pins(bc.bufs, rest)
      requires Cached(bc.bufs, s) || exists i :: Recyclable(bc.bufs, i)
      requires forall i :: Caches(bc.bufs, i, s) ==> !bc.bufs[i].busy
      modifies bc
      ensures bc.Valid() && Pins(bc.bufs, rest) && bc.disk == old(bc.disk) && bc.history == old(bc.history)
      ensures i < NBUF && !old(bc.bufs)[i].busy
      ensures bc.bufs == old(bc.bufs)[i := Buf(Some(s), true, true, s in rest, View(bc.disk, old(bc.bufs), s))]
    {
      var r := bc.Bread(s);
      i := r.index;
      ReadKeepsPins(bc.disk, old(bc.bufs), i, s, rest);
      assert Caches(bc.bufs, i, s);
    }

    /** `brelse` of a buffer that is pinned or as the disk has it. */
    method Release(i: nat, ghost rest: map<nat, Block>)
      requires bc.Valid() && i < NBUF && bc.bufs[i].busy && bc.bufs[i].valid && Pins(bc.bufs, rest)
      requires bc.bufs[i].dirty || bc.bufs[i].data == bc.disk[bc.bufs[i].sector.value]
      modifies bc
      ensures bc.Valid() && Pins(bc.bufs, rest)
      ensures bc.disk == old(bc.disk) && bc.history == old(bc.history)
      ensures bc.bufs == old(bc.bufs)[i := old(bc.bufs)[i].(busy := false)]
    {
      bc.Brelse(i);
      PinsStay(old(bc.bufs), bc.bufs, rest);
    }

    /** Overwrite and release a held buffer whose sector is not pinned. */
    method Rewrite(i: nat, data: Block, ghost rest: map<nat, Block>)
      requires bc.Valid() && i < NBUF && bc.bufs[i].busy && bc.bufs[i].valid && Pins(bc.bufs, rest)
      requires bc.bufs[i].sector.value !in rest
      modifies bc
      ensures bc.Valid() && Pins(bc.bufs, rest) && bc.disk == old(bc.disk)[old(bc.bufs)[i].sector.value := data]
      ensures bc.history == old(bc.history) + [bc.disk]
      ensures bc.bufs == old(bc.bufs)[i := old(bc.bufs)[i].(busy := false, dirty := false, data := data)]
    {
      assert rest - {bc.bufs[i].sector.value} == rest;
      Overwrite(i, data, rest);
      Release(i, rest);
    }

    /** Write the in-memory header to the header sector. */
    method WriteHead(ghost rest: map<nat, Block>)
      requires Layout() && Pins(bc.bufs, rest) && start !in rest && OnlyBusy(bc.bufs, {})
      requires |rest| < NBUF
      modifies bc
      ensures Layout() && Pins(bc.bufs, rest) && OnlyBusy(bc.bufs, {})
      ensures bc.disk == old(bc.disk)[start := bc.disk[start]]
      ensures IsHeader(bc.disk[start], old(bc.disk)[start], n, sector)
      ensures bc.history == old(bc.history) + [bc.disk]
    {
      CanRead(bc.disk, bc.bufs, rest, start);
      var i := Hold(start, rest);
      ViewIsOverlay(bc.disk, old(bc.bufs), rest, start);
      var hb := FillHeader(bc.bufs[i].data, n, sector);
      Rewrite(i, hb, rest);
    }

    /** Read the header sector into the in-memory header. */
    method ReadHead(ghost rest: map<nat, Block>)
      requires Layout() && Pins(bc.bufs, rest) && start !in rest && OnlyBusy(bc.bufs, {}) && |rest| < NBUF
      requires LogOk(bc.disk, start)
      modifies bc, this`n, this`sector
      ensures Layout() && Pins(bc.bufs, rest) && OnlyBusy(bc.bufs, {})
      ensures bc.disk == old(bc.disk) && bc.history == old(bc.history)
      ensures n == HeaderN(bc.disk[start])
      ensures forall j :: 0 <= j < n ==> sector[j] == HeaderSector(bc.disk[start], j)
    {
      CanRead(bc.disk, bc.bufs, rest, start);
      ViewIsOverlay(bc.disk, bc.bufs, rest, start);
      var i := Hold(start, rest);
      var lh := bc.bufs[i].data.words;
      n := lh[0];
      var j := 0;
      while j < n
        invariant 0 <= j <= n && |sector| == LOGSIZE
        invariant forall k :: 0 <= k < j ==> sector[k] == HeaderSector(bc.disk[start], k)
        modifies this`sector
      {
        assert lh[j + 1] == HeaderSector(bc.disk[start], j);
        sector := sector[j := lh[j + 1]];
        j := j + 1;
      }
      Release(i, rest);
    }

    /** Hold the buffers of log entry ls and of its home sector ds. */
    method ReadPair(ls: nat, ds: nat, ghost rest: map<nat, Block>) returns (lbuf: nat, dbuf: nat)
      requires bc.Valid() && OnlyBusy(bc.bufs, {}) && Pins(bc.bufs, rest) && |rest| < NBUF
      requires ls < |bc.disk| && ds < |bc.disk| && ls !in rest && ls != ds
      requires ds in rest || |rest| + 1 < NBUF
      modifies bc
      ensures bc.Valid() && Pins(bc.bufs, rest) && bc.disk == old(bc.disk) && bc.history == old(bc.history)
      ensures lbuf < NBUF && dbuf < NBUF && lbuf != dbuf && OnlyBusy(bc.bufs, {lbuf, dbuf})
      ensures bc.bufs[lbuf] == Buf(Some(ls), true, true, false, bc.disk[ls])
      ensures Caches(bc.bufs, dbuf, ds) && bc.bufs[dbuf].busy && bc.bufs[dbuf].valid
    {
      ghost var bufs := bc.bufs;
      CanRead(bc.disk, bufs, rest, ls);
      ViewIsOverlay(bc.disk, bufs, rest, ls);
      lbuf := Hold(ls, rest);
      FirstHeld(bufs, lbuf, ls, bc.disk[ls]);
      CanReadSecond(bc.disk, bc.bufs, rest, lbuf, ls, ds);
      dbuf := Hold(ds, rest);
      SecondHeld(bufs, lbuf, dbuf, ls, ds, bc.disk[ls], bc.bufs[dbuf]);
    }

    /** Write the data of lbuf through dbuf and release both. */
    method CopyPair(lbuf: nat, dbuf: nat, ghost rest: map<nat, Block>)
      requires bc.Valid() && Pins(bc.bufs, rest)
      requires lbuf < NBUF && dbuf < NBUF && lbuf != dbuf && OnlyBusy(bc.bufs, {lbuf, dbuf})
      requires bc.bufs[lbuf].busy && bc.bufs[lbuf].valid && !bc.bufs[lbuf].dirty
      requires bc.bufs[lbuf].data == bc.disk[bc.bufs[lbuf].sector.value]
      requires bc.bufs[dbuf].busy && bc.bufs[dbuf].valid
      modifies bc
      ensures bc.Valid() && OnlyBusy(bc.bufs, {}) && Pins(bc.bufs, rest - {old(bc.bufs)[dbuf].sector.value})
      ensures bc.disk == old(bc.disk)[old(bc.bufs)[dbuf].sector.value := old(bc.bufs)[lbuf].data]
      ensures bc.history == old(bc.history) + [bc.disk]
    {
      ghost var rest' := rest - {bc.bufs[dbuf].sector.value};
      Overwrite(dbuf, bc.bufs[lbuf].data, rest);
      Release(lbuf, rest');
      Release(dbuf, rest');
    }

    /** Copy log entry `tail` onto its home sector. */
    method InstallOne(tail: nat, ghost rest: map<nat, Block>)
      requires Layout() && tail < n && OnlyBusy(bc.bufs, {}) && Pins(bc.bufs, rest) && |rest| < NBUF
      requires (forall s :: s in rest ==> s < start) && (sector[tail] in rest || |rest| + 1 < NBUF)
      modifies bc
      ensures Layout() && OnlyBusy(bc.bufs, {}) && Pins(bc.bufs, rest - {sector[tail]})
      ensures bc.disk == old(bc.disk)[sector[tail] := old(bc.disk)[start + tail + 1]]
      ensures bc.history == old(bc.history) + [bc.disk]
    {
      var lbuf, dbuf := ReadPair(start + tail + 1, sector[tail], rest);
      CopyPair(lbuf, dbuf, rest);
    }

    /** The in-memory header is the one on the disk. */
    ghost predicate HeaderMatches()
      reads this, bc
      requires Layout()
    {
      && HeaderN(bc.disk[start]) == n
      && forall j :: 0 <= j < n ==> HeaderSector(bc.disk[start], j) == sector[j]
    }

    /** Part of the way through installing the log of disk d. */
    ghost predicate Installing(d: Disk, tail: nat, pinned: map<nat, Block>)
      reads this, bc
    {
      && Layout() && LogOk(d, start) && HeaderN(d[start]) == n && tail <= n
      && OnlyBusy(bc.bufs, {}) && Pins(bc.bufs, Remaining(pinned, sector, tail))
      && bc.disk == RecoveryAt(d, start, tail)
    }

    /** One turn of the loop of `install_trans`. */
    method InstallNext(ghost d: Disk, tail: nat, ghost pinned: map<nat, Block>)
      requires Installing(d, tail, pinned) && tail < n && HeaderSector(d[start], tail) == sector[tail]
      requires |pinned| < NBUF && (pinned == map[] || Names(sector, n, pinned)) && forall s :: s in pinned ==> s < start
      modifies bc
      ensures Installing(d, tail + 1, pinned)
      ensures bc.history == old(bc.history) + [RecoveryAt(d, start, tail + 1)]
    {
      NextDisk(d, start, tail);
      NextPins(start, sector, n, tail, pinned);
      InstallOne(tail, Remaining(pinned, sector, tail));
    }

    /** Copy every committed block from the log to its home sector. */
    method InstallTrans(ghost pinned: map<nat, Block>)
      requires Layout() && HeaderMatches() && OnlyBusy(bc.bufs, {}) && Pins(bc.bufs, pinned) && |pinned| < NBUF
      requires (pinned == map[] || Names(sector, n, pinned)) && forall s :: s in pinned ==> s < start
      modifies bc
      ensures Layout() && LogOk(old(bc.disk), start) && OnlyBusy(bc.bufs, {}) && Pins(bc.bufs, map[])
      ensures bc.disk == RecoveryAt(old(bc.disk), start, n)
      ensures bc.history == old(bc.history) + RecoveryDisks(old(bc.disk), start, n)
    {
      InstallAll(bc.disk, bc.history, pinned);
      RemainingSpec(pinned, sector, n, n);
    }

    /** The loop of `install_trans`. */
    method InstallAll(ghost d: Disk, ghost h: seq<Disk>, ghost pinned: map<nat, Block>)
      requires Installing(d, 0, pinned) && bc.history == h && |pinned| < NBUF
      requires (pinned == map[] || Names(sector, n, pinned)) && forall s :: s in pinned ==> s < start
      requires forall j :: 0 <= j < n ==> HeaderSector(d[start], j) == sector[j]
      modifies bc
      ensures Installing(d, n, pinned) && bc.history == h + RecoveryDisks(d, start, n)
    {
      var tail := 0;
      while tail < n
        invariant 0 <= tail <= n && Installing(d, tail, pinned)
        invariant bc.history == h + RecoveryDisks(d, start, tail)
      {
        DisksGrow(h, d, start, tail);
        InstallNext(d, tail, pinned);
        tail := tail + 1;
      }
    }

    /** Copy a committed transaction from the log, then erase it. */
    method RecoverFromLog()
      requires Layout() && LogOk(bc.disk, start) && OnlyBusy(bc.bufs, {}) && Pins(bc.bufs, map[])
      modifies this, bc
      ensures Layout() && OnlyBusy(bc.bufs, {}) && Pins(bc.bufs, map[]) && n == 0
      ensures var last := HeaderN(old(bc.disk)[start]) + 1;
        && bc.disk == RecoveryAt(old(bc.disk), start, last)
        && bc.history == old(bc.history) + RecoveryDisks(old(bc.disk), start, last)
    {
      ReadHead(map[]);
      InstallTrans(map[]);
      Erase(bc.disk, old(bc.disk));
    }

    /** `log.lh.n = 0; write_head();` after everything is installed. */
    method Erase(ghost installed: Disk, ghost d: Disk)
      requires Layout() && OnlyBusy(bc.bufs, {}) && Pins(bc.bufs, map[]) && bc.disk == installed
      requires LogOk(d, start) && HeaderN(d[start]) == n && installed == RecoveryAt(d, start, n)
      modifies this`n, bc
      ensures Layout() && OnlyBusy(bc.bufs, {}) && Pins(bc.bufs, map[]) && n == 0
      ensures bc.disk == RecoveryAt(d, start, HeaderN(d[start]) + 1)
      ensures bc.history == old(bc.history) + [bc.disk]
    {
      LogStays(d, start, n, start);
      n := 0;
      WriteHead(map[]);
      assert bc.disk[start] == Cleared(d[start]);
    }

    /** What holds of the log and the disk throughout a transaction, whatever buffers are held. */
    ghost predicate Base()
      reads this, bc
    {
      && Layout() && InLog(bc.disk, start, sector, n, pending)
      && |durables| > 0 && durables[|durables| - 1] == bc.disk[..start]
      && |bc.history| > 0 && bc.history[|bc.history| - 1] == bc.disk
      && CrashSafe(bc.history, epoch, durables, start)
    }

    /** The state between calls: no buffer held, exactly the logged buffers pinned. */
    ghost predicate Live()
      reads this, bc
    {
      Base() && OnlyBusy(bc.bufs, {}) && Pins(bc.bufs, pending)
    }

    /** The home sectors as readers see them. */
    ghost function Mem(): Disk
      reads this, bc
      requires Base()
    {
      Overlay(bc.disk[..start], pending)
    }

    /** Boot on a disk that a crash left behind. */
    method Boot()
      requires Layout() && LogOk(bc.disk, start) && OnlyBusy(bc.bufs, {}) && Pins(bc.bufs, map[])
      requires bc.history == []
      modifies this, bc
      ensures Live() && !busy && pending == map[]
      ensures durables == [Recover(old(bc.disk), start)] && Mem() == Recover(old(bc.disk), start)
    {
      ghost var d := bc.disk;
      RecoverFromLog();
      busy, pending := false, map[];
      Booted(d, start);
      durables, epoch := [Recover(d, start)], Repeat(|bc.history|, 0);
      assert InLog(bc.disk, start, sector, n, pending) && durables[|durables| - 1] == bc.disk[..start];
      assert CrashSafe(bc.history, epoch, durables, start);
      assert Mem() == bc.disk[..start];
    }

    /** The position of sector s among those logged, or n. */
    method FindSlot(s: nat) returns (k: nat)
      requires n <= |sector|
      ensures k <= n && (k < n ==> sector[k] == s) && forall j :: 0 <= j < k ==> sector[j] != s
    {
      k := 0;
      while k < n
        invariant k <= n && forall j :: 0 <= j < k ==> sector[j] != s
      {
        if sector[k] == s { break; }
        k := k + 1;
      }
    }

    /** Put `data` into log block k while buffer i is held. */
    method LogBlock(k: nat, data: Block, i: nat, ghost rest: map<nat, Block>)
      requires bc.Valid() && Pins(bc.bufs, rest) && OnlyBusy(bc.bufs, {i}) && i < NBUF
      requires bc.bufs[i].busy && bc.bufs[i].sector.Some? && bc.bufs[i].sector.value < start
      requires start + k + 1 < |bc.disk|
      requires |rest| + 1 < NBUF && forall s :: s in rest ==> s < start
      modifies bc
      ensures bc.Valid() && Pins(bc.bufs, rest) && OnlyBusy(bc.bufs, {i}) && bc.bufs[i] == old(bc.bufs)[i]
      ensures bc.disk == old(bc.disk)[start + k + 1 := data] && bc.history == old(bc.history) + [bc.disk]
    {
      var ls := start + k + 1;
      CanReadHolding(bc.disk, bc.bufs, rest, i, ls);
      ghost var j := PutBlock(ls, data, rest);
      StillOnly(old(bc.bufs), j, i, Buf(Some(ls), false, true, false, data));
    }

    /** Read, overwrite and release the buffer of a sector that is not pinned. */
    method PutBlock(s: nat, data: Block, ghost rest: map<nat, Block>) returns (ghost j: nat)
      requires bc.Valid() && s < |bc.disk| && Pins(bc.bufs, rest) && s !in rest
      requires Cached(bc.bufs, s) || exists i :: Recyclable(bc.bufs, i)
      requires forall i :: Caches(bc.bufs, i, s) ==> !bc.bufs[i].busy
      modifies bc
      ensures bc.Valid() && Pins(bc.bufs, rest) && j < NBUF && !old(bc.bufs)[j].busy
      ensures bc.bufs == old(bc.bufs)[j := Buf(Some(s), false, true, false, data)]
      ensures bc.disk == old(bc.disk)[s := data] && bc.history == old(bc.history) + [bc.disk]
    {
      var i := Hold(s, rest);
      Rewrite(i, data, rest);
      j := i;
    }

    /** Wait for the log and mark it busy. The wait is for another transaction to commit. */
    method BeginTrans()
      requires Live() && !busy
      modifies this`busy
      ensures Live() && busy
    {
      busy := true;
    }

    /** Log the held buffer i, absorbing an earlier write of the same sector, and pin it. */
    method LogWrite(i: nat) returns (r: Outcome)
      requires Base() && Holds(bc.bufs, i, start)
      requires Pins(bc.bufs, Touched(pending, bc.bufs[i].sector.value, bc.bufs[i].data))
      modifies this`n, this`sector, this`pending, this`epoch, bc
      ensures r == if old(n) >= LOGSIZE || old(n) >= size - 1 then TooBig else if !busy then OutsideTrans else Logged
      ensures Base() && Holds(bc.bufs, i, start)
      ensures !r.Logged? ==> bc.disk == old(bc.disk) && pending == old(pending) && bc.bufs == old(bc.bufs)
      ensures r.Logged? ==>
        && pending == old(pending)[bc.bufs[i].sector.value := bc.bufs[i].data] && Pins(bc.bufs, pending)
        && bc.bufs[i] == old(bc.bufs)[i].(dirty := true)
        && bc.disk[..start] == old(bc.disk)[..start]
      ensures Since(old(bc.history), bc.history, start, old(bc.disk)[..start])
    {
      if n >= LOGSIZE || n >= size - 1 { return TooBig; }
      if !busy { return OutsideTrans; }
      LogIt(i);
      r := Logged;
    }

    /** `log_write` past its two panics. */
    method LogIt(i: nat)
      requires Base() && Holds(bc.bufs, i, start) && n < LOGSIZE && n < size - 1
      requires Pins(bc.bufs, Touched(pending, bc.bufs[i].sector.value, bc.bufs[i].data))
      modifies this`n, this`sector, this`pending, this`epoch, bc
      ensures Base() && Holds(bc.bufs, i, start) && bc.bufs[i] == old(bc.bufs)[i].(dirty := true)
      ensures pending == old(pending)[bc.bufs[i].sector.value := bc.bufs[i].data] && Pins(bc.bufs, pending)
      ensures bc.disk[..start] == old(bc.disk)[..start]
      ensures Since(old(bc.history), bc.history, start, old(bc.disk)[..start])
    {
      var s := bc.bufs[i].sector.value;
      var k := FindSlot(s);
      ghost var data, n' := bc.bufs[i].data, if k == n then n + 1 else n;
      ghost var d' := bc.disk[start + k + 1 := data];
      Append(bc.disk, start, sector, n, pending, s, data, k);
      assert InLog(d', start, sector[k := s], n', pending[s := data]);
      AppendBlock(k, i);
      Record(k, i);
      assert InLog(bc.disk, start, sector, n, pending);
      assert durables[|durables| - 1] == bc.disk[..start];
      assert bc.history[|bc.history| - 1] == bc.disk;
      assert CrashSafe(bc.history, epoch, durables, start);
    }

    /** Enter the sector of buffer i at slot k and pin the buffer. */
    method Record(k: nat, i: nat)
      requires Layout() && Holds(bc.bufs, i, start) && k <= n < size - 1 && n < LOGSIZE
      requires Pins(bc.bufs, Touched(pending, bc.bufs[i].sector.value, bc.bufs[i].data))
      requires var n' := if k == n then n + 1 else n;
        && Names(sector[k := bc.bufs[i].sector.value], n', pending[bc.bufs[i].sector.value := bc.bufs[i].data])
      modifies this`n, this`sector, this`pending, bc`bufs
      ensures Layout() && Holds(bc.bufs, i, start) && bc.bufs[i] == old(bc.bufs)[i].(dirty := true)
      ensures pending == old(pending)[bc.bufs[i].sector.value := bc.bufs[i].data] && Pins(bc.bufs, pending)
      ensures n == (if k == old(n) then old(n) + 1 else old(n)) && sector == old(sector)[k := bc.bufs[i].sector.value]
    {
      var s := bc.bufs[i].sector.value;
      PinOne(bc.bufs, pending, i, s);
      pending := pending[s := bc.bufs[i].data];
      sector := sector[k := s];
      if k == n {
        n := n + 1;
      }
      bc.Pin(i);
    }

    /** Write the data of the held buffer i to log block k. */
    method AppendBlock(k: nat, i: nat)
      requires Base() && Holds(bc.bufs, i, start) && k <= n < size - 1
      requires Pins(bc.bufs, Touched(pending, bc.bufs[i].sector.value, bc.bufs[i].data))
      requires |Touched(pending, bc.bufs[i].sector.value, bc.bufs[i].data)| == n
      modifies this`epoch, bc
      ensures Layout() && Holds(bc.bufs, i, start) && CrashSafe(bc.history, epoch, durables, start)
      ensures bc.bufs[i] == old(bc.bufs)[i] && Pins(bc.bufs, Touched(pending, bc.bufs[i].sector.value, bc.bufs[i].data))
      ensures bc.disk == old(bc.disk)[start + k + 1 := bc.bufs[i].data] && bc.disk[..start] == old(bc.disk)[..start]
      ensures Since(old(bc.history), bc.history, start, old(bc.disk)[..start])
      ensures bc.history == old(bc.history) + [bc.disk]
    {
      LogBlock(k, bc.bufs[i].data, i, Touched(pending, bc.bufs[i].sector.value, bc.bufs[i].data));
      IdleWrite(old(bc.disk), bc.disk, start, start + k + 1);
      ExtendHistory(old(bc.history), epoch, durables, start, [bc.disk]);
      epoch := epoch + Repeat(1, |durables| - 1);
    }

    /** The sector writes of a commit: the header, which is the commit point, then what recovery
        would do. */
    method CommitLogged() returns (ghost d1: Disk)
      requires Live() && n > 0
      modifies this`n, bc
      ensures Layout() && OnlyBusy(bc.bufs, {}) && Pins(bc.bufs, map[]) && n == 0
      ensures LogOk(d1, start) && HeaderN(d1[start]) == old(n) && Recover(d1, start) == old(Mem())
      ensures |old(bc.disk)| == |d1| && d1 == old(bc.disk)[start := d1[start]]
      ensures bc.disk == RecoveryAt(d1, start, old(n) + 1)
      ensures bc.history == old(bc.history) + [d1] + RecoveryDisks(d1, start, old(n) + 1)
    {
      WriteHead(pending);
      d1 := bc.disk;
      HeaderCommits(old(bc.disk), d1, start, sector, n, pending);
      InstallTrans(pending);
      Erase(bc.disk, d1);
    }

    /** Commit: the home sectors that readers see become the durable ones. */
    method CommitTrans()
      requires Live()
      modifies this, bc
      ensures Live() && !busy && n == 0 && pending == map[]
      ensures bc.disk[..start] == Mem() == old(Mem())
      ensures durables == old(durables) + if old(n) > 0 then [old(Mem())] else []
      ensures Since(old(bc.history), bc.history, start, old(Mem()))
    {
      if n > 0 {
        ghost var d1 := CommitLogged();
        CommitSince(old(bc.history), d1, start);
        CommitHistory(old(bc.history), epoch, durables, start, d1);
        durables := durables + [old(Mem())];
        epoch := epoch + Repeat(old(n) + 2, |durables| - 1);
        pending := map[];
      } else {
        assert pending == map[];
      }
      assert Mem() == bc.disk[..start];
      busy := false;
    }

    /** Read a home sector: `bread`, then `brelse`. */
    method ReadBlock(s: nat) returns (data: Block)
      requires Live() && s < start
      modifies bc
      ensures Live() && data == Mem()[s] && Mem() == old(Mem())
      ensures bc.disk == old(bc.disk) && bc.history == old(bc.history)
    {
      CanRead(bc.disk, bc.bufs, pending, s);
      ViewIsOverlay(bc.disk, bc.bufs, pending, s);
      var i := Hold(s, pending);
      data := bc.bufs[i].data;
      Release(i, pending);
    }

    /** Hold a home sector and change its data in place, not logged yet. */
    method Modify(s: nat, data: Block) returns (i: nat)
      requires Live() && s < start
      modifies bc
      ensures Base() && Holds(bc.bufs, i, start) && bc.bufs[i].sector == Some(s) && bc.bufs[i].data == data
      ensures Pins(bc.bufs, Touched(pending, s, data))
      ensures bc.disk == old(bc.disk) && bc.history == old(bc.history)
    {
      CanRead(bc.disk, bc.bufs, pending, s);
      i := Hold(s, pending);
      ghost var held := bc.bufs;
      bc.Store(i, data);
      Retouch(held, pending, i, s, data);
    }

    /** Release a logged buffer, which stays pinned. */
    method LetGo(i: nat)
      requires Base() && Holds(bc.bufs, i, start) && bc.bufs[i].dirty && Pins(bc.bufs, pending)
      modifies bc
      ensures Live() && bc.disk == old(bc.disk) && bc.history == old(bc.history)
    {
      Release(i, pending);
    }

    /** The documented use of the log: bread, modify, log_write, brelse. */
    method Update(s: nat, data: Block) returns (r: Outcome)
      requires Live() && s < start
      modifies this, bc
      ensures r == if old(n) >= LOGSIZE || old(n) >= size - 1 then TooBig
        else if !old(busy) then OutsideTrans else Logged
      ensures r.Logged? ==> Live() && busy && Mem() == old(Mem())[s := data] && pending == old(pending)[s := data]
      ensures Base() && durables == old(durables) && bc.disk[..start] == old(bc.disk)[..start]
      ensures Since(old(bc.history), bc.history, start, old(bc.disk)[..start])
    {
      var i := Modify(s, data);
      r := LogWrite(i);
      if r.Logged? {
        LetGo(i);
        OverlayUpdate(bc.disk[..start], old(pending), s, data);
      }
    }
  }

  /** Recovery at boot leaves an idle log over the recovered home sectors, and every disk on the
      way recovers to them. */
  lemma Booted(d: Disk, start: nat)
    requires LogOk(d, start)
    ensures var last := HeaderN(d[start]) + 1;
      var d', h := RecoveryAt(d, start, last), RecoveryDisks(d, start, last);
      && |d'| == |d| && |d'[start].words| == WORDS && HeaderN(d'[start]) == 0 && d'[..start] == Recover(d, start)
      && h[|h| - 1] == d' && CrashSafe(h, Repeat(|h|, 0), [Recover(d, start)], start)
  {
    var last := HeaderN(d[start]) + 1;
    var d', h := RecoveryAt(d, start, last), RecoveryDisks(d, start, last);
    CrashInRecovery(d, start, last);
    LogStays(d, start, HeaderN(d[start]), start);
    RecoverIdle(d', start);
    var home := [Recover(d, start)];
    forall k | 0 <= k < |h| ensures LogOk(h[k], start) && Recover(h[k], start) == Recover(d, start) {
      RecoveryDisksAt(d, start, last, k);
      CrashInRecovery(d, start, k + 1);
    }
    ExtendHistory([], [], home, start, h);
    assert [] + h == h && [] + Repeat(|h|, 0) == Repeat(|h|, 0);
  }

  lemma OverlayUpdate(home: Disk, pending: map<nat, Block>, s: nat, data: Block)
    requires s < |home|
    ensures Overlay(home, pending[s := data]) == Overlay(home, pending)[s := data]
  {
  }

  /** The disks since history h0 all recover to these home sectors. */
  ghost predicate Since(h0: seq<Disk>, h: seq<Disk>, start: nat, home: Disk) {
    h0 <= h && forall k :: |h0| <= k < |h| ==> LogOk(h[k], start) && Recover(h[k], start) == home
  }

  lemma CommitSince(h: seq<Disk>, d1: Disk, start: nat)
    requires LogOk(d1, start)
    ensures Since(h, h + [d1] + RecoveryDisks(d1, start, HeaderN(d1[start]) + 1), start, Recover(d1, start))
  {
    var r := [d1] + RecoveryDisks(d1, start, HeaderN(d1[start]) + 1);
    var all := h + [d1] + RecoveryDisks(d1, start, HeaderN(d1[start]) + 1);
    assert all == h + r;
    forall k | |h| <= k < |all| ensures LogOk(all[k], start) && Recover(all[k], start) == Recover(d1, start) {
      CommitDisk(d1, start, k - |h|);
      assert all[k] == r[k - |h|];
    }
  }

  /** Start a machine on the disk a crash left behind: a fresh cache, then recovery. */
  method Mount(disk: Disk, size: nat) returns (log: RedoLog)
    requires 0 < size <= NBUF && size <= |disk| && LogOk(disk, |disk| - size)
    ensures fresh(log) && fresh(log.bc) && log.start == |disk| - size
    ensures log.Live() && log.durables == [Recover(disk, log.start)] && log.Mem() == Recover(disk, log.start)
  {
    var bc := new BufferCache(disk);
    log := new RedoLog(bc, size);
    log.Boot();
  }

  lemma Retouch(bufs: seq<Buf>, pending: map<nat, Block>, i: nat, s: nat, data: Block)
    requires Pins(bufs, pending) && Caches(bufs, i, s) && bufs[i].dirty == (s in pending)
    requires forall j, k :: 0 <= j < k < |bufs| && bufs[j].sector.Some? ==> bufs[j].sector != bufs[k].sector
    ensures Pins(bufs[i := bufs[i].(data := data)], Touched(pending, s, data))
  {
    var bufs' := bufs[i := bufs[i].(data := data)];
    forall t | t in pending ensures Pinned(bufs', t) {
      assert Pinned(bufs, t);
      var j :| Caches(bufs, j, t) && bufs[j].dirty;
      assert Caches(bufs', j, t);
    }
  }

  /** Once the header names the logged sectors, the disk recovers to the logged blocks. */
  lemma HeaderCommits(d: Disk, d1: Disk, start: nat, sector: seq<nat>, n: nat, pending: map<nat, Block>)
    requires n <= |sector| == LOGSIZE && start + n < |d| && Names(sector, n, pending)
    requires BlocksMatch(d, start, sector, n, pending)
    requires (forall j :: 0 <= j < n ==> sector[j] < start) && |d[start].words| == WORDS
    requires |d1| == |d| && d1 == d[start := d1[start]] && IsHeader(d1[start], d[start], n, sector)
    ensures LogOk(d1, start) && HeaderN(d1[start]) == n && Recover(d1, start) == Overlay(d[..start], pending)
  {
    assert d1[..start] == d[..start];
    ReplayIsOverlay(d1[..start], d1, start, n, pending);
    var r, o := Recover(d1, start), Overlay(d[..start], pending);
    forall t | 0 <= t < start ensures r[t] == o[t] {
      if t in pending {
        NamesCover(sector, n, pending, t);
        var j :| 0 <= j < n && sector[..n][j] == t;
        assert HeaderSector(d1[start], j) == t;
      } else {
        assert forall j :: 0 <= j < n ==> HeaderSector(d1[start], j) != t;
      }
    }
  }

  datatype Outcome = Logged | TooBig | OutsideTrans

  /** Buffer i is the only busy one and caches a home sector. */
  ghost predicate Holds(bufs: seq<Buf>, i: nat, start: nat) {
    && i < |bufs| && bufs[i].busy && bufs[i].valid && bufs[i].sector.Some? && bufs[i].sector.value < start
    && OnlyBusy(bufs, {i})
  }

  /** The pins while the buffer of sector s holds `data` that may not be logged yet. */
  ghost function Touched(pending: map<nat, Block>, s: nat, data: Block): map<nat, Block> {
    if s in pending then pending[s := data] else pending
  }

  /** The first n entries of `sector` are distinct and are the keys of pending. */
  ghost predicate Names(sector: seq<nat>, n: nat, pending: map<nat, Block>)
    requires n <= |sector|
  {
    && (forall i, j :: 0 <= i < j < n ==> sector[i] != sector[j])
    && (forall j :: 0 <= j < n ==> sector[j] in pending)
    && |pending| == n
  }

  /** Recording a sector at the slot `log_write` found. */
  lemma AppendName(sector: seq<nat>, n: nat, pending: map<nat, Block>, s: nat, data: Block, k: nat)
    requires n < |sector| && Names(sector, n, pending) && k <= n
    requires (k < n ==> sector[k] == s) && forall j :: 0 <= j < k ==> sector[j] != s
    ensures Names(sector[k := s], if k == n then n + 1 else n, pending[s := data])
    ensures Touched(pending, s, data).Keys == pending.Keys && |Touched(pending, s, data)| == n
  {
    assert pending[s := data].Keys == pending.Keys + {s};
    if k == n && s in pending { NamesCover(sector, n, pending, s); }
    if s in pending {
      assert pending[s := data].Keys == pending.Keys;
    }
  }

  lemma PinOne(bufs: seq<Buf>, pending: map<nat, Block>, i: nat, s: nat)
    requires Caches(bufs, i, s) && Pins(bufs, Touched(pending, s, bufs[i].data))
    ensures Pins(bufs[i := bufs[i].(dirty := true)], pending[s := bufs[i].data])
  {
    var bufs' := bufs[i := bufs[i].(dirty := true)];
    assert Caches(bufs', i, s);
    forall t | t in pending && t != s ensures Pinned(bufs', t) {
      assert Pinned(bufs, t);
      var j :| Caches(bufs, j, t) && bufs[j].dirty;
      assert Caches(bufs', j, t);
    }
  }

  lemma NamesCover(sector: seq<nat>, n: nat, pending: map<nat, Block>, s: nat)
    requires n <= |sector| && (pending == map[] || Names(sector, n, pending)) && s in pending
    ensures s in sector[..n]
  {
    var named := set j | 0 <= j < n :: sector[..n][j];
    DistinctSize(sector[..n], n);
    if s !in sector[..n] {
      SubsetSize(named, pending.Keys - {s});
    }
  }

  /** Log block j holds the pending block of sector[j]. */
  ghost predicate BlocksMatch(d: Disk, start: nat, sector: seq<nat>, n: nat, pending: map<nat, Block>)
    requires n <= |sector| && start + n < |d| && Names(sector, n, pending)
  {
    forall j :: 0 <= j < n ==> d[start + j + 1] == pending[sector[j]]
  }

  /** The log holds the pending blocks, uncommitted. */
  ghost predicate InLog(d: Disk, start: nat, sector: seq<nat>, n: nat, pending: map<nat, Block>)
    requires n <= |sector| && start + n < |d| && |d[start].words| == WORDS
  {
    && Names(sector, n, pending) && (forall s :: s in pending ==> s < start) && HeaderN(d[start]) == 0
    && BlocksMatch(d, start, sector, n, pending)
  }

  /** `log_write` of block data for sector s, in slot k. */
  lemma Append(d: Disk, start: nat, sector: seq<nat>, n: nat, pending: map<nat, Block>, s: nat, data: Block, k: nat)
    requires n < |sector| && start + n + 1 < |d| && |d[start].words| == WORDS && InLog(d, start, sector, n, pending)
    requires k <= n && (k < n ==> sector[k] == s) && (forall j :: 0 <= j < k ==> sector[j] != s) && s < start
    ensures InLog(d[start + k + 1 := data], start, sector[k := s], if k == n then n + 1 else n, pending[s := data])
    ensures |Touched(pending, s, data)| == n
  {
    AppendName(sector, n, pending, s, data, k);
    AppendMatches(d, start, sector, n, pending, s, data, k);
  }

  lemma AppendMatches(d: Disk, start: nat, sector: seq<nat>, n: nat, pending: map<nat, Block>, s: nat, data: Block,
        k: nat)
    requires n < |sector| && start + n + 1 < |d| && Names(sector, n, pending)
    requires BlocksMatch(d, start, sector, n, pending)
    requires k <= n && (k < n ==> sector[k] == s) && forall j :: 0 <= j < k ==> sector[j] != s
    ensures var n' := if k == n then n + 1 else n;
      && Names(sector[k := s], n', pending[s := data])
      && BlocksMatch(d[start + k + 1 := data], start, sector[k := s], n', pending[s := data])
  {
    AppendName(sector, n, pending, s, data, k);
  }

  /** The pending sectors that are not among the first k installed. */
  ghost function Remaining(pending: map<nat, Block>, sector: seq<nat>, k: nat): map<nat, Block>
    requires k <= |sector|
  {
    if k == 0 then pending else Remaining(pending, sector, k - 1) - {sector[k - 1]}
  }

  lemma {:induction false} RemainingKey(pending: map<nat, Block>, sector: seq<nat>, k: nat, s: nat)
    requires k <= |sector|
    ensures s in Remaining(pending, sector, k) <==> s in pending && s !in sector[..k]
  {
    if k > 0 {
      RemainingKey(pending, sector, k - 1, s);
      assert sector[..k] == sector[..k - 1] + [sector[k - 1]];
    }
  }

  /** The next entry is still pinned, until none is left. */
  lemma RemainingSpec(pending: map<nat, Block>, sector: seq<nat>, n: nat, k: nat)
    requires k <= n <= |sector| && (pending == map[] || Names(sector, n, pending))
    ensures Remaining(pending, sector, k).Keys <= pending.Keys
    ensures pending != map[] && k < n ==> sector[k] in Remaining(pending, sector, k)
    ensures k == n ==> Remaining(pending, sector, k) == map[]
  {
    forall s | s in Remaining(pending, sector, k)
      ensures s in pending && k < n
    {
      RemainingKey(pending, sector, k, s);
      if k == n { NamesCover(sector, n, pending, s); }
    }
    if k < n { RemainingKey(pending, sector, k, sector[k]); }
  }

  lemma CanReadHolding(disk: Disk, bufs: seq<Buf>, rest: map<nat, Block>, i: nat, s: nat)
    requires Coherent(disk, bufs) && Pins(bufs, rest) && OnlyBusy(bufs, {i}) && i < |bufs| && |rest| + 1 < |bufs|
    requires bufs[i].sector.Some? && bufs[i].sector.value != s
    ensures exists j :: Recyclable(bufs, j)
    ensures forall j :: Caches(bufs, j, s) ==> !bufs[j].busy
  {
    FreeBuffer(disk, bufs, rest.Keys + {bufs[i].sector.value});
  }

  lemma StillOnly(bufs: seq<Buf>, j: nat, i: nat, b: Buf)
    requires OnlyBusy(bufs, {i}) && j < |bufs| && !b.busy
    ensures OnlyBusy(bufs[j := b], {i})
  {
  }

  lemma FirstHeld(bufs: seq<Buf>, i: nat, s: nat, data: Block)
    requires OnlyBusy(bufs, {}) && i < |bufs|
    ensures OnlyBusy(bufs[i := Buf(Some(s), true, true, false, data)], {i})
    ensures Caches(bufs[i := Buf(Some(s), true, true, false, data)], i, s)
  {
  }

  lemma SecondHeld(bufs: seq<Buf>, i: nat, j: nat, s: nat, t: nat, data: Block, b: Buf)
    requires OnlyBusy(bufs, {}) && i < |bufs| && j < |bufs| && i != j && b.sector == Some(t)
    ensures var bufs' := bufs[i := Buf(Some(s), true, true, false, data)][j := b];
      OnlyBusy(bufs', {i, j}) && Caches(bufs', j, t)
  {
  }

  /** What the next step of installing the log of d writes ... */
  lemma NextDisk(d: Disk, start: nat, tail: nat)
    requires LogOk(d, start) && tail < HeaderN(d[start])
    ensures start + tail + 1 < |d| && HeaderSector(d[start], tail) < |d|
    ensures var r := RecoveryAt(d, start, tail);
      RecoveryAt(d, start, tail + 1) == r[HeaderSector(d[start], tail) := r[start + tail + 1]]
  {
    LogStays(d, start, tail, start + tail + 1);
  }

  /** ... and that there is a buffer for it. */
  lemma NextPins(start: nat, sector: seq<nat>, n: nat, tail: nat, pinned: map<nat, Block>)
    requires tail < n <= |sector| && |pinned| < NBUF
    requires (pinned == map[] || Names(sector, n, pinned)) && forall s :: s in pinned ==> s < start
    ensures var rest := Remaining(pinned, sector, tail);
      && |rest| < NBUF && (forall s :: s in rest ==> s < start) && (sector[tail] in rest || |rest| + 1 < NBUF)
      && Remaining(pinned, sector, tail + 1) == rest - {sector[tail]}
  {
    RemainingSpec(pinned, sector, n, tail);
    SubmapSize(Remaining(pinned, sector, tail), pinned);
  }

  lemma SubmapSize(m: map<nat, Block>, m': map<nat, Block>)
    requires m.Keys <= m'.Keys
    ensures |m| <= |m'|
  {
    SubsetSize(m.Keys, m'.Keys);
  }

  /** Writing a pinned buffer through takes its sector off the pinned ones. */
  lemma Unpin(bufs: seq<Buf>, rest: map<nat, Block>, i: nat, s: nat)
    requires Pins(bufs, rest) && Caches(bufs, i, s)
    requires forall j, k :: 0 <= j < k < |bufs| && bufs[j].sector.Some? ==> bufs[j].sector != bufs[k].sector
    ensures Pins(bufs[i := bufs[i].(dirty := false)], rest - {s})
  {
    var bufs' := bufs[i := bufs[i].(dirty := false)];
    forall t | t in rest - {s} ensures Pinned(bufs', t) {
      var j :| Caches(bufs, j, t) && bufs[j].dirty;
      assert Caches(bufs', j, t);
    }
  }

  /** While a log buffer is held, the home sector of an entry can still be read. */
  lemma CanReadSecond(disk: Disk, bufs: seq<Buf>, rest: map<nat, Block>, lbuf: nat, ls: nat, ds: nat)
    requires Coherent(disk, bufs) && Pins(bufs, rest) && OnlyBusy(bufs, {lbuf}) && Caches(bufs, lbuf, ls)
    requires ls != ds && (if ds in rest then |rest| <= |bufs| else |rest| + 1 < |bufs|)
    ensures Cached(bufs, ds) || exists i :: Recyclable(bufs, i)
    ensures forall i :: Caches(bufs, i, ds) ==> !bufs[i].busy
  {
    if ds in rest {
      var i :| Caches(bufs, i, ds) && bufs[i].dirty;
    } else {
      FreeBuffer(disk, bufs, rest.Keys + {ls});
    }
  }

  /** With nothing busy and fewer than NBUF sectors pinned, `bread` neither waits nor panics. */
  lemma CanRead(disk: Disk, bufs: seq<Buf>, pending: map<nat, Block>, s: nat)
    requires Coherent(disk, bufs) && Pins(bufs, pending) && OnlyBusy(bufs, {}) && |pending| < |bufs|
    ensures exists i :: Recyclable(bufs, i)
    ensures forall i :: Caches(bufs, i, s) ==> !bufs[i].busy
  {
    FreeBuffer(disk, bufs, pending.Keys);
  }
}
