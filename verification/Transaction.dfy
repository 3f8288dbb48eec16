/** Whole transactions over the redo log (log.c): any updates, then a commit, with a crash after
    any sector write. */
module Transaction {
  import opened Common
  import opened Blocks
  import opened LogSpec
  import opened Log

  /** One logged update of a home sector. */
  datatype Write = Write(sector: nat, data: Block)

  /** The home sectors after the updates. */
  ghost function Applied(home: Disk, ws: seq<Write>): (r: Disk)
    requires forall w :: w in ws ==> w.sector < |home|
    ensures |r| == |home|
  {
    if ws == [] then home else Applied(home, ws[..|ws| - 1])[ws[|ws| - 1].sector := ws[|ws| - 1].data]
  }

  /** The sectors that the updates are about. */
  function Sectors(ws: seq<Write>): set<nat> {
    if ws == [] then {} else Sectors(ws[..|ws| - 1]) + {ws[|ws| - 1].sector}
  }

  lemma {:induction false} SectorsGrow(ws: seq<Write>, k: nat)
    requires k <= |ws|
    ensures Sectors(ws[..k]) <= Sectors(ws) && |Sectors(ws[..k])| <= |Sectors(ws)|
  {
    if k < |ws| {
      SectorsGrow(ws[..|ws| - 1], k);
      assert ws[..|ws| - 1][..k] == ws[..k];
    } else {
      assert ws[..k] == ws;
    }
    SubsetSize(Sectors(ws[..k]), Sectors(ws));
  }

  function Room(size: nat): int { if LOGSIZE < size - 1 then LOGSIZE else size - 1 }

  /** No update meets a full log: before the last one there is room for another sector. */
  predicate FitsLog(ws: seq<Write>, size: nat) {
    ws == [] || |Sectors(ws[..|ws| - 1])| < Room(size)
  }

  /** Updates of few sectors fit, however many updates there are. */
  lemma FewSectorsFit(ws: seq<Write>, sectors: set<nat>, size: nat)
    requires Sectors(ws) <= sectors && |sectors| < Room(size)
    ensures FitsLog(ws, size)
  {
    if ws != [] {
      SectorsGrow(ws, |ws| - 1);
      SubsetSize(Sectors(ws), sectors);
    }
  }

  /** However often recovery itself is cut off, the first that completes from disk d leaves
      these home sectors. */
  ghost predicate Survives(d: Disk, start: nat, ks: seq<nat>, home: Disk)
    requires LogOk(d, start)
  {
    var d' := AfterCrashes(d, start, ks);
    LogOk(d', start) && RecoveryAt(d', start, HeaderN(d'[start]) + 1)[..start] == home
  }

  /** Wherever recovery is cut off, and however often. */
  ghost predicate AlwaysSurvives(d: Disk, start: nat, home: Disk) {
    LogOk(d, start) && forall ks :: Survives(d, start, ks, home)
  }

  /** So it is of disks lo up to hi of a history. */
  ghost predicate AllSurvive(h: seq<Disk>, lo: nat, hi: nat, start: nat, home: Disk)
    requires hi <= |h|
  {
    forall k :: lo <= k < hi ==> AlwaysSurvives(h[k], start, home)
  }

  lemma SinceSurvives(h0: seq<Disk>, h: seq<Disk>, start: nat, home: Disk)
    requires Since(h0, h, start, home)
    ensures AllSurvive(h, |h0|, |h|, start, home)
  {
    forall k | |h0| <= k < |h| ensures AlwaysSurvives(h[k], start, home) {
      forall ks ensures Survives(h[k], start, ks, home) {
        RecoveryIsIdempotent(h[k], start, ks);
      }
    }
  }

  /** The disk before the transaction recovers to what readers see. */
  lemma BeforeSurvives(h0: seq<Disk>, h: seq<Disk>, d: Disk, start: nat)
    requires |h0| > 0 && h0[|h0| - 1] == d && LogOk(d, start) && HeaderN(d[start]) == 0
    requires Since(h0, h, start, d[..start])
    ensures AllSurvive(h, |h0| - 1, |h|, start, d[..start])
  {
    RecoverIdle(d, start);
    SinceSurvives(h0[..|h0| - 1], h, start, d[..start]);
  }

  lemma SinceTwice(a: seq<Disk>, b: seq<Disk>, c: seq<Disk>, start: nat, home: Disk)
    requires Since(a, b, start, home) && Since(b, c, start, home)
    ensures Since(a, c, start, home)
  {
  }

  /** The first k updates are in the log, and every disk since h0 recovers to `home`. */
  ghost predicate Updated(log: RedoLog, ws: seq<Write>, k: nat, home: Disk, h0: seq<Disk>)
    reads log, log.bc
  {
    && k <= |ws| && log.Live() && log.busy && log.bc.disk[..log.start] == home
    && (forall w :: w in ws ==> w.sector < |home|)
    && Since(h0, log.bc.history, log.start, home)
    && log.pending.Keys == Sectors(ws[..k]) && log.Mem() == Applied(home, ws[..k])
  }

  /** One update of a transaction. */
  method UpdateNext(log: RedoLog, ws: seq<Write>, k: nat, ghost home: Disk, ghost h0: seq<Disk>) returns (ok: bool)
    requires Updated(log, ws, k, home, h0) && k < |ws|
    modifies log, log.bc
    ensures log.Base() && log.bc.disk[..log.start] == home && Since(h0, log.bc.history, log.start, home)
    ensures ok <==> |Sectors(ws[..k])| < Room(log.size)
    ensures ok ==> Updated(log, ws, k + 1, home, h0)
  {
    ghost var h1 := log.bc.history;
    Pending(log.sector, log.n, log.pending, ws, k);
    var r := log.Update(ws[k].sector, ws[k].data);
    SinceTwice(h0, h1, log.bc.history, log.start, home);
    OneMore(ws, k);
    ok := r.Logged?;
  }

  /** The updates of a transaction, up to one that meets a full log. */
  method Updates(log: RedoLog, ws: seq<Write>, ghost home: Disk) returns (ok: bool)
    requires log.Live() && log.busy && log.pending == map[] && log.Mem() == home
    requires forall w :: w in ws ==> w.sector < log.start
    modifies log, log.bc
    ensures log.Base() && log.bc.disk[..log.start] == home
    ensures Since(old(log.bc.history), log.bc.history, log.start, home)
    ensures ok <==> FitsLog(ws, log.size)
    ensures ok ==> log.Live() && log.Mem() == Applied(home, ws)
  {
    Nothing(log.bc.disk, log.start);
    ghost var h0 := log.bc.history;
    var k := 0;
    while k < |ws|
      invariant Updated(log, ws, k, home, h0)
      invariant k > 0 ==> |Sectors(ws[..k - 1])| < Room(log.size)
    {
      ok := UpdateNext(log, ws, k, home, h0);
      if !ok {
        TooMany(ws, k, log.size);
        return;
      }
      k := k + 1;
    }
    assert ws[..k] == ws;
    ok := true;
  }

  lemma Nothing(disk: Disk, start: nat)
    requires start <= |disk|
    ensures Overlay(disk[..start], map[]) == disk[..start]
  {
  }

  /** The number of logged sectors is the number of those in the header. */
  lemma Pending(sector: seq<nat>, n: nat, pending: map<nat, Block>, ws: seq<Write>, k: nat)
    requires k < |ws| && n <= |sector| && Names(sector, n, pending) && pending.Keys == Sectors(ws[..k])
    ensures n == |Sectors(ws[..k])|
  {
    assert |pending| == |pending.Keys|;
  }

  lemma OneMore(ws: seq<Write>, k: nat)
    requires k < |ws|
    ensures Sectors(ws[..k + 1]) == Sectors(ws[..k]) + {ws[k].sector}
    ensures ws[..k + 1][..k] == ws[..k]
  {
    assert ws[..k + 1][..k] == ws[..k];
  }

  /** A full log before update k is full before the last. */
  lemma TooMany(ws: seq<Write>, k: nat, size: nat)
    requires k < |ws| && |Sectors(ws[..k])| >= Room(size)
    ensures !FitsLog(ws, size)
  {
    SectorsGrow(ws[..|ws| - 1], k);
    assert ws[..|ws| - 1][..k] == ws[..k];
  }

  /** A transaction. The log overflows exactly if more sectors are updated than it has room for.
      If it does not, readers see all the updates, and after a crash at any sector write and any
      number of recoveries cut off in turn the home sectors are exactly as before the
      transaction, up to disk c of the history, or exactly as after all of it, from there on.
      If it does, a crash leaves the home sectors as before. */
  method Transact(log: RedoLog, ws: seq<Write>) returns (ok: bool, ghost c: nat)
    requires log.Live() && !log.busy && log.pending == map[]
    requires forall w :: w in ws ==> w.sector < log.start
    modifies log, log.bc
    ensures ok <==> FitsLog(ws, log.size)
    ensures log.Base() && |old(log.bc.history)| <= c <= |log.bc.history| && old(log.bc.history) <= log.bc.history
    ensures ok ==> log.Live() && !log.busy && log.pending == map[]
    ensures ok ==> log.Mem() == log.bc.disk[..log.start] == Applied(old(log.Mem()), ws)
    ensures AllSurvive(log.bc.history, |old(log.bc.history)| - 1, c, log.start, old(log.Mem()))
    ensures if ok then AllSurvive(log.bc.history, c, |log.bc.history|, log.start, Applied(old(log.Mem()), ws))
      else c == |log.bc.history|
  {
    ghost var home, d, h0 := log.Mem(), log.bc.disk, log.bc.history;
    Nothing(d, log.start);
    log.BeginTrans();
    ok := Updates(log, ws, home);
    ghost var h1 := log.bc.history;
    c := |h1|;
    BeforeSurvives(h0, h1, d, log.start);
    if ok {
      log.CommitTrans();
      SinceSurvives(h1, log.bc.history, log.start, Applied(home, ws));
      assert forall k :: 0 <= k < c ==> log.bc.history[k] == h1[k];
    }
  }
}
