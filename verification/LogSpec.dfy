/** The on-disk format of the redo log (log.c) and what recovery makes of a disk.

    The log is the last sectors of the disk: a header at `start`, then one block per entry.
    The home sectors are those below `start`. */
module LogSpec {
  import opened Blocks

  const LOGSIZE: nat := 10

  /** `lh->n` */
  function HeaderN(b: Block): int
    requires |b.words| == WORDS
  {
    b.words[0]
  }

  /** `lh->sector[i]` */
  function HeaderSector(b: Block, i: nat): int
    requires |b.words| == WORDS && i < WORDS - 1
  {
    b.words[i + 1]
  }

  /** The header names at most LOGSIZE entries, all in the log, each with a home sector. */
  ghost predicate LogOk(d: Disk, start: nat) {
    && start < |d| && |d[start].words| == WORDS
    && 0 <= HeaderN(d[start]) <= LOGSIZE && start + HeaderN(d[start]) < |d|
    && forall i :: 0 <= i < HeaderN(d[start]) ==> 0 <= HeaderSector(d[start], i) < start
  }

  /** A header with its entry count set to zero. */
  function Cleared(b: Block): Block
    requires |b.words| == WORDS
  {
    Block(b.words[0 := 0])
  }

  /** The home sectors after the first k log entries of d have been copied onto them. */
  ghost function Replay(home: Disk, d: Disk, start: nat, k: nat): (r: Disk)
    requires LogOk(d, start) && |home| == start && k <= HeaderN(d[start])
    ensures |r| == start
  {
    if k == 0 then home
    else Replay(home, d, start, k - 1)[HeaderSector(d[start], k - 1) := d[start + k]]
  }

  /** The home sectors that a complete recovery of d leaves behind. */
  ghost function Recover(d: Disk, start: nat): (r: Disk)
    requires LogOk(d, start)
    ensures |r| == start
  {
    Replay(d[..start], d, start, HeaderN(d[start]))
  }

  /** The disk after the first k sector writes of recovery: n installs, then the header. */
  ghost function RecoveryAt(d: Disk, start: nat, k: nat): (r: Disk)
    requires LogOk(d, start) && k <= HeaderN(d[start]) + 1
    ensures |r| == |d|
  {
    if k == 0 then d
    else if k <= HeaderN(d[start]) then RecoveryAt(d, start, k - 1)[HeaderSector(d[start], k - 1) := d[start + k]]
    else RecoveryAt(d, start, k - 1)[start := Cleared(d[start])]
  }

  /** Installing replays the home sectors and leaves the log alone. */
  lemma {:induction false} InstallsReplay(d: Disk, start: nat, k: nat)
    requires LogOk(d, start) && k <= HeaderN(d[start])
    ensures RecoveryAt(d, start, k)[..start] == Replay(d[..start], d, start, k)
    ensures RecoveryAt(d, start, k)[start..] == d[start..]
  {
    if k > 0 {
      InstallsReplay(d, start, k - 1);
      var d', s := RecoveryAt(d, start, k - 1), HeaderSector(d[start], k - 1);
      assert d'[s := d[start + k]][..start] == d'[..start][s := d[start + k]];
      assert d'[s := d[start + k]][start..] == d'[start..];
    }
  }

  /** Two disks with the same log replay alike. */
  lemma {:induction false} ReplaySameLog(home: Disk, d: Disk, d': Disk, start: nat, k: nat)
    requires LogOk(d, start) && |d'| == |d| && d'[start..] == d[start..]
    requires |home| == start && k <= HeaderN(d[start])
    ensures d'[start] == d[start] && LogOk(d', start)
    ensures Replay(home, d', start, k) == Replay(home, d, start, k)
  {
    assert d'[start] == d'[start..][0] == d[start];
    if k > 0 {
      ReplaySameLog(home, d, d', start, k - 1);
      assert d'[start + k] == d'[start..][k] == d[start + k];
    }
  }

  /** What a home sector held before is forgotten once an entry for it is replayed. */
  lemma {:induction false} ReplayElsewhere(home: Disk, home': Disk, d: Disk, start: nat, k: nat, t: nat)
    requires LogOk(d, start) && |home| == |home'| == start && k <= HeaderN(d[start]) && t < start
    requires home[t] == home'[t] || exists j :: 0 <= j < k && HeaderSector(d[start], j) == t
    ensures Replay(home, d, start, k)[t] == Replay(home', d, start, k)[t]
  {
    if k > 0 && HeaderSector(d[start], k - 1) != t {
      ReplayElsewhere(home, home', d, start, k - 1, t);
    }
  }

  /** Replaying from a partly replayed home gives what replaying from scratch gives. */
  lemma {:induction false} ReplayResumes(home: Disk, d: Disk, start: nat, j: nat, k: nat)
    requires LogOk(d, start) && |home| == start && j <= k <= HeaderN(d[start])
    ensures Replay(Replay(home, d, start, j), d, start, k) == Replay(home, d, start, k)
  {
    forall t | 0 <= t < start
      ensures Replay(Replay(home, d, start, j), d, start, k)[t] == Replay(home, d, start, k)[t]
    {
      ReplayTouches(home, d, start, j, t);
      ReplayElsewhere(Replay(home, d, start, j), home, d, start, k, t);
    }
  }

  /** Replay changes only sectors that the header names. */
  lemma {:induction false} ReplayTouches(home: Disk, d: Disk, start: nat, k: nat, t: nat)
    requires LogOk(d, start) && |home| == start && k <= HeaderN(d[start]) && t < start
    ensures Replay(home, d, start, k)[t] == home[t] || exists j :: 0 <= j < k && HeaderSector(d[start], j) == t
  {
    if k > 0 { ReplayTouches(home, d, start, k - 1, t); }
  }

  /** A crash after any sector write of recovery leaves a disk that recovers to the same home sectors. */
  lemma CrashInRecovery(d: Disk, start: nat, k: nat)
    requires LogOk(d, start) && k <= HeaderN(d[start]) + 1
    ensures var d' := RecoveryAt(d, start, k);
      LogOk(d', start) && Recover(d', start) == Recover(d, start)
  {
    var d' := RecoveryAt(d, start, k);
    var n := HeaderN(d[start]);
    if k <= n {
      InstallsReplay(d, start, k);
      ReplaySameLog(d'[..start], d, d', start, n);
      ReplayResumes(d[..start], d, start, k, n);
    } else {
      InstallsReplay(d, start, n);
      assert d'[..start] == RecoveryAt(d, start, n)[..start];
    }
  }

  /** The disk after a series of recoveries, the i-th one cut short after ks[i] sector writes. */
  ghost function AfterCrashes(d: Disk, start: nat, ks: seq<nat>): Disk
    requires LogOk(d, start)
    decreases |ks|
  {
    if ks == [] then d
    else
      var k := if ks[0] <= HeaderN(d[start]) then ks[0] else HeaderN(d[start]) + 1;
      CrashInRecovery(d, start, k);
      AfterCrashes(RecoveryAt(d, start, k), start, ks[1..])
  }

  /** However often recovery crashes, the first one that completes yields the same home sectors. */
  lemma {:induction false} RecoveryIsIdempotent(d: Disk, start: nat, ks: seq<nat>)
    requires LogOk(d, start)
    ensures var d' := AfterCrashes(d, start, ks);
      && LogOk(d', start)
      && RecoveryAt(d', start, HeaderN(d'[start]) + 1)[..start] == Recover(d, start)
    decreases |ks|
  {
    if ks != [] {
      var k := if ks[0] <= HeaderN(d[start]) then ks[0] else HeaderN(d[start]) + 1;
      CrashInRecovery(d, start, k);
      RecoveryIsIdempotent(RecoveryAt(d, start, k), start, ks[1..]);
    } else {
      RecoveryCompletes(d, start);
    }
  }

  lemma RecoveryCompletes(d: Disk, start: nat)
    requires LogOk(d, start)
    ensures RecoveryAt(d, start, HeaderN(d[start]) + 1)[..start] == Recover(d, start)
  {
    InstallsReplay(d, start, HeaderN(d[start]));
    assert RecoveryAt(d, start, HeaderN(d[start]) + 1)[..start] == RecoveryAt(d, start, HeaderN(d[start]))[..start];
  }

  /** The disks after each of the first k sector writes of recovery. */
  ghost function RecoveryDisks(d: Disk, start: nat, k: nat): (r: seq<Disk>)
    requires LogOk(d, start) && k <= HeaderN(d[start]) + 1
    ensures |r| == k
  {
    if k == 0 then [] else RecoveryDisks(d, start, k - 1) + [RecoveryAt(d, start, k)]
  }

  lemma {:induction false} RecoveryDisksAt(d: Disk, start: nat, k: nat, j: nat)
    requires LogOk(d, start) && j < k <= HeaderN(d[start]) + 1
    ensures RecoveryDisks(d, start, k)[j] == RecoveryAt(d, start, j + 1)
  {
    if j < k - 1 { RecoveryDisksAt(d, start, k - 1, j); }
  }

  lemma DisksGrow(h: seq<Disk>, d: Disk, start: nat, k: nat)
    requires LogOk(d, start) && k <= HeaderN(d[start])
    ensures h + RecoveryDisks(d, start, k + 1) == h + RecoveryDisks(d, start, k) + [RecoveryAt(d, start, k + 1)]
  {
  }

  /** Installs do not disturb the log blocks still to be read. */
  lemma {:induction false} LogStays(d: Disk, start: nat, k: nat, t: nat)
    requires LogOk(d, start) && k <= HeaderN(d[start]) && start <= t < |d|
    ensures RecoveryAt(d, start, k)[t] == d[t]
  {
    if k > 0 { LogStays(d, start, k - 1, t); }
  }

  /** Home sectors `home` with the blocks of `pending` written over them. */
  ghost function Overlay(home: Disk, pending: map<nat, Block>): (r: Disk)
    ensures |r| == |home|
  {
    seq(|home|, s requires 0 <= s < |home| => if s in pending then pending[s] else home[s])
  }

  /** Committing: once the header names the pending sectors, recovery installs exactly those. */
  lemma {:induction false} ReplayIsOverlay(home: Disk, d: Disk, start: nat, k: nat, pending: map<nat, Block>)
    requires LogOk(d, start) && |home| == start && k <= HeaderN(d[start])
    requires forall i :: 0 <= i < k ==> HeaderSector(d[start], i) in pending
    requires forall i :: 0 <= i < k ==> d[start + i + 1] == pending[HeaderSector(d[start], i)]
    ensures forall t :: 0 <= t < start && (exists i :: 0 <= i < k && HeaderSector(d[start], i) == t) ==>
              t in pending && Replay(home, d, start, k)[t] == pending[t]
    ensures forall t :: 0 <= t < start && !(exists i :: 0 <= i < k && HeaderSector(d[start], i) == t) ==>
              Replay(home, d, start, k)[t] == home[t]
  {
    if k > 0 { ReplayIsOverlay(home, d, start, k - 1, pending); }
  }

  /** Every disk of the history recovers to one of the durable states, and to later ones later. */
  ghost predicate CrashSafe(history: seq<Disk>, epoch: seq<nat>, durables: seq<Disk>, start: nat) {
    && |epoch| == |history|
    && (forall k :: 0 <= k < |history| ==>
          LogOk(history[k], start) && epoch[k] < |durables| && Recover(history[k], start) == durables[epoch[k]])
    && (forall j, k :: 0 <= j < k < |history| ==> epoch[j] <= epoch[k])
  }

  ghost function Repeat(n: nat, e: nat): (r: seq<nat>)
    ensures |r| == n && forall k :: 0 <= k < n ==> r[k] == e
  {
    seq(n, _ => e)
  }

  /** Sector writes that keep recovering to the newest durable state extend a safe history. */
  lemma ExtendHistory(history: seq<Disk>, epoch: seq<nat>, durables: seq<Disk>, start: nat, news: seq<Disk>)
    requires CrashSafe(history, epoch, durables, start) && |durables| > 0
    requires forall k :: 0 <= k < |news| ==>
               LogOk(news[k], start) && Recover(news[k], start) == durables[|durables| - 1]
    ensures CrashSafe(history + news, epoch + Repeat(|news|, |durables| - 1), durables, start)
  {
  }

  /** A new durable state leaves the history safe. */
  lemma ExtendDurables(history: seq<Disk>, epoch: seq<nat>, durables: seq<Disk>, start: nat, d: Disk)
    requires CrashSafe(history, epoch, durables, start)
    ensures CrashSafe(history, epoch, durables + [d], start)
  {
  }

  /** Without a committed transaction the home sectors are what recovery yields. */
  lemma RecoverIdle(d: Disk, start: nat)
    requires start < |d| && |d[start].words| == WORDS && HeaderN(d[start]) == 0
    ensures LogOk(d, start) && Recover(d, start) == d[..start]
  {
  }

  /** A write into the log, with the header empty, does not change what the disk recovers to. */
  lemma IdleWrite(d: Disk, d': Disk, start: nat, t: nat)
    requires start < t < |d| && |d'| == |d| && d' == d[t := d'[t]]
    requires |d[start].words| == WORDS && HeaderN(d[start]) == 0
    ensures LogOk(d', start) && Recover(d', start) == d'[..start] == d[..start]
  {
    RecoverIdle(d', start);
  }

  /** A commit that writes d1 and then recovers it adds one durable state, and every disk it
      passes through recovers to that state. */
  lemma CommitHistory(history: seq<Disk>, epoch: seq<nat>, durables: seq<Disk>, start: nat, d1: Disk)
    requires CrashSafe(history, epoch, durables, start) && LogOk(d1, start)
    ensures var n, mem := HeaderN(d1[start]), Recover(d1, start);
      && CrashSafe(history + [d1] + RecoveryDisks(d1, start, n + 1),
                   epoch + Repeat(n + 2, |durables|), durables + [mem], start)
      && var final := RecoveryAt(d1, start, n + 1);
         |final[start].words| == WORDS && HeaderN(final[start]) == 0 && final[..start] == mem
  {
    var n, mem := HeaderN(d1[start]), Recover(d1, start);
    CrashInRecovery(d1, start, n + 1);
    LogStays(d1, start, n, start);
    RecoverIdle(RecoveryAt(d1, start, n + 1), start);
    ExtendDurables(history, epoch, durables, start, mem);
    var r := RecoveryDisks(d1, start, n + 1);
    forall k | 0 <= k < |[d1] + r| ensures LogOk(([d1] + r)[k], start) && Recover(([d1] + r)[k], start) == mem {
      CommitDisk(d1, start, k);
    }
    ExtendHistory(history, epoch, durables + [mem], start, [d1] + r);
    assert history + [d1] + r == history + ([d1] + r);
  }

  lemma CommitDisk(d1: Disk, start: nat, k: nat)
    requires LogOk(d1, start) && k < HeaderN(d1[start]) + 2
    ensures var r := [d1] + RecoveryDisks(d1, start, HeaderN(d1[start]) + 1);
      LogOk(r[k], start) && Recover(r[k], start) == Recover(d1, start)
  {
    if k > 0 {
      RecoveryDisksAt(d1, start, HeaderN(d1[start]) + 1, k - 1);
      CrashInRecovery(d1, start, k);
    }
  }

  /** Crash atomicity: cut the machine off after any sector write, then cut off any number of
      recoveries; the first that completes leaves the home sectors of one commit. */
  lemma CrashAtomic(history: seq<Disk>, epoch: seq<nat>, durables: seq<Disk>, start: nat, k: nat, ks: seq<nat>)
    requires CrashSafe(history, epoch, durables, start) && k < |history|
    ensures var d := AfterCrashes(history[k], start, ks);
      && LogOk(d, start)
      && RecoveryAt(d, start, HeaderN(d[start]) + 1)[..start] == durables[epoch[k]]
  {
    RecoveryIsIdempotent(history[k], start, ks);
  }
}
